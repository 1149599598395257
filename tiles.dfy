/**
 * The tile stage of the datamap script: reading the tile list that the
 * `enumerate` tool prints (`enumerate_tiles`), creating one output folder
 * per zoom level and column (`create_tile_subfolders`), and the path each
 * rendered tile is written to (`generate_tile`).
 *
 * The tool's standard output is an input; running it, and running `render`
 * and `pngquant`, is not modelled. Every value of a tile line stays a
 * string, as in the script.
 */
module Tiles {
  import opened Wrappers
  import Text
  import Seqs
  import SyncPlan

  /** One line of the enumeration: the quadtree directory, the zoom level and the tile column and row. */
  datatype TileParams = TileParams(sourceDir: string, zoom: string, x: string, y: string)

  /** The command line that enumerates the tiles of zoom levels 0 to `maxZoom`. */
  function EnumerateCommand(shapesDir: string, maxZoom: nat): (r: seq<string>)
    ensures |r| == 4 && r[0] == "enumerate" && r[1] == "-z" && r[3] == shapesDir
    ensures Text.IsDigits(r[2]) && Text.ParseDecimal(r[2]) == maxZoom
  {
    Text.ParseDecimalOfDecimal(maxZoom);
    ["enumerate", "-z", Text.Decimal(maxZoom), shapesDir]
  }

  /**
   * The loop of `enumerate_tiles` over the output lines: a blank line is
   * skipped, a line of four fields becomes a tile, any other line fails the
   * assertion.
   */
  function ParseLines(lines: seq<string>): Result<seq<TileParams>>
    decreases |lines|
  {
    if lines == [] then Ok([])
    else
      var out := Text.Words(lines[0]);
      if out == [] then ParseLines(lines[1..])
      else if |out| != 4 then Err("AssertionError")
      else match ParseLines(lines[1..])
        case Err(e) => Err(e)
        case Ok(rest) => Ok([TileParams(out[0], out[1], out[2], out[3])] + rest)
  }

  /** `enumerate_tiles` applied to the tool's decoded output. */
  function EnumerateTiles(stdout: string): (r: Result<seq<TileParams>>)
    ensures r.Ok? <==> AllWellFormed(Text.Lines(stdout))
    ensures r.Ok? ==> |r.value| == |NonBlank(Text.Lines(stdout))|
    ensures r.Ok? ==> forall k :: 0 <= k < |r.value| ==> TileOfLine(r.value[k], NonBlank(Text.Lines(stdout))[k])
  {
    var lines := Text.Lines(stdout);
    ParseLinesMeaning(lines);
    assert AllWellFormed(lines) <==> forall i :: 0 <= i < |lines| ==> WellFormedLine(lines[i]);
    ParseLines(lines)
  }

  // ---------------------------------------------------------------------
  // Parsing against the lines and against the printed form

  /** A line that yields a tile or is skipped. */
  predicate WellFormedLine(line: string) {
    |Text.Words(line)| == 0 || |Text.Words(line)| == 4
  }

  /** Every line yields a tile or is skipped. */
  predicate AllWellFormed(lines: seq<string>) {
    forall i :: 0 <= i < |lines| ==> WellFormedLine(lines[i])
  }

  /** The lines that are not blank, in order. */
  function NonBlank(lines: seq<string>): (r: seq<string>)
    ensures forall k :: 0 <= k < |r| ==> Text.Words(r[k]) != [] && r[k] in lines
    decreases |lines|
  {
    if lines == [] then []
    else (if Text.Words(lines[0]) == [] then [] else [lines[0]]) + NonBlank(lines[1..])
  }

  /**
   * The filter keeps every non-blank line as often as it occurs, drops every
   * blank one, and keeps the order of the lines.
   */
  lemma {:induction false} NonBlankKeeps(lines: seq<string>)
    ensures forall l :: multiset(NonBlank(lines))[l] == if Text.Words(l) != [] then multiset(lines)[l] else 0
    ensures Seqs.Subsequence(NonBlank(lines), lines)
    decreases |lines|
  {
    if lines != [] {
      var rest := NonBlank(lines[1..]);
      NonBlankKeeps(lines[1..]);
      assert multiset(lines) == multiset{lines[0]} + multiset(lines[1..]) by {
        assert lines == [lines[0]] + lines[1..];
      }
      if Text.Words(lines[0]) == [] {
        assert NonBlank(lines) == rest;
        assert rest != [] ==> rest[0] in rest;
      } else {
        assert NonBlank(lines) == [lines[0]] + rest;
        assert ([lines[0]] + rest)[1..] == rest;
      }
    }
  }

  /** The tile a four-field line names, its fields in order. */
  predicate TileOfLine(t: TileParams, line: string) {
    Text.Words(line) == [t.sourceDir, t.zoom, t.x, t.y]
  }

  /** Every line is well formed exactly when the first one is and every later one is. */
  lemma WellFormedStep(lines: seq<string>)
    requires lines != []
    ensures (forall i :: 0 <= i < |lines| ==> WellFormedLine(lines[i]))
        <==> WellFormedLine(lines[0]) && forall i :: 0 <= i < |lines[1..]| ==> WellFormedLine(lines[1..][i])
  {
    if WellFormedLine(lines[0]) && forall i :: 0 <= i < |lines[1..]| ==> WellFormedLine(lines[1..][i]) {
      forall i | 0 <= i < |lines| ensures WellFormedLine(lines[i]) {
        if i > 0 {
          assert lines[i] == lines[1..][i - 1];
        }
      }
    }
  }

  /** The lines parse exactly when every line is blank or has four fields. */
  lemma {:induction false} ParseLinesOk(lines: seq<string>)
    ensures ParseLines(lines).Ok? <==> forall i :: 0 <= i < |lines| ==> WellFormedLine(lines[i])
    decreases |lines|
  {
    if lines != [] {
      ParseLinesOk(lines[1..]);
      WellFormedStep(lines);
    }
  }

  /** Parsed lines give one tile per non-blank line, in order, with the line's fields in order. */
  lemma {:induction false} ParseLinesTiles(lines: seq<string>)
    requires ParseLines(lines).Ok?
    ensures |ParseLines(lines).value| == |NonBlank(lines)|
    ensures forall k :: 0 <= k < |NonBlank(lines)| ==> TileOfLine(ParseLines(lines).value[k], NonBlank(lines)[k])
    decreases |lines|
  {
    if lines != [] {
      var out := Text.Words(lines[0]);
      assert ParseLines(lines[1..]).Ok?;
      ParseLinesTiles(lines[1..]);
      var rest := ParseLines(lines[1..]).value;
      var nb := NonBlank(lines[1..]);
      if out != [] {
        var t := TileParams(out[0], out[1], out[2], out[3]);
        assert ParseLines(lines).value == [t] + rest;
        assert NonBlank(lines) == [lines[0]] + nb;
        assert out == [t.sourceDir, t.zoom, t.x, t.y];
        forall k | 0 <= k < |NonBlank(lines)|
          ensures TileOfLine(ParseLines(lines).value[k], NonBlank(lines)[k])
        {
          if k > 0 {
            assert ParseLines(lines).value[k] == rest[k - 1];
            assert NonBlank(lines)[k] == nb[k - 1];
          }
        }
      } else {
        assert NonBlank(lines) == nb;
      }
    }
  }

  /**
   * The lines parse exactly when every line is blank or has four fields;
   * the tiles are then one per non-blank line, in order, with the line's
   * fields in order.
   */
  lemma ParseLinesMeaning(lines: seq<string>)
    ensures ParseLines(lines).Ok? <==> forall i :: 0 <= i < |lines| ==> WellFormedLine(lines[i])
    ensures ParseLines(lines).Ok? ==>
      |ParseLines(lines).value| == |NonBlank(lines)|
      && forall k :: 0 <= k < |NonBlank(lines)| ==> TileOfLine(ParseLines(lines).value[k], NonBlank(lines)[k])
  {
    ParseLinesOk(lines);
    if ParseLines(lines).Ok? {
      ParseLinesTiles(lines);
    }
  }

  /** The printed form of a tile: its fields separated by single spaces. */
  function FormatLine(t: TileParams): string {
    Text.JoinWords([t.sourceDir, t.zoom, t.x, t.y])
  }

  /** The printed form of a tile list: one line per tile, each ended by a newline. */
  function FormatTiles(tiles: seq<TileParams>): string
    decreases |tiles|
  {
    if tiles == [] then "" else FormatLine(tiles[0]) + "\n" + FormatTiles(tiles[1..])
  }

  /** Every field of the tile is a non-empty run of non-whitespace characters. */
  predicate PrintableTile(t: TileParams) {
    Text.IsWord(t.sourceDir) && Text.IsWord(t.zoom) && Text.IsWord(t.x) && Text.IsWord(t.y)
  }

  /** A line break is whitespace, so a word holds none. */
  lemma LineBreakIsSpace(c: char)
    requires Text.IsLineBreak(c)
    ensures Text.IsSpace(c)
  {
  }

  /** A printed tile is one line. */
  lemma FormatLineUnbroken(t: TileParams)
    requires PrintableTile(t)
    ensures forall k :: 0 <= k < |FormatLine(t)| ==> !Text.IsLineBreak(FormatLine(t)[k])
  {
    var line := FormatLine(t);
    var words := [t.sourceDir, t.zoom, t.x, t.y];
    assert words[1..] == [t.zoom, t.x, t.y] && words[1..][1..] == [t.x, t.y] && words[1..][1..][1..] == [t.y];
    assert Text.JoinWords([t.y]) == t.y;
    assert Text.JoinWords([t.x, t.y]) == t.x + " " + t.y;
    assert Text.JoinWords([t.zoom, t.x, t.y]) == t.zoom + " " + (t.x + " " + t.y);
    assert line == t.sourceDir + " " + (t.zoom + " " + (t.x + " " + t.y));
    forall c: char | Text.IsLineBreak(c) ensures Text.IsSpace(c) {
      LineBreakIsSpace(c);
    }
  }

  /** A line holding a tile's four fields puts that tile before the tiles of the lines after it. */
  lemma ParseTileLine(t: TileParams, lines: seq<string>, tiles: seq<TileParams>)
    requires lines != [] && TileOfLine(t, lines[0])
    requires ParseLines(lines[1..]) == Ok(tiles)
    ensures ParseLines(lines) == Ok([t] + tiles)
  {
  }

  /** The same, for a line put in front of the others. */
  lemma ParseTileCons(tiles: seq<TileParams>, line: string, rest: seq<string>)
    requires tiles != [] && TileOfLine(tiles[0], line) && ParseLines(rest) == Ok(tiles[1..])
    ensures ParseLines([line] + rest) == Ok(tiles)
  {
    assert ([line] + rest)[1..] == rest;
    ParseTileLine(tiles[0], [line] + rest, tiles[1..]);
    assert [tiles[0]] + tiles[1..] == tiles;
  }

  /** The fields of a printed tile read back as the tile. */
  lemma PrintedTileOfLine(t: TileParams)
    requires PrintableTile(t)
    ensures TileOfLine(t, FormatLine(t))
  {
    Text.WordsJoinWords([t.sourceDir, t.zoom, t.x, t.y]);
  }

  /** The lines of a printed list: the first tile's line, then the lines of the rest. */
  lemma FormatTilesLines(tiles: seq<TileParams>)
    requires tiles != [] && PrintableTile(tiles[0])
    ensures Text.Lines(FormatTiles(tiles)) == [FormatLine(tiles[0])] + Text.Lines(FormatTiles(tiles[1..]))
  {
    FormatLineUnbroken(tiles[0]);
    Text.LinesAtBreak(FormatLine(tiles[0]), FormatTiles(tiles[1..]));
  }

  /** Reading the printed form of a tile list gives the list back. */
  lemma EnumerateRoundTrip(tiles: seq<TileParams>)
    requires forall i :: 0 <= i < |tiles| ==> PrintableTile(tiles[i])
    ensures EnumerateTiles(FormatTiles(tiles)) == Ok(tiles)
  {
    ParsePrinted(tiles);
  }

  /** Parsing the lines of a printed tile list gives the list back. */
  lemma {:induction false} ParsePrinted(tiles: seq<TileParams>)
    requires forall i :: 0 <= i < |tiles| ==> PrintableTile(tiles[i])
    ensures ParseLines(Text.Lines(FormatTiles(tiles))) == Ok(tiles)
    decreases |tiles|
  {
    if tiles == [] {
      ParsePrintedNone();
    } else {
      ParsePrinted(tiles[1..]);
      ParsePrintedStep(tiles);
    }
  }

  /** Printing no tiles gives one blank line, which parses to no tiles. */
  lemma ParsePrintedNone()
    ensures ParseLines(Text.Lines(FormatTiles([]))) == Ok([])
  {
    assert Text.Lines("") == [""];
    assert Text.Words("") == [];
  }

  /** The first printed tile's line parses to that tile, ahead of the rest. */
  lemma ParsePrintedStep(tiles: seq<TileParams>)
    requires tiles != [] && PrintableTile(tiles[0])
    requires ParseLines(Text.Lines(FormatTiles(tiles[1..]))) == Ok(tiles[1..])
    ensures ParseLines(Text.Lines(FormatTiles(tiles))) == Ok(tiles)
  {
    FormatTilesLines(tiles);
    PrintedTileOfLine(tiles[0]);
    ParseTileCons(tiles, FormatLine(tiles[0]), Text.Lines(FormatTiles(tiles[1..])));
  }

  // ---------------------------------------------------------------------
  // Output folders

  /** The zoom level and column of every tile. */
  function FolderParts(tiles: seq<TileParams>): set<(string, string)> {
    set i | 0 <= i < |tiles| :: (tiles[i].zoom, tiles[i].x)
  }

  /** `os.path.join(tiles_dir, zoom, tile_x)`. */
  function Folder(tilesDir: string, part: (string, string)): string {
    Text.PathJoin(Text.PathJoin(tilesDir, part.0), part.1)
  }

  predicate DistinctParts(parts: seq<(string, string)>) {
    forall i, j :: 0 <= i < j < |parts| ==> parts[i] != parts[j]
  }

  lemma FolderPartsStep(tiles: seq<TileParams>, i: nat)
    requires i < |tiles|
    ensures FolderParts(tiles[..i + 1]) == FolderParts(tiles[..i]) + {(tiles[i].zoom, tiles[i].x)}
  {
    assert forall k :: 0 <= k < i ==> tiles[..i + 1][k] == tiles[..i][k];
  }

  /** The first loop of `create_tile_subfolders`: the set of zoom levels and columns. */
  method CollectFolderParts(tileParams: seq<TileParams>) returns (folderParts: set<(string, string)>)
    ensures folderParts == FolderParts(tileParams)
  {
    folderParts := {};
    var i := 0;
    while i < |tileParams|
      invariant 0 <= i <= |tileParams|
      invariant folderParts == FolderParts(tileParams[..i])
    {
      FolderPartsStep(tileParams, i);
      folderParts := folderParts + {(tileParams[i].zoom, tileParams[i].x)};
      i := i + 1;
    }
    assert tileParams[..i] == tileParams;
  }

  lemma AppendDistinct(parts: seq<(string, string)>, part: (string, string))
    requires DistinctParts(parts) && part !in parts
    ensures DistinctParts(parts + [part])
  {
    var longer := parts + [part];
    forall i, j | 0 <= i < j < |longer| ensures longer[i] != longer[j] {
      assert longer[i] == parts[i];
      if j < |parts| {
        assert longer[j] == parts[j];
      }
    }
  }

  /** The second loop of `create_tile_subfolders`: one folder per part, in the set's iteration order. */
  method MakeFolders(folderParts: set<(string, string)>, tilesDir: string)
    returns (created: seq<(string, string)>, folders: seq<string>)
    ensures DistinctParts(created) && (forall p :: p in created <==> p in folderParts)
    ensures |folders| == |created| && forall k :: 0 <= k < |created| ==> folders[k] == Folder(tilesDir, created[k])
  {
    created := [];
    folders := [];
    var remaining := folderParts;
    while remaining != {}
      invariant DistinctParts(created)
      invariant forall p :: p in created <==> p in folderParts && p !in remaining
      invariant remaining <= folderParts
      invariant |folders| == |created| && forall k :: 0 <= k < |created| ==> folders[k] == Folder(tilesDir, created[k])
      decreases |remaining|
    {
      var part :| part in remaining;
      AppendDistinct(created, part);
      folders := folders + [Folder(tilesDir, part)];
      created := created + [part];
      remaining := remaining - {part};
    }
  }

  /**
   * `create_tile_subfolders`: collects the distinct zoom levels and columns,
   * then makes the folder of each one once, in the set's iteration order.
   * `created` lists the parts in the order their folders are made and
   * `folders` the paths passed to `os.makedirs`.
   */
  method CreateTileSubfolders(tileParams: seq<TileParams>, tilesDir: string)
    returns (folderParts: set<(string, string)>, created: seq<(string, string)>, folders: seq<string>)
    ensures folderParts == FolderParts(tileParams)
    ensures DistinctParts(created) && (forall p :: p in created <==> p in folderParts)
    ensures |folders| == |created| && forall k :: 0 <= k < |created| ==> folders[k] == Folder(tilesDir, created[k])
  {
    folderParts := CollectFolderParts(tileParams);
    created, folders := MakeFolders(folderParts, tilesDir);
  }

  /** Every tile of the enumeration is written into a folder that was made for it. */
  lemma TileFoldersMade(tileParams: seq<TileParams>, tilesDir: string, created: seq<(string, string)>, folders: seq<string>, i: nat)
    requires forall p :: p in created <==> p in FolderParts(tileParams)
    requires |folders| == |created| && forall k :: 0 <= k < |created| ==> folders[k] == Folder(tilesDir, created[k])
    requires i < |tileParams|
    ensures Folder(tilesDir, (tileParams[i].zoom, tileParams[i].x)) in folders
  {
    var part := (tileParams[i].zoom, tileParams[i].x);
    assert part in FolderParts(tileParams);
    var k :| 0 <= k < |created| && created[k] == part;
    assert folders[k] == Folder(tilesDir, part);
  }

  // ---------------------------------------------------------------------
  // Output path

  /** `generate_tile`'s output path: `tiles_dir/zoom/x/y<suffix>.png`. */
  function TilePath(tilesDir: string, zoom: string, x: string, y: string, suffix: string): (r: string)
    ensures Text.EndsWith(r, y + suffix + ".png")
    ensures y != "" && y[0] != '/' ==> Text.StartsWith(r, Folder(tilesDir, (zoom, x)))
  {
    var file := y + suffix + ".png";
    Text.PathJoinParts(Folder(tilesDir, (zoom, x)), file);
    assert y != "" ==> file[..1] == y[..1];
    Text.PathJoin(Folder(tilesDir, (zoom, x)), file)
  }

  /** A path component: non-empty and free of `/`. */
  predicate Component(s: string) {
    s != "" && '/' !in s
  }

  /** The separator `os.path.join` puts after `dir`. */
  function Sep(dir: string): string {
    if dir == "" || Text.EndsWith(dir, "/") then "" else "/"
  }

  /** Joining a name that does not start with `/` appends it after the separator. */
  lemma JoinRelative(dir: string, name: string)
    requires name != "" && name[0] != '/'
    ensures Text.PathJoin(dir, name) == dir + Sep(dir) + name
  {
    assert !Text.StartsWith(name, "/") by {
      assert name[..1] == [name[0]];
    }
  }

  /** After a path that ends in a component, the separator is one slash. */
  lemma SepAfterComponent(prefix: string, comp: string)
    requires Component(comp)
    ensures Sep(prefix + comp) == "/"
  {
    var d := prefix + comp;
    assert d[|d| - 1] == comp[|comp| - 1];
    assert d[|d| - 1..] == [d[|d| - 1]];
  }

  /** `tiles_dir/zoom/x`, spelled out. */
  lemma FolderSpelled(tilesDir: string, zoom: string, x: string)
    requires Component(zoom) && Component(x)
    ensures Folder(tilesDir, (zoom, x)) == tilesDir + Sep(tilesDir) + zoom + "/" + x
  {
    JoinRelative(tilesDir, zoom);
    SepAfterComponent(tilesDir + Sep(tilesDir), zoom);
    JoinRelative(tilesDir + Sep(tilesDir) + zoom, x);
  }

  lemma Assoc(a: string, b: string, c: string)
    ensures a + b + c == a + (b + c)
  {
  }

  /** `tiles_dir/zoom/x/<file>`, spelled out. */
  lemma TilePathSpelled(tilesDir: string, zoom: string, x: string, y: string, suffix: string)
    requires Component(zoom) && Component(x) && Component(y)
    ensures TilePath(tilesDir, zoom, x, y, suffix) == tilesDir + Sep(tilesDir) + zoom + "/" + x + "/" + (y + suffix + ".png")
  {
    var file := y + suffix + ".png";
    assert file[0] == y[0];
    var folder := tilesDir + Sep(tilesDir) + zoom + "/" + x;
    FolderSpelled(tilesDir, zoom, x);
    SepAfterComponent(tilesDir + Sep(tilesDir) + zoom + "/", x);
    JoinRelative(folder, file);
  }

  /**
   * For components without `/`, the tile path is the tile's
   * `zoom/x/y<suffix>.png` name under the tiles directory, and the sync
   * stage uploads it under exactly that object name.
   */
  lemma TilePathObjectName(tilesDir: string, zoom: string, x: string, y: string, suffix: string)
    requires Component(zoom) && Component(x) && Component(y) && '/' !in suffix
    ensures TilePath(tilesDir, zoom, x, y, suffix) == Text.PathJoin(tilesDir, zoom + "/" + x + "/" + y + suffix + ".png")
    ensures SyncPlan.ObjectName(tilesDir, TilePath(tilesDir, zoom, x, y, suffix)) == zoom + "/" + x + "/" + y + suffix + ".png"
  {
    var rel := zoom + "/" + x + "/" + y + suffix + ".png";
    assert rel[0] == zoom[0];
    TilePathSpelled(tilesDir, zoom, x, y, suffix);
    JoinRelative(tilesDir, rel);
    var a := tilesDir + Sep(tilesDir);
    var p1 := zoom + "/";
    var p2 := p1 + x;
    var p3 := p2 + "/";
    Assoc(a, zoom, "/");
    Assoc(a, p1, x);
    Assoc(a, p2, "/");
    Assoc(a, p3, y + suffix + ".png");
    Assoc(p3, y, suffix);
    Assoc(p3, y + suffix, ".png");
    assert a + zoom + "/" + x + "/" + (y + suffix + ".png") == a + rel;
    SyncPlan.ObjectNameOfJoin(tilesDir, rel);
  }
}
