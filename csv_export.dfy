/**
 * Exporting one datamap table to CSV files (`export_to_csv`).
 *
 * The table is read in pages by a keyset query (`grid > :grid ORDER BY grid
 * LIMIT :limit`); each page yields some CSV lines, which are appended to the
 * current output file. After a page, the file is rotated once enough lines
 * have been exported: a new serially named file is opened. At the end an
 * empty last file is removed, and when several files remain the first one is
 * renamed into the serial scheme.
 *
 * The pages the database returns are an input, each given by its row count,
 * the number of CSV lines its rows expand to, and the grid of its last row.
 * The output files are the list of files created, in order, each with its
 * path and the number of lines written to it.
 */
module CsvExport {
  import opened Wrappers
  import Text

  /** One page of the keyset query: its row count, the CSV lines they expand to, the grid of its last row. */
  datatype Page = Page(rowCount: nat, lines: nat, lastGrid: seq<bv8>)

  /** One query: the row limit and the grid the rows must come after. */
  datatype Query = Query(limit: nat, after: seq<bv8>)


  /** A file the export created: its path and the number of lines written to it. */
  datatype OutputFile = OutputFile(path: string, lines: nat)

  /** When a file is rotated: as written, on the lines exported so far; as intended, on the lines in the current file. */
  datatype Rotation = Cumulative | PerFile

  /**
   * The state after some pages: lines exported, lines in the open file,
   * files opened so far, the files already closed, and the open file.
   */
  datatype Progress = Progress(resultRows: nat, fileRows: nat, fileCount: nat, closed: seq<OutputFile>, current: OutputFile)

  /** What an export returns and leaves behind: lines exported, number of files, and the files in creation order. */
  datatype Exported = Exported(resultRows: nat, fileCount: nat, files: seq<OutputFile>)

  /** Python's `value or default` on an optional count: a missing or zero value takes the default. */
  function OrDefault(value: Option<nat>, default: nat): (r: nat)
    ensures value.Some? && value.value != 0 ==> r == value.value
    ensures value.None? || value.value == 0 ==> r == default
  {
    if value.Some? && value.value != 0 then value.value else default
  }

  const DefaultRowLimit: nat := 200_000
  const DefaultFileLimit: nat := 10_000_000

  /** The name of the `k`-th file of a rotated export: `"sub"` before the name, `_{k:04}` before `.csv`. */
  function SegmentName(orig: string, k: nat): string {
    "sub" + Text.ReplaceAll(orig, ".csv", "_" + Text.Pad4(k) + ".csv")
  }

  /** The name the first file is renamed to when several files remain. */
  function FirstSegmentName(orig: string): string {
    "sub" + Text.ReplaceAll(orig, ".csv", "_0001.csv")
  }

  /** The path of the `k`-th file of an export of `orig` into `csvDir`. */
  function SegmentPath(csvDir: string, orig: string): nat -> string {
    (k: nat) => Text.PathJoin(csvDir, SegmentName(orig, k))
  }

  predicate Rotates(rule: Rotation, p: Progress, limit: nat) {
    match rule
    case Cumulative => p.resultRows >= limit
    case PerFile => p.fileRows >= limit
  }

  /** The files opened so far, in order: the closed ones, then the open one. */
  function Opened(p: Progress): seq<OutputFile> {
    p.closed + [p.current]
  }

  /** The counters agree with the files: one count per file opened, and the open file holds the lines since it was opened. */
  predicate Consistent(p: Progress) {
    |p.closed| + 1 == p.fileCount && p.fileRows == p.current.lines
  }

  /**
   * The lines of one page written to the open file, then the file rotated
   * if the rule says so; `next(k)` is the path the `k`-th file is opened at.
   */
  function Turn(p: Progress, next: nat -> string, limit: nat, rule: Rotation, lines: nat): Progress {
    var written := Progress(p.resultRows + lines, p.fileRows + lines, p.fileCount, p.closed,
                            OutputFile(p.current.path, p.current.lines + lines));
    if Rotates(rule, written, limit) then
      Progress(written.resultRows, 0, written.fileCount + 1, written.closed + [written.current],
               OutputFile(next(written.fileCount + 1), 0))
    else written
  }

  /** The lines of a sequence of files added up. */
  function SumFiles(files: seq<OutputFile>): nat
    decreases |files|
  {
    if files == [] then 0 else SumFiles(files[..|files| - 1]) + files[|files| - 1].lines
  }

  /** The lines of a sequence of pages added up. */
  function SumLines(pages: seq<Page>): nat
    decreases |pages|
  {
    if pages == [] then 0 else SumLines(pages[..|pages| - 1]) + pages[|pages| - 1].lines
  }

  lemma SumFilesAppend(files: seq<OutputFile>, f: OutputFile)
    ensures SumFiles(files + [f]) == SumFiles(files) + f.lines
  {
    assert (files + [f])[..|files|] == files;
  }

  /** The export loop over the pages that held rows, the first file opened at `first`; its counters stay consistent. */
  function Run(pages: seq<Page>, first: string, next: nat -> string, limit: nat, rule: Rotation): (r: Progress)
    ensures Consistent(r)
    decreases |pages|
  {
    if pages == [] then Progress(0, 0, 1, [], OutputFile(first, 0))
    else Turn(Run(pages[..|pages| - 1], first, next, limit, rule), next, limit, rule, pages[|pages| - 1].lines)
  }

  /** After the last page: an empty open file is removed, and the first file moved to `renamed` when several remain. */
  function Finish(p: Progress, renamed: string): Exported
    requires Consistent(p)
  {
    var files := if p.fileRows == 0 then p.closed else Opened(p);
    var count := if p.fileRows == 0 then p.fileCount - 1 else p.fileCount;
    if count > 1 then Exported(p.resultRows, count, files[0 := OutputFile(renamed, files[0].lines)])
    else Exported(p.resultRows, count, files)
  }

  /** The whole export of the pages that held rows, from `orig` in `csvDir`. */
  function Export(pages: seq<Page>, orig: string, csvDir: string, limit: nat, rule: Rotation): Exported {
    Finish(Run(pages, Text.PathJoin(csvDir, orig), SegmentPath(csvDir, orig), limit, rule),
           Text.PathJoin(csvDir, FirstSegmentName(orig)))
  }

  /** The pages of a whole query run: every page but the last has rows, and the last has none. */
  predicate CompleteQuery(pages: seq<Page>) {
    |pages| >= 1 && pages[|pages| - 1].rowCount == 0
    && forall k :: 0 <= k < |pages| - 1 ==> pages[k].rowCount > 0
  }

  lemma RunStep(pages: seq<Page>, k: nat, first: string, next: nat -> string, limit: nat, rule: Rotation)
    requires k < |pages|
    ensures Run(pages[..k + 1], first, next, limit, rule)
         == Turn(Run(pages[..k], first, next, limit, rule), next, limit, rule, pages[k].lines)
  {
    assert pages[..k + 1][..k] == pages[..k];
  }

  /**
   * One turn of the loop of `export_to_csv`, as written: the lines of a page
   * are written to the open file, and the file is rotated once the lines
   * exported so far reach the file limit.
   */
  method WritePage(p: Progress, lines: nat, origFilename: string, csvDir: string, fileLim: nat) returns (q: Progress)
    ensures q == Turn(p, SegmentPath(csvDir, origFilename), fileLim, Cumulative, lines)
  {
    var current := OutputFile(p.current.path, p.current.lines + lines);
    var resultRows := p.resultRows + lines;
    var fileRows := p.fileRows + lines;
    var fileCount := p.fileCount;
    var closed := p.closed;
    if resultRows >= fileLim {
      closed := closed + [current];
      fileCount := fileCount + 1;
      fileRows := 0;
      var name := "sub" + Text.ReplaceAll(origFilename, ".csv", "_" + Text.Pad4(fileCount) + ".csv");
      var filePath := Text.PathJoin(csvDir, name);
      current := OutputFile(filePath, 0);
    }
    q := Progress(resultRows, fileRows, fileCount, closed, current);
  }

  /**
   * The fetch-and-write loop of `export_to_csv`: pages are fetched after the
   * last grid seen until one is empty, and each is written out.
   */
  method WritePages(filename: string, csvDir: string, pages: seq<Page>, rowLim: nat, fileLim: nat)
    returns (p: Progress, queries: seq<Query>)
    requires CompleteQuery(pages)
    ensures p == Run(pages[..|pages| - 1], Text.PathJoin(csvDir, filename), SegmentPath(csvDir, filename), fileLim, Cumulative)
    ensures |queries| == |pages|
    ensures forall k :: 0 <= k < |pages| ==> queries[k] == Query(rowLim, if k == 0 then [] else pages[k - 1].lastGrid)
  {
    var minGrid: seq<bv8> := [];
    p := Progress(0, 0, 1, [], OutputFile(Text.PathJoin(csvDir, filename), 0));
    queries := [];
    var k := 0;
    assert pages[..0] == [];
    while true
      invariant k < |pages|
      invariant p == Run(pages[..k], Text.PathJoin(csvDir, filename), SegmentPath(csvDir, filename), fileLim, Cumulative)
      invariant minGrid == if k == 0 then [] else pages[k - 1].lastGrid
      invariant |queries| == k
      invariant forall j :: 0 <= j < k ==> queries[j] == Query(rowLim, if j == 0 then [] else pages[j - 1].lastGrid)
      decreases |pages| - k
    {
      queries := queries + [Query(rowLim, minGrid)];
      var rows := pages[k];
      if rows.rowCount == 0 {
        break;
      }
      RunStep(pages, k, Text.PathJoin(csvDir, filename), SegmentPath(csvDir, filename), fileLim, Cumulative);
      p := WritePage(p, rows.lines, filename, csvDir, fileLim);
      minGrid := rows.lastGrid;
      k := k + 1;
    }
    assert pages[..k] == pages[..|pages| - 1];
  }

  /**
   * `export_to_csv`, as written: the pages are written out, then an empty
   * last file is removed and, when several files remain, the first one is
   * renamed into the serial scheme. Returns the lines exported, the number
   * of files, the files left behind, and the queries issued.
   */
  method ExportToCsv(filename: string, csvDir: string, pages: seq<Page>, rowLimit: Option<nat>, fileLimit: Option<nat>)
    returns (resultRows: nat, fileCount: nat, files: seq<OutputFile>, queries: seq<Query>)
    requires CompleteQuery(pages)
    requires Text.EndsWith(filename, ".csv")
    ensures Exported(resultRows, fileCount, files)
         == Export(pages[..|pages| - 1], filename, csvDir, OrDefault(fileLimit, DefaultFileLimit), Cumulative)
    ensures |queries| == |pages|
    ensures forall k :: 0 <= k < |pages| ==>
      queries[k] == Query(OrDefault(rowLimit, DefaultRowLimit), if k == 0 then [] else pages[k - 1].lastGrid)
  {
    var rowLim := OrDefault(rowLimit, DefaultRowLimit);
    var fileLim := OrDefault(fileLimit, DefaultFileLimit);
    var p;
    p, queries := WritePages(filename, csvDir, pages, rowLim, fileLim);
    resultRows, fileCount := p.resultRows, p.fileCount;
    files := p.closed + [p.current];
    if p.fileRows == 0 {
      files := p.closed;
      fileCount := fileCount - 1;
    }
    if fileCount > 1 {
      var name := "sub" + Text.ReplaceAll(filename, ".csv", "_0001.csv");
      files := files[0 := OutputFile(Text.PathJoin(csvDir, name), files[0].lines)];
    }
  }

  // ---------------------------------------------------------------------
  // What an export leaves behind

  /** Every line exported is in exactly one file opened by the run. */
  lemma {:induction false} RunAccountsForLines(pages: seq<Page>, first: string, next: nat -> string, limit: nat, rule: Rotation)
    ensures var r := Run(pages, first, next, limit, rule);
      r.resultRows == SumLines(pages) == SumFiles(Opened(r))
    decreases |pages|
  {
    if pages == [] {
      SumFilesAppend([], OutputFile(first, 0));
    } else {
      var p := Run(pages[..|pages| - 1], first, next, limit, rule);
      RunAccountsForLines(pages[..|pages| - 1], first, next, limit, rule);
      var lines := pages[|pages| - 1].lines;
      var written := OutputFile(p.current.path, p.current.lines + lines);
      SumFilesAppend(p.closed, p.current);
      SumFilesAppend(p.closed, written);
      SumFilesAppend(p.closed + [written], OutputFile(next(p.fileCount + 1), 0));
    }
  }

  lemma {:induction false} RenameKeepsSum(files: seq<OutputFile>, f: OutputFile)
    requires files != [] && f.lines == files[0].lines
    ensures SumFiles(files[0 := f]) == SumFiles(files)
    decreases |files|
  {
    if |files| > 1 {
      var n := |files| - 1;
      assert files[0 := f][..n] == files[..n][0 := f];
      RenameKeepsSum(files[..n], f);
    }
  }

  /** Removing an empty file and renaming the first keep every line, and leave one file per count. */
  lemma FinishAccountsForLines(p: Progress, renamed: string)
    requires Consistent(p)
    ensures var e := Finish(p, renamed);
      e.resultRows == p.resultRows && SumFiles(e.files) == SumFiles(Opened(p)) && |e.files| == e.fileCount
  {
    SumFilesAppend(p.closed, p.current);
    var files := if p.fileRows == 0 then p.closed else Opened(p);
    if |files| > 1 {
      RenameKeepsSum(files, OutputFile(renamed, files[0].lines));
    }
  }

  /** Every exported line is in exactly one remaining file, and there is one file per count. */
  lemma ExportAccountsForLines(pages: seq<Page>, orig: string, csvDir: string, limit: nat, rule: Rotation)
    ensures var e := Export(pages, orig, csvDir, limit, rule);
      e.resultRows == SumLines(pages) == SumFiles(e.files) && |e.files| == e.fileCount
  {
    var p := Run(pages, Text.PathJoin(csvDir, orig), SegmentPath(csvDir, orig), limit, rule);
    RunAccountsForLines(pages, Text.PathJoin(csvDir, orig), SegmentPath(csvDir, orig), limit, rule);
    FinishAccountsForLines(p, Text.PathJoin(csvDir, FirstSegmentName(orig)));
  }

  /** While fewer lines than the limit are exported, the first file is still the only one. */
  lemma {:induction false} RunWithinLimit(pages: seq<Page>, first: string, next: nat -> string, limit: nat, rule: Rotation)
    requires SumLines(pages) < limit
    ensures Run(pages, first, next, limit, rule)
         == Progress(SumLines(pages), SumLines(pages), 1, [], OutputFile(first, SumLines(pages)))
    decreases |pages|
  {
    if pages != [] {
      RunWithinLimit(pages[..|pages| - 1], first, next, limit, rule);
    }
  }

  /** No line exported leaves no file behind and a count of zero. */
  lemma NothingExportedLeavesNothing(pages: seq<Page>, orig: string, csvDir: string, limit: nat, rule: Rotation)
    requires limit > 0
    requires SumLines(pages) == 0
    ensures Export(pages, orig, csvDir, limit, rule) == Exported(0, 0, [])
  {
    RunWithinLimit(pages, Text.PathJoin(csvDir, orig), SegmentPath(csvDir, orig), limit, rule);
  }

  /** An export of fewer lines than the limit, but at least one, is a single file under the original name. */
  lemma SmallExportKeepsName(pages: seq<Page>, orig: string, csvDir: string, limit: nat, rule: Rotation)
    requires 0 < SumLines(pages) < limit
    ensures Export(pages, orig, csvDir, limit, rule)
         == Exported(SumLines(pages), 1, [OutputFile(Text.PathJoin(csvDir, orig), SumLines(pages))])
  {
    RunWithinLimit(pages, Text.PathJoin(csvDir, orig), SegmentPath(csvDir, orig), limit, rule);
  }

  /** From the second file on, the `k`-th file is at `next(k)`. */
  predicate SerialPaths(files: seq<OutputFile>, next: nat -> string) {
    forall k :: 1 <= k < |files| ==> files[k].path == next(k + 1)
  }

  /** The files of a run: the first one at `first`, then the `k`-th one at `next(k)`. */
  lemma {:induction false} RunNames(pages: seq<Page>, first: string, next: nat -> string, limit: nat, rule: Rotation)
    ensures Opened(Run(pages, first, next, limit, rule))[0].path == first
    ensures SerialPaths(Opened(Run(pages, first, next, limit, rule)), next)
    decreases |pages|
  {
    if pages != [] {
      var p := Run(pages[..|pages| - 1], first, next, limit, rule);
      RunNames(pages[..|pages| - 1], first, next, limit, rule);
      var r := Run(pages, first, next, limit, rule);
      var written := OutputFile(p.current.path, p.current.lines + pages[|pages| - 1].lines);
      if |r.closed| == |p.closed| {
        assert Opened(r) == p.closed + [written];
      } else {
        assert Opened(r) == p.closed + [written] + [OutputFile(next(p.fileCount + 1), 0)];
      }
      assert forall k :: 0 <= k < |Opened(p)| ==> Opened(r)[k].path == Opened(p)[k].path;
    }
  }

  /** A lone file keeps the path it was opened at; several files all carry their serial paths. */
  predicate NamedInOrder(e: Exported, first: string, next: nat -> string) {
    |e.files| == e.fileCount
    && (e.fileCount == 1 ==> e.files[0].path == first)
    && (e.fileCount > 1 ==> forall k :: 0 <= k < |e.files| ==> e.files[k].path == next(k + 1))
  }

  lemma FinishNames(p: Progress, first: string, next: nat -> string)
    requires Consistent(p) && Opened(p)[0].path == first && SerialPaths(Opened(p), next)
    ensures NamedInOrder(Finish(p, next(1)), first, next)
  {
    var files := if p.fileRows == 0 then p.closed else Opened(p);
    assert forall k :: 0 <= k < |files| ==> files[k] == Opened(p)[k];
  }

  /** When several files remain they all carry serial names, numbered from one in creation order; a lone file keeps its name. */
  lemma ExportNames(pages: seq<Page>, orig: string, csvDir: string, limit: nat, rule: Rotation)
    ensures NamedInOrder(Export(pages, orig, csvDir, limit, rule), Text.PathJoin(csvDir, orig), SegmentPath(csvDir, orig))
  {
    var next := SegmentPath(csvDir, orig);
    RunNames(pages, Text.PathJoin(csvDir, orig), next, limit, rule);
    FinishNames(Run(pages, Text.PathJoin(csvDir, orig), next, limit, rule), Text.PathJoin(csvDir, orig), next);
    FirstSegmentIsSerial(orig);
    assert Text.PathJoin(csvDir, FirstSegmentName(orig)) == next(1);
  }

  /** The literal the first file is renamed with is the serial suffix of number one. */
  lemma FirstSegmentIsSerial(orig: string)
    ensures FirstSegmentName(orig) == SegmentName(orig, 1)
  {
    assert Text.Pad4(1) == "0001";
    assert "_" + Text.Pad4(1) + ".csv" == "_0001.csv";
  }

  /** For a name with `.csv` only at its end, the `k`-th segment is `"sub"`, the stem, `_`, four or more digits reading `k`, and `.csv`. */
  lemma SegmentNameShape(orig: string, k: nat)
    requires Text.OnlyAsSuffix(orig, ".csv")
    ensures SegmentName(orig, k) == "sub" + orig[..|orig| - 4] + "_" + Text.Pad4(k) + ".csv"
    ensures Text.IsDigits(Text.Pad4(k)) && Text.ParseDecimal(Text.Pad4(k)) == k
  {
    Text.ReplaceSuffix(orig, ".csv", "_" + Text.Pad4(k) + ".csv");
  }

  // ---------------------------------------------------------------------
  // Rotation as written and as intended

  /** Every closed file holds at least `limit` lines. */
  predicate ClosedFilesFull(p: Progress, limit: nat) {
    forall k :: 0 <= k < |p.closed| ==> p.closed[k].lines >= limit
  }

  /** With rotation on the lines of the open file, a file is closed only once it holds the limit. */
  lemma {:induction false} PerFileRunFills(pages: seq<Page>, first: string, next: nat -> string, limit: nat)
    ensures ClosedFilesFull(Run(pages, first, next, limit, PerFile), limit)
    decreases |pages|
  {
    if pages != [] {
      var p := Run(pages[..|pages| - 1], first, next, limit, PerFile);
      PerFileRunFills(pages[..|pages| - 1], first, next, limit);
      var r := Run(pages, first, next, limit, PerFile);
      var written := OutputFile(p.current.path, p.current.lines + pages[|pages| - 1].lines);
      assert r.closed == p.closed || (r.closed == p.closed + [written] && written.lines >= limit);
    }
  }

  /**
   * With rotation on the lines of the open file, every file but the last
   * holds at least the file limit, and no file left behind is empty.
   */
  lemma PerFileRotationFillsFiles(pages: seq<Page>, orig: string, csvDir: string, limit: nat)
    requires limit > 0
    ensures var e := Export(pages, orig, csvDir, limit, PerFile);
      && (forall k :: 0 <= k < |e.files| - 1 ==> e.files[k].lines >= limit)
      && (forall k :: 0 <= k < |e.files| ==> e.files[k].lines > 0)
  {
    var p := Run(pages, Text.PathJoin(csvDir, orig), SegmentPath(csvDir, orig), limit, PerFile);
    PerFileRunFills(pages, Text.PathJoin(csvDir, orig), SegmentPath(csvDir, orig), limit);
    var files := if p.fileRows == 0 then p.closed else Opened(p);
    assert forall k :: 0 <= k < |p.closed| ==> Opened(p)[k] == p.closed[k];
    assert Opened(p)[|p.closed|] == p.current;
    assert forall k :: 0 <= k < |files| ==> files[k].lines > 0;
    assert forall k :: 0 <= k < |files| - 1 ==> files[k].lines >= limit;
  }

  function FileLines(files: seq<OutputFile>): (r: seq<nat>)
    ensures |r| == |files|
    ensures forall k :: 0 <= k < |files| ==> r[k] == files[k].lines
  {
    seq(|files|, k requires 0 <= k < |files| => files[k].lines)
  }

  /** Four pages of one CSV line each. */
  predicate FourLinesInFourPages(pages: seq<Page>) {
    |pages| == 4 && pages[0].lines == 1 && pages[1].lines == 1 && pages[2].lines == 1 && pages[3].lines == 1
  }

  /**
   * As written, four pages of one line each with a file limit of two leave
   * files of 2, 1 and 1 lines: once two lines are exported, every later page
   * closes a file of its own.
   */
  lemma CumulativeRotationSplitsEarly(pages: seq<Page>, orig: string, csvDir: string)
    requires FourLinesInFourPages(pages)
    ensures FileLines(Export(pages, orig, csvDir, 2, Cumulative).files) == [2, 1, 1]
  {
    FourPagesCumulative(pages, Text.PathJoin(csvDir, orig), SegmentPath(csvDir, orig), Text.PathJoin(csvDir, FirstSegmentName(orig)));
  }

  lemma FourPagesCumulative(pages: seq<Page>, first: string, next: nat -> string, renamed: string)
    requires FourLinesInFourPages(pages)
    ensures FileLines(Finish(Run(pages, first, next, 2, Cumulative), renamed).files) == [2, 1, 1]
  {
    FourPagesCumulativeRun(pages, first, next);
    var files := [OutputFile(first, 2), OutputFile(next(2), 1), OutputFile(next(3), 1)];
    assert Finish(Run(pages, first, next, 2, Cumulative), renamed).files == files[0 := OutputFile(renamed, 2)];
  }

  lemma FourPagesCumulativeRun(pages: seq<Page>, first: string, next: nat -> string)
    requires FourLinesInFourPages(pages)
    ensures Run(pages, first, next, 2, Cumulative)
         == Progress(4, 0, 4, [OutputFile(first, 2), OutputFile(next(2), 1), OutputFile(next(3), 1)], OutputFile(next(4), 0))
  {
    assert pages[..0] == [];
    RunStep(pages, 0, first, next, 2, Cumulative);
    var f := OutputFile(first, 2);
    assert Run(pages[..1], first, next, 2, Cumulative) == Progress(1, 1, 1, [], OutputFile(first, 1));
    RunStep(pages, 1, first, next, 2, Cumulative);
    assert Run(pages[..2], first, next, 2, Cumulative) == Progress(2, 0, 2, [f], OutputFile(next(2), 0));
    RunStep(pages, 2, first, next, 2, Cumulative);
    var g := OutputFile(next(2), 1);
    assert Run(pages[..3], first, next, 2, Cumulative) == Progress(3, 0, 3, [f, g], OutputFile(next(3), 0));
    RunStep(pages, 3, first, next, 2, Cumulative);
    assert pages[..4] == pages;
  }

  /** With rotation on the lines of the open file, the same pages leave two files of two lines. */
  lemma PerFileRotationOnFourPages(pages: seq<Page>, orig: string, csvDir: string)
    requires FourLinesInFourPages(pages)
    ensures FileLines(Export(pages, orig, csvDir, 2, PerFile).files) == [2, 2]
  {
    FourPagesPerFile(pages, Text.PathJoin(csvDir, orig), SegmentPath(csvDir, orig), Text.PathJoin(csvDir, FirstSegmentName(orig)));
  }

  lemma FourPagesPerFile(pages: seq<Page>, first: string, next: nat -> string, renamed: string)
    requires FourLinesInFourPages(pages)
    ensures FileLines(Finish(Run(pages, first, next, 2, PerFile), renamed).files) == [2, 2]
  {
    FourPagesPerFileRun(pages, first, next);
    var files := [OutputFile(first, 2), OutputFile(next(2), 2)];
    assert Finish(Run(pages, first, next, 2, PerFile), renamed).files == files[0 := OutputFile(renamed, 2)];
  }

  lemma FourPagesPerFileRun(pages: seq<Page>, first: string, next: nat -> string)
    requires FourLinesInFourPages(pages)
    ensures Run(pages, first, next, 2, PerFile)
         == Progress(4, 0, 3, [OutputFile(first, 2), OutputFile(next(2), 2)], OutputFile(next(3), 0))
  {
    assert pages[..0] == [];
    RunStep(pages, 0, first, next, 2, PerFile);
    var f := OutputFile(first, 2);
    assert Run(pages[..1], first, next, 2, PerFile) == Progress(1, 1, 1, [], OutputFile(first, 1));
    RunStep(pages, 1, first, next, 2, PerFile);
    assert Run(pages[..2], first, next, 2, PerFile) == Progress(2, 0, 2, [f], OutputFile(next(2), 0));
    RunStep(pages, 2, first, next, 2, PerFile);
    assert Run(pages[..3], first, next, 2, PerFile) == Progress(3, 1, 2, [f], OutputFile(next(2), 1));
    RunStep(pages, 3, first, next, 2, PerFile);
    assert pages[..4] == pages;
  }

  /**
   * As written, a page of no lines after the limit is reached still closes a
   * file: with a limit of two, pages of 2, 0 and 1 lines leave an empty file
   * between two others.
   */
  lemma CumulativeRotationKeepsEmptyFile(pages: seq<Page>, orig: string, csvDir: string)
    requires |pages| == 3 && pages[0].lines == 2 && pages[1].lines == 0 && pages[2].lines == 1
    ensures FileLines(Export(pages, orig, csvDir, 2, Cumulative).files) == [2, 0, 1]
  {
    ThreePagesCumulative(pages, Text.PathJoin(csvDir, orig), SegmentPath(csvDir, orig), Text.PathJoin(csvDir, FirstSegmentName(orig)));
  }

  lemma ThreePagesCumulative(pages: seq<Page>, first: string, next: nat -> string, renamed: string)
    requires |pages| == 3 && pages[0].lines == 2 && pages[1].lines == 0 && pages[2].lines == 1
    ensures FileLines(Finish(Run(pages, first, next, 2, Cumulative), renamed).files) == [2, 0, 1]
  {
    ThreePagesRun(pages, first, next);
    var files := [OutputFile(first, 2), OutputFile(next(2), 0), OutputFile(next(3), 1)];
    assert Finish(Run(pages, first, next, 2, Cumulative), renamed).files == files[0 := OutputFile(renamed, 2)];
  }

  lemma ThreePagesRun(pages: seq<Page>, first: string, next: nat -> string)
    requires |pages| == 3 && pages[0].lines == 2 && pages[1].lines == 0 && pages[2].lines == 1
    ensures Run(pages, first, next, 2, Cumulative)
         == Progress(3, 0, 4, [OutputFile(first, 2), OutputFile(next(2), 0), OutputFile(next(3), 1)], OutputFile(next(4), 0))
  {
    assert pages[..0] == [];
    RunStep(pages, 0, first, next, 2, Cumulative);
    var f := OutputFile(first, 2);
    assert Run(pages[..1], first, next, 2, Cumulative) == Progress(2, 0, 2, [f], OutputFile(next(2), 0));
    RunStep(pages, 1, first, next, 2, Cumulative);
    var g := OutputFile(next(2), 0);
    assert Run(pages[..2], first, next, 2, Cumulative) == Progress(2, 0, 3, [f, g], OutputFile(next(3), 0));
    RunStep(pages, 2, first, next, 2, Cumulative);
    assert pages[..3] == pages;
  }
}
