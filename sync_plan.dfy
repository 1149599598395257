/**
 * Planning a tile sync in the datamap script: the inventory of the tiles
 * already in the bucket (`get_current_objects`) and its comparison with the
 * tiles rendered locally (`get_sync_actions`).
 *
 * The bucket listing is the sequence of responses the bucket returns, one per
 * request; the local directory walk is the sequence of `.png` files it yields,
 * each with its size and the MD5 digest its contents would hash to.
 */
module SyncPlan {
  import opened Wrappers
  import Text

  /** The size and MD5 hex digest of a tile. */
  datatype Meta = Meta(size: int, md5: string)

  /** One object of a bucket listing: its key, its quoted ETag and its size. */
  datatype ListedObject = ListedObject(key: string, etag: string, size: int)

  /**
   * One listing response: its objects (`None` when the response has no
   * "Contents" entry, as for a prefix with no objects), whether more follow,
   * and the token that fetches them.
   */
  datatype ListingPage = ListingPage(contents: Option<seq<ListedObject>>, isTruncated: bool, nextToken: string)

  /** The objects of a response; none when it has no "Contents" entry. */
  function Listed(page: ListingPage): seq<ListedObject> {
    if page.contents.Some? then page.contents.value else []
  }

  /** Every response carries a "Contents" entry. */
  predicate AllListed(pages: seq<ListingPage>) {
    forall i :: 0 <= i < |pages| ==> pages[i].contents.Some?
  }

  /** Only `.png` keys are tiles. */
  predicate IsTile(o: ListedObject) {
    Text.EndsWith(o.key, ".png")
  }

  /** The tile name: the key with as many leading characters removed as the prefix has. */
  function TileName(o: ListedObject, prefix: string): string {
    Text.DropFirst(o.key, |prefix|)
  }

  /** The recorded metadata: the size, and the ETag without its surrounding quotes. */
  function TileMeta(o: ListedObject): Meta {
    Meta(o.size, Text.Strip(o.etag, '"'))
  }

  /** All listed objects, page after page. */
  function Flatten(pages: seq<ListingPage>): seq<ListedObject>
    decreases |pages|
  {
    if pages == [] then [] else Flatten(pages[..|pages| - 1]) + Listed(pages[|pages| - 1])
  }

  /** The inventory after recording the listed objects in order: a later tile replaces an earlier one of the same name. */
  function Record(objects: map<string, Meta>, listed: seq<ListedObject>, prefix: string): map<string, Meta>
    decreases |listed|
  {
    if listed == [] then objects
    else
      var last := listed[|listed| - 1];
      var before := Record(objects, listed[..|listed| - 1], prefix);
      if IsTile(last) then before[TileName(last, prefix) := TileMeta(last)] else before
  }

  /** The responses of a whole listing: every response but the last says that more results follow. */
  predicate CompleteListing(pages: seq<ListingPage>) {
    |pages| >= 1 && !pages[|pages| - 1].isTruncated
    && forall i :: 0 <= i < |pages| - 1 ==> pages[i].isTruncated
  }

  /**
   * `get_current_objects`: requests pages until one is not truncated, passing
   * the previous page's continuation token, and records every tile listed.
   * A response without "Contents" raises `KeyError` and ends the fetching.
   * `requests` holds the continuation token sent with each request.
   */
  method GetCurrentObjects(pages: seq<ListingPage>, prefix: string)
    returns (result: Result<map<string, Meta>>, requests: seq<Option<string>>)
    requires CompleteListing(pages)
    ensures result.Ok? <==> AllListed(pages)
    ensures result.Ok? ==> result.value == Record(map[], Flatten(pages), prefix) && |requests| == |pages|
    ensures result.Err? ==>
      && result.error == "KeyError: 'Contents'"
      && 1 <= |requests| <= |pages| && pages[|requests| - 1].contents.None?
      && AllListed(pages[..|requests| - 1])
    ensures |requests| >= 1 && requests[0] == None
    ensures forall i :: 0 <= i < |requests| - 1 ==> requests[i + 1] == Some(pages[i].nextToken)
  {
    var objects := map[];
    requests := [];
    var moreToFetch := true;
    var nextToken: Option<string> := None;
    var fetched := 0;
    while moreToFetch
      invariant fetched <= |pages|
      invariant moreToFetch <==> fetched < |pages|
      invariant |requests| == fetched
      invariant AllListed(pages[..fetched])
      invariant fetched == 0 ==> nextToken == None
      invariant 0 < fetched < |pages| ==> nextToken == Some(pages[fetched - 1].nextToken)
      invariant fetched > 0 ==> requests[0] == None
      invariant forall i :: 0 <= i < fetched - 1 ==> requests[i + 1] == Some(pages[i].nextToken)
      invariant objects == Record(map[], Flatten(pages[..fetched]), prefix)
      decreases |pages| - fetched
    {
      requests := requests + [nextToken];
      var response := pages[fetched];
      assert forall i :: 0 <= i < |requests| - 1 ==> requests[i + 1] == Some(pages[i].nextToken);
      if response.contents.None? {
        assert pages[|requests| - 1] == response;
        return Err("KeyError: 'Contents'"), requests;
      }
      AllListedStep(pages, fetched);
      objects := RecordPage(objects, Flatten(pages[..fetched]), response.contents.value, prefix);
      FlattenStep(pages, fetched);
      moreToFetch := response.isTruncated;
      if moreToFetch {
        nextToken := Some(response.nextToken);
      }
      fetched := fetched + 1;
    }
    assert pages[..fetched] == pages;
    result := Ok(objects);
  }

  /** The inner loop of `get_current_objects`: records the tiles of one response. */
  method RecordPage(objects0: map<string, Meta>, ghost seen: seq<ListedObject>, contents: seq<ListedObject>, prefix: string)
    returns (objects: map<string, Meta>)
    requires objects0 == Record(map[], seen, prefix)
    ensures objects == Record(map[], seen + contents, prefix)
  {
    objects := objects0;
    var j := 0;
    assert seen + contents[..0] == seen;
    while j < |contents|
      invariant j <= |contents|
      invariant objects == Record(map[], seen + contents[..j], prefix)
    {
      var metadata := contents[j];
      RecordStep(seen, contents, j, prefix);
      var key := metadata.key;
      if Text.EndsWith(key, ".png") {
        var name := Text.DropFirst(key, |prefix|);
        var md5 := Text.Strip(metadata.etag, '"');
        objects := objects[name := Meta(metadata.size, md5)];
      }
      j := j + 1;
    }
    assert contents[..j] == contents;
  }

  lemma RecordStep(seen: seq<ListedObject>, contents: seq<ListedObject>, j: nat, prefix: string)
    requires j < |contents|
    ensures var before := Record(map[], seen + contents[..j], prefix);
      Record(map[], seen + contents[..j + 1], prefix)
        == if IsTile(contents[j]) then before[TileName(contents[j], prefix) := TileMeta(contents[j])] else before
  {
    assert (seen + contents[..j + 1])[..|seen| + j] == seen + contents[..j];
  }

  lemma AllListedStep(pages: seq<ListingPage>, k: nat)
    requires k < |pages| && AllListed(pages[..k]) && pages[k].contents.Some?
    ensures AllListed(pages[..k + 1])
  {
  }

  lemma FlattenStep(pages: seq<ListingPage>, k: nat)
    requires k < |pages|
    ensures Flatten(pages[..k + 1]) == Flatten(pages[..k]) + Listed(pages[k])
  {
    assert pages[..k + 1][..k] == pages[..k];
  }

  /** A name is in the inventory exactly when some listed tile carries it. */
  lemma {:induction false} RecordNames(listed: seq<ListedObject>, prefix: string, name: string)
    ensures name in Record(map[], listed, prefix)
        <==> exists k :: 0 <= k < |listed| && IsTile(listed[k]) && TileName(listed[k], prefix) == name
    decreases |listed|
  {
    if listed != [] {
      var front := listed[..|listed| - 1];
      RecordNames(front, prefix, name);
      if exists k :: 0 <= k < |front| && IsTile(front[k]) && TileName(front[k], prefix) == name {
        var k :| 0 <= k < |front| && IsTile(front[k]) && TileName(front[k], prefix) == name;
        assert listed[k] == front[k];
      }
      if exists k :: 0 <= k < |listed| && IsTile(listed[k]) && TileName(listed[k], prefix) == name {
        var k :| 0 <= k < |listed| && IsTile(listed[k]) && TileName(listed[k], prefix) == name;
        if k < |front| {
          assert front[k] == listed[k];
        }
      }
    }
  }

  /** The inventory holds, for each name, the metadata of the last tile listed with that name. */
  lemma {:induction false} RecordLastWins(listed: seq<ListedObject>, prefix: string, k: nat)
    requires k < |listed| && IsTile(listed[k])
    requires forall l :: k < l < |listed| && IsTile(listed[l]) ==> TileName(listed[l], prefix) != TileName(listed[k], prefix)
    ensures TileName(listed[k], prefix) in Record(map[], listed, prefix)
    ensures Record(map[], listed, prefix)[TileName(listed[k], prefix)] == TileMeta(listed[k])
    decreases |listed|
  {
    if k < |listed| - 1 {
      var front := listed[..|listed| - 1];
      assert front[k] == listed[k];
      forall l | k < l < |front| && IsTile(front[l]) ensures TileName(front[l], prefix) != TileName(front[k], prefix) {
        assert front[l] == listed[l];
      }
      RecordLastWins(front, prefix, k);
    }
  }

  /** A key written under the prefix yields the name after it. */
  lemma TileNameAfterPrefix(prefix: string, name: string, etag: string, size: int)
    ensures TileName(ListedObject(prefix + name, etag, size), prefix) == name
  {
    assert (prefix + name)[|prefix|..] == name;
  }

  /** A quoted ETag yields the digest inside the quotes. */
  lemma TileMetaUnquotes(key: string, md5: string, size: int)
    requires md5 != "" ==> md5[0] != '"' && md5[|md5| - 1] != '"'
    ensures TileMeta(ListedObject(key, "\"" + md5 + "\"", size)) == Meta(size, md5)
  {
    Text.StripSurrounded(md5, '"', 1, 1);
    assert seq(1, _ => '"') == "\"";
  }

  // ---------------------------------------------------------------------
  // Comparing the local tiles with the inventory

  /** A rendered tile found by the directory walk: its path, size and content digest. */
  datatype LocalTile = LocalTile(path: string, size: int, md5: string)

  /** The object name of a local tile: its path after the tiles directory, leading slashes removed. */
  function ObjectName(tilesDir: string, path: string): string {
    Text.TrimLeft(Text.DropFirst(path, |tilesDir|), '/')
  }

  /** A local tile under its object name. */
  datatype Found = Found(name: string, size: int, md5: string)

  /** The walked tiles under their object names, in walk order. */
  function Named(tilesDir: string, tiles: seq<LocalTile>): (r: seq<Found>)
    ensures |r| == |tiles|
    ensures forall i :: 0 <= i < |tiles| ==> r[i] == Found(ObjectName(tilesDir, tiles[i].path), tiles[i].size, tiles[i].md5)
  {
    seq(|tiles|, i requires 0 <= i < |tiles| => Found(ObjectName(tilesDir, tiles[i].path), tiles[i].size, tiles[i].md5))
  }

  /** No two tiles share an object name, as a directory walk yielding each path once guarantees. */
  predicate DistinctNames(found: seq<Found>) {
    forall i, j :: 0 <= i < j < |found| ==> found[i].name != found[j].name
  }

  /** A tile differs from the stored object when the sizes differ, or the sizes agree and the digests do not. */
  predicate Changed(t: Found, m: Meta) {
    t.size != m.size || t.md5 != m.md5
  }

  /** The state of the walk: the lists built so far, the unchanged count, the objects not yet matched, the names hashed. */
  datatype Walked = Walked(upload: seq<string>, update: seq<string>, unchangedCount: nat, remaining: set<string>, hashed: seq<string>)

  /** One step of the walk: a name still unmatched is compared (the digest only on equal sizes); any other is uploaded. */
  function Visit(objects: map<string, Meta>, w: Walked, t: Found): Walked
    requires w.remaining <= objects.Keys
  {
    if t.name in w.remaining then
      var m := objects[t.name];
      var hashed := if t.size == m.size then w.hashed + [t.name] else w.hashed;
      var matched := w.(remaining := w.remaining - {t.name}, hashed := hashed);
      if Changed(t, m) then matched.(update := w.update + [t.name]) else matched.(unchangedCount := w.unchangedCount + 1)
    else w.(upload := w.upload + [t.name])
  }

  /** The walk over the local tiles, starting with every stored object unmatched. */
  function Walk(objects: map<string, Meta>, found: seq<Found>): (w: Walked)
    ensures w.remaining <= objects.Keys
    decreases |found|
  {
    if found == [] then Walked([], [], 0, objects.Keys, [])
    else Visit(objects, Walk(objects, found[..|found| - 1]), found[|found| - 1])
  }

  lemma WalkStep(objects: map<string, Meta>, found: seq<Found>, i: nat)
    requires i < |found|
    ensures Walk(objects, found[..i + 1]) == Visit(objects, Walk(objects, found[..i]), found[i])
  {
    assert found[..i + 1][..i] == found[..i];
  }

  /** The three lists of a sync plan. */
  datatype Actions = Actions(upload: seq<string>, update: seq<string>, delete: seq<string>)

  /** `sorted` applied to a set of names. */
  method SortedNames(names: set<string>) returns (r: seq<string>)
    ensures Text.StrictlySorted(r)
    ensures forall x :: x in r <==> x in names
  {
    r := [];
    var rest := names;
    while rest != {}
      invariant Text.StrictlySorted(r)
      invariant forall x :: x in r <==> x in names && x !in rest
      invariant rest <= names
      decreases rest
    {
      var x :| x in rest;
      r := Text.InsertSorted(r, x);
      assert forall y :: y in r <==> y in multiset(r);
      rest := rest - {x};
    }
  }

  /**
   * `get_sync_actions`: walks the local tiles, sorting each into upload,
   * update or unchanged, then deletes the stored objects no tile matched, in
   * sorted order. `hashed` lists the tiles whose contents were digested.
   */
  method GetSyncActions(tilesDir: string, tiles: seq<LocalTile>, objects: map<string, Meta>)
    returns (actions: Actions, unchangedCount: nat, hashed: seq<string>)
    ensures var w := Walk(objects, Named(tilesDir, tiles));
      actions.upload == w.upload && actions.update == w.update && unchangedCount == w.unchangedCount && hashed == w.hashed
    ensures Text.StrictlySorted(actions.delete)
    ensures forall name :: name in actions.delete <==> name in Walk(objects, Named(tilesDir, tiles)).remaining
  {
    ghost var found := Named(tilesDir, tiles);
    var upload: seq<string> := [];
    var update: seq<string> := [];
    unchangedCount := 0;
    hashed := [];
    var remaining := objects.Keys;
    var i := 0;
    assert found[..0] == [];
    while i < |tiles|
      invariant i <= |tiles|
      invariant Walked(upload, update, unchangedCount, remaining, hashed) == Walk(objects, found[..i])
    {
      var png := tiles[i];
      ghost var before := Walked(upload, update, unchangedCount, remaining, hashed);
      WalkStep(objects, found, i);
      var objName := Text.TrimLeft(Text.DropFirst(png.path, |tilesDir|), '/');
      assert found[i] == Found(objName, png.size, png.md5);
      if objName in remaining {
        remaining := remaining - {objName};
        var changed := true;
        var obj := objects[objName];
        if png.size == obj.size {
          hashed := hashed + [objName];
          if png.md5 == obj.md5 {
            changed := false;
          }
        }
        if changed {
          update := update + [objName];
        } else {
          unchangedCount := unchangedCount + 1;
        }
      } else {
        upload := upload + [objName];
      }
      assert Walked(upload, update, unchangedCount, remaining, hashed) == Visit(objects, before, found[i]);
      i := i + 1;
    }
    assert found[..i] == found;
    var delete := SortedNames(remaining);
    actions := Actions(upload, update, delete);
  }

  // ---------------------------------------------------------------------
  // What the walk computes

  /** The three verdicts a local tile can get. */
  datatype Verdict = New | Modified | Same

  /** The verdict of a tile judged on its own: absent remotely, present and changed, or present and equal. */
  function VerdictOf(objects: map<string, Meta>, t: Found): Verdict {
    if t.name !in objects then New
    else if Changed(t, objects[t.name]) then Modified
    else Same
  }

  /** The names of the tiles with verdict `v`, in walk order. */
  function WithVerdict(objects: map<string, Meta>, found: seq<Found>, v: Verdict): seq<string>
    decreases |found|
  {
    if found == [] then []
    else
      var last := found[|found| - 1];
      WithVerdict(objects, found[..|found| - 1], v) + (if VerdictOf(objects, last) == v then [last.name] else [])
  }

  /** The names of the stored tiles whose size the local tile matches: those whose digest has to be computed. */
  function SameSize(objects: map<string, Meta>, found: seq<Found>): seq<string>
    decreases |found|
  {
    if found == [] then []
    else
      var last := found[|found| - 1];
      SameSize(objects, found[..|found| - 1]) + (if last.name in objects && objects[last.name].size == last.size then [last.name] else [])
  }

  /** The set of object names of the walked tiles. */
  function NameSet(found: seq<Found>): set<string> {
    set i | 0 <= i < |found| :: found[i].name
  }

  lemma NameSetStep(found: seq<Found>)
    requires found != []
    ensures NameSet(found) == NameSet(found[..|found| - 1]) + {found[|found| - 1].name}
  {
    var front := found[..|found| - 1];
    forall x | x in NameSet(found) ensures x in NameSet(front) + {found[|found| - 1].name} {
      var i :| 0 <= i < |found| && found[i].name == x;
      if i < |front| {
        assert front[i] == found[i];
      }
    }
    forall x | x in NameSet(front) ensures x in NameSet(found) {
      var i :| 0 <= i < |front| && front[i].name == x;
      assert found[i] == front[i];
    }
  }

  /** Each tile gets exactly one verdict, so the three lists together account for every tile. */
  lemma {:induction false} VerdictsPartition(objects: map<string, Meta>, found: seq<Found>)
    ensures |WithVerdict(objects, found, New)| + |WithVerdict(objects, found, Modified)|
          + |WithVerdict(objects, found, Same)| == |found|
    decreases |found|
  {
    if found != [] {
      VerdictsPartition(objects, found[..|found| - 1]);
    }
  }

  /** A name gets verdict `v` exactly when some tile carrying it does. */
  lemma {:induction false} WithVerdictMembers(objects: map<string, Meta>, found: seq<Found>, v: Verdict, name: string)
    ensures name in WithVerdict(objects, found, v)
        <==> exists i :: 0 <= i < |found| && found[i].name == name && VerdictOf(objects, found[i]) == v
    decreases |found|
  {
    if found != [] {
      var n := |found| - 1;
      var front := found[..n];
      var extra := if VerdictOf(objects, found[n]) == v then [found[n].name] else [];
      assert WithVerdict(objects, found, v) == WithVerdict(objects, front, v) + extra;
      WithVerdictMembers(objects, front, v, name);
      if name in WithVerdict(objects, front, v) {
        var i :| 0 <= i < |front| && front[i].name == name && VerdictOf(objects, front[i]) == v;
        assert found[i] == front[i];
      } else if name in extra {
        assert found[n].name == name && VerdictOf(objects, found[n]) == v;
      }
      if exists i :: 0 <= i < |found| && found[i].name == name && VerdictOf(objects, found[i]) == v {
        var i :| 0 <= i < |found| && found[i].name == name && VerdictOf(objects, found[i]) == v;
        if i < n {
          assert front[i] == found[i];
        } else {
          assert name in extra;
        }
      }
    }
  }

  /** Dropping the last tile keeps the names distinct, and the last name is not among the others. */
  lemma FrontDistinct(found: seq<Found>)
    requires found != [] && DistinctNames(found)
    ensures DistinctNames(found[..|found| - 1])
    ensures found[|found| - 1].name !in NameSet(found[..|found| - 1])
  {
    var n := |found| - 1;
    var front := found[..n];
    forall i, j | 0 <= i < j < |front| ensures front[i].name != front[j].name {
      assert front[i] == found[i] && front[j] == found[j];
    }
    forall i | 0 <= i < |front| ensures front[i].name != found[n].name {
      assert front[i] == found[i];
    }
  }

  /** With distinct object names, the objects left unmatched are exactly those no tile names. */
  lemma {:induction false} WalkRemaining(objects: map<string, Meta>, found: seq<Found>)
    requires DistinctNames(found)
    ensures Walk(objects, found).remaining == objects.Keys - NameSet(found)
    decreases |found|
  {
    if found != [] {
      var n := |found| - 1;
      var front := found[..n];
      FrontDistinct(found);
      WalkRemaining(objects, front);
      NameSetStep(found);
      assert Walk(objects, found) == Visit(objects, Walk(objects, front), found[n]);
    }
  }

  /**
   * With distinct object names, the walk gives each tile its own verdict:
   * upload holds the new tiles, update the changed ones, the unchanged count
   * covers the equal ones, the digest is computed only on equal sizes, and
   * the objects left unmatched are exactly those no tile names.
   */
  lemma {:induction false} WalkClassifies(objects: map<string, Meta>, found: seq<Found>)
    requires DistinctNames(found)
    ensures var w := Walk(objects, found);
      && w.upload == WithVerdict(objects, found, New)
      && w.update == WithVerdict(objects, found, Modified)
      && w.unchangedCount == |WithVerdict(objects, found, Same)|
      && w.hashed == SameSize(objects, found)
      && w.remaining == objects.Keys - NameSet(found)
    decreases |found|
  {
    WalkRemaining(objects, found);
    if found != [] {
      var n := |found| - 1;
      var front := found[..n];
      FrontDistinct(found);
      WalkClassifies(objects, front);
      var w := Walk(objects, front);
      assert Walk(objects, found) == Visit(objects, w, found[n]);
      assert found[n].name in w.remaining <==> found[n].name in objects;
    }
  }

  /** Upload holds exactly the local names the inventory lacks; update exactly the stored names whose tile changed. */
  lemma UploadAndUpdateMembers(objects: map<string, Meta>, found: seq<Found>, name: string)
    requires DistinctNames(found)
    ensures name in Walk(objects, found).upload <==> name in NameSet(found) && name !in objects
    ensures name in Walk(objects, found).update
        <==> exists i :: 0 <= i < |found| && found[i].name == name && name in objects && Changed(found[i], objects[name])
  {
    WalkClassifies(objects, found);
    WithVerdictMembers(objects, found, New, name);
    WithVerdictMembers(objects, found, Modified, name);
  }

  /** Every tile lands in exactly one of upload, update and unchanged. */
  lemma WalkAccountsForEveryTile(objects: map<string, Meta>, found: seq<Found>)
    requires DistinctNames(found)
    ensures |Walk(objects, found).upload| + |Walk(objects, found).update| + Walk(objects, found).unchangedCount == |found|
  {
    WalkClassifies(objects, found);
    VerdictsPartition(objects, found);
  }

  /** The objects left to delete are stored names that no local tile carries, so none is uploaded or updated. */
  lemma DeleteIsDisjoint(objects: map<string, Meta>, found: seq<Found>, name: string)
    requires DistinctNames(found)
    ensures name in Walk(objects, found).remaining <==> name in objects && name !in NameSet(found)
    ensures name in Walk(objects, found).remaining ==> name !in Walk(objects, found).upload && name !in Walk(objects, found).update
  {
    WalkClassifies(objects, found);
    UploadAndUpdateMembers(objects, found, name);
  }

  /** The digest of a tile is computed exactly when a stored object of its name has its size. */
  lemma HashedOnlyOnEqualSize(objects: map<string, Meta>, found: seq<Found>, name: string)
    requires DistinctNames(found)
    ensures name in Walk(objects, found).hashed
        <==> exists i :: 0 <= i < |found| && found[i].name == name && name in objects && objects[name].size == found[i].size
  {
    WalkClassifies(objects, found);
    SameSizeMembers(objects, found, name);
  }

  lemma {:induction false} SameSizeMembers(objects: map<string, Meta>, found: seq<Found>, name: string)
    ensures name in SameSize(objects, found)
        <==> exists i :: 0 <= i < |found| && found[i].name == name && name in objects && objects[name].size == found[i].size
    decreases |found|
  {
    if found != [] {
      var n := |found| - 1;
      var front := found[..n];
      var extra := if found[n].name in objects && objects[found[n].name].size == found[n].size then [found[n].name] else [];
      assert SameSize(objects, found) == SameSize(objects, front) + extra;
      SameSizeMembers(objects, front, name);
      if name in SameSize(objects, front) {
        var i :| 0 <= i < |front| && front[i].name == name && name in objects && objects[name].size == front[i].size;
        assert found[i] == front[i];
      }
      if exists i :: 0 <= i < |found| && found[i].name == name && name in objects && objects[name].size == found[i].size {
        var i :| 0 <= i < |found| && found[i].name == name && name in objects && objects[name].size == found[i].size;
        if i < n {
          assert front[i] == found[i];
        } else {
          assert name in extra;
        }
      }
    }
  }

  /** The inventory of a bucket that already holds exactly the local tiles. */
  ghost predicate Mirrors(objects: map<string, Meta>, found: seq<Found>) {
    && objects.Keys == NameSet(found)
    && forall i :: 0 <= i < |found| ==> objects[found[i].name] == Meta(found[i].size, found[i].md5)
  }

  lemma {:induction false} NoneWithVerdict(objects: map<string, Meta>, found: seq<Found>, v: Verdict)
    requires forall i :: 0 <= i < |found| ==> VerdictOf(objects, found[i]) != v
    ensures WithVerdict(objects, found, v) == []
    decreases |found|
  {
    if found != [] {
      var front := found[..|found| - 1];
      forall i | 0 <= i < |front| ensures VerdictOf(objects, front[i]) != v {
        assert front[i] == found[i];
      }
      NoneWithVerdict(objects, front, v);
    }
  }

  /** Syncing into a bucket that mirrors the tiles does nothing: every tile is unchanged. */
  lemma MirroredWalkIsIdle(objects: map<string, Meta>, found: seq<Found>)
    requires DistinctNames(found)
    requires Mirrors(objects, found)
    ensures var w := Walk(objects, found);
      w.upload == [] && w.update == [] && w.remaining == {} && w.unchangedCount == |found|
  {
    WalkClassifies(objects, found);
    VerdictsPartition(objects, found);
    forall i | 0 <= i < |found| ensures VerdictOf(objects, found[i]) == Same {
      assert found[i].name in NameSet(found);
    }
    NoneWithVerdict(objects, found, New);
    NoneWithVerdict(objects, found, Modified);
  }

  /** A tile written into the tiles directory under an object name is walked back to that name. */
  lemma ObjectNameOfJoin(tilesDir: string, name: string)
    requires name == "" || name[0] != '/'
    ensures ObjectName(tilesDir, Text.PathJoin(tilesDir, name)) == name
  {
    assert !Text.StartsWith(name, "/") by {
      if name != "" {
        assert name[..1] == [name[0]];
      }
    }
    if tilesDir == "" || Text.EndsWith(tilesDir, "/") {
      assert Text.PathJoin(tilesDir, name) == tilesDir + name;
      assert Text.DropFirst(tilesDir + name, |tilesDir|) == seq(0, _ => '/') + name;
      Text.TrimLeftRun(0, name, '/');
    } else {
      assert Text.PathJoin(tilesDir, name) == tilesDir + "/" + name;
      assert Text.DropFirst(tilesDir + "/" + name, |tilesDir|) == seq(1, _ => '/') + name;
      Text.TrimLeftRun(1, name, '/');
    }
  }

  /** Local tiles A (equal) and B against stored A and C: B is uploaded, A left alone, and C remains to delete. */
  lemma OneNewOneOrphan()
    ensures var w := Walk(map["0/0/0.png" := Meta(10, "aa"), "2/0/0.png" := Meta(5, "cc")],
                          [Found("0/0/0.png", 10, "aa"), Found("1/0/0.png", 20, "bb")]);
      w.upload == ["1/0/0.png"] && w.update == [] && w.unchangedCount == 1 && w.remaining == {"2/0/0.png"}
      && w.hashed == ["0/0/0.png"]
  {
    var found := [Found("0/0/0.png", 10, "aa"), Found("1/0/0.png", 20, "bb")];
    var objects := map["0/0/0.png" := Meta(10, "aa"), "2/0/0.png" := Meta(5, "cc")];
    assert found[..1] == [found[0]] && found[..1][..0] == [];
    assert objects.Keys == {"0/0/0.png", "2/0/0.png"};
    var w0 := Walk(objects, found[..1][..0]);
    assert w0 == Walked([], [], 0, objects.Keys, []);
    assert objects.Keys - {"0/0/0.png"} == {"2/0/0.png"};
    var w1 := Walk(objects, found[..1]);
    assert w1 == Visit(objects, w0, found[0]);
    assert w1 == Walked([], [], 1, {"2/0/0.png"}, ["0/0/0.png"]);
    assert "1/0/0.png" != "2/0/0.png";
  }
}
