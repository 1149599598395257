/**
 * The quadtree stage of the datamap script (`csv_to_quadtrees` and the
 * command built by `merge_quadtrees`).
 *
 * The CSV directory is listed; `map_<shard>.csv` files are converted straight
 * to quadtrees, while the rotated `submap_<shard>_<k>.csv` segments are
 * converted into a per-shard sub-directory and then merged, keeping
 * duplicates, into one quadtree per shard. The directory listing, the
 * sub-directories that already exist and the outcome of every conversion
 * and merge job are inputs.
 */
module Quadtrees {
  import opened Wrappers
  import Text
  import JobWatch
  import CsvExport

  /** How a name in the CSV directory is treated. */
  datatype CsvKind = FullMap | Segment(shard: string, basename: string) | Ignored

  /** A conversion job: the CSV name, its directory, and the directory its quadtree goes to. */
  datatype ConvertJob = ConvertJob(name: string, csvDir: string, outDir: string)

  /** A merge job: the directory of quadtrees to merge, the output directory, and the `merge_quadtrees` options. */
  datatype MergeJob = MergeJob(inDir: string, outDir: string, removeDuplicates: bool, pattern: string)

  /** The counts `csv_to_quadtrees` returns. */
  datatype QuadtreeCounts = QuadtreeCounts(csvCount: nat, intermediateCount: nat, finalCount: nat)

  /**
   * The state of the listing loop: conversion jobs queued, the two counters,
   * the shards seen in first-seen order with their segment base names, the
   * directories that exist, and the exception that ended the loop, if any.
   */
  datatype Scan = Scan(jobs: seq<ConvertJob>, intermediateCount: nat, finalCount: nat,
                       shards: seq<string>, basenames: map<string, seq<string>>, dirs: set<string>,
                       error: Option<string>)

  /** Python's message when unpacking `n` values into three names fails. */
  function UnpackError(n: nat, expected: nat): string {
    if n > expected then "ValueError: too many values to unpack (expected " + Text.Decimal(expected) + ")"
    else "ValueError: not enough values to unpack (expected " + Text.Decimal(expected) + ", got " + Text.Decimal(n) + ")"
  }

  /** A full-map CSV, converted straight to a final quadtree. */
  predicate IsMapCsv(name: string) {
    Text.StartsWith(name, "map_") && Text.EndsWith(name, ".csv")
  }

  /** A segment CSV, converted to an intermediate quadtree. */
  predicate IsSubmapCsv(name: string) {
    Text.StartsWith(name, "submap_") && Text.EndsWith(name, ".csv")
  }

  /**
   * The test and the two unpacking splits applied to one name: the shard is
   * the middle of three `_`-separated parts, the base name the first of two
   * `.`-separated parts.
   */
  function Classify(name: string): (r: Result<CsvKind>)
    ensures r == Ok(FullMap) <==> IsMapCsv(name)
    ensures r == Ok(Ignored) <==> !IsMapCsv(name) && !IsSubmapCsv(name)
    ensures r.Err? || (r.Ok? && r.value.Segment?) <==> IsSubmapCsv(name)
  {
    MapNotSubmap(name);
    if IsMapCsv(name) then Ok(FullMap)
    else if IsSubmapCsv(name) then
      var parts := Text.Split(name, '_');
      var pieces := Text.Split(name, '.');
      if |parts| != 3 then Err(UnpackError(|parts|, 3))
      else if |pieces| != 2 then Err(UnpackError(|pieces|, 2))
      else Ok(Segment(parts[1], pieces[0]))
    else Ok(Ignored)
  }

  /** The sub-directory the segments of a shard are converted into. */
  function SubmapDir(quadtreeDir: string, shard: string): string {
    Text.PathJoin(quadtreeDir, "submap_" + shard)
  }

  /** One name of the listing handled; once an exception is raised the rest is skipped. */
  function Visit(s: Scan, name: string, kind: Result<CsvKind>, csvDir: string, quadtreeDir: string): Scan {
    if s.error.Some? then s
    else match kind
      case Err(e) => s.(error := Some(e))
      case Ok(FullMap) => s.(finalCount := s.finalCount + 1, jobs := s.jobs + [ConvertJob(name, csvDir, quadtreeDir)])
      case Ok(Segment(shard, base)) =>
        var sub := SubmapDir(quadtreeDir, shard);
        var seen := if shard in s.basenames then s.basenames[shard] else [];
        s.(intermediateCount := s.intermediateCount + 1,
           shards := if shard in s.basenames then s.shards else s.shards + [shard],
           basenames := s.basenames[shard := seen + [base]],
           dirs := s.dirs + {sub},
           jobs := s.jobs + [ConvertJob(name, csvDir, sub)])
      case Ok(Ignored) => s
  }

  /**
   * The listing loop over the names, each classified by `classify`.
   * `CsvToQuadtrees` passes `Classify`; the lemmas below hold for any
   * classification that agrees with it on which names are full maps and
   * which are segments (`KindsAgree`).
   */
  function ScanNames(names: seq<string>, classify: string -> Result<CsvKind>, csvDir: string, quadtreeDir: string, dirs0: set<string>): Scan
    decreases |names|
  {
    if names == [] then Scan([], 0, 0, [], map[], dirs0, None)
    else
      var name := names[|names| - 1];
      Visit(ScanNames(names[..|names| - 1], classify, csvDir, quadtreeDir, dirs0), name, classify(name), csvDir, quadtreeDir)
  }

  lemma ScanStep(names: seq<string>, classify: string -> Result<CsvKind>, i: nat, csvDir: string, quadtreeDir: string, dirs0: set<string>)
    requires i < |names|
    ensures ScanNames(names[..i + 1], classify, csvDir, quadtreeDir, dirs0)
         == Visit(ScanNames(names[..i], classify, csvDir, quadtreeDir, dirs0), names[i], classify(names[i]), csvDir, quadtreeDir)
  {
    assert names[..i + 1][..i] == names[..i];
  }

  /** The merge job of one shard: its segments' quadtrees into the shard's quadtree, duplicates kept. */
  function ShardMerge(quadtreeDir: string, shard: string): MergeJob {
    MergeJob(SubmapDir(quadtreeDir, shard), Text.PathJoin(quadtreeDir, "map_" + shard), false, "submap*")
  }

  /**
   * The shard merges of `csv_to_quadtrees`, one per shard in order: each
   * keeps duplicates, reads the `submap*` quadtrees of the shard's segment
   * directory and writes the shard's `map_<shard>` quadtree.
   */
  function MergeJobs(shards: seq<string>, quadtreeDir: string): (r: seq<MergeJob>)
    ensures |r| == |shards|
    ensures forall i :: 0 <= i < |shards| ==> !r[i].removeDuplicates && r[i].pattern == "submap*"
    ensures forall i :: 0 <= i < |shards| ==>
      r[i].inDir == Text.PathJoin(quadtreeDir, "submap_" + shards[i]) && r[i].outDir == Text.PathJoin(quadtreeDir, "map_" + shards[i])
    ensures forall i :: 0 <= i < |shards| ==> r[i] == ShardMerge(quadtreeDir, shards[i])
  {
    seq(|shards|, i requires 0 <= i < |shards| => ShardMerge(quadtreeDir, shards[i]))
  }

  function Outcomes<J>(jobs: seq<J>, run: J -> JobWatch.Outcome<()>): (r: seq<JobWatch.Outcome<()>>)
    ensures |r| == |jobs|
    ensures forall i :: 0 <= i < |jobs| ==> r[i] == run(jobs[i])
  {
    seq(|jobs|, i requires 0 <= i < |jobs| => run(jobs[i]))
  }

  /** `watch_jobs` without callbacks: any exception is re-raised. */
  function Quiet(): JobWatch.Handlers<(), ()> {
    JobWatch.Handlers(None, None, false)
  }

  /** The exception a watch ended with. */
  function Failure(status: JobWatch.Status): string {
    match status
    case Completed => ""
    case Raised(_, e) => e
    case Interrupted(_) => "KeyboardInterrupt"
  }

  /** `csv_to_quadtrees`: what it returns or raises, and the directories that exist afterwards. */
  function Stage(names: seq<string>, classify: string -> Result<CsvKind>, csvDir: string, quadtreeDir: string, dirs0: set<string>,
                 convert: ConvertJob -> JobWatch.Outcome<()>, merge: MergeJob -> JobWatch.Outcome<()>,
                 tick: nat -> bool): (Result<QuadtreeCounts>, set<string>)
  {
    var s := ScanNames(names, classify, csvDir, quadtreeDir, dirs0);
    if s.error.Some? then (Err(s.error.value), s.dirs) else (AwaitAll(s, quadtreeDir, convert, merge, tick), s.dirs)
  }

  /** The conversions of a listing awaited, then the merge of every shard; the first exception is re-raised. */
  function AwaitAll(s: Scan, quadtreeDir: string, convert: ConvertJob -> JobWatch.Outcome<()>,
                    merge: MergeJob -> JobWatch.Outcome<()>, tick: nat -> bool): Result<QuadtreeCounts>
  {
    var converted := JobWatch.Watch(Outcomes(s.jobs, convert), tick, Quiet(), 0, ());
    if !converted.status.Completed? then Err(Failure(converted.status))
    else
      var merged := JobWatch.Watch(Outcomes(MergeJobs(s.shards, quadtreeDir), merge), tick, Quiet(), 0, ());
      if !merged.status.Completed? then Err(Failure(merged.status))
      else Ok(Tally(s))
  }

  /** The counts returned after a listing: every queued conversion, the segments, and the full maps plus one per shard. */
  function Tally(s: Scan): QuadtreeCounts {
    QuadtreeCounts(|s.jobs|, s.intermediateCount, s.finalCount + |s.shards|)
  }

  /**
   * The listing loop of `csv_to_quadtrees`: queues a conversion per CSV,
   * counting full maps and segments, grouping segment base names by shard
   * and creating a shard's sub-directory when it is missing; a name that
   * does not unpack raises.
   */
  method ListCsvs(names: seq<string>, classify: string -> Result<CsvKind>, csvDir: string, quadtreeDir: string, dirs0: set<string>)
    returns (s: Scan)
    ensures s == ScanNames(names, classify, csvDir, quadtreeDir, dirs0)
  {
    var jobs: seq<ConvertJob> := [];
    var intermediateCount: nat := 0;
    var intermediates: map<string, seq<string>> := map[];
    var shards: seq<string> := [];
    var finalCount: nat := 0;
    var dirs := dirs0;
    var i := 0;
    assert names[..0] == [];
    while i < |names|
      invariant 0 <= i <= |names|
      invariant ScanNames(names[..i], classify, csvDir, quadtreeDir, dirs0)
             == Scan(jobs, intermediateCount, finalCount, shards, intermediates, dirs, None)
    {
      var name := names[i];
      ScanStep(names, classify, i, csvDir, quadtreeDir, dirs0);
      var kind := classify(name);
      if kind.Err? {
        ScanSkipsAfterError(names, classify, i + 1, csvDir, quadtreeDir, dirs0);
        return Scan(jobs, intermediateCount, finalCount, shards, intermediates, dirs, Some(kind.error));
      }
      if kind.value.FullMap? {
        finalCount := finalCount + 1;
        jobs := jobs + [ConvertJob(name, csvDir, quadtreeDir)];
      }
      if kind.value.Segment? {
        intermediateCount := intermediateCount + 1;
        var shard := kind.value.shard;
        var submapDir;
        shards, intermediates, dirs, submapDir := AddSegment(shards, intermediates, dirs, shard, kind.value.basename, quadtreeDir);
        jobs := jobs + [ConvertJob(name, csvDir, submapDir)];
      }
      i := i + 1;
    }
    assert names[..i] == names;
    return Scan(jobs, intermediateCount, finalCount, shards, intermediates, dirs, None);
  }

  /** A segment's shard recorded on first sight, its base name appended, and its sub-directory made when missing. */
  method AddSegment(shards0: seq<string>, intermediates0: map<string, seq<string>>, dirs0: set<string>,
                    shard: string, basename: string, quadtreeDir: string)
    returns (shards: seq<string>, intermediates: map<string, seq<string>>, dirs: set<string>, submapDir: string)
    ensures shards == if shard in intermediates0 then shards0 else shards0 + [shard]
    ensures intermediates == intermediates0[shard := (if shard in intermediates0 then intermediates0[shard] else []) + [basename]]
    ensures dirs == dirs0 + {SubmapDir(quadtreeDir, shard)} && submapDir == SubmapDir(quadtreeDir, shard)
  {
    shards, intermediates, dirs := shards0, intermediates0, dirs0;
    if shard !in intermediates {
      shards := shards + [shard];
      intermediates := intermediates[shard := []];
    }
    intermediates := intermediates[shard := intermediates[shard] + [basename]];
    submapDir := SubmapDir(quadtreeDir, shard);
    if submapDir !in dirs {
      dirs := dirs + {submapDir};
    }
  }

  /** The merge loop of `csv_to_quadtrees`: one merge per shard in first-seen order, each counted as a final quadtree. */
  method QueueMerges(shards: seq<string>, quadtreeDir: string, finalCount0: nat) returns (mergeJobs: seq<MergeJob>, finalCount: nat)
    ensures mergeJobs == MergeJobs(shards, quadtreeDir)
    ensures finalCount == finalCount0 + |shards|
  {
    mergeJobs := [];
    finalCount := finalCount0;
    var k := 0;
    while k < |shards|
      invariant 0 <= k <= |shards|
      invariant |mergeJobs| == k
      invariant forall j :: 0 <= j < k ==> mergeJobs[j] == ShardMerge(quadtreeDir, shards[j])
      invariant finalCount == finalCount0 + k
    {
      mergeJobs := mergeJobs + [ShardMerge(quadtreeDir, shards[k])];
      finalCount := finalCount + 1;
      k := k + 1;
    }
  }

  /**
   * `csv_to_quadtrees`: lists the CSV directory and awaits the conversions,
   * then queues and awaits one merge per shard of segments.
   */
  method CsvToQuadtrees(names: seq<string>, csvDir: string, quadtreeDir: string, dirs0: set<string>,
                        convert: ConvertJob -> JobWatch.Outcome<()>, merge: MergeJob -> JobWatch.Outcome<()>,
                        tick: nat -> bool)
    returns (r: Result<QuadtreeCounts>, dirs: set<string>)
    ensures (r, dirs) == Stage(names, Classify, csvDir, quadtreeDir, dirs0, convert, merge, tick)
  {
    var s := ListCsvs(names, Classify, csvDir, quadtreeDir, dirs0);
    dirs := s.dirs;
    if s.error.Some? {
      return Err(s.error.value), dirs;
    }
    r := AwaitJobs(s, quadtreeDir, convert, merge, tick);
  }

  /** The second half of `csv_to_quadtrees`: awaits the conversions, then queues and awaits one merge per shard. */
  method AwaitJobs(s: Scan, quadtreeDir: string, convert: ConvertJob -> JobWatch.Outcome<()>,
                   merge: MergeJob -> JobWatch.Outcome<()>, tick: nat -> bool) returns (r: Result<QuadtreeCounts>)
    ensures r == AwaitAll(s, quadtreeDir, convert, merge, tick)
  {
    var converted := JobWatch.WatchJobs(Outcomes(s.jobs, convert), tick, Quiet(), ());
    if !converted.status.Completed? {
      return Err(Failure(converted.status));
    }
    var csvCount := |s.jobs|;
    var mergeJobs, finalCount := QueueMerges(s.shards, quadtreeDir, s.finalCount);
    var merged := JobWatch.WatchJobs(Outcomes(mergeJobs, merge), tick, Quiet(), ());
    if !merged.status.Completed? {
      return Err(Failure(merged.status));
    }
    return Ok(QuadtreeCounts(csvCount, s.intermediateCount, finalCount));
  }

  /** Once an exception is raised the rest of the listing changes nothing. */
  lemma {:induction false} ScanSkipsAfterError(names: seq<string>, classify: string -> Result<CsvKind>, i: nat,
                                               csvDir: string, quadtreeDir: string, dirs0: set<string>)
    requires i <= |names|
    requires ScanNames(names[..i], classify, csvDir, quadtreeDir, dirs0).error.Some?
    ensures ScanNames(names, classify, csvDir, quadtreeDir, dirs0) == ScanNames(names[..i], classify, csvDir, quadtreeDir, dirs0)
    decreases |names| - i
  {
    if i < |names| {
      ScanStep(names, classify, i, csvDir, quadtreeDir, dirs0);
      ScanSkipsAfterError(names, classify, i + 1, csvDir, quadtreeDir, dirs0);
    } else {
      assert names[..i] == names;
    }
  }

  // ---------------------------------------------------------------------
  // What the stage returns, against reference counts over the listing

  /** A classification that agrees with `Classify` on which names are full maps and which are segments. */
  ghost predicate KindsAgree(classify: string -> Result<CsvKind>) {
    forall name :: && (classify(name) == Ok(FullMap) <==> IsMapCsv(name))
                   && (classify(name).Ok? ==> (classify(name).value.Segment? <==> IsSubmapCsv(name)))
  }

  /** `map_` and `submap_` names are told apart by their first letter. */
  lemma ClassifyAgrees()
    ensures KindsAgree(Classify)
  {
    forall name: string
      ensures Classify(name) == Ok(FullMap) <==> IsMapCsv(name)
      ensures Classify(name).Ok? ==> (Classify(name).value.Segment? <==> IsSubmapCsv(name))
    {
      MapNotSubmap(name);
    }
  }

  /** The two prefixes differ in their first letter, so no name is both a full map and a segment. */
  lemma MapNotSubmap(name: string)
    ensures IsMapCsv(name) ==> name[0] == 'm'
    ensures IsSubmapCsv(name) ==> name[0] == 's'
  {
    if IsMapCsv(name) {
      assert name[..4][0] == name[0];
    }
    if IsSubmapCsv(name) {
      assert name[..7][0] == name[0];
    }
  }

  /** Every name of the listing unpacks. */
  predicate Unpacks(names: seq<string>, classify: string -> Result<CsvKind>) {
    forall i :: 0 <= i < |names| ==> classify(names[i]).Ok?
  }

  /** The number of `map_*.csv` names. */
  function MapCount(names: seq<string>): nat
    decreases |names|
  {
    if names == [] then 0 else MapCount(names[..|names| - 1]) + if IsMapCsv(names[|names| - 1]) then 1 else 0
  }

  /** The number of `submap_*.csv` names. */
  function SubmapCount(names: seq<string>): nat
    decreases |names|
  {
    if names == [] then 0 else SubmapCount(names[..|names| - 1]) + if IsSubmapCsv(names[|names| - 1]) then 1 else 0
  }

  /** The shard of a segment name, as a set of at most one element. */
  function ShardOf(kind: Result<CsvKind>): set<string> {
    if kind.Ok? && kind.value.Segment? then {kind.value.shard} else {}
  }

  /** The shards named by the segments of the listing. */
  function ShardSet(names: seq<string>, classify: string -> Result<CsvKind>): set<string>
    decreases |names|
  {
    if names == [] then {} else ShardSet(names[..|names| - 1], classify) + ShardOf(classify(names[|names| - 1]))
  }

  /** The base names of the segments of `shard`, in listing order. */
  function BasenamesOf(names: seq<string>, classify: string -> Result<CsvKind>, shard: string): seq<string>
    decreases |names|
  {
    if names == [] then []
    else
      BasenamesOf(names[..|names| - 1], classify, shard) + match classify(names[|names| - 1])
        case Ok(Segment(x, base)) => if x == shard then [base] else []
        case _ => []
  }

  predicate Distinct(xs: seq<string>) {
    forall i, j :: 0 <= i < j < |xs| ==> xs[i] != xs[j]
  }

  /** Each shard recorded once, in `shards` and as a key of `basenames`, with its segments' base names in listing order. */
  ghost predicate Grouped(shards: seq<string>, basenames: map<string, seq<string>>, names: seq<string>, classify: string -> Result<CsvKind>) {
    && Distinct(shards)
    && (forall x :: x in shards <==> x in ShardSet(names, classify))
    && basenames.Keys == ShardSet(names, classify)
    && (forall x :: x in basenames ==> basenames[x] == BasenamesOf(names, classify, x))
  }

  /**
   * A listing scanned without error: one job per CSV, the full maps and the
   * segments counted, the segments grouped by shard, and a sub-directory for
   * every shard.
   */
  ghost predicate Summarizes(s: Scan, names: seq<string>, classify: string -> Result<CsvKind>, quadtreeDir: string, dirs0: set<string>) {
    && s.error.None?
    && |s.jobs| == MapCount(names) + SubmapCount(names)
    && s.finalCount == MapCount(names)
    && s.intermediateCount == SubmapCount(names)
    && Grouped(s.shards, s.basenames, names, classify)
    && s.dirs == dirs0 + set x | x in ShardSet(names, classify) :: SubmapDir(quadtreeDir, x)
  }

  lemma {:induction false} ScanSummary(names: seq<string>, classify: string -> Result<CsvKind>,
                                       csvDir: string, quadtreeDir: string, dirs0: set<string>)
    requires KindsAgree(classify) && Unpacks(names, classify)
    ensures Summarizes(ScanNames(names, classify, csvDir, quadtreeDir, dirs0), names, classify, quadtreeDir, dirs0)
    decreases |names|
  {
    if names != [] {
      var init := names[..|names| - 1];
      var name := names[|names| - 1];
      assert forall i :: 0 <= i < |init| ==> init[i] == names[i];
      ScanSummary(init, classify, csvDir, quadtreeDir, dirs0);
      var s := ScanNames(init, classify, csvDir, quadtreeDir, dirs0);
      var kind := classify(name);
      assert kind.Ok?;
      if kind.value.Segment? {
        SegmentVisit(s, init, names, classify, csvDir, quadtreeDir, dirs0);
      } else {
        assert ShardSet(names, classify) == ShardSet(init, classify);
        assert forall x :: BasenamesOf(names, classify, x) == BasenamesOf(init, classify, x);
      }
    }
  }

  /** A shard that no segment names has no base names. */
  lemma {:induction false} NoBasenamesOutsideShards(names: seq<string>, classify: string -> Result<CsvKind>, shard: string)
    requires shard !in ShardSet(names, classify)
    ensures BasenamesOf(names, classify, shard) == []
    decreases |names|
  {
    if names != [] {
      NoBasenamesOutsideShards(names[..|names| - 1], classify, shard);
    }
  }

  /** The step of `ScanSummary` for a segment name. */
  lemma SegmentVisit(s: Scan, init: seq<string>, names: seq<string>, classify: string -> Result<CsvKind>,
                     csvDir: string, quadtreeDir: string, dirs0: set<string>)
    requires names != [] && init == names[..|names| - 1]
    requires KindsAgree(classify)
    requires classify(names[|names| - 1]).Ok? && classify(names[|names| - 1]).value.Segment?
    requires Summarizes(s, init, classify, quadtreeDir, dirs0)
    ensures Summarizes(Visit(s, names[|names| - 1], classify(names[|names| - 1]), csvDir, quadtreeDir), names, classify, quadtreeDir, dirs0)
  {
    var name := names[|names| - 1];
    var shard := classify(name).value.shard;
    assert ShardSet(names, classify) == ShardSet(init, classify) + {shard};
    assert !IsMapCsv(name) && IsSubmapCsv(name);
    GroupSegment(s.shards, s.basenames, init, names, classify);
    DirsGrow(dirs0, ShardSet(init, classify), shard, quadtreeDir);
  }

  /** Creating one more shard's sub-directory. */
  lemma DirsGrow(dirs0: set<string>, shards: set<string>, shard: string, quadtreeDir: string)
    ensures (dirs0 + set x | x in shards :: SubmapDir(quadtreeDir, x)) + {SubmapDir(quadtreeDir, shard)}
         == dirs0 + set x | x in shards + {shard} :: SubmapDir(quadtreeDir, x)
  {
  }

  /** Grouping one more segment by its shard. */
  lemma GroupSegment(shards: seq<string>, basenames: map<string, seq<string>>, init: seq<string>, names: seq<string>,
                     classify: string -> Result<CsvKind>)
    requires names != [] && init == names[..|names| - 1]
    requires classify(names[|names| - 1]).Ok? && classify(names[|names| - 1]).value.Segment?
    requires Grouped(shards, basenames, init, classify)
    ensures var kind := classify(names[|names| - 1]).value;
      Grouped(if kind.shard in basenames then shards else shards + [kind.shard],
              basenames[kind.shard := (if kind.shard in basenames then basenames[kind.shard] else []) + [kind.basename]],
              names, classify)
  {
    var kind := classify(names[|names| - 1]).value;
    var shard := kind.shard;
    assert ShardSet(names, classify) == ShardSet(init, classify) + {shard};
    assert forall x :: BasenamesOf(names, classify, x) == BasenamesOf(init, classify, x) + if x == shard then [kind.basename] else [];
    if shard !in basenames {
      NoBasenamesOutsideShards(init, classify, shard);
      var more := shards + [shard];
      forall i, j | 0 <= i < j < |more| ensures more[i] != more[j] {
        if j == |shards| {
          assert more[i] == shards[i] && shards[i] in shards;
        }
      }
    }
  }

  /** The position of the first name that does not unpack. */
  function FirstFailure(names: seq<string>, classify: string -> Result<CsvKind>): (k: nat)
    requires !Unpacks(names, classify)
    ensures k < |names| && classify(names[k]).Err? && Unpacks(names[..k], classify)
    decreases |names|
  {
    if classify(names[0]).Err? then 0
    else
      var k := 1 + FirstFailure(names[1..], classify);
      assert forall i :: 0 < i < k ==> names[..k][i] == names[1..][..k - 1][i - 1];
      k
  }

  /** The first name that does not unpack raises its error, and ends the listing loop. */
  lemma {:induction false} ScanFirstError(names: seq<string>, classify: string -> Result<CsvKind>, k: nat,
                                          csvDir: string, quadtreeDir: string, dirs0: set<string>)
    requires KindsAgree(classify)
    requires k < |names| && classify(names[k]).Err? && Unpacks(names[..k], classify)
    ensures ScanNames(names, classify, csvDir, quadtreeDir, dirs0).error == Some(classify(names[k]).error)
  {
    ScanSummary(names[..k], classify, csvDir, quadtreeDir, dirs0);
    ScanStep(names, classify, k, csvDir, quadtreeDir, dirs0);
    ScanSkipsAfterError(names, classify, k + 1, csvDir, quadtreeDir, dirs0);
  }

  /** The listing loop raises exactly when some name does not unpack. */
  lemma ScanRaisesIffUnpackFails(names: seq<string>, classify: string -> Result<CsvKind>,
                                 csvDir: string, quadtreeDir: string, dirs0: set<string>)
    requires KindsAgree(classify)
    ensures ScanNames(names, classify, csvDir, quadtreeDir, dirs0).error.None? <==> Unpacks(names, classify)
  {
    if Unpacks(names, classify) {
      ScanSummary(names, classify, csvDir, quadtreeDir, dirs0);
    } else {
      ScanFirstError(names, classify, FirstFailure(names, classify), csvDir, quadtreeDir, dirs0);
    }
  }

  /** A list without repetitions has as many elements as the set it enumerates. */
  lemma {:induction false} DistinctCardinality(xs: seq<string>, elements: set<string>)
    requires Distinct(xs)
    requires forall x :: x in xs <==> x in elements
    ensures |elements| == |xs|
    decreases |xs|
  {
    if xs != [] {
      var init := xs[..|xs| - 1];
      var last := xs[|xs| - 1];
      forall x ensures x in init <==> x in elements - {last} {
        if x in init {
          var i :| 0 <= i < |init| && init[i] == x;
          assert xs[i] == x;
        }
        if x in xs && x != last {
          var i :| 0 <= i < |xs| && xs[i] == x;
          assert init[i] == x;
        }
      }
      DistinctCardinality(init, elements - {last});
    }
  }

  /** Every name unpacks, every conversion returns and the merge of every shard returns. */
  ghost predicate AllSucceed(names: seq<string>, classify: string -> Result<CsvKind>, csvDir: string, quadtreeDir: string, dirs0: set<string>,
                             convert: ConvertJob -> JobWatch.Outcome<()>, merge: MergeJob -> JobWatch.Outcome<()>)
  {
    var s := ScanNames(names, classify, csvDir, quadtreeDir, dirs0);
    && Unpacks(names, classify)
    && (forall i :: 0 <= i < |s.jobs| ==> convert(s.jobs[i]).Returned?)
    && (forall x :: x in ShardSet(names, classify) ==> merge(ShardMerge(quadtreeDir, x)).Returned?)
  }

  /** `csv_to_quadtrees` returns exactly when every name unpacks and every conversion and merge job returns. */
  lemma StageSucceeds(names: seq<string>, classify: string -> Result<CsvKind>, csvDir: string, quadtreeDir: string, dirs0: set<string>,
                      convert: ConvertJob -> JobWatch.Outcome<()>, merge: MergeJob -> JobWatch.Outcome<()>,
                      tick: nat -> bool)
    requires KindsAgree(classify)
    ensures Stage(names, classify, csvDir, quadtreeDir, dirs0, convert, merge, tick).0.Ok?
        <==> AllSucceed(names, classify, csvDir, quadtreeDir, dirs0, convert, merge)
  {
    var s := ScanNames(names, classify, csvDir, quadtreeDir, dirs0);
    ScanRaisesIffUnpackFails(names, classify, csvDir, quadtreeDir, dirs0);
    if Unpacks(names, classify) {
      ScanSummary(names, classify, csvDir, quadtreeDir, dirs0);
      var conversions := Outcomes(s.jobs, convert);
      var merges := Outcomes(MergeJobs(s.shards, quadtreeDir), merge);
      JobWatch.CompletesIffAllPass(conversions, tick, Quiet(), 0, ());
      JobWatch.CompletesIffAllPass(merges, tick, Quiet(), 0, ());
      assert (forall i :: 0 <= i < |merges| ==> merges[i].Returned?)
         <==> (forall x :: x in ShardSet(names, classify) ==> merge(ShardMerge(quadtreeDir, x)).Returned?) by {
        if forall i :: 0 <= i < |merges| ==> merges[i].Returned? {
          forall x | x in ShardSet(names, classify) ensures merge(ShardMerge(quadtreeDir, x)).Returned? {
            var i :| 0 <= i < |s.shards| && s.shards[i] == x;
            assert merges[i] == merge(ShardMerge(quadtreeDir, x));
          }
        }
      }
    }
  }

  /**
   * When `csv_to_quadtrees` returns, it reports one conversion per CSV, one
   * intermediate quadtree per segment, and one final quadtree per full map
   * and per distinct shard.
   */
  lemma StageCounts(names: seq<string>, classify: string -> Result<CsvKind>, csvDir: string, quadtreeDir: string, dirs0: set<string>,
                    convert: ConvertJob -> JobWatch.Outcome<()>, merge: MergeJob -> JobWatch.Outcome<()>,
                    tick: nat -> bool)
    requires KindsAgree(classify)
    ensures Stage(names, classify, csvDir, quadtreeDir, dirs0, convert, merge, tick).0.Ok? ==>
      Stage(names, classify, csvDir, quadtreeDir, dirs0, convert, merge, tick).0.value
        == QuadtreeCounts(MapCount(names) + SubmapCount(names), SubmapCount(names), MapCount(names) + |ShardSet(names, classify)|)
  {
    var s := ScanNames(names, classify, csvDir, quadtreeDir, dirs0);
    if Stage(names, classify, csvDir, quadtreeDir, dirs0, convert, merge, tick).0.Ok? {
      assert Stage(names, classify, csvDir, quadtreeDir, dirs0, convert, merge, tick).0.value == Tally(s);
      ScanRaisesIffUnpackFails(names, classify, csvDir, quadtreeDir, dirs0);
      ScanSummary(names, classify, csvDir, quadtreeDir, dirs0);
      DistinctCardinality(s.shards, ShardSet(names, classify));
    }
  }

  // ---------------------------------------------------------------------
  // The names the export writes

  /** Splitting on `_` a name made of three parts without `_`. */
  lemma SplitThree(a: string, b: string, c: string)
    requires '_' !in a && '_' !in b && '_' !in c
    ensures Text.Split(a + "_" + b + "_" + c, '_') == [a, b, c]
  {
    assert a + "_" + b + "_" + c == a + ['_'] + (b + ['_'] + c);
    Text.SplitAtSeparator(a, b + ['_'] + c, '_');
    Text.SplitAtSeparator(b, c, '_');
    Text.SplitWithoutSeparator(c, '_');
  }

  /** Splitting on `.` a name made of two parts without `.`. */
  lemma SplitTwo(a: string, b: string)
    requires '.' !in a && '.' !in b
    ensures Text.Split(a + "." + b, '.') == [a, b]
  {
    assert a + "." + b == a + ['.'] + b;
    Text.SplitAtSeparator(a, b, '.');
    Text.SplitWithoutSeparator(b, '.');
  }

  /** The two unpacking splits of a segment name. */
  lemma SegmentNameSplits(shard: string, digits: string)
    requires '_' !in shard && '.' !in shard && Text.IsDigits(digits)
    ensures Text.Split("submap_" + shard + "_" + digits + ".csv", '_') == ["submap", shard, digits + ".csv"]
    ensures Text.Split("submap_" + shard + "_" + digits + ".csv", '.') == ["submap_" + shard + "_" + digits, "csv"]
  {
    assert forall i :: 0 <= i < |digits| ==> digits[i] != '_' && digits[i] != '.';
    assert "submap_" + shard + "_" + digits + ".csv" == "submap" + "_" + shard + "_" + (digits + ".csv");
    SplitThree("submap", shard, digits + ".csv");
    assert "submap_" + shard + "_" + digits + ".csv" == ("submap_" + shard + "_" + digits) + "." + "csv";
    SplitTwo("submap_" + shard + "_" + digits, "csv");
  }

  /** A segment name of a shard without `_` or `.` is grouped under that shard with its own base name. */
  lemma SegmentNameClassifies(shard: string, digits: string)
    requires '_' !in shard && '.' !in shard && Text.IsDigits(digits)
    ensures Classify("submap_" + shard + "_" + digits + ".csv") == Ok(Segment(shard, "submap_" + shard + "_" + digits))
  {
    var name := "submap_" + shard + "_" + digits + ".csv";
    SegmentNameSplits(shard, digits);
    assert name[..7] == "submap_" && name[|name| - 4..] == ".csv";
    assert name[0] == 's';
  }

  /** `.csv` occurs in a full-map name only as its suffix. */
  lemma MapNameEndsOnce(shard: string)
    requires '.' !in shard
    ensures Text.OnlyAsSuffix("map_" + shard + ".csv", ".csv")
  {
    var orig := "map_" + shard + ".csv";
    assert orig[|orig| - 4..] == ".csv";
    forall i | 0 <= i < |orig| - 4 ensures !Text.OccursAt(orig, ".csv", i) {
      if i < 4 {
        assert orig[i] == "map_"[i];
      } else {
        assert orig[i] == shard[i - 4];
      }
    }
  }

  /**
   * The CSV export of shard `shard` writes `map_<shard>.csv` and, once it
   * rotates, segments `submap_<shard>_<kkkk>.csv`: for a shard without `_`
   * or `.`, the first is a full map and segment `k` is grouped under the
   * shard with its own base name.
   */
  lemma ExportedNamesClassify(shard: string, k: nat)
    requires '_' !in shard && '.' !in shard
    ensures Classify("map_" + shard + ".csv") == Ok(FullMap)
    ensures Classify(CsvExport.SegmentName("map_" + shard + ".csv", k))
         == Ok(Segment(shard, "submap_" + shard + "_" + Text.Pad4(k)))
  {
    var orig := "map_" + shard + ".csv";
    assert orig[..4] == "map_" && orig[|orig| - 4..] == ".csv";
    MapNameEndsOnce(shard);
    CsvExport.SegmentNameShape(orig, k);
    assert orig[..|orig| - 4] == "map_" + shard;
    assert CsvExport.SegmentName(orig, k) == "submap_" + shard + "_" + Text.Pad4(k) + ".csv";
    SegmentNameClassifies(shard, Text.Pad4(k));
  }

  // ---------------------------------------------------------------------
  // The command `merge_quadtrees` runs

  /**
   * The entries of `quadtreeDir` that a `<prefix>*` glob matches, as paths
   * under it, in listing order.
   */
  function Glob(quadtreeDir: string, listing: seq<string>, prefix: string): (r: seq<string>)
    ensures forall p :: p in r <==> exists name :: name in listing && Text.StartsWith(name, prefix) && p == Text.PathJoin(quadtreeDir, name)
    decreases |listing|
  {
    if listing == [] then []
    else
      (if Text.StartsWith(listing[0], prefix) then [Text.PathJoin(quadtreeDir, listing[0])] else [])
        + Glob(quadtreeDir, listing[1..], prefix)
  }

  /**
   * `merge_quadtrees`: the `merge` command line, or the assertion error
   * raised when the glob matches nothing. Duplicates are removed with `-u`.
   */
  function MergeCommand(quadtreeDir: string, listing: seq<string>, shapesDir: string, removeDuplicates: bool, prefix: string): (r: Result<seq<string>>)
    ensures r.Ok? <==> Glob(quadtreeDir, listing, prefix) != []
    ensures r.Ok? ==> ParseMerge(r.value) == Some(MergeOptions(removeDuplicates, shapesDir, Glob(quadtreeDir, listing, prefix)))
  {
    var files := Glob(quadtreeDir, listing, prefix);
    ParseBuilt(removeDuplicates, shapesDir, files);
    if files == [] then Err("AssertionError")
    else Ok(["merge"] + (if removeDuplicates then ["-u"] else []) + ["-o", shapesDir] + files)
  }

  /** The options a `merge` command line carries: whether `-u` is given, the output directory, and the inputs. */
  datatype MergeOptions = MergeOptions(removeDuplicates: bool, outDir: string, inputs: seq<string>)

  /** Reads a `merge` command line back. */
  function ParseMerge(cmd: seq<string>): Option<MergeOptions> {
    if |cmd| == 0 || cmd[0] != "merge" then None
    else
      var unique := |cmd| >= 2 && cmd[1] == "-u";
      var rest := if unique then cmd[2..] else cmd[1..];
      if |rest| >= 2 && rest[0] == "-o" then Some(MergeOptions(unique, rest[1], rest[2..])) else None
  }

  /** The command is built exactly when some entry matches the glob. */
  lemma MergeCommandBuilt(quadtreeDir: string, listing: seq<string>, shapesDir: string, removeDuplicates: bool, prefix: string)
    ensures MergeCommand(quadtreeDir, listing, shapesDir, removeDuplicates, prefix).Ok?
        <==> exists name :: name in listing && Text.StartsWith(name, prefix)
  {
    if exists name :: name in listing && Text.StartsWith(name, prefix) {
      var name :| name in listing && Text.StartsWith(name, prefix);
      assert Text.PathJoin(quadtreeDir, name) in Glob(quadtreeDir, listing, prefix);
    }
    var files := Glob(quadtreeDir, listing, prefix);
    if files != [] {
      assert files[0] in files;
    }
  }

  /**
   * A built command reads back as `-u` exactly when duplicates are to be
   * removed, the given output directory, and the matching paths as inputs.
   */
  lemma MergeCommandRoundTrip(quadtreeDir: string, listing: seq<string>, shapesDir: string, removeDuplicates: bool, prefix: string)
    ensures MergeCommand(quadtreeDir, listing, shapesDir, removeDuplicates, prefix).Ok? ==>
      ParseMerge(MergeCommand(quadtreeDir, listing, shapesDir, removeDuplicates, prefix).value)
        == Some(MergeOptions(removeDuplicates, shapesDir, Glob(quadtreeDir, listing, prefix)))
  {
    ParseBuilt(removeDuplicates, shapesDir, Glob(quadtreeDir, listing, prefix));
  }

  /** Any command line built the way `merge_quadtrees` builds one reads back as its parts. */
  lemma ParseBuilt(unique: bool, outDir: string, files: seq<string>)
    ensures ParseMerge(["merge"] + (if unique then ["-u"] else []) + ["-o", outDir] + files)
        == Some(MergeOptions(unique, outDir, files))
  {
    var cmd := ["merge"] + (if unique then ["-u"] else []) + ["-o", outDir] + files;
    if unique {
      assert cmd[2..] == ["-o", outDir] + files;
    } else {
      assert cmd[1..] == ["-o", outDir] + files;
    }
  }

  /** The merges `csv_to_quadtrees` queues keep duplicates, so their command lines never carry `-u`. */
  lemma ShardMergesKeepDuplicates(shard: string, quadtreeDir: string, listing: seq<string>)
    ensures var job := ShardMerge(quadtreeDir, shard);
      !job.removeDuplicates && job.pattern == "submap" + "*"
      && (MergeCommand(job.inDir, listing, job.outDir, job.removeDuplicates, "submap").Ok? ==>
          "-u" !in MergeCommand(job.inDir, listing, job.outDir, job.removeDuplicates, "submap").value[..2])
  {
    var job := ShardMerge(quadtreeDir, shard);
    var r := MergeCommand(job.inDir, listing, job.outDir, false, "submap");
    if r.Ok? {
      assert r.value[..2] == ["merge", "-o"];
    }
  }
}
