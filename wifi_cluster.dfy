/**
 * Single-linkage clustering of the wifi networks found for a query
 * (`cluster_wifis`): every network starts in a cluster of its own, and while
 * some two clusters have a pair of members at most `maxMeters` apart, the
 * first such pair of clusters, in row-major order of their positions, is
 * merged.
 *
 * A cluster is a list of positions into the network list. `distance` is the
 * geodesic distance between two networks and is left uninterpreted, and
 * `maxMeters` stands for `MAX_WIFI_CLUSTER_METERS`.
 */
module WifiCluster {
  import opened Wrappers

  function Min(x: real, y: real): (r: real)
    ensures r <= x && r <= y && (r == x || r == y)
  {
    if x <= y then x else y
  }

  /** A matrix with as many entries in each row as it has rows. */
  predicate Square(m: seq<seq<real>>) {
    forall r :: 0 <= r < |m| ==> |m[r]| == |m|
  }

  /** Every cluster is non-empty and holds positions below `n`. */
  predicate Covered(cs: seq<seq<nat>>, n: nat) {
    forall k :: 0 <= k < |cs| ==> cs[k] != [] && forall p :: 0 <= p < |cs[k]| ==> cs[k][p] < n
  }

  /** `distance_matrix`: row `r`, column `c` holds the distance from network `c` to network `r`. */
  function DistanceMatrix<W>(wifis: seq<W>, distance: (W, W) -> real): (m: seq<seq<real>>)
    ensures |m| == |wifis| && Square(m)
    ensures forall r, c :: 0 <= r < |m| && 0 <= c < |m| ==> m[r][c] == distance(wifis[c], wifis[r])
  {
    seq(|wifis|, r requires 0 <= r < |wifis| => seq(|wifis|, c requires 0 <= c < |wifis| => distance(wifis[c], wifis[r])))
  }

  /** Every position of `c` is a row of `m`. */
  predicate InRange(m: seq<seq<real>>, c: seq<nat>) {
    forall p :: 0 <= p < |c| ==> c[p] < |m|
  }

  /** The smallest entry of row `x` over the columns in `b`. */
  function RowDistance(m: seq<seq<real>>, x: nat, b: seq<nat>): real
    requires Square(m) && x < |m| && b != [] && InRange(m, b)
    decreases |b|
  {
    if |b| == 1 then m[x][b[0]] else Min(m[x][b[0]], RowDistance(m, x, b[1..]))
  }

  /** `cluster_distance`: the smallest distance between a member of `a` and a member of `b`. */
  function ClusterDistance(m: seq<seq<real>>, a: seq<nat>, b: seq<nat>): real
    requires Square(m) && a != [] && b != [] && InRange(m, a) && InRange(m, b)
    decreases |a|
  {
    if |a| == 1 then RowDistance(m, a[0], b) else Min(RowDistance(m, a[0], b), ClusterDistance(m, a[1..], b))
  }

  /** The row distance is the smallest entry over the columns of `b`, and is one of them. */
  lemma {:induction false} RowDistanceIsMin(m: seq<seq<real>>, x: nat, b: seq<nat>)
    requires Square(m) && x < |m| && b != [] && InRange(m, b)
    ensures exists q :: 0 <= q < |b| && RowDistance(m, x, b) == m[x][b[q]]
    ensures forall q :: 0 <= q < |b| ==> RowDistance(m, x, b) <= m[x][b[q]]
    decreases |b|
  {
    if |b| > 1 {
      RowDistanceIsMin(m, x, b[1..]);
      assert forall q :: 0 <= q < |b[1..]| ==> b[1..][q] == b[q + 1];
      if RowDistance(m, x, b) != m[x][b[0]] {
        var q :| 0 <= q < |b[1..]| && RowDistance(m, x, b[1..]) == m[x][b[1..][q]];
        assert RowDistance(m, x, b) == m[x][b[q + 1]];
      }
    } else {
      assert RowDistance(m, x, b) == m[x][b[0]];
    }
  }

  /** The cluster distance is the smallest distance over all pairs of members, and is one of them. */
  lemma {:induction false} ClusterDistanceIsMin(m: seq<seq<real>>, a: seq<nat>, b: seq<nat>)
    requires Square(m) && a != [] && b != [] && InRange(m, a) && InRange(m, b)
    ensures exists p, q :: 0 <= p < |a| && 0 <= q < |b| && ClusterDistance(m, a, b) == m[a[p]][b[q]]
    ensures forall p, q :: 0 <= p < |a| && 0 <= q < |b| ==> ClusterDistance(m, a, b) <= m[a[p]][b[q]]
    decreases |a|
  {
    RowDistanceIsMin(m, a[0], b);
    if |a| > 1 {
      ClusterDistanceIsMin(m, a[1..], b);
      assert forall p :: 0 <= p < |a[1..]| ==> a[1..][p] == a[p + 1];
      if ClusterDistance(m, a, b) != RowDistance(m, a[0], b) {
        var p, q :| 0 <= p < |a[1..]| && 0 <= q < |b| && ClusterDistance(m, a[1..], b) == m[a[1..][p]][b[q]];
        assert ClusterDistance(m, a, b) == m[a[p + 1]][b[q]];
      }
    } else {
      var q :| 0 <= q < |b| && RowDistance(m, a[0], b) == m[a[0]][b[q]];
      assert ClusterDistance(m, a, b) == m[a[0]][b[q]];
    }
  }

  /**
   * `clusters.pop(j)` followed by `a.extend(b)` for `a = clusters[i]` and
   * `b = clusters[j]`: cluster `j` is appended to cluster `i`, which stays
   * in place, and then removed, so every other cluster keeps its order.
   */
  function MergeAt(cs: seq<seq<nat>>, i: nat, j: nat): (r: seq<seq<nat>>)
    requires i < |cs| && j < |cs| && i != j
    ensures |r| == |cs| - 1
    ensures forall k :: 0 <= k < |r| ==>
      r[k] == (if k == (if i < j then i else i - 1) then cs[i] + cs[j] else cs[if k < j then k else k + 1])
  {
    var merged := cs[i := cs[i] + cs[j]];
    merged[..j] + merged[j + 1..]
  }

  /** Merging two clusters keeps every cluster non-empty and within range. */
  lemma MergeCovered(cs: seq<seq<nat>>, i: nat, j: nat, n: nat)
    requires i < |cs| && j < |cs| && i != j && Covered(cs, n)
    ensures Covered(MergeAt(cs, i, j), n)
  {
    var r := MergeAt(cs, i, j);
    forall k | 0 <= k < |r| ensures r[k] != [] && forall p :: 0 <= p < |r[k]| ==> r[k][p] < n {
      if k == (if i < j then i else i - 1) {
        assert r[k] == cs[i] + cs[j];
        forall p | 0 <= p < |r[k]| ensures r[k][p] < n {
          if p < |cs[i]| {
            assert r[k][p] == cs[i][p];
          } else {
            assert r[k][p] == cs[j][p - |cs[i]|];
          }
        }
      }
    }
  }

  /**
   * The first pair of distinct cluster positions, scanning row by row from
   * `(i, j)`, whose clusters are at most `maxMeters` apart.
   */
  function FirstClose(m: seq<seq<real>>, cs: seq<seq<nat>>, maxMeters: real, i: nat, j: nat): (r: Option<(nat, nat)>)
    requires Square(m) && Covered(cs, |m|)
    ensures r.Some? ==> r.value.0 < |cs| && r.value.1 < |cs| && r.value.0 != r.value.1
    decreases |cs| - i, |cs| - j
  {
    if i >= |cs| then None
    else if j >= |cs| then FirstClose(m, cs, maxMeters, i + 1, 0)
    else if i != j && ClusterDistance(m, cs[i], cs[j]) <= maxMeters then Some((i, j))
    else FirstClose(m, cs, maxMeters, i, j + 1)
  }

  /**
   * The pair found is within `maxMeters`; when none is found, every pair
   * from `(i, j)` on is farther apart.
   */
  lemma {:induction false} FirstCloseMeaning(m: seq<seq<real>>, cs: seq<seq<nat>>, maxMeters: real, i: nat, j: nat)
    requires Square(m) && Covered(cs, |m|)
    ensures var r := FirstClose(m, cs, maxMeters, i, j);
      r.Some? ==> ClusterDistance(m, cs[r.value.0], cs[r.value.1]) <= maxMeters
    ensures FirstClose(m, cs, maxMeters, i, j).None? ==>
      forall a, b :: i <= a < |cs| && 0 <= b < |cs| && a != b && (a == i ==> j <= b) ==>
        ClusterDistance(m, cs[a], cs[b]) > maxMeters
    decreases |cs| - i, |cs| - j
  {
    if i >= |cs| {
    } else if j >= |cs| {
      FirstCloseMeaning(m, cs, maxMeters, i + 1, 0);
    } else if i != j && ClusterDistance(m, cs[i], cs[j]) <= maxMeters {
    } else {
      FirstCloseMeaning(m, cs, maxMeters, i, j + 1);
    }
  }

  /** One pass of the merge loop: the first close pair merged, or the clusters unchanged. */
  function Step(m: seq<seq<real>>, cs: seq<seq<nat>>, maxMeters: real): (r: seq<seq<nat>>)
    requires Square(m) && Covered(cs, |m|)
    ensures Covered(r, |m|)
    ensures |r| == if FirstClose(m, cs, maxMeters, 0, 0).Some? then |cs| - 1 else |cs|
  {
    match FirstClose(m, cs, maxMeters, 0, 0)
    case None => cs
    case Some(p) =>
      MergeCovered(cs, p.0, p.1, |m|);
      MergeAt(cs, p.0, p.1)
  }

  /** The clusters the merge loop ends with, starting from `cs`. */
  function Cluster(m: seq<seq<real>>, cs: seq<seq<nat>>, maxMeters: real): (r: seq<seq<nat>>)
    requires Square(m) && Covered(cs, |m|)
    decreases |cs|
  {
    if FirstClose(m, cs, maxMeters, 0, 0).None? then cs
    else Cluster(m, Step(m, cs, maxMeters), maxMeters)
  }

  /** The starting clusters: one per network, in order. */
  function Singletons(n: nat): (r: seq<seq<nat>>)
    ensures |r| == n && Covered(r, n)
    ensures forall k :: 0 <= k < n ==> r[k] == [k]
  {
    seq(n, k requires 0 <= k < n => [k])
  }

  // ---------------------------------------------------------------------
  // The clusters partition the networks

  /** Every position held by the clusters, with multiplicity. */
  function FlatMS(cs: seq<seq<nat>>): multiset<nat>
    decreases |cs|
  {
    if cs == [] then multiset{} else multiset(cs[0]) + FlatMS(cs[1..])
  }

  /** The positions `0 .. n-1`. */
  function Indices(n: nat): (r: seq<nat>)
    ensures |r| == n && forall k :: 0 <= k < n ==> r[k] == k
  {
    seq(n, k requires 0 <= k < n => k)
  }

  /** The clusters hold each of the `n` positions exactly once between them. */
  predicate Partition(cs: seq<seq<nat>>, n: nat) {
    Covered(cs, n) && FlatMS(cs) == multiset(Indices(n))
  }

  lemma {:induction false} FlatMSConcat(a: seq<seq<nat>>, b: seq<seq<nat>>)
    ensures FlatMS(a + b) == FlatMS(a) + FlatMS(b)
    decreases |a|
  {
    if a != [] {
      assert (a + b)[1..] == a[1..] + b;
      FlatMSConcat(a[1..], b);
    } else {
      assert a + b == b;
    }
  }

  /** The positions of the clusters are those before `k`, those of cluster `k`, and those after it. */
  lemma FlatMSAt(cs: seq<seq<nat>>, k: nat)
    requires k < |cs|
    ensures FlatMS(cs) == FlatMS(cs[..k]) + multiset(cs[k]) + FlatMS(cs[k + 1..])
  {
    assert cs == cs[..k] + ([cs[k]] + cs[k + 1..]);
    FlatMSConcat(cs[..k], [cs[k]] + cs[k + 1..]);
    assert ([cs[k]] + cs[k + 1..])[1..] == cs[k + 1..];
  }

  /** Appending cluster `j` to cluster `i` adds the members of `j` once more. */
  lemma GrowAddsMembers(cs: seq<seq<nat>>, i: nat, j: nat)
    requires i < |cs| && j < |cs|
    ensures FlatMS(cs[i := cs[i] + cs[j]]) == FlatMS(cs) + multiset(cs[j])
  {
    var u := cs[i := cs[i] + cs[j]];
    FlatMSAt(cs, i);
    FlatMSAt(u, i);
    assert u[..i] == cs[..i] && u[i + 1..] == cs[i + 1..];
  }

  /** Dropping cluster `j` removes its members once. */
  lemma DropRemovesMembers(u: seq<seq<nat>>, j: nat)
    requires j < |u|
    ensures FlatMS(u[..j] + u[j + 1..]) + multiset(u[j]) == FlatMS(u)
  {
    FlatMSAt(u, j);
    FlatMSConcat(u[..j], u[j + 1..]);
  }

  lemma MultisetCancel(a: multiset<nat>, b: multiset<nat>, c: multiset<nat>)
    requires a + c == b + c
    ensures a == b
  {
    forall x ensures a[x] == b[x] {
      assert (a + c)[x] == (b + c)[x];
    }
  }

  /** Merging two clusters neither loses nor duplicates a position. */
  lemma MergeKeepsMembers(cs: seq<seq<nat>>, i: nat, j: nat)
    requires i < |cs| && j < |cs| && i != j
    ensures FlatMS(MergeAt(cs, i, j)) == FlatMS(cs)
  {
    var u := cs[i := cs[i] + cs[j]];
    GrowAddsMembers(cs, i, j);
    DropRemovesMembers(u, j);
    assert MergeAt(cs, i, j) == u[..j] + u[j + 1..];
    assert u[j] == cs[j];
    MultisetCancel(FlatMS(MergeAt(cs, i, j)), FlatMS(cs), multiset(cs[j]));
  }

  /** The merge loop neither loses nor duplicates a position. */
  lemma {:induction false} ClusterKeepsMembers(m: seq<seq<real>>, cs: seq<seq<nat>>, maxMeters: real)
    requires Square(m) && Covered(cs, |m|)
    ensures FlatMS(Cluster(m, cs, maxMeters)) == FlatMS(cs)
    ensures Covered(Cluster(m, cs, maxMeters), |m|)
    decreases |cs|
  {
    var first := FirstClose(m, cs, maxMeters, 0, 0);
    if first.Some? {
      MergeKeepsMembers(cs, first.value.0, first.value.1);
      ClusterKeepsMembers(m, Step(m, cs, maxMeters), maxMeters);
    }
  }

  lemma SingletonsStep(n: nat)
    requires n > 0
    ensures Singletons(n) == Singletons(n - 1) + [[n - 1]]
    ensures Indices(n) == Indices(n - 1) + [n - 1]
  {
  }

  /** The starting clusters hold each position once. */
  lemma {:induction false} SingletonsPartition(n: nat)
    ensures FlatMS(Singletons(n)) == multiset(Indices(n))
    decreases n
  {
    if n > 0 {
      SingletonsPartition(n - 1);
      SingletonsStep(n);
      FlatMSConcat(Singletons(n - 1), [[n - 1]]);
      assert FlatMS([[n - 1]]) == multiset{n - 1} + FlatMS([]);
    }
  }

  lemma {:induction false} IndicesOnce(n: nat, k: nat)
    ensures multiset(Indices(n))[k] == if k < n then 1 else 0
    decreases n
  {
    if n > 0 {
      IndicesOnce(n - 1, k);
      assert Indices(n) == Indices(n - 1) + [n - 1];
    }
  }

  /** A position held by some cluster is held by one at a known place. */
  lemma {:induction false} FlatMSHas(cs: seq<seq<nat>>, k: nat)
    requires k in FlatMS(cs)
    ensures exists a :: 0 <= a < |cs| && k in cs[a]
    decreases |cs|
  {
    if k !in multiset(cs[0]) {
      FlatMSHas(cs[1..], k);
      var a :| 0 <= a < |cs[1..]| && k in cs[1..][a];
      assert k in cs[a + 1];
    }
  }

  /** Two different clusters together hold no more of a position than all clusters do. */
  lemma {:induction false} TwoClusters(cs: seq<seq<nat>>, a: nat, b: nat)
    requires a < |cs| && b < |cs| && a != b
    ensures multiset(cs[a]) + multiset(cs[b]) <= FlatMS(cs)
    decreases |cs|
  {
    if a != 0 && b != 0 {
      TwoClusters(cs[1..], a - 1, b - 1);
    } else {
      var other := if a == 0 then b else a;
      FlatMSAt(cs[1..], other - 1);
      assert cs[1..][other - 1] == cs[other];
    }
  }

  /**
   * In a partition of `n` networks each network is in exactly one cluster,
   * once; nothing else is in any cluster.
   */
  lemma PartitionMeaning(cs: seq<seq<nat>>, n: nat, k: nat)
    requires Partition(cs, n)
    ensures k < n <==> exists a :: 0 <= a < |cs| && k in cs[a]
    ensures forall a, b :: 0 <= a < |cs| && 0 <= b < |cs| && k in cs[a] && k in cs[b] ==> a == b
    ensures forall a :: 0 <= a < |cs| ==> multiset(cs[a])[k] <= 1
  {
    IndicesOnce(n, k);
    if k < n {
      FlatMSHas(cs, k);
    }
    forall a | 0 <= a < |cs| && k in cs[a] ensures k < n {
      var p :| 0 <= p < |cs[a]| && cs[a][p] == k;
    }
    forall a, b | 0 <= a < |cs| && 0 <= b < |cs| && k in cs[a] && k in cs[b] ensures a == b {
      if a != b {
        TwoClusters(cs, a, b);
      }
    }
    forall a | 0 <= a < |cs| ensures multiset(cs[a])[k] <= 1 {
      if |cs| > 1 {
        TwoClusters(cs, a, if a == 0 then 1 else 0);
      } else {
        assert cs == [cs[0]] && FlatMS(cs[1..]) == multiset{};
      }
    }
  }

  // ---------------------------------------------------------------------
  // The clusters end separated

  /** The merge loop ends with no two clusters within `maxMeters` of each other. */
  lemma {:induction false} ClusterSeparated(m: seq<seq<real>>, cs: seq<seq<nat>>, maxMeters: real)
    requires Square(m) && Covered(cs, |m|)
    ensures var r := Cluster(m, cs, maxMeters);
      Covered(r, |m|)
      && forall a, b :: 0 <= a < |r| && 0 <= b < |r| && a != b ==> ClusterDistance(m, r[a], r[b]) > maxMeters
    decreases |cs|
  {
    ClusterKeepsMembers(m, cs, maxMeters);
    if FirstClose(m, cs, maxMeters, 0, 0).None? {
      FirstCloseMeaning(m, cs, maxMeters, 0, 0);
    } else {
      ClusterSeparated(m, Step(m, cs, maxMeters), maxMeters);
    }
  }

  /** Every merge removes one cluster, so the loop makes at most one merge per network. */
  lemma {:induction false} ClusterShrinks(m: seq<seq<real>>, cs: seq<seq<nat>>, maxMeters: real)
    requires Square(m) && Covered(cs, |m|)
    ensures |Cluster(m, cs, maxMeters)| <= |cs|
    ensures |cs| > 0 ==> |Cluster(m, cs, maxMeters)| > 0
    decreases |cs|
  {
    if FirstClose(m, cs, maxMeters, 0, 0).Some? {
      ClusterShrinks(m, Step(m, cs, maxMeters), maxMeters);
    }
  }

  /** Every member of `x` is more than `maxMeters` from every member of `y`. */
  ghost predicate Apart<W>(wifis: seq<W>, distance: (W, W) -> real, x: seq<nat>, y: seq<nat>, maxMeters: real) {
    forall p, q :: 0 <= p < |x| && 0 <= q < |y| && x[p] < |wifis| && y[q] < |wifis| ==>
      distance(wifis[y[q]], wifis[x[p]]) > maxMeters
  }

  /** The networks of a cluster, in the cluster's order. */
  function Members<W>(wifis: seq<W>, c: seq<nat>): (r: seq<W>)
    requires forall p :: 0 <= p < |c| ==> c[p] < |wifis|
    ensures |r| == |c| && forall p :: 0 <= p < |c| ==> r[p] == wifis[c[p]]
  {
    seq(|c|, p requires 0 <= p < |c| => wifis[c[p]])
  }

  /** Clusters whose distance exceeds `maxMeters` have all their members more than `maxMeters` apart. */
  lemma SeparatedApart<W>(wifis: seq<W>, distance: (W, W) -> real, cs: seq<seq<nat>>, maxMeters: real)
    requires Covered(cs, |wifis|)
    requires forall a, b :: 0 <= a < |cs| && 0 <= b < |cs| && a != b ==>
      ClusterDistance(DistanceMatrix(wifis, distance), cs[a], cs[b]) > maxMeters
    ensures forall a, b :: 0 <= a < |cs| && 0 <= b < |cs| && a != b ==> Apart(wifis, distance, cs[a], cs[b], maxMeters)
  {
    var m := DistanceMatrix(wifis, distance);
    forall a, b | 0 <= a < |cs| && 0 <= b < |cs| && a != b
      ensures Apart(wifis, distance, cs[a], cs[b], maxMeters)
    {
      var d := ClusterDistance(m, cs[a], cs[b]);
      ClusterDistanceIsMin(m, cs[a], cs[b]);
      forall p, q | 0 <= p < |cs[a]| && 0 <= q < |cs[b]|
        ensures distance(wifis[cs[b][q]], wifis[cs[a][p]]) > maxMeters
      {
        assert d <= m[cs[a][p]][cs[b][q]];
      }
    }
  }

  /** `[[wifis[i] for i in c] for c in clusters]`. */
  function Networks<W>(wifis: seq<W>, cs: seq<seq<nat>>): (r: seq<seq<W>>)
    requires Covered(cs, |wifis|)
    ensures |r| == |cs| && forall k :: 0 <= k < |cs| ==> r[k] == Members(wifis, cs[k])
  {
    seq(|cs|, k requires 0 <= k < |cs| => Members(wifis, cs[k]))
  }

  /**
   * One pass of the two `for` loops: scan the pairs of positions row by
   * row and merge the first pair of clusters within `maxMeters`, if any.
   */
  method MergeFirstClose(matrix: seq<seq<real>>, clusters: seq<seq<nat>>, maxMeters: real)
    returns (merged: seq<seq<nat>>, mergedOne: bool)
    requires Square(matrix) && Covered(clusters, |matrix|)
    ensures mergedOne <==> FirstClose(matrix, clusters, maxMeters, 0, 0).Some?
    ensures merged == Step(matrix, clusters, maxMeters)
  {
    merged := clusters;
    mergedOne := false;
    var count := |clusters|;
    for i := 0 to count
      invariant mergedOne ==> FirstClose(matrix, clusters, maxMeters, 0, 0).Some?
      invariant mergedOne ==> merged == Step(matrix, clusters, maxMeters)
      invariant !mergedOne ==> merged == clusters
      invariant !mergedOne ==> FirstClose(matrix, clusters, maxMeters, 0, 0) == FirstClose(matrix, clusters, maxMeters, i, 0)
    {
      if mergedOne {
        break;
      }
      for j := 0 to count
        invariant mergedOne ==> FirstClose(matrix, clusters, maxMeters, 0, 0).Some?
        invariant mergedOne ==> merged == Step(matrix, clusters, maxMeters)
        invariant !mergedOne ==> merged == clusters
        invariant !mergedOne ==> FirstClose(matrix, clusters, maxMeters, 0, 0) == FirstClose(matrix, clusters, maxMeters, i, j)
      {
        if mergedOne {
          break;
        }
        if i == j {
          continue;
        }
        var a := merged[i];
        var b := merged[j];
        if ClusterDistance(matrix, a, b) <= maxMeters {
          merged := MergeAt(merged, i, j);
          mergedOne := true;
        }
      }
    }
  }

  /**
   * `cluster_wifis`: the clusters, as positions and as networks. They
   * partition the networks, no two of them are within `maxMeters`, and
   * they are the ones the first-pair merge order produces.
   */
  method ClusterWifis<W>(wifis: seq<W>, distance: (W, W) -> real, maxMeters: real)
    returns (clusters: seq<seq<nat>>, networks: seq<seq<W>>)
    ensures clusters == Cluster(DistanceMatrix(wifis, distance), Singletons(|wifis|), maxMeters)
    ensures Partition(clusters, |wifis|)
    ensures forall a, b :: 0 <= a < |clusters| && 0 <= b < |clusters| && a != b ==>
      Apart(wifis, distance, clusters[a], clusters[b], maxMeters)
    ensures Covered(clusters, |wifis|) && networks == Networks(wifis, clusters)
  {
    var matrix := DistanceMatrix(wifis, distance);
    clusters := Singletons(|wifis|);
    ghost var target := Cluster(matrix, clusters, maxMeters);
    var mergedOne := true;
    while mergedOne
      invariant Covered(clusters, |matrix|)
      invariant Cluster(matrix, clusters, maxMeters) == target
      invariant !mergedOne ==> FirstClose(matrix, clusters, maxMeters, 0, 0).None?
      decreases |clusters| + (if mergedOne then 1 else 0)
    {
      clusters, mergedOne := MergeFirstClose(matrix, clusters, maxMeters);
    }
    ClusterKeepsMembers(matrix, Singletons(|wifis|), maxMeters);
    SingletonsPartition(|wifis|);
    ClusterSeparated(matrix, Singletons(|wifis|), maxMeters);
    SeparatedApart(wifis, distance, clusters, maxMeters);
    networks := Networks(wifis, clusters);
  }
}
