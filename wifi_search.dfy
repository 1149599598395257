/**
 * The wifi position search around the clustering (`get_clusters`,
 * `pick_best_cluster`, the sampling and accuracy cap of
 * `aggregate_cluster_position`, and `search_wifi`).
 *
 * The stored networks found for the query are an input (the database query
 * is not modelled), and so are the distance between two networks and the
 * position averaging, which are floating-point numerics. The tuning
 * constants are fields of `Limits`.
 */
module WifiSearch {
  import opened Wrappers
  import WifiCluster
  import Seqs

  /** A network of the query, with the signal strength the device reported, if any. */
  datatype Lookup = Lookup(mac: string, signal: Option<int>)

  /** A stored network found for the query. */
  datatype Wifi = Wifi(mac: string, lat: real, lon: real, radius: real)

  /** The `Network` tuple: a stored network with the signal of its lookup. */
  datatype Network = Network(mac: string, lat: real, lon: real, radius: real, signal: int)

  /** A position estimate. */
  datatype Position = Position(lat: real, lon: real, accuracy: real)

  /**
   * `MAX_WIFI_CLUSTER_METERS`, `MIN_WIFIS_IN_CLUSTER`,
   * `MAX_WIFIS_IN_CLUSTER` and `WIFI_MAX_ACCURACY`.
   */
  datatype Limits = Limits(maxMeters: real, minWifis: nat, maxWifis: nat, maxAccuracy: real)

  // ---------------------------------------------------------------------
  // Signals

  /** `lookup.signal or -100`: a missing or zero signal counts as -100 dBm. */
  function SignalOf(l: Lookup): (r: int)
    ensures r != 0
    ensures l.signal.Some? && l.signal.value != 0 ==> r == l.signal.value
    ensures l.signal.None? || l.signal.value == 0 ==> r == -100
  {
    if l.signal.Some? && l.signal.value != 0 then l.signal.value else -100
  }

  /** The `wifi_signals` dictionary after the first `|lookups|` assignments. */
  function SignalMap(lookups: seq<Lookup>): map<string, int>
    decreases |lookups|
  {
    if lookups == [] then map[]
    else
      var last := lookups[|lookups| - 1];
      SignalMap(lookups[..|lookups| - 1])[last.mac := SignalOf(last)]
  }

  /** A network has a signal exactly when some lookup names it. */
  lemma {:induction false} SignalMapKeys(lookups: seq<Lookup>)
    ensures forall mac :: mac in SignalMap(lookups) <==> exists i :: 0 <= i < |lookups| && lookups[i].mac == mac
    decreases |lookups|
  {
    if lookups != [] {
      var init := lookups[..|lookups| - 1];
      SignalMapKeys(init);
      forall mac | mac in SignalMap(lookups) ensures exists i :: 0 <= i < |lookups| && lookups[i].mac == mac {
        var last := lookups[|lookups| - 1];
        if mac != last.mac {
          assert SignalMap(lookups) == SignalMap(init)[last.mac := SignalOf(last)];
          assert mac in SignalMap(init);
          var i :| 0 <= i < |init| && init[i].mac == mac;
          assert lookups[i].mac == mac;
        }
      }
      forall mac | exists i :: 0 <= i < |lookups| && lookups[i].mac == mac
        ensures mac in SignalMap(lookups)
      {
        var i :| 0 <= i < |lookups| && lookups[i].mac == mac;
        if i < |init| {
          assert init[i].mac == mac;
        }
      }
    }
  }

  /** The signal of a network is that of the last lookup naming it. */
  lemma {:induction false} SignalMapLast(lookups: seq<Lookup>, i: nat)
    requires i < |lookups| && forall k :: i < k < |lookups| ==> lookups[k].mac != lookups[i].mac
    ensures lookups[i].mac in SignalMap(lookups) && SignalMap(lookups)[lookups[i].mac] == SignalOf(lookups[i])
    decreases |lookups|
  {
    var init := lookups[..|lookups| - 1];
    if i < |init| {
      assert init[i] == lookups[i];
      forall k | i < k < |init| ensures init[k].mac != init[i].mac {
        assert init[k] == lookups[k];
      }
      SignalMapLast(init, i);
    }
  }

  /** The loop filling `wifi_signals`: later lookups of the same network overwrite earlier ones. */
  method FillSignals(lookups: seq<Lookup>) returns (signals: map<string, int>)
    ensures signals == SignalMap(lookups)
  {
    signals := map[];
    for i := 0 to |lookups|
      invariant signals == SignalMap(lookups[..i])
    {
      assert lookups[..i + 1][..i] == lookups[..i];
      signals := signals[lookups[i].mac := SignalOf(lookups[i])];
    }
    assert lookups[..|lookups|] == lookups;
  }

  /**
   * The `wifi_networks` list: each stored network with the signal of its
   * lookup; a stored network no lookup names raises `KeyError`.
   */
  function ToNetworks(wifis: seq<Wifi>, signals: map<string, int>): (r: Result<seq<Network>>)
    ensures r.Ok? <==> forall k :: 0 <= k < |wifis| ==> wifis[k].mac in signals
    ensures r.Err? ==> r.error == "KeyError"
    ensures r.Ok? ==> |r.value| == |wifis| && forall k :: 0 <= k < |wifis| ==>
      r.value[k] == Network(wifis[k].mac, wifis[k].lat, wifis[k].lon, wifis[k].radius, signals[wifis[k].mac])
    decreases |wifis|
  {
    if wifis == [] then Ok([])
    else
      var w := wifis[0];
      if w.mac !in signals then Err("KeyError")
      else match ToNetworks(wifis[1..], signals)
        case Err(e) => Err(e)
        case Ok(rest) => Ok([Network(w.mac, w.lat, w.lon, w.radius, signals[w.mac])] + rest)
  }

  // ---------------------------------------------------------------------
  // Stable sort, largest key first

  /** `x` placed before the first element whose key is not larger. */
  function Insert<T>(x: T, s: seq<T>, key: T -> int): (r: seq<T>)
    ensures multiset(r) == multiset{x} + multiset(s)
    decreases |s|
  {
    if s == [] || key(s[0]) <= key(x) then [x] + s
    else
      assert s == [s[0]] + s[1..];
      [s[0]] + Insert(x, s[1..], key)
  }

  /** `sorted(xs, key=key, reverse=True)`: largest key first, equal keys in input order. */
  function SortDesc<T>(xs: seq<T>, key: T -> int): (r: seq<T>)
    ensures multiset(r) == multiset(xs)
    decreases |xs|
  {
    if xs == [] then []
    else
      assert xs == [xs[0]] + xs[1..];
      Insert(xs[0], SortDesc(xs[1..], key), key)
  }

  predicate Descending<T>(s: seq<T>, key: T -> int) {
    forall i, j :: 0 <= i < j < |s| ==> key(s[i]) >= key(s[j])
  }

  /** The elements whose key is `v`, in order. */
  function WithKey<T>(s: seq<T>, key: T -> int, v: int): seq<T>
    decreases |s|
  {
    if s == [] then [] else (if key(s[0]) == v then [s[0]] else []) + WithKey(s[1..], key, v)
  }

  lemma TailDescending<T>(s: seq<T>, key: T -> int)
    requires s != [] && Descending(s, key)
    ensures Descending(s[1..], key)
  {
    forall i, j | 0 <= i < j < |s[1..]| ensures key(s[1..][i]) >= key(s[1..][j]) {
      assert s[1..][i] == s[i + 1] && s[1..][j] == s[j + 1];
    }
  }

  lemma HeadDominates<T>(s: seq<T>, key: T -> int)
    requires s != [] && Descending(s, key)
    ensures forall y :: y in s ==> key(s[0]) >= key(y)
  {
  }

  lemma ConsDescending<T>(h: T, t: seq<T>, key: T -> int)
    requires Descending(t, key) && forall y :: y in t ==> key(h) >= key(y)
    ensures Descending([h] + t, key)
  {
    var r := [h] + t;
    forall i, j | 0 <= i < j < |r| ensures key(r[i]) >= key(r[j]) {
      assert r[j] == t[j - 1];
      if i > 0 {
        assert r[i] == t[i - 1];
      } else {
        assert t[j - 1] in t;
      }
    }
  }

  lemma InsertMembers<T>(x: T, s: seq<T>, key: T -> int)
    ensures forall y :: y in Insert(x, s, key) ==> y == x || y in s
  {
    forall y | y in Insert(x, s, key) ensures y == x || y in s {
      assert y in multiset(Insert(x, s, key));
    }
  }

  lemma {:induction false} InsertDescending<T>(x: T, s: seq<T>, key: T -> int)
    requires Descending(s, key)
    ensures Descending(Insert(x, s, key), key)
    decreases |s|
  {
    if s == [] {
    } else if key(s[0]) <= key(x) {
      HeadDominates(s, key);
      ConsDescending(x, s, key);
    } else {
      TailDescending(s, key);
      InsertDescending(x, s[1..], key);
      HeadDominates(s, key);
      InsertMembers(x, s[1..], key);
      assert forall y :: y in s[1..] ==> y in s;
      ConsDescending(s[0], Insert(x, s[1..], key), key);
    }
  }

  /** The sort puts the largest keys first. */
  lemma {:induction false} SortIsDescending<T>(xs: seq<T>, key: T -> int)
    ensures Descending(SortDesc(xs, key), key)
    decreases |xs|
  {
    if xs != [] {
      SortIsDescending(xs[1..], key);
      InsertDescending(xs[0], SortDesc(xs[1..], key), key);
    }
  }

  lemma {:induction false} InsertWithKey<T>(x: T, s: seq<T>, key: T -> int, v: int)
    requires Descending(s, key)
    ensures WithKey(Insert(x, s, key), key, v) == (if key(x) == v then [x] else []) + WithKey(s, key, v)
    decreases |s|
  {
    if s == [] || key(s[0]) <= key(x) {
      assert ([x] + s)[1..] == s;
    } else {
      var r := Insert(x, s, key);
      assert r == [s[0]] + Insert(x, s[1..], key);
      assert r[1..] == Insert(x, s[1..], key);
      TailDescending(s, key);
      InsertWithKey(x, s[1..], key, v);
    }
  }

  /** Elements with equal keys keep their input order. */
  lemma {:induction false} SortIsStable<T>(xs: seq<T>, key: T -> int, v: int)
    ensures WithKey(SortDesc(xs, key), key, v) == WithKey(xs, key, v)
    decreases |xs|
  {
    if xs != [] {
      SortIsStable(xs[1..], key, v);
      SortIsDescending(xs[1..], key);
      InsertWithKey(xs[0], SortDesc(xs[1..], key), key, v);
    }
  }

  lemma {:induction false} WithKeyFirst<T>(xs: seq<T>, key: T -> int, v: int)
    requires WithKey(xs, key, v) != []
    ensures exists k :: (0 <= k < |xs| && WithKey(xs, key, v)[0] == xs[k] && key(xs[k]) == v
                          && forall i :: 0 <= i < k ==> key(xs[i]) != v)
    decreases |xs|
  {
    if key(xs[0]) != v {
      WithKeyFirst(xs[1..], key, v);
      var k :| 0 <= k < |xs[1..]| && WithKey(xs[1..], key, v)[0] == xs[1..][k] && key(xs[1..][k]) == v
        && forall i :: 0 <= i < k ==> key(xs[1..][i]) != v;
      assert WithKey(xs, key, v)[0] == xs[k + 1];
      forall i | 0 <= i < k + 1 ensures key(xs[i]) != v {
        if i > 0 {
          assert xs[i] == xs[1..][i - 1];
        }
      }
    } else {
      assert WithKey(xs, key, v)[0] == xs[0];
    }
  }

  // ---------------------------------------------------------------------
  // Clusters

  /** The clusters of the networks in the given order, as lists of networks. */
  function NetClusters(nets: seq<Network>, distance: (Network, Network) -> real, maxMeters: real): seq<seq<Network>> {
    var m := WifiCluster.DistanceMatrix(nets, distance);
    var cs := WifiCluster.Cluster(m, WifiCluster.Singletons(|nets|), maxMeters);
    WifiCluster.ClusterKeepsMembers(m, WifiCluster.Singletons(|nets|), maxMeters);
    WifiCluster.Networks(nets, cs)
  }

  /**
   * The clusters with at least `minWifis` networks: each as often as it
   * occurs in `cs`, in the order of `cs`.
   */
  function KeepLarge(cs: seq<seq<Network>>, minWifis: nat): (r: seq<seq<Network>>)
    ensures forall c :: c in r <==> c in cs && |c| >= minWifis
    ensures forall c :: multiset(r)[c] == if |c| >= minWifis then multiset(cs)[c] else 0
    ensures Seqs.Subsequence(r, cs)
    ensures |r| <= |cs|
    decreases |cs|
  {
    if cs == [] then []
    else
      var rest := KeepLarge(cs[1..], minWifis);
      assert multiset(cs) == multiset{cs[0]} + multiset(cs[1..]) by {
        assert cs == [cs[0]] + cs[1..];
      }
      if |cs[0]| >= minWifis then
        assert ([cs[0]] + rest)[1..] == rest;
        [cs[0]] + rest
      else
        assert rest != [] ==> rest[0] in rest;
        rest
  }

  /** The signal a network is sorted by. */
  function Signal(n: Network): int {
    n.signal
  }

  /** What `get_clusters` returns: the large enough clusters of the networks sorted by signal, strongest first. */
  function ClustersOf(wifis: seq<Wifi>, lookups: seq<Lookup>, distance: (Network, Network) -> real, limits: Limits): Result<seq<seq<Network>>> {
    match ToNetworks(wifis, SignalMap(lookups))
    case Err(e) => Err(e)
    case Ok(nets) => Ok(KeepLarge(NetClusters(SortDesc(nets, Signal), distance, limits.maxMeters), limits.minWifis))
  }

  /** `get_clusters`. */
  method GetClusters(wifis: seq<Wifi>, lookups: seq<Lookup>, distance: (Network, Network) -> real, limits: Limits)
    returns (r: Result<seq<seq<Network>>>)
    ensures r == ClustersOf(wifis, lookups, distance, limits)
  {
    var signals := FillSignals(lookups);
    var networks := ToNetworks(wifis, signals);
    if networks.Err? {
      return Err(networks.error);
    }
    var sorted := SortDesc(networks.value, Signal);
    var _, clusters := WifiCluster.ClusterWifis(sorted, distance, limits.maxMeters);
    r := Ok(KeepLarge(clusters, limits.minWifis));
  }

  /** `get_clusters` raises `KeyError` exactly when a stored network is named by no lookup. */
  lemma ClustersOfFails(wifis: seq<Wifi>, lookups: seq<Lookup>, distance: (Network, Network) -> real, limits: Limits)
    ensures ClustersOf(wifis, lookups, distance, limits).Err? <==>
      exists k :: 0 <= k < |wifis| && forall i :: 0 <= i < |lookups| ==> lookups[i].mac != wifis[k].mac
    ensures ClustersOf(wifis, lookups, distance, limits).Err? ==> ClustersOf(wifis, lookups, distance, limits).error == "KeyError"
  {
    SignalMapKeys(lookups);
  }

  /**
   * Every cluster `get_clusters` returns has at least `minWifis` networks,
   * and is one of the clusters of the stored networks sorted by signal,
   * strongest first with ties in input order.
   */
  lemma ClustersOfKept(wifis: seq<Wifi>, lookups: seq<Lookup>, distance: (Network, Network) -> real, limits: Limits)
    requires ClustersOf(wifis, lookups, distance, limits).Ok?
    ensures var nets := ToNetworks(wifis, SignalMap(lookups)).value;
      var sorted := SortDesc(nets, Signal);
      Descending(sorted, Signal) && multiset(sorted) == multiset(nets)
      && (forall v :: WithKey(sorted, Signal, v) == WithKey(nets, Signal, v))
      && forall c :: c in ClustersOf(wifis, lookups, distance, limits).value <==>
        c in NetClusters(sorted, distance, limits.maxMeters) && |c| >= limits.minWifis
  {
    var nets := ToNetworks(wifis, SignalMap(lookups)).value;
    SortIsDescending(nets, Signal);
    forall v ensures WithKey(SortDesc(nets, Signal), Signal, v) == WithKey(nets, Signal, v) {
      SortIsStable(nets, Signal, v);
    }
  }

  // ---------------------------------------------------------------------
  // Choosing and aggregating a cluster

  /** The size a cluster is ranked by. */
  function Size(c: seq<Network>): int {
    |c|
  }

  /** `pick_best_cluster`: the first cluster after sorting by size, largest first. */
  function PickBest(clusters: seq<seq<Network>>): (r: seq<Network>)
    requires clusters != []
    ensures r in clusters
    ensures forall i :: 0 <= i < |clusters| ==> |clusters[i]| <= |r|
  {
    assert clusters[0] in multiset(clusters);
    SortHeadIsMax(clusters, Size);
    var sorted := SortDesc(clusters, Size);
    assert sorted[0] in multiset(sorted);
    sorted[0]
  }

  /** The chosen cluster is a largest one, and the first of the largest in list order. */
  lemma PickBestIsFirstLargest(clusters: seq<seq<Network>>)
    requires clusters != []
    ensures exists k :: (0 <= k < |clusters| && PickBest(clusters) == clusters[k]
                          && (forall i :: 0 <= i < |clusters| ==> |clusters[i]| <= |clusters[k]|)
                          && (forall i :: 0 <= i < k ==> |clusters[i]| < |clusters[k]|))
  {
    SortHeadIsMax(clusters, Size);
    SortHeadIsFirst(clusters, Size);
  }

  /** After sorting, the first element has the largest key of the input. */
  lemma SortHeadIsMax<T>(xs: seq<T>, key: T -> int)
    requires xs != []
    ensures SortDesc(xs, key) != []
    ensures forall i :: 0 <= i < |xs| ==> key(xs[i]) <= key(SortDesc(xs, key)[0])
  {
    var s := SortDesc(xs, key);
    assert xs[0] in multiset(xs);
    SortIsDescending(xs, key);
    forall i | 0 <= i < |xs| ensures key(xs[i]) <= key(s[0]) {
      assert xs[i] in multiset(s);
      var j :| 0 <= j < |s| && s[j] == xs[i];
    }
  }

  /** After sorting, the first element is the first input element with its key. */
  lemma SortHeadIsFirst<T>(xs: seq<T>, key: T -> int)
    requires xs != []
    ensures SortDesc(xs, key) != []
    ensures exists k :: (0 <= k < |xs| && SortDesc(xs, key)[0] == xs[k]
                          && forall i :: 0 <= i < k ==> key(xs[i]) != key(xs[k]))
  {
    var s := SortDesc(xs, key);
    assert xs[0] in multiset(xs);
    var v := key(s[0]);
    SortIsStable(xs, key, v);
    assert WithKey(s, key, v)[0] == s[0] by {
      assert s == [s[0]] + s[1..];
    }
    WithKeyFirst(xs, key, v);
  }

  /** `cluster[:min(len(cluster), MAX_WIFIS_IN_CLUSTER)]`. */
  function Sample(cluster: seq<Network>, maxWifis: nat): (r: seq<Network>)
    ensures |r| <= maxWifis && |r| <= |cluster|
    ensures |r| == maxWifis || |r| == |cluster|
    ensures forall k :: 0 <= k < |r| ==> r[k] == cluster[k]
  {
    if |cluster| <= maxWifis then cluster else cluster[..maxWifis]
  }

  /**
   * `aggregate_cluster_position`: the averaged position of the sampled
   * networks, its accuracy capped at `maxAccuracy`.
   */
  function Aggregate(cluster: seq<Network>, limits: Limits, average: seq<Network> -> Position): (r: Position)
    ensures var p := average(Sample(cluster, limits.maxWifis));
      r.lat == p.lat && r.lon == p.lon && r.accuracy <= limits.maxAccuracy
      && (r.accuracy == p.accuracy || r.accuracy == limits.maxAccuracy)
      && (p.accuracy <= limits.maxAccuracy ==> r.accuracy == p.accuracy)
  {
    var p := average(Sample(cluster, limits.maxWifis));
    Position(p.lat, p.lon, if p.accuracy <= limits.maxAccuracy then p.accuracy else limits.maxAccuracy)
  }

  // ---------------------------------------------------------------------
  // The search

  /**
   * What `search_wifi` returns: no position (the empty result) without wifi
   * lookups or without a large enough cluster, otherwise the aggregate of
   * the best cluster.
   */
  function Search(lookups: seq<Lookup>, wifis: seq<Wifi>, distance: (Network, Network) -> real, limits: Limits,
                  average: seq<Network> -> Position): Result<Option<Position>>
  {
    if lookups == [] then Ok(None)
    else match ClustersOf(wifis, lookups, distance, limits)
      case Err(e) => Err(e)
      case Ok(clusters) => Ok(if clusters == [] then None else Some(Aggregate(PickBest(clusters), limits, average)))
  }

  /** `search_wifi`, given the stored networks the database returns for the lookups. */
  method SearchWifi(lookups: seq<Lookup>, wifis: seq<Wifi>, distance: (Network, Network) -> real, limits: Limits,
                    average: seq<Network> -> Position) returns (r: Result<Option<Position>>)
    ensures r == Search(lookups, wifis, distance, limits, average)
  {
    if lookups == [] {
      return Ok(None);
    }
    var clusters := GetClusters(wifis, lookups, distance, limits);
    if clusters.Err? {
      return Err(clusters.error);
    }
    r := Ok(None);
    if clusters.value != [] {
      var cluster := PickBest(clusters.value);
      r := Ok(Some(Aggregate(cluster, limits, average)));
    }
  }

  /** Without lookups, or when every cluster is too small, the search gives the empty result. */
  lemma SearchEmpty(lookups: seq<Lookup>, wifis: seq<Wifi>, distance: (Network, Network) -> real, limits: Limits,
                    average: seq<Network> -> Position)
    requires lookups == [] || ClustersOf(wifis, lookups, distance, limits) == Ok([])
    ensures Search(lookups, wifis, distance, limits, average) == Ok(None)
  {
  }

  /**
   * The position chosen among clusters of at least `minWifis` networks is
   * the aggregate of a largest of them, with an accuracy no worse than
   * `maxAccuracy`.
   */
  lemma BestAggregate(clusters: seq<seq<Network>>, limits: Limits, average: seq<Network> -> Position)
    requires clusters != [] && forall c :: c in clusters ==> |c| >= limits.minWifis
    ensures exists k :: (0 <= k < |clusters| && |clusters[k]| >= limits.minWifis
                          && (forall i :: 0 <= i < |clusters| ==> |clusters[i]| <= |clusters[k]|)
                          && Aggregate(PickBest(clusters), limits, average) == Aggregate(clusters[k], limits, average))
    ensures Aggregate(PickBest(clusters), limits, average).accuracy <= limits.maxAccuracy
  {
    PickBestIsFirstLargest(clusters);
    var k :| 0 <= k < |clusters| && PickBest(clusters) == clusters[k]
      && (forall i :: 0 <= i < |clusters| ==> |clusters[i]| <= |clusters[k]|)
      && (forall i :: 0 <= i < k ==> |clusters[i]| < |clusters[k]|);
    assert clusters[k] in clusters;
  }

  /**
   * A position the search gives is the aggregate of a largest cluster of
   * at least `minWifis` networks, with an accuracy no worse than
   * `maxAccuracy`.
   */
  lemma SearchPosition(lookups: seq<Lookup>, wifis: seq<Wifi>, distance: (Network, Network) -> real, limits: Limits,
                       average: seq<Network> -> Position)
    requires Search(lookups, wifis, distance, limits, average).Ok?
    requires Search(lookups, wifis, distance, limits, average).value.Some?
    ensures lookups != [] && ClustersOf(wifis, lookups, distance, limits).Ok?
    ensures var clusters := ClustersOf(wifis, lookups, distance, limits).value;
      exists k :: (0 <= k < |clusters| && |clusters[k]| >= limits.minWifis
                   && (forall i :: 0 <= i < |clusters| ==> |clusters[i]| <= |clusters[k]|)
                   && Search(lookups, wifis, distance, limits, average).value.value == Aggregate(clusters[k], limits, average))
    ensures Search(lookups, wifis, distance, limits, average).value.value.accuracy <= limits.maxAccuracy
  {
    var clusters := ClustersOf(wifis, lookups, distance, limits).value;
    assert Search(lookups, wifis, distance, limits, average).value.value == Aggregate(PickBest(clusters), limits, average);
    BestAggregate(clusters, limits, average);
  }
}
