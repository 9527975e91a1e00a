/** Nearest-stop join for transfers (backend/src/connections_lookup.rs:57-274): the stops of a trip
    are grouped into clusters, each cluster is joined with the stop table on its own, and every
    connection stop keeps its closest base. Coordinates are reals; distances in metres are given. */
module Connections {
  import opened Wrappers

  const TRANSFER_SEARCH_RADIUS_DEGREES := 0.006
  const MAX_CLUSTER_EXTENT := 0.02

  datatype Base = Base(id: string, lat: real, lon: real)

  datatype Position = Position(x: real, y: real)

  datatype Stop = Stop(chateau: string, id: string, point: Option<Position>, routeType: Option<int>, spatial: bool)

  datatype Pair = Pair(base: Base, stop: Stop)

  /** What the database answers and how far apart things are. */
  datatype World = World(table: seq<Stop>, dwithin: (Base, Stop) -> bool, metres: (Base, Stop) -> real)

  // ---- Clustering ----

  datatype Bounds = Bounds(minLon: real, minLat: real, maxLon: real, maxLat: real)

  function Min(a: real, b: real): real {
    if a <= b then a else b
  }

  function Max(a: real, b: real): real {
    if a >= b then a else b
  }

  function Extend(b: Bounds, s: Base): Bounds {
    Bounds(Min(b.minLon, s.lon), Min(b.minLat, s.lat), Max(b.maxLon, s.lon), Max(b.maxLat, s.lat))
  }

  predicate Small(b: Bounds) {
    b.maxLon - b.minLon < MAX_CLUSTER_EXTENT && b.maxLat - b.minLat < MAX_CLUSTER_EXTENT
  }

  function BoundsOf(cluster: seq<Base>): Bounds
    requires cluster != []
  {
    var n := |cluster| - 1;
    if n == 0 then Bounds(cluster[0].lon, cluster[0].lat, cluster[0].lon, cluster[0].lat)
    else Extend(BoundsOf(cluster[..n]), cluster[n])
  }

  function Concat<T>(parts: seq<seq<T>>): seq<T> {
    if parts == [] then [] else Concat(parts[..|parts| - 1]) + parts[|parts| - 1]
  }

  ghost predicate Compact(cluster: seq<Base>) {
    cluster != [] && Small(BoundsOf(cluster))
  }

  /** The cluster could not take in the first stop of the next one. */
  ghost predicate Full(cluster: seq<Base>, next: seq<Base>) {
    cluster != [] && next != [] && !Small(Extend(BoundsOf(cluster), next[0]))
  }

  /** The clusters cut the list into consecutive nonempty pieces of small extent, none of which could
      have taken in the stop after it. */
  ghost predicate Clustered(stops: seq<Base>, clusters: seq<seq<Base>>) {
    && Concat(clusters) == stops
    && (forall i :: 0 <= i < |clusters| ==> Compact(clusters[i]))
    && forall i, j :: 0 <= i < |clusters| && j == i + 1 < |clusters| ==> Full(clusters[i], clusters[j])
  }

  method Cluster(stops: seq<Base>) returns (clusters: seq<seq<Base>>)
    ensures Clustered(stops, clusters)
  {
    hide BoundsOf, Small, Extend, Compact, Full, Concat, Clustered;
    clusters := [];
    var currentCluster: seq<Base> := [];
    var clusterBounds: Option<Bounds> := None;
    NoClusters();
    for i := 0 to |stops|
      invariant Concat(clusters) + currentCluster == stops[..i]
      invariant clusterBounds.None? <==> currentCluster == []
      invariant currentCluster == [] ==> clusters == []
      invariant clusterBounds.Some? ==> Compact(currentCluster) && clusterBounds.value == BoundsOf(currentCluster)
      invariant Clustered(Concat(clusters), clusters)
      invariant clusters != [] ==> Full(clusters[|clusters| - 1], currentCluster)
    {
      var stop := stops[i];
      assert stops[..i + 1] == stops[..i] + [stop];
      match clusterBounds {
        case None =>
          NewCluster(stop);
          assert currentCluster + [stop] == [stop];
          currentCluster := currentCluster + [stop];
          clusterBounds := Some(Bounds(stop.lon, stop.lat, stop.lon, stop.lat));
        case Some(bounds) =>
          var extended := Extend(bounds, stop);
          if Small(extended) {
            GrowCluster(currentCluster, stop);
            if clusters != [] { StaysFull(clusters[|clusters| - 1], currentCluster, stop); }
            currentCluster := currentCluster + [stop];
            clusterBounds := Some(extended);
          } else {
            PushCluster(clusters, currentCluster);
            NewCluster(stop);
            CannotGrow(currentCluster, stop);
            clusters := clusters + [currentCluster];
            currentCluster := [stop];
            clusterBounds := Some(Bounds(stop.lon, stop.lat, stop.lon, stop.lat));
          }
      }
    }
    assert stops[..|stops|] == stops;
    if currentCluster != [] {
      PushCluster(clusters, currentCluster);
      clusters := clusters + [currentCluster];
    }
  }

  lemma NoClusters()
    ensures Concat<Base>([]) == [] && Clustered([], [])
  {
  }

  lemma NewCluster(stop: Base)
    ensures Compact([stop]) && BoundsOf([stop]) == Bounds(stop.lon, stop.lat, stop.lon, stop.lat)
  {
  }

  lemma GrowCluster(cluster: seq<Base>, stop: Base)
    requires Compact(cluster) && Small(Extend(BoundsOf(cluster), stop))
    ensures Compact(cluster + [stop]) && BoundsOf(cluster + [stop]) == Extend(BoundsOf(cluster), stop)
  {
    assert (cluster + [stop])[..|cluster|] == cluster;
  }

  lemma CannotGrow(cluster: seq<Base>, stop: Base)
    requires Compact(cluster) && !Small(Extend(BoundsOf(cluster), stop))
    ensures Full(cluster, [stop])
  {
  }

  lemma StaysFull(cluster: seq<Base>, next: seq<Base>, stop: Base)
    requires Full(cluster, next)
    ensures Full(cluster, next + [stop])
  {
    hide Small, Extend, BoundsOf;
  }

  lemma PushCluster(clusters: seq<seq<Base>>, cluster: seq<Base>)
    requires Clustered(Concat(clusters), clusters) && Compact(cluster)
    requires clusters != [] ==> Full(clusters[|clusters| - 1], cluster)
    ensures Concat(clusters + [cluster]) == Concat(clusters) + cluster
    ensures Clustered(Concat(clusters + [cluster]), clusters + [cluster])
  {
    hide Full, Compact, Concat;
    ConcatSnoc(clusters, cluster);
  }

  lemma ConcatSnoc<T>(parts: seq<seq<T>>, part: seq<T>)
    ensures Concat(parts + [part]) == Concat(parts) + part
  {
    assert (parts + [part])[..|parts|] == parts;
  }

  /** Any two stops of a cluster are less than the limit apart in both directions. */
  lemma {:induction false} BoundsHold(cluster: seq<Base>, i: nat)
    requires i < |cluster|
    ensures BoundsOf(cluster).minLon <= cluster[i].lon <= BoundsOf(cluster).maxLon
    ensures BoundsOf(cluster).minLat <= cluster[i].lat <= BoundsOf(cluster).maxLat
  {
    if i < |cluster| - 1 { BoundsHold(cluster[..|cluster| - 1], i); }
  }

  lemma ClusterIsSmall(cluster: seq<Base>, i: nat, j: nat)
    requires Compact(cluster) && i < |cluster| && j < |cluster|
    ensures cluster[i].lon - cluster[j].lon < 0.02 && cluster[i].lat - cluster[j].lat < 0.02
  {
    BoundsHold(cluster, i);
    BoundsHold(cluster, j);
  }

  lemma {:induction false} BoundsAttained(cluster: seq<Base>) returns (west: nat, south: nat, east: nat, north: nat)
    requires cluster != []
    ensures west < |cluster| && south < |cluster| && east < |cluster| && north < |cluster|
    ensures BoundsOf(cluster) == Bounds(cluster[west].lon, cluster[south].lat, cluster[east].lon, cluster[north].lat)
  {
    var n := |cluster| - 1;
    if n == 0 {
      west, south, east, north := 0, 0, 0, 0;
    } else {
      west, south, east, north := BoundsAttained(cluster[..n]);
      if cluster[n].lon < cluster[west].lon { west := n; }
      if cluster[n].lat < cluster[south].lat { south := n; }
      if cluster[n].lon > cluster[east].lon { east := n; }
      if cluster[n].lat > cluster[north].lat { north := n; }
    }
  }

  /** The stop that begins the next cluster lies at least the limit away, in one direction, from some
      stop of the cluster before it. */
  lemma ClusterIsFull(cluster: seq<Base>, next: seq<Base>) returns (i: nat)
    requires Compact(cluster) && Full(cluster, next)
    ensures i < |cluster| && next != []
    ensures cluster[i].lon - next[0].lon >= 0.02 || next[0].lon - cluster[i].lon >= 0.02
         || cluster[i].lat - next[0].lat >= 0.02 || next[0].lat - cluster[i].lat >= 0.02
  {
    var west, south, east, north := BoundsAttained(cluster);
    hide BoundsOf;
    var s := next[0];
    i := if s.lon - cluster[west].lon >= 0.02 then west
         else if cluster[east].lon - s.lon >= 0.02 then east
         else if s.lat - cluster[south].lat >= 0.02 then south
         else north;
  }

  // ---- Joining ----

  predicate Within(b: Base, s: Stop) {
    && s.point.Some?
    && var dx, dy := b.lon - s.point.value.x, b.lat - s.point.value.y;
       dx * dx + dy * dy <= TRANSFER_SEARCH_RADIUS_DEGREES * TRANSFER_SEARCH_RADIUS_DEGREES
  }

  function Abs(x: real): real {
    if x < 0.0 then -x else x
  }

  lemma PositiveProduct(a: real, b: real)
    requires a > 0.0 && b > 0.0
    ensures a * b > 0.0
  {
  }

  lemma SquareLess(a: real, b: real)
    requires Abs(a) > b >= 0.0
    ensures a * a > b * b
  {
    var c := Abs(a);
    assert c * c == a * a;
    PositiveProduct(c - b, c + b);
    assert (c - b) * (c + b) == c * c - b * b;
  }

  lemma SquaresOfSum(a: real, b: real, c: real)
    requires Abs(a) + Abs(b) <= c
    ensures a * a + b * b <= c * c
  {
    var x, y := Abs(a), Abs(b);
    assert x * x == a * a && y * y == b * b && x * y >= 0.0;
    assert (x + y) * (x + y) == x * x + y * y + 2.0 * (x * y);
    assert (x + y) * (x + y) <= c * c by { MulMono(x + y, c); }
  }

  lemma MulMono(a: real, b: real)
    requires 0.0 <= a <= b
    ensures a * a <= b * b
  {
    assert a * a <= a * b && a * b <= b * b;
  }

  /** Longitude is compared with x and latitude with y: within 0.006 degrees means neither differs by
      more, and is ensured if both together differ by no more. */
  lemma WithinInPlane(b: Base, s: Stop)
    ensures Within(b, s) ==>
              s.point.Some? && Abs(b.lon - s.point.value.x) <= 0.006 && Abs(b.lat - s.point.value.y) <= 0.006
    ensures s.point.Some? && Abs(b.lon - s.point.value.x) + Abs(b.lat - s.point.value.y) <= 0.006 ==> Within(b, s)
  {
    if s.point.Some? {
      var dx, dy := b.lon - s.point.value.x, b.lat - s.point.value.y;
      assert dx * dx >= 0.0 && dy * dy >= 0.0;
      if Abs(dx) > 0.006 { SquareLess(dx, 0.006); }
      if Abs(dy) > 0.006 { SquareLess(dy, 0.006); }
      if Abs(dx) + Abs(dy) <= 0.006 { SquaresOfSum(dx, dy, 0.006); }
    }
  }

  /** The database predicate may be wider than the exact check, never narrower. */
  ghost predicate WorldOk(w: World) {
    forall b, s :: Within(b, s) ==> w.dwithin(b, s)
  }

  predicate Found(w: World, cluster: seq<Base>, s: Stop) {
    s.spatial && exists i :: 0 <= i < |cluster| && w.dwithin(cluster[i], s)
  }

  /** The rows one query returns. */
  method Nearby(w: World, cluster: seq<Base>) returns (nearby: seq<Stop>)
    ensures forall s :: s in nearby <==> s in w.table && Found(w, cluster, s)
  {
    nearby := [];
    for i := 0 to |w.table|
      invariant forall s :: s in nearby <==> s in w.table[..i] && Found(w, cluster, s)
    {
      assert w.table[..i + 1] == w.table[..i] + [w.table[i]];
      if Found(w, cluster, w.table[i]) { nearby := nearby + [w.table[i]]; }
    }
    assert w.table[..|w.table|] == w.table;
  }

  ghost predicate Joined(w: World, stops: seq<Base>, p: Pair) {
    p.base in stops && p.stop in w.table && p.stop.spatial && Within(p.base, p.stop)
  }

  method JoinCluster(w: World, cluster: seq<Base>) returns (results: seq<Pair>)
    requires WorldOk(w)
    ensures forall p :: p in results <==> Joined(w, cluster, p)
  {
    hide Within;
    var nearby := Nearby(w, cluster);
    results := [];
    for i := 0 to |nearby|
      invariant forall p :: p in results <==> p.stop in nearby[..i] && p.base in cluster && Within(p.base, p.stop)
    {
      assert nearby[..i + 1] == nearby[..i] + [nearby[i]];
      ghost var before := results;
      for j := 0 to |cluster|
        invariant forall p :: p in results <==>
                    p in before || (p.stop == nearby[i] && p.base in cluster[..j] && Within(p.base, p.stop))
      {
        assert cluster[..j + 1] == cluster[..j] + [cluster[j]];
        if Within(cluster[j], nearby[i]) {
          results := results + [Pair(cluster[j], nearby[i])];
        }
      }
      assert cluster[..|cluster|] == cluster;
    }
    assert nearby[..|nearby|] == nearby;
    forall p | Joined(w, cluster, p) ensures p.stop in nearby {
      assert w.dwithin(p.base, p.stop);
    }
  }

  lemma {:induction false} ConcatMembers<T>(parts: seq<seq<T>>)
    ensures forall x :: x in Concat(parts) <==> exists i :: 0 <= i < |parts| && x in parts[i]
  {
    if parts != [] {
      var n := |parts| - 1;
      ConcatMembers(parts[..n]);
      forall x ensures x in Concat(parts) <==> exists i :: 0 <= i < |parts| && x in parts[i] {
        if i :| 0 <= i < |parts| && x in parts[i] {
          if i < n { assert x in parts[..n][i]; }
        }
      }
    }
  }

  /** Joining cluster by cluster gives exactly the pairs of joining all stops at once. */
  method JoinAll(w: World, clusters: seq<seq<Base>>) returns (results: seq<Pair>)
    requires WorldOk(w)
    ensures forall p :: p in results <==> Joined(w, Concat(clusters), p)
  {
    hide Within, WorldOk;
    results := [];
    for i := 0 to |clusters|
      invariant forall p :: p in results <==> Joined(w, Concat(clusters[..i]), p)
    {
      assert clusters[..i + 1][..i] == clusters[..i];
      var part := JoinCluster(w, clusters[i]);
      results := results + part;
    }
    assert clusters[..|clusters|] == clusters;
  }

  // ---- Keeping the closest base ----

  type Key = (string, string)

  datatype Best = Best(base: string, distance: real, stop: Stop)

  function MaxDistance(inputType: int, connection: Option<int>): real {
    if inputType == 0 || inputType == 1 then
      match connection
      case Some(3) => 150.0
      case Some(0) => 200.0
      case Some(1) => 200.0
      case Some(2) => 400.0
      case _ => 300.0
    else if inputType == 2 then
      match connection
      case Some(3) => 200.0
      case _ => 300.0
    else
      match connection
      case Some(3) => 150.0
      case Some(0) => 200.0
      case Some(1) => 200.0
      case _ => 300.0
  }

  function KeyOf(s: Stop): Key {
    (s.chateau, s.id)
  }

  /** The query: chateau and mode of the route, and its stops. */
  datatype Query = Query(chateau: string, routeType: int, stops: seq<Base>)

  predicate OwnBase(q: Query, s: Stop) {
    s.chateau == q.chateau && exists i :: 0 <= i < |q.stops| && q.stops[i].id == s.id
  }

  predicate Allowed(w: World, q: Query, p: Pair) {
    w.metres(p.base, p.stop) <= MaxDistance(q.routeType, p.stop.routeType)
  }

  /** The entry for a key is right with respect to a set of joined pairs. Several stops may share a key;
      the entry holds one of them. */
  ghost predicate RightFor(w: World, q: Query, pairs: iset<Pair>, key: Key, best: map<Key, Best>) {
    && (key in best <==> exists p :: p in pairs && KeyOf(p.stop) == key && (OwnBase(q, p.stop) || Allowed(w, q, p)))
    && (key in best ==>
          && KeyOf(best[key].stop) == key && (exists p :: p in pairs && p.stop == best[key].stop)
          && if OwnBase(q, best[key].stop) then best[key].base == key.1 && best[key].distance == 0.0
             else
               && (exists p :: p in pairs && p.stop == best[key].stop && p.base.id == best[key].base
                               && w.metres(p.base, p.stop) == best[key].distance && Allowed(w, q, p))
               && forall p :: p in pairs && KeyOf(p.stop) == key && Allowed(w, q, p) ==>
                    best[key].distance <= w.metres(p.base, p.stop))
  }

  /** A stop of the trip itself is entered once, under itself; any other stop only within the limit of
      its mode and only if that is strictly closer than before. */
  function Assign(w: World, q: Query, p: Pair, best: map<Key, Best>): map<Key, Best> {
    var key := KeyOf(p.stop);
    if OwnBase(q, p.stop) then
      if key in best then best else best[key := Best(p.stop.id, 0.0, p.stop)]
    else if Allowed(w, q, p) && (key !in best || w.metres(p.base, p.stop) < best[key].distance) then
      best[key := Best(p.base.id, w.metres(p.base, p.stop), p.stop)]
    else best
  }

  /** Stops with one key are stops of the trip together. */
  lemma OwnByKey(q: Query, s: Stop, t: Stop)
    requires KeyOf(s) == KeyOf(t)
    ensures OwnBase(q, s) <==> OwnBase(q, t)
  {
  }

  lemma AssignKey(w: World, q: Query, pairs: iset<Pair>, p: Pair, best: map<Key, Best>, key: Key)
    requires RightFor(w, q, pairs, key, best)
    ensures RightFor(w, q, pairs + iset{p}, key, Assign(w, q, p, best))
  {
    hide OwnBase, Allowed;
    if key in best && KeyOf(p.stop) == key { OwnByKey(q, best[key].stop, p.stop); }
  }

  ghost predicate AllRight(w: World, q: Query, pairs: iset<Pair>, best: map<Key, Best>) {
    forall key :: RightFor(w, q, pairs, key, best)
  }

  lemma AssignOne(w: World, q: Query, pairs: iset<Pair>, p: Pair, best: map<Key, Best>)
    requires AllRight(w, q, pairs, best)
    ensures AllRight(w, q, pairs + iset{p}, Assign(w, q, p, best))
  {
    hide RightFor, Assign;
    forall key ensures RightFor(w, q, pairs + iset{p}, key, Assign(w, q, p, best)) {
      AssignKey(w, q, pairs, p, best, key);
    }
  }

  ghost function Seen(results: seq<Pair>, n: nat): iset<Pair>
    requires n <= |results|
  {
    iset p | p in results[..n]
  }

  method BestAssignment(w: World, q: Query, results: seq<Pair>) returns (best: map<Key, Best>)
    ensures AllRight(w, q, Seen(results, |results|), best)
  {
    hide AllRight, Assign, OwnBase, Allowed;
    best := map[];
    AllRightNone(w, q);
    assert Seen(results, 0) == iset{};
    for i := 0 to |results|
      invariant AllRight(w, q, Seen(results, i), best)
    {
      var p := results[i];
      assert results[..i + 1] == results[..i] + [p];
      assert Seen(results, i + 1) == Seen(results, i) + iset{p};
      AssignOne(w, q, Seen(results, i), p, best);
      best := Assign(w, q, p, best);
    }
  }

  lemma AllRightNone(w: World, q: Query)
    ensures AllRight(w, q, iset{}, map[])
  {
  }

  ghost function AllPairs(w: World, stops: seq<Base>): iset<Pair> {
    iset p | Joined(w, stops, p)
  }

  /** Clustering is only an optimisation: the result is right with respect to the join of all stops of
      the trip with the whole table. A stop of the trip is assigned to itself, every other one that has
      a base within the limit of its mode to one at minimum distance, and no other stop appears. Rows that
      share chateau and stop id share one entry, at the least distance of them all. */
  method ConnectionsLookup(w: World, q: Query) returns (best: map<Key, Best>)
    requires WorldOk(w)
    ensures forall key :: RightFor(w, q, AllPairs(w, q.stops), key, best)
  {
    hide Within, RightFor;
    var clusters := Cluster(q.stops);
    var results := JoinAll(w, clusters);
    assert results[..|results|] == results;
    assert Seen(results, |results|) == AllPairs(w, q.stops);
    best := BestAssignment(w, q, results);
  }

  // ---- The result in terms of coordinates and metres ----

  /** A spatial stop whose coordinates differ from a base's by at most 0.006 degrees in sum is joined
      with it, and a joined one by at most 0.006 degrees in each. */
  lemma JoinedInPlane(w: World, stops: seq<Base>, b: Base, s: Stop)
    ensures b in stops && s in w.table && s.spatial && s.point.Some?
            && Abs(b.lon - s.point.value.x) + Abs(b.lat - s.point.value.y) <= 0.006 ==>
              Joined(w, stops, Pair(b, s))
    ensures Joined(w, stops, Pair(b, s)) ==>
              && b in stops && s in w.table && s.spatial && s.point.Some?
              && Abs(b.lon - s.point.value.x) <= 0.006 && Abs(b.lat - s.point.value.y) <= 0.006
  {
    hide Within;
    WithinInPlane(b, s);
  }

  /** What a lookup must find: a stop of the trip as itself, any other one at no more than the distance
      to this base. */
  lemma EntryExists(w: World, q: Query, best: map<Key, Best>, b: Base, s: Stop)
    requires forall key :: RightFor(w, q, AllPairs(w, q.stops), key, best)
    requires b in q.stops && s in w.table && s.spatial && s.point.Some?
    requires Abs(b.lon - s.point.value.x) + Abs(b.lat - s.point.value.y) <= 0.006
    ensures s.chateau == q.chateau && (exists i :: 0 <= i < |q.stops| && q.stops[i].id == s.id) ==>
              && (s.chateau, s.id) in best
              && best[(s.chateau, s.id)].base == s.id && best[(s.chateau, s.id)].distance == 0.0
    ensures !(s.chateau == q.chateau && (exists i :: 0 <= i < |q.stops| && q.stops[i].id == s.id))
            && w.metres(b, s) <= MaxDistance(q.routeType, s.routeType) ==>
              (s.chateau, s.id) in best && best[(s.chateau, s.id)].distance <= w.metres(b, s)
  {
    hide Joined;
    JoinedInPlane(w, q.stops, b, s);
    var key, p := (s.chateau, s.id), Pair(b, s);
    assert RightFor(w, q, AllPairs(w, q.stops), key, best);
    assert p in AllPairs(w, q.stops) && KeyOf(p.stop) == key;
    if key in best { OwnByKey(q, best[key].stop, s); }
  }

  /** What a lookup may find: a spatial stop of the table close to some base; unless it is a stop of the
      trip, that base is the one it is filed with, at its distance and within the limit. */
  lemma EntryIsNear(w: World, q: Query, best: map<Key, Best>, key: Key) returns (b: Base)
    requires forall k :: RightFor(w, q, AllPairs(w, q.stops), k, best)
    requires key in best
    ensures var s := best[key].stop;
            && (s.chateau, s.id) == key && b in q.stops && s in w.table && s.spatial && s.point.Some?
            && Abs(b.lon - s.point.value.x) <= 0.006 && Abs(b.lat - s.point.value.y) <= 0.006
            && ((s.chateau == q.chateau && (exists i :: 0 <= i < |q.stops| && q.stops[i].id == s.id))
                || (best[key].base == b.id && best[key].distance == w.metres(b, s)
                    && w.metres(b, s) <= MaxDistance(q.routeType, s.routeType)))
  {
    hide Joined;
    assert RightFor(w, q, AllPairs(w, q.stops), key, best);
    var p: Pair;
    if OwnBase(q, best[key].stop) {
      p :| p in AllPairs(w, q.stops) && p.stop == best[key].stop;
    } else {
      p :| p in AllPairs(w, q.stops) && p.stop == best[key].stop && p.base.id == best[key].base
           && w.metres(p.base, p.stop) == best[key].distance && Allowed(w, q, p);
    }
    b := p.base;
    assert p == Pair(b, best[key].stop);
    JoinedInPlane(w, q.stops, b, best[key].stop);
  }

  /** The limits: 400 m from tram or subway (types 0 and 1) to rail (2); 150 m to a bus (3), from rail
      200 m; 200 m to tram or subway, except from rail; 300 m otherwise. */
  lemma LimitsByMode(mode: int, other: Option<int>)
    ensures MaxDistance(mode, other) == 400.0 <==> mode in {0, 1} && other == Some(2)
    ensures MaxDistance(mode, other) == 150.0 <==> mode != 2 && other == Some(3)
    ensures MaxDistance(mode, other) == 200.0 <==>
              (mode == 2 && other == Some(3)) || (mode != 2 && other in {Some(0), Some(1)})
    ensures MaxDistance(mode, other) in {150.0, 200.0, 300.0, 400.0}
  {
  }
}
