/** Half-edge triangulations as the Delaunay crate hands them to the concave hull
    (backend/src/hull.rs:67-104), and the boundary left after some triangles are removed. */
module Triangulations {
  import opened Counting

  /** The marker for a half-edge that has no opposite. */
  const EMPTY: int := -1

  datatype Point = Point(x: real, y: real)

  type Metric = (Point, Point) -> real

  function Next(e: nat): (n: nat) {
    if e % 3 == 2 then e - 2 else e + 1
  }

  function Prev(e: nat): (p: nat) {
    if e % 3 == 0 then e + 2 else e - 1
  }

  function TriangleOf(e: nat): nat {
    e / 3
  }

  /** Half-edge e runs from corner triangles[e] to the next corner of its triangle. */
  datatype Triangulation = Triangulation(points: seq<Point>, triangles: seq<nat>, halfedges: seq<int>)
  {
    ghost predicate Linked() {
      && |triangles| % 3 == 0
      && |halfedges| == |triangles|
      && (forall e :: 0 <= e < |triangles| ==> triangles[e] < |points|)
      && (forall e {:trigger Next(e)} :: 0 <= e < |triangles| ==> triangles[e] != triangles[Next(e)])
      && forall e {:trigger halfedges[e]} :: 0 <= e < |triangles| && halfedges[e] != EMPTY ==>
        && 0 <= halfedges[e] < |triangles|
        && halfedges[halfedges[e]] == e
        && triangles[halfedges[e]] == triangles[Next(e)]
        && triangles[Next(halfedges[e])] == triangles[e]
    }
  }

  /** Opposite half-edges reverse each other and every triangle has distinct corners. */
  type Mesh = t: Triangulation | t.Linked() witness Triangulation([], [], [])

  ghost predicate IsEdge(t: Mesh, e: int) {
    0 <= e < |t.triangles|
  }

  function Start(t: Mesh, e: nat): nat
    requires IsEdge(t, e)
  {
    t.triangles[e]
  }

  function End(t: Mesh, e: nat): nat
    requires IsEdge(t, e)
  {
    t.triangles[Next(e)]
  }

  /** The corner opposite half-edge e. */
  function Apex(t: Mesh, e: nat): nat
    requires IsEdge(t, e)
  {
    t.triangles[Prev(e)]
  }

  function Length(t: Mesh, metric: Metric, e: nat): real
    requires IsEdge(t, e)
  {
    metric(t.points[Start(t, e)], t.points[End(t, e)])
  }

  /** Half-edge o runs from point a to point b. */
  ghost predicate Joins(t: Mesh, o: nat, a: Point, b: Point) {
    && o < |t.triangles| && Next(o) < |t.triangles|
    && t.triangles[o] < |t.points| && t.triangles[Next(o)] < |t.points|
    && a == t.points[t.triangles[o]] && b == t.points[t.triangles[Next(o)]]
  }

  function NumTriangles(t: Mesh): nat {
    |t.triangles| / 3
  }

  ghost function AllTriangles(t: Mesh): set<nat> {
    UpTo(NumTriangles(t))
  }

  /** The half-edges of kept triangles that face the outside or a removed triangle. */
  ghost function Boundary(t: Mesh, removed: set<nat>): set<nat> {
    set e: nat | e < |t.triangles| && TriangleOf(e) !in removed
                 && (t.halfedges[e] == EMPTY || TriangleOf(t.halfedges[e]) in removed)
  }

  ghost predicate Starts(t: Mesh, edges: set<nat>, v: nat) {
    exists e :: e in edges && IsEdge(t, e) && Start(t, e) == v
  }

  ghost predicate Ends(t: Mesh, edges: set<nat>, v: nat) {
    exists e :: e in edges && IsEdge(t, e) && End(t, e) == v
  }

  /** A simple directed cycle of half-edges: each ends where its successor starts, no vertex twice. */
  ghost predicate IsRing(t: Mesh, ring: seq<nat>) {
    && |ring| > 0
    && (forall i :: 0 <= i < |ring| ==> IsEdge(t, ring[i]))
    && (forall i, j :: 0 <= i < j < |ring| ==> Start(t, ring[i]) != Start(t, ring[j]))
    && (forall i, j :: 0 <= i < |ring| && j == i + 1 < |ring| ==> End(t, ring[i]) == Start(t, ring[j]))
    && End(t, ring[|ring| - 1]) == Start(t, ring[0])
  }

  /** The given half-edges are exactly one simple directed cycle (or there are none). */
  ghost predicate RingOf(t: Mesh, ring: seq<nat>, edges: set<nat>) {
    && (forall e :: e in edges <==> e in ring)
    && (ring != [] ==> IsRing(t, ring))
  }

  ghost predicate HasRing(t: Mesh, edges: set<nat>) {
    exists ring :: RingOf(t, ring, edges)
  }

  // ---- Facts about half-edges ----

  lemma Corners(t: Mesh, e: nat)
    requires IsEdge(t, e)
    ensures IsEdge(t, Next(e)) && IsEdge(t, Prev(e))
    ensures TriangleOf(Next(e)) == TriangleOf(e) == TriangleOf(Prev(e)) < NumTriangles(t)
    ensures Next(Next(e)) == Prev(e) && Next(Prev(e)) == e
    ensures Next(e) != e && Prev(e) != e && Next(e) != Prev(e)
    ensures forall f: nat :: TriangleOf(f) == TriangleOf(e) ==> f == e || f == Next(e) || f == Prev(e)
    ensures Start(t, Next(e)) == End(t, e) && End(t, Next(e)) == Apex(t, e)
    ensures Start(t, Prev(e)) == Apex(t, e) && End(t, Prev(e)) == Start(t, e)
    ensures Start(t, e) != End(t, e) && Start(t, e) != Apex(t, e) && End(t, e) != Apex(t, e)
  {
    assert Next(Next(e)) == Prev(e) && Next(Prev(e)) == e;
    assert t.triangles[Next(e)] != t.triangles[Next(Next(e))];
    assert t.triangles[Prev(e)] != t.triangles[Next(Prev(e))];
  }

  /** Which edge of a ring comes next, or came before. */
  lemma RingNeighbours(t: Mesh, ring: seq<nat>, i: nat) returns (next: nat, prev: nat)
    requires IsRing(t, ring) && i < |ring|
    ensures next == (if i == |ring| - 1 then 0 else i + 1) && prev == (if i == 0 then |ring| - 1 else i - 1)
    ensures IsEdge(t, ring[i]) && IsEdge(t, ring[next]) && IsEdge(t, ring[prev])
    ensures End(t, ring[i]) == Start(t, ring[next]) && End(t, ring[prev]) == Start(t, ring[i])
  {
    hide Start, End;
    next := if i == |ring| - 1 then 0 else i + 1;
    prev := if i == 0 then |ring| - 1 else i - 1;
  }

  lemma RingStarts(t: Mesh, ring: seq<nat>, i: nat, j: nat)
    requires IsRing(t, ring) && i < |ring| && j < |ring|
    ensures IsEdge(t, ring[i]) && IsEdge(t, ring[j])
    ensures Start(t, ring[i]) == Start(t, ring[j]) ==> i == j
    ensures End(t, ring[i]) == End(t, ring[j]) ==> i == j
  {
    var n, p := RingNeighbours(t, ring, i);
    var m, q := RingNeighbours(t, ring, j);
    hide Start, End;
  }

  lemma RingIndex(t: Mesh, ring: seq<nat>, edges: set<nat>, e: nat) returns (i: nat)
    requires RingOf(t, ring, edges) && e in edges
    ensures i < |ring| && ring[i] == e && IsRing(t, ring)
  {
    hide IsRing;
    i :| i < |ring| && ring[i] == e;
  }

  /** On a ring, starts are injective, ends are injective, and both give the same vertices. */
  lemma RingVertices(t: Mesh, ring: seq<nat>, edges: set<nat>)
    requires RingOf(t, ring, edges)
    ensures forall e :: e in edges ==> IsEdge(t, e)
    ensures forall e, f :: e in edges && f in edges && Start(t, e) == Start(t, f) ==> e == f
    ensures forall e, f :: e in edges && f in edges && End(t, e) == End(t, f) ==> e == f
    ensures forall v :: Starts(t, edges, v) <==> Ends(t, edges, v)
  {
    hide IsRing, RingOf, Start, End;
    forall e | e in edges ensures IsEdge(t, e) {
      var i := RingIndex(t, ring, edges, e);
      RingStarts(t, ring, i, i);
    }
    forall e, f | e in edges && f in edges
      ensures Start(t, e) == Start(t, f) ==> e == f
      ensures End(t, e) == End(t, f) ==> e == f
    {
      var i := RingIndex(t, ring, edges, e);
      var j := RingIndex(t, ring, edges, f);
      RingStarts(t, ring, i, j);
    }
    forall v ensures Starts(t, edges, v) <==> Ends(t, edges, v) {
      if Starts(t, edges, v) {
        var e :| e in edges && IsEdge(t, e) && Start(t, e) == v;
        var i := RingIndex(t, ring, edges, e);
        var _, prev := RingNeighbours(t, ring, i);
        assert ring[prev] in edges by { RingMember(t, ring, edges, prev); }
      }
      if Ends(t, edges, v) {
        var e :| e in edges && IsEdge(t, e) && End(t, e) == v;
        var i := RingIndex(t, ring, edges, e);
        var next, _ := RingNeighbours(t, ring, i);
        assert ring[next] in edges by { RingMember(t, ring, edges, next); }
      }
    }
  }

  lemma RingMember(t: Mesh, ring: seq<nat>, edges: set<nat>, i: nat)
    requires RingOf(t, ring, edges) && i < |ring|
    ensures ring[i] in edges
  {
    hide IsRing;
  }

  /** A ring has as many half-edges as the set it runs through. */
  lemma RingSize(t: Mesh, ring: seq<nat>, edges: set<nat>)
    requires RingOf(t, ring, edges)
    ensures |ring| == |edges|
  {
    DistinctSize(ring);
    assert edges == Elements(ring);
  }
}
