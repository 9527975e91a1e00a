/** The ring left by an erosion encloses exactly the kept triangles: the shoelace sum along the
    boundary equals the sum of the kept triangles' signed areas, because inner edges cancel
    (backend/src/hull.rs:106-197). */
module HullArea {
  import opened Counting
  import opened Triangulations

  function Cross(p: Point, q: Point): real {
    p.x * q.y - q.x * p.y
  }

  /** Twice the signed area of the triangle p q r. */
  function TwiceArea(p: Point, q: Point, r: Point): real {
    (q.x - p.x) * (r.y - p.y) - (r.x - p.x) * (q.y - p.y)
  }

  /** A right triangle with legs a and b, anywhere; swapping two corners changes the sign. */
  lemma TwiceAreaIs(p: Point, q: Point, r: Point, a: real, b: real)
    ensures TwiceArea(p, Point(p.x + a, p.y), Point(p.x, p.y + b)) == a * b
    ensures TwiceArea(p, r, q) == -TwiceArea(p, q, r) && TwiceArea(q, p, r) == -TwiceArea(p, q, r)
  {
    assert p.x + a - p.x == a && p.y + b - p.y == b;
  }

  function EdgeCross(t: Mesh, e: nat): real
    requires IsEdge(t, e)
  {
    Cross(t.points[Start(t, e)], t.points[End(t, e)])
  }

  /** Twice the signed area enclosed by a closed walk (the shoelace formula). */
  function RingArea(t: Mesh, ring: seq<nat>): real
    requires forall i :: 0 <= i < |ring| ==> IsEdge(t, ring[i])
  {
    if ring == [] then 0.0 else EdgeCross(t, ring[0]) + RingArea(t, ring[1..])
  }

  function TriangleArea(t: Mesh, i: nat): real
    requires i < NumTriangles(t)
  {
    TwiceArea(t.points[t.triangles[3 * i]], t.points[t.triangles[3 * i + 1]], t.points[t.triangles[3 * i + 2]])
  }

  /** Sum over the kept ones among the first k triangles. */
  function KeptArea(t: Mesh, removed: set<nat>, k: nat): real
    requires k <= NumTriangles(t)
  {
    if k == 0 then 0.0
    else KeptArea(t, removed, k - 1) + if k - 1 in removed then 0.0 else TriangleArea(t, k - 1)
  }

  ghost predicate AllEdges(t: Mesh, edges: set<nat>) {
    forall e :: e in edges ==> IsEdge(t, e)
  }

  ghost function Sum(t: Mesh, edges: set<nat>): real
    requires AllEdges(t, edges)
  {
    if edges == {} then 0.0 else
      var e :| e in edges;
      EdgeCross(t, e) + Sum(t, edges - {e})
  }

  lemma {:induction false} SumPick(t: Mesh, edges: set<nat>, e: nat)
    requires AllEdges(t, edges) && e in edges
    ensures Sum(t, edges) == EdgeCross(t, e) + Sum(t, edges - {e})
    decreases edges
  {
    var f :| f in edges && Sum(t, edges) == EdgeCross(t, f) + Sum(t, edges - {f});
    if f != e {
      SumPick(t, edges - {f}, e);
      SumPick(t, edges - {e}, f);
      assert edges - {f} - {e} == edges - {e} - {f};
    }
  }

  lemma {:induction false} SumUnion(t: Mesh, a: set<nat>, b: set<nat>)
    requires AllEdges(t, a) && AllEdges(t, b) && a !! b
    ensures Sum(t, a + b) == Sum(t, a) + Sum(t, b)
    decreases a
  {
    if a == {} {
      assert a + b == b;
    } else {
      var e :| e in a;
      SumPick(t, a, e);
      SumPick(t, a + b, e);
      SumUnion(t, a - {e}, b);
      assert a + b - {e} == (a - {e}) + b;
    }
  }

  lemma OppositeCross(t: Mesh, e: nat)
    requires IsEdge(t, e) && t.halfedges[e] != EMPTY
    ensures t.halfedges[e] != e && EdgeCross(t, t.halfedges[e]) == -EdgeCross(t, e)
  {
    Corners(t, e);
  }

  ghost predicate Paired(t: Mesh, edges: set<nat>)
    requires AllEdges(t, edges)
  {
    forall e :: e in edges ==> t.halfedges[e] != EMPTY && t.halfedges[e] in edges
  }

  /** Half-edges paired with their opposites contribute nothing. */
  lemma {:induction false} PairsCancel(t: Mesh, edges: set<nat>)
    requires AllEdges(t, edges)
    requires Paired(t, edges)
    ensures Sum(t, edges) == 0.0
    decreases edges
  {
    hide EdgeCross, AllEdges, Paired;
    if edges != {} {
      var e :| e in edges;
      PairLeaves(t, edges, e);
      var o: nat := t.halfedges[e];
      SumPick(t, edges, e);
      SumPick(t, edges - {e}, o);
      PairsCancel(t, edges - {e} - {o});
    }
  }

  /** A half-edge and its opposite can be taken away together. */
  lemma PairLeaves(t: Mesh, edges: set<nat>, e: nat)
    requires AllEdges(t, edges) && Paired(t, edges) && e in edges
    ensures IsEdge(t, e) && t.halfedges[e] != EMPTY && IsEdge(t, t.halfedges[e])
    ensures t.halfedges[e] in edges - {e} && EdgeCross(t, t.halfedges[e]) == -EdgeCross(t, e)
    ensures AllEdges(t, edges - {e}) && AllEdges(t, edges - {e} - {t.halfedges[e]})
    ensures Paired(t, edges - {e} - {t.halfedges[e]})
  {
    hide EdgeCross;
    OppositeCross(t, e);
    var o := t.halfedges[e];
    forall f | f in edges - {e} - {o} ensures t.halfedges[f] != EMPTY && t.halfedges[f] in edges - {e} - {o} {
      assert t.halfedges[f] in edges && t.halfedges[t.halfedges[f]] == f;
    }
  }

  ghost function KeptEdges(t: Mesh, removed: set<nat>): set<nat> {
    set e: nat | e < |t.triangles| && TriangleOf(e) !in removed
  }

  lemma BoundarySum(t: Mesh, removed: set<nat>)
    ensures Sum(t, KeptEdges(t, removed)) == Sum(t, Boundary(t, removed))
  {
    var inner := KeptEdges(t, removed) - Boundary(t, removed);
    PairsCancel(t, inner);
    SumUnion(t, inner, Boundary(t, removed));
    assert inner + Boundary(t, removed) == KeptEdges(t, removed);
  }

  lemma {:induction false} RingSum(t: Mesh, ring: seq<nat>)
    requires Distinct(ring) && AllEdges(t, Elements(ring))
    ensures RingArea(t, ring) == Sum(t, Elements(ring))
  {
    if ring != [] {
      var rest := ring[1..];
      assert Elements(rest) == Elements(ring) - {ring[0]};
      RingSum(t, rest);
      SumPick(t, Elements(ring), ring[0]);
    }
  }

  lemma TriangleSum(t: Mesh, i: nat)
    requires i < NumTriangles(t)
    ensures EdgeCross(t, 3 * i) + EdgeCross(t, 3 * i + 1) + EdgeCross(t, 3 * i + 2) == TriangleArea(t, i)
  {
    hide Cross, TwiceArea;
    assert Next(3 * i) == 3 * i + 1 && Next(3 * i + 1) == 3 * i + 2 && Next(3 * i + 2) == 3 * i;
    CrossSum(t.points[t.triangles[3 * i]], t.points[t.triangles[3 * i + 1]], t.points[t.triangles[3 * i + 2]]);
  }

  lemma CrossSum(p: Point, q: Point, r: Point)
    ensures Cross(p, q) + Cross(q, r) + Cross(r, p) == TwiceArea(p, q, r)
  {
    assert (q.x - p.x) * (r.y - p.y) == q.x * r.y - q.x * p.y - p.x * r.y + p.x * p.y;
    assert (r.x - p.x) * (q.y - p.y) == r.x * q.y - r.x * p.y - p.x * q.y + p.x * p.y;
  }

  ghost function KeptEdgesBelow(t: Mesh, removed: set<nat>, k: nat): set<nat> {
    set e: nat | e < |t.triangles| && TriangleOf(e) < k && TriangleOf(e) !in removed
  }

  lemma SumOfThree(t: Mesh, a: nat, b: nat, c: nat)
    requires AllEdges(t, {a, b, c}) && a != b && b != c && a != c
    ensures Sum(t, {a, b, c}) == EdgeCross(t, a) + EdgeCross(t, b) + EdgeCross(t, c)
  {
    hide EdgeCross;
    SumPick(t, {a, b, c}, a);
    assert {a, b, c} - {a} == {b, c};
    SumPick(t, {b, c}, b);
    assert {b, c} - {b} == {c};
    SumPick(t, {c}, c);
    assert {c} - {c} == {};
  }

  lemma LastTriangle(t: Mesh, removed: set<nat>, i: nat)
    requires i < NumTriangles(t) && i !in removed
    ensures KeptEdgesBelow(t, removed, i + 1) == KeptEdgesBelow(t, removed, i) + {3 * i, 3 * i + 1, 3 * i + 2}
    ensures KeptEdgesBelow(t, removed, i) !! {3 * i, 3 * i + 1, 3 * i + 2}
    ensures AllEdges(t, {3 * i, 3 * i + 1, 3 * i + 2}) && AllEdges(t, KeptEdgesBelow(t, removed, i))
  {
  }

  lemma NoneKept(t: Mesh, removed: set<nat>)
    ensures KeptEdgesBelow(t, removed, 0) == {} && Sum(t, {}) == 0.0
  {
  }

  lemma RemovedTriangle(t: Mesh, removed: set<nat>, i: nat)
    requires i in removed
    ensures KeptEdgesBelow(t, removed, i + 1) == KeptEdgesBelow(t, removed, i)
  {
  }

  lemma {:induction false} KeptSum(t: Mesh, removed: set<nat>, k: nat)
    requires k <= NumTriangles(t)
    ensures Sum(t, KeptEdgesBelow(t, removed, k)) == KeptArea(t, removed, k)
  {
    hide TriangleArea, EdgeCross, Sum, KeptEdgesBelow, AllEdges;
    if k == 0 {
      NoneKept(t, removed);
    } else {
      KeptSum(t, removed, k - 1);
      var i, below := k - 1, KeptEdgesBelow(t, removed, k - 1);
      if i in removed {
        RemovedTriangle(t, removed, i);
      } else {
        LastTriangle(t, removed, i);
        SumUnion(t, below, {3 * i, 3 * i + 1, 3 * i + 2});
        SumOfThree(t, 3 * i, 3 * i + 1, 3 * i + 2);
        TriangleSum(t, i);
        KeptAreEdges(t, removed, k);
      }
    }
  }

  lemma KeptAreEdges(t: Mesh, removed: set<nat>, k: nat)
    ensures AllEdges(t, KeptEdgesBelow(t, removed, k))
  {
  }

  /** Conservation of area, for any set of removed triangles whose boundary is a ring. */
  lemma AreaIsConserved(t: Mesh, removed: set<nat>, ring: seq<nat>)
    requires RingOf(t, ring, Boundary(t, removed))
    ensures RingArea(t, ring) == KeptArea(t, removed, NumTriangles(t))
  {
    BoundarySum(t, removed);
    assert Elements(ring) == Boundary(t, removed);
    RingSum(t, ring);
    assert KeptEdgesBelow(t, removed, NumTriangles(t)) == KeptEdges(t, removed);
    KeptSum(t, removed, NumTriangles(t));
  }
}
