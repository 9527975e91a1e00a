/** What the erosion of the concave hull computes (backend/src/hull.rs:106-198): keep removing the
    longest boundary edge's triangle while that leaves a simple ring. The state is just the set of
    removed triangles; the boundary is derived from it. */
module Erosion {
  import opened Triangulations

  datatype ScoredEdge = ScoredEdge(index: nat, length: real)

  /** The order of the max-heap: by length, ties by half-edge index (hull.rs:28-34). */
  predicate AtMost(a: ScoredEdge, b: ScoredEdge) {
    a.length < b.length || (a.length == b.length && a.index <= b.index)
  }

  function Scored(t: Mesh, metric: Metric, e: nat): ScoredEdge
    requires IsEdge(t, e)
  {
    ScoredEdge(e, Length(t, metric, e))
  }

  /** The ear check and the third-vertex check both pass (hull.rs:129-145). */
  ghost predicate Peelable(t: Mesh, removed: set<nat>, e: nat) {
    var edges := Boundary(t, removed);
    && e in edges
    && Next(e) !in edges
    && Prev(e) !in edges
    && !Starts(t, edges, Apex(t, e))
  }

  ghost predicate Erodible(t: Mesh, metric: Metric, threshold: real, removed: set<nat>, e: nat) {
    Peelable(t, removed, e) && Length(t, metric, e) > threshold
  }

  /** e is the greatest of the edges that may still be eroded. */
  ghost predicate Chosen(t: Mesh, metric: Metric, threshold: real, removed: set<nat>, e: nat) {
    && Erodible(t, metric, threshold, removed, e)
    && forall o :: Erodible(t, metric, threshold, removed, o) ==> AtMost(Scored(t, metric, o), Scored(t, metric, e))
  }

  /** Rescan the whole boundary for the greatest erodible edge after each removal. */
  ghost function Eroded(t: Mesh, metric: Metric, threshold: real, removed: set<nat>): set<nat>
    decreases AllTriangles(t) - removed
  {
    if exists e :: Chosen(t, metric, threshold, removed, e) then
      var e :| Chosen(t, metric, threshold, removed, e);
      assert TriangleOf(e) in AllTriangles(t) - removed;
      Eroded(t, metric, threshold, removed + {TriangleOf(e)})
    else
      removed
  }

  // ---- One removal ----

  /** On a boundary that is a ring, an edge whose apex is off the ring also passes the ear check. */
  lemma ApexDecides(t: Mesh, removed: set<nat>, ring: seq<nat>, e: nat)
    requires RingOf(t, ring, Boundary(t, removed))
    requires e in Boundary(t, removed)
    ensures Peelable(t, removed, e) <==> !Starts(t, Boundary(t, removed), Apex(t, e))
  {
    var edges := Boundary(t, removed);
    Corners(t, e);
    RingVertices(t, ring, edges);
    if Next(e) in edges {
      assert Ends(t, edges, Apex(t, e));
    }
    if Prev(e) in edges {
      assert Starts(t, edges, Apex(t, e));
    }
  }

  /** The two inner edges of a peelable triangle have kept neighbours, so the EMPTY guards
      (hull.rs:163-186) always pass; the boundary swaps the edge for those two neighbours. */
  lemma PeelBoundary(t: Mesh, removed: set<nat>, e: nat)
    requires Peelable(t, removed, e)
    ensures t.halfedges[Next(e)] != EMPTY && t.halfedges[Prev(e)] != EMPTY
    ensures t.halfedges[Next(e)] != t.halfedges[Prev(e)]
    ensures t.halfedges[Next(e)] !in Boundary(t, removed) && t.halfedges[Prev(e)] !in Boundary(t, removed)
    ensures Boundary(t, removed + {TriangleOf(e)})
         == Boundary(t, removed) - {e} + {t.halfedges[Next(e)], t.halfedges[Prev(e)]}
  {
    hide TriangleOf, Next, Prev, Starts;
    Corners(t, e);
    var n, p := t.halfedges[Next(e)], t.halfedges[Prev(e)];
    assert n != EMPTY && p != EMPTY;
    Corners(t, n);
    Corners(t, p);
    assert n != e && n != Next(e) && n != Prev(e);
    assert p != e && p != Next(e) && p != Prev(e);
    var after := Boundary(t, removed + {TriangleOf(e)});
    forall f: nat ensures f in after <==> f in Boundary(t, removed) - {e} + {n, p} {
      if f < |t.triangles| {
        Corners(t, e);
        var o := t.halfedges[f];
        if o != EMPTY && TriangleOf(o) == TriangleOf(e) {
          assert o == e || o == Next(e) || o == Prev(e);
        }
      }
    }
  }

  /** How the two new boundary edges run around the apex. */
  lemma PeelEnds(t: Mesh, removed: set<nat>, e: nat)
    requires Peelable(t, removed, e)
    ensures IsEdge(t, e) && IsEdge(t, Next(e)) && IsEdge(t, Prev(e))
    ensures var n := t.halfedges[Next(e)];
            n != EMPTY && IsEdge(t, n) && Start(t, n) == Apex(t, e) && End(t, n) == End(t, e)
    ensures var p := t.halfedges[Prev(e)];
            p != EMPTY && IsEdge(t, p) && Start(t, p) == Start(t, e) && End(t, p) == Apex(t, e)
  {
    hide Boundary, Starts, Peelable;
    PeelableEdges(t, removed, e);
    Corners(t, e);
    PeelBoundary(t, removed, e);
  }

  /** u -> v in the ring is replaced by u -> apex -> v, which is a ring again. */
  lemma PeelRing(t: Mesh, removed: set<nat>, ring: seq<nat>, e: nat) returns (peeled: seq<nat>)
    requires RingOf(t, ring, Boundary(t, removed))
    requires Peelable(t, removed, e)
    ensures RingOf(t, peeled, Boundary(t, removed + {TriangleOf(e)}))
    ensures |peeled| == |ring| + 1
    ensures forall v :: Starts(t, Boundary(t, removed + {TriangleOf(e)}), v) <==>
              Starts(t, Boundary(t, removed), v) || v == Apex(t, e)
  {
    hide Boundary, Starts, Start, End, Apex, Next, Prev, TriangleOf, IsRing;
    PeelBoundary(t, removed, e);
    PeelEnds(t, removed, e);
    var n, p := t.halfedges[Next(e)], t.halfedges[Prev(e)];
    assert e in Boundary(t, removed) && !Starts(t, Boundary(t, removed), Apex(t, e)) by {
      PeelableApart(t, removed, e);
    }
    var k := RingIndex(t, ring, Boundary(t, removed), e);
    peeled := ring[..k] + [p, n] + ring[k + 1..];
    forall i: nat | i < |ring| ensures IsEdge(t, ring[i]) && Start(t, ring[i]) != Apex(t, e) {
      RingStarts(t, ring, i, i);
      StartsHere(t, Boundary(t, removed), ring[i]);
    }
    forall i: nat | i < |ring| && i != k ensures ring[i] != ring[k] {
      RingStarts(t, ring, i, k);
    }
    PeelRingMembers(ring, k, p, n);
    PeelRingIsRing(t, ring, k, p, n);
    SwapStarts(t, Boundary(t, removed), e, n, p);
  }

  lemma PeelableApart(t: Mesh, removed: set<nat>, e: nat)
    requires Peelable(t, removed, e)
    ensures e in Boundary(t, removed) && IsEdge(t, e) && !Starts(t, Boundary(t, removed), Apex(t, e))
  {
    hide Starts;
  }

  lemma StartsHere(t: Mesh, edges: set<nat>, e: nat)
    requires e in edges && IsEdge(t, e)
    ensures Starts(t, edges, Start(t, e))
  {
  }

  /** Swapping u -> v for u -> w and w -> v adds w to the vertices. */
  lemma SwapStarts(t: Mesh, edges: set<nat>, e: nat, n: nat, p: nat)
    requires IsEdge(t, e) && IsEdge(t, n) && IsEdge(t, p) && e in edges && Start(t, p) == Start(t, e)
    requires p != e && n != e
    ensures forall v :: Starts(t, edges - {e} + {n, p}, v) <==> Starts(t, edges, v) || v == Start(t, n)
  {
    hide Start;
    var after := edges - {e} + {n, p};
    forall v ensures Starts(t, after, v) <==> Starts(t, edges, v) || v == Start(t, n) {
      if Starts(t, after, v) {
        var f :| f in after && IsEdge(t, f) && Start(t, f) == v;
        assert f == n || f == p || f in edges;
      }
      if Starts(t, edges, v) {
        var f :| f in edges && IsEdge(t, f) && Start(t, f) == v;
        assert (if f == e then p else f) in after;
      }
      assert n in after;
    }
  }

  lemma PeelRingMembers(ring: seq<nat>, k: nat, p: nat, n: nat)
    requires k < |ring|
    requires forall i :: 0 <= i < |ring| && i != k ==> ring[i] != ring[k]
    ensures forall f :: f in ring[..k] + [p, n] + ring[k + 1..] <==> (f in ring && f != ring[k]) || f == p || f == n
  {
    var peeled := ring[..k] + [p, n] + ring[k + 1..];
    forall f | f in ring && f != ring[k] ensures f in peeled {
      var i :| 0 <= i < |ring| && ring[i] == f;
      assert peeled[if i < k then i else i + 1] == f;
    }
    assert peeled[k] == p && peeled[k + 1] == n;
  }

  /** What stands at position i of the peeled ring. */
  lemma PeelRingAt(ring: seq<nat>, k: nat, p: nat, n: nat, i: nat)
    requires k < |ring| && i <= |ring|
    ensures (ring[..k] + [p, n] + ring[k + 1..])[i]
         == if i < k then ring[i] else if i == k then p else if i == k + 1 then n else ring[i - 1]
  {
  }

  lemma PeelRingIsRing(t: Mesh, ring: seq<nat>, k: nat, p: nat, n: nat)
    requires IsRing(t, ring) && k < |ring|
    requires IsEdge(t, p) && IsEdge(t, n)
    requires Start(t, p) == Start(t, ring[k]) && End(t, p) == Start(t, n) && End(t, n) == End(t, ring[k])
    requires forall i :: 0 <= i < |ring| ==> Start(t, ring[i]) != Start(t, n)
    ensures IsRing(t, ring[..k] + [p, n] + ring[k + 1..])
  {
    var peeled := ring[..k] + [p, n] + ring[k + 1..];
    forall i | 0 <= i < |peeled| ensures IsEdge(t, peeled[i]) {
      PeelRingAt(ring, k, p, n, i);
    }
    forall i, j | 0 <= i < |peeled| && j == i + 1 < |peeled| ensures End(t, peeled[i]) == Start(t, peeled[j]) {
      PeelRingAt(ring, k, p, n, i);
      PeelRingAt(ring, k, p, n, j);
    }
    forall i, j | 0 <= i < j < |peeled| ensures Start(t, peeled[i]) != Start(t, peeled[j]) {
      PeelRingAt(ring, k, p, n, i);
      PeelRingAt(ring, k, p, n, j);
    }
    PeelRingAt(ring, k, p, n, 0);
    PeelRingAt(ring, k, p, n, |ring|);
  }

  /** The opposites of the other two half-edges of e's triangle. */
  ghost function Revealed(t: Mesh, e: nat): set<int> {
    if IsEdge(t, e) then {t.halfedges[Next(e)], t.halfedges[Prev(e)]} else {}
  }

  /** A rejected edge stays rejected: after a removal only the two new edges can have become peelable. */
  lemma RejectionLasts(t: Mesh, removed: set<nat>, ring: seq<nat>, e: nat, o: nat)
    requires RingOf(t, ring, Boundary(t, removed))
    requires Peelable(t, removed, e)
    requires Peelable(t, removed + {TriangleOf(e)}, o)
    ensures o in Revealed(t, e) || Peelable(t, removed, o)
  {
    hide TriangleOf, Next, Prev, Starts, RingOf, IsRing, Boundary;
    PeelableEdges(t, removed, e);
    PeelableEdges(t, removed + {TriangleOf(e)}, o);
    PeelBoundary(t, removed, e);
    var peeled := PeelRing(t, removed, ring, e);
    if o !in Revealed(t, e) {
      assert o in Boundary(t, removed);
      ApexDecides(t, removed, ring, o);
    }
  }

  lemma PeelableEdges(t: Mesh, removed: set<nat>, e: nat)
    requires Peelable(t, removed, e)
    ensures IsEdge(t, e) && IsEdge(t, Next(e)) && IsEdge(t, Prev(e)) && e in Boundary(t, removed)
  {
    hide Starts;
    Corners(t, e);
  }

  lemma ChosenIsUnique(t: Mesh, metric: Metric, threshold: real, removed: set<nat>, e: nat)
    requires Chosen(t, metric, threshold, removed, e)
    ensures TriangleOf(e) in AllTriangles(t) - removed
    ensures Eroded(t, metric, threshold, removed) == Eroded(t, metric, threshold, removed + {TriangleOf(e)})
  {
    forall o | Chosen(t, metric, threshold, removed, o) ensures o == e {
      assert AtMost(Scored(t, metric, o), Scored(t, metric, e)) && AtMost(Scored(t, metric, e), Scored(t, metric, o));
    }
  }

  // ---- Whole erosions ----

  /** Every erosion keeps the boundary one simple ring, one edge longer per removed triangle, and
      never loses a vertex of it. */
  lemma {:induction false} ErodedKeepsRing(t: Mesh, metric: Metric, threshold: real, removed: set<nat>, ring: seq<nat>)
    returns (final: seq<nat>)
    requires RingOf(t, ring, Boundary(t, removed))
    ensures RingOf(t, final, Boundary(t, Eroded(t, metric, threshold, removed)))
    ensures |final| == |ring| + |Eroded(t, metric, threshold, removed)| - |removed|
    ensures removed <= Eroded(t, metric, threshold, removed)
    ensures forall v :: Starts(t, Boundary(t, removed), v) ==>
              Starts(t, Boundary(t, Eroded(t, metric, threshold, removed)), v)
    decreases AllTriangles(t) - removed
  {
    hide RingOf, Boundary, Starts;
    if exists e :: Chosen(t, metric, threshold, removed, e) {
      var e :| Chosen(t, metric, threshold, removed, e);
      ChosenIsUnique(t, metric, threshold, removed, e);
      var peeled := PeelRing(t, removed, ring, e);
      final := ErodedKeepsRing(t, metric, threshold, removed + {TriangleOf(e)}, peeled);
    } else {
      final := ring;
    }
  }

  /** Nothing more can be eroded: every boundary edge longer than the threshold is blocked because
      its triangle is an ear or its apex already lies on the boundary. */
  lemma {:induction false} ErodedIsMaximal(t: Mesh, metric: Metric, threshold: real, removed: set<nat>, e: nat)
    requires e in Boundary(t, Eroded(t, metric, threshold, removed))
    requires Length(t, metric, e) > threshold
    ensures var edges := Boundary(t, Eroded(t, metric, threshold, removed));
            Next(e) in edges || Prev(e) in edges || Starts(t, edges, Apex(t, e))
    decreases AllTriangles(t) - removed
  {
    if exists c :: Chosen(t, metric, threshold, removed, c) {
      var c :| Chosen(t, metric, threshold, removed, c);
      ChosenIsUnique(t, metric, threshold, removed, c);
      ErodedIsMaximal(t, metric, threshold, removed + {TriangleOf(c)}, e);
    } else if Erodible(t, metric, threshold, removed, e) {
      var some := set o | o in Boundary(t, removed) && Erodible(t, metric, threshold, removed, o);
      assert e in some;
      var c := Greatest(t, metric, some);
      assert Chosen(t, metric, threshold, removed, c);
    }
  }

  lemma {:induction false} Greatest(t: Mesh, metric: Metric, edges: set<nat>) returns (top: nat)
    requires edges != {} && forall e :: e in edges ==> IsEdge(t, e)
    ensures top in edges
    ensures forall e :: e in edges ==> AtMost(Scored(t, metric, e), Scored(t, metric, top))
    decreases edges
  {
    top :| top in edges;
    if edges != {top} {
      assert edges == (edges - {top}) + {top};
      var other := Greatest(t, metric, edges - {top});
      if AtMost(Scored(t, metric, top), Scored(t, metric, other)) { top := other; }
    }
  }

  ghost predicate Covered(t: Mesh, removed: set<nat>, v: nat) {
    exists e :: IsEdge(t, e) && TriangleOf(e) !in removed && Start(t, e) == v
  }

  /** Erosion never uncovers a vertex: every corner of the triangulation remains a corner of some
      kept triangle. */
  lemma {:induction false} ErodedKeepsVertices(t: Mesh, metric: Metric, threshold: real, removed: set<nat>, v: nat)
    requires Covered(t, removed, v)
    ensures Covered(t, Eroded(t, metric, threshold, removed), v)
    decreases AllTriangles(t) - removed
  {
    if exists e :: Chosen(t, metric, threshold, removed, e) {
      var e :| Chosen(t, metric, threshold, removed, e);
      ChosenIsUnique(t, metric, threshold, removed, e);
      PeelKeepsVertices(t, removed, e, v);
      ErodedKeepsVertices(t, metric, threshold, removed + {TriangleOf(e)}, v);
    }
  }

  lemma PeelKeepsVertices(t: Mesh, removed: set<nat>, e: nat, v: nat)
    requires Peelable(t, removed, e) && Covered(t, removed, v)
    ensures Covered(t, removed + {TriangleOf(e)}, v)
  {
    var f :| IsEdge(t, f) && TriangleOf(f) !in removed && Start(t, f) == v;
    PeelBoundary(t, removed, e);
    Corners(t, e);
    var n, p := t.halfedges[Next(e)], t.halfedges[Prev(e)];
    assert {n, p} <= Boundary(t, removed + {TriangleOf(e)});
    Corners(t, n);
    assert Start(t, p) == Start(t, e) && Start(t, n) == Apex(t, e) && Start(t, Next(n)) == End(t, e);
  }
}
