/** The concave hull itself (backend/src/hull.rs:76-246): boundary set, degree table, heap and
    removal flags are updated in place, and the surviving boundary is traced into a closed outline. */
module ChiShape {
  import opened Wrappers
  import opened Counting
  import opened Triangulations
  import opened Erosion

  /** A well-formed input: the half-edges without an opposite form one simple directed cycle. */
  ghost predicate WellFormed(t: Mesh) {
    HasRing(t, Boundary(t, {}))
  }

  /** The heap as the multiset of its entries; only the removal of the greatest matters. */
  type Heap = multiset<ScoredEdge>

  lemma {:induction false} GreatestEntry(heap: Heap) returns (top: ScoredEdge)
    requires heap != multiset{}
    ensures top in heap && forall o :: o in heap ==> AtMost(o, top)
    decreases |heap|
  {
    top :| top in heap;
    var rest := heap - multiset{top};
    assert forall o :: o in heap ==> o == top || o in rest;
    if rest != multiset{} {
      var other := GreatestEntry(rest);
      if AtMost(top, other) { top := other; }
    }
  }

  method PopMax(heap: Heap) returns (top: ScoredEdge, rest: Heap)
    requires heap != multiset{}
    ensures top in heap && rest == heap - multiset{top}
    ensures forall o :: o in heap ==> AtMost(o, top)
    ensures forall o :: o in heap ==> o.length < top.length || (o.length == top.length && o.index <= top.index)
  {
    ghost var greatest := GreatestEntry(heap);
    top :| top in heap && forall o :: o in heap ==> AtMost(o, top);
    rest := heap - multiset{top};
  }

  ghost predicate HeapOk(t: Mesh, metric: Metric, heap: Heap) {
    forall s :: s in heap ==> IsEdge(t, s.index) && s == Scored(t, metric, s.index)
  }

  /** How often v is touched by the given edges, no two of which start or end together. */
  ghost function Incidence(t: Mesh, edges: set<nat>, v: nat): int {
    (if Starts(t, edges, v) then 1 else 0) + (if Ends(t, edges, v) then 1 else 0)
  }

  ghost predicate Degrees(t: Mesh, edges: set<nat>, degrees: seq<int>) {
    |degrees| == |t.points| && forall v :: 0 <= v < |t.points| ==> degrees[v] == Incidence(t, edges, v)
  }

  /** One more edge of a ring touches exactly its two endpoints once more. */
  lemma AddDegrees(t: Mesh, ring: seq<nat>, all: set<nat>, edges: set<nat>, e: nat, degrees: seq<int>)
    requires RingOf(t, ring, all)
    requires edges <= all && e in all - edges
    requires Degrees(t, edges, degrees)
    ensures IsEdge(t, e) && Start(t, e) != End(t, e)
    ensures Degrees(t, edges + {e},
                    degrees[Start(t, e) := degrees[Start(t, e)] + 1][End(t, e) := degrees[End(t, e)] + 1])
  {
    hide RingOf, IsRing, Start, End;
    RingVertices(t, ring, all);
    RingMeshEdge(t, e);
    assert !Starts(t, edges, Start(t, e)) && !Ends(t, edges, End(t, e));
    forall v
      ensures Starts(t, edges + {e}, v) <==> Starts(t, edges, v) || v == Start(t, e)
      ensures Ends(t, edges + {e}, v) <==> Ends(t, edges, v) || v == End(t, e)
    {
      OneMoreEdge(t, edges, e, v);
    }
    hide Starts, Ends;
  }

  lemma RingMeshEdge(t: Mesh, e: nat)
    requires IsEdge(t, e)
    ensures Start(t, e) != End(t, e) && Start(t, e) < |t.points| && End(t, e) < |t.points|
  {
    Corners(t, e);
  }

  lemma OneMoreEdge(t: Mesh, edges: set<nat>, e: nat, v: nat)
    requires IsEdge(t, e)
    ensures Starts(t, edges + {e}, v) <==> Starts(t, edges, v) || v == Start(t, e)
    ensures Ends(t, edges + {e}, v) <==> Ends(t, edges, v) || v == End(t, e)
  {
    hide Start, End;
    if Starts(t, edges, v) { var f :| f in edges && IsEdge(t, f) && Start(t, f) == v; assert f in edges + {e}; }
    if Ends(t, edges, v) { var f :| f in edges && IsEdge(t, f) && End(t, f) == v; assert f in edges + {e}; }
    assert e in edges + {e};
  }

  lemma AddNothing(t: Mesh, degrees: seq<int>)
    requires |degrees| == |t.points| && forall v :: 0 <= v < |degrees| ==> degrees[v] == 0
    ensures Degrees(t, {}, degrees)
  {
  }

  lemma HullEdge(t: Mesh, e: nat)
    requires IsEdge(t, e)
    ensures e in Boundary(t, {}) <==> t.halfedges[e] == EMPTY
  {
  }

  /** The boundary edges below e have been entered in the set, the degree table and the heap. */
  ghost predicate Entered(t: Mesh, metric: Metric, e: nat, edges: set<nat>, degrees: seq<int>, heap: Heap) {
    && (forall f :: f in edges <==> f in Boundary(t, {}) && f < e)
    && Degrees(t, edges, degrees) && HeapOk(t, metric, heap)
    && (forall f :: f in edges && IsEdge(t, f) ==> Scored(t, metric, f) in heap)
  }

  lemma EnterNothing(t: Mesh, metric: Metric, degrees: seq<int>)
    requires |degrees| == |t.points| && forall v :: 0 <= v < |degrees| ==> degrees[v] == 0
    ensures Entered(t, metric, 0, {}, degrees, multiset{})
  {
    AddNothing(t, degrees);
  }

  lemma EnterOrSkip(t: Mesh, metric: Metric, ring: seq<nat>, e: nat, edges: set<nat>, degrees: seq<int>, heap: Heap)
    requires RingOf(t, ring, Boundary(t, {})) && IsEdge(t, e) && Entered(t, metric, e, edges, degrees, heap)
    ensures |degrees| == |t.points| && Start(t, e) < |degrees| && End(t, e) < |degrees| && Start(t, e) != End(t, e)
    ensures t.halfedges[e] != EMPTY ==> Entered(t, metric, e + 1, edges, degrees, heap)
    ensures t.halfedges[e] == EMPTY ==>
              Entered(t, metric, e + 1, edges + {e},
                      degrees[Start(t, e) := degrees[Start(t, e)] + 1][End(t, e) := degrees[End(t, e)] + 1],
                      heap + multiset{Scored(t, metric, e)})
  {
    hide Boundary, RingOf, IsRing, Degrees, Start, End, Scored;
    HullEdge(t, e);
    RingMeshEdge(t, e);
    DegreesSize(t, edges, degrees);
    if t.halfedges[e] == EMPTY {
      AddDegrees(t, ring, Boundary(t, {}), edges, e, degrees);
      assert Scored(t, metric, e).index == e by { ScoredIndex(t, metric, e); }
    }
  }

  lemma ScoredIndex(t: Mesh, metric: Metric, e: nat)
    requires IsEdge(t, e)
    ensures Scored(t, metric, e).index == e
  {
  }

  lemma DegreesSize(t: Mesh, edges: set<nat>, degrees: seq<int>)
    requires Degrees(t, edges, degrees)
    ensures |degrees| == |t.points|
  {
  }

  method InitBoundary(t: Mesh, metric: Metric, ghost ring: seq<nat>)
    returns (edges: set<nat>, degrees: array<int>, heap: Heap)
    requires RingOf(t, ring, Boundary(t, {}))
    ensures fresh(degrees) && degrees.Length == |t.points| && Degrees(t, edges, degrees[..])
    ensures edges == Boundary(t, {})
    ensures HeapOk(t, metric, heap)
    ensures forall e :: e in edges && IsEdge(t, e) ==> Scored(t, metric, e) in heap
    ensures forall e, a, b :: e in edges && Joins(t, e, a, b) ==> ScoredEdge(e, metric(a, b)) in heap
  {
    hide Boundary, RingOf, IsRing, Degrees, HeapOk, Entered, Start, End;
    edges, heap := {}, multiset{};
    degrees := new int[|t.points|](_ => 0);
    EnterNothing(t, metric, degrees[..]);
    for e := 0 to |t.halfedges|
      invariant degrees.Length == |t.points|
      invariant Entered(t, metric, e, edges, degrees[..], heap)
    {
      EnterOrSkip(t, metric, ring, e, edges, degrees[..], heap);
      if t.halfedges[e] == EMPTY {
        var start, end := Start(t, e), End(t, e);
        ghost var touched := degrees[..][start := degrees[start] + 1][end := degrees[end] + 1];
        edges := edges + {e};
        degrees[start] := degrees[start] + 1;
        degrees[end] := degrees[end] + 1;
        assert degrees[..] == touched;
        heap := heap + multiset{ScoredEdge(e, metric(t.points[start], t.points[end]))};
      }
    }
    AllEntered(t, metric, edges, degrees[..], heap);
    forall e, a, b | e in edges && Joins(t, e, a, b) ensures ScoredEdge(e, metric(a, b)) in heap {
      ScoreIsDistance(t, metric, e, a, b);
    }
  }

  /** An entry carries the distance between the end points of its half-edge. */
  lemma ScoreIsDistance(t: Mesh, metric: Metric, e: nat, a: Point, b: Point)
    requires Joins(t, e, a, b)
    ensures IsEdge(t, e) && Scored(t, metric, e) == ScoredEdge(e, metric(a, b))
  {
  }

  lemma AllEntered(t: Mesh, metric: Metric, edges: set<nat>, degrees: seq<int>, heap: Heap)
    requires Entered(t, metric, |t.halfedges|, edges, degrees, heap)
    ensures edges == Boundary(t, {}) && Degrees(t, edges, degrees) && HeapOk(t, metric, heap)
    ensures forall e :: e in edges && IsEdge(t, e) ==> Scored(t, metric, e) in heap
  {
    hide Degrees;
  }

  /** What the erosion loop keeps: the boundary set and the degree table agree with the removed
      triangles, and every edge that could still be eroded waits in the heap. */
  ghost predicate Inv(t: Mesh, metric: Metric, removed: set<nat>, ring: seq<nat>, edges: set<nat>,
                      degrees: seq<int>, flags: seq<bool>, heap: Heap) {
    && edges == Boundary(t, removed)
    && RingOf(t, ring, edges)
    && removed <= AllTriangles(t)
    && RingDegrees(t, edges, degrees)
    && Flags(t, removed, flags)
    && HeapOk(t, metric, heap)
    && Waiting(t, metric, removed, heap)
  }

  ghost predicate RingDegrees(t: Mesh, edges: set<nat>, degrees: seq<int>) {
    |degrees| == |t.points| && forall v :: 0 <= v < |degrees| ==> degrees[v] == if Starts(t, edges, v) then 2 else 0
  }

  ghost predicate Flags(t: Mesh, removed: set<nat>, flags: seq<bool>) {
    |flags| == NumTriangles(t) && forall i :: 0 <= i < |flags| ==> (flags[i] <==> i in removed)
  }

  ghost predicate Waiting(t: Mesh, metric: Metric, removed: set<nat>, heap: Heap) {
    forall e :: Peelable(t, removed, e) ==> Scored(t, metric, e) in heap
  }

  lemma InvInit(t: Mesh, metric: Metric, ring: seq<nat>, edges: set<nat>, degrees: seq<int>, flags: seq<bool>,
                heap: Heap)
    requires RingOf(t, ring, Boundary(t, {})) && edges == Boundary(t, {})
    requires Degrees(t, edges, degrees) && HeapOk(t, metric, heap)
    requires |flags| == NumTriangles(t) && forall i :: 0 <= i < |flags| ==> !flags[i]
    requires forall e :: e in edges && IsEdge(t, e) ==> Scored(t, metric, e) in heap
    ensures Inv(t, metric, {}, ring, edges, degrees, flags, heap)
  {
    RingVertices(t, ring, edges);
  }

  /** What the loop may rely on for an edge taken from the heap. */
  lemma PoppedEdge(t: Mesh, metric: Metric, removed: set<nat>, ring: seq<nat>, edges: set<nat>,
                   degrees: seq<int>, flags: seq<bool>, heap: Heap, edge: ScoredEdge)
    requires Inv(t, metric, removed, ring, edges, degrees, flags, heap) && edge in heap
    ensures IsEdge(t, edge.index) && IsEdge(t, Next(edge.index)) && IsEdge(t, Prev(edge.index))
    ensures edge.length == Length(t, metric, edge.index)
    ensures |degrees| == |t.points| && |flags| == NumTriangles(t) && TriangleOf(edge.index) < |flags|
    ensures Peelable(t, removed, edge.index) <==>
              && edge.index in edges && !flags[TriangleOf(edge.index)]
              && Next(edge.index) !in edges && Prev(edge.index) !in edges
              && degrees[Apex(t, edge.index)] <= 0
  {
    Corners(t, edge.index);
  }

  /** Dropping a heap entry that cannot be eroded loses nothing. */
  lemma InvSkip(t: Mesh, metric: Metric, removed: set<nat>, ring: seq<nat>, edges: set<nat>,
                degrees: seq<int>, flags: seq<bool>, heap: Heap, edge: ScoredEdge)
    requires Inv(t, metric, removed, ring, edges, degrees, flags, heap)
    requires edge in heap && !Peelable(t, removed, edge.index)
    ensures Inv(t, metric, removed, ring, edges, degrees, flags, heap - multiset{edge})
  {
  }

  /** The greatest heap entry, when it passes all checks, is the greatest erodible edge. */
  lemma TopIsChosen(t: Mesh, metric: Metric, threshold: real, removed: set<nat>, ring: seq<nat>, edges: set<nat>,
                    degrees: seq<int>, flags: seq<bool>, heap: Heap, edge: ScoredEdge)
    requires Inv(t, metric, removed, ring, edges, degrees, flags, heap) && edge in heap
    requires forall o :: o in heap ==> AtMost(o, edge)
    requires Peelable(t, removed, edge.index) && edge.length > threshold
    ensures Eroded(t, metric, threshold, removed) == Eroded(t, metric, threshold, removed + {TriangleOf(edge.index)})
    ensures TriangleOf(edge.index) in AllTriangles(t) - removed
  {
    assert Chosen(t, metric, threshold, removed, edge.index);
    ChosenIsUnique(t, metric, threshold, removed, edge.index);
  }

  /** When no heap entry is longer than the threshold, the erosion is complete. */
  lemma AllShort(t: Mesh, metric: Metric, threshold: real, removed: set<nat>, ring: seq<nat>, edges: set<nat>,
                 degrees: seq<int>, flags: seq<bool>, heap: Heap, longest: real)
    requires Inv(t, metric, removed, ring, edges, degrees, flags, heap)
    requires forall o :: o in heap ==> o.length <= longest
    requires longest <= threshold
    ensures Eroded(t, metric, threshold, removed) == removed
    ensures edges == Boundary(t, removed) && Flags(t, removed, flags)
  {
    assert forall e :: !Erodible(t, metric, threshold, removed, e);
  }

  /** Around a peelable edge u -> v with apex w: the neighbours run w -> v and u -> w. */
  lemma PeelCorners(t: Mesh, removed: set<nat>, e: nat)
    requires Peelable(t, removed, e)
    ensures IsEdge(t, Next(e)) && IsEdge(t, Prev(e)) && TriangleOf(e) < NumTriangles(t)
    ensures Start(t, e) != End(t, e) && Start(t, e) != Apex(t, e) && End(t, e) != Apex(t, e)
    ensures var n := t.halfedges[Next(e)];
            n != EMPTY && IsEdge(t, n) && Start(t, n) == Apex(t, e) && End(t, n) == End(t, e)
    ensures var p := t.halfedges[Prev(e)];
            p != EMPTY && IsEdge(t, p) && Start(t, p) == Start(t, e) && End(t, p) == Apex(t, e)
  {
    Corners(t, e);
    PeelBoundary(t, removed, e);
  }

  /** One removal: the endpoints of the edge keep their degree and the apex joins the ring. */
  lemma InvPeel(t: Mesh, metric: Metric, removed: set<nat>, ring: seq<nat>, edges: set<nat>,
                degrees: seq<int>, flags: seq<bool>, heap: Heap, e: nat, degrees': seq<int>, heap': Heap)
    returns (ring': seq<nat>)
    requires Inv(t, metric, removed, ring, edges, degrees, flags, heap)
    requires Peelable(t, removed, e) && IsEdge(t, Next(e)) && IsEdge(t, Prev(e))
    requires |degrees'| == |degrees|
    requires forall v :: 0 <= v < |degrees| ==> degrees'[v] == degrees[v] + if v == Apex(t, e) then 2 else 0
    requires t.halfedges[Next(e)] != EMPTY && IsEdge(t, t.halfedges[Next(e)])
    requires t.halfedges[Prev(e)] != EMPTY && IsEdge(t, t.halfedges[Prev(e)])
    requires heap' == heap - multiset{Scored(t, metric, e)}
                      + multiset{Scored(t, metric, t.halfedges[Next(e)])}
                      + multiset{Scored(t, metric, t.halfedges[Prev(e)])}
    ensures TriangleOf(e) < |flags|
    ensures Inv(t, metric, removed + {TriangleOf(e)}, ring',
                edges - {e} + {t.halfedges[Next(e)]} + {t.halfedges[Prev(e)]},
                degrees', flags[TriangleOf(e) := true], heap')
  {
    hide Boundary, RingOf, IsRing, Starts, Ends, Peelable, TriangleOf, RingDegrees, Waiting, HeapOk, Flags,
         AllTriangles, Start, End, Apex, Next, Prev;
    var n, p := t.halfedges[Next(e)], t.halfedges[Prev(e)];
    PeelFlags(t, removed, flags, e);
    assert edges - {e} + {n} + {p} == Boundary(t, removed + {TriangleOf(e)}) by {
      PeelBoundary(t, removed, e);
    }
    ring' := PeelRing(t, removed, ring, e);
    PeelableIsBoundary(t, removed, e);
    PeelDegrees(t, edges, Boundary(t, removed + {TriangleOf(e)}), degrees, degrees', Apex(t, e));
    PeelHeap(t, metric, heap, heap', n, p);
    forall s | s in heap && s.index != e ensures s in heap' {
      assert s != Scored(t, metric, e);
    }
    PeelWaiting(t, metric, removed, ring, heap, e, heap');
  }

  lemma PeelFlags(t: Mesh, removed: set<nat>, flags: seq<bool>, e: nat)
    requires Peelable(t, removed, e) && Flags(t, removed, flags) && removed <= AllTriangles(t)
    ensures TriangleOf(e) < |flags| && Flags(t, removed + {TriangleOf(e)}, flags[TriangleOf(e) := true])
    ensures removed + {TriangleOf(e)} <= AllTriangles(t)
  {
    hide Boundary, Starts, Peelable;
    PeelableEdges(t, removed, e);
    Corners(t, e);
  }

  lemma PeelHeap(t: Mesh, metric: Metric, heap: Heap, heap': Heap, n: nat, p: nat)
    requires HeapOk(t, metric, heap) && IsEdge(t, n) && IsEdge(t, p)
    requires heap' <= heap + multiset{Scored(t, metric, n)} + multiset{Scored(t, metric, p)}
    ensures HeapOk(t, metric, heap')
    ensures forall s :: s in heap ==> s == Scored(t, metric, s.index)
  {
    forall s | s in heap' ensures s in heap || s == Scored(t, metric, n) || s == Scored(t, metric, p) {
      assert s in heap + multiset{Scored(t, metric, n)} + multiset{Scored(t, metric, p)};
    }
  }

  lemma PeelDegrees(t: Mesh, edges: set<nat>, edges': set<nat>, degrees: seq<int>, degrees': seq<int>, apex: nat)
    requires RingDegrees(t, edges, degrees) && |degrees'| == |degrees|
    requires forall v :: 0 <= v < |degrees| ==> degrees'[v] == degrees[v] + if v == apex then 2 else 0
    requires !Starts(t, edges, apex)
    requires forall v :: Starts(t, edges', v) <==> Starts(t, edges, v) || v == apex
    ensures RingDegrees(t, edges', degrees')
  {
    hide Starts;
  }

  lemma PeelWaiting(t: Mesh, metric: Metric, removed: set<nat>, ring: seq<nat>, heap: Heap, e: nat, heap': Heap)
    requires RingOf(t, ring, Boundary(t, removed)) && Waiting(t, metric, removed, heap)
    requires Peelable(t, removed, e)
    requires forall s :: s in heap && s.index != e ==> s in heap'
    requires IsEdge(t, Next(e)) && IsEdge(t, t.halfedges[Next(e)]) && Scored(t, metric, t.halfedges[Next(e)]) in heap'
    requires IsEdge(t, Prev(e)) && IsEdge(t, t.halfedges[Prev(e)]) && Scored(t, metric, t.halfedges[Prev(e)]) in heap'
    ensures Waiting(t, metric, removed + {TriangleOf(e)}, heap')
  {
    hide RingOf, IsRing, Starts, Ends, Peelable, Boundary;
    forall o: nat | Peelable(t, removed + {TriangleOf(e)}, o) ensures IsEdge(t, o) && Scored(t, metric, o) in heap' {
      PeelableIsBoundary(t, removed + {TriangleOf(e)}, o);
      RejectionLasts(t, removed, ring, e, o);
      assert o in Revealed(t, e) ==> o == t.halfedges[Next(e)] || o == t.halfedges[Prev(e)];
      assert o != e by { PeeledLeaves(t, removed, e); }
    }
  }

  lemma PeeledLeaves(t: Mesh, removed: set<nat>, e: nat)
    ensures !Peelable(t, removed + {TriangleOf(e)}, e)
  {
  }

  lemma PeelableIsBoundary(t: Mesh, removed: set<nat>, e: nat)
    requires Peelable(t, removed, e)
    ensures IsEdge(t, e) && e in Boundary(t, removed) && !Starts(t, Boundary(t, removed), Apex(t, e))
  {
  }

  /** Take the triangle of half-edge e away: e leaves the boundary, its two neighbours join it. */
  method RemoveTriangle(t: Mesh, metric: Metric, ghost removed: set<nat>, edges: set<nat>,
                        degrees: array<int>, removedTriangles: array<bool>, heap: Heap, e: nat)
    returns (edges': set<nat>, heap': Heap)
    requires Peelable(t, removed, e)
    requires IsEdge(t, e) && degrees.Length == |t.points| && removedTriangles.Length == NumTriangles(t)
    modifies degrees, removedTriangles
    ensures TriangleOf(e) < NumTriangles(t) && removedTriangles[..] == old(removedTriangles[..])[TriangleOf(e) := true]
    ensures forall v :: 0 <= v < |t.points| ==> degrees[v] == old(degrees[v]) + if v == Apex(t, e) then 2 else 0
    ensures IsEdge(t, Next(e)) && t.halfedges[Next(e)] != EMPTY && IsEdge(t, t.halfedges[Next(e)])
    ensures IsEdge(t, Prev(e)) && t.halfedges[Prev(e)] != EMPTY && IsEdge(t, t.halfedges[Prev(e)])
    ensures edges' == edges - {e} + {t.halfedges[Next(e)]} + {t.halfedges[Prev(e)]}
    ensures heap' == heap + multiset{Scored(t, metric, t.halfedges[Next(e)])}
                     + multiset{Scored(t, metric, t.halfedges[Prev(e)])}
    ensures forall o, a, b :: o in {t.halfedges[Next(e)], t.halfedges[Prev(e)]} && Joins(t, o, a, b) ==>
              ScoredEdge(o, metric(a, b)) in heap'
  {
    hide Boundary, Peelable;
    PeelCorners(t, removed, e);
    removedTriangles[TriangleOf(e)] := true;
    edges', heap' := edges - {e}, heap;
    var u, v := Start(t, e), End(t, e);
    degrees[u] := degrees[u] - 1;
    degrees[v] := degrees[v] - 1;
    var oppNext, oppPrev := t.halfedges[Next(e)], t.halfedges[Prev(e)];
    if oppNext != EMPTY {
      edges' := edges' + {oppNext};
      var start, end := Start(t, oppNext), End(t, oppNext);
      degrees[start] := degrees[start] + 1;
      degrees[end] := degrees[end] + 1;
      heap' := heap' + multiset{ScoredEdge(oppNext, metric(t.points[start], t.points[end]))};
    }
    if oppPrev != EMPTY {
      edges' := edges' + {oppPrev};
      var start, end := Start(t, oppPrev), End(t, oppPrev);
      degrees[start] := degrees[start] + 1;
      degrees[end] := degrees[end] + 1;
      heap' := heap' + multiset{ScoredEdge(oppPrev, metric(t.points[start], t.points[end]))};
    }
  }

  /** The lazily cleaned heap arrives at the same removals as rescanning the whole boundary for the
      greatest erodible edge each time; in particular the removed-triangle check never fires. */
  method Erode(t: Mesh, metric: Metric, threshold: real, ghost hull: seq<nat>)
    returns (edges: set<nat>, removedTriangles: array<bool>)
    requires RingOf(t, hull, Boundary(t, {}))
    ensures fresh(removedTriangles) && Flags(t, Eroded(t, metric, threshold, {}), removedTriangles[..])
    ensures edges == Boundary(t, Eroded(t, metric, threshold, {}))
  {
    hide Boundary, RingOf, IsRing, Starts, Ends, Peelable, Eroded, Inv, RingDegrees, HeapOk, Flags, Waiting,
         Start, End, AllTriangles, Degrees;
    var degrees, heap;
    edges, degrees, heap := InitBoundary(t, metric, hull);
    removedTriangles := new bool[NumTriangles(t)](_ => false);
    ghost var ring, removed: set<nat> := hull, {};
    InvInit(t, metric, ring, edges, degrees[..], removedTriangles[..], heap);

    while heap != multiset{}
      invariant degrees.Length == |t.points| && removedTriangles.Length == NumTriangles(t)
      invariant Inv(t, metric, removed, ring, edges, degrees[..], removedTriangles[..], heap)
      invariant Eroded(t, metric, threshold, removed) == Eroded(t, metric, threshold, {})
      decreases AllTriangles(t) - removed, |heap|
    {
      var edge, rest := PopMax(heap);
      ghost var oldEdges, oldDegrees, oldFlags, oldHeap := edges, degrees[..], removedTriangles[..], heap;
      PoppedEdge(t, metric, removed, ring, edges, oldDegrees, oldFlags, heap, edge);
      heap := rest;
      if edge.index !in edges {
        InvSkip(t, metric, removed, ring, edges, oldDegrees, oldFlags, oldHeap, edge);
        continue;
      }
      if edge.length <= threshold {
        AllShort(t, metric, threshold, removed, ring, edges, oldDegrees, oldFlags, oldHeap, edge.length);
        return;
      }
      var triangle: nat := TriangleOf(edge.index);
      if removedTriangles[triangle] {
        InvSkip(t, metric, removed, ring, edges, oldDegrees, oldFlags, oldHeap, edge);
        continue;
      }
      var next, prev := Next(edge.index), Prev(edge.index);
      if next in edges || prev in edges {
        InvSkip(t, metric, removed, ring, edges, oldDegrees, oldFlags, oldHeap, edge);
        continue;
      }
      var apex := Apex(t, edge.index);
      if degrees[apex] > 0 {
        InvSkip(t, metric, removed, ring, edges, oldDegrees, oldFlags, oldHeap, edge);
        continue;
      }
      TopIsChosen(t, metric, threshold, removed, ring, edges, oldDegrees, oldFlags, oldHeap, edge);
      PeelCorners(t, removed, edge.index);

      edges, heap := RemoveTriangle(t, metric, removed, edges, degrees, removedTriangles, heap, edge.index);
      ring := InvPeel(t, metric, removed, ring, oldEdges, oldDegrees, oldFlags, oldHeap, edge.index, degrees[..], heap);
      removed := removed + {triangle};
    }
    AllShort(t, metric, threshold, removed, ring, edges, degrees[..], removedTriangles[..], heap, threshold);
  }

  // ---- Tracing the outline ----

  /** Start-to-end map of the edges; none when two edges leave the same vertex. */
  method BuildAdjacency(t: Mesh, edges: set<nat>) returns (adj: Option<map<nat, nat>>)
    requires forall e :: e in edges ==> IsEdge(t, e)
    ensures adj.None? <==> exists e, f :: e in edges && f in edges && e != f && Start(t, e) == Start(t, f)
    ensures adj.Some? ==> forall v :: v in adj.value <==> Starts(t, edges, v)
    ensures adj.Some? ==> forall e :: e in edges ==> Start(t, e) in adj.value && adj.value[Start(t, e)] == End(t, e)
  {
    hide Starts, Start, End;
    var rest, m: map<nat, nat> := edges, map[];
    assert edges - rest == {};
    NoSuccessors(t);
    while rest != {}
      invariant rest <= edges
      invariant Successors(t, edges - rest, m)
    {
      var e :| e in rest;
      var start, end := Start(t, e), End(t, e);
      if start in m {
        ghost var f := StartedBy(t, edges - rest, start);
        return None;
      }
      AddSuccessor(t, edges - rest, m, e);
      assert edges - (rest - {e}) == edges - rest + {e};
      m, rest := m[start := end], rest - {e};
    }
    assert edges - rest == edges;
    return Some(m);
  }

  /** The map lists the given edges by start, no two of which start together. */
  ghost predicate Successors(t: Mesh, edges: set<nat>, m: map<nat, nat>) {
    && (forall v :: v in m <==> Starts(t, edges, v))
    && (forall e, f :: e in edges && f in edges && IsEdge(t, e) && IsEdge(t, f) && Start(t, e) == Start(t, f) ==>
         e == f)
    && forall e :: e in edges && IsEdge(t, e) ==> Start(t, e) in m && m[Start(t, e)] == End(t, e)
  }

  lemma NoSuccessors(t: Mesh)
    ensures Successors(t, {}, map[])
  {
  }

  lemma AddSuccessor(t: Mesh, edges: set<nat>, m: map<nat, nat>, e: nat)
    requires Successors(t, edges, m) && IsEdge(t, e) && Start(t, e) !in m
    ensures Successors(t, edges + {e}, m[Start(t, e) := End(t, e)])
  {
    hide Start, End, Starts;
    forall v ensures Starts(t, edges + {e}, v) <==> Starts(t, edges, v) || v == Start(t, e) {
      OneMoreEdge(t, edges, e, v);
    }
    forall f | f in edges && IsEdge(t, f) ensures Start(t, f) in m { StartsHere(t, edges, f); }
  }

  /** The map sends every vertex of the cycle to its successor, the last one to the first. */
  ghost predicate CycleMap(adj: map<nat, nat>, cycle: seq<nat>) {
    && Distinct(cycle)
    && (forall v :: v in adj <==> v in cycle)
    && forall i :: 0 <= i < |cycle| ==> adj[cycle[i]] == cycle[if i == |cycle| - 1 then 0 else i + 1]
  }

  ghost predicate InRange(points: seq<Point>, vertices: seq<nat>) {
    forall i :: 0 <= i < |vertices| ==> vertices[i] < |points|
  }

  function Coordinates(points: seq<Point>, vertices: seq<nat>): (line: seq<Point>)
    requires InRange(points, vertices)
    ensures |line| == |vertices|
    ensures forall i :: 0 <= i < |line| ==> line[i] == points[vertices[i]]
  {
    seq(|vertices|, i requires 0 <= i < |vertices| => points[vertices[i]])
  }

  /** The coordinates of a cycle of vertices, with the first one repeated at the end. */
  function Closed(points: seq<Point>, cycle: seq<nat>): seq<Point>
    requires InRange(points, cycle) && cycle != []
  {
    Coordinates(points, cycle) + [points[cycle[0]]]
  }

  ghost function Rotate<T>(s: seq<T>, k: nat): seq<T>
    requires k <= |s|
  {
    s[k..] + s[..k]
  }

  /** A closed outline of the cycle, wherever on it the outline begins. */
  ghost predicate Outlines(points: seq<Point>, line: seq<Point>, cycle: seq<nat>) {
    exists k :: 0 <= k < |cycle| && InRange(points, Rotate(cycle, k)) && line == Closed(points, Rotate(cycle, k))
  }

  lemma RotateAt<T>(s: seq<T>, k: nat, i: nat)
    requires k <= |s| && i < |s|
    ensures Rotate(s, k)[i] == s[if i < |s| - k then i + k else i + k - |s|]
  {
  }

  lemma RotateMembers<T>(s: seq<T>, k: nat)
    requires k <= |s|
    ensures |Rotate(s, k)| == |s| && forall x :: x in Rotate(s, k) <==> x in s
  {
    assert s == s[..k] + s[k..];
  }

  lemma RotateCycle(adj: map<nat, nat>, cycle: seq<nat>, k: nat)
    requires CycleMap(adj, cycle) && k < |cycle|
    ensures CycleMap(adj, Rotate(cycle, k))
  {
    hide Rotate;
    var turned, n := Rotate(cycle, k), |cycle|;
    RotateMembers(cycle, k);
    forall i | 0 <= i < n ensures adj[turned[i]] == turned[if i == n - 1 then 0 else i + 1] {
      RotateAt(cycle, k, i);
      RotateAt(cycle, k, if i == n - 1 then 0 else i + 1);
    }
    forall i, j | 0 <= i < j < n ensures turned[i] != turned[j] {
      RotateAt(cycle, k, i);
      RotateAt(cycle, k, j);
    }
  }

  lemma CycleStep(adj: map<nat, nat>, cycle: seq<nat>, j: nat)
    requires CycleMap(adj, cycle) && j < |cycle|
    ensures cycle[j] in adj
    ensures adj[cycle[j]] == cycle[0] <==> j == |cycle| - 1
    ensures j < |cycle| - 1 ==> adj[cycle[j]] == cycle[j + 1]
  {
    assert j < |cycle| - 1 ==> cycle[j + 1] != cycle[0];
  }

  /** Where on the cycle the trace starts. */
  lemma CycleFrom(points: seq<Point>, adj: map<nat, nat>, cycle: seq<nat>, v: nat) returns (k: nat, turned: seq<nat>)
    requires CycleMap(adj, cycle) && v in adj
    requires forall v :: v in adj ==> v < |points|
    ensures k < |cycle| && turned == Rotate(cycle, k) && turned != [] && turned[0] == v
    ensures CycleMap(adj, turned) && InRange(points, turned) && |turned| <= |points|
  {
    k :| 0 <= k < |cycle| && cycle[k] == v;
    turned := Rotate(cycle, k);
    RotateCycle(adj, cycle, k);
    assert forall i :: 0 <= i < |turned| ==> turned[i] in adj;
    BelowSize(turned, |points|);
  }

  /** The trace has passed the vertices of the cycle up to the current one. */
  ghost predicate Traced(points: seq<Point>, cycle: seq<nat>, currentNode: nat, poly: seq<Point>)
    requires InRange(points, cycle)
  {
    && |poly| < |cycle| && currentNode == cycle[|poly|]
    && forall i :: 0 <= i < |poly| ==> poly[i] == points[cycle[i]]
  }

  lemma TraceStep(points: seq<Point>, adj: map<nat, nat>, cycle: seq<nat>, currentNode: nat, poly: seq<Point>)
    requires CycleMap(adj, cycle) && InRange(points, cycle) && Traced(points, cycle, currentNode, poly)
    ensures currentNode < |points| && currentNode in adj && cycle != []
    ensures adj[currentNode] == cycle[0] ==> poly + [points[currentNode]] == Coordinates(points, cycle)
    ensures adj[currentNode] != cycle[0] ==>
              Traced(points, cycle, adj[currentNode], poly + [points[currentNode]]) && |poly| + 1 < |cycle|
  {
    CycleStep(adj, cycle, |poly|);
    hide CycleMap;
  }

  /** Follow the map from an arbitrary start. On a cycle neither the missing-successor exit nor the
      infinite-loop guard is taken: the whole cycle comes back once, closed. */
  method TraceLoop(points: seq<Point>, adj: map<nat, nat>, ghost cycle: seq<nat>) returns (line: Option<seq<Point>>)
    requires adj != map[]
    requires forall v :: v in adj ==> v < |points| && adj[v] < |points|
    ensures CycleMap(adj, cycle) ==> line.Some? && Outlines(points, line.value, cycle)
  {
    hide CycleMap, Rotate, Traced, InRange;
    var startNode: nat :| startNode in adj;
    var currentNode: nat := startNode;
    var poly: seq<Point> := [];
    ghost var k: nat, turned: seq<nat> := 0, [];
    if CycleMap(adj, cycle) {
      k, turned := CycleFrom(points, adj, cycle, startNode);
      assert Traced(points, turned, currentNode, poly) by { TraceStart(points, turned); }
    }
    while true
      invariant currentNode < |points|
      invariant |poly| <= |points|
      invariant CycleMap(adj, cycle) ==> Traced(points, turned, currentNode, poly)
      invariant CycleMap(adj, cycle) ==> |poly| < |turned|
      decreases |points| - |poly|
    {
      if CycleMap(adj, cycle) { TraceStep(points, adj, turned, currentNode, poly); }
      poly := poly + [points[currentNode]];
      if currentNode in adj {
        var nextNode := adj[currentNode];
        if nextNode == startNode {
          break;
        }
        currentNode := nextNode;
        if |poly| > |points| {
          return None;
        }
      } else {
        return None;
      }
    }
    if CycleMap(adj, cycle) {
      assert poly == Coordinates(points, turned);
      assert poly + [poly[0]] == Closed(points, turned);
    }
    return Some(poly + [poly[0]]);
  }

  lemma TraceStart(points: seq<Point>, cycle: seq<nat>)
    requires InRange(points, cycle) && cycle != []
    ensures Traced(points, cycle, cycle[0], [])
  {
  }

  ghost function Vertices(t: Mesh, ring: seq<nat>): (vs: seq<nat>)
    requires forall i :: 0 <= i < |ring| ==> IsEdge(t, ring[i])
    ensures |vs| == |ring| && forall i :: 0 <= i < |vs| ==> vs[i] == Start(t, ring[i])
  {
    seq(|ring|, i requires 0 <= i < |ring| => Start(t, ring[i]))
  }

  lemma RingIsCycle(t: Mesh, ring: seq<nat>, edges: set<nat>, adj: map<nat, nat>)
    requires RingOf(t, ring, edges) && ring != []
    requires forall v :: v in adj <==> Starts(t, edges, v)
    requires forall e :: e in edges && IsEdge(t, e) ==> Start(t, e) in adj && adj[Start(t, e)] == End(t, e)
    ensures CycleMap(adj, Vertices(t, ring))
  {
    hide IsRing, RingOf, Starts, Start, End;
    var vs := RingVertexList(t, ring, edges);
    forall v ensures v in adj <==> v in vs {
      if v in vs {
        var i :| 0 <= i < |vs| && vs[i] == v;
        RingMember(t, ring, edges, i);
        StartsHere(t, edges, ring[i]);
      }
      if v in adj {
        var e := StartedBy(t, edges, v);
        var i := RingIndex(t, ring, edges, e);
        assert vs[i] == v;
      }
    }
    forall i: nat | i < |vs| ensures vs[i] in adj && adj[vs[i]] == vs[if i == |vs| - 1 then 0 else i + 1] {
      RingMember(t, ring, edges, i);
      RingIsRing(t, ring, edges);
      var next, _ := RingNeighbours(t, ring, i);
    }
    forall i: nat, j: nat | i < j < |vs| ensures vs[i] != vs[j] {
      RingIsRing(t, ring, edges);
      RingStarts(t, ring, i, j);
    }
  }

  lemma RingIsRing(t: Mesh, ring: seq<nat>, edges: set<nat>)
    requires RingOf(t, ring, edges) && ring != []
    ensures IsRing(t, ring)
  {
    hide IsRing;
  }

  lemma RingVertexList(t: Mesh, ring: seq<nat>, edges: set<nat>) returns (vs: seq<nat>)
    requires RingOf(t, ring, edges) && ring != []
    ensures forall i :: 0 <= i < |ring| ==> IsEdge(t, ring[i])
    ensures vs == Vertices(t, ring)
  {
    vs := Vertices(t, ring);
  }

  lemma StartedBy(t: Mesh, edges: set<nat>, v: nat) returns (e: nat)
    requires Starts(t, edges, v)
    ensures e in edges && IsEdge(t, e) && Start(t, e) == v
  {
    e :| e in edges && IsEdge(t, e) && Start(t, e) == v;
  }

  /** The outline of the concave hull: the erosion's boundary ring, every vertex once, closed.
      There is none exactly when the triangulation has no outer edge. */
  method ConcaveHull(t: Mesh, metric: Metric, threshold: real) returns (outline: Option<seq<Point>>)
    requires WellFormed(t)
    ensures outline.None? <==> Boundary(t, {}) == {}
    ensures outline.Some? ==> exists ring ::
              && RingOf(t, ring, Boundary(t, Eroded(t, metric, threshold, {})))
              && Outlines(t.points, outline.value, Vertices(t, ring))
  {
    hide Boundary, RingOf, IsRing, Starts, Ends, Eroded, CycleMap, Outlines;
    ghost var hull := HullRing(t);
    var edges, removedTriangles := Erode(t, metric, threshold, hull);
    ghost var ring := ErodedKeepsRing(t, metric, threshold, {}, hull);
    HullSizes(t, metric, threshold, hull, ring, edges);
    if edges == {} {
      return None;
    }
    assert forall e :: e in edges ==> IsEdge(t, e) by { RingVertices(t, ring, edges); }
    var adj := BuildAdjacency(t, edges);
    if adj.Some? {
      MapInRange(t, edges, adj.value);
      outline := TraceLoop(t.points, adj.value, Vertices(t, ring));
    } else {
      outline := None;
    }
    assert adj.Some? by { RingVertices(t, ring, edges); }
    RingIsCycle(t, ring, edges, adj.value);
  }

  lemma HullRing(t: Mesh) returns (hull: seq<nat>)
    requires WellFormed(t)
    ensures RingOf(t, hull, Boundary(t, {}))
  {
    hull :| RingOf(t, hull, Boundary(t, {}));
  }

  lemma HullSizes(t: Mesh, metric: Metric, threshold: real, hull: seq<nat>, ring: seq<nat>, edges: set<nat>)
    requires RingOf(t, hull, Boundary(t, {})) && RingOf(t, ring, edges)
    requires |ring| == |hull| + |Eroded(t, metric, threshold, {})|
    ensures edges == {} <==> Boundary(t, {}) == {}
    ensures edges != {} ==> ring != []
    ensures forall i :: 0 <= i < |ring| ==> IsEdge(t, ring[i])
  {
    RingSize(t, hull, Boundary(t, {}));
    RingSize(t, ring, edges);
    if Boundary(t, {}) == {} {
      assert forall e :: !Peelable(t, {}, e);
      assert forall e :: !Chosen(t, metric, threshold, {}, e);
    }
  }

  lemma MapInRange(t: Mesh, edges: set<nat>, adj: map<nat, nat>)
    requires forall e :: e in edges ==> IsEdge(t, e)
    requires forall v :: v in adj <==> Starts(t, edges, v)
    requires forall e :: e in edges ==> Start(t, e) in adj && adj[Start(t, e)] == End(t, e)
    ensures forall v :: v in adj ==> v < |t.points| && adj[v] < |t.points|
  {
    forall v | v in adj ensures v < |t.points| && adj[v] < |t.points| {
      var e :| e in edges && IsEdge(t, e) && Start(t, e) == v;
      Corners(t, e);
    }
  }
}
