/** In which order the erosion takes triangles away, and what it leaves, in terms of the distances
    between the end points of half-edges (backend/src/hull.rs:82-93, 106-198). */
module ErosionOrder {
  import opened Triangulations
  import opened Erosion

  /** What is removed after the first k half-edges of the order. */
  ghost function RemovedBy(removed: set<nat>, order: seq<nat>, k: nat): set<nat>
    requires k <= |order|
  {
    removed + set i | 0 <= i < k :: order[i] / 3
  }

  lemma RemovedByRest(removed: set<nat>, e: nat, rest: seq<nat>, k: nat)
    requires k <= |rest|
    ensures RemovedBy(removed, [e] + rest, k + 1) == RemovedBy(removed + {e / 3}, rest, k)
    ensures RemovedBy(removed, [e] + rest, 0) == removed
  {
    var order := [e] + rest;
    forall x ensures x in RemovedBy(removed, order, k + 1) <==> x in RemovedBy(removed + {e / 3}, rest, k) {
      if i :| 0 <= i < k && x == rest[i] / 3 { assert order[i + 1] == rest[i]; }
      if x == e / 3 { assert order[0] == e; }
    }
  }

  /** How the three corners of a triangle follow each other. */
  lemma CornersCycle(i: nat)
    ensures Next(3 * i) == 3 * i + 1 && Next(3 * i + 1) == 3 * i + 2 && Next(3 * i + 2) == 3 * i
    ensures Prev(3 * i) == 3 * i + 2 && Prev(3 * i + 1) == 3 * i && Prev(3 * i + 2) == 3 * i + 1
    ensures TriangleOf(3 * i) == TriangleOf(3 * i + 1) == TriangleOf(3 * i + 2) == i
  {
  }

  lemma PeelableInside(t: Mesh, removed: set<nat>, e: nat)
    requires Peelable(t, removed, e)
    ensures IsEdge(t, e) && IsEdge(t, Next(e)) && t.triangles[e] < |t.points| && t.triangles[Next(e)] < |t.points|
    ensures e / 3 !in removed
  {
    hide Starts;
    Corners(t, e);
  }

  lemma EdgeInside(t: Mesh, e: nat)
    requires IsEdge(t, e)
    ensures IsEdge(t, Next(e)) && IsEdge(t, Prev(e)) && t.triangles[e] < |t.points| && t.triangles[Next(e)] < |t.points|
  {
    Corners(t, e);
  }

  /** e passes the checks, its end points are further apart than the threshold, no other edge that passes
      them has end points further apart, and of equally long ones e has the greatest index. */
  ghost predicate TakesLongest(t: Mesh, metric: Metric, threshold: real, removed: set<nat>, e: nat) {
    && Peelable(t, removed, e) && e / 3 !in removed
    && (forall a, b :: Joins(t, e, a, b) ==> metric(a, b) > threshold)
    && forall a, b, o: nat, c, d :: Joins(t, e, a, b) && Peelable(t, removed, o) && Joins(t, o, c, d) ==>
         metric(c, d) < metric(a, b) || (metric(c, d) == metric(a, b) && o <= e)
  }

  lemma ChosenIsLongest(t: Mesh, metric: Metric, threshold: real, removed: set<nat>, e: nat)
    requires Chosen(t, metric, threshold, removed, e)
    ensures TakesLongest(t, metric, threshold, removed, e)
  {
    hide Starts, Boundary, Peelable;
    PeelableInside(t, removed, e);
    forall a, b, o: nat, c, d | Joins(t, e, a, b) && Peelable(t, removed, o) && Joins(t, o, c, d)
      ensures metric(c, d) < metric(a, b) || (metric(c, d) == metric(a, b) && o <= e)
    {
      if metric(c, d) > threshold { assert Erodible(t, metric, threshold, removed, o); }
    }
  }

  /** The next removal, if there is one. */
  lemma NextRemoval(t: Mesh, metric: Metric, threshold: real, removed: set<nat>) returns (more: bool, e: nat)
    ensures !more ==> Eroded(t, metric, threshold, removed) == removed
    ensures more ==>
              && TakesLongest(t, metric, threshold, removed, e) && e / 3 in AllTriangles(t) - removed
              && Eroded(t, metric, threshold, removed) == Eroded(t, metric, threshold, removed + {e / 3})
  {
    hide TakesLongest;
    e := 0;
    more := exists o: nat :: Chosen(t, metric, threshold, removed, o);
    if more {
      e :| Chosen(t, metric, threshold, removed, e);
      hide Chosen, Eroded;
      ChosenIsUnique(t, metric, threshold, removed, e);
      ChosenIsLongest(t, metric, threshold, removed, e);
    }
  }

  lemma {:induction false} OrderExists(t: Mesh, metric: Metric, threshold: real, removed: set<nat>)
    returns (order: seq<nat>)
    ensures Eroded(t, metric, threshold, removed) == RemovedBy(removed, order, |order|)
    ensures forall k :: 0 <= k < |order| ==>
              TakesLongest(t, metric, threshold, RemovedBy(removed, order, k), order[k])
    decreases AllTriangles(t) - removed
  {
    hide RemovedBy, TakesLongest, Eroded, AllTriangles;
    var more, e := NextRemoval(t, metric, threshold, removed);
    if more {
      var rest := OrderExists(t, metric, threshold, removed + {e / 3});
      order := [e] + rest;
      RemovedByRest(removed, e, rest, |rest|);
      forall k | 0 <= k < |order| ensures TakesLongest(t, metric, threshold, RemovedBy(removed, order, k), order[k]) {
        if k > 0 { RemovedByRest(removed, e, rest, k - 1); }
      }
    } else {
      order := [];
      NothingRemoved(removed);
    }
  }

  lemma NothingRemoved(removed: set<nat>)
    ensures RemovedBy(removed, [], 0) == removed
  {
  }

  /** The erosion takes triangles away one after another, each through the half-edge listed: its end
      points are further apart than the threshold, no other edge that passes the checks has end points
      further apart, and of equally long ones it has the greatest index. */
  lemma RemovalOrder(t: Mesh, metric: Metric, threshold: real) returns (order: seq<nat>)
    ensures Eroded(t, metric, threshold, {}) == RemovedBy({}, order, |order|)
    ensures forall k :: 0 <= k < |order| ==>
              Peelable(t, RemovedBy({}, order, k), order[k]) && order[k] / 3 !in RemovedBy({}, order, k)
    ensures forall k, a, b :: 0 <= k < |order| && Joins(t, order[k], a, b) ==> metric(a, b) > threshold
    ensures forall k, a, b, o: nat, c, d ::
              0 <= k < |order| && Joins(t, order[k], a, b) && Peelable(t, RemovedBy({}, order, k), o)
              && Joins(t, o, c, d) ==>
                metric(c, d) < metric(a, b) || (metric(c, d) == metric(a, b) && o <= order[k])
  {
    hide Eroded, RemovedBy, Peelable, Joins;
    order := OrderExists(t, metric, threshold, {});
    forall k | 0 <= k < |order| ensures TakesLongest(t, metric, threshold, RemovedBy({}, order, k), order[k]) {
    }
  }

  /** Wherever two consecutive vertices of the final ring are further apart than the threshold, the
      third corner of the kept triangle between them lies on the ring. */
  lemma RingIsTight(t: Mesh, metric: Metric, threshold: real, ring: seq<nat>, i: nat)
    requires RingOf(t, ring, Boundary(t, Eroded(t, metric, threshold, {}))) && i < |ring|
    ensures IsEdge(t, ring[i]) && ring[i] / 3 !in Eroded(t, metric, threshold, {})
    ensures IsEdge(t, Next(ring[i])) && IsEdge(t, Prev(ring[i]))
    ensures t.triangles[ring[i]] < |t.points| && t.triangles[Next(ring[i])] < |t.points|
    ensures metric(t.points[t.triangles[ring[i]]], t.points[t.triangles[Next(ring[i])]]) > threshold ==>
              exists j :: 0 <= j < |ring| && IsEdge(t, ring[j]) && t.triangles[ring[j]] == t.triangles[Prev(ring[i])]
  {
    hide Eroded, RingOf, IsRing;
    var e, removed := ring[i], Eroded(t, metric, threshold, {});
    RingMember(t, ring, Boundary(t, removed), i);
    assert IsEdge(t, e) && e / 3 !in removed;
    EdgeInside(t, e);
    hide Boundary;
    if metric(t.points[t.triangles[e]], t.points[t.triangles[Next(e)]]) > threshold {
      ErodedIsMaximal(t, metric, threshold, {}, e);
      ApexDecides(t, removed, ring, e);
      var f :| f in Boundary(t, removed) && IsEdge(t, f) && Start(t, f) == Apex(t, e);
      var j := RingIndex(t, ring, Boundary(t, removed), f);
      assert t.triangles[ring[j]] == t.triangles[Prev(ring[i])];
    }
  }
}
