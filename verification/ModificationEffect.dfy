/** What one trip modification does to the lists, stop by stop and field by field
    (backend/src/trip_logic.rs:1541-1796). */
module ModificationEffect {
  import opened Wrappers
  import opened TripModifications

  /** Several modifications take effect one after another, each on what the ones before left. */
  lemma {:induction false} ApplyInOrder(lists: Lists, ms: seq<Modification>, m: Modification, catalogue: Catalogue)
    ensures ApplyAll(lists, ms + [m], catalogue) ==
              match ApplyAll(lists, ms, catalogue)
              case Success(next) => Apply(next, m, catalogue)
              case Failure(e) => Failure(e)
    decreases |ms|
  {
    hide Apply;
    if ms == [] {
      assert (ms + [m])[1..] == [];
    } else {
      assert (ms + [m])[1..] == ms[1..] + [m];
      var first := Apply(lists, ms[0], catalogue);
      if first.Success? { ApplyInOrder(first.value, ms[1..], m, catalogue); }
    }
  }

  /** A selector with id and sequence needs both, one with either needs that, an empty one matches
      nothing; sequences are compared modulo 2^16. */
  lemma MatchesByFields(stop: StopTime, id: string, n: nat)
    ensures Matches(Selector(Some(id), None), stop) <==> stop.stopId == id
    ensures Matches(Selector(None, Some(n)), stop) <==> stop.sequence.Some? && stop.sequence.value == n % 65536
    ensures Matches(Selector(Some(id), Some(n)), stop) <==>
              stop.stopId == id && stop.sequence.Some? && stop.sequence.value == n % 65536
    ensures !Matches(Selector(None, None), stop)
  {
  }

  /** Position p holds the first stop the selector matches. */
  ghost predicate FirstMatch(stops: seq<StopTime>, sel: Selector, p: nat) {
    p < |stops| && Matches(sel, stops[p]) && forall i :: 0 <= i < p ==> !Matches(sel, stops[i])
  }

  ghost predicate NoMatch(stops: seq<StopTime>, sel: Option<Selector>) {
    sel.Some? ==> forall i :: 0 <= i < |stops| ==> !Matches(sel.value, stops[i])
  }

  lemma FirstIsPosition(stops: seq<StopTime>, sel: Selector, p: nat)
    requires FirstMatch(stops, sel, p)
    ensures Position(stops, sel) == Some(p)
  {
  }

  /** The stop before the start, or the first stop if there is none before it. */
  ghost function Reference(stops: seq<StopTime>, p: nat): StopTime
    requires p < |stops|
  {
    stops[if p == 0 then 0 else p - 1]
  }

  ghost predicate TimeMoves(before: Option<u64>, after: Option<u64>, d: int) {
    && (before.Some? <==> after.Some?)
    && (before.Some? ==> after.value == (before.value + d) % 0x1_0000_0000_0000_0000)
  }

  /** The same stop with every time moved by d. */
  ghost predicate StopMoves(before: StopTime, after: StopTime, d: int) {
    && after.stopId == before.stopId && after.sequence == before.sequence
    && after.replaced == before.replaced && after.details == before.details
    && TimeMoves(before.arrival, after.arrival, d) && TimeMoves(before.departure, after.departure, d)
    && TimeMoves(before.interpolated, after.interpolated, d)
  }

  /** A stop introduced for a replacement: the record's id and details, and an arrival the travel time
      after the arrival of the reference stop, or its departure if it has no arrival. */
  ghost predicate Replaces(stop: StopTime, r: Replacement, catalogue: Catalogue, reference: StopTime) {
    && r.stopId.Some? && r.stopId.value in catalogue
    && stop.stopId == catalogue[r.stopId.value].id && stop.details == catalogue[r.stopId.value].details
    && stop.replaced && stop.sequence == None && stop.departure == None && stop.interpolated == None
    && (reference.arrival.Some? || reference.departure.Some?)
    && var time := if reference.arrival.Some? then reference.arrival.value else reference.departure.value;
       stop.arrival == Some((time + if r.travelTime.Some? then r.travelTime.value else 0) % 0x1_0000_0000_0000_0000)
  }

  ghost predicate AllMove(before: seq<StopTime>, after: seq<StopTime>, d: int) {
    |before| == |after| && forall j :: 0 <= j < |before| ==> StopMoves(before[j], after[j], d)
  }

  lemma ShiftedMoves(stop: StopTime, d: int)
    ensures StopMoves(stop, Shifted(stop, d), d)
  {
    if stop.arrival.Some? { PlusIsWrap(stop.arrival.value, d); }
    if stop.departure.Some? { PlusIsWrap(stop.departure.value, d); }
    if stop.interpolated.Some? { PlusIsWrap(stop.interpolated.value, d); }
  }

  lemma IntroduceReplaces(r: Replacement, catalogue: Catalogue, reference: StopTime, time: u64)
    requires Known(r, catalogue)
    requires reference.arrival.Some? ==> time == reference.arrival.value
    requires reference.arrival.None? ==> reference.departure == Some(time)
    ensures Replaces(Introduce(catalogue[r.stopId.value], r, time), r, catalogue, reference)
  {
    hide Plus;
    PlusIsWrap(time, OrZero(r.travelTime));
  }

  /** The introduced stops, one for each replacement with a known stop, in their order. */
  ghost predicate ReplacesAll(introduced: seq<StopTime>, replacements: seq<Replacement>, catalogue: Catalogue,
                              reference: StopTime, from: seq<nat>)
  {
    && |introduced| == |from| && (forall k, l :: 0 <= k < l < |from| ==> from[k] < from[l])
    && (forall k :: 0 <= k < |from| ==>
          from[k] < |replacements| && Replaces(introduced[k], replacements[from[k]], catalogue, reference))
    && forall i :: 0 <= i < |replacements| ==>
         replacements[i].stopId.Some? && replacements[i].stopId.value in catalogue ==> i in from
  }

  lemma {:induction false} IntroducedReplace(replacements: seq<Replacement>, catalogue: Catalogue, reference: StopTime,
                                             time: u64) returns (from: seq<nat>)
    requires reference.arrival.Some? ==> time == reference.arrival.value
    requires reference.arrival.None? ==> reference.departure == Some(time)
    ensures ReplacesAll(Introduced(replacements, catalogue, time), replacements, catalogue, reference, from)
  {
    hide Replaces, Introduce;
    if replacements == [] {
      from := [];
    } else {
      var n := |replacements| - 1;
      var front, r := replacements[..n], replacements[n];
      from := IntroducedReplace(front, catalogue, reference, time);
      assert forall i :: 0 <= i < n ==> front[i] == replacements[i];
      if Known(r, catalogue) {
        IntroduceReplaces(r, catalogue, reference, time);
        from := from + [n];
      }
    }
  }

  lemma {:induction false} UnservedAppend(a: seq<StopTime>, b: seq<StopTime>, introduced: seq<StopTime>)
    ensures Unserved(a + b, introduced) == Unserved(a, introduced) + Unserved(b, introduced)
  {
    hide Serves;
    if a == [] {
      assert a + b == b;
    } else {
      assert (a + b)[0] == a[0] && (a + b)[1..] == a[1..] + b;
      UnservedAppend(a[1..], b, introduced);
    }
  }

  /** The cancelled stops: in their order those of the group whose id no introduced stop has. */
  ghost predicate CancelsFrom(cancelled: seq<StopTime>, group: seq<StopTime>, introduced: seq<StopTime>, at: seq<nat>) {
    && |cancelled| == |at| && (forall k, l :: 0 <= k < l < |at| ==> at[k] < at[l])
    && (forall k :: 0 <= k < |at| ==> at[k] < |group| && cancelled[k] == group[at[k]])
    && forall i :: 0 <= i < |group| ==>
         (i in at <==> forall j :: 0 <= j < |introduced| ==> introduced[j].stopId != group[i].stopId)
  }

  lemma {:induction false} UnservedCancels(group: seq<StopTime>, introduced: seq<StopTime>) returns (at: seq<nat>)
    ensures CancelsFrom(Unserved(group, introduced), group, introduced, at)
  {
    if group == [] {
      at := [];
    } else {
      var n := |group| - 1;
      var front, last := group[..n], group[n];
      var before := UnservedCancels(front, introduced);
      assert group == front + [last];
      UnservedAppend(front, [last], introduced);
      assert [last][1..] == [];
      at := if Serves(introduced, last.stopId) then before else before + [n];
      CancelsMore(Unserved(front, introduced), front, introduced, before, last);
    }
  }

  lemma CancelsMore(cancelled: seq<StopTime>, front: seq<StopTime>, introduced: seq<StopTime>, at: seq<nat>,
                     last: StopTime)
    requires CancelsFrom(cancelled, front, introduced, at)
    ensures Serves(introduced, last.stopId) ==> CancelsFrom(cancelled, front + [last], introduced, at)
    ensures !Serves(introduced, last.stopId) ==>
              CancelsFrom(cancelled + [last], front + [last], introduced, at + [|front|])
  {
    var group := front + [last];
    assert forall i :: 0 <= i < |front| ==> group[i] == front[i];
    assert forall i :: i in at ==> i < |front|;
  }

  // ---- The effect ----

  lemma PlanIs(stops: seq<StopTime>, m: Modification, p: nat, e: Option<nat>)
    requires m.start.Some? && FirstMatch(stops, m.start.value, p)
    requires if e.Some? then m.end.Some? && FirstMatch(stops, m.end.value, e.value) else NoMatch(stops, m.end)
    ensures var reference, plan := Reference(stops, p), PlanOf(stops, m);
            if (e.Some? && p > e.value + 1) || (reference.arrival.None? && reference.departure.None?) then plan == Panic
            else
              plan == Splice(p, e, if reference.arrival.Some? then reference.arrival.value
                                   else reference.departure.value)
  {
    hide Matches;
    FirstIsPosition(stops, m.start.value, p);
    if e.Some? { FirstIsPosition(stops, m.end.value, e.value); }
  }

  lemma Parts<T>(a: seq<T>, b: seq<T>, c: seq<T>)
    ensures (a + b + c)[..|a|] == a && (a + b + c)[|a|..|a| + |b|] == b && (a + b + c)[|a| + |b|..] == c
  {
  }

  lemma SpliceIs(lists: Lists, m: Modification, catalogue: Catalogue, p: nat, e: Option<nat>, time: u64)
    requires PlanOf(lists.stops, m) == Splice(p, e, time)
    ensures var introduced, resume := Introduced(m.replacements, catalogue, time), (if e.Some? then e.value else p) + 1;
            && p <= resume <= |lists.stops|
            && Apply(lists, m, catalogue) ==
                 Success(Lists(lists.stops[..p] + introduced + ShiftedAll(lists.stops[resume..], OrZero(m.delay)),
                               lists.cancelled
                               + Unserved(if e.Some? then lists.stops[p..resume] else [], introduced)))
  {
    hide Introduced, Unserved, PlanOf, ShiftedAll;
  }

  /** Where p is the first stop matched by the start selector and e the first one matched by the end
      selector, if any: the modification fails exactly if p lies beyond e + 1 or the reference stop has
      no time. Otherwise the stops before p stay as they are, exactly p .. e (or p alone) leave the list,
      the introduced stops take their place, every later stop moves by the delay, and of the stops
      between two ends exactly those that no introduced stop serves are cancelled. */
  lemma ApplyEffect(lists: Lists, m: Modification, catalogue: Catalogue, p: nat, e: Option<nat>)
    returns (introduced: seq<StopTime>, from: seq<nat>, at: seq<nat>)
    requires m.start.Some? && FirstMatch(lists.stops, m.start.value, p)
    requires if e.Some? then m.end.Some? && FirstMatch(lists.stops, m.end.value, e.value)
             else NoMatch(lists.stops, m.end)
    ensures Apply(lists, m, catalogue).Failure? <==>
              || (e.Some? && p > e.value + 1)
              || (Reference(lists.stops, p).arrival.None? && Reference(lists.stops, p).departure.None?)
    ensures Apply(lists, m, catalogue).Success? ==>
              var result, resume := Apply(lists, m, catalogue).value, (if e.Some? then e.value else p) + 1;
              && p <= resume <= |lists.stops| && p + |introduced| <= |result.stops|
              && ReplacesAll(introduced, m.replacements, catalogue, Reference(lists.stops, p), from)
              && result.stops[..p] == lists.stops[..p]
              && result.stops[p..p + |introduced|] == introduced
              && AllMove(lists.stops[resume..], result.stops[p + |introduced|..],
                         if m.delay.Some? then m.delay.value else 0)
              && |lists.cancelled| <= |result.cancelled| && lists.cancelled == result.cancelled[..|lists.cancelled|]
              && CancelsFrom(result.cancelled[|lists.cancelled|..],
                             if e.Some? then lists.stops[p..resume] else [], introduced, at)
  {
    hide Introduced, Unserved, ShiftedAll, ReplacesAll, CancelsFrom, AllMove, PlanOf, FirstMatch, NoMatch, Reference;
    PlanIs(lists.stops, m, p, e);
    var plan := PlanOf(lists.stops, m);
    introduced, from, at := [], [], [];
    if plan.Panic? {
      PanicFailsHere(lists, m, catalogue);
    } else {
      var resume := (if e.Some? then e.value else p) + 1;
      SpliceIs(lists, m, catalogue, p, e, plan.reference);
      hide Apply;
      introduced := Introduced(m.replacements, catalogue, plan.reference);
      from := IntroducedReplace(m.replacements, catalogue, Reference(lists.stops, p), plan.reference);
      var group := if e.Some? then lists.stops[p..resume] else [];
      at := UnservedCancels(group, introduced);
      var tail := ShiftedAll(lists.stops[resume..], OrZero(m.delay));
      TailMoves(lists.stops[resume..], OrZero(m.delay));
      Parts(lists.stops[..p], introduced, tail);
      Parts(lists.cancelled, Unserved(group, introduced), []);
      assert lists.cancelled + Unserved(group, introduced) + [] == lists.cancelled + Unserved(group, introduced);
    }
  }

  lemma PanicFailsHere(lists: Lists, m: Modification, catalogue: Catalogue)
    requires PlanOf(lists.stops, m).Panic?
    ensures Apply(lists, m, catalogue).Failure?
  {
  }

  lemma TailMoves(stops: seq<StopTime>, d: int)
    ensures AllMove(stops, ShiftedAll(stops, d), d)
  {
    hide Shifted, StopMoves;
    forall j | 0 <= j < |stops| ensures StopMoves(stops[j], ShiftedAll(stops, d)[j], d) { ShiftedMoves(stops[j], d); }
  }

  /** Without a start selector, or if it matches no stop, nothing changes. */
  lemma ApplySkips(lists: Lists, m: Modification, catalogue: Catalogue)
    requires NoMatch(lists.stops, m.start)
    ensures Apply(lists, m, catalogue) == Success(lists)
  {
  }

  const A := StopTime("A", None, Some(100), None, None, false, "")
  const B := StopTime("B", None, Some(200), None, None, false, "")
  const C := StopTime("C", None, Some(300), None, None, false, "")
  const X := StopTime("X", None, Some(130), None, None, true, "")
  const ONLY_B := Selector(Some("B"), None)
  const DETOUR := Modification(Some(ONLY_B), Some(ONLY_B), Some(-5), [Replacement(Some("X"), Some(30))])

  lemma DetourStop(catalogue: Catalogue)
    requires "X" in catalogue && catalogue["X"] == StopRecord("X", "")
    ensures Introduced(DETOUR.replacements, catalogue, 100) == [X]
  {
    assert DETOUR.replacements[..0] == [];
  }

  lemma DetourRest()
    ensures ShiftedAll([C], -5) == [C.(arrival := Some(295))] && Unserved([B], [X]) == [B]
  {
    assert "B"[0] != "X"[0];
    assert Unserved([B][1..], [X]) == [];
  }

  lemma DetourPlan()
    ensures PlanOf([A, B, C], DETOUR) == Splice(1, Some(1), 100)
  {
    assert "A"[0] != "B"[0];
    assert FirstMatch([A, B, C], ONLY_B, 1);
    PlanIs([A, B, C], DETOUR, 1, Some(1));
  }

  /** Stops A, B and C at 100, 200 and 300, with B replaced by X 30 seconds from A and a delay of -5. */
  lemma DetourTimes(catalogue: Catalogue)
    requires "X" in catalogue && catalogue["X"] == StopRecord("X", "")
    ensures Apply(Lists([A, B, C], []), DETOUR, catalogue) == Success(Lists([A, X, C.(arrival := Some(295))], [B]))
  {
    hide Apply, PlanOf, Introduced, ShiftedAll, Unserved;
    DetourPlan();
    DetourStop(catalogue);
    DetourRest();
    SpliceIs(Lists([A, B, C], []), DETOUR, catalogue, 1, Some(1), 100);
    var stops := [A, B, C];
    assert stops[..1] == [A] && stops[2..] == [C] && stops[1..2] == [B];
    assert [A] + [X] + [C.(arrival := Some(295))] == [A, X, C.(arrival := Some(295))] && [] + [B] == [B];
  }
}
