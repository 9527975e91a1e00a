/** Splicing realtime trip modifications into a scheduled stop list
    (backend/src/trip_logic.rs:1541-1796). */
module TripModifications {
  import opened Wrappers

  type u64 = n: int | 0 <= n < 0x1_0000_0000_0000_0000

  function Wrap(x: int): u64 {
    x % 0x1_0000_0000_0000_0000
  }

  /** details stands for name, position, timezone and the other fields that are only copied. */
  datatype StopTime = StopTime(stopId: string, sequence: Option<nat>, arrival: Option<u64>, departure: Option<u64>,
                               interpolated: Option<u64>, replaced: bool, details: string)

  datatype Selector = Selector(stopId: Option<string>, stopSequence: Option<nat>)

  datatype Replacement = Replacement(stopId: Option<string>, travelTime: Option<int>)

  datatype Modification = Modification(start: Option<Selector>, end: Option<Selector>, delay: Option<int>,
                                       replacements: seq<Replacement>)

  /** A stop record found for a replacement; its own id may differ from the id it was found under. */
  datatype StopRecord = StopRecord(id: string, details: string)

  type Catalogue = map<string, StopRecord>

  /** `as u64` on a signed number, followed by wrapping addition. */
  function Plus(x: u64, d: int): u64 {
    Wrap(x + Wrap(d))
  }

  function PlusOption(x: Option<u64>, d: int): Option<u64> {
    match x
    case None => None
    case Some(v) => Some(Plus(v, d))
  }

  function Shifted(stop: StopTime, d: int): StopTime {
    stop.(arrival := PlusOption(stop.arrival, d), departure := PlusOption(stop.departure, d),
          interpolated := PlusOption(stop.interpolated, d))
  }

  /** Stop sequences are compared after truncation to 16 bits. */
  predicate Matches(sel: Selector, stop: StopTime) {
    && (sel.stopId.Some? || sel.stopSequence.Some?)
    && (sel.stopId.Some? ==> sel.stopId.value == stop.stopId)
    && (sel.stopSequence.Some? ==> stop.sequence == Some(sel.stopSequence.value % 0x1_0000))
  }

  /** The first stop the selector matches. */
  function Position(stops: seq<StopTime>, sel: Selector): (p: Option<nat>)
    ensures p.Some? ==>
              && p.value < |stops| && Matches(sel, stops[p.value])
              && forall i :: 0 <= i < p.value ==> !Matches(sel, stops[i])
    ensures p.None? ==> forall i :: 0 <= i < |stops| ==> !Matches(sel, stops[i])
  {
    if stops == [] then None
    else if Matches(sel, stops[0]) then Some(0)
    else
      match Position(stops[1..], sel)
      case None => None
      case Some(i) => Some(i + 1)
  }

  /** What a modification does to a given list: nothing, a splice of the stops start .. end (only the
      start when no end is found), or a panic on an inverted range or a reference stop without times. */
  datatype Plan = Skip | Splice(start: nat, end: Option<nat>, reference: u64) | Panic

  function PlanOf(stops: seq<StopTime>, m: Modification): (plan: Plan)
    ensures plan.Splice? ==> plan.start < |stops| && plan.start <= Resume(plan) <= |stops|
  {
    if m.start.None? then Skip
    else
      match Position(stops, m.start.value)
      case None => Skip
      case Some(start) =>
        var end := if m.end.Some? then Position(stops, m.end.value) else None;
        var reference := stops[if start == 0 then 0 else start - 1];
        if end.Some? && start > end.value + 1 then Panic
        else if reference.arrival.Some? then Splice(start, end, reference.arrival.value)
        else if reference.departure.Some? then Splice(start, end, reference.departure.value)
        else Panic
  }

  /** Where the untouched tail of the list begins. */
  function Resume(plan: Plan): nat
    requires plan.Splice?
  {
    if plan.end.Some? then plan.end.value + 1 else plan.start + 1
  }

  predicate Known(r: Replacement, catalogue: Catalogue) {
    r.stopId.Some? && r.stopId.value in catalogue
  }

  function Introduced(replacements: seq<Replacement>, catalogue: Catalogue, reference: u64): seq<StopTime> {
    if replacements == [] then []
    else
      var n := |replacements| - 1;
      var r, front := replacements[n], Introduced(replacements[..n], catalogue, reference);
      if Known(r, catalogue) then front + [Introduce(catalogue[r.stopId.value], r, reference)] else front
  }

  function Introduce(stop: StopRecord, r: Replacement, reference: u64): StopTime {
    StopTime(stop.id, None, Some(Plus(reference, OrZero(r.travelTime))), None, None, true, stop.details)
  }

  function OrZero(d: Option<int>): int {
    match d
    case None => 0
    case Some(v) => v
  }

  /** The stop's arrival is the plain sum exactly when that lies in range. */
  ghost predicate IsIntroduced(stop: StopTime, record: StopRecord, travelTime: int, reference: u64) {
    && stop.stopId == record.id && stop.details == record.details && stop.replaced
    && stop.sequence.None? && stop.departure.None? && stop.interpolated.None?
    && stop.arrival.Some?
    && (stop.arrival.value == reference + travelTime <==> 0 <= reference + travelTime < 0x1_0000_0000_0000_0000)
  }

  /** The stop was introduced for this replacement. */
  ghost predicate StandsFor(stop: StopTime, r: Replacement, catalogue: Catalogue, reference: u64) {
    Known(r, catalogue) && IsIntroduced(stop, catalogue[r.stopId.value], OrZero(r.travelTime), reference)
  }

  /** from lists the positions of the known replacements in order, and stop k was introduced for the
      replacement at from[k]. */
  ghost predicate IntroducedAt(introduced: seq<StopTime>, replacements: seq<Replacement>, catalogue: Catalogue,
                               reference: u64, from: seq<nat>)
  {
    && (forall k, l :: 0 <= k < l < |from| ==> from[k] < from[l])
    && |introduced| == |from|
    && (forall k :: 0 <= k < |from| ==>
          from[k] < |replacements| && StandsFor(introduced[k], replacements[from[k]], catalogue, reference))
    && forall i :: 0 <= i < |replacements| && Known(replacements[i], catalogue) ==> i in from
  }

  lemma IntroduceNext(introduced: seq<StopTime>, front: seq<Replacement>, catalogue: Catalogue, reference: u64,
                      from: seq<nat>, r: Replacement, stop: StopTime)
    requires IntroducedAt(introduced, front, catalogue, reference, from) && StandsFor(stop, r, catalogue, reference)
    ensures IntroducedAt(introduced + [stop], front + [r], catalogue, reference, from + [|front|])
  {
    hide Known, StandsFor;
    forall i | 0 <= i <= |front| && Known((front + [r])[i], catalogue) ensures i in from + [|front|] {
      if i < |front| { assert i in from; } else { assert (from + [|front|])[|from|] == i; }
    }
  }

  lemma SkipNext(introduced: seq<StopTime>, front: seq<Replacement>, catalogue: Catalogue, reference: u64,
                 from: seq<nat>, r: Replacement)
    requires IntroducedAt(introduced, front, catalogue, reference, from) && !Known(r, catalogue)
    ensures IntroducedAt(introduced, front + [r], catalogue, reference, from)
  {
    hide Known, StandsFor;
  }

  /** The introduced stops stand for the known replacements, one each and in their order: under the id
      of the record found, without sequence and departure, at the reference time plus the travel time. */
  lemma {:induction false} IntroducedFrom(replacements: seq<Replacement>, catalogue: Catalogue, reference: u64)
    returns (from: seq<nat>)
    ensures IntroducedAt(Introduced(replacements, catalogue, reference), replacements, catalogue, reference, from)
  {
    hide IsIntroduced, Introduce, IntroducedAt;
    if replacements == [] {
      from := [];
      NothingIntroduced(catalogue, reference);
    } else {
      var n := |replacements| - 1;
      var front, r := replacements[..n], replacements[n];
      from := IntroducedFrom(front, catalogue, reference);
      assert replacements == front + [r];
      if Known(r, catalogue) {
        IntroduceOne(catalogue[r.stopId.value], r, reference);
        IntroduceNext(Introduced(front, catalogue, reference), front, catalogue, reference, from, r,
                      Introduce(catalogue[r.stopId.value], r, reference));
        from := from + [n];
      } else {
        SkipNext(Introduced(front, catalogue, reference), front, catalogue, reference, from, r);
      }
    }
  }

  lemma NothingIntroduced(catalogue: Catalogue, reference: u64)
    ensures IntroducedAt([], [], catalogue, reference, [])
  {
  }

  lemma IntroduceOne(record: StopRecord, r: Replacement, reference: u64)
    ensures IsIntroduced(Introduce(record, r, reference), record, OrZero(r.travelTime), reference)
  {
    hide Plus;
    PlusFits(reference, OrZero(r.travelTime));
  }

  predicate Serves(introduced: seq<StopTime>, stopId: string) {
    exists k :: 0 <= k < |introduced| && introduced[k].stopId == stopId
  }

  function Unserved(group: seq<StopTime>, introduced: seq<StopTime>): seq<StopTime> {
    if group == [] then []
    else if Serves(introduced, group[0].stopId) then Unserved(group[1..], introduced)
    else [group[0]] + Unserved(group[1..], introduced)
  }

  /** The stops taken out of service between both ends; empty when no end was found. */
  function Group<T>(list: seq<T>, plan: Plan): seq<T>
    requires plan.Splice? && plan.start <= Resume(plan) <= |list|
  {
    if plan.end.Some? then list[plan.start..plan.end.value + 1] else []
  }

  function ShiftedAll(stops: seq<StopTime>, d: int): (r: seq<StopTime>)
    ensures |r| == |stops| && forall i :: 0 <= i < |r| ==> r[i] == Shifted(stops[i], d)
  {
    seq(|stops|, i requires 0 <= i < |stops| => Shifted(stops[i], d))
  }

  datatype Lists = Lists(stops: seq<StopTime>, cancelled: seq<StopTime>)

  function Apply(lists: Lists, m: Modification, catalogue: Catalogue): Result<Lists, string> {
    var plan := PlanOf(lists.stops, m);
    match plan
    case Skip => Success(lists)
    case Panic => Failure("panic")
    case Splice(start, end, reference) =>
      var introduced := Introduced(m.replacements, catalogue, reference);
      Success(Lists(lists.stops[..start] + introduced + ShiftedAll(lists.stops[Resume(plan)..], OrZero(m.delay)),
                    lists.cancelled + Unserved(Group(lists.stops, plan), introduced)))
  }

  function ApplyAll(lists: Lists, ms: seq<Modification>, catalogue: Catalogue): Result<Lists, string>
    decreases |ms|
  {
    if ms == [] then Success(lists)
    else
      match Apply(lists, ms[0], catalogue)
      case Failure(e) => Failure(e)
      case Success(next) => ApplyAll(next, ms[1..], catalogue)
  }

  // ---- The loop as the program runs it ----

  method FindPosition(stops: seq<StopTime>, sel: Selector) returns (p: Option<nat>)
    ensures p == Position(stops, sel)
  {
    for i := 0 to |stops|
      invariant forall k :: 0 <= k < i ==> !Matches(sel, stops[k])
    {
      if Matches(sel, stops[i]) {
        return Some(i);
      }
    }
    return None;
  }

  method BuildReplacements(replacements: seq<Replacement>, catalogue: Catalogue, reference: u64)
    returns (introduced: seq<StopTime>)
    ensures introduced == Introduced(replacements, catalogue, reference)
  {
    introduced := [];
    for i := 0 to |replacements|
      invariant introduced == Introduced(replacements[..i], catalogue, reference)
    {
      var r := replacements[i];
      assert replacements[..i + 1][..i] == replacements[..i];
      if Known(r, catalogue) {
        introduced := introduced + [Introduce(catalogue[r.stopId.value], r, reference)];
      }
    }
    assert replacements[..|replacements|] == replacements;
  }

  method PropagateDelay(after: array<StopTime>, delay: Option<int>)
    modifies after
    ensures after[..] == ShiftedAll(old(after[..]), OrZero(delay))
  {
    if delay.None? {
      ShiftNothing(after[..]);
      return;
    }
    for i := 0 to after.Length
      invariant forall k :: 0 <= k < i ==> after[k] == Shifted(old(after[k]), delay.value)
      invariant forall k :: i <= k < after.Length ==> after[k] == old(after[k])
    {
      after[i] := Shifted(after[i], delay.value);
    }
  }

  method CancelUnserved(group: seq<StopTime>, introduced: seq<StopTime>) returns (cancelled: seq<StopTime>)
    ensures cancelled == Unserved(group, introduced)
  {
    cancelled := [];
    for i := 0 to |group|
      invariant cancelled + Unserved(group[i..], introduced) == Unserved(group, introduced)
    {
      assert group[i..][0] == group[i] && group[i..][1..] == group[i + 1..];
      if !Serves(introduced, group[i].stopId) {
        cancelled := cancelled + [group[i]];
      }
    }
  }

  /** The ends of the splice and the time of the reference stop. */
  method FindPlan(current: seq<StopTime>, m: Modification) returns (plan: Plan)
    ensures plan == PlanOf(current, m)
  {
    hide Position, Matches;
    if m.start.None? || (m.start.value.stopId.None? && m.start.value.stopSequence.None?) {
      if m.start.Some? { EmptySelector(current, m.start.value); }
      return Skip;
    }
    var start := FindPosition(current, m.start.value);
    if start.None? {
      return Skip;
    }
    var end: Option<nat> := None;
    if m.end.Some? {
      end := FindPosition(current, m.end.value);
    }
    if end.Some? && start.value > end.value + 1 {
      return Panic;
    }
    var reference := current[if start.value == 0 then 0 else start.value - 1];
    if reference.arrival.None? && reference.departure.None? {
      return Panic;
    }
    var time := if reference.arrival.Some? then reference.arrival.value else reference.departure.value;
    return Splice(start.value, end, time);
  }

  method ApplyOne(current: seq<StopTime>, cancelled: seq<StopTime>, m: Modification, catalogue: Catalogue)
    returns (result: Result<Lists, string>)
    ensures result == Apply(Lists(current, cancelled), m, catalogue)
  {
    hide Introduced, Unserved, ShiftedAll, PlanOf;
    var plan := FindPlan(current, m);
    if plan.Skip? {
      return Success(Lists(current, cancelled));
    }
    if plan.Panic? {
      return Failure("panic");
    }
    var group := Group(current, plan);
    var before, after := current[..plan.start], current[Resume(plan)..];
    var introduced := BuildReplacements(m.replacements, catalogue, plan.reference);
    var tail := new StopTime[|after|](k requires 0 <= k < |after| => after[k]);
    assert tail[..] == after;
    PropagateDelay(tail, m.delay);
    var toCancel := CancelUnserved(group, introduced);
    return Success(Lists(before + introduced + tail[..], cancelled + toCancel));
  }

  lemma EmptySelector(stops: seq<StopTime>, sel: Selector)
    requires sel.stopId.None? && sel.stopSequence.None?
    ensures Position(stops, sel) == None
  {
  }

  method ApplyModifications(stops: seq<StopTime>, ms: seq<Modification>, catalogue: Catalogue)
    returns (result: Result<Lists, string>)
    ensures result == ApplyAll(Lists(stops, []), ms, catalogue)
  {
    hide Apply;
    var lists := Lists(stops, []);
    for i := 0 to |ms|
      invariant ApplyAll(lists, ms[i..], catalogue) == ApplyAll(Lists(stops, []), ms, catalogue)
    {
      assert ms[i..][0] == ms[i] && ms[i..][1..] == ms[i + 1..];
      var next := ApplyOne(lists.stops, lists.cancelled, ms[i], catalogue);
      if next.Failure? {
        return next;
      }
      lists := next.value;
    }
    assert ms[|ms|..] == [];
    return Success(lists);
  }

  // ---- Shifting ----

  lemma WrapMultiple(x: int, k: int)
    ensures Wrap(x + k * 0x1_0000_0000_0000_0000) == Wrap(x)
  {
    var q := x / 0x1_0000_0000_0000_0000;
    assert x + k * 0x1_0000_0000_0000_0000 == (q + k) * 0x1_0000_0000_0000_0000 + Wrap(x);
  }

  lemma WrapPlus(x: int, y: int)
    ensures Wrap(Wrap(x) + y) == Wrap(x + y)
  {
    var q := x / 0x1_0000_0000_0000_0000;
    assert Wrap(x) + y == x + y + (-q) * 0x1_0000_0000_0000_0000;
    WrapMultiple(x + y, -q);
  }

  /** The cast of a negative delay disappears in the wrapping sum. */
  lemma PlusIsWrap(x: u64, d: int)
    ensures Plus(x, d) == Wrap(x + d)
  {
    WrapPlus(d, x);
  }

  lemma PlusPlus(x: u64, d: int, e: int)
    ensures Plus(Plus(x, d), e) == Plus(x, d + e)
  {
    PlusIsWrap(x, d);
    PlusIsWrap(Plus(x, d), e);
    PlusIsWrap(x, d + e);
    WrapPlus(x + d, e);
  }

  /** The shifted time is the plain sum exactly when that sum fits. */
  lemma PlusFits(x: u64, d: int)
    ensures Plus(x, d) == x + d <==> 0 <= x + d < 0x1_0000_0000_0000_0000
  {
    PlusIsWrap(x, d);
  }

  lemma ShiftedTwice(stop: StopTime, d: int, e: int)
    ensures Shifted(Shifted(stop, d), e) == Shifted(stop, d + e)
  {
    if stop.arrival.Some? { PlusPlus(stop.arrival.value, d, e); }
    if stop.departure.Some? { PlusPlus(stop.departure.value, d, e); }
    if stop.interpolated.Some? { PlusPlus(stop.interpolated.value, d, e); }
  }

  lemma ShiftNothing(stops: seq<StopTime>)
    ensures ShiftedAll(stops, 0) == stops
  {
  }
}
