/** No stop disappears unnoticed: the spliced list is followed stop by stop over any run of
    modifications (backend/src/trip_logic.rs:1541-1796). */
module StopConservation {
  import opened Wrappers
  import opened TripModifications

  /** A stop together with its position in the schedule (none if a modification introduced it) and
      the delays added to it so far. */
  datatype Tag = Tag(stop: StopTime, origin: Option<nat>, shift: int)

  /** Where the tagged stops are: still served, cancelled, replaced by an introduced stop with the
      same id, or, taken out by a modification that finds no end, dropped without either. */
  datatype Books = Books(list: seq<Tag>, cancelled: seq<Tag>, reserved: seq<Tag>, dropped: seq<Tag>)

  function Erase(list: seq<Tag>): (r: seq<StopTime>)
    ensures |r| == |list| && forall i :: 0 <= i < |r| ==> r[i] == list[i].stop
  {
    seq(|list|, i requires 0 <= i < |list| => list[i].stop)
  }

  function Fresh(stops: seq<StopTime>): (r: seq<Tag>)
    ensures |r| == |stops| && forall i :: 0 <= i < |r| ==> r[i] == Tag(stops[i], None, 0)
  {
    seq(|stops|, i requires 0 <= i < |stops| => Tag(stops[i], None, 0))
  }

  function Delayed(list: seq<Tag>, d: int): (r: seq<Tag>)
    ensures |r| == |list|
    ensures forall i :: 0 <= i < |r| ==> r[i] == Tag(Shifted(list[i].stop, d), list[i].origin, list[i].shift + d)
  {
    seq(|list|, i requires 0 <= i < |list| => Tag(Shifted(list[i].stop, d), list[i].origin, list[i].shift + d))
  }

  /** The members of the group that an introduced stop does, or does not, serve. */
  function Split(group: seq<Tag>, introduced: seq<StopTime>, served: bool): seq<Tag> {
    if group == [] then []
    else if Serves(introduced, group[0].stop.stopId) == served then [group[0]] + Split(group[1..], introduced, served)
    else Split(group[1..], introduced, served)
  }

  /** The list with start .. resume replaced by the introduced stops and the tail delayed. */
  function Spliced(list: seq<Tag>, start: nat, resume: nat, introduced: seq<StopTime>, d: int): seq<Tag>
    requires start <= resume <= |list|
  {
    list[..start] + Fresh(introduced) + Delayed(list[resume..], d)
  }

  function Begin(stops: seq<StopTime>): Books {
    Books(seq(|stops|, i requires 0 <= i < |stops| => Tag(stops[i], Some(i), 0)), [], [], [])
  }

  function Follow(b: Books, m: Modification, catalogue: Catalogue): Books {
    var plan := PlanOf(Erase(b.list), m);
    match plan
    case Skip => b
    case Panic => b
    case Splice(start, end, reference) =>
      var introduced := Introduced(m.replacements, catalogue, reference);
      var gone := b.list[start..Resume(plan)];
      var unserved := Split(gone, introduced, false);
      Books(Spliced(b.list, start, Resume(plan), introduced, OrZero(m.delay)),
            b.cancelled + if end.Some? then unserved else [],
            b.reserved + Split(gone, introduced, true),
            b.dropped + if end.None? then unserved else [])
  }

  /** The books after the first n modifications. */
  function BooksAfter(stops: seq<StopTime>, ms: seq<Modification>, catalogue: Catalogue, n: nat): Books
    requires n <= |ms|
  {
    if n == 0 then Begin(stops) else Follow(BooksAfter(stops, ms, catalogue, n - 1), ms[n - 1], catalogue)
  }

  // ---- The books describe the real lists ----

  lemma {:induction false} SplitErases(group: seq<Tag>, introduced: seq<StopTime>)
    ensures Erase(Split(group, introduced, false)) == Unserved(Erase(group), introduced)
  {
    if group != [] {
      SplitErases(group[1..], introduced);
      assert Erase(group)[1..] == Erase(group[1..]);
      assert Erase(group)[0] == group[0].stop;
      var rest := Split(group[1..], introduced, false);
      assert Erase([group[0]] + rest) == [group[0].stop] + Erase(rest);
    }
  }

  lemma SplicedErases(list: seq<Tag>, start: nat, resume: nat, introduced: seq<StopTime>, d: int)
    requires start <= resume <= |list|
    ensures Erase(Spliced(list, start, resume, introduced, d))
         == Erase(list)[..start] + introduced + ShiftedAll(Erase(list)[resume..], d)
  {
    hide Shifted;
  }

  lemma FollowErases(b: Books, m: Modification, catalogue: Catalogue)
    requires !PlanOf(Erase(b.list), m).Panic?
    ensures Apply(Lists(Erase(b.list), Erase(b.cancelled)), m, catalogue)
         == Success(Lists(Erase(Follow(b, m, catalogue).list), Erase(Follow(b, m, catalogue).cancelled)))
  {
    hide Introduced, Unserved, Split, Spliced, PlanOf;
    var plan := PlanOf(Erase(b.list), m);
    if plan.Splice? {
      var introduced := Introduced(m.replacements, catalogue, plan.reference);
      SplicedErases(b.list, plan.start, Resume(plan), introduced, OrZero(m.delay));
      if plan.end.Some? {
        var gone := b.list[plan.start..Resume(plan)];
        SplitErases(gone, introduced);
        assert Group(Erase(b.list), plan) == Erase(gone);
        assert Erase(b.cancelled + Split(gone, introduced, false))
            == Erase(b.cancelled) + Erase(Split(gone, introduced, false));
      } else {
        NothingUnserved(introduced);
        assert b.cancelled + [] == b.cancelled;
        assert Erase(b.cancelled) + [] == Erase(b.cancelled);
      }
    }
  }

  lemma NothingUnserved(introduced: seq<StopTime>)
    ensures Unserved([], introduced) == []
  {
  }

  /** A run that does not panic ends in exactly the lists the books describe. */
  lemma {:induction false} BooksDescribe(stops: seq<StopTime>, ms: seq<Modification>, catalogue: Catalogue, n: nat)
    requires n <= |ms| && ApplyAll(Lists(stops, []), ms, catalogue).Success?
    ensures var b := BooksAfter(stops, ms, catalogue, n);
            ApplyAll(Lists(Erase(b.list), Erase(b.cancelled)), ms[n..], catalogue) ==
              ApplyAll(Lists(stops, []), ms, catalogue)
  {
    hide Follow, Apply;
    if n == 0 {
      assert Erase(Begin(stops).list) == stops && Erase([]) == [] && ms[0..] == ms;
    } else {
      BooksDescribe(stops, ms, catalogue, n - 1);
      var b := BooksAfter(stops, ms, catalogue, n - 1);
      assert ms[n - 1..][0] == ms[n - 1] && ms[n - 1..][1..] == ms[n..];
      if PlanOf(Erase(b.list), ms[n - 1]).Panic? {
        PanicFails(Lists(Erase(b.list), Erase(b.cancelled)), ms[n - 1], catalogue);
      } else {
        FollowErases(b, ms[n - 1], catalogue);
      }
    }
  }

  lemma PanicFails(lists: Lists, m: Modification, catalogue: Catalogue)
    requires PlanOf(lists.stops, m).Panic?
    ensures Apply(lists, m, catalogue).Failure?
  {
  }

  // ---- What the books always satisfy ----

  function Origins(list: seq<Tag>): multiset<nat> {
    if list == [] then multiset{}
    else (if list[0].origin.Some? then multiset{list[0].origin.value} else multiset{}) + Origins(list[1..])
  }

  ghost predicate AllShifted(stops: seq<StopTime>, list: seq<Tag>) {
    forall i :: 0 <= i < |list| && list[i].origin.Some? ==>
      list[i].origin.value < |stops| && list[i].stop == Shifted(stops[list[i].origin.value], list[i].shift)
  }

  ghost predicate InOrder(list: seq<Tag>) {
    forall i, j :: 0 <= i < j < |list| && list[i].origin.Some? && list[j].origin.Some? ==>
      list[i].origin.value < list[j].origin.value
  }

  function Numbers(n: nat): multiset<nat> {
    if n == 0 then multiset{} else Numbers(n - 1) + multiset{n - 1}
  }

  /** The scheduled stops are shared out, each to one place; those still served keep their order and
      are shifted by their recorded delays. */
  ghost predicate Balanced(stops: seq<StopTime>, b: Books) {
    && AllShifted(stops, b.list)
    && InOrder(b.list)
    && AllOrigins(b) == Numbers(|stops|)
  }

  lemma {:induction false} OriginsAppend(a: seq<Tag>, b: seq<Tag>)
    ensures Origins(a + b) == Origins(a) + Origins(b)
  {
    if a == [] {
      assert a + b == b;
    } else {
      assert (a + b)[0] == a[0] && (a + b)[1..] == a[1..] + b;
      OriginsAppend(a[1..], b);
    }
  }

  lemma {:induction false} OriginsFresh(stops: seq<StopTime>)
    ensures Origins(Fresh(stops)) == multiset{}
  {
    if stops != [] {
      assert Fresh(stops)[1..] == Fresh(stops[1..]);
      OriginsFresh(stops[1..]);
    }
  }

  lemma {:induction false} OriginsDelayed(list: seq<Tag>, d: int)
    ensures Origins(Delayed(list, d)) == Origins(list)
  {
    if list != [] {
      assert Delayed(list, d)[1..] == Delayed(list[1..], d);
      OriginsDelayed(list[1..], d);
    }
  }

  lemma {:induction false} OriginsSplit(group: seq<Tag>, introduced: seq<StopTime>)
    ensures Origins(Split(group, introduced, false)) + Origins(Split(group, introduced, true)) == Origins(group)
  {
    hide Serves;
    if group != [] {
      OriginsSplit(group[1..], introduced);
      var served := Serves(introduced, group[0].stop.stopId);
      var rest := Split(group[1..], introduced, served);
      assert ([group[0]] + rest)[1..] == rest;
    }
  }

  lemma OriginsOne(t: Tag)
    ensures Origins([t]) == if t.origin.Some? then multiset{t.origin.value} else multiset{}
  {
    OriginsNone();
  }

  lemma {:induction false} OriginsBegin(stops: seq<StopTime>, n: nat)
    requires n <= |stops|
    ensures Origins(Begin(stops).list[..n]) == Numbers(n)
  {
    hide Origins;
    OriginsNone();
    var list := Begin(stops).list;
    if n > 0 {
      OriginsBegin(stops, n - 1);
      assert list[..n] == list[..n - 1] + [list[n - 1]];
      OriginsAppend(list[..n - 1], [list[n - 1]]);
      OriginsOne(list[n - 1]);
    }
  }

  lemma ShiftNone(stop: StopTime)
    ensures Shifted(stop, 0) == stop
  {
  }

  lemma BalancedBegin(stops: seq<StopTime>)
    ensures Balanced(stops, Begin(stops))
  {
    OriginsBegin(stops, |stops|);
    var list := Begin(stops).list;
    assert list[..|stops|] == list;
    forall i | 0 <= i < |list| ensures list[i].stop == Shifted(stops[i], 0) { ShiftNone(stops[i]); }
  }

  lemma OriginsOfThree(a: seq<Tag>, b: seq<Tag>, c: seq<Tag>)
    ensures Origins(a + b + c) == Origins(a) + Origins(b) + Origins(c)
  {
    hide Origins;
    OriginsAppend(a + b, c);
    OriginsAppend(a, b);
  }

  lemma OriginsOfParts(list: seq<Tag>, start: nat, resume: nat)
    requires start <= resume <= |list|
    ensures Origins(list) == Origins(list[..start]) + Origins(list[start..resume]) + Origins(list[resume..])
  {
    hide Origins;
    OriginsOfThree(list[..start], list[start..resume], list[resume..]);
    assert list == list[..start] + list[start..resume] + list[resume..];
  }

  lemma OriginsOfSpliced(list: seq<Tag>, start: nat, resume: nat, introduced: seq<StopTime>, d: int)
    requires start <= resume <= |list|
    ensures Origins(Spliced(list, start, resume, introduced, d)) == Origins(list[..start]) + Origins(list[resume..])
  {
    hide Fresh, Delayed, Origins;
    OriginsOfThree(list[..start], Fresh(introduced), Delayed(list[resume..], d));
    OriginsFresh(introduced);
    OriginsDelayed(list[resume..], d);
    AddNone(Origins(list[..start]));
  }

  lemma AddNone(a: multiset<nat>)
    ensures a + multiset{} == a
  {
  }

  lemma SplicedOrigins(list: seq<Tag>, start: nat, resume: nat, introduced: seq<StopTime>, d: int)
    requires start <= resume <= |list|
    ensures Origins(Spliced(list, start, resume, introduced, d)) + Origins(list[start..resume]) == Origins(list)
  {
    hide Spliced, Origins;
    OriginsOfParts(list, start, resume);
    OriginsOfSpliced(list, start, resume, introduced, d);
    Regroup(Origins(list[..start]), Origins(list[start..resume]), Origins(list[resume..]));
  }

  lemma Regroup(a: multiset<nat>, b: multiset<nat>, c: multiset<nat>)
    ensures a + c + b == a + b + c
  {
  }

  ghost function AllOrigins(b: Books): multiset<nat> {
    Origins(b.list) + Origins(b.cancelled) + Origins(b.reserved) + Origins(b.dropped)
  }

  lemma FollowOrigins(b: Books, m: Modification, catalogue: Catalogue)
    ensures AllOrigins(Follow(b, m, catalogue)) == AllOrigins(b)
  {
    hide Introduced, Serves, Split, Spliced, PlanOf, Origins;
    var plan := PlanOf(Erase(b.list), m);
    if plan.Splice? {
      var introduced := Introduced(m.replacements, catalogue, plan.reference);
      var gone := b.list[plan.start..Resume(plan)];
      var unserved := Split(gone, introduced, false);
      SplicedOrigins(b.list, plan.start, Resume(plan), introduced, OrZero(m.delay));
      OriginsSplit(gone, introduced);
      OriginsAppend(b.reserved, Split(gone, introduced, true));
      OriginsAppend(b.cancelled, if plan.end.Some? then unserved else []);
      OriginsAppend(b.dropped, if plan.end.None? then unserved else []);
      OriginsNone();
    }
  }

  lemma OriginsNone()
    ensures Origins([]) == multiset{}
  {
  }

  /** Where a stop of the spliced list comes from. */
  lemma SplicedFrom(list: seq<Tag>, start: nat, resume: nat, introduced: seq<StopTime>, d: int, p: nat) returns (q: nat)
    requires start <= resume <= |list| && p < |Spliced(list, start, resume, introduced, d)|
    ensures var t := Spliced(list, start, resume, introduced, d)[p];
            t.origin.Some? ==>
              && q < |list| && (q < start || q >= resume)
              && q == (if p < start then p else p - start - |introduced| + resume)
              && (p < start ==> t == list[q])
              && (p >= start ==> q >= resume && t == Tag(Shifted(list[q].stop, d), list[q].origin, list[q].shift + d))
  {
    hide Shifted;
    if p < start {
      q := p;
    } else if p < start + |introduced| {
      assert Spliced(list, start, resume, introduced, d)[p] == Fresh(introduced)[p - start];
      q := 0;
    } else {
      q := p - start - |introduced| + resume;
      assert Spliced(list, start, resume, introduced, d)[p] == Delayed(list[resume..], d)[p - start - |introduced|];
    }
  }

  lemma SplicedShifts(stops: seq<StopTime>, list: seq<Tag>, start: nat, resume: nat, introduced: seq<StopTime>, d: int)
    requires start <= resume <= |list|
    requires AllShifted(stops, list) && InOrder(list)
    ensures AllShifted(stops, Spliced(list, start, resume, introduced, d))
    ensures InOrder(Spliced(list, start, resume, introduced, d))
  {
    hide Shifted, Spliced;
    var after := Spliced(list, start, resume, introduced, d);
    forall p | 0 <= p < |after| && after[p].origin.Some?
      ensures after[p].origin.value < |stops| && after[p].stop == Shifted(stops[after[p].origin.value], after[p].shift)
    {
      var q := SplicedFrom(list, start, resume, introduced, d, p);
      if p >= start { ShiftedTwice(stops[list[q].origin.value], list[q].shift, d); }
    }
    forall p, r | 0 <= p < r < |after| && after[p].origin.Some? && after[r].origin.Some?
      ensures after[p].origin.value < after[r].origin.value
    {
      var q := SplicedFrom(list, start, resume, introduced, d, p);
      var u := SplicedFrom(list, start, resume, introduced, d, r);
    }
  }

  lemma FollowShifts(stops: seq<StopTime>, b: Books, m: Modification, catalogue: Catalogue)
    requires AllShifted(stops, b.list) && InOrder(b.list)
    ensures AllShifted(stops, Follow(b, m, catalogue).list) && InOrder(Follow(b, m, catalogue).list)
  {
    hide Introduced, Spliced, PlanOf, AllShifted, InOrder, Split;
    var plan := PlanOf(Erase(b.list), m);
    if plan.Splice? {
      SplicedShifts(stops, b.list, plan.start, Resume(plan), Introduced(m.replacements, catalogue, plan.reference),
                    OrZero(m.delay));
    }
  }

  lemma {:induction false} AlwaysBalanced(stops: seq<StopTime>, ms: seq<Modification>, catalogue: Catalogue, n: nat)
    requires n <= |ms|
    ensures Balanced(stops, BooksAfter(stops, ms, catalogue, n))
  {
    hide Follow, Origins;
    if n == 0 {
      BalancedBegin(stops);
    } else {
      AlwaysBalanced(stops, ms, catalogue, n - 1);
      var b := BooksAfter(stops, ms, catalogue, n - 1);
      FollowOrigins(b, ms[n - 1], catalogue);
      FollowShifts(stops, b, ms[n - 1], catalogue);
    }
  }

  /** Each member of a replaced group is re-served or cancelled, by the id of the introduced stops. */
  lemma {:induction false} SplitDecides(group: seq<Tag>, introduced: seq<StopTime>, t: Tag)
    requires t in group
    ensures forall served :: t in Split(group, introduced, served) <==> Serves(introduced, t.stop.stopId) == served
  {
    if t in group[1..] { SplitDecides(group[1..], introduced, t); }
    if group[0] != t { assert t in group[1..]; }
    forall served ensures t in Split(group, introduced, served) <==> Serves(introduced, t.stop.stopId) == served {
      if Serves(introduced, t.stop.stopId) != served { SplitOnly(group, introduced, served, t); }
    }
  }

  lemma {:induction false} SplitOnly(group: seq<Tag>, introduced: seq<StopTime>, served: bool, t: Tag)
    requires Serves(introduced, t.stop.stopId) != served
    ensures t !in Split(group, introduced, served)
  {
    if group != [] { SplitOnly(group[1..], introduced, served, t); }
  }

  // ---- The main results ----

  /** Every scheduled stop ends up in exactly one place: still served, cancelled, re-served under the
      same id, or dropped; the visible lists are the served and the cancelled ones. */
  lemma StopsAreConserved(stops: seq<StopTime>, ms: seq<Modification>, catalogue: Catalogue, lists: Lists)
    requires ApplyAll(Lists(stops, []), ms, catalogue) == Success(lists)
    ensures var b := BooksAfter(stops, ms, catalogue, |ms|);
            && lists == Lists(Erase(b.list), Erase(b.cancelled))
            && Balanced(stops, b)
  {
    BooksDescribe(stops, ms, catalogue, |ms|);
    AlwaysBalanced(stops, ms, catalogue, |ms|);
    assert ms[|ms|..] == [];
  }

  /** Modification n of the run starts at the scheduled stop i but finds no end. */
  ghost predicate StartsOpenAt(stops: seq<StopTime>, ms: seq<Modification>, catalogue: Catalogue, n: nat, i: nat)
    requires n < |ms|
  {
    var b := BooksAfter(stops, ms, catalogue, n);
    var plan := PlanOf(Erase(b.list), ms[n]);
    plan.Splice? && plan.end.None? && b.list[plan.start].origin == Some(i)
  }

  /** One of the stops that modification n introduces has this id. */
  ghost predicate ServesAgain(stops: seq<StopTime>, ms: seq<Modification>, catalogue: Catalogue, n: nat, stopId: string)
    requires n < |ms|
  {
    var plan := PlanOf(Erase(BooksAfter(stops, ms, catalogue, n).list), ms[n]);
    plan.Splice? && Serves(Introduced(ms[n].replacements, catalogue, plan.reference), stopId)
  }

  ghost predicate Holds(list: seq<Tag>, i: nat) {
    exists t :: t in list && t.origin == Some(i)
  }

  lemma SplitOne(t: Tag, introduced: seq<StopTime>)
    ensures Split([t], introduced, false) == if Serves(introduced, t.stop.stopId) then [] else [t]
  {
    assert [t][1..] == [];
  }

  /** One modification drops the scheduled stop i exactly when it starts there, finds no end, and
      introduces no stop with its id. */
  lemma FollowDropped(stops: seq<StopTime>, ms: seq<Modification>, catalogue: Catalogue, n: nat, i: nat)
    requires n < |ms| && i < |stops| && AllShifted(stops, BooksAfter(stops, ms, catalogue, n).list)
    ensures Holds(BooksAfter(stops, ms, catalogue, n + 1).dropped, i) <==>
              || Holds(BooksAfter(stops, ms, catalogue, n).dropped, i)
              || (StartsOpenAt(stops, ms, catalogue, n, i) && !ServesAgain(stops, ms, catalogue, n, stops[i].stopId))
  {
    hide PlanOf, Introduced, Spliced, Split, BooksAfter, Serves;
    var b, next := BooksAfter(stops, ms, catalogue, n), BooksAfter(stops, ms, catalogue, n + 1);
    assert next == Follow(b, ms[n], catalogue) by { AfterOneMore(stops, ms, catalogue, n); }
    var plan := PlanOf(Erase(b.list), ms[n]);
    if plan.Splice? && plan.end.None? {
      var introduced, t := Introduced(ms[n].replacements, catalogue, plan.reference), b.list[plan.start];
      assert b.list[plan.start..Resume(plan)] == [t];
      SplitOne(t, introduced);
      assert next.dropped == b.dropped + if Serves(introduced, t.stop.stopId) then [] else [t];
    } else {
      assert next.dropped == b.dropped;
    }
  }

  lemma AfterOneMore(stops: seq<StopTime>, ms: seq<Modification>, catalogue: Catalogue, n: nat)
    requires n < |ms|
    ensures BooksAfter(stops, ms, catalogue, n + 1) == Follow(BooksAfter(stops, ms, catalogue, n), ms[n], catalogue)
  {
  }

  /** A scheduled stop disappears without being served again and without entering the cancelled list
      exactly when some modification starts at it, finds no end, and introduces no stop with its id. */
  lemma {:induction false} DroppedIff(stops: seq<StopTime>, ms: seq<Modification>, catalogue: Catalogue, n: nat, i: nat)
    requires n <= |ms| && i < |stops|
    ensures Holds(BooksAfter(stops, ms, catalogue, n).dropped, i) <==>
              exists k :: 0 <= k < n && StartsOpenAt(stops, ms, catalogue, k, i)
                                     && !ServesAgain(stops, ms, catalogue, k, stops[i].stopId)
  {
    hide StartsOpenAt, ServesAgain, AllOrigins, InOrder, AllShifted, Follow;
    if n > 0 {
      DroppedIff(stops, ms, catalogue, n - 1, i);
      AlwaysBalanced(stops, ms, catalogue, n - 1);
      FollowDropped(stops, ms, catalogue, n - 1, i);
    }
  }

  lemma {:induction false} OriginsHold(list: seq<Tag>, i: nat)
    ensures Origins(list)[i] > 0 <==> Holds(list, i)
  {
    if list != [] {
      OriginsHold(list[1..], i);
      assert forall t :: t in list <==> t == list[0] || t in list[1..];
    }
  }

  lemma {:induction false} NumbersCount(n: nat, i: nat)
    ensures Numbers(n)[i] == if i < n then 1 else 0
  {
    if n > 0 { NumbersCount(n - 1, i); }
  }

  /** The four places are apart and hold all scheduled stops. */
  lemma OnePlaceEach(stops: seq<StopTime>, b: Books, i: nat)
    requires AllOrigins(b) == Numbers(|stops|) && i < |stops|
    ensures Holds(b.dropped, i) <==> !Holds(b.list, i) && !Holds(b.cancelled, i) && !Holds(b.reserved, i)
    ensures Holds(b.list, i) ==> !Holds(b.cancelled, i) && !Holds(b.reserved, i)
    ensures Holds(b.cancelled, i) ==> !Holds(b.reserved, i)
  {
    hide Origins, Holds, Numbers;
    OriginsHold(b.list, i);
    OriginsHold(b.cancelled, i);
    OriginsHold(b.reserved, i);
    OriginsHold(b.dropped, i);
    NumbersCount(|stops|, i);
    assert AllOrigins(b)[i] ==
      Origins(b.list)[i] + Origins(b.cancelled)[i] + Origins(b.reserved)[i] + Origins(b.dropped)[i];
  }

  /** A scheduled stop ends up neither served nor cancelled, nor replaced by an introduced stop with its
      id, exactly when some modification starts at it, finds no end, and introduces no stop with its id. */
  lemma LostIff(stops: seq<StopTime>, ms: seq<Modification>, catalogue: Catalogue, n: nat, i: nat)
    requires n <= |ms| && i < |stops|
    ensures var b := BooksAfter(stops, ms, catalogue, n);
            !Holds(b.list, i) && !Holds(b.cancelled, i) && !Holds(b.reserved, i) <==>
              exists k :: 0 <= k < n && StartsOpenAt(stops, ms, catalogue, k, i)
                                     && !ServesAgain(stops, ms, catalogue, k, stops[i].stopId)
  {
    hide StartsOpenAt, ServesAgain, AllOrigins, InOrder, AllShifted, BooksAfter, Holds;
    AlwaysBalanced(stops, ms, catalogue, n);
    OnePlaceEach(stops, BooksAfter(stops, ms, catalogue, n), i);
    DroppedIff(stops, ms, catalogue, n, i);
  }

  /** A schedule of one stop and a modification that starts there and has no end: the stop is in
      neither of the lists that result. */
  lemma StopLost(stop: StopTime, catalogue: Catalogue)
    requires stop.arrival.Some?
    ensures var m := Modification(Some(Selector(Some(stop.stopId), None)), None, None, []);
            && ApplyAll(Lists([stop], []), [m], catalogue) == Success(Lists([], []))
            && Holds(BooksAfter([stop], [m], catalogue, 1).dropped, 0)
  {
    var m := Modification(Some(Selector(Some(stop.stopId), None)), None, None, []);
    var plan := PlanOf([stop], m);
    assert plan == Splice(0, None, stop.arrival.value);
    assert [stop][..0] + [] + ShiftedAll([stop][1..], 0) == [];
    assert Group([stop], plan) == [] && Introduced([], catalogue, stop.arrival.value) == [];
    NothingUnserved([]);
    assert Apply(Lists([stop], []), m, catalogue) == Success(Lists([], []));
    assert [m][1..] == [];
    var b := Begin([stop]);
    assert Erase(b.list) == [stop];
    var t := b.list[0];
    assert b.list[0..1] == [t];
    SplitOne(t, []);
    assert BooksAfter([stop], [m], catalogue, 0) == b;
    assert t in Follow(b, m, catalogue).dropped;
  }

  /** Modification n of the run delays the scheduled stop i: it stands after the end of the splice. */
  ghost predicate EndsBefore(stops: seq<StopTime>, ms: seq<Modification>, catalogue: Catalogue, n: nat, i: nat)
    requires n < |ms|
  {
    var b := BooksAfter(stops, ms, catalogue, n);
    var plan := PlanOf(Erase(b.list), ms[n]);
    plan.Splice? && exists p :: Resume(plan) <= p < |b.list| && b.list[p].origin == Some(i)
  }

  /** Sum of the delays of those among the first n modifications that end before stop i. */
  ghost function DelaySum(stops: seq<StopTime>, ms: seq<Modification>, catalogue: Catalogue, n: nat, i: nat): int
    requires n <= |ms|
  {
    if n == 0 then 0
    else DelaySum(stops, ms, catalogue, n - 1, i)
         + if EndsBefore(stops, ms, catalogue, n - 1, i) then OrZero(ms[n - 1].delay) else 0
  }

  /** Where a surviving stop stood before the modification, and whether it was delayed. */
  lemma CameFrom(b: Books, m: Modification, catalogue: Catalogue, p: nat) returns (q: nat)
    requires p < |Follow(b, m, catalogue).list| && Follow(b, m, catalogue).list[p].origin.Some?
    ensures q < |b.list| && b.list[q].origin == Follow(b, m, catalogue).list[p].origin
    ensures var plan := PlanOf(Erase(b.list), m);
            Follow(b, m, catalogue).list[p].shift ==
              b.list[q].shift + if plan.Splice? && q >= Resume(plan) then OrZero(m.delay) else 0
  {
    hide Introduced, Spliced, PlanOf, Split;
    var plan := PlanOf(Erase(b.list), m);
    if plan.Splice? {
      q := SplicedFrom(b.list, plan.start, Resume(plan), Introduced(m.replacements, catalogue, plan.reference),
                       OrZero(m.delay), p);
    } else {
      q := p;
    }
  }

  lemma OriginIsUnique(list: seq<Tag>, q: nat, r: nat)
    requires InOrder(list) && q < |list| && r < |list|
    requires list[q].origin.Some? && list[q].origin == list[r].origin
    ensures q == r
  {
  }

  lemma {:induction false} ShiftIsDelaySum(stops: seq<StopTime>, ms: seq<Modification>, catalogue: Catalogue, n: nat,
                                           p: nat, i: nat)
    requires n <= |ms| && p < |BooksAfter(stops, ms, catalogue, n).list|
    requires BooksAfter(stops, ms, catalogue, n).list[p].origin == Some(i)
    ensures BooksAfter(stops, ms, catalogue, n).list[p].shift == DelaySum(stops, ms, catalogue, n, i)
  {
    hide Follow, PlanOf, AllShifted, InOrder, AllOrigins;
    if n > 0 {
      var b, m := BooksAfter(stops, ms, catalogue, n - 1), ms[n - 1];
      AlwaysBalanced(stops, ms, catalogue, n - 1);
      var q := CameFrom(b, m, catalogue, p);
      ShiftIsDelaySum(stops, ms, catalogue, n - 1, q, i);
      if EndsBefore(stops, ms, catalogue, n - 1, i) {
        var r :| Resume(PlanOf(Erase(b.list), m)) <= r < |b.list| && b.list[r].origin == Some(i);
        OriginIsUnique(b.list, q, r);
      }
    }
  }

  /** A time is present iff it was, and then it is the plain sum exactly when that sum fits. */
  ghost predicate MovedBy(before: Option<u64>, after: Option<u64>, d: int) {
    && (before.Some? <==> after.Some?)
    && (before.Some? ==>
          (after.value == before.value + d <==> 0 <= before.value + d < 0x1_0000_0000_0000_0000))
  }

  lemma PlusMoves(x: Option<u64>, d: int)
    ensures MovedBy(x, PlusOption(x, d), d)
  {
    hide Wrap;
    if x.Some? { PlusFits(x.value, d); }
  }

  /** A scheduled stop that is still served differs from the schedule only in its times, each of them
      moved by the sum of the delays of the modifications that end before it, exactly so when that sum
      stays in range. */
  lemma SurvivorTimes(stops: seq<StopTime>, ms: seq<Modification>, catalogue: Catalogue, p: nat, i: nat)
    requires p < |BooksAfter(stops, ms, catalogue, |ms|).list|
    requires BooksAfter(stops, ms, catalogue, |ms|).list[p].origin == Some(i)
    ensures i < |stops|
    ensures var served := BooksAfter(stops, ms, catalogue, |ms|).list[p].stop;
            var d := DelaySum(stops, ms, catalogue, |ms|, i);
            && served == Shifted(stops[i], d)
            && served == stops[i].(arrival := served.arrival, departure := served.departure,
                                   interpolated := served.interpolated)
            && MovedBy(stops[i].arrival, served.arrival, d)
            && MovedBy(stops[i].departure, served.departure, d)
            && MovedBy(stops[i].interpolated, served.interpolated, d)
  {
    hide Follow, DelaySum, PlusOption, AllOrigins, MovedBy;
    AlwaysBalanced(stops, ms, catalogue, |ms|);
    ShiftIsDelaySum(stops, ms, catalogue, |ms|, p, i);
    var d := DelaySum(stops, ms, catalogue, |ms|, i);
    PlusMoves(stops[i].arrival, d);
    PlusMoves(stops[i].departure, d);
    PlusMoves(stops[i].interpolated, d);
  }
}
