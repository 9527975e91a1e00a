/** Carry-over of old stop updates (backend/src/aspen/import_alpenrose.rs:1458-1546): the entries of
    the previous trip update whose stop the new feed does not mention are kept, marked as old. */
module StopCarryOver {
  import opened Wrappers

  /** data stands for the times, platform and other fields that the merge only copies. */
  datatype StopUpdate = StopUpdate(stopId: Option<string>, stale: bool, data: string)

  function StopIds(list: seq<StopUpdate>): set<string> {
    set u | u in list && u.stopId.Some? :: u.stopId.value
  }

  /** The entries with a stop id outside newIds, marked as old. */
  function Kept(previous: seq<StopUpdate>, newIds: set<string>): seq<StopUpdate> {
    if previous == [] then []
    else if previous[0].stopId.Some? && previous[0].stopId.value !in newIds then
      [previous[0].(stale := true)] + Kept(previous[1..], newIds)
    else Kept(previous[1..], newIds)
  }

  function Carry(previous: Option<seq<StopUpdate>>, feed: seq<StopUpdate>): seq<StopUpdate> {
    match previous
    case None => feed
    case Some(list) => Kept(list, StopIds(feed)) + feed
  }

  /** The entries for one stop, or those without a stop id, in order. */
  function For(list: seq<StopUpdate>, stop: Option<string>): seq<StopUpdate> {
    if list == [] then []
    else if list[0].stopId == stop then [list[0]] + For(list[1..], stop)
    else For(list[1..], stop)
  }

  function Aged(list: seq<StopUpdate>): seq<StopUpdate> {
    if list == [] then [] else [list[0].(stale := true)] + Aged(list[1..])
  }

  /** What is stored after a nonempty run of feeds, each carried over from the one before. */
  function Stored(feeds: seq<seq<StopUpdate>>): seq<StopUpdate>
    requires feeds != []
  {
    var n := |feeds| - 1;
    if n == 0 then feeds[0] else Carry(Some(Stored(feeds[..n])), feeds[n])
  }

  ghost predicate Mentions(feed: seq<StopUpdate>, stop: string) {
    stop in StopIds(feed)
  }

  ghost predicate AllNew(feed: seq<StopUpdate>) {
    forall u :: u in feed ==> !u.stale
  }

  lemma {:induction false} ForAppend(a: seq<StopUpdate>, b: seq<StopUpdate>, stop: Option<string>)
    ensures For(a + b, stop) == For(a, stop) + For(b, stop)
  {
    if a == [] {
      assert a + b == b;
    } else {
      assert (a + b)[0] == a[0] && (a + b)[1..] == a[1..] + b;
      ForAppend(a[1..], b, stop);
    }
  }

  lemma {:induction false} ForKept(list: seq<StopUpdate>, newIds: set<string>, stop: Option<string>)
    ensures For(Kept(list, newIds), stop)
         == if stop.Some? && stop.value !in newIds then Aged(For(list, stop)) else []
  {
    if list != [] {
      ForKept(list[1..], newIds, stop);
      var u, rest := list[0], Kept(list[1..], newIds);
      assert ([u.(stale := true)] + rest)[1..] == rest;
      assert ([u] + For(list[1..], stop))[1..] == For(list[1..], stop);
    }
  }

  lemma {:induction false} ForMentions(feed: seq<StopUpdate>, stop: string)
    ensures For(feed, Some(stop)) == [] <==> !Mentions(feed, stop)
  {
    if feed != [] {
      ForMentions(feed[1..], stop);
      assert forall u :: u in feed <==> u == feed[0] || u in feed[1..];
      if Mentions(feed[1..], stop) {
        var u :| u in feed[1..] && u.stopId == Some(stop);
        assert u in feed;
      }
    }
  }

  lemma {:induction false} AgedTwice(list: seq<StopUpdate>)
    ensures Aged(Aged(list)) == Aged(list)
  {
    if list != [] {
      assert Aged(list)[1..] == Aged(list[1..]);
      AgedTwice(list[1..]);
    }
  }

  /** One step: a stop keeps the entries of the feed that mentions it, and its older entries
      otherwise; entries without a stop id come from the feed alone. */
  lemma CarryFor(previous: seq<StopUpdate>, feed: seq<StopUpdate>, stop: Option<string>)
    ensures For(Carry(Some(previous), feed), stop) ==
              if stop.Some? && !Mentions(feed, stop.value) then Aged(For(previous, stop)) else For(feed, stop)
  {
    hide Kept, For, Aged, StopIds;
    ForKept(previous, StopIds(feed), stop);
    ForAppend(Kept(previous, StopIds(feed)), feed, stop);
    if stop.Some? { ForMentions(feed, stop.value); }
  }

  /** After any run of feeds a stop holds exactly the entries of the last feed that mentioned it,
      marked as old iff that feed is not the newest. */
  lemma {:induction false} StoredFor(feeds: seq<seq<StopUpdate>>, last: nat, stop: string)
    requires last < |feeds| && Mentions(feeds[last], stop)
    requires forall k :: last < k < |feeds| ==> !Mentions(feeds[k], stop)
    ensures For(Stored(feeds), Some(stop)) ==
              if last < |feeds| - 1 then Aged(For(feeds[last], Some(stop))) else For(feeds[last], Some(stop))
  {
    hide For, Carry, Aged, Mentions;
    var n := |feeds| - 1;
    if n > 0 {
      CarryFor(Stored(feeds[..n]), feeds[n], Some(stop));
      if last < n {
        StoredFor(feeds[..n], last, stop);
        AgedTwice(For(feeds[last], Some(stop)));
      }
    }
  }

  lemma {:induction false} ForMembers(list: seq<StopUpdate>, stop: Option<string>)
    ensures forall u :: u in For(list, stop) <==> u in list && u.stopId == stop
  {
    if list != [] {
      ForMembers(list[1..], stop);
      assert forall u :: u in list <==> u == list[0] || u in list[1..];
    }
  }

  lemma {:induction false} AgedAreStale(list: seq<StopUpdate>)
    ensures forall u :: u in Aged(list) ==> u.stale
  {
    if list != [] { AgedAreStale(list[1..]); }
  }

  /** Feeds arrive unmarked; in the store an entry is marked exactly when a newer feed left its stop out. */
  lemma StaleMeansLeftOut(feeds: seq<seq<StopUpdate>>, last: nat, stop: string, u: StopUpdate)
    requires last < |feeds| && Mentions(feeds[last], stop)
    requires forall k :: last < k < |feeds| ==> !Mentions(feeds[k], stop)
    requires AllNew(feeds[last])
    requires u in Stored(feeds) && u.stopId == Some(stop)
    ensures u.stale <==> last < |feeds| - 1
  {
    StoredFor(feeds, last, stop);
    ForMembers(Stored(feeds), Some(stop));
    ForMembers(feeds[last], Some(stop));
    AgedAreStale(For(feeds[last], Some(stop)));
  }

  /** A stop that no feed mentions has no entries. */
  lemma {:induction false} StoredForNone(feeds: seq<seq<StopUpdate>>, stop: string)
    requires feeds != [] && forall k :: 0 <= k < |feeds| ==> !Mentions(feeds[k], stop)
    ensures For(Stored(feeds), Some(stop)) == []
  {
    var n := |feeds| - 1;
    if n == 0 {
      ForMentions(feeds[0], stop);
    } else {
      CarryFor(Stored(feeds[..n]), feeds[n], Some(stop));
      StoredForNone(feeds[..n], stop);
    }
  }

  /** Entries without a stop id are never carried over. */
  lemma StoredWithoutId(feeds: seq<seq<StopUpdate>>)
    requires feeds != []
    ensures For(Stored(feeds), None) == For(feeds[|feeds| - 1], None)
  {
    var n := |feeds| - 1;
    if n > 0 { CarryFor(Stored(feeds[..n]), feeds[n], None); }
  }

  lemma {:induction false} KeptAppend(a: seq<StopUpdate>, b: seq<StopUpdate>, newIds: set<string>)
    ensures Kept(a + b, newIds) == Kept(a, newIds) + Kept(b, newIds)
  {
    if a == [] {
      assert a + b == b;
    } else {
      assert (a + b)[1..] == a[1..] + b;
      KeptAppend(a[1..], b, newIds);
    }
  }

  lemma {:induction false} KeptTwice(list: seq<StopUpdate>, newIds: set<string>)
    ensures Kept(Kept(list, newIds), newIds) == Kept(list, newIds)
  {
    if list != [] {
      KeptTwice(list[1..], newIds);
      var u, rest := list[0], Kept(list[1..], newIds);
      assert ([u.(stale := true)] + rest)[1..] == rest;
    }
  }

  lemma {:induction false} KeptNone(list: seq<StopUpdate>, newIds: set<string>)
    requires StopIds(list) <= newIds
    ensures Kept(list, newIds) == []
  {
    if list != [] {
      assert list[0] in list;
      assert forall u :: u in list[1..] ==> u in list;
      KeptNone(list[1..], newIds);
    }
  }

  /** Applying the same feed again changes nothing. */
  lemma CarryAgain(previous: Option<seq<StopUpdate>>, feed: seq<StopUpdate>)
    ensures Carry(Some(Carry(previous, feed)), feed) == Carry(previous, feed)
  {
    hide Kept, StopIds;
    var ids := StopIds(feed);
    KeptNone(feed, ids);
    assert [] + feed == feed;
    if previous.Some? {
      KeptAppend(Kept(previous.value, ids), feed, ids);
      KeptTwice(previous.value, ids);
      assert Kept(previous.value, ids) + [] == Kept(previous.value, ids);
    }
  }
}
