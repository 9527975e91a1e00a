/** Which stop time update of a compact feed is the current one
    (backend/src/aspen/stop_time_logic.rs:3-98). */
module ClosestStop {
  import opened Wrappers
  import opened CompactCodec

  /** What the selection depends on: the two times as unsigned numbers, and whether the stop is skipped. */
  datatype Call = Call(arrival: Option<u64>, departure: Option<u64>, skipped: bool)

  function WrapU64(x: int): u64 {
    x % 0x1_0000_0000_0000_0000
  }

  function EventTime(e: Option<CompactEvent>, epoch: u64): Option<u64> {
    match e
    case None => None
    case Some(event) => MapOption(d => WrapU64(DecodeTime(d, epoch)), event.time)
  }

  function CallOf(u: CompactStopTimeUpdate, epoch: u64): Call {
    Call(EventTime(u.arrival, epoch), EventTime(u.departure, epoch), u.scheduleRelationship == Some(1))
  }

  /** Arrival if known, otherwise departure. */
  function Time(c: Call): Option<u64> {
    if c.arrival.Some? then c.arrival else c.departure
  }

  predicate Active(c: Call, now: u64) {
    !c.skipped && c.arrival.Some? && c.departure.Some? && c.arrival.value <= now <= c.departure.value
  }

  predicate Timed(c: Call) {
    !c.skipped && Time(c).Some?
  }

  predicate Future(c: Call, now: u64) {
    Timed(c) && Time(c).value > now
  }

  /** The first active call; else the earliest future one; else the latest timed one; the first of
      them on ties. */
  ghost predicate IsClosest(calls: seq<Call>, now: u64, i: int) {
    && 0 <= i < |calls|
    && if exists j :: 0 <= j < |calls| && Active(calls[j], now) then
         Active(calls[i], now) && forall j :: 0 <= j < i ==> !Active(calls[j], now)
       else if exists j :: 0 <= j < |calls| && Future(calls[j], now) then
         && Future(calls[i], now)
         && forall j :: 0 <= j < |calls| && Future(calls[j], now) ==>
              Time(calls[i]).value < Time(calls[j]).value || (Time(calls[i]).value == Time(calls[j]).value && i <= j)
       else
         && Timed(calls[i])
         && forall j :: 0 <= j < |calls| && Timed(calls[j]) ==>
              Time(calls[j]).value < Time(calls[i]).value || (Time(calls[j]).value == Time(calls[i]).value && i <= j)
  }

  function Calls(updates: seq<CompactStopTimeUpdate>, epoch: u64): (calls: seq<Call>)
    ensures |calls| == |updates| && forall i :: 0 <= i < |updates| ==> calls[i] == CallOf(updates[i], epoch)
  {
    MapSeq(u => CallOf(u, epoch), updates)
  }

  method FindClosestStopTimeUpdate(updates: seq<CompactStopTimeUpdate>, now: u64, epoch: u64)
    returns (found: Option<CompactStopTimeUpdate>)
    ensures found.Some? ==> exists i :: IsClosest(Calls(updates, epoch), now, i) && found.value == updates[i]
    ensures found.None? <==> forall i :: 0 <= i < |updates| ==> !Timed(CallOf(updates[i], epoch))
  {
    hide CallOf, IsClosest;
    ghost var calls := Calls(updates, epoch);
    var best: Option<int> := None;
    var bestTime: u64 := 0;
    for k := 0 to |updates|
      invariant forall j :: 0 <= j < k ==> !Active(calls[j], now)
      invariant best.None? ==> forall j :: 0 <= j < k ==> !Future(calls[j], now)
      invariant best.Some? ==>
                  && 0 <= best.value < k && Future(calls[best.value], now) && Time(calls[best.value]) == Some(bestTime)
                  && forall j :: 0 <= j < k && Future(calls[j], now) ==>
                       bestTime < Time(calls[j]).value || (bestTime == Time(calls[j]).value && best.value <= j)
    {
      var call := CallOf(updates[k], epoch);
      assert call == calls[k];
      if call.skipped {
        continue;
      }
      if call.arrival.Some? && call.departure.Some? && now >= call.arrival.value && now <= call.departure.value {
        assert Active(calls[k], now);
        ActiveIsClosest(calls, now, k);
        return Some(updates[k]);
      }
      var time := if call.arrival.Some? then call.arrival else call.departure;
      if time.Some? && time.value > now {
        if best.None? || time.value < bestTime {
          best, bestTime := Some(k), time.value;
        }
      }
    }
    if best.Some? {
      FutureIsClosest(calls, now, best.value);
      return Some(updates[best.value]);
    }
    for k := 0 to |updates|
      invariant best.None? ==> forall j :: 0 <= j < k ==> !Timed(calls[j])
      invariant best.Some? ==>
                  && 0 <= best.value < k && Timed(calls[best.value]) && Time(calls[best.value]) == Some(bestTime)
                  && forall j :: 0 <= j < k && Timed(calls[j]) ==>
                       Time(calls[j]).value < bestTime || (bestTime == Time(calls[j]).value && best.value <= j)
    {
      var call := CallOf(updates[k], epoch);
      assert call == calls[k];
      if call.skipped {
        continue;
      }
      var time := if call.arrival.Some? then call.arrival else call.departure;
      if time.Some? && (best.None? || time.value > bestTime) {
        best, bestTime := Some(k), time.value;
      }
    }
    if best.Some? {
      LatestIsClosest(calls, now, best.value);
      return Some(updates[best.value]);
    }
    return None;
  }

  lemma ActiveIsClosest(calls: seq<Call>, now: u64, i: nat)
    requires i < |calls| && Active(calls[i], now) && forall j :: 0 <= j < i ==> !Active(calls[j], now)
    ensures IsClosest(calls, now, i)
  {
  }

  lemma FutureIsClosest(calls: seq<Call>, now: u64, i: nat)
    requires i < |calls| && Future(calls[i], now) && forall j :: 0 <= j < |calls| ==> !Active(calls[j], now)
    requires forall j :: 0 <= j < |calls| && Future(calls[j], now) ==>
               Time(calls[i]).value < Time(calls[j]).value || (Time(calls[i]).value == Time(calls[j]).value && i <= j)
    ensures IsClosest(calls, now, i)
  {
  }

  lemma LatestIsClosest(calls: seq<Call>, now: u64, i: nat)
    requires i < |calls| && Timed(calls[i])
    requires forall j :: 0 <= j < |calls| ==> !Active(calls[j], now) && !Future(calls[j], now)
    requires forall j :: 0 <= j < |calls| && Timed(calls[j]) ==>
               Time(calls[j]).value < Time(calls[i]).value || (Time(calls[j]).value == Time(calls[i]).value && i <= j)
    ensures IsClosest(calls, now, i)
  {
  }

  /** The selection is unambiguous. */
  lemma ClosestIsUnique(calls: seq<Call>, now: u64, i: int, j: int)
    requires IsClosest(calls, now, i) && IsClosest(calls, now, j)
    ensures i == j
  {
  }

  /** In arrivals and departures: the closest call is not skipped and has a time, its arrival if known. Against
      any other such call j: if j is under way, so is it, and not later in the list; if j is still to come and
      it is not under way, it comes sooner, or as soon and not later in the list; and if neither, it is
      under way or to come, or later in time, or as late and not later in the list. */
  lemma ClosestMeans(calls: seq<Call>, now: u64, i: int, j: nat)
    requires IsClosest(calls, now, i)
    requires j < |calls| && !calls[j].skipped && (calls[j].arrival.Some? || calls[j].departure.Some?)
    ensures 0 <= i < |calls| && !calls[i].skipped && (calls[i].arrival.Some? || calls[i].departure.Some?)
    ensures var c, d := calls[i], calls[j];
            var time := if c.arrival.Some? then c.arrival.value else c.departure.value;
            var other := if d.arrival.Some? then d.arrival.value else d.departure.value;
            var here := c.arrival.Some? && c.departure.Some? && c.arrival.value <= now <= c.departure.value;
            var there := d.arrival.Some? && d.departure.Some? && d.arrival.value <= now <= d.departure.value;
            if there then here && i <= j
            else if here then true
            else if other > now then now < time && (time < other || (time == other && i <= j))
            else time > now || other < time || (other == time && i <= j)
  {
  }

  /** What the selector sees of a compacted update: the plain times if they are within 2^23 seconds of the
      epoch, and relationship 1 as skipped. */
  lemma CallMeans(u: StopTimeUpdate, epoch: u64)
    ensures var c := CallOf(FromStop(u, epoch), epoch);
            && (c.skipped <==> u.scheduleRelationship == Some(1))
            && (c.arrival.Some? <==> u.arrival.Some? && u.arrival.value.time.Some?)
            && (c.departure.Some? <==> u.departure.Some? && u.departure.value.time.Some?)
            && (c.arrival.Some? && 0 <= u.arrival.value.time.value
                && -0x80_0000 <= u.arrival.value.time.value - epoch < 0x80_0000 ==>
                  c.arrival.value == u.arrival.value.time.value)
            && (c.departure.Some? && 0 <= u.departure.value.time.value
                && -0x80_0000 <= u.departure.value.time.value - epoch < 0x80_0000 ==>
                  c.departure.value == u.departure.value.time.value)
  {
    hide EncodeTime, DecodeTime;
    if u.arrival.Some? && u.arrival.value.time.Some? { TimeSurvives(u.arrival.value.time.value, epoch); }
    if u.departure.Some? && u.departure.value.time.Some? { TimeSurvives(u.departure.value.time.value, epoch); }
  }

  lemma TimeSurvives(t: i64, epoch: u64)
    ensures 0 <= t && -0x80_0000 <= t - epoch < 0x80_0000 ==> WrapU64(DecodeTime(EncodeTime(t, epoch), epoch)) == t
  {
    hide EncodeTime, DecodeTime;
    if 0 <= t && -0x80_0000 <= t - epoch < 0x80_0000 { PlainRoundTrip(t, epoch); }
  }

  /** The same view of an update before compaction. */
  function OriginalCall(u: StopTimeUpdate): Call {
    Call(OriginalTime(u.arrival), OriginalTime(u.departure), u.scheduleRelationship == Some(1))
  }

  function OriginalTime(e: Option<Event>): Option<u64> {
    match e
    case None => None
    case Some(event) => MapOption(t => WrapU64(t), event.time)
  }

  /** The selector looks at the two event times only. */
  ghost predicate TimesFit(u: StopTimeUpdate, epoch: u64) {
    && (u.arrival.Some? && u.arrival.value.time.Some? ==> InWindow(u.arrival.value.time.value, epoch))
    && (u.departure.Some? && u.departure.value.time.Some? ==> InWindow(u.departure.value.time.value, epoch))
  }

  lemma CallSurvives(u: StopTimeUpdate, epoch: u64)
    requires TimesFit(u, epoch)
    ensures CallOf(FromStop(u, epoch), epoch) == OriginalCall(u)
  {
    hide EncodeTime, DecodeTime, InWindow, WrapU64;
    if u.arrival.Some? && u.arrival.value.time.Some? { TimeRoundTrip(u.arrival.value.time.value, epoch); }
    if u.departure.Some? && u.departure.value.time.Some? { TimeRoundTrip(u.departure.value.time.value, epoch); }
  }

  /** On a compacted trip whose event times lie in the codec window the selector picks the same stop as
      on the original times, whatever becomes of sequences and scheduled times. */
  lemma CompactionKeepsClosest(t: TripUpdate, epoch: u64, now: u64, i: int)
    requires forall k :: 0 <= k < |t.stopTimeUpdate| ==> TimesFit(t.stopTimeUpdate[k], epoch)
    ensures IsClosest(Calls(FromTrip(t, epoch).stopTimeUpdate, epoch), now, i)
       <==> IsClosest(MapSeq(u => OriginalCall(u), t.stopTimeUpdate), now, i)
  {
    hide CallOf, OriginalCall, FromStop, TimesFit;
    var compact := Calls(FromTrip(t, epoch).stopTimeUpdate, epoch);
    var original := MapSeq(u => OriginalCall(u), t.stopTimeUpdate);
    forall k | 0 <= k < |original| ensures compact[k] == original[k] {
      CallSurvives(t.stopTimeUpdate[k], epoch);
    }
    assert compact == original;
  }
}
