/** The compact form of realtime feeds: event times as wrapped 24-bit offsets from a reference epoch,
    stop sequences in 16 bits (backend/src/compact_formats.rs:11-256). Arithmetic wraps. */
module CompactCodec {
  import opened Wrappers

  type u16 = n: int | 0 <= n < 0x1_0000
  type u32 = n: int | 0 <= n < 0x1_0000_0000
  type u64 = n: int | 0 <= n < 0x1_0000_0000_0000_0000
  type i24 = n: int | -0x80_0000 <= n < 0x80_0000
  type i32 = n: int | -0x8000_0000 <= n < 0x8000_0000
  type i64 = n: int | -0x8000_0000_0000_0000 <= n < 0x8000_0000_0000_0000

  function WrapI24(x: int): i24 {
    (x + 0x80_0000) % 0x100_0000 - 0x80_0000
  }

  function WrapI32(x: int): i32 {
    (x + 0x8000_0000) % 0x1_0000_0000 - 0x8000_0000
  }

  function WrapI64(x: int): i64 {
    (x + 0x8000_0000_0000_0000) % 0x1_0000_0000_0000_0000 - 0x8000_0000_0000_0000
  }

  function EncodeTime(t: i64, epoch: u64): i24 {
    WrapI24(WrapI32(WrapI64(t - WrapI64(epoch))))
  }

  function DecodeTime(d: i24, epoch: u64): i64 {
    WrapI64(WrapI64(epoch) + d)
  }

  // ---- Messages; the fields named rest are only copied ----

  datatype Event = Event(time: Option<i64>, scheduledTime: Option<i64>, rest: string)
  datatype CompactEvent = CompactEvent(time: Option<i24>, scheduledTime: Option<i24>, rest: string)

  datatype StopTimeUpdate =
    StopTimeUpdate(stopSequence: Option<u32>, stopId: Option<string>, arrival: Option<Event>, departure: Option<Event>,
                   scheduleRelationship: Option<int>, rest: string)
  datatype CompactStopTimeUpdate =
    CompactStopTimeUpdate(stopSequence: Option<u16>, stopId: Option<string>, arrival: Option<CompactEvent>,
                          departure: Option<CompactEvent>, scheduleRelationship: Option<int>, rest: string)

  datatype TripUpdate = TripUpdate(stopTimeUpdate: seq<StopTimeUpdate>, rest: string)
  datatype CompactTripUpdate = CompactTripUpdate(stopTimeUpdate: seq<CompactStopTimeUpdate>, rest: string)

  datatype Entity = Entity(id: string, tripUpdate: Option<TripUpdate>, rest: string)
  datatype CompactEntity = CompactEntity(id: string, tripUpdate: Option<CompactTripUpdate>, rest: string)

  datatype Header = Header(timestamp: Option<u64>, rest: string)

  datatype FeedMessage = FeedMessage(header: Header, entity: seq<Entity>)
  datatype CompactFeedMessage = CompactFeedMessage(header: Header, entity: seq<CompactEntity>, referenceEpoch: u64)

  function MapOption<A, B>(f: A -> B, x: Option<A>): Option<B> {
    match x
    case None => None
    case Some(v) => Some(f(v))
  }

  function MapSeq<A, B>(f: A -> B, s: seq<A>): (r: seq<B>)
    ensures |r| == |s| && forall i :: 0 <= i < |s| ==> r[i] == f(s[i])
  {
    seq(|s|, i requires 0 <= i < |s| => f(s[i]))
  }

  function FromEvent(e: Event, epoch: u64): CompactEvent {
    CompactEvent(MapOption(t => EncodeTime(t, epoch), e.time), MapOption(t => EncodeTime(t, epoch), e.scheduledTime),
                 e.rest)
  }

  function ToEvent(e: CompactEvent, epoch: u64): Event {
    Event(MapOption(d => DecodeTime(d, epoch), e.time), MapOption(d => DecodeTime(d, epoch), e.scheduledTime), e.rest)
  }

  function FromStop(u: StopTimeUpdate, epoch: u64): CompactStopTimeUpdate {
    CompactStopTimeUpdate(MapOption((s: u32) => s % 0x1_0000, u.stopSequence), u.stopId,
                          MapOption(e => FromEvent(e, epoch), u.arrival),
                          MapOption(e => FromEvent(e, epoch), u.departure),
                          u.scheduleRelationship, u.rest)
  }

  function ToStop(u: CompactStopTimeUpdate, epoch: u64): StopTimeUpdate {
    StopTimeUpdate(MapOption((s: u16) => s as u32, u.stopSequence), u.stopId,
                   MapOption(e => ToEvent(e, epoch), u.arrival), MapOption(e => ToEvent(e, epoch), u.departure),
                   u.scheduleRelationship, u.rest)
  }

  function FromTrip(t: TripUpdate, epoch: u64): CompactTripUpdate {
    CompactTripUpdate(MapSeq(u => FromStop(u, epoch), t.stopTimeUpdate), t.rest)
  }

  function ToTrip(t: CompactTripUpdate, epoch: u64): TripUpdate {
    TripUpdate(MapSeq(u => ToStop(u, epoch), t.stopTimeUpdate), t.rest)
  }

  function FromEntity(e: Entity, epoch: u64): CompactEntity {
    CompactEntity(e.id, MapOption(t => FromTrip(t, epoch), e.tripUpdate), e.rest)
  }

  function ToEntity(e: CompactEntity, epoch: u64): Entity {
    Entity(e.id, MapOption(t => ToTrip(t, epoch), e.tripUpdate), e.rest)
  }

  function Stamp(header: Header): u64 {
    match header.timestamp
    case None => 0
    case Some(t) => t
  }

  /** The header timestamp, or 0, rounded down to a multiple of 65536. */
  function EpochOf(header: Header): u64 {
    Stamp(header) / 65536 * 65536
  }

  function FromFeed(m: FeedMessage): CompactFeedMessage {
    var epoch := EpochOf(m.header);
    CompactFeedMessage(m.header, MapSeq(e => FromEntity(e, epoch), m.entity), epoch)
  }

  function ToFeed(m: CompactFeedMessage): FeedMessage {
    FeedMessage(m.header, MapSeq(e => ToEntity(e, m.referenceEpoch), m.entity))
  }

  // ---- One time ----

  lemma WrapI24By(x: int) returns (k: int)
    ensures WrapI24(x) == x + k * 0x100_0000
  {
    k := -((x + 0x80_0000) / 0x100_0000);
  }

  lemma WrapI32By(x: int) returns (k: int)
    ensures WrapI32(x) == x + k * 0x1_0000_0000
  {
    k := -((x + 0x8000_0000) / 0x1_0000_0000);
  }

  lemma WrapI64By(x: int) returns (k: int)
    ensures WrapI64(x) == x + k * 0x1_0000_0000_0000_0000
  {
    k := -((x + 0x8000_0000_0000_0000) / 0x1_0000_0000_0000_0000);
  }

  lemma WrapI24Shift(x: int, k: int)
    ensures WrapI24(x + k * 0x100_0000) == WrapI24(x)
  {
    var q := (x + 0x80_0000) / 0x100_0000;
    assert x + 0x80_0000 + k * 0x100_0000 == (q + k) * 0x100_0000 + (x + 0x80_0000) % 0x100_0000;
  }

  lemma WrapI24Id(x: int)
    ensures -0x80_0000 <= x < 0x80_0000 ==> WrapI24(x) == x
  {
  }

  lemma WrapI64Id(x: i64)
    ensures WrapI64(x) == x
  {
  }

  lemma WrapI64Shift(x: int, k: int)
    ensures WrapI64(x + k * 0x1_0000_0000_0000_0000) == WrapI64(x)
  {
    var q := (x + 0x8000_0000_0000_0000) / 0x1_0000_0000_0000_0000;
    assert x + 0x8000_0000_0000_0000 + k * 0x1_0000_0000_0000_0000
        == (q + k) * 0x1_0000_0000_0000_0000 + (x + 0x8000_0000_0000_0000) % 0x1_0000_0000_0000_0000;
  }

  /** The truncation to 32 bits in between makes no difference. */
  lemma WrapsCollapse(x: int)
    ensures WrapI24(WrapI32(x)) == WrapI24(x)
  {
    hide WrapI24, WrapI32;
    var k := WrapI32By(x);
    WrapI24Shift(x, k * 0x100);
  }

  /** How far t lies after the epoch, as the subtraction computes it. */
  function Offset(t: i64, epoch: u64): i64 {
    WrapI64(t - WrapI64(epoch))
  }

  lemma OffsetBack(t: i64, epoch: u64)
    ensures WrapI64(WrapI64(epoch) + Offset(t, epoch)) == t
  {
    WrapI64Id(t);
    hide WrapI64;
    var k := WrapI64By(t - WrapI64(epoch));
    WrapI64Shift(t, k);
  }

  lemma EncodeIsWrap(t: i64, epoch: u64)
    ensures EncodeTime(t, epoch) == WrapI24(Offset(t, epoch))
  {
    WrapsCollapse(Offset(t, epoch));
  }

  /** A decoded time agrees with the original modulo 2^24, for every time and epoch. */
  lemma DecodedIsCongruent(t: i64, epoch: u64)
    ensures (DecodeTime(EncodeTime(t, epoch), epoch) - t) % 0x100_0000 == 0
  {
    hide WrapI24, WrapI32, WrapI64;
    EncodeIsWrap(t, epoch);
    var a := WrapI64By(t - WrapI64(epoch));
    var b := WrapI24By(Offset(t, epoch));
    var c := WrapI64By(WrapI64(epoch) + EncodeTime(t, epoch));
    assert DecodeTime(EncodeTime(t, epoch), epoch) - t == (a * 0x100_0000_0000 + b + c * 0x100_0000_0000) * 0x100_0000;
  }

  ghost predicate InWindow(t: i64, epoch: u64) {
    -0x80_0000 <= Offset(t, epoch) < 0x80_0000
  }

  /** A time survives exactly when its offset from the epoch fits in 24 bits. */
  lemma TimeRoundTrip(t: i64, epoch: u64)
    ensures DecodeTime(EncodeTime(t, epoch), epoch) == t <==> InWindow(t, epoch)
  {
    hide WrapI64, WrapI32, WrapI24, Offset, EncodeTime;
    var x, d := Offset(t, epoch), EncodeTime(t, epoch);
    EncodeIsWrap(t, epoch);
    OffsetBack(t, epoch);
    WrapI24Id(x);
    if DecodeTime(d, epoch) == t {
      WrapsOnto(WrapI64(epoch), x, d);
    }
  }

  /** Adding different offsets to the same epoch cannot give the same time. */
  lemma WrapsOnto(epoch: int, x: i64, y: i64)
    requires WrapI64(epoch + x) == WrapI64(epoch + y)
    ensures x == y
  {
    var a := WrapI64By(epoch + x);
    var b := WrapI64By(epoch + y);
  }

  lemma CompactAgain(d: i24, epoch: u64)
    ensures EncodeTime(DecodeTime(d, epoch), epoch) == d
  {
    hide WrapI64, WrapI32;
    var t := DecodeTime(d, epoch);
    OffsetBack(t, epoch);
    WrapsOnto(WrapI64(epoch), Offset(t, epoch), d);
    EncodeIsWrap(t, epoch);
  }

  /** The cast of a large epoch disappears in the wrapping difference. */
  lemma OffsetIsDifference(t: i64, epoch: u64)
    requires -0x8000_0000_0000_0000 <= t - epoch < 0x8000_0000_0000_0000
    ensures Offset(t, epoch) == t - epoch
  {
    var k := WrapI64By(epoch);
    WrapI64Id(t - epoch);
    hide WrapI64;
    WrapI64Shift(t - epoch, -k);
    assert t - WrapI64(epoch) == t - epoch + (-k) * 0x1_0000_0000_0000_0000;
  }

  /** In plain numbers: a time less than 2^63 from the epoch is encoded as the distance, and survives, exactly
      if that distance fits in 24 bits. */
  lemma PlainRoundTrip(t: i64, epoch: u64)
    requires -0x8000_0000_0000_0000 <= t - epoch < 0x8000_0000_0000_0000
    ensures DecodeTime(EncodeTime(t, epoch), epoch) == t <==> -0x80_0000 <= t - epoch < 0x80_0000
    ensures EncodeTime(t, epoch) == t - epoch <==> -0x80_0000 <= t - epoch < 0x80_0000
  {
    hide Offset, EncodeTime, DecodeTime, WrapI24, WrapI32;
    TimeRoundTrip(t, epoch);
    OffsetIsDifference(t, epoch);
    EncodeIsWrap(t, epoch);
    WrapI24Id(t - epoch);
  }

  /** The epoch is the one multiple of 65536 within 65536 seconds up to the timestamp, which counts as 0 if
      it is absent. */
  lemma EpochIs(header: Header)
    ensures EpochOf(header) % 65536 == 0
    ensures header.timestamp.Some? ==> EpochOf(header) <= header.timestamp.value < EpochOf(header) + 65536
    ensures header.timestamp.None? ==> EpochOf(header) == 0
    ensures FromFeed(FeedMessage(header, [])).referenceEpoch == EpochOf(header)
  {
    var stamp := Stamp(header);
    assert stamp == stamp / 65536 * 65536 + stamp % 65536;
  }

  /** Times from 2^23 seconds before the header timestamp until 2^23 - 65536 after it are inside the
      window, whatever the timestamp. */
  lemma WindowAroundTimestamp(header: Header, t: i64)
    requires Stamp(header) - 0x80_0000 <= t <= Stamp(header) + 0x80_0000 - 65536
    ensures InWindow(t, EpochOf(header))
  {
    hide Offset;
    var epoch := EpochOf(header);
    assert epoch <= Stamp(header) < epoch + 65536;
    OffsetIsDifference(t, epoch);
  }

  // ---- Whole messages ----

  ghost predicate EventFits(e: Event, epoch: u64) {
    && (e.time.Some? ==> InWindow(e.time.value, epoch))
    && (e.scheduledTime.Some? ==> InWindow(e.scheduledTime.value, epoch))
  }

  ghost predicate StopFits(u: StopTimeUpdate, epoch: u64) {
    && (u.stopSequence.Some? ==> u.stopSequence.value < 0x1_0000)
    && (u.arrival.Some? ==> EventFits(u.arrival.value, epoch))
    && (u.departure.Some? ==> EventFits(u.departure.value, epoch))
  }

  ghost predicate TripFits(t: TripUpdate, epoch: u64) {
    forall i :: 0 <= i < |t.stopTimeUpdate| ==> StopFits(t.stopTimeUpdate[i], epoch)
  }

  ghost predicate FeedFits(m: FeedMessage) {
    forall i :: 0 <= i < |m.entity| && m.entity[i].tripUpdate.Some? ==>
      TripFits(m.entity[i].tripUpdate.value, EpochOf(m.header))
  }

  lemma EventRoundTrip(e: Event, epoch: u64)
    ensures ToEvent(FromEvent(e, epoch), epoch) == e <==> EventFits(e, epoch)
  {
    hide EncodeTime, DecodeTime, InWindow;
    if e.time.Some? { TimeRoundTrip(e.time.value, epoch); }
    if e.scheduledTime.Some? { TimeRoundTrip(e.scheduledTime.value, epoch); }
  }

  lemma StopRoundTrip(u: StopTimeUpdate, epoch: u64)
    ensures ToStop(FromStop(u, epoch), epoch) == u <==> StopFits(u, epoch)
    ensures u.stopSequence.Some? ==>
              var back := ToStop(FromStop(u, epoch), epoch).stopSequence;
              back.Some? && 0 <= back.value < 0x1_0000 && (u.stopSequence.value - back.value) % 0x1_0000 == 0
  {
    hide ToEvent, FromEvent, EventFits;
    if u.arrival.Some? { EventRoundTrip(u.arrival.value, epoch); }
    if u.departure.Some? { EventRoundTrip(u.departure.value, epoch); }
  }

  lemma TripRoundTrip(t: TripUpdate, epoch: u64)
    ensures ToTrip(FromTrip(t, epoch), epoch) == t <==> TripFits(t, epoch)
  {
    hide ToStop, FromStop, StopFits;
    var back := ToTrip(FromTrip(t, epoch), epoch);
    forall i | 0 <= i < |t.stopTimeUpdate|
      ensures back.stopTimeUpdate[i] == t.stopTimeUpdate[i] <==> StopFits(t.stopTimeUpdate[i], epoch)
    {
      StopRoundTrip(t.stopTimeUpdate[i], epoch);
    }
    if TripFits(t, epoch) { assert back.stopTimeUpdate == t.stopTimeUpdate; }
  }

  /** Compacting loses nothing exactly when every stop sequence fits 16 bits and every event time lies
      in the window around the reference epoch. */
  lemma FeedRoundTrip(m: FeedMessage)
    ensures ToFeed(FromFeed(m)) == m <==> FeedFits(m)
  {
    hide ToTrip, FromTrip, TripFits, EpochOf;
    var back, epoch := ToFeed(FromFeed(m)), EpochOf(m.header);
    forall i | 0 <= i < |m.entity|
      ensures back.entity[i] == m.entity[i] <==>
                (m.entity[i].tripUpdate.Some? ==> TripFits(m.entity[i].tripUpdate.value, epoch))
    {
      assert back.entity[i] == ToEntity(FromEntity(m.entity[i], epoch), epoch);
      if m.entity[i].tripUpdate.Some? { TripRoundTrip(m.entity[i].tripUpdate.value, epoch); }
    }
    if FeedFits(m) { assert back.entity == m.entity; }
  }

  lemma EventCompactAgain(e: CompactEvent, epoch: u64)
    ensures FromEvent(ToEvent(e, epoch), epoch) == e
  {
    hide EncodeTime, DecodeTime;
    if e.time.Some? { CompactAgain(e.time.value, epoch); }
    if e.scheduledTime.Some? { CompactAgain(e.scheduledTime.value, epoch); }
  }

  lemma StopCompactAgain(u: CompactStopTimeUpdate, epoch: u64)
    ensures FromStop(ToStop(u, epoch), epoch) == u
  {
    hide FromEvent, ToEvent;
    if u.arrival.Some? { EventCompactAgain(u.arrival.value, epoch); }
    if u.departure.Some? { EventCompactAgain(u.departure.value, epoch); }
  }

  lemma TripCompactAgain(t: CompactTripUpdate, epoch: u64)
    ensures FromTrip(ToTrip(t, epoch), epoch) == t
  {
    hide ToStop, FromStop;
    var again := FromTrip(ToTrip(t, epoch), epoch);
    forall i | 0 <= i < |t.stopTimeUpdate| ensures again.stopTimeUpdate[i] == t.stopTimeUpdate[i] {
      StopCompactAgain(t.stopTimeUpdate[i], epoch);
    }
    assert again.stopTimeUpdate == t.stopTimeUpdate;
  }

  /** Decoding and compacting again reproduces the compact message, whatever was lost the first time. */
  lemma FeedCompactAgain(m: FeedMessage)
    ensures FromFeed(ToFeed(FromFeed(m))) == FromFeed(m)
  {
    hide ToTrip, FromTrip, EpochOf;
    var compact, epoch := FromFeed(m), EpochOf(m.header);
    var again := FromFeed(ToFeed(compact));
    forall i | 0 <= i < |m.entity| ensures again.entity[i] == compact.entity[i] {
      assert again.entity[i] == FromEntity(ToEntity(compact.entity[i], epoch), epoch);
      if compact.entity[i].tripUpdate.Some? { TripCompactAgain(compact.entity[i].tripUpdate.value, epoch); }
    }
    assert again.entity == compact.entity;
  }
}
