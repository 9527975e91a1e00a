/** The gate that decides whether a realtime submission carries new data
    (backend/src/aspen/main.rs:781-923, 1074-1204, 1917-1971), for submissions taken one at a time. */
module SubmissionGate {
  import opened Wrappers
  import opened Counting

  datatype Kind = VehiclePositions | TripUpdates | Alerts

  type Key = (string, Kind)

  datatype Message = Message(timestamp: Option<nat>, payload: string)

  /** The two handlers differ in which feeds and chateaux they treat as always new. */
  datatype Handler = Compressed | Plain

  datatype Submission = Submission(handler: Handler, chateau: string, feed: string,
                                   vehicles: Option<Message>, trips: Option<Message>, alerts: Option<Message>)

  /** Recorded timestamps, stored messages, the work queue and the set of chateaux listed for it. */
  datatype Memory = Memory(timestamps: map<Key, nat>, messages: map<Key, Message>, queue: seq<string>,
                           listed: set<string>)

  function Part(sub: Submission, kind: Kind): Option<Message> {
    match kind
    case VehiclePositions => sub.vehicles
    case TripUpdates => sub.trips
    case Alerts => sub.alerts
  }

  predicate Contains(s: string, part: string) {
    exists i :: 0 <= i <= |s| && part <= s[i..]
  }

  /** A substring, anywhere. */
  lemma ContainsMiddle(a: string, part: string, b: string)
    ensures Contains(a + part + b, part)
  {
    var s := a + part + b;
    assert s[|a|..] == part + b;
  }

  lemma MiddleOf(s: string, part: string) returns (a: string, b: string)
    requires Contains(s, part)
    ensures s == a + part + b
  {
    var i :| 0 <= i <= |s| && part <= s[i..];
    a, b := s[..i], s[i..][|part|..];
    assert s == s[..i] + s[i..] && s[i..] == part + b;
  }

  predicate ForcedNew(sub: Submission) {
    sub.handler.Compressed? && Contains(sub.feed, "unwire")
  }

  const UCI := "uc~irvine~anteater~express"

  predicate AlwaysWrites(sub: Submission) {
    match sub.handler
    case Compressed => sub.chateau == "dallasarearapidtransit" || sub.chateau == "fortworthtransportationauthority"
    case Plain => sub.chateau == UCI
  }

  predicate AlwaysQueues(sub: Submission) {
    && sub.handler.Compressed?
    && (sub.chateau == "santacruzmetro" || sub.chateau == "dallasarearapidtransit"
        || sub.chateau == "fortworthtransportationauthority")
  }

  /** A message without a usable timestamp is always news; otherwise the timestamp must differ. */
  predicate IsNews(timestamps: map<Key, nat>, key: Key, m: Message) {
    m.timestamp == None || m.timestamp == Some(0) || key !in timestamps || timestamps[key] != m.timestamp.value
  }

  ghost predicate HasNews(timestamps: map<Key, nat>, sub: Submission) {
    exists kind :: Part(sub, kind).Some? && IsNews(timestamps, (sub.feed, kind), Part(sub, kind).value)
  }

  /** The part of the submission stored under a key, if any. */
  function PartFor(sub: Submission, key: Key): Option<Message> {
    if key.0 == sub.feed then Part(sub, key.1) else None
  }

  predicate Usable(m: Message) {
    m.timestamp.Some? && m.timestamp.value != 0
  }

  /** The map holds the new value under this key, or what it held before if there is none. */
  ghost predicate Updated<V>(before: map<Key, V>, key: Key, value: Option<V>, after: map<Key, V>) {
    if value.Some? then key in after && after[key] == value.value
    else (key in after <==> key in before) && (key in before ==> after[key] == before[key])
  }

  function UsableTimestamp(part: Option<Message>): Option<nat> {
    if part.Some? && Usable(part.value) then part.value.timestamp else None
  }

  /** Timestamps after the submission: the usable ones among its parts are recorded. */
  ghost predicate Recorded(before: map<Key, nat>, sub: Submission, after: map<Key, nat>) {
    forall key: Key :: Updated(before, key, UsableTimestamp(PartFor(sub, key)), after)
  }

  /** Messages after a submission that is written: each of its parts replaces what was stored. */
  ghost predicate Written(before: map<Key, Message>, sub: Submission, after: map<Key, Message>) {
    forall key: Key :: Updated(before, key, PartFor(sub, key), after)
  }

  ghost predicate Submitted(before: Memory, sub: Submission, after: Memory) {
    && Recorded(before.timestamps, sub, after.timestamps)
    && (if HasNews(before.timestamps, sub) || ForcedNew(sub) || AlwaysWrites(sub)
        then Written(before.messages, sub, after.messages)
        else after.messages == before.messages)
    && if HasNews(before.timestamps, sub) || ForcedNew(sub) || AlwaysQueues(sub)
       then Woken(before, sub.chateau, after)
       else after.queue == before.queue && after.listed == before.listed
  }

  /** The chateau is listed, and queued unless it was listed before. */
  ghost predicate Woken(before: Memory, chateau: string, after: Memory) {
    && after.listed == before.listed + {chateau}
    && after.queue == if chateau in before.listed then before.queue else before.queue + [chateau]
  }

  function Saved(timestamps: map<Key, nat>, key: Key, part: Option<Message>): map<Key, nat> {
    if part.Some? && Usable(part.value) then timestamps[key := part.value.timestamp.value] else timestamps
  }

  function Put(messages: map<Key, Message>, key: Key, part: Option<Message>): map<Key, Message> {
    if part.Some? then messages[key := part.value] else messages
  }

  function SavedAll(timestamps: map<Key, nat>, sub: Submission): map<Key, nat> {
    Saved(Saved(Saved(timestamps, (sub.feed, VehiclePositions), sub.vehicles), (sub.feed, TripUpdates), sub.trips),
          (sub.feed, Alerts), sub.alerts)
  }

  function PutAll(messages: map<Key, Message>, sub: Submission): map<Key, Message> {
    Put(Put(Put(messages, (sub.feed, VehiclePositions), sub.vehicles), (sub.feed, TripUpdates), sub.trips),
        (sub.feed, Alerts), sub.alerts)
  }

  lemma AllParts(before: Memory, sub: Submission)
    ensures Recorded(before.timestamps, sub, SavedAll(before.timestamps, sub))
    ensures Written(before.messages, sub, PutAll(before.messages, sub))
  {
    forall key: Key
      ensures Updated(before.timestamps, key, UsableTimestamp(PartFor(sub, key)), SavedAll(before.timestamps, sub))
      ensures Updated(before.messages, key, PartFor(sub, key), PutAll(before.messages, sub))
    {
      match key.1 { case VehiclePositions => case TripUpdates => case Alerts => }
    }
  }

  /** Recording one part does not affect the check of a part of another kind. */
  lemma SavedElsewhere(timestamps: map<Key, nat>, key: Key, part: Option<Message>, other: Key, m: Message)
    requires key != other
    ensures IsNews(Saved(timestamps, key, part), other, m) <==> IsNews(timestamps, other, m)
  {
  }

  class AspenServer {
    var timestamps: map<Key, nat>
    var messages: map<Key, Message>
    var queue: seq<string>
    var listed: set<string>

    constructor ()
      ensures State() == Memory(map[], map[], [], {}) && QueueOk()
    {
      timestamps, messages, queue, listed := map[], map[], [], {};
    }

    ghost function State(): Memory
      reads this
    {
      Memory(timestamps, messages, queue, listed)
    }

    /** No chateau waits twice, and every waiting one is listed. */
    ghost predicate QueueOk()
      reads this
    {
      Distinct(queue) && forall c :: c in queue ==> c in listed
    }

    method ContainsNewData(feed: string, kind: Kind, m: Message) returns (news: bool)
      ensures news <==> IsNews(timestamps, (feed, kind), m)
    {
      news := false;
      var key := (feed, kind);
      if m.timestamp == None || m.timestamp == Some(0) {
        news := true;
      } else if key in timestamps {
        if timestamps[key] != m.timestamp.value {
          news := true;
        }
      } else {
        news := true;
      }
    }

    method SaveTimestamps(feed: string, kind: Kind, m: Message)
      modifies this`timestamps
      ensures timestamps == Saved(old(timestamps), (feed, kind), Some(m))
    {
      if Usable(m) {
        timestamps := timestamps[(feed, kind) := m.timestamp.value];
      }
    }

    method Enqueue(chateau: string)
      requires QueueOk()
      modifies this`queue, this`listed
      ensures QueueOk()
      ensures Woken(old(State()), chateau, State())
    {
      if chateau !in listed {
        listed := listed + {chateau};
        queue := queue + [chateau];
      }
    }

    /** Each part is checked only while nothing new was found, but always recorded. */
    method Inspect(sub: Submission) returns (newData: bool)
      modifies this`timestamps
      ensures newData <==> HasNews(old(timestamps), sub)
      ensures timestamps == SavedAll(old(timestamps), sub)
    {
      hide IsNews, HasNews, Saved;
      ghost var before := timestamps;
      ghost var one := Saved(before, (sub.feed, VehiclePositions), sub.vehicles);
      ghost var two := Saved(one, (sub.feed, TripUpdates), sub.trips);
      newData := false;
      NothingSaved(before, (sub.feed, VehiclePositions));
      if sub.vehicles.Some? {
        newData := ContainsNewData(sub.feed, VehiclePositions, sub.vehicles.value);
        SaveTimestamps(sub.feed, VehiclePositions, sub.vehicles.value);
      }
      assert timestamps == one;
      NothingSaved(one, (sub.feed, TripUpdates));
      if sub.trips.Some? {
        SavedElsewhere(before, (sub.feed, VehiclePositions), sub.vehicles, (sub.feed, TripUpdates), sub.trips.value);
        if !newData {
          newData := ContainsNewData(sub.feed, TripUpdates, sub.trips.value);
        }
        SaveTimestamps(sub.feed, TripUpdates, sub.trips.value);
      }
      assert timestamps == two;
      NothingSaved(two, (sub.feed, Alerts));
      if sub.alerts.Some? {
        SavedElsewhere(before, (sub.feed, VehiclePositions), sub.vehicles, (sub.feed, Alerts), sub.alerts.value);
        SavedElsewhere(one, (sub.feed, TripUpdates), sub.trips, (sub.feed, Alerts), sub.alerts.value);
        if !newData {
          newData := ContainsNewData(sub.feed, Alerts, sub.alerts.value);
        }
        SaveTimestamps(sub.feed, Alerts, sub.alerts.value);
      }
      NewsOfParts(before, sub);
    }

    method Submit(sub: Submission)
      requires QueueOk()
      modifies this
      ensures QueueOk()
      ensures Submitted(old(State()), sub, State())
    {
      hide HasNews, Recorded, Written, SavedAll, PutAll, ForcedNew, AlwaysWrites, AlwaysQueues, Distinct;
      AllParts(State(), sub);
      var newData := Inspect(sub);
      if ForcedNew(sub) {
        newData := true;
      }
      if newData || AlwaysWrites(sub) {
        Store(sub);
      }
      if newData || AlwaysQueues(sub) {
        Enqueue(sub.chateau);
      }
    }

    method Store(sub: Submission)
      modifies this`messages
      ensures messages == PutAll(old(messages), sub)
    {
      if sub.vehicles.Some? { messages := messages[(sub.feed, VehiclePositions) := sub.vehicles.value]; }
      if sub.trips.Some? { messages := messages[(sub.feed, TripUpdates) := sub.trips.value]; }
      if sub.alerts.Some? { messages := messages[(sub.feed, Alerts) := sub.alerts.value]; }
    }
  }

  lemma NothingSaved(timestamps: map<Key, nat>, key: Key)
    ensures Saved(timestamps, key, None) == timestamps
  {
  }

  lemma NewsOfParts(timestamps: map<Key, nat>, sub: Submission)
    ensures HasNews(timestamps, sub) <==>
              || (sub.vehicles.Some? && IsNews(timestamps, (sub.feed, VehiclePositions), sub.vehicles.value))
              || (sub.trips.Some? && IsNews(timestamps, (sub.feed, TripUpdates), sub.trips.value))
              || (sub.alerts.Some? && IsNews(timestamps, (sub.feed, Alerts), sub.alerts.value))
  {
    assert Part(sub, VehiclePositions) == sub.vehicles && Part(sub, TripUpdates) == sub.trips;
    assert Part(sub, Alerts) == sub.alerts;
    if HasNews(timestamps, sub) {
      var kind :| Part(sub, kind).Some? && IsNews(timestamps, (sub.feed, kind), Part(sub, kind).value);
      match kind { case VehiclePositions => case TripUpdates => case Alerts => }
    }
  }

  // ---- Sequences of submissions ----

  /** A recorded timestamp belongs to a stored message that carries it, or carries none. */
  ghost predicate Consistent(mem: Memory) {
    forall key :: key in mem.timestamps ==>
      && key in mem.messages
      && (mem.messages[key].timestamp == Some(mem.timestamps[key]) || mem.messages[key].timestamp == None
          || mem.messages[key].timestamp == Some(0))
  }

  ghost predicate History(memories: seq<Memory>, subs: seq<Submission>) {
    && |memories| == |subs| + 1 && memories[0] == Memory(map[], map[], [], {})
    && forall i, j {:trigger subs[i], memories[j]} :: 0 <= i < |subs| && j == i + 1 ==>
         Submitted(memories[i], subs[i], memories[j])
  }

  lemma StepConsistent(before: Memory, sub: Submission, after: Memory)
    requires Consistent(before) && Submitted(before, sub, after)
    ensures Consistent(after)
  {
    hide ForcedNew, AlwaysWrites;
    forall key | key in after.timestamps
      ensures key in after.messages
      ensures after.messages[key].timestamp == Some(after.timestamps[key]) || after.messages[key].timestamp == None
              || after.messages[key].timestamp == Some(0)
    {
      assert Updated(before.timestamps, key, UsableTimestamp(PartFor(sub, key)), after.timestamps);
      var part := PartFor(sub, key);
      if part.Some? && !HasNews(before.timestamps, sub) {
        assert key == (sub.feed, key.1);
        assert !IsNews(before.timestamps, key, part.value);
      }
    }
  }

  /** The gate never records a timestamp without storing its message, over any history. */
  lemma {:induction false} AlwaysConsistent(memories: seq<Memory>, subs: seq<Submission>, i: nat)
    requires History(memories, subs) && i < |memories|
    ensures Consistent(memories[i])
  {
    if i > 0 {
      AlwaysConsistent(memories, subs, i - 1);
      assert Submitted(memories[i - 1], subs[i - 1], memories[i]);
      StepConsistent(memories[i - 1], subs[i - 1], memories[i]);
    }
  }

  /** All parts of the submission repeat a usable timestamp that is already recorded. */
  ghost predicate Repeats(timestamps: map<Key, nat>, sub: Submission) {
    forall kind :: Part(sub, kind).Some? ==> RepeatsPart(timestamps, sub, kind)
  }

  ghost predicate RepeatsPart(timestamps: map<Key, nat>, sub: Submission, kind: Kind)
    requires Part(sub, kind).Some?
  {
    && Usable(Part(sub, kind).value)
    && (sub.feed, kind) in timestamps && timestamps[(sub.feed, kind)] == Part(sub, kind).value.timestamp.value
  }

  /** Checking the parts one after another, and only until news is found, finds news exactly when
      some part does not repeat; a repeating submission outside the special cases changes nothing:
      neither timestamps nor messages, and neither the queue nor the set. */
  lemma RepeatsChangeNothing(before: Memory, sub: Submission, after: Memory)
    requires Submitted(before, sub, after)
    ensures HasNews(before.timestamps, sub) <==> !Repeats(before.timestamps, sub)
    ensures Repeats(before.timestamps, sub) ==> after.timestamps == before.timestamps
    ensures Repeats(before.timestamps, sub) && !ForcedNew(sub) && !AlwaysWrites(sub) ==>
              after.messages == before.messages
    ensures Repeats(before.timestamps, sub) && !ForcedNew(sub) && !AlwaysQueues(sub) ==>
              after.queue == before.queue && after.listed == before.listed
  {
    hide ForcedNew, AlwaysWrites, AlwaysQueues;
    if !Repeats(before.timestamps, sub) {
      var kind :| Part(sub, kind).Some? && !RepeatsPart(before.timestamps, sub, kind);
      assert IsNews(before.timestamps, (sub.feed, kind), Part(sub, kind).value);
    } else {
      forall key: Key
        ensures (key in after.timestamps <==> key in before.timestamps)
             && (key in before.timestamps ==> after.timestamps[key] == before.timestamps[key])
      {
        assert Updated(before.timestamps, key, UsableTimestamp(PartFor(sub, key)), after.timestamps);
        assert key == (key.0, key.1);
        if PartFor(sub, key).Some? { assert RepeatsPart(before.timestamps, sub, key.1); }
      }
      assert after.timestamps == before.timestamps;
      forall kind | Part(sub, kind).Some? ensures !IsNews(before.timestamps, (sub.feed, kind), Part(sub, kind).value) {
        assert RepeatsPart(before.timestamps, sub, kind);
      }
    }
  }

  /** The gate lists and queues a chateau exactly for news, or where the source always does. */
  lemma QueuedIff(before: Memory, sub: Submission, after: Memory)
    requires Submitted(before, sub, after) && sub.chateau !in before.listed
    ensures after.queue != before.queue <==>
              !Repeats(before.timestamps, sub)
              || (sub.handler.Compressed?
                  && (Contains(sub.feed, "unwire")
                      || sub.chateau in
                         {"santacruzmetro", "dallasarearapidtransit", "fortworthtransportationauthority"}))
  {
    hide AlwaysWrites, Contains;
    RepeatsChangeNothing(before, sub, after);
  }

  // ---- Storing and queueing are decided apart ----

  ghost predicate IsStored(mem: Memory, key: Key, m: Message) {
    key in mem.messages && mem.messages[key] == m
  }

  /** Some part of the submission is not what is stored under its key. */
  ghost predicate Brings(mem: Memory, sub: Submission) {
    exists kind :: Part(sub, kind).Some? && !IsStored(mem, (sub.feed, kind), Part(sub, kind).value)
  }

  /** A part that is not stored yet is stored exactly for news, or where the source always does. */
  lemma StoredIff(before: Memory, sub: Submission, after: Memory, kind: Kind)
    requires Submitted(before, sub, after) && Part(sub, kind).Some?
    requires !IsStored(before, (sub.feed, kind), Part(sub, kind).value)
    ensures IsStored(after, (sub.feed, kind), Part(sub, kind).value) <==>
              !Repeats(before.timestamps, sub)
              || (sub.handler.Compressed?
                  && (Contains(sub.feed, "unwire")
                      || sub.chateau in {"dallasarearapidtransit", "fortworthtransportationauthority"}))
              || (sub.handler.Plain? && sub.chateau == "uc~irvine~anteater~express")
  {
    hide AlwaysQueues, Contains, Recorded;
    RepeatsChangeNothing(before, sub, after);
    var key := (sub.feed, kind);
    if Written(before.messages, sub, after.messages) {
      assert Updated(before.messages, key, PartFor(sub, key), after.messages);
    }
  }

  /** A submission changes the stored messages of an unlisted chateau and leaves it unqueued exactly
      when it repeats recorded timestamps and came through the plain handler for this one chateau. */
  lemma StoredUnqueuedIff(before: Memory, sub: Submission, after: Memory)
    requires Submitted(before, sub, after) && sub.chateau !in before.listed && Brings(before, sub)
    ensures after.messages != before.messages && after.queue == before.queue <==>
              Repeats(before.timestamps, sub) && sub.handler.Plain? && sub.chateau == UCI
  {
    hide HasNews, Repeats, Recorded, Contains;
    RepeatsChangeNothing(before, sub, after);
    if Repeats(before.timestamps, sub) && AlwaysWrites(sub) {
      var kind :| Part(sub, kind).Some? && !IsStored(before, (sub.feed, kind), Part(sub, kind).value);
      var key := (sub.feed, kind);
      assert Updated(before.messages, key, PartFor(sub, key), after.messages);
    }
    if sub.handler.Compressed? && AlwaysWrites(sub) { assert AlwaysQueues(sub); }
  }

  /** A repeated timestamp with a changed message: the message is stored, and no worker is woken. */
  lemma StoredUnqueued()
    ensures var key := ("f", VehiclePositions);
            var before := Memory(map[key := 7], map[key := Message(Some(7), "old")], [], {});
            var sub := Submission(Plain, UCI, "f", Some(Message(Some(7), "new")), None, None);
            var after := before.(messages := map[key := Message(Some(7), "new")]);
            Submitted(before, sub, after) && after.messages != before.messages
  {
    var key: Key := ("f", VehiclePositions);
    var sub := Submission(Plain, UCI, "f", Some(Message(Some(7), "new")), None, None);
    var old_, new_ := Message(Some(7), "old"), Message(Some(7), "new");
    assert "old"[0] != "new"[0];
    assert map[key := old_][key] != map[key := new_][key];
    forall k: Key
      ensures Updated(map[key := 7], k, UsableTimestamp(PartFor(sub, k)), map[key := 7])
      ensures Updated(map[key := old_], k, PartFor(sub, k), map[key := new_])
    {
      match k.1 { case VehiclePositions => case TripUpdates => case Alerts => }
    }
  }
}
