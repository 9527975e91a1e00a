/** What the trip-id index and the stored stop lists mean after any import, and over whole runs of
    imports (backend/src/aspen/import_alpenrose.rs:1458-1653, 1862-1944). */
module TripIndex {
  import opened Wrappers
  import opened StopCarryOver
  import opened RealtimeStore

  ghost predicate Names(u: TripUpdate, t: TripId) {
    Roles(u, t) > 0
  }

  ghost predicate IsListed(store: Store, t: TripId, x: Id) {
    Count(store.index, t, x) > 0
  }

  /** The index says what a scan of the table would say. */
  ghost predicate Exact(store: Store) {
    forall t, x :: IsListed(store, t, x) <==> x in store.updates && Names(store.updates[x], t)
  }

  lemma {:induction false} LastCounts(entities: seq<Entity>, t: TripId, x: Id)
    requires Listed(entities, x)
    ensures TotalRoles(entities, t, x) >= Roles(Last(entities, x), t)
    ensures exists k :: 0 <= k < |entities| && entities[k].id == x && entities[k].update == Last(entities, x)
  {
    var n := |entities| - 1;
    if entities[n].id != x {
      var k :| 0 <= k < |entities| && entities[k].id == x;
      assert entities[..n][k].id == x;
      LastCounts(entities[..n], t, x);
    }
  }

  /** No listed id dangles, and every update is listed under every trip id it names, whatever the
      previous store, the feed and the grace period. */
  lemma IndexSoundAndComplete(previous: Store, entities: seq<Entity>, grace: bool, next: Store, t: TripId, x: Id)
    requires IsNext(previous, entities, grace, next)
    ensures IsListed(next, t, x) ==> x in next.updates
    ensures x in next.updates && Names(next.updates[x], t) ==> IsListed(next, t, x)
  {
    assert Count(next.index, t, x) == NextCount(previous, entities, grace, t, x);
    if Listed(entities, x) {
      LastCounts(entities, t, x);
      BuiltRoles(previous, Last(entities, x));
    }
  }

  /** In terms of fields: every update in the table is listed under the trip ids its three fields hold; and
      a listed id holds the trip id in one of them, if the index is exact or the entity ids differ. */
  lemma IndexByFields(previous: Store, entities: seq<Entity>, grace: bool, next: Store, t: TripId, x: Id)
    requires IsNext(previous, entities, grace, next)
    ensures x in next.updates
            && Some(t) in {next.updates[x].trip.tripId, next.updates[x].propertiesTripId,
                           next.updates[x].trip.affectedTripId} ==>
              t in next.index && x in next.index[t]
    ensures (Exact(next) || DistinctIds(entities)) && t in next.index && x in next.index[t] ==>
              x in next.updates && Some(t) in {next.updates[x].trip.tripId, next.updates[x].propertiesTripId,
                                               next.updates[x].trip.affectedTripId}
  {
    hide Count, Roles, Built, Last;
    IndexSoundAndComplete(previous, entities, grace, next, t, x);
    CountIsMember(next.index, t, x);
    if x in next.updates { RolesAreFields(next.updates[x], t); }
    if DistinctIds(entities) {
      DistinctLosesNoName(entities);
      IndexExactIff(previous, entities, grace, next);
    }
  }

  /** The table holds the last entity of each id, unchanged but for its stops. */
  lemma TableByFields(previous: Store, entities: seq<Entity>, grace: bool, next: Store, k: nat)
    requires IsNext(previous, entities, grace, next) && k < |entities|
    requires forall l :: k < l < |entities| ==> entities[l].id != entities[k].id
    ensures var x, u := entities[k].id, entities[k].update;
            && x in next.updates && next.updates[x].trip == u.trip
            && next.updates[x].propertiesTripId == u.propertiesTripId && next.updates[x].data == u.data
            && next.updates[x].stops == Carry(PreviousStops(previous, u.trip), u.stops)
  {
    hide Count, PreviousStops;
    LastIs(entities, k);
  }

  lemma {:induction false} LastIs(entities: seq<Entity>, k: nat)
    requires k < |entities| && forall l :: k < l < |entities| ==> entities[l].id != entities[k].id
    ensures Listed(entities, entities[k].id) && Last(entities, entities[k].id) == entities[k].update
  {
    var n := |entities| - 1;
    if k < n { LastIs(entities[..n], k); }
  }

  /** No entity names a trip id that a later entity with the same id does not name. */
  ghost predicate NoLostName(entities: seq<Entity>) {
    forall k, t :: 0 <= k < |entities| && Names(entities[k].update, t) ==>
      Listed(entities, entities[k].id) && Names(Last(entities, entities[k].id), t)
  }

  /** The index agrees with a table scan exactly when overwriting an entity id loses no trip id. */
  lemma IndexExactIff(previous: Store, entities: seq<Entity>, grace: bool, next: Store)
    requires IsNext(previous, entities, grace, next)
    ensures Exact(next) <==> NoLostName(entities)
  {
    hide Count, Last, Built;
    if NoLostName(entities) {
      forall t, x ensures IsListed(next, t, x) <==> x in next.updates && Names(next.updates[x], t) {
        IndexSoundAndComplete(previous, entities, grace, next, t, x);
        assert Count(next.index, t, x) == NextCount(previous, entities, grace, t, x);
        if IsListed(next, t, x) && Listed(entities, x) {
          var k := RoleOf(entities, t, x);
          assert Names(entities[k].update, t);
          BuiltRoles(previous, Last(entities, x));
        }
      }
    }
    if Exact(next) {
      forall k, t | 0 <= k < |entities| && Names(entities[k].update, t)
        ensures Listed(entities, entities[k].id) && Names(Last(entities, entities[k].id), t)
      {
        var x := entities[k].id;
        assert Listed(entities, x);
        RoleCounts(entities, t, k);
        assert Count(next.index, t, x) == NextCount(previous, entities, grace, t, x);
        assert IsListed(next, t, x);
        BuiltRoles(previous, Last(entities, x));
      }
    }
  }

  ghost predicate DistinctIds(entities: seq<Entity>) {
    forall k, l :: 0 <= k < l < |entities| ==> entities[k].id != entities[l].id
  }

  lemma DistinctLosesNoName(entities: seq<Entity>)
    requires DistinctIds(entities)
    ensures NoLostName(entities)
  {
    forall k, t | 0 <= k < |entities| && Names(entities[k].update, t)
      ensures Listed(entities, entities[k].id) && Names(Last(entities, entities[k].id), t)
    {
      LastCounts(entities, t, entities[k].id);
    }
  }

  // ---- Two entities with one id, the later of which drops a trip id ----

  const ON_S := TripUpdate(Descriptor(Some("S"), None, ""), None, [], "")
  const ON_T := TripUpdate(Descriptor(Some("T"), None, ""), None, [], "")

  /** The lookup for the first trip then answers with the update of the second. */
  lemma LostNameDangles(previous: Store, grace: bool, next: Store)
    requires IsNext(previous, [Entity("x", ON_S), Entity("x", ON_T)], grace, next)
    ensures IsListed(next, "S", "x") && "x" in next.updates && !Names(next.updates["x"], "S")
    ensures !Exact(next) && "S" in next.index && next.updates["x"] in Present(next, next.index["S"])
  {
    hide Count, Built, Present;
    var entities := [Entity("x", ON_S), Entity("x", ON_T)];
    assert entities[0].id == "x" && entities[1].id == "x";
    assert Listed(entities, "x") && Last(entities, "x") == ON_T;
    assert "S"[0] != "T"[0];
    RoleCounts(entities, "S", 0);
    assert Count(next.index, "S", "x") == NextCount(previous, entities, grace, "S", "x");
    BuiltRoles(previous, ON_T);
    ListedIsPresent(next, "S", "x");
  }

  lemma ListedIsPresent(store: Store, t: TripId, x: Id)
    requires IsListed(store, t, x) && x in store.updates
    ensures t in store.index && store.updates[x] in Present(store, store.index[t])
  {
    PresentMembers(store, store.index[t]);
    assert x in multiset(store.index[t]);
  }

  lemma {:induction false} PresentMembers(store: Store, ids: seq<Id>)
    ensures forall u :: u in Present(store, ids) <==>
                        exists x :: x in ids && x in store.updates && store.updates[x] == u
  {
    if ids != [] {
      var n := |ids| - 1;
      PresentMembers(store, ids[..n]);
      assert forall x :: x in ids <==> x in ids[..n] || x == ids[n];
    }
  }

  /** On an exact store the lookup returns, as a set, the answer of scanning the whole table; it
      reports an unknown trip exactly when the scan finds nothing. */
  lemma LookupIsScan(store: Store, t: TripId)
    requires Exact(store) && NoEmptyList(store.index)
    ensures t !in store.index <==>
              forall x :: x in store.updates ==>
                Some(t) !in {store.updates[x].trip.tripId, store.updates[x].propertiesTripId,
                             store.updates[x].trip.affectedTripId}
    ensures t in store.index ==> forall u ::
              u in Present(store, store.index[t]) <==>
                && Some(t) in {u.trip.tripId, u.propertiesTripId, u.trip.affectedTripId}
                && exists x :: x in store.updates && store.updates[x] == u
  {
    hide Roles;
    forall u: TripUpdate
      ensures Names(u, t) <==> Some(t) in {u.trip.tripId, u.propertiesTripId, u.trip.affectedTripId}
    {
      RolesAreFields(u, t);
    }
    if t in store.index {
      PresentMembers(store, store.index[t]);
      assert forall x :: IsListed(store, t, x) <==> x in multiset(store.index[t]);
      assert forall x :: x in multiset(store.index[t]) <==> x in store.index[t];
      assert store.index[t][0] in store.index[t];
      assert IsListed(store, t, store.index[t][0]);
      forall u ensures u in Present(store, store.index[t]) <==>
                       exists x :: x in store.updates && store.updates[x] == u && Names(u, t)
      {
        if x :| x in store.updates && store.updates[x] == u && Names(u, t) {
          assert IsListed(store, t, x);
        }
        if x :| x in store.index[t] && x in store.updates && store.updates[x] == u {
          assert IsListed(store, t, x);
        }
      }
    } else {
      assert forall x :: !IsListed(store, t, x);
    }
  }

  // ---- Runs of imports, followed for one trip ----

  datatype Cycle = Cycle(entities: seq<Entity>, grace: bool)

  ghost predicate Run(stores: seq<Store>, cycles: seq<Cycle>) {
    && |stores| == |cycles| + 1
    && forall i, j :: 0 <= i < |cycles| && j == i + 1 ==>
         IsNext(stores[i], cycles[i].entities, cycles[i].grace, stores[j])
  }

  /** In every feed of the run exactly entity at[i] carries the descriptor, under an id of its own.
      Within the grace period the feed must overwrite the previous id, with this entity or another one,
      or the old update stays beside the new. */
  ghost predicate Followed(first: Store, cycles: seq<Cycle>, at: seq<nat>, trip: Descriptor) {
    && trip.tripId.Some?
    && (forall x :: x in first.updates ==> first.updates[x].trip != trip)
    && |at| == |cycles|
    && (forall i :: 0 <= i < |at| ==> Alone(cycles[i].entities, at[i], trip))
    && forall i, j :: 0 <= i < |at| && j == i + 1 < |at| && cycles[j].grace ==>
         Listed(cycles[j].entities, cycles[i].entities[at[i]].id)
  }

  ghost predicate Alone(entities: seq<Entity>, k: nat, trip: Descriptor) {
    && k < |entities|
    && (forall l :: 0 <= l < |entities| ==> (entities[l].update.trip == trip <==> l == k))
    && forall l :: 0 <= l < |entities| && l != k ==> entities[l].id != entities[k].id
  }

  /** Only the update filed under id has the descriptor, and it is listed once under its trip id. */
  ghost predicate Solo(store: Store, trip: Descriptor, id: Id) {
    && trip.tripId.Some?
    && id in store.updates
    && (forall x :: x in store.updates ==> (store.updates[x].trip == trip <==> x == id))
    && Count(store.index, trip.tripId.value, id) == 1
  }

  lemma {:induction false} MatchingSolo(store: Store, ids: seq<Id>, trip: Descriptor, id: Id)
    requires id in store.updates && forall x :: x in store.updates ==> (store.updates[x].trip == trip <==> x == id)
    ensures |Matching(store, ids, trip)| == multiset(ids)[id]
    ensures forall x :: x in Matching(store, ids, trip) ==> x == id
  {
    if ids != [] {
      assert ids == [ids[0]] + ids[1..];
      MatchingSolo(store, ids[1..], trip, id);
    }
  }

  lemma {:induction false} MatchingNone(store: Store, ids: seq<Id>, trip: Descriptor)
    requires forall x :: x in store.updates ==> store.updates[x].trip != trip
    ensures Matching(store, ids, trip) == []
  {
    if ids != [] { MatchingNone(store, ids[1..], trip); }
  }

  lemma PreviousStopsSolo(store: Store, trip: Descriptor, id: Id)
    requires Solo(store, trip, id)
    ensures PreviousStops(store, trip) == Some(store.updates[id].stops)
  {
    var ids := store.index[trip.tripId.value];
    MatchingSolo(store, ids, trip, id);
    var matching := Matching(store, ids, trip);
    assert matching[0] in matching;
  }

  lemma {:induction false} LastAlone(entities: seq<Entity>, k: nat)
    requires k < |entities| && forall l :: 0 <= l < |entities| && l != k ==> entities[l].id != entities[k].id
    ensures Listed(entities, entities[k].id) && Last(entities, entities[k].id) == entities[k].update
  {
    var t: TripId := "";
    LastCounts(entities, t, entities[k].id);
  }

  /** One import of the followed trip: its update is again the only one, and its stop list is the
      previous one carried into the feed. */
  lemma SoloStep(previous: Store, entities: seq<Entity>, grace: bool, next: Store, k: nat, trip: Descriptor,
                 before: Option<Id>)
    requires IsNext(previous, entities, grace, next) && Alone(entities, k, trip) && trip.tripId.Some?
    requires before.Some? ==> Solo(previous, trip, before.value) && (grace ==> Listed(entities, before.value))
    requires before.None? ==> forall x :: x in previous.updates ==> previous.updates[x].trip != trip
    ensures Solo(next, trip, entities[k].id)
    ensures next.updates[entities[k].id].stops
         == Carry(if before.Some? then Some(previous.updates[before.value].stops) else None, entities[k].update.stops)
  {
    var id := entities[k].id;
    LastAlone(entities, k);
    RoleCounts(entities, trip.tripId.value, k);
    assert Count(next.index, trip.tripId.value, id) == NextCount(previous, entities, grace, trip.tripId.value, id);
    forall x | x in next.updates ensures next.updates[x].trip == trip <==> x == id {
      if Listed(entities, x) {
        LastCounts(entities, "", x);
      }
    }
    if before.Some? {
      PreviousStopsSolo(previous, trip, before.value);
    } else if trip.tripId.value in previous.index {
      MatchingNone(previous, previous.index[trip.tripId.value], trip);
    }
  }

  lemma {:induction false} MatchingHas(store: Store, ids: seq<Id>, trip: Descriptor, x: Id)
    requires x in ids && x in store.updates && store.updates[x].trip == trip
    ensures x in Matching(store, ids, trip)
  {
    if ids[0] != x {
      assert ids == [ids[0]] + ids[1..];
      MatchingHas(store, ids[1..], trip, x);
    }
  }

  lemma TwoMatches(store: Store, trip: Descriptor, x: Id, y: Id)
    requires trip.tripId.Some? && x != y && x in store.updates && y in store.updates
    requires store.updates[x].trip == trip && store.updates[y].trip == trip
    requires IsListed(store, trip.tripId.value, x) && IsListed(store, trip.tripId.value, y)
    ensures PreviousStops(store, trip) == None
  {
    var ids := store.index[trip.tripId.value];
    assert x in multiset(ids) && y in multiset(ids);
    MatchingHas(store, ids, trip, x);
    MatchingHas(store, ids, trip, y);
    var matching := Matching(store, ids, trip);
    var i :| 0 <= i < |matching| && matching[i] == x;
    var j :| 0 <= j < |matching| && matching[j] == y;
  }

  /** The import leaves a single update of the trip exactly when, within the grace period, the feed
      overwrites the id the trip had before; otherwise there are two, and the next import has no stop
      list to carry over. */
  lemma SoloIff(previous: Store, entities: seq<Entity>, grace: bool, next: Store, k: nat, trip: Descriptor, before: Id)
    requires IsNext(previous, entities, grace, next) && Alone(entities, k, trip) && Solo(previous, trip, before)
    ensures Solo(next, trip, entities[k].id) <==> (grace ==> Listed(entities, before))
    ensures !(grace ==> Listed(entities, before)) ==> PreviousStops(next, trip) == None
  {
    if grace && !Listed(entities, before) {
      var id, t := entities[k].id, trip.tripId.value;
      LastAlone(entities, k);
      RoleCounts(entities, t, k);
      assert Count(next.index, t, id) == NextCount(previous, entities, grace, t, id);
      assert Count(next.index, t, before) == NextCount(previous, entities, grace, t, before);
      assert next.updates[before].trip == trip && next.updates[id].trip == trip;
      TwoMatches(next, trip, id, before);
    } else {
      SoloStep(previous, entities, grace, next, k, trip, Some(before));
    }
  }

  /** With a changed id in the grace period the stops that the second feed leaves out are gone. */
  lemma CarryOverLost(previous: Store, first: seq<Entity>, next: Store, k: nat, before: Id,
                      second: seq<Entity>, grace: bool, after: Store, l: nat, trip: Descriptor)
    requires IsNext(previous, first, true, next) && Alone(first, k, trip) && Solo(previous, trip, before)
    requires !Listed(first, before)
    requires IsNext(next, second, grace, after) && Alone(second, l, trip)
    ensures second[l].id in after.updates && after.updates[second[l].id].stops == second[l].update.stops
  {
    SoloIff(previous, first, true, next, k, trip, before);
    LastAlone(second, l);
  }

  const TRIP := Descriptor(Some("T"), None, "")
  const STOP_S := StopUpdate(Some("S"), false, "")
  const STOP_R := StopUpdate(Some("R"), false, "")
  const NOTHING := Store(map[], map[])

  function Report(id: Id, stop: StopUpdate): seq<Entity> {
    [Entity(id, TripUpdate(TRIP, None, [stop], ""))]
  }

  lemma ReportAlone(id: Id, stop: StopUpdate)
    ensures Alone(Report(id, stop), 0, TRIP)
    ensures forall x :: Listed(Report(id, stop), x) <==> x == id
  {
    assert Report(id, stop)[0].id == id;
  }

  /** A trip is reported with stop S under id a, then within the grace period twice with stop R under
      id b. After the second import S is still stored, after the third one it is gone, though a plain
      carry-over of the three feeds keeps it. */
  lemma OldStopLost(first: Store, second: Store, third: Store)
    requires IsNext(NOTHING, Report("a", STOP_S), false, first)
    requires IsNext(first, Report("b", STOP_R), true, second) && IsNext(second, Report("b", STOP_R), true, third)
    ensures "b" in second.updates && STOP_S.(stale := true) in second.updates["b"].stops
    ensures "b" in third.updates && third.updates["b"].stops == [STOP_R]
    ensures STOP_S.(stale := true) in Stored([[STOP_S], [STOP_R], [STOP_R]])
  {
    hide IsNext, Alone, Solo, Stored, Listed;
    ReportAlone("a", STOP_S);
    ReportAlone("b", STOP_R);
    assert "a"[0] != "b"[0];
    SoloStep(NOTHING, Report("a", STOP_S), false, first, 0, TRIP, None);
    CarryOnce(first, second);
    CarryOverLost(first, Report("b", STOP_R), second, 0, "a", Report("b", STOP_R), true, third, 0, TRIP);
    StillStored();
  }

  lemma CarryOnce(first: Store, second: Store)
    requires Solo(first, TRIP, "a") && first.updates["a"].stops == [STOP_S]
    requires IsNext(first, Report("b", STOP_R), true, second)
    ensures "b" in second.updates && second.updates["b"].stops == [STOP_S.(stale := true), STOP_R]
  {
    hide Solo;
    PreviousStopsSolo(first, TRIP, "a");
    LastAlone(Report("b", STOP_R), 0);
    CarriedStop();
  }

  lemma CarriedStop()
    ensures Carry(Some([STOP_S]), [STOP_R]) == [STOP_S.(stale := true), STOP_R]
  {
    assert "S"[0] != "R"[0];
    assert STOP_R in [STOP_R];
    assert StopIds([STOP_R]) == {"R"};
    assert [STOP_S][1..] == [];
    assert Kept([STOP_S], {"R"}) == [STOP_S.(stale := true)];
  }

  lemma StillStored()
    ensures STOP_S.(stale := true) in Stored([[STOP_S], [STOP_R], [STOP_R]])
  {
    hide Carry;
    var feeds := [[STOP_S], [STOP_R], [STOP_R]];
    assert feeds[..2] == [[STOP_S], [STOP_R]] && feeds[..2][..1] == [[STOP_S]];
    CarriedStop();
    StoredOne([STOP_S]);
    CarryAgain(Some([STOP_S]), [STOP_R]);
  }

  function Feeds(cycles: seq<Cycle>, at: seq<nat>, i: nat): seq<seq<StopUpdate>>
    requires i < |cycles| == |at| && forall j :: 0 <= j < |at| ==> at[j] < |cycles[j].entities|
  {
    (if i == 0 then [] else Feeds(cycles, at, i - 1)) + [cycles[i].entities[at[i]].update.stops]
  }

  lemma {:induction false} FeedsSize(cycles: seq<Cycle>, at: seq<nat>, i: nat)
    requires i < |cycles| == |at| && forall j :: 0 <= j < |at| ==> at[j] < |cycles[j].entities|
    ensures |Feeds(cycles, at, i)| == i + 1
  {
    if i > 0 { FeedsSize(cycles, at, i - 1); }
  }

  lemma RunStep(stores: seq<Store>, cycles: seq<Cycle>, at: seq<nat>, trip: Descriptor, i: nat)
    requires Run(stores, cycles) && Followed(stores[0], cycles, at, trip) && i < |cycles|
    ensures |stores| == |cycles| + 1 && |at| == |cycles| && trip.tripId.Some?
    ensures IsNext(stores[i], cycles[i].entities, cycles[i].grace, stores[i + 1])
    ensures Alone(cycles[i].entities, at[i], trip)
    ensures forall j :: 0 <= j < |at| ==> at[j] < |cycles[j].entities|
    ensures i > 0 && cycles[i].grace ==> Listed(cycles[i].entities, cycles[i - 1].entities[at[i - 1]].id)
    ensures forall x :: x in stores[0].updates ==> stores[0].updates[x].trip != trip
  {
    hide IsNext;
    forall j | 0 <= j < |at| ensures at[j] < |cycles[j].entities| {
      assert Alone(cycles[j].entities, at[j], trip);
    }
  }

  lemma StoredOne(feed: seq<StopUpdate>)
    ensures Stored([feed]) == Carry(None, feed)
  {
  }

  lemma StoredSnoc(feeds: seq<seq<StopUpdate>>, feed: seq<StopUpdate>)
    requires feeds != []
    ensures Stored(feeds + [feed]) == Carry(Some(Stored(feeds)), feed)
  {
    assert (feeds + [feed])[..|feeds|] == feeds;
  }

  /** Over any run, after import i the followed trip holds exactly what its feeds so far store. */
  lemma {:induction false} StopsOverRun(stores: seq<Store>, cycles: seq<Cycle>, at: seq<nat>, trip: Descriptor, i: nat)
    requires Run(stores, cycles) && Followed(stores[0], cycles, at, trip) && i < |cycles|
    ensures forall j :: 0 <= j < |at| ==> at[j] < |cycles[j].entities|
    ensures Solo(stores[i + 1], trip, cycles[i].entities[at[i]].id)
    ensures |Feeds(cycles, at, i)| == i + 1
    ensures stores[i + 1].updates[cycles[i].entities[at[i]].id].stops == Stored(Feeds(cycles, at, i))
  {
    hide IsNext, Solo, Run, Followed, Alone, Stored, Carry;
    RunStep(stores, cycles, at, trip, i);
    FeedsSize(cycles, at, i);
    if i == 0 {
      SoloStep(stores[0], cycles[0].entities, cycles[0].grace, stores[1], at[0], trip, None);
      StoredOne(cycles[0].entities[at[0]].update.stops);
      assert Feeds(cycles, at, 0) == [cycles[0].entities[at[0]].update.stops];
    } else {
      StopsOverRun(stores, cycles, at, trip, i - 1);
      var before := cycles[i - 1].entities[at[i - 1]].id;
      SoloStep(stores[i], cycles[i].entities, cycles[i].grace, stores[i + 1], at[i], trip, Some(before));
      StoredSnoc(Feeds(cycles, at, i - 1), cycles[i].entities[at[i]].update.stops);
    }
    SoloHas(stores[i + 1], trip, cycles[i].entities[at[i]].id);
  }

  lemma SoloHas(store: Store, trip: Descriptor, id: Id)
    requires Solo(store, trip, id)
    ensures id in store.updates
  {
  }
}
