/** One import of realtime trip updates (backend/src/aspen/import_alpenrose.rs:1105-1653, 1862-1944)
    and the lookup that reads its result (backend/src/aspen/main.rs:1410-1454). */
module RealtimeStore {
  import opened Wrappers
  import opened Counting
  import opened StopCarryOver
  import Strings

  type Id = string
  type TripId = string

  /** rest stands for the route, direction, start and relationship fields, which take part in
      comparing descriptors but are not looked up here. */
  datatype Descriptor = Descriptor(tripId: Option<TripId>, affectedTripId: Option<TripId>, rest: string)

  datatype TripUpdate = TripUpdate(trip: Descriptor, propertiesTripId: Option<TripId>, stops: seq<StopUpdate>,
                                   data: string)

  datatype Entity = Entity(id: Id, update: TripUpdate)

  type Index = map<TripId, seq<Id>>

  datatype Store = Store(updates: map<Id, TripUpdate>, index: Index)

  /** In how many of its three roles an update names a trip id. */
  function Roles(u: TripUpdate, tripId: TripId): nat {
    (if u.trip.tripId == Some(tripId) then 1 else 0)
    + (if u.propertiesTripId == Some(tripId) then 1 else 0)
    + (if u.trip.affectedTripId == Some(tripId) then 1 else 0)
  }

  /** How often an update id is listed under a trip id. */
  ghost function Count(index: Index, tripId: TripId, id: Id): nat {
    if tripId in index then multiset(index[tripId])[id] else 0
  }

  ghost predicate NoEmptyList(index: Index) {
    forall t :: t in index ==> index[t] != []
  }

  ghost predicate Listed(entities: seq<Entity>, id: Id) {
    exists k :: 0 <= k < |entities| && entities[k].id == id
  }

  /** The last entity with the given id, which is the one that stays in the table. */
  ghost function Last(entities: seq<Entity>, id: Id): TripUpdate
    requires Listed(entities, id)
  {
    var n := |entities| - 1;
    if entities[n].id == id then entities[n].update
    else
      assert Listed(entities[..n], id) by {
        var k :| 0 <= k < |entities| && entities[k].id == id;
        assert entities[..n][k].id == id;
      }
      Last(entities[..n], id)
  }

  ghost function TotalRoles(entities: seq<Entity>, tripId: TripId, id: Id): nat {
    if entities == [] then 0
    else
      var n := |entities| - 1;
      TotalRoles(entities[..n], tripId, id) + if entities[n].id == id then Roles(entities[n].update, tripId) else 0
  }

  /** The listed updates with this exact descriptor. */
  function Matching(store: Store, ids: seq<Id>, trip: Descriptor): seq<Id> {
    if ids == [] then []
    else
      var rest := Matching(store, ids[1..], trip);
      if ids[0] in store.updates && store.updates[ids[0]].trip == trip then [ids[0]] + rest else rest
  }

  /** The stop list to carry over: from the only match, if there is exactly one. */
  function PreviousStops(store: Store, trip: Descriptor): Option<seq<StopUpdate>> {
    if trip.tripId.Some? && trip.tripId.value in store.index then
      var ids := Matching(store, store.index[trip.tripId.value], trip);
      if |ids| == 1 && ids[0] in store.updates then Some(store.updates[ids[0]].stops) else None
    else None
  }

  function Built(previous: Store, update: TripUpdate): TripUpdate {
    update.(stops := Carry(PreviousStops(previous, update.trip), update.stops))
  }

  /** What one import leaves behind: the newest entity per id, and within the grace period also the
      old updates the feed has dropped; each listed under the trip ids it names. */
  ghost predicate IsNext(previous: Store, entities: seq<Entity>, grace: bool, next: Store) {
    && (forall x :: x in next.updates <==> Listed(entities, x) || (grace && x in previous.updates))
    && (forall x :: x in next.updates ==>
          next.updates[x] == if Listed(entities, x) then Built(previous, Last(entities, x)) else previous.updates[x])
    && (forall t, x :: Count(next.index, t, x) == NextCount(previous, entities, grace, t, x))
    && NoEmptyList(next.index)
  }

  ghost function NextCount(previous: Store, entities: seq<Entity>, grace: bool, t: TripId, x: Id): nat {
    if Listed(entities, x) then (if TotalRoles(entities, t, x) > 0 then 1 else 0)
    else if grace && x in previous.updates then Roles(previous.updates[x], t)
    else 0
  }

  ghost predicate Lists(index: Index, t: TripId, x: Id) {
    t in index && x in index[t]
  }

  /** A role is a field that holds the trip id. */
  lemma RolesAreFields(u: TripUpdate, t: TripId)
    ensures Roles(u, t) > 0 <==> Some(t) in {u.trip.tripId, u.propertiesTripId, u.trip.affectedTripId}
  {
  }

  lemma CountIsMember(index: Index, t: TripId, x: Id)
    ensures Count(index, t, x) > 0 <==> Lists(index, t, x)
  {
    if t in index { assert x in index[t] <==> x in multiset(index[t]); }
  }

  /** What counting roles says about listing. */
  lemma ListingGrows(index: Index, filed: Index, u: TripUpdate, id: Id)
    requires forall t, x :: Count(filed, t, x) == Count(index, t, x) + if x == id then Roles(u, t) else 0
    ensures forall t, x :: Lists(filed, t, x) <==>
              || Lists(index, t, x)
              || (x == id && Some(t) in {u.trip.tripId, u.propertiesTripId, u.trip.affectedTripId})
  {
    hide Count, Roles, Lists;
    forall t, x ensures Lists(filed, t, x) <==>
              || Lists(index, t, x)
              || (x == id && Some(t) in {u.trip.tripId, u.propertiesTripId, u.trip.affectedTripId})
    {
      RolesAreFields(u, t);
      CountIsMember(index, t, x);
      CountIsMember(filed, t, x);
    }
  }

  /** The entity names the trip id in one of its fields. */
  lemma ListingOfFeed(entities: seq<Entity>, index: Index, t: TripId, x: Id)
    requires Count(index, t, x) == TotalRoles(entities, t, x)
    ensures Lists(index, t, x) <==>
              exists k :: 0 <= k < |entities| && entities[k].id == x
                && Some(t) in {entities[k].update.trip.tripId, entities[k].update.propertiesTripId,
                               entities[k].update.trip.affectedTripId}
  {
    hide Roles, Count, Lists;
    CountIsMember(index, t, x);
    if TotalRoles(entities, t, x) > 0 {
      var k := RoleOf(entities, t, x);
      RolesAreFields(entities[k].update, t);
    }
    forall k | 0 <= k < |entities| && entities[k].id == x
      && Some(t) in {entities[k].update.trip.tripId, entities[k].update.propertiesTripId,
                     entities[k].update.trip.affectedTripId}
      ensures TotalRoles(entities, t, x) > 0
    {
      RolesAreFields(entities[k].update, t);
      RoleCounts(entities, t, k);
    }
  }

  // ---- The import ----

  function Push(index: Index, key: Option<TripId>, id: Id): Index {
    match key
    case None => index
    case Some(t) => index[t := (if t in index then index[t] else []) + [id]]
  }

  lemma PushCount(index: Index, key: Option<TripId>, id: Id)
    ensures forall t, x :: Count(Push(index, key, id), t, x) ==
                           Count(index, t, x) + if key == Some(t) && x == id then 1 else 0
    ensures NoEmptyList(index) ==> NoEmptyList(Push(index, key, id))
  {
  }

  /** File an update id under all trip ids the update names. */
  method FileUpdate(index: Index, u: TripUpdate, id: Id) returns (filed: Index)
    requires NoEmptyList(index)
    ensures NoEmptyList(filed)
    ensures forall t, x :: Count(filed, t, x) == Count(index, t, x) + if x == id then Roles(u, t) else 0
    ensures forall t, x :: Lists(filed, t, x) <==>
              || Lists(index, t, x)
              || (x == id && Some(t) in {u.trip.tripId, u.propertiesTripId, u.trip.affectedTripId})
  {
    hide Count, Lists;
    PushCount(index, u.propertiesTripId, id);
    filed := Push(index, u.propertiesTripId, id);
    PushCount(filed, u.trip.affectedTripId, id);
    filed := Push(filed, u.trip.affectedTripId, id);
    PushCount(filed, u.trip.tripId, id);
    filed := Push(filed, u.trip.tripId, id);
    ListingGrows(index, filed, u, id);
  }

  method BuildTable(previous: Store, entities: seq<Entity>) returns (updates: map<Id, TripUpdate>, index: Index)
    ensures forall x :: x in updates <==> Listed(entities, x)
    ensures forall x :: x in updates ==> updates[x] == Built(previous, Last(entities, x))
    ensures forall t, x :: Count(index, t, x) == TotalRoles(entities, t, x)
    ensures forall t, x :: Lists(index, t, x) <==>
              exists k :: 0 <= k < |entities| && entities[k].id == x
                && Some(t) in {entities[k].update.trip.tripId, entities[k].update.propertiesTripId,
                               entities[k].update.trip.affectedTripId}
    ensures NoEmptyList(index)
  {
    hide Count, Built, Roles, Lists;
    updates, index := map[], map[];
    CountNothing();
    for n := 0 to |entities|
      invariant forall x :: x in updates <==> Listed(entities[..n], x)
      invariant forall x :: x in updates ==> updates[x] == Built(previous, Last(entities[..n], x))
      invariant forall t, x :: Count(index, t, x) == TotalRoles(entities[..n], t, x)
      invariant NoEmptyList(index)
    {
      var e := entities[n];
      OneMore(entities, n);
      var built := Built(previous, e.update);
      BuiltRoles(previous, e.update);
      index := FileUpdate(index, built, e.id);
      updates := updates[e.id := built];
    }
    assert entities[..|entities|] == entities;
    forall t, x ensures Lists(index, t, x) <==>
              exists k :: 0 <= k < |entities| && entities[k].id == x
                && Some(t) in {entities[k].update.trip.tripId, entities[k].update.propertiesTripId,
                               entities[k].update.trip.affectedTripId}
    {
      ListingOfFeed(entities, index, t, x);
    }
  }

  lemma CountNothing()
    ensures forall t, x :: Count(map[], t, x) == 0
  {
  }

  lemma BuiltRoles(previous: Store, update: TripUpdate)
    ensures forall t :: Roles(Built(previous, update), t) == Roles(update, t)
  {
  }

  lemma OneMore(entities: seq<Entity>, n: nat)
    requires n < |entities|
    ensures forall x :: Listed(entities[..n + 1], x) <==> Listed(entities[..n], x) || x == entities[n].id
    ensures Listed(entities[..n + 1], entities[n].id) && Last(entities[..n + 1], entities[n].id) == entities[n].update
    ensures forall x :: x != entities[n].id && Listed(entities[..n], x) ==>
              Listed(entities[..n + 1], x) && Last(entities[..n + 1], x) == Last(entities[..n], x)
    ensures forall t, x :: TotalRoles(entities[..n + 1], t, x)
              == TotalRoles(entities[..n], t, x) + if x == entities[n].id then Roles(entities[n].update, t) else 0
  {
    var before, after := entities[..n], entities[..n + 1];
    assert after[..n] == before && after[n] == entities[n];
    forall x ensures Listed(after, x) <==> Listed(before, x) || x == entities[n].id {
      if Listed(before, x) { var k :| 0 <= k < n && before[k].id == x; assert after[k].id == x; }
      if Listed(after, x) { var k :| 0 <= k <= n && after[k].id == x; if k < n { assert before[k].id == x; } }
    }
  }

  /** Sort and deduplicate every list with more than one entry (import_alpenrose.rs:1862-1869). */
  method DedupIndex(index: Index) returns (out: Index)
    requires NoEmptyList(index)
    ensures NoEmptyList(out)
    ensures forall t, x :: Count(out, t, x) == if Count(index, t, x) > 0 then 1 else 0
  {
    hide Strings.AtMost, Strings.SortedUnique;
    out := index;
    var rest := index.Keys;
    while rest != {}
      invariant rest <= index.Keys && out.Keys == index.Keys && NoEmptyList(out)
      invariant forall t :: t in rest ==> out[t] == index[t]
      invariant forall t :: t in index.Keys - rest ==> Deduped(index[t], out[t])
    {
      var t :| t in rest;
      rest := rest - {t};
      if |out[t]| > 1 {
        assert index[t][0] in Strings.SortedUnique(index[t]);
        out := out[t := Strings.SortedUnique(out[t])];
        AscendingDedups(index[t], out[t]);
      } else {
        assert index[t] == [index[t][0]];
      }
    }
  }

  ghost predicate Deduped(list: seq<Id>, unique: seq<Id>) {
    forall x :: multiset(unique)[x] == if multiset(list)[x] > 0 then 1 else 0
  }

  lemma AscendingDedups(list: seq<Id>, unique: seq<Id>)
    requires Strings.Ascending(unique) && forall x :: x in unique <==> x in list
    ensures Deduped(list, unique)
  {
    forall x ensures multiset(unique)[x] == if multiset(list)[x] > 0 then 1 else 0 {
      DistinctCount(unique, x);
      assert x in multiset(unique) <==> x in unique;
      assert x in multiset(list) <==> x in list;
    }
  }

  /** Keep the old updates that the new table lacks (import_alpenrose.rs:1892-1943). */
  method GraceMerge(previous: Store, updates: map<Id, TripUpdate>, index: Index)
    returns (updates': map<Id, TripUpdate>, index': Index)
    requires NoEmptyList(index)
    ensures NoEmptyList(index')
    ensures updates' == previous.updates + updates
    ensures forall t, x :: Count(index', t, x) == Count(index, t, x)
              + if x in previous.updates && x !in updates then Roles(previous.updates[x], t) else 0
    ensures forall t, x :: Lists(index', t, x) <==>
              || Lists(index, t, x)
              || (x in previous.updates && x !in updates
                  && Some(t) in {previous.updates[x].trip.tripId, previous.updates[x].propertiesTripId,
                                 previous.updates[x].trip.affectedTripId})
  {
    hide Count, Roles, Lists;
    updates', index' := updates, index;
    var rest := previous.updates.Keys;
    while rest != {}
      invariant rest <= previous.updates.Keys && NoEmptyList(index')
      invariant forall x :: x in updates' <==> x in updates || (x in previous.updates && x !in rest)
      invariant forall x :: x in updates' ==> updates'[x] == if x in updates then updates[x] else previous.updates[x]
      invariant forall t, x :: Count(index', t, x) == Count(index, t, x)
                  + if x in previous.updates && x !in updates && x !in rest then Roles(previous.updates[x], t) else 0
    {
      var id :| id in rest;
      if id !in updates' {
        updates' := updates'[id := previous.updates[id]];
        index' := FileUpdate(index', previous.updates[id], id);
      }
      rest := rest - {id};
    }
    forall t, x ensures Lists(index', t, x) <==>
              || Lists(index, t, x)
              || (x in previous.updates && x !in updates
                  && Some(t) in {previous.updates[x].trip.tripId, previous.updates[x].propertiesTripId,
                                 previous.updates[x].trip.affectedTripId})
    {
      CountIsMember(index, t, x);
      CountIsMember(index', t, x);
      if x in previous.updates { RolesAreFields(previous.updates[x], t); }
    }
  }

  /** Afterwards an update is listed under exactly the trip ids that some entity with its id names in one
      of the three fields, or, if it was kept from before, that it names itself. */
  method NewRtData(previous: Store, entities: seq<Entity>, grace: bool) returns (next: Store)
    ensures IsNext(previous, entities, grace, next)
    ensures forall t, x :: Lists(next.index, t, x) <==>
              || (exists k :: 0 <= k < |entities| && entities[k].id == x
                    && Some(t) in {entities[k].update.trip.tripId, entities[k].update.propertiesTripId,
                                   entities[k].update.trip.affectedTripId})
              || (grace && x in previous.updates && (forall k :: 0 <= k < |entities| ==> entities[k].id != x)
                  && Some(t) in {previous.updates[x].trip.tripId, previous.updates[x].propertiesTripId,
                                 previous.updates[x].trip.affectedTripId})
  {
    hide Count, Roles, Built, Lists;
    var updates, index := BuildTable(previous, entities);
    index := DedupIndex(index);
    assert forall t, x :: Count(index, t, x) > 0 ==> Listed(entities, x) by { RolesAreListed(entities); }
    if grace {
      updates, index := GraceMerge(previous, updates, index);
    }
    next := Store(updates, index);
    forall t, x ensures Lists(next.index, t, x) <==>
              || (exists k :: 0 <= k < |entities| && entities[k].id == x
                    && Some(t) in {entities[k].update.trip.tripId, entities[k].update.propertiesTripId,
                                   entities[k].update.trip.affectedTripId})
              || (grace && x in previous.updates && (forall k :: 0 <= k < |entities| ==> entities[k].id != x)
                  && Some(t) in {previous.updates[x].trip.tripId, previous.updates[x].propertiesTripId,
                                 previous.updates[x].trip.affectedTripId})
    {
      ListingAfter(previous, entities, grace, next, t, x);
    }
  }

  lemma ListingAfter(previous: Store, entities: seq<Entity>, grace: bool, next: Store, t: TripId, x: Id)
    requires IsNext(previous, entities, grace, next)
    ensures Lists(next.index, t, x) <==>
              || (exists k :: 0 <= k < |entities| && entities[k].id == x
                    && Some(t) in {entities[k].update.trip.tripId, entities[k].update.propertiesTripId,
                                   entities[k].update.trip.affectedTripId})
              || (grace && x in previous.updates && (forall k :: 0 <= k < |entities| ==> entities[k].id != x)
                  && Some(t) in {previous.updates[x].trip.tripId, previous.updates[x].propertiesTripId,
                                 previous.updates[x].trip.affectedTripId})
  {
    hide Count, Roles, Built, Last, Lists;
    CountIsMember(next.index, t, x);
    assert Count(next.index, t, x) == NextCount(previous, entities, grace, t, x);
    if Listed(entities, x) {
      if TotalRoles(entities, t, x) > 0 {
        var k := RoleOf(entities, t, x);
        RolesAreFields(entities[k].update, t);
      }
      forall k | 0 <= k < |entities| && entities[k].id == x
        && Some(t) in {entities[k].update.trip.tripId, entities[k].update.propertiesTripId,
                       entities[k].update.trip.affectedTripId}
        ensures TotalRoles(entities, t, x) > 0
      {
        RolesAreFields(entities[k].update, t);
        RoleCounts(entities, t, k);
      }
    } else if x in previous.updates {
      RolesAreFields(previous.updates[x], t);
    }
  }

  lemma RolesAreListed(entities: seq<Entity>)
    ensures forall t, x :: TotalRoles(entities, t, x) > 0 ==> Listed(entities, x)
  {
    forall t, x | TotalRoles(entities, t, x) > 0 ensures Listed(entities, x) {
      var k := RoleOf(entities, t, x);
    }
  }

  /** An entity that names the trip id, if the total says there is one. */
  lemma {:induction false} RoleOf(entities: seq<Entity>, t: TripId, x: Id) returns (k: nat)
    requires TotalRoles(entities, t, x) > 0
    ensures k < |entities| && entities[k].id == x && Roles(entities[k].update, t) > 0
  {
    var n := |entities| - 1;
    if entities[n].id == x && Roles(entities[n].update, t) > 0 {
      k := n;
    } else {
      k := RoleOf(entities[..n], t, x);
    }
  }

  lemma {:induction false} RoleCounts(entities: seq<Entity>, t: TripId, k: nat)
    requires k < |entities|
    ensures TotalRoles(entities, t, entities[k].id) >= Roles(entities[k].update, t)
  {
    var n := |entities| - 1;
    if k < n { RoleCounts(entities[..n], t, k); }
  }

  /** The trip-update lookup: the listed ids in order, those without a table entry left out. */
  method GetTripUpdates(store: Store, tripId: TripId) returns (found: Option<seq<TripUpdate>>)
    ensures found.None? <==> tripId !in store.index
    ensures found.Some? ==> found.value == Present(store, store.index[tripId])
  {
    if tripId !in store.index {
      return None;
    }
    var list: seq<TripUpdate> := [];
    var ids := store.index[tripId];
    for i := 0 to |ids|
      invariant list == Present(store, ids[..i])
    {
      PresentOneMore(store, ids, i);
      if ids[i] in store.updates {
        list := list + [store.updates[ids[i]]];
      }
    }
    assert ids[..|ids|] == ids;
    return Some(list);
  }

  ghost function Present(store: Store, ids: seq<Id>): seq<TripUpdate> {
    if ids == [] then []
    else
      var n := |ids| - 1;
      Present(store, ids[..n]) + if ids[n] in store.updates then [store.updates[ids[n]]] else []
  }

  lemma PresentOneMore(store: Store, ids: seq<Id>, i: nat)
    requires i < |ids|
    ensures Present(store, ids[..i + 1])
         == Present(store, ids[..i]) + if ids[i] in store.updates then [store.updates[ids[i]]] else []
  {
    assert ids[..i + 1][..i] == ids[..i];
  }
}
