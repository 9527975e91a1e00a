/** The leaders' round-robin assignments on leased keys: chateaux and realtime feeds to Aspen workers
    (backend/src/aspen/aspen_assignment.rs:81-249), feeds to Alpenrose workers
    (backend/src/alpenrose/leader_job.rs:34-185). */
module Assignments {
  import opened Counting
  import opened LeasedWrites
  import Strings

  datatype Role = Aspen | Alpenrose

  /** A worker keeps its id, socket and lease id for life (backend/src/aspen/main.rs:1554-1645). */
  datatype Worker = Worker(id: string, role: Role, socket: string, lease: int)

  datatype Key = ChateauKey(chateau: string) | FeedKey(feed: string) | PollKey(worker: string, feed: string)

  datatype Value = Serving(worker: string, socket: string)
                 | ServingFeed(worker: string, socket: string, chateau: string)
                 | Poll(instruction: string)

  type Entries = map<Key, Entry<Value>>

  datatype Chateau = Chateau(id: string, feeds: seq<string>)

  datatype Feed = Feed(id: string, instruction: string)

  /** The worker an assignment names: in its value, or in its key for polling instructions. */
  function Named(k: Key, v: Value): string {
    match v
    case Serving(w, _) => w
    case ServingFeed(w, _, _) => w
    case Poll(_) => if k.PollKey? then k.worker else ""
  }

  /** The sorted list of the registered workers of one role. */
  ghost predicate Roster(names: seq<string>, workers: map<string, Worker>, role: Role) {
    && Strings.Ascending(names)
    && forall w :: w in names <==> w in workers && workers[w].role == role
  }

  // ---- The plans ----

  function FeedPuts(feeds: seq<string>, w: Worker, chateau: string): Plan<Key, Value> {
    if feeds == [] then []
    else
      var n := |feeds| - 1;
      FeedPuts(feeds[..n], w, chateau) + [(FeedKey(feeds[n]), Entry(ServingFeed(w.id, w.socket, chateau), w.lease))]
  }

  function ChateauPuts(c: Chateau, w: Worker): Plan<Key, Value> {
    [(ChateauKey(c.id), Entry(Serving(w.id, w.socket), w.lease))] + FeedPuts(c.feeds, w, c.id)
  }

  function WorkerAt(names: seq<string>, workers: map<string, Worker>, i: nat): Worker
    requires names != [] && forall w :: w in names ==> w in workers
  {
    workers[names[i % |names|]]
  }

  /** The puts for the first n chateaux, chateau i going to worker i modulo their number. */
  function AspenPlan(chateaux: seq<Chateau>, names: seq<string>, workers: map<string, Worker>, n: nat): Plan<Key, Value>
    requires n <= |chateaux| && names != [] && forall w :: w in names ==> w in workers
  {
    if n == 0 then []
    else AspenPlan(chateaux, names, workers, n - 1) + ChateauPuts(chateaux[n - 1], WorkerAt(names, workers, n - 1))
  }

  function PollPlan(feeds: seq<Feed>, names: seq<string>, workers: map<string, Worker>, n: nat): Plan<Key, Value>
    requires n <= |feeds| && names != [] && forall w :: w in names ==> w in workers
  {
    if n == 0 then []
    else
      var w := WorkerAt(names, workers, n - 1);
      var put := (PollKey(w.id, feeds[n - 1].id), Entry(Poll(feeds[n - 1].instruction), w.lease));
      PollPlan(feeds, names, workers, n - 1) + [put]
  }

  // ---- The shared store ----

  class Etcd {
    var workers: map<string, Worker>
    var entries: Entries

    constructor ()
      ensures workers == map[] && entries == map[]
    {
      workers, entries := map[], map[];
    }

    method Put(k: Key, e: Entry<Value>)
      modifies this`entries
      ensures entries == old(entries)[k := e]
    {
      entries := entries[k := e];
    }

    method SortedWorkers(role: Role) returns (names: seq<string>)
      ensures Roster(names, workers, role)
    {
      var ids := SetToSeq(set w | w in workers && workers[w].role == role);
      names := Strings.SortedUnique(ids);
    }

    /** The feeds of one chateau follow it to its worker. */
    method AssignFeeds(existing: Entries, ghost before: Plan<Key, Value>, chateau: Chateau, w: Worker)
      requires entries == Differential(existing, existing, before)
      modifies this`entries
      ensures entries == Differential(existing, existing, before + FeedPuts(chateau.feeds, w, chateau.id))
    {
      hide Agrees, Differential;
      assert before + FeedPuts([], w, chateau.id) == before;
      for j := 0 to |chateau.feeds|
        invariant entries == Differential(existing, existing, before + FeedPuts(chateau.feeds[..j], w, chateau.id))
      {
        var feed := chateau.feeds[j];
        var put := (FeedKey(feed), Entry(ServingFeed(w.id, w.socket, chateau.id), w.lease));
        assert chateau.feeds[..j + 1][..j] == chateau.feeds[..j];
        assert before + FeedPuts(chateau.feeds[..j + 1], w, chateau.id)
            == before + FeedPuts(chateau.feeds[..j], w, chateau.id) + [put];
        DifferentialSnoc(existing, existing, before + FeedPuts(chateau.feeds[..j], w, chateau.id), put);
        if !Agrees(existing, put) {
          Put(put.0, put.1);
        }
      }
      assert chateau.feeds[..|chateau.feeds|] == chateau.feeds;
    }

    /** One round of the Aspen leader: with no worker nothing is assigned. */
    method AssignChateaus(chateaux: seq<Chateau>) returns (ghost names: seq<string>)
      requires forall w :: w in workers ==> workers[w].id == w
      modifies this`entries
      ensures Roster(names, workers, Aspen)
      ensures names == [] ==> entries == old(entries)
      ensures names != [] ==>
                entries == Differential(old(entries), old(entries), AspenPlan(chateaux, names, workers, |chateaux|))
    {
      hide Agrees, FeedPuts;
      var sorted := SortedWorkers(Aspen);
      names := sorted;
      if sorted == [] {
        return;
      }
      var existing := entries;
      for i := 0 to |chateaux|
        invariant entries == Differential(existing, existing, AspenPlan(chateaux, names, workers, i))
      {
        var w := WorkerAt(sorted, workers, i);
        var chateau := chateaux[i];
        ghost var before := AspenPlan(chateaux, names, workers, i);
        var put := (ChateauKey(chateau.id), Entry(Serving(w.id, w.socket), w.lease));
        DifferentialSnoc(existing, existing, before, put);
        if !Agrees(existing, put) {
          Put(put.0, put.1);
        }
        AssignFeeds(existing, before + [put], chateau, w);
        assert before + [put] + FeedPuts(chateau.feeds, w, chateau.id) == before + ChateauPuts(chateau, w);
      }
    }

    /** One reassignment of the Alpenrose leader; without workers the division by their number panics
        as soon as there is a feed. */
    method PerformLeaderJob(feeds: seq<Feed>) returns (ghost names: seq<string>, panicked: bool)
      requires forall w :: w in workers ==> workers[w].id == w
      modifies this`entries
      ensures Roster(names, workers, Alpenrose)
      ensures panicked <==> names == [] && feeds != []
      ensures names == [] ==> entries == old(entries)
      ensures names != [] ==>
                entries == Differential(old(entries), old(entries), PollPlan(feeds, names, workers, |feeds|))
    {
      hide Agrees;
      var sorted := SortedWorkers(Alpenrose);
      names := sorted;
      if sorted == [] {
        return names, feeds != [];
      }
      var existing := entries;
      for i := 0 to |feeds|
        invariant entries == Differential(existing, existing, PollPlan(feeds, names, workers, i))
      {
        var w := WorkerAt(sorted, workers, i);
        var put := (PollKey(w.id, feeds[i].id), Entry(Poll(feeds[i].instruction), w.lease));
        DifferentialSnoc(existing, existing, PollPlan(feeds, names, workers, i), put);
        if !Agrees(existing, put) {
          Put(put.0, put.1);
        }
      }
      panicked := false;
    }
  }

  lemma DifferentialSnoc(store: Entries, before: Entries, plan: Plan<Key, Value>, put: (Key, Entry<Value>))
    ensures Differential(store, before, plan + [put]) ==
              if Agrees(before, put) then Differential(store, before, plan)
              else Differential(store, before, plan)[put.0 := put.1]
  {
    assert (plan + [put])[..|plan|] == plan;
  }
}
