/** What the leaders' rounds guarantee (backend/src/aspen/aspen_assignment.rs:108-242,
    backend/src/alpenrose/leader_job.rs:79-169), singly and over any run of registrations, lease
    expiries and rounds. No lease expires inside a round. */
module AssignmentRuns {
  import opened Wrappers
  import opened Counting
  import opened LeasedWrites
  import opened Assignments
  import Strings

  /** Every worker there will ever be, filed under its id. */
  ghost predicate FleetOk(fleet: map<string, Worker>) {
    forall w :: w in fleet ==> fleet[w].id == w
  }

  datatype State = State(workers: map<string, Worker>, entries: Entries)

  /** The assignment names a registered worker, hangs on that worker's lease and carries its socket. */
  ghost predicate Hangs(workers: map<string, Worker>, k: Key, e: Entry<Value>) {
    var w := Named(k, e.value);
    && w in workers && e.lease == workers[w].lease
    && (e.value.Serving? ==> e.value.socket == workers[w].socket)
    && (e.value.ServingFeed? ==> e.value.socket == workers[w].socket)
    && (e.value.Poll? <==> k.PollKey?)
  }

  ghost predicate AllHang(fleet: map<string, Worker>, s: State) {
    && (forall w :: w in s.workers ==> w in fleet && s.workers[w] == fleet[w])
    && forall k :: k in s.entries ==> Hangs(s.workers, k, s.entries[k])
  }

  // ---- Plans only make entries that hang ----

  ghost predicate PutsHang(workers: map<string, Worker>, plan: Plan<Key, Value>) {
    forall i :: 0 <= i < |plan| ==> Hangs(workers, plan[i].0, plan[i].1)
  }

  lemma {:induction false} FeedPutsHang(workers: map<string, Worker>, feeds: seq<string>, w: Worker, chateau: string)
    requires w.id in workers && workers[w.id] == w
    ensures PutsHang(workers, FeedPuts(feeds, w, chateau))
  {
    if feeds != [] { FeedPutsHang(workers, feeds[..|feeds| - 1], w, chateau); }
  }

  ghost predicate Registered(names: seq<string>, workers: map<string, Worker>) {
    names != [] && forall w :: w in names ==> w in workers && workers[w].id == w
  }

  lemma {:induction false} AspenPlanHangs(chateaux: seq<Chateau>, names: seq<string>, workers: map<string, Worker>,
                                          n: nat)
    requires n <= |chateaux| && Registered(names, workers)
    ensures PutsHang(workers, AspenPlan(chateaux, names, workers, n))
  {
    hide Hangs;
    if n > 0 {
      AspenPlanHangs(chateaux, names, workers, n - 1);
      var w := WorkerAt(names, workers, n - 1);
      FeedPutsHang(workers, chateaux[n - 1].feeds, w, chateaux[n - 1].id);
      ServingHangs(workers, w, chateaux[n - 1].id);
    }
  }

  lemma ServingHangs(workers: map<string, Worker>, w: Worker, chateau: string)
    requires w.id in workers && workers[w.id] == w
    ensures Hangs(workers, ChateauKey(chateau), Entry(Serving(w.id, w.socket), w.lease))
  {
  }

  lemma {:induction false} PollPlanHangs(feeds: seq<Feed>, names: seq<string>, workers: map<string, Worker>, n: nat)
    requires n <= |feeds| && Registered(names, workers)
    ensures PutsHang(workers, PollPlan(feeds, names, workers, n))
  {
    if n > 0 { PollPlanHangs(feeds, names, workers, n - 1); }
  }

  /** Comparing values alone is enough: an entry that hangs has the lease the round would give it. */
  lemma HangingLeasesAgree(workers: map<string, Worker>, entries: Entries, plan: Plan<Key, Value>)
    requires forall k :: k in entries ==> Hangs(workers, k, entries[k])
    requires PutsHang(workers, plan)
    ensures SameLeases(entries, plan)
  {
    forall i | 0 <= i < |plan| && Agrees(entries, plan[i]) ensures entries[plan[i].0] == plan[i].1 {
      assert Hangs(workers, plan[i].0, entries[plan[i].0]) && Hangs(workers, plan[i].0, plan[i].1);
    }
  }

  // ---- One round ----

  /** Chateau ids differ and no realtime feed is listed twice. */
  ghost predicate ListedOnce(chateaux: seq<Chateau>) {
    && (forall i, j :: 0 <= i < j < |chateaux| ==> chateaux[i].id != chateaux[j].id)
    && (forall i :: 0 <= i < |chateaux| ==> Distinct(chateaux[i].feeds))
    && forall i, j, f :: 0 <= i < j < |chateaux| && f in chateaux[i].feeds ==> f !in chateaux[j].feeds
  }

  lemma {:induction false} FeedPutsAt(feeds: seq<string>, w: Worker, chateau: string)
    ensures |FeedPuts(feeds, w, chateau)| == |feeds|
    ensures forall j :: 0 <= j < |feeds| ==>
              FeedPuts(feeds, w, chateau)[j] ==
                (FeedKey(feeds[j]), Entry(ServingFeed(w.id, w.socket, chateau), w.lease))
  {
    if feeds != [] { FeedPutsAt(feeds[..|feeds| - 1], w, chateau); }
  }

  /** A key that is put for chateau c. */
  ghost predicate KeyFor(c: Chateau, k: Key) {
    k == ChateauKey(c.id) || (k.FeedKey? && k.feed in c.feeds)
  }

  ghost predicate KeyAmong(chateaux: seq<Chateau>, n: nat, k: Key)
    requires n <= |chateaux|
  {
    exists i :: 0 <= i < n && KeyFor(chateaux[i], k)
  }

  lemma ChateauPutKeys(c: Chateau, w: Worker)
    ensures forall q :: 0 <= q < |ChateauPuts(c, w)| ==> KeyFor(c, ChateauPuts(c, w)[q].0)
    ensures Distinct(c.feeds) ==> DistinctKeys(ChateauPuts(c, w))
  {
    hide FeedPuts;
    FeedPutsAt(c.feeds, w, c.id);
    assert forall j :: 0 <= j < |c.feeds| ==> c.feeds[j] in c.feeds;
  }

  lemma KeyIsNew(chateaux: seq<Chateau>, i: nat, n: nat, k: Key)
    requires ListedOnce(chateaux) && i < n < |chateaux| && KeyFor(chateaux[i], k)
    ensures !KeyFor(chateaux[n], k)
  {
  }

  lemma KeysAppend(front: Plan<Key, Value>, back: Plan<Key, Value>)
    requires DistinctKeys(front) && DistinctKeys(back)
    requires forall p, q :: 0 <= p < |front| && 0 <= q < |back| ==> front[p].0 != back[q].0
    ensures DistinctKeys(front + back)
  {
  }

  lemma {:induction false} AspenPlanKeys(chateaux: seq<Chateau>, names: seq<string>, workers: map<string, Worker>,
                                         n: nat)
    requires n <= |chateaux| && Registered(names, workers) && ListedOnce(chateaux)
    ensures DistinctKeys(AspenPlan(chateaux, names, workers, n))
    ensures forall p :: 0 <= p < |AspenPlan(chateaux, names, workers, n)| ==>
              KeyAmong(chateaux, n, AspenPlan(chateaux, names, workers, n)[p].0)
  {
    hide ChateauPuts, KeyFor, DistinctKeys, WorkerAt, ListedOnce;
    if n == 0 {
      assert DistinctKeys(AspenPlan(chateaux, names, workers, n)) by { NoKeys(); }
    } else {
      AspenPlanKeys(chateaux, names, workers, n - 1);
      var c, w := chateaux[n - 1], WorkerAt(names, workers, n - 1);
      var front, back := AspenPlan(chateaux, names, workers, n - 1), ChateauPuts(c, w);
      ChateauPutKeys(c, w);
      FeedsDistinct(chateaux, n - 1);
      forall p, q | 0 <= p < |front| && 0 <= q < |back| ensures front[p].0 != back[q].0 {
        var i :| 0 <= i < n - 1 && KeyFor(chateaux[i], front[p].0);
        KeyIsNew(chateaux, i, n - 1, front[p].0);
      }
      KeysAppend(front, back);
    }
  }

  lemma FeedsDistinct(chateaux: seq<Chateau>, i: nat)
    requires ListedOnce(chateaux) && i < |chateaux|
    ensures Distinct(chateaux[i].feeds)
  {
  }

  lemma NoKeys()
    ensures DistinctKeys<Key, Value>([])
  {
  }

  /** From position p on the plan puts chateau c and its feeds. */
  ghost predicate PutsAt(plan: Plan<Key, Value>, p: nat, c: Chateau, w: Worker) {
    && p + |c.feeds| < |plan|
    && plan[p] == (ChateauKey(c.id), Entry(Serving(w.id, w.socket), w.lease))
    && forall j :: 0 <= j < |c.feeds| ==>
         plan[p + 1 + j] == (FeedKey(c.feeds[j]), Entry(ServingFeed(w.id, w.socket, c.id), w.lease))
  }

  lemma ChateauPutsAt(before: Plan<Key, Value>, c: Chateau, w: Worker)
    ensures PutsAt(before + ChateauPuts(c, w), |before|, c, w)
  {
    FeedPutsAt(c.feeds, w, c.id);
  }

  lemma PutsStay(plan: Plan<Key, Value>, more: Plan<Key, Value>, p: nat, c: Chateau, w: Worker)
    requires PutsAt(plan, p, c, w)
    ensures PutsAt(plan + more, p, c, w)
  {
  }

  /** Where in the plan the puts for chateau i are. */
  lemma {:induction false} AspenPlanHas(chateaux: seq<Chateau>, names: seq<string>, workers: map<string, Worker>,
                                        n: nat, i: nat) returns (p: nat)
    requires i < n <= |chateaux| && Registered(names, workers)
    ensures PutsAt(AspenPlan(chateaux, names, workers, n), p, chateaux[i], WorkerAt(names, workers, i))
  {
    hide PutsAt, ChateauPuts, WorkerAt;
    var front := AspenPlan(chateaux, names, workers, n - 1);
    var w := WorkerAt(names, workers, n - 1);
    if i == n - 1 {
      p := |front|;
      ChateauPutsAt(front, chateaux[i], w);
    } else {
      p := AspenPlanHas(chateaux, names, workers, n - 1, i);
      PutsStay(front, ChateauPuts(chateaux[n - 1], w), p, chateaux[i], WorkerAt(names, workers, i));
    }
  }

  ghost predicate AspenRound(s: State, chateaux: seq<Chateau>, names: seq<string>, t: State) {
    && Roster(names, s.workers, Aspen) && t.workers == s.workers
    && (forall w :: w in s.workers ==> s.workers[w].id == w)
    && t.entries == if names == [] then s.entries
                    else Differential(s.entries, s.entries, AspenPlan(chateaux, names, s.workers, |chateaux|))
  }

  /** A round that skips agreeing keys leaves the same store as one that rewrites everything exactly
      when the plan is steady; listing every feed only once is enough for that. */
  lemma RoundIsRewrite(fleet: map<string, Worker>, s: State, chateaux: seq<Chateau>, names: seq<string>, t: State)
    requires FleetOk(fleet) && AllHang(fleet, s) && AspenRound(s, chateaux, names, t) && names != []
    ensures t.entries == Rewrite(s.entries, AspenPlan(chateaux, names, s.workers, |chateaux|)) <==>
              Steady(s.entries, AspenPlan(chateaux, names, s.workers, |chateaux|))
    ensures ListedOnce(chateaux) ==> Steady(s.entries, AspenPlan(chateaux, names, s.workers, |chateaux|))
  {
    hide Hangs, Strings.Ascending, ListedOnce, AspenPlan, Steady, SameLeases, Differential, Rewrite, PutsHang,
         DistinctKeys;
    var plan := AspenPlan(chateaux, names, s.workers, |chateaux|);
    AspenPlanHangs(chateaux, names, s.workers, |chateaux|);
    HangingLeasesAgree(s.workers, s.entries, plan);
    DifferentialIff(s.entries, plan);
    if ListedOnce(chateaux) {
      AspenPlanKeys(chateaux, names, s.workers, |chateaux|);
      DistinctIsSteady(s.entries, plan);
    }
  }

  /** Every chateau and each of its feeds is then assigned to worker i modulo the number of workers,
      with that worker's socket and lease. */
  lemma RoundAssigns(fleet: map<string, Worker>, s: State, chateaux: seq<Chateau>, names: seq<string>, t: State,
                     i: nat, j: nat)
    requires FleetOk(fleet) && AllHang(fleet, s) && AspenRound(s, chateaux, names, t) && names != []
    requires ListedOnce(chateaux)
    requires i < |chateaux|
    ensures names[i % |names|] in s.workers
    ensures var c, w := chateaux[i], s.workers[names[i % |names|]];
            && ChateauKey(c.id) in t.entries && t.entries[ChateauKey(c.id)] == Entry(Serving(w.id, w.socket), w.lease)
            && (j < |c.feeds| ==>
                  && FeedKey(c.feeds[j]) in t.entries
                  && t.entries[FeedKey(c.feeds[j])] == Entry(ServingFeed(w.id, w.socket, c.id), w.lease))
  {
    hide Hangs, Strings.Ascending, ListedOnce, AspenPlan, Steady, SameLeases, Differential, Rewrite, PutsHang;
    var plan := AspenPlan(chateaux, names, s.workers, |chateaux|);
    RoundIsRewrite(fleet, s, chateaux, names, t);
    AspenPlanKeys(chateaux, names, s.workers, |chateaux|);
    var p := AspenPlanHas(chateaux, names, s.workers, |chateaux|, i);
    RewriteLast(s.entries, plan, p);
    if j < |chateaux[i].feeds| {
      RewriteLast(s.entries, plan, p + 1 + j);
    }
  }

  // ---- A feed listed under two chateaux ----

  function At(entries: Entries, k: Key): Option<Entry<Value>> {
    if k in entries then Some(entries[k]) else None
  }

  /** The put that chateau k makes for feed f. */
  function FeedPut(chateaux: seq<Chateau>, names: seq<string>, workers: map<string, Worker>, k: nat, f: string)
    : (Key, Entry<Value>)
    requires k < |chateaux| && names != [] && forall w :: w in names ==> w in workers
  {
    var w := workers[names[k % |names|]];
    (FeedKey(f), Entry(ServingFeed(w.id, w.socket, chateaux[k].id), w.lease))
  }

  /** A chateau's puts change the entry of f only if f is among its feeds and the snapshot disagrees. */
  lemma {:induction false} FeedPutsEffect(store: Entries, before: Entries, plan: Plan<Key, Value>, feeds: seq<string>,
                                          w: Worker, chateau: string, f: string)
    ensures var put := (FeedKey(f), Entry(ServingFeed(w.id, w.socket, chateau), w.lease));
            At(Differential(store, before, plan + FeedPuts(feeds, w, chateau)), FeedKey(f)) ==
              if f in feeds && !Agrees(before, put) then Some(put.1)
              else At(Differential(store, before, plan), FeedKey(f))
  {
    hide Agrees, Differential;
    if feeds == [] {
      assert plan + [] == plan;
    } else {
      var n := |feeds| - 1;
      FeedPutsEffect(store, before, plan, feeds[..n], w, chateau, f);
      var last := (FeedKey(feeds[n]), Entry(ServingFeed(w.id, w.socket, chateau), w.lease));
      assert plan + FeedPuts(feeds, w, chateau) == plan + FeedPuts(feeds[..n], w, chateau) + [last];
      DifferentialSnoc(store, before, plan + FeedPuts(feeds[..n], w, chateau), last);
      assert f in feeds <==> f in feeds[..n] || f == feeds[n];
    }
  }

  lemma ChateauPutsEffect(store: Entries, before: Entries, plan: Plan<Key, Value>, c: Chateau, w: Worker, f: string)
    ensures var put := (FeedKey(f), Entry(ServingFeed(w.id, w.socket, c.id), w.lease));
            At(Differential(store, before, plan + ChateauPuts(c, w)), FeedKey(f)) ==
              if f in c.feeds && !Agrees(before, put) then Some(put.1)
              else At(Differential(store, before, plan), FeedKey(f))
  {
    hide Agrees, Differential, FeedPuts;
    var first := (ChateauKey(c.id), Entry(Serving(w.id, w.socket), w.lease));
    assert plan + ChateauPuts(c, w) == plan + [first] + FeedPuts(c.feeds, w, c.id);
    FeedPutsEffect(store, before, plan + [first], c.feeds, w, c.id, f);
    DifferentialSnoc(store, before, plan, first);
  }

  ghost predicate ListedTwice(chateaux: seq<Chateau>, i: nat, j: nat, f: string) {
    i < j < |chateaux| && forall k :: 0 <= k < |chateaux| ==> (f in chateaux[k].feeds <==> k == i || k == j)
  }

  lemma {:induction false} SharedFeedAfter(store: Entries, before: Entries, chateaux: seq<Chateau>, names: seq<string>,
                                           workers: map<string, Worker>, n: nat, i: nat, j: nat, f: string)
    requires n <= |chateaux| && names != [] && forall w :: w in names ==> w in workers
    requires ListedTwice(chateaux, i, j, f)
    ensures var first, second := FeedPut(chateaux, names, workers, i, f), FeedPut(chateaux, names, workers, j, f);
            At(Differential(store, before, AspenPlan(chateaux, names, workers, n)), FeedKey(f)) ==
              if j < n && !Agrees(before, second) then Some(second.1)
              else if i < n && !Agrees(before, first) then Some(first.1)
              else At(store, FeedKey(f))
  {
    hide Agrees, Differential, ChateauPuts, At;
    if n == 0 {
      assert Differential(store, before, []) == store by { NothingPut(store, before); }
    } else {
      SharedFeedAfter(store, before, chateaux, names, workers, n - 1, i, j, f);
      var w := WorkerAt(names, workers, n - 1);
      ChateauPutsEffect(store, before, AspenPlan(chateaux, names, workers, n - 1), chateaux[n - 1], w, f);
    }
  }

  lemma NothingPut(store: Entries, before: Entries)
    ensures Differential(store, before, []) == store
  {
  }

  /** Rewriting is a differential round that has read nothing. */
  lemma {:induction false} RewriteIsBlind(store: Entries, plan: Plan<Key, Value>)
    ensures Differential(store, map[], plan) == Rewrite(store, plan)
  {
    if plan != [] { RewriteIsBlind(store, plan[..|plan| - 1]); }
  }

  /** One round leaves a feed listed under the chateaux i < j with j exactly if the store did not
      already have it there, whether with i or with neither; otherwise it goes back to i. */
  lemma SharedFeedRound(s: State, chateaux: seq<Chateau>, names: seq<string>, t: State, i: nat, j: nat, f: string)
    requires AspenRound(s, chateaux, names, t) && names != []
    requires ListedTwice(chateaux, i, j, f) && chateaux[i].id != chateaux[j].id
    ensures var first, second := FeedPut(chateaux, names, s.workers, i, f), FeedPut(chateaux, names, s.workers, j, f);
            && (Agrees(t.entries, second) <==> !Agrees(s.entries, second))
            && (Agrees(t.entries, first) <==> Agrees(s.entries, second))
            && Agrees(Rewrite(s.entries, AspenPlan(chateaux, names, s.workers, |chateaux|)), second)
  {
    hide Differential, Rewrite, AspenPlan, WorkerAt, Strings.Ascending, ListedTwice;
    var plan := AspenPlan(chateaux, names, s.workers, |chateaux|);
    TwoIndices(chateaux, i, j, f);
    SharedFeedAfter(s.entries, s.entries, chateaux, names, s.workers, |chateaux|, i, j, f);
    SharedFeedAfter(s.entries, map[], chateaux, names, s.workers, |chateaux|, i, j, f);
    RewriteIsBlind(s.entries, plan);
  }

  lemma TwoIndices(chateaux: seq<Chateau>, i: nat, j: nat, f: string)
    requires ListedTwice(chateaux, i, j, f)
    ensures i < j < |chateaux|
  {
  }

  /** So it changes hands in every following round, while full rewrites would leave it with j. */
  lemma SharedFeedFlips(s: State, chateaux: seq<Chateau>, names: seq<string>, t: State, u: State, i: nat, j: nat,
                        f: string)
    requires AspenRound(s, chateaux, names, t) && AspenRound(t, chateaux, names, u) && names != []
    requires ListedTwice(chateaux, i, j, f) && chateaux[i].id != chateaux[j].id
    ensures var first, second := FeedPut(chateaux, names, s.workers, i, f), FeedPut(chateaux, names, s.workers, j, f);
            && (Agrees(t.entries, first) || Agrees(t.entries, second))
            && (Agrees(t.entries, first) ==> Agrees(u.entries, second) && !Agrees(u.entries, first))
            && (Agrees(t.entries, second) ==> Agrees(u.entries, first) && !Agrees(u.entries, second))
            && Agrees(Rewrite(t.entries, AspenPlan(chateaux, names, s.workers, |chateaux|)), second)
  {
    hide Differential, Rewrite, AspenPlan, WorkerAt, Strings.Ascending, ListedTwice, Roster;
    TwoIndices(chateaux, i, j, f);
    SharedFeedRound(s, chateaux, names, t, i, j, f);
    SharedFeedRound(t, chateaux, names, u, i, j, f);
  }

  const ONLY := Worker("w", Aspen, "socket", 1)
  const BOTH: seq<Chateau> := [Chateau("A", ["f"]), Chateau("B", ["f"])]
  const HELD := State(map["w" := ONLY], map[FeedKey("f") := Entry(ServingFeed("w", "socket", "B"), 1)])

  /** One worker, one feed under two chateaux, and a store that has it with the second: a differential
      round takes it back to the first, where rewriting leaves it. */
  lemma SharedFeedMoves()
    ensures var plan := AspenPlan(BOTH, ["w"], HELD.workers, 2);
            Differential(HELD.entries, HELD.entries, plan) != Rewrite(HELD.entries, plan)
  {
    hide AspenPlan, Differential, Rewrite;
    var after := State(HELD.workers, Differential(HELD.entries, HELD.entries, AspenPlan(BOTH, ["w"], HELD.workers, 2)));
    assert Roster(["w"], HELD.workers, Aspen);
    assert ListedTwice(BOTH, 0, 1, "f") by { assert "f" in BOTH[0].feeds && "f" in BOTH[1].feeds; }
    assert "A"[0] != "B"[0];
    assert WorkerAt(["w"], HELD.workers, 1) == ONLY;
    SharedFeedRound(HELD, BOTH, ["w"], after, 0, 1, "f");
  }

  // ---- Load balance ----

  /** How many of the first m positions fall on worker j of n. */
  function LoadAt(m: nat, n: nat, j: nat): nat
    requires n > 0
  {
    if m == 0 then 0 else LoadAt(m - 1, n, j) + if (m - 1) % n == j then 1 else 0
  }

  lemma {:induction false} LoadIs(m: nat, n: nat, j: nat)
    requires j < n
    ensures LoadAt(m, n, j) == m / n + if j < m % n then 1 else 0
  {
    if m > 0 {
      LoadIs(m - 1, n, j);
      DivModStep(m - 1, n);
    } else {
      assert 0 / n == 0 && 0 % n == 0;
    }
  }

  lemma DivModStep(m: nat, n: nat)
    requires n > 0
    ensures m % n == n - 1 ==> (m + 1) / n == m / n + 1 && (m + 1) % n == 0
    ensures m % n < n - 1 ==> (m + 1) / n == m / n && (m + 1) % n == m % n + 1
  {
    var q, r := m / n, m % n;
    DivMod(m, n);
    if r == n - 1 {
      MulSucc(n, q);
      DivModUnique(m + 1, n, q + 1, 0);
    } else {
      DivModUnique(m + 1, n, q, r + 1);
    }
  }

  lemma DivMod(m: nat, n: nat)
    requires n > 0
    ensures m == n * (m / n) + m % n
  {
  }

  lemma MulSucc(n: nat, q: int)
    ensures n * (q + 1) == n * q + n
  {
  }

  lemma {:induction false} MulMono(n: nat, a: nat, b: nat)
    requires a <= b
    ensures n * a <= n * b
  {
    if a < b {
      MulMono(n, a, b - 1);
      MulSucc(n, b - 1);
    }
  }

  lemma DivModUnique(m: nat, n: nat, q: nat, r: nat)
    requires n > 0 && r < n && m == n * q + r
    ensures m / n == q && m % n == r
  {
    var a := m / n;
    DivMod(m, n);
    MulSucc(n, q);
    MulSucc(n, a);
    if a > q { MulMono(n, q + 1, a); }
    if a < q { MulMono(n, a + 1, q); }
  }

  ghost function Load(names: seq<string>, m: nat, w: string): nat
    requires names != []
  {
    if m == 0 then 0 else Load(names, m - 1, w) + if names[(m - 1) % |names|] == w then 1 else 0
  }

  lemma {:induction false} LoadOfName(names: seq<string>, m: nat, j: nat)
    requires Distinct(names) && j < |names|
    ensures Load(names, m, names[j]) == LoadAt(m, |names|, j)
  {
    if m > 0 { LoadOfName(names, m - 1, j); }
  }

  /** Round robin: of m positions any two workers get as many, up to one. */
  lemma LoadsDifferByOne(names: seq<string>, m: nat, v: string, w: string)
    requires Distinct(names) && v in names && w in names
    ensures Load(names, m, v) <= Load(names, m, w) + 1
  {
    var i :| 0 <= i < |names| && names[i] == v;
    var j :| 0 <= j < |names| && names[j] == w;
    LoadOfName(names, m, i);
    LoadOfName(names, m, j);
    LoadIs(m, |names|, i);
    LoadIs(m, |names|, j);
  }

  /** The put that hands chateau i to its worker. */
  function ServingPut(chateaux: seq<Chateau>, names: seq<string>, workers: map<string, Worker>, i: nat)
    : (Key, Entry<Value>)
    requires i < |chateaux| && names != [] && forall w :: w in names ==> w in workers
  {
    var w := workers[names[i % |names|]];
    (ChateauKey(chateaux[i].id), Entry(Serving(w.id, w.socket), w.lease))
  }

  lemma {:induction false} FeedPutsElsewhere(store: Entries, before: Entries, plan: Plan<Key, Value>,
                                             feeds: seq<string>, w: Worker, chateau: string, k: Key)
    requires !k.FeedKey?
    ensures At(Differential(store, before, plan + FeedPuts(feeds, w, chateau)), k) ==
              At(Differential(store, before, plan), k)
  {
    hide Agrees, Differential;
    if feeds == [] {
      assert plan + [] == plan;
    } else {
      var n := |feeds| - 1;
      FeedPutsElsewhere(store, before, plan, feeds[..n], w, chateau, k);
      var last := (FeedKey(feeds[n]), Entry(ServingFeed(w.id, w.socket, chateau), w.lease));
      assert plan + FeedPuts(feeds, w, chateau) == plan + FeedPuts(feeds[..n], w, chateau) + [last];
      DifferentialSnoc(store, before, plan + FeedPuts(feeds[..n], w, chateau), last);
    }
  }

  lemma ServingEffect(store: Entries, before: Entries, plan: Plan<Key, Value>, c: Chateau, w: Worker, id: string)
    ensures var put := (ChateauKey(c.id), Entry(Serving(w.id, w.socket), w.lease));
            At(Differential(store, before, plan + ChateauPuts(c, w)), ChateauKey(id)) ==
              if c.id == id && !Agrees(before, put) then Some(put.1)
              else At(Differential(store, before, plan), ChateauKey(id))
  {
    hide Agrees, Differential, FeedPuts;
    var put := (ChateauKey(c.id), Entry(Serving(w.id, w.socket), w.lease));
    assert plan + ChateauPuts(c, w) == plan + [put] + FeedPuts(c.feeds, w, c.id);
    FeedPutsElsewhere(store, before, plan + [put], c.feeds, w, c.id, ChateauKey(id));
    DifferentialSnoc(store, before, plan, put);
  }

  ghost predicate DistinctIds(chateaux: seq<Chateau>) {
    forall i, j :: 0 <= i < j < |chateaux| ==> chateaux[i].id != chateaux[j].id
  }

  lemma {:induction false} ServingAfter(store: Entries, chateaux: seq<Chateau>, names: seq<string>,
                                        workers: map<string, Worker>, n: nat, i: nat)
    requires n <= |chateaux| && i < |chateaux| && DistinctIds(chateaux)
    requires names != [] && forall w :: w in names ==> w in workers
    ensures var put := ServingPut(chateaux, names, workers, i);
            At(Differential(store, store, AspenPlan(chateaux, names, workers, n)), put.0) ==
              if i < n && !Agrees(store, put) then Some(put.1) else At(store, put.0)
  {
    hide Agrees, Differential, ChateauPuts, At;
    if n == 0 {
      NothingPut(store, store);
    } else {
      ServingAfter(store, chateaux, names, workers, n - 1, i);
      var w := WorkerAt(names, workers, n - 1);
      ServingEffect(store, store, AspenPlan(chateaux, names, workers, n - 1), chateaux[n - 1], w, chateaux[i].id);
    }
  }

  /** A round leaves every chateau with the worker whose turn it is, also when feeds are shared. */
  lemma RoundServes(s: State, chateaux: seq<Chateau>, names: seq<string>, t: State, i: nat)
    requires AspenRound(s, chateaux, names, t) && names != [] && DistinctIds(chateaux) && i < |chateaux|
    ensures names[i % |names|] in s.workers
    ensures var k, w := ChateauKey(chateaux[i].id), s.workers[names[i % |names|]];
            k in t.entries && t.entries[k].value == Serving(w.id, w.socket)
  {
    hide Differential, AspenPlan, Strings.Ascending, DistinctIds;
    ServingAfter(s.entries, chateaux, names, s.workers, |chateaux|, i);
  }

  /** How many of the first n chateaux the entries assign to worker w. */
  ghost function Served(entries: Entries, chateaux: seq<Chateau>, n: nat, w: string): nat
    requires n <= |chateaux|
  {
    if n == 0 then 0
    else
      var k := ChateauKey(chateaux[n - 1].id);
      Served(entries, chateaux, n - 1, w) + if k in entries && Named(k, entries[k].value) == w then 1 else 0
  }

  lemma {:induction false} ServedIsLoad(s: State, chateaux: seq<Chateau>, names: seq<string>, t: State,
                                        n: nat, w: string)
    requires AspenRound(s, chateaux, names, t) && names != [] && DistinctIds(chateaux) && n <= |chateaux|
    ensures Served(t.entries, chateaux, n, w) == Load(names, n, w)
  {
    hide AspenRound, DistinctIds;
    if n > 0 {
      ServedIsLoad(s, chateaux, names, t, n - 1, w);
      RosterNames(s, chateaux, names, t);
      RoundServes(s, chateaux, names, t, n - 1);
      assert names[(n - 1) % |names|] in names;
    }
  }

  lemma RosterNames(s: State, chateaux: seq<Chateau>, names: seq<string>, t: State)
    requires AspenRound(s, chateaux, names, t)
    ensures Distinct(names) && forall v :: v in names ==> v in s.workers && s.workers[v].id == v
  {
  }

  /** After a round, of the listed chateaux any two workers of the rota have as many, up to one. */
  lemma RoundIsBalanced(s: State, chateaux: seq<Chateau>, names: seq<string>, t: State, v: string, w: string)
    requires AspenRound(s, chateaux, names, t) && DistinctIds(chateaux) && v in names && w in names
    ensures Served(t.entries, chateaux, |chateaux|, v) <= Served(t.entries, chateaux, |chateaux|, w) + 1
  {
    hide AspenRound, DistinctIds;
    RosterNames(s, chateaux, names, t);
    ServedIsLoad(s, chateaux, names, t, |chateaux|, v);
    ServedIsLoad(s, chateaux, names, t, |chateaux|, w);
    LoadsDifferByOne(names, |chateaux|, v, w);
  }

  // ---- Polling assignments ----

  lemma {:induction false} PollPlanAt(feeds: seq<Feed>, names: seq<string>, workers: map<string, Worker>, n: nat)
    requires n <= |feeds| && Registered(names, workers)
    ensures |PollPlan(feeds, names, workers, n)| == n
    ensures forall i :: 0 <= i < n ==>
              var w := WorkerAt(names, workers, i);
              PollPlan(feeds, names, workers, n)[i] ==
                (PollKey(w.id, feeds[i].id), Entry(Poll(feeds[i].instruction), w.lease))
  {
    if n > 0 { PollPlanAt(feeds, names, workers, n - 1); }
  }

  ghost predicate PollRound(s: State, feeds: seq<Feed>, names: seq<string>, t: State) {
    && Roster(names, s.workers, Alpenrose) && t.workers == s.workers
    && (forall w :: w in s.workers ==> s.workers[w].id == w)
    && t.entries == if names == [] then s.entries
                    else Differential(s.entries, s.entries, PollPlan(feeds, names, s.workers, |feeds|))
  }

  ghost predicate Polls(s: State, w: string, f: string) {
    PollKey(w, f) in s.entries
  }

  lemma PollRoundIsRewrite(fleet: map<string, Worker>, s: State, feeds: seq<Feed>, names: seq<string>, t: State)
    requires FleetOk(fleet) && AllHang(fleet, s) && PollRound(s, feeds, names, t) && names != []
    requires forall a, b :: 0 <= a < b < |feeds| ==> feeds[a].id != feeds[b].id
    ensures t.entries == Rewrite(s.entries, PollPlan(feeds, names, s.workers, |feeds|))
    ensures DistinctKeys(PollPlan(feeds, names, s.workers, |feeds|))
  {
    hide Hangs, Strings.Ascending, PollPlan, Steady, SameLeases, Differential, Rewrite, PutsHang, WorkerAt;
    var plan := PollPlan(feeds, names, s.workers, |feeds|);
    PollPlanHangs(feeds, names, s.workers, |feeds|);
    PollPlanAt(feeds, names, s.workers, |feeds|);
    HangingLeasesAgree(s.workers, s.entries, plan);
    DistinctIsSteady(s.entries, plan);
    DifferentialIff(s.entries, plan);
  }

  /** After a polling round every feed has its instruction under the worker whose turn it is; besides
      that worker exactly those poll it that did before, since stale keys are not deleted. */
  lemma PollersAfterRound(fleet: map<string, Worker>, s: State, feeds: seq<Feed>, names: seq<string>, t: State, i: nat)
    requires FleetOk(fleet) && AllHang(fleet, s) && PollRound(s, feeds, names, t) && names != [] && i < |feeds|
    requires forall a, b :: 0 <= a < b < |feeds| ==> feeds[a].id != feeds[b].id
    ensures names[i % |names|] in s.workers
    ensures var w := s.workers[names[i % |names|]];
            && Polls(t, w.id, feeds[i].id)
            && t.entries[PollKey(w.id, feeds[i].id)] == Entry(Poll(feeds[i].instruction), w.lease)
            && forall v :: Polls(t, v, feeds[i].id) <==> v == w.id || Polls(s, v, feeds[i].id)
  {
    hide Hangs, Strings.Ascending, PollPlan, Rewrite, Differential;
    var plan, f := PollPlan(feeds, names, s.workers, |feeds|), feeds[i].id;
    PollRoundIsRewrite(fleet, s, feeds, names, t);
    PollPlanAt(feeds, names, s.workers, |feeds|);
    RewriteLast(s.entries, plan, i);
    var w := WorkerAt(names, s.workers, i);
    forall v | v != w.id ensures Polls(t, v, f) <==> Polls(s, v, f) {
      forall p | 0 <= p < |plan| ensures plan[p].0 != PollKey(v, f) {
        if p != i { assert feeds[p].id != f; }
      }
      RewriteOther(s.entries, plan, PollKey(v, f));
    }
  }

  // ---- Runs ----

  datatype Step = Register(worker: string) | Expire(lease: int)
                | Assign(chateaux: seq<Chateau>, names: seq<string>) | Distribute(feeds: seq<Feed>, rota: seq<string>)

  /** An expiring lease takes the registration and every key that hangs on it. */
  ghost predicate Next(fleet: map<string, Worker>, s: State, step: Step, t: State) {
    match step
    case Register(w) => w in fleet && t == State(s.workers[w := fleet[w]], s.entries)
    case Expire(lease) =>
      && t.workers == (map w | w in s.workers && s.workers[w].lease != lease :: s.workers[w])
      && t.entries == (map k | k in s.entries && s.entries[k].lease != lease :: s.entries[k])
    case Assign(chateaux, names) => AspenRound(s, chateaux, names, t)
    case Distribute(feeds, rota) => PollRound(s, feeds, rota, t)
  }

  ghost predicate Run(fleet: map<string, Worker>, states: seq<State>, steps: seq<Step>) {
    && |states| == |steps| + 1 && states[0] == State(map[], map[])
    && forall i, j {:trigger steps[i], states[j]} :: 0 <= i < |steps| && j == i + 1 ==>
         Next(fleet, states[i], steps[i], states[j])
  }

  lemma RoundHangs(fleet: map<string, Worker>, s: State, plan: Plan<Key, Value>, t: State)
    requires AllHang(fleet, s) && PutsHang(s.workers, plan)
    requires t == State(s.workers, Differential(s.entries, s.entries, plan))
    ensures AllHang(fleet, t)
  {
    hide Hangs;
    forall k | k in t.entries ensures Hangs(t.workers, k, t.entries[k]) {
      DifferentialFrom(s.entries, s.entries, plan, k);
    }
  }

  lemma NextHangs(fleet: map<string, Worker>, s: State, step: Step, t: State)
    requires FleetOk(fleet) && AllHang(fleet, s) && Next(fleet, s, step, t)
    ensures AllHang(fleet, t)
  {
    match step {
      case Register(w) =>
        forall k | k in t.entries ensures Hangs(t.workers, k, t.entries[k]) {
          assert Hangs(s.workers, k, s.entries[k]);
        }
      case Expire(lease) =>
        forall k | k in t.entries ensures Hangs(t.workers, k, t.entries[k]) {
          assert Hangs(s.workers, k, s.entries[k]);
        }
      case Assign(chateaux, names) =>
        if names != [] {
          AspenPlanHangs(chateaux, names, s.workers, |chateaux|);
          RoundHangs(fleet, s, AspenPlan(chateaux, names, s.workers, |chateaux|), t);
        }
      case Distribute(feeds, rota) =>
        if rota != [] {
          PollPlanHangs(feeds, rota, s.workers, |feeds|);
          RoundHangs(fleet, s, PollPlan(feeds, rota, s.workers, |feeds|), t);
        }
    }
  }

  /** Over any run, every assignment hangs on the lease of the registered worker it names, so none
      outlives its worker. */
  lemma {:induction false} AlwaysHang(fleet: map<string, Worker>, states: seq<State>, steps: seq<Step>, i: nat)
    requires FleetOk(fleet) && Run(fleet, states, steps) && i < |states|
    ensures AllHang(fleet, states[i])
  {
    hide AllHang, Next;
    if i == 0 {
      EmptyHangs(fleet);
    } else {
      AlwaysHang(fleet, states, steps, i - 1);
      assert Next(fleet, states[i - 1], steps[i - 1], states[i]);
      NextHangs(fleet, states[i - 1], steps[i - 1], states[i]);
    }
  }

  lemma EmptyHangs(fleet: map<string, Worker>)
    ensures AllHang(fleet, State(map[], map[]))
  {
  }
}
