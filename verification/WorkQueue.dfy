/** The chateau work queue shared by submission handlers and worker threads as a step system
    (backend/src/aspen/main.rs:852-923, 1140-1205; backend/src/aspen/async_threads_alpenrose.rs:95-143).
    Every access to the store, the queue, the lock and the locked set is a step of its own. */
module WorkQueue {
  type Chateau = string

  /** A handler that has found new data: store its parts, lock, look the chateau up, and unless it is listed
      insert it and push a task before unlocking. Two paths differ: a handler may leave after storing,
      because it stores without news (main.rs:1140, 1186) or is aborted while it waits for the lock, and
      one may take the lock without having stored anything (main.rs:902-906). */
  datatype Handler =
    | Resting
    | Stored(chateau: Chateau)
    | Locked(chateau: Chateau)
    | Absent(chateau: Chateau)
    | Inserted(chateau: Chateau)
    | Unlocking(chateau: Chateau)

  /** A worker: steal a task, read the store, process, lock, remove the chateau, unlock. */
  datatype Worker =
    | Idle
    | Stolen(chateau: Chateau)
    | Processing(chateau: Chateau)
    | Removing(chateau: Chateau)
    | Removed(chateau: Chateau)

  datatype Owner = Nobody | ByHandler(h: nat) | ByWorker(w: nat)

  /** stored and seen count the writes to a chateau's feeds and the writes its last reader saw; leaked
      remembers the chateaux whose worker panicked. */
  datatype State = State(lock: Owner, queue: seq<Chateau>, listed: set<Chateau>,
                         handlers: seq<Handler>, workers: seq<Worker>,
                         stored: map<Chateau, nat>, seen: map<Chateau, nat>, leaked: set<Chateau>)

  datatype Step =
    | Store(h: nat, chateau: Chateau)
    | StoreMore(h: nat)
    | Leave(h: nat)
    | LockHandler(h: nat)
    | LockOnly(h: nat, chateau: Chateau)
    | Check(h: nat)
    | Insert(h: nat)
    | Push(h: nat)
    | UnlockHandler(h: nat)
    | Steal(w: nat)
    | Read(w: nat)
    | LockWorker(w: nat)
    | Remove(w: nat)
    | UnlockWorker(w: nat)
    | PanicWorker(w: nat)

  function Version(m: map<Chateau, nat>, c: Chateau): nat {
    if c in m then m[c] else 0
  }

  ghost predicate Dirty(s: State, c: Chateau) {
    Version(s.stored, c) > Version(s.seen, c)
  }

  /** A task for c is queued, or stolen but yet to read the store. */
  ghost predicate WillRead(s: State, c: Chateau) {
    c in s.queue || exists w :: 0 <= w < |s.workers| && s.workers[w] == Stolen(c)
  }

  ghost predicate Enabled(s: State, step: Step) {
    match step
    case Store(h, c) => h < |s.handlers| && s.handlers[h].Resting?
    case StoreMore(h) => h < |s.handlers| && s.handlers[h].Stored?
    case Leave(h) => h < |s.handlers| && s.handlers[h].Stored?
    case LockHandler(h) => h < |s.handlers| && s.handlers[h].Stored? && s.lock == Nobody
    case LockOnly(h, c) => h < |s.handlers| && s.handlers[h].Resting? && s.lock == Nobody
    case Check(h) => h < |s.handlers| && s.handlers[h].Locked?
    case Insert(h) => h < |s.handlers| && s.handlers[h].Absent?
    case Push(h) => h < |s.handlers| && s.handlers[h].Inserted?
    case UnlockHandler(h) => h < |s.handlers| && s.handlers[h].Unlocking?
    case Steal(w) => w < |s.workers| && s.workers[w].Idle? && s.queue != []
    case Read(w) => w < |s.workers| && s.workers[w].Stolen?
    case LockWorker(w) => w < |s.workers| && s.workers[w].Processing? && s.lock == Nobody
    case Remove(w) => w < |s.workers| && s.workers[w].Removing?
    case UnlockWorker(w) => w < |s.workers| && s.workers[w].Removed?
    case PanicWorker(w) => w < |s.workers| && (s.workers[w].Stolen? || s.workers[w].Processing?)
  }

  ghost function Next(s: State, step: Step): State
    requires Enabled(s, step)
  {
    match step
    case Store(h, c) => s.(handlers := s.handlers[h := Stored(c)], stored := s.stored[c := Version(s.stored, c) + 1])
    case StoreMore(h) =>
      var c := s.handlers[h].chateau;
      s.(stored := s.stored[c := Version(s.stored, c) + 1])
    case Leave(h) => s.(handlers := s.handlers[h := Resting])
    case LockOnly(h, c) => s.(handlers := s.handlers[h := Locked(c)], lock := ByHandler(h))
    case LockHandler(h) => s.(handlers := s.handlers[h := Locked(s.handlers[h].chateau)], lock := ByHandler(h))
    case Check(h) =>
      var c := s.handlers[h].chateau;
      s.(handlers := s.handlers[h := if c in s.listed then Unlocking(c) else Absent(c)])
    case Insert(h) =>
      var c := s.handlers[h].chateau;
      s.(handlers := s.handlers[h := Inserted(c)], listed := s.listed + {c})
    case Push(h) =>
      var c := s.handlers[h].chateau;
      s.(handlers := s.handlers[h := Unlocking(c)], queue := s.queue + [c])
    case UnlockHandler(h) => s.(handlers := s.handlers[h := Resting], lock := Nobody)
    case Steal(w) => s.(workers := s.workers[w := Stolen(s.queue[0])], queue := s.queue[1..])
    case Read(w) =>
      var c := s.workers[w].chateau;
      s.(workers := s.workers[w := Processing(c)], seen := s.seen[c := Version(s.stored, c)])
    case LockWorker(w) => s.(workers := s.workers[w := Removing(s.workers[w].chateau)], lock := ByWorker(w))
    case Remove(w) =>
      var c := s.workers[w].chateau;
      s.(workers := s.workers[w := Removed(c)], listed := s.listed - {c})
    case UnlockWorker(w) => s.(workers := s.workers[w := Idle], lock := Nobody)
    case PanicWorker(w) => s.(workers := s.workers[w := Idle], leaked := s.leaked + {s.workers[w].chateau})
  }

  ghost function Start(numHandlers: nat, numWorkers: nat): State {
    State(Nobody, [], {}, seq(numHandlers, _ => Resting), seq(numWorkers, _ => Idle), map[], map[], {})
  }

  ghost predicate Moves(s: State, step: Step, t: State) {
    Enabled(s, step) && t == Next(s, step)
  }

  /** The states an interleaving passes through. */
  ghost predicate Execution(states: seq<State>, steps: seq<Step>) {
    && |states| == |steps| + 1
    && states[0] == Start(|states[0].handlers|, |states[0].workers|)
    && forall i, j {:trigger steps[i], states[j]} :: 0 <= i < |steps| && j == i + 1 ==>
         Moves(states[i], steps[i], states[j])
  }

  // ---- Tokens: the permission to process a chateau ----

  predicate WorkerHas(w: Worker, c: Chateau) {
    match w
    case Idle => false
    case Stolen(d) => c == d
    case Processing(d) => c == d
    case Removing(d) => c == d
    case Removed(_) => false
  }

  function InWorkers(workers: seq<Worker>, c: Chateau): nat {
    if workers == [] then 0
    else InWorkers(workers[..|workers| - 1], c) + if WorkerHas(workers[|workers| - 1], c) then 1 else 0
  }

  function InHandlers(handlers: seq<Handler>, c: Chateau): nat {
    if handlers == [] then 0
    else InHandlers(handlers[..|handlers| - 1], c) + if handlers[|handlers| - 1] == Inserted(c) then 1 else 0
  }

  /** Queued tasks, workers busy and handlers about to push, for one chateau. */
  function Tokens(s: State, c: Chateau): nat {
    multiset(s.queue)[c] + InWorkers(s.workers, c) + InHandlers(s.handlers, c)
  }

  predicate HandlerLocks(h: Handler) {
    h.Locked? || h.Absent? || h.Inserted? || h.Unlocking?
  }

  predicate WorkerLocks(w: Worker) {
    w.Removing? || w.Removed?
  }

  ghost predicate LockOk(s: State) {
    && (forall h :: 0 <= h < |s.handlers| ==> (HandlerLocks(s.handlers[h]) <==> s.lock == ByHandler(h)))
    && forall w :: 0 <= w < |s.workers| ==> (WorkerLocks(s.workers[w]) <==> s.lock == ByWorker(w))
  }

  /** A chateau is listed exactly when one token for it exists or its worker panicked. */
  ghost predicate TokensOkFor(s: State, c: Chateau) {
    Tokens(s, c) + (if c in s.leaked then 1 else 0) == if c in s.listed then 1 else 0
  }

  ghost predicate TokensOk(s: State) {
    forall c :: TokensOkFor(s, c)
  }

  ghost predicate AbsentOk(s: State) {
    forall h :: 0 <= h < |s.handlers| && s.handlers[h].Absent? ==> s.handlers[h].chateau !in s.listed
  }

  ghost predicate InFlight(s: State, c: Chateau) {
    exists h :: 0 <= h < |s.handlers| && (s.handlers[h] == Stored(c) || s.handlers[h] == Locked(c)
                                          || s.handlers[h] == Absent(c) || s.handlers[h] == Inserted(c))
  }

  /** No reader has seen more than was written. */
  ghost predicate SeenOk(s: State) {
    forall c :: Version(s.seen, c) <= Version(s.stored, c)
  }

  ghost predicate Inv(s: State) {
    LockOk(s) && TokensOk(s) && AbsentOk(s) && SeenOk(s)
  }

  // ---- Counting ----

  lemma {:induction false} InWorkersUpdate(workers: seq<Worker>, i: nat, w: Worker, c: Chateau)
    requires i < |workers|
    ensures InWorkers(workers[i := w], c) + (if WorkerHas(workers[i], c) then 1 else 0)
         == InWorkers(workers, c) + (if WorkerHas(w, c) then 1 else 0)
  {
    var n := |workers| - 1;
    if i < n {
      InWorkersUpdate(workers[..n], i, w, c);
      assert workers[i := w][..n] == workers[..n][i := w];
    } else {
      assert workers[i := w][..n] == workers[..n];
    }
  }

  lemma {:induction false} InHandlersUpdate(handlers: seq<Handler>, i: nat, h: Handler, c: Chateau)
    requires i < |handlers|
    ensures InHandlers(handlers[i := h], c) + (if handlers[i] == Inserted(c) then 1 else 0)
         == InHandlers(handlers, c) + (if h == Inserted(c) then 1 else 0)
  {
    var n := |handlers| - 1;
    if i < n {
      InHandlersUpdate(handlers[..n], i, h, c);
      assert handlers[i := h][..n] == handlers[..n][i := h];
    } else {
      assert handlers[i := h][..n] == handlers[..n];
    }
  }

  lemma {:induction false} InWorkersHas(workers: seq<Worker>, i: nat, c: Chateau)
    requires i < |workers| && WorkerHas(workers[i], c)
    ensures InWorkers(workers, c) >= 1
    ensures forall j :: 0 <= j < |workers| && j != i && WorkerHas(workers[j], c) ==> InWorkers(workers, c) >= 2
  {
    InWorkersUpdate(workers, i, Idle, c);
    var rest := workers[i := Idle];
    forall j | 0 <= j < |workers| && j != i && WorkerHas(workers[j], c) ensures InWorkers(workers, c) >= 2 {
      InWorkersUpdate(rest, j, Idle, c);
    }
  }

  lemma {:induction false} NoneAtStart(n: nat, c: Chateau)
    ensures InWorkers(seq(n, _ => Idle), c) == 0 && InHandlers(seq(n, _ => Resting), c) == 0
  {
    if n > 0 {
      var ws, hs := seq(n, _ => Idle), seq(n, _ => Resting);
      assert ws[..n - 1] == seq(n - 1, _ => Idle) && hs[..n - 1] == seq(n - 1, _ => Resting);
      NoneAtStart(n - 1, c);
    }
  }

  // ---- Every step keeps the invariant ----

  lemma StartInv(numHandlers: nat, numWorkers: nat)
    ensures Inv(Start(numHandlers, numWorkers))
  {
    var s := Start(numHandlers, numWorkers);
    forall c ensures Tokens(s, c) == 0 {
      NoneAtStart(numHandlers, c);
      NoneAtStart(numWorkers, c);
    }
  }

  ghost predicate HandlerStep(step: Step) {
    || step.Store? || step.StoreMore? || step.Leave? || step.LockHandler? || step.LockOnly? || step.Check?
    || step.Insert? || step.Push? || step.UnlockHandler?
  }

  lemma NextLock(s: State, step: Step)
    requires LockOk(s) && Enabled(s, step)
    ensures LockOk(Next(s, step))
  {
    if HandlerStep(step) { NextLockHandler(s, step); } else { NextLockWorker(s, step); }
  }

  lemma NextLockHandler(s: State, step: Step)
    requires LockOk(s) && Enabled(s, step) && HandlerStep(step)
    ensures LockOk(Next(s, step))
  {
    hide Dirty, WillRead, Version, WorkerLocks;
  }

  lemma NextLockWorker(s: State, step: Step)
    requires LockOk(s) && Enabled(s, step) && !HandlerStep(step)
    ensures LockOk(Next(s, step))
  {
    hide Dirty, WillRead, Version, HandlerLocks;
  }

  lemma NextAbsent(s: State, step: Step)
    requires LockOk(s) && AbsentOk(s) && Enabled(s, step)
    ensures AbsentOk(Next(s, step))
  {
    hide Dirty, WillRead, Version;
  }

  lemma NextTokens(s: State, step: Step)
    requires TokensOk(s) && AbsentOk(s) && Enabled(s, step)
    ensures TokensOk(Next(s, step))
  {
    hide TokensOkFor, Next, Enabled, AbsentOk;
    forall c ensures TokensOkFor(Next(s, step), c) { NextTokensFor(s, step, c); }
  }

  lemma NextTokensFor(s: State, step: Step, c: Chateau)
    requires TokensOkFor(s, c) && AbsentOk(s) && Enabled(s, step)
    ensures TokensOkFor(Next(s, step), c)
  {
    hide Dirty, WillRead, Version, Tokens;
    NextTokensOf(s, step, c);
    if step.PanicWorker? && s.workers[step.w].chateau == c { BusyHasToken(s, step.w, c); }
  }

  lemma BusyHasToken(s: State, w: nat, c: Chateau)
    requires w < |s.workers| && WorkerHas(s.workers[w], c)
    ensures Tokens(s, c) >= 1
  {
    InWorkersHas(s.workers, w, c);
  }

  /** How a step changes the tokens of c: an insertion adds one, a release or a panic takes one. */
  function TokenChange(s: State, step: Step, c: Chateau): int
    requires step.Insert? ==> step.h < |s.handlers| && s.handlers[step.h].Absent?
    requires step.Remove? || step.PanicWorker? ==> step.w < |s.workers| && !s.workers[step.w].Idle?
  {
    (if step.Insert? && s.handlers[step.h].chateau == c then 1 else 0)
    - (if (step.Remove? || step.PanicWorker?) && s.workers[step.w].chateau == c then 1 else 0)
  }

  lemma NextTokensOf(s: State, step: Step, c: Chateau)
    requires Enabled(s, step)
    ensures Tokens(Next(s, step), c) == Tokens(s, c) + TokenChange(s, step, c)
  {
    hide Next, Tokens, TokenChange;
    if HandlerStep(step) { HandlerTokens(s, step, c); } else { WorkerTokens(s, step, c); }
  }

  lemma HandlerTokens(s: State, step: Step, c: Chateau)
    requires Enabled(s, step) && HandlerStep(step)
    ensures Tokens(Next(s, step), c) == Tokens(s, c) + TokenChange(s, step, c)
  {
    hide Dirty, WillRead, Version, InWorkers, InHandlers, WorkerHas;
    var t := Next(s, step);
    InHandlersUpdate(s.handlers, step.h, t.handlers[step.h], c);
    assert t.handlers == s.handlers[step.h := t.handlers[step.h]];
  }

  lemma WorkerTokens(s: State, step: Step, c: Chateau)
    requires Enabled(s, step) && !HandlerStep(step)
    ensures Tokens(Next(s, step), c) == Tokens(s, c) + TokenChange(s, step, c)
  {
    hide Dirty, WillRead, Version, InWorkers, InHandlers;
    var t := Next(s, step);
    InWorkersUpdate(s.workers, step.w, t.workers[step.w], c);
    if step.Steal? { assert s.queue == [s.queue[0]] + s.queue[1..]; }
  }

  lemma WillReadKept(s: State, step: Step, c: Chateau)
    requires Enabled(s, step) && WillRead(s, c)
    requires !(step.Read? && s.workers[step.w] == Stolen(c)) && !(step.PanicWorker? && s.workers[step.w] == Stolen(c))
    ensures WillRead(Next(s, step), c)
  {
    hide Dirty, Version;
    var t := Next(s, step);
    if step.Steal? && c in s.queue {
      assert s.queue == [s.queue[0]] + s.queue[1..];
      assert t.workers[step.w] == Stolen(s.queue[0]);
    } else if c !in s.queue {
      var w :| 0 <= w < |s.workers| && s.workers[w] == Stolen(c);
      assert t.workers[w] == Stolen(c);
    }
  }

  lemma InFlightKept(s: State, step: Step, c: Chateau)
    requires Enabled(s, step) && InFlight(s, c)
    requires step.Check? || step.Push? || step.Leave? ==> s.handlers[step.h].chateau != c
    ensures InFlight(Next(s, step), c)
  {
    hide Dirty, Version, WillRead;
    var h :| 0 <= h < |s.handlers| && (s.handlers[h] == Stored(c) || s.handlers[h] == Locked(c)
                                       || s.handlers[h] == Absent(c) || s.handlers[h] == Inserted(c));
    var n := Next(s, step).handlers[h];
    assert n == Stored(c) || n == Locked(c) || n == Absent(c) || n == Inserted(c);
  }

  lemma NextSeen(s: State, step: Step)
    requires SeenOk(s) && Enabled(s, step)
    ensures SeenOk(Next(s, step))
  {
    hide WillRead;
  }

  /** A handler's check finds the chateau listed because a worker that has read it is still busy. */
  ghost predicate ComesTooLate(s: State, step: Step, c: Chateau) {
    && step.Check? && step.h < |s.handlers| && s.handlers[step.h] == Locked(c) && c in s.listed
    && exists w :: 0 <= w < |s.workers| && s.workers[w] == Processing(c)
  }

  /** A handler that has stored data for c goes without looking the chateau up. */
  ghost predicate Abandons(s: State, step: Step, c: Chateau) {
    step.Leave? && step.h < |s.handlers| && s.handlers[step.h] == Stored(c)
  }

  /** Every step leaves unread data on its way to a reader, unless the step is a check that comes too
      late, or a handler leaves after storing, or a worker has panicked. */
  lemma NextData(s: State, step: Step, c: Chateau)
    requires LockOk(s) && TokensOk(s) && Enabled(s, step)
    requires Dirty(s, c) ==> WillRead(s, c) || InFlight(s, c)
    requires Dirty(Next(s, step), c)
    ensures var t := Next(s, step);
            || WillRead(t, c) || InFlight(t, c) || c in t.leaked || ComesTooLate(s, step, c) || Abandons(s, step, c)
  {
    hide WillRead, InFlight, LockOk, TokensOk, ComesTooLate;
    var t := Next(s, step);
    if step.Store? && step.chateau == c {
      FlyingHandler(t, step.h, c);
    } else if step.StoreMore? && s.handlers[step.h].chateau == c {
      FlyingHandler(t, step.h, c);
    } else if step.Read? && s.workers[step.w].chateau == c {
    } else if WillRead(s, c) {
      if step.PanicWorker? && s.workers[step.w] == Stolen(c) {
      } else {
        WillReadKept(s, step, c);
      }
    } else if step.Push? && s.handlers[step.h].chateau == c {
      QueuedReads(t, c);
    } else if step.Check? && s.handlers[step.h].chateau == c {
      if c !in s.listed {
        FlyingHandler(t, step.h, c);
      } else if c !in s.leaked {
        CheckFinds(s, step.h, c);
      }
    } else if step.Leave? && s.handlers[step.h].chateau == c {
    } else {
      InFlightKept(s, step, c);
    }
  }

  /** The token of a listed chateau, as seen by a handler that holds the lock. */
  lemma CheckFinds(s: State, h: nat, c: Chateau)
    requires LockOk(s) && TokensOk(s) && h < |s.handlers| && s.handlers[h] == Locked(c)
    requires c in s.listed && c !in s.leaked && !WillRead(s, c)
    ensures ComesTooLate(s, Check(h), c)
  {
    hide InHandlers, InWorkers;
    assert TokensOkFor(s, c) && s.lock == ByHandler(h);
    assert c in s.queue <==> c in multiset(s.queue);
    if InHandlers(s.handlers, c) > 0 {
      var i := HandlerToken(s.handlers, c);
      assert false;
    }
    var w := WorkerToken(s.workers, c);
    assert !WorkerLocks(s.workers[w]);
    assert s.workers[w] == Processing(c);
  }

  lemma {:induction false} WorkerToken(workers: seq<Worker>, c: Chateau) returns (w: nat)
    requires InWorkers(workers, c) > 0
    ensures w < |workers| && WorkerHas(workers[w], c)
  {
    var n := |workers| - 1;
    if WorkerHas(workers[n], c) { w := n; } else { w := WorkerToken(workers[..n], c); }
  }

  lemma {:induction false} HandlerToken(handlers: seq<Handler>, c: Chateau) returns (h: nat)
    requires InHandlers(handlers, c) > 0
    ensures h < |handlers| && handlers[h] == Inserted(c)
  {
    var n := |handlers| - 1;
    if handlers[n] == Inserted(c) { h := n; } else { h := HandlerToken(handlers[..n], c); }
  }

  lemma FlyingHandler(s: State, h: nat, c: Chateau)
    requires h < |s.handlers| && (s.handlers[h] == Stored(c) || s.handlers[h] == Absent(c))
    ensures InFlight(s, c)
  {
  }

  lemma QueuedReads(s: State, c: Chateau)
    requires c in s.queue
    ensures WillRead(s, c)
  {
  }

  lemma ExecutionStep(states: seq<State>, steps: seq<Step>, i: nat)
    requires Execution(states, steps) && i < |steps|
    ensures |states| == |steps| + 1
    ensures Enabled(states[i], steps[i]) && states[i + 1] == Next(states[i], steps[i])
  {
    hide Enabled, Next;
    var t := states[i + 1];
    assert Moves(states[i], steps[i], t);
  }

  /** In every interleaving, whatever the number of handlers and workers. */
  lemma {:induction false} AlwaysInv(states: seq<State>, steps: seq<Step>, i: nat)
    requires Execution(states, steps) && i < |states|
    ensures Inv(states[i])
  {
    hide LockOk, TokensOk, AbsentOk, SeenOk, Next, Enabled;
    if i == 0 {
      StartInv(|states[0].handlers|, |states[0].workers|);
    } else {
      AlwaysInv(states, steps, i - 1);
      var s, step := states[i - 1], steps[i - 1];
      ExecutionStep(states, steps, i - 1);
      NextLock(s, step);
      NextAbsent(s, step);
      NextTokens(s, step);
      NextSeen(s, step);
    }
  }

  // ---- The main results ----

  /** Without a panic, a chateau is in the shared set exactly when one task for it is queued, being
      pushed or being worked on; so no two workers ever hold the same chateau. */
  lemma OneTokenEach(states: seq<State>, steps: seq<Step>, i: nat, c: Chateau)
    requires Execution(states, steps) && i < |states|
    ensures c !in states[i].leaked ==> Tokens(states[i], c) == if c in states[i].listed then 1 else 0
    ensures forall v, w :: 0 <= v < w < |states[i].workers| && WorkerHas(states[i].workers[v], c) ==>
              !WorkerHas(states[i].workers[w], c)
    ensures forall w :: 0 <= w < |states[i].workers| && WorkerHas(states[i].workers[w], c) ==> c !in states[i].queue
  {
    hide Execution;
    AlwaysInv(states, steps, i);
    var s := states[i];
    assert TokensOkFor(s, c);
    forall w | 0 <= w < |s.workers| && WorkerHas(s.workers[w], c)
      ensures c !in s.queue && forall v :: 0 <= v < |s.workers| && v != w ==> !WorkerHas(s.workers[v], c)
    {
      InWorkersHas(s.workers, w, c);
    }
  }

  /** A worker reads the feeds of c at this step. */
  ghost predicate ReadsAt(states: seq<State>, steps: seq<Step>, k: nat, w: nat, c: Chateau) {
    && k < |steps| && k < |states| && steps[k] == Read(w)
    && w < |states[k].workers| && states[k].workers[w] == Stolen(c)
  }

  /** A handler stores a part for c at this step. */
  ghost predicate WritesAt(states: seq<State>, steps: seq<Step>, k: nat, c: Chateau) {
    && k < |steps| && k < |states|
    && match steps[k]
       case Store(_, d) => d == c
       case StoreMore(h) => h < |states[k].handlers| && states[k].handlers[h] == Stored(c)
       case _ => false
  }

  ghost predicate NoReads(states: seq<State>, steps: seq<Step>, from: nat, to: nat, c: Chateau) {
    forall k: nat, w: nat :: from <= k < to ==> !ReadsAt(states, steps, k, w, c)
  }

  lemma StepVersions(states: seq<State>, steps: seq<Step>, k: nat, c: Chateau)
    requires Execution(states, steps) && k < |steps|
    ensures Version(states[k + 1].stored, c)
         == Version(states[k].stored, c) + if WritesAt(states, steps, k, c) then 1 else 0
    ensures (exists w :: ReadsAt(states, steps, k, w, c)) ==>
              Version(states[k + 1].seen, c) == Version(states[k].stored, c)
    ensures (forall w :: !ReadsAt(states, steps, k, w, c)) ==>
              Version(states[k + 1].seen, c) == Version(states[k].seen, c)
  {
    hide Execution;
    ExecutionStep(states, steps, k);
    if steps[k].Read? && states[k].workers[steps[k].w].chateau == c {
      assert ReadsAt(states, steps, k, steps[k].w, c);
    }
  }

  lemma {:induction false} StoredGrows(states: seq<State>, steps: seq<Step>, i: nat, j: nat, c: Chateau)
    requires Execution(states, steps) && i <= j < |states|
    ensures Version(states[i].stored, c) <= Version(states[j].stored, c)
    decreases j
  {
    hide Execution, WritesAt, ReadsAt, Version;
    ExecutionSize(states, steps);
    if i < j {
      StoredGrows(states, steps, i, j - 1, c);
      StepVersions(states, steps, j - 1, c);
    }
  }

  /** While nobody reads, what was seen stays; while nobody writes either, so does what is stored. */
  lemma {:induction false} StaysRead(states: seq<State>, steps: seq<Step>, i: nat, j: nat, c: Chateau)
    requires Execution(states, steps) && i <= j < |states| && NoReads(states, steps, i, j, c)
    ensures Version(states[j].seen, c) == Version(states[i].seen, c)
    ensures (forall m :: i <= m < j ==> !WritesAt(states, steps, m, c)) ==>
              Version(states[j].stored, c) == Version(states[i].stored, c)
    decreases j
  {
    hide Execution, WritesAt, ReadsAt, Version;
    ExecutionSize(states, steps);
    if i < j {
      StaysRead(states, steps, i, j - 1, c);
      StepVersions(states, steps, j - 1, c);
    }
  }

  /** What is stored for a chateau while its task is queued, or stolen but yet to read, is seen by a
      reader: later on either a task has been waiting all the time, or the data has been read, unless
      a worker of the chateau panicked. */
  lemma {:induction false} QueuedDataIsRead(states: seq<State>, steps: seq<Step>, i: nat, j: nat, c: Chateau)
    requires Execution(states, steps) && i <= j < |states| && WillRead(states[i], c)
    requires c !in states[j].leaked
    ensures (forall k :: i <= k <= j ==> WillRead(states[k], c))
         || Version(states[j].seen, c) >= Version(states[i].stored, c)
    decreases j
  {
    hide Execution, WillRead, ReadsAt, WritesAt, LockOk, TokensOk, AbsentOk, Version;
    ExecutionSize(states, steps);
    if i < j {
      if c in states[j - 1].leaked { LeakStays(states, steps, j - 1, c); }
      QueuedDataIsRead(states, steps, i, j - 1, c);
      AlwaysInv(states, steps, j - 1);
      StoredGrows(states, steps, i, j - 1, c);
      StepVersions(states, steps, j - 1, c);
      if WillRead(states[j - 1], c) { TaskWaits(states, steps, j - 1, c); }
    }
  }

  /** A waiting task keeps waiting until it reads or its worker panics. */
  lemma TaskWaits(states: seq<State>, steps: seq<Step>, k: nat, c: Chateau)
    requires Execution(states, steps) && k < |steps| && WillRead(states[k], c)
    ensures WillRead(states[k + 1], c) || c in states[k + 1].leaked || exists w :: ReadsAt(states, steps, k, w, c)
  {
    hide Execution, WillRead;
    ExecutionStep(states, steps, k);
    var s, step := states[k], steps[k];
    if step.Read? && s.workers[step.w] == Stolen(c) {
      assert ReadsAt(states, steps, k, step.w, c);
    } else if step.PanicWorker? && s.workers[step.w] == Stolen(c) {
    } else {
      WillReadKept(s, step, c);
    }
  }

  /** The read of a worker that is still processing c is the last one of c. */
  lemma {:induction false} LastRead(states: seq<State>, steps: seq<Step>, i: nat, w: nat, c: Chateau) returns (r: nat)
    requires Execution(states, steps) && i < |states|
    requires w < |states[i].workers| && states[i].workers[w] == Processing(c)
    ensures r < i && ReadsAt(states, steps, r, w, c) && NoReads(states, steps, r + 1, i, c)
  {
    hide Execution, NoReads, Tokens, TokensOk;
    ExecutionSize(states, steps);
    if i == 0 {
      FirstState(states, steps);
      assert false;
    } else {
      ExecutionStep(states, steps, i - 1);
      if steps[i - 1] == Read(w) {
        r := i - 1;
        assert NoReads(states, steps, r + 1, i, c) by { NoReadsYet(states, steps, i, c); }
      } else {
        r := LastRead(states, steps, i - 1, w, c);
        OthersDoNotRead(states, steps, i - 1, w, c);
        NoReadsMore(states, steps, r + 1, i - 1, c);
      }
    }
  }

  lemma OthersDoNotRead(states: seq<State>, steps: seq<Step>, k: nat, w: nat, c: Chateau)
    requires Execution(states, steps) && k < |states|
    requires w < |states[k].workers| && states[k].workers[w] == Processing(c)
    ensures forall v: nat :: !ReadsAt(states, steps, k, v, c)
  {
    hide Execution, Tokens, TokensOk;
    OneTokenEach(states, steps, k, c);
    assert WorkerHas(states[k].workers[w], c);
  }

  lemma FirstState(states: seq<State>, steps: seq<Step>)
    requires Execution(states, steps)
    ensures |states| > 0 && states[0] == Start(|states[0].handlers|, |states[0].workers|)
  {
  }

  lemma NoReadsYet(states: seq<State>, steps: seq<Step>, i: nat, c: Chateau)
    ensures NoReads(states, steps, i, i, c)
  {
  }

  lemma NoReadsMore(states: seq<State>, steps: seq<Step>, from: nat, i: nat, c: Chateau)
    requires NoReads(states, steps, from, i, c) && forall v :: !ReadsAt(states, steps, i, v, c)
    ensures NoReads(states, steps, from, i + 1, c)
  {
  }

  /** Before state i, worker w read c at step r, something was stored for c at step m, and a check at
      step k then found c listed while w was still processing it; nobody has read c since step r. */
  ghost predicate Missed(states: seq<State>, steps: seq<Step>, i: nat, c: Chateau, r: nat, m: nat, k: nat, w: nat) {
    && r < m < k < i && k < |steps| && k < |states|
    && ReadsAt(states, steps, r, w, c) && WritesAt(states, steps, m, c)
    && ComesTooLate(states[k], steps[k], c) && w < |states[k].workers| && states[k].workers[w] == Processing(c)
    && NoReads(states, steps, r + 1, i, c)
  }

  ghost predicate IsMissed(states: seq<State>, steps: seq<Step>, i: nat, c: Chateau) {
    exists r: nat, m: nat, k: nat, w: nat :: Missed(states, steps, i, c, r, m, k, w)
  }

  lemma MissedIsDirty(states: seq<State>, steps: seq<Step>, i: nat, c: Chateau)
    requires Execution(states, steps) && i < |states| && IsMissed(states, steps, i, c)
    ensures Dirty(states[i], c)
  {
    hide Execution, ReadsAt, WritesAt, Version, ComesTooLate;
    ExecutionSize(states, steps);
    var r: nat, m: nat, k: nat, w: nat :| Missed(states, steps, i, c, r, m, k, w);
    StepVersions(states, steps, r, c);
    StaysRead(states, steps, r + 1, i, c);
    StoredGrows(states, steps, r, m, c);
    StepVersions(states, steps, m, c);
    StoredGrows(states, steps, m + 1, i, c);
  }

  /** A check that comes too late for unread data: who read last, and what was written since. */
  lemma LateCheck(states: seq<State>, steps: seq<Step>, k: nat, c: Chateau)
    requires Execution(states, steps) && k < |steps| && Dirty(states[k], c)
    requires ComesTooLate(states[k], steps[k], c)
    ensures IsMissed(states, steps, k + 1, c)
  {
    hide Execution, ReadsAt, WritesAt, NoReads, Version, Tokens, TokensOk;
    ExecutionSize(states, steps);
    var w :| 0 <= w < |states[k].workers| && states[k].workers[w] == Processing(c);
    var r := LastRead(states, steps, k, w, c);
    StepVersions(states, steps, r, c);
    StaysRead(states, steps, r + 1, k, c);
    ReadWritesNothing(states, steps, r, w, c);
    var m :| r + 1 <= m < k && WritesAt(states, steps, m, c);
    forall v ensures !ReadsAt(states, steps, k, v, c) { CheckIsNoRead(states, steps, k, v, c); }
    NoReadsMore(states, steps, r + 1, k, c);
    assert Missed(states, steps, k + 1, c, r, m, k, w);
  }

  lemma ReadWritesNothing(states: seq<State>, steps: seq<Step>, k: nat, w: nat, c: Chateau)
    requires ReadsAt(states, steps, k, w, c)
    ensures !WritesAt(states, steps, k, c)
  {
  }

  lemma CheckIsNoRead(states: seq<State>, steps: seq<Step>, k: nat, w: nat, c: Chateau)
    requires k < |steps| && steps[k].Check?
    ensures !ReadsAt(states, steps, k, w, c)
  {
  }

  /** Before state i something was stored for c at step m, and at step k handler h left with data stored
      for c; nobody has read c since step m. */
  ghost predicate Left(states: seq<State>, steps: seq<Step>, i: nat, c: Chateau, m: nat, k: nat) {
    && m < k < i && k < |steps| && k < |states|
    && WritesAt(states, steps, m, c) && Abandons(states[k], steps[k], c)
    && NoReads(states, steps, m + 1, i, c)
  }

  ghost predicate IsLeft(states: seq<State>, steps: seq<Step>, i: nat, c: Chateau) {
    exists m: nat, k: nat :: Left(states, steps, i, c, m, k)
  }

  lemma WriteIsDirty(states: seq<State>, steps: seq<Step>, m: nat, i: nat, c: Chateau)
    requires Execution(states, steps) && m < i < |states|
    requires WritesAt(states, steps, m, c) && NoReads(states, steps, m + 1, i, c)
    ensures Dirty(states[i], c)
  {
    hide Execution, ReadsAt, WritesAt, Version, LockOk, TokensOk, AbsentOk;
    ExecutionSize(states, steps);
    AlwaysInv(states, steps, m);
    forall w: nat ensures !ReadsAt(states, steps, m, w, c) {
      if ReadsAt(states, steps, m, w, c) { ReadWritesNothing(states, steps, m, w, c); }
    }
    StepVersions(states, steps, m, c);
    StaysRead(states, steps, m + 1, i, c);
    StoredGrows(states, steps, m + 1, i, c);
  }

  lemma LeftIsDirty(states: seq<State>, steps: seq<Step>, i: nat, c: Chateau)
    requires Execution(states, steps) && i < |states| && IsLeft(states, steps, i, c)
    ensures Dirty(states[i], c)
  {
    hide Execution, Abandons, Dirty, WritesAt, NoReads;
    var m: nat, k: nat :| Left(states, steps, i, c, m, k);
    WriteIsDirty(states, steps, m, i, c);
  }

  /** Unread data was written at some step, and nobody has read the chateau since. */
  lemma {:induction false} LastWrite(states: seq<State>, steps: seq<Step>, i: nat, c: Chateau) returns (m: nat)
    requires Execution(states, steps) && i < |states| && Dirty(states[i], c)
    ensures m < i && WritesAt(states, steps, m, c) && NoReads(states, steps, m + 1, i, c)
  {
    hide Execution, ReadsAt, WritesAt, NoReads, Version;
    ExecutionSize(states, steps);
    if i == 0 {
      FirstState(states, steps);
      assert false;
    } else {
      StepVersions(states, steps, i - 1, c);
      if WritesAt(states, steps, i - 1, c) {
        m := i - 1;
        NoReadsYet(states, steps, i, c);
      } else {
        NotReadIfDirty(states, steps, i - 1, c);
        m := LastWrite(states, steps, i - 1, c);
        NoReadsMore(states, steps, m + 1, i - 1, c);
      }
    }
  }

  lemma NotReadIfDirty(states: seq<State>, steps: seq<Step>, k: nat, c: Chateau)
    requires Execution(states, steps) && k < |steps| && Dirty(states[k + 1], c)
    ensures forall w: nat :: !ReadsAt(states, steps, k, w, c)
  {
    hide Execution, ReadsAt, WritesAt, Version;
    StepVersions(states, steps, k, c);
    forall w: nat ensures !ReadsAt(states, steps, k, w, c) {
      if ReadsAt(states, steps, k, w, c) { ReadWritesNothing(states, steps, k, w, c); }
    }
  }

  /** A handler that leaves unread data behind: the data was stored before and not read since. */
  lemma LeaveUnread(states: seq<State>, steps: seq<Step>, k: nat, c: Chateau)
    requires Execution(states, steps) && k < |steps| && Dirty(states[k], c) && Abandons(states[k], steps[k], c)
    ensures IsLeft(states, steps, k + 1, c)
  {
    hide Execution, WritesAt, NoReads, Dirty;
    ExecutionSize(states, steps);
    var m := LastWrite(states, steps, k, c);
    forall w: nat ensures !ReadsAt(states, steps, k, w, c) { }
    NoReadsMore(states, steps, m + 1, k, c);
    assert Left(states, steps, k + 1, c, m, k);
  }

  lemma LeftStays(states: seq<State>, steps: seq<Step>, k: nat, c: Chateau)
    requires Execution(states, steps) && k < |steps|
    requires IsLeft(states, steps, k, c) && Dirty(states[k + 1], c)
    ensures IsLeft(states, steps, k + 1, c)
  {
    hide Execution, ReadsAt, WritesAt, NoReads, Dirty, Abandons;
    var m: nat, l: nat :| Left(states, steps, k, c, m, l);
    NotReadIfDirty(states, steps, k, c);
    NoReadsMore(states, steps, m + 1, k, c);
    assert Left(states, steps, k + 1, c, m, l);
  }

  /** In every interleaving: unread data is about to be read, or a handler for it is still on the way to
      the queue, or a check came too late for it, or a handler left after storing, or a worker panicked. */
  lemma {:induction false} UnreadHow(states: seq<State>, steps: seq<Step>, i: nat, c: Chateau)
    requires Execution(states, steps) && i < |states| && c !in states[i].leaked && Dirty(states[i], c)
    ensures || WillRead(states[i], c) || InFlight(states[i], c)
            || IsMissed(states, steps, i, c) || IsLeft(states, steps, i, c)
  {
    hide Execution, WillRead, InFlight, IsMissed, IsLeft, LockOk, TokensOk, AbsentOk, SeenOk, ComesTooLate, Abandons,
         Enabled, Next;
    ExecutionSize(states, steps);
    if i == 0 {
      FirstState(states, steps);
    } else {
      var k := i - 1;
      ExecutionStep(states, steps, k);
      AlwaysInv(states, steps, k);
      if c in states[k].leaked { LeakStays(states, steps, k, c); }
      if Dirty(states[k], c) { UnreadHow(states, steps, k, c); }
      if Dirty(states[k], c) && IsMissed(states, steps, k, c) {
        MissedStays(states, steps, k, c);
      } else if Dirty(states[k], c) && IsLeft(states, steps, k, c) {
        LeftStays(states, steps, k, c);
      } else {
        NextData(states[k], steps[k], c);
        if ComesTooLate(states[k], steps[k], c) {
          WritesNothing(states[k], steps[k], c);
          LateCheck(states, steps, k, c);
        }
        if Abandons(states[k], steps[k], c) {
          WritesNothing(states[k], steps[k], c);
          LeaveUnread(states, steps, k, c);
        }
      }
    }
  }

  lemma WritesNothing(s: State, step: Step, c: Chateau)
    requires Enabled(s, step) && (ComesTooLate(s, step, c) || Abandons(s, step, c))
    ensures Dirty(Next(s, step), c) <==> Dirty(s, c)
  {
  }

  lemma MissedStays(states: seq<State>, steps: seq<Step>, k: nat, c: Chateau)
    requires Execution(states, steps) && k < |steps|
    requires IsMissed(states, steps, k, c) && Dirty(states[k + 1], c)
    ensures IsMissed(states, steps, k + 1, c)
  {
    hide Execution, ReadsAt, WritesAt, NoReads, Dirty, ComesTooLate;
    var r: nat, m: nat, l: nat, w: nat :| Missed(states, steps, k, c, r, m, l, w);
    NotReadIfDirty(states, steps, k, c);
    NoReadsMore(states, steps, r + 1, k, c);
    assert Missed(states, steps, k + 1, c, r, m, l, w);
  }

  ghost predicate Quiet(s: State) {
    && s.queue == []
    && (forall h :: 0 <= h < |s.handlers| ==> s.handlers[h].Resting?)
    && forall w :: 0 <= w < |s.workers| ==> s.workers[w].Idle?
  }

  /** Once everything is quiet and no worker panicked, a chateau has unread data exactly when some
      submission's check fell between the read and the release of a run under way, after a write that
      came too late for that read, or a handler left after storing; and nobody has read it since. */
  lemma UnreadIffMissed(states: seq<State>, steps: seq<Step>, i: nat, c: Chateau)
    requires Execution(states, steps) && i < |states|
    requires Quiet(states[i]) && c !in states[i].leaked
    ensures Dirty(states[i], c) <==> IsMissed(states, steps, i, c) || IsLeft(states, steps, i, c)
  {
    hide Execution, IsMissed, IsLeft, Dirty;
    if IsMissed(states, steps, i, c) { MissedIsDirty(states, steps, i, c); }
    if IsLeft(states, steps, i, c) { LeftIsDirty(states, steps, i, c); }
    if Dirty(states[i], c) { UnreadHow(states, steps, i, c); }
  }

  /** After a panic a chateau stays listed for ever: it is never queued or processed again. */
  lemma {:induction false} PanicIsForEver(states: seq<State>, steps: seq<Step>, i: nat, j: nat, c: Chateau)
    requires Execution(states, steps) && i <= j < |states| && c in states[i].leaked
    ensures c in states[j].leaked && c in states[j].listed && Tokens(states[j], c) == 0
    ensures c !in states[j].queue && forall w :: 0 <= w < |states[j].workers| ==> !WorkerHas(states[j].workers[w], c)
    decreases j
  {
    hide Execution, LockOk, AbsentOk, SeenOk;
    AlwaysInv(states, steps, j);
    if i < j {
      ExecutionSize(states, steps);
      PanicIsForEver(states, steps, i, j - 1, c);
      LeakStays(states, steps, j - 1, c);
    }
    LeakedHasNoToken(states[j], c);
  }

  lemma LeakedHasNoToken(s: State, c: Chateau)
    requires TokensOk(s) && c in s.leaked
    ensures c in s.listed && Tokens(s, c) == 0
    ensures c !in s.queue && forall w :: 0 <= w < |s.workers| ==> !WorkerHas(s.workers[w], c)
  {
    assert TokensOkFor(s, c);
    forall w | 0 <= w < |s.workers| ensures !WorkerHas(s.workers[w], c) {
      if WorkerHas(s.workers[w], c) { InWorkersHas(s.workers, w, c); }
    }
    assert c in s.queue <==> c in multiset(s.queue);
  }

  lemma ExecutionSize(states: seq<State>, steps: seq<Step>)
    requires Execution(states, steps)
    ensures |states| == |steps| + 1
  {
  }

  lemma LeakStays(states: seq<State>, steps: seq<Step>, i: nat, c: Chateau)
    requires Execution(states, steps) && i < |steps| && c in states[i].leaked
    ensures c in states[i + 1].leaked
  {
    ExecutionStep(states, steps, i);
  }

  // ---- A submission can be lost without any panic ----

  /** Some execution ends in s. */
  ghost predicate Reachable(s: State) {
    exists states, steps :: Execution(states, steps) && states[|steps|] == s
  }

  lemma ReachNext(s: State, step: Step)
    requires Reachable(s) && Enabled(s, step)
    ensures Reachable(Next(s, step))
  {
    var states, steps :| Execution(states, steps) && states[|steps|] == s;
    var longer, more := states + [Next(s, step)], steps + [step];
    forall i, j | 0 <= i < |more| && j == i + 1 ensures Moves(longer[i], more[i], longer[j]) {
      if i < |steps| { ExecutionStep(states, steps, i); }
    }
    KeepsCrew(s, step);
    CrewSize(states, steps, |steps|);
    assert Execution(longer, more) && longer[|more|] == Next(s, step);
  }

  lemma KeepsCrew(s: State, step: Step)
    requires Enabled(s, step)
    ensures |Next(s, step).handlers| == |s.handlers| && |Next(s, step).workers| == |s.workers|
  {
  }

  lemma {:induction false} CrewSize(states: seq<State>, steps: seq<Step>, i: nat)
    requires Execution(states, steps) && i < |states|
    ensures |states[i].handlers| == |states[0].handlers| && |states[i].workers| == |states[0].workers|
  {
    if i > 0 {
      CrewSize(states, steps, i - 1);
      ExecutionStep(states, steps, i - 1);
      KeepsCrew(states[i - 1], steps[i - 1]);
    }
  }

  /** One handler and one worker, both at rest unless said otherwise, and one chateau. */
  ghost function Small(lock: Owner, queue: seq<Chateau>, listed: bool,
                       h: Handler, w: Worker, stored: nat, seen: nat): State {
    State(lock, queue, if listed then {"c"} else {}, [h], [w], if stored == 0 then map[] else map["c" := stored],
          if seen == 0 then map[] else map["c" := seen], {})
  }

  lemma SmallStart()
    ensures Reachable(Small(Nobody, [], false, Resting, Idle, 0, 0))
  {
    var s := Start(1, 1);
    assert s == Small(Nobody, [], false, Resting, Idle, 0, 0);
    var states, steps: seq<Step> := [s], [];
    assert Execution(states, steps) && states[|steps|] == s;
  }

  /** t is the state after the step, field by field. */
  ghost predicate LeadsTo(s: State, step: Step, t: State) {
    && Enabled(s, step)
    && var n := Next(s, step);
       && n.lock == t.lock && n.queue == t.queue && n.listed == t.listed
       && n.handlers == t.handlers && n.workers == t.workers
       && n.stored == t.stored && n.seen == t.seen && n.leaked == t.leaked
  }

  lemma Go(s: State, step: Step, t: State)
    requires Reachable(s) && LeadsTo(s, step, t)
    ensures Reachable(t)
  {
    ReachNext(s, step);
  }

  /** The first submission is queued ... */
  lemma FirstQueued()
    ensures Reachable(Small(Nobody, ["c"], true, Resting, Idle, 1, 0))
  {
    hide Reachable;
    SmallStart();
    var s := Small(Nobody, [], false, Stored("c"), Idle, 1, 0);
    Go(Small(Nobody, [], false, Resting, Idle, 0, 0), Step.Store(0, "c"), s);
    var t := Small(ByHandler(0), [], false, Locked("c"), Idle, 1, 0);
    Go(s, LockHandler(0), t);
    var u := Small(ByHandler(0), [], false, Absent("c"), Idle, 1, 0);
    Go(t, Check(0), u);
    var v := Small(ByHandler(0), [], true, Inserted("c"), Idle, 1, 0);
    Go(u, Insert(0), v);
    var w := Small(ByHandler(0), ["c"], true, Unlocking("c"), Idle, 1, 0);
    Go(v, Push(0), w);
    Go(w, UnlockHandler(0), Small(Nobody, ["c"], true, Resting, Idle, 1, 0));
  }

  /** ... and its worker has read the store. */
  lemma FirstRead()
    ensures Reachable(Small(Nobody, [], true, Resting, Processing("c"), 1, 1))
  {
    hide Reachable;
    FirstQueued();
    var s := Small(Nobody, [], true, Resting, Stolen("c"), 1, 0);
    Go(Small(Nobody, ["c"], true, Resting, Idle, 1, 0), Steal(0), s);
    Go(s, Read(0), Small(Nobody, [], true, Resting, Processing("c"), 1, 1));
  }

  /** The second one finds its chateau listed ... */
  lemma SecondSkipped()
    ensures Reachable(Small(Nobody, [], true, Resting, Processing("c"), 2, 1))
  {
    hide Reachable;
    FirstRead();
    var s := Small(Nobody, [], true, Stored("c"), Processing("c"), 2, 1);
    Go(Small(Nobody, [], true, Resting, Processing("c"), 1, 1), Step.Store(0, "c"), s);
    var t := Small(ByHandler(0), [], true, Locked("c"), Processing("c"), 2, 1);
    Go(s, LockHandler(0), t);
    var u := Small(ByHandler(0), [], true, Unlocking("c"), Processing("c"), 2, 1);
    Go(t, Check(0), u);
    Go(u, UnlockHandler(0), Small(Nobody, [], true, Resting, Processing("c"), 2, 1));
  }

  /** ... and the worker then releases the chateau with the second submission unread. */
  lemma SubmissionLost()
    ensures var s := Small(Nobody, [], false, Resting, Idle, 2, 1);
            Reachable(s) && Quiet(s) && Dirty(s, "c") && s.leaked == {}
  {
    hide Reachable;
    SecondSkipped();
    var s := Small(ByWorker(0), [], true, Resting, Removing("c"), 2, 1);
    Go(Small(Nobody, [], true, Resting, Processing("c"), 2, 1), LockWorker(0), s);
    var t := Small(ByWorker(0), [], false, Resting, Removed("c"), 2, 1);
    Go(s, Remove(0), t);
    Go(t, UnlockWorker(0), Small(Nobody, [], false, Resting, Idle, 2, 1));
  }

  /** A submission that is stored and left without a task is never read either. */
  lemma SubmissionLeft()
    ensures var s := Small(Nobody, [], false, Resting, Idle, 1, 0);
            Reachable(s) && Quiet(s) && Dirty(s, "c") && s.leaked == {}
  {
    hide Reachable;
    SmallStart();
    var s := Small(Nobody, [], false, Stored("c"), Idle, 1, 0);
    Go(Small(Nobody, [], false, Resting, Idle, 0, 0), Step.Store(0, "c"), s);
    Go(s, Leave(0), Small(Nobody, [], false, Resting, Idle, 1, 0));
  }
}
