/**
 The adaptive runtime as a transition system: client threads running and warming up shapes,
 background workers compiling submitted shapes, and the state they share.

 Each action is one step that the source performs under a lock or as a single atomic update,
 so every interleaving of the threads is a sequence of actions.
 */
module AdaptiveRuntime {
  import opened KernelCache

  /** A background compilation; `id` is its position in the order of submission. */
  datatype Task = Task(id: nat, sig: Signature, priority: int)

  /** Where a background worker is in its loop. */
  datatype Worker =
    | Waiting
    | Running(t: Task)
    | Compiled(t: Task)
    | Stored(t: Task)
    | Finished(t: Task, ok: bool)
    | Exited

  /** Where a client thread is in `Run`, `MaybeScheduleOptimization` or `WarmUp`. */
  datatype Client =
    | Idle
    | Recorded(q: Signature)
    | NoExact(q: Signature)
    | Compiling(q: Signature)
    | Cached(q: Signature)
    | Ran(q: Signature)
    | Seen(q: Signature, count: nat)
    | Approved(q: Signature, count: nat)
    | Claimed(q: Signature, count: nat)
    | Warming(q: Signature)

  /** A kernel execution: the shapes asked for and the shapes the kernel was cached under. */
  datatype Execution = Execution(query: Signature, used: Signature)

  datatype State = State(
    queue: set<Task>,
    active: int,
    completed: nat,
    shutdown: bool,
    workers: seq<Worker>,
    cache: map<Signature, int>,
    freq: map<Signature, nat>,
    submitted: set<nat>,
    clients: seq<Client>,
    // history, read by no step
    log: seq<Task>,
    succeeded: set<nat>,
    retired: set<nat>,
    executions: set<Execution>,
    crashed: bool,
    lateSubmit: bool)

  datatype Action =
    | Record(i: nat, q: Signature)
    | ExactHit(i: nat)
    | ExactMiss(i: nat)
    | FuzzyHit(i: nat, c: Signature)
    | FuzzyMiss(i: nat)
    | SyncFail(i: nat)
    | SyncPut(i: nat, kernel: int)
    | RunCached(i: nat)
    | ReadCount(i: nat)
    | Decide(i: nat)
    | Claim(i: nat)
    | Submit(i: nat)
    | WarmUp(i: nat, q: Signature)
    | WarmPut(i: nat, kernel: int)
    | Shutdown
    | Pop(j: nat, t: Task)
    | CompileOk(j: nat)
    | Callback(j: nat, kernel: int)
    | Count(j: nat)
    | Fail(j: nat)
    | Decrement(j: nat)
    | Exit(j: nat)

  function Init(workers: nat, clients: nat): State {
    State({}, 0, 0, false, seq(workers, _ => Waiting), map[], map[], {}, seq(clients, _ => Idle),
          [], {}, {}, {}, false, false)
  }

  /** When the step may be taken. */
  ghost predicate Enabled(s: State, a: Action) {
    match a
    case Record(i, _) => i < |s.clients| && s.clients[i].Idle?
    case ExactHit(i) => i < |s.clients| && s.clients[i].Recorded? && s.clients[i].q in s.cache
    case ExactMiss(i) => i < |s.clients| && s.clients[i].Recorded? && s.clients[i].q !in s.cache
    case FuzzyHit(i, k) => i < |s.clients| && s.clients[i].NoExact? && Nearest(s.cache, s.clients[i].q, k)
    case FuzzyMiss(i) => i < |s.clients| && s.clients[i].NoExact? && NoneNear(s.cache, s.clients[i].q)
    case SyncFail(i) => i < |s.clients| && (s.clients[i].Compiling? || s.clients[i].Warming?)
    case SyncPut(i, _) => i < |s.clients| && s.clients[i].Compiling?
    case RunCached(i) => i < |s.clients| && s.clients[i].Cached?
    case ReadCount(i) => i < |s.clients| && s.clients[i].Ran?
    case Decide(i) => i < |s.clients| && s.clients[i].Seen?
    case Claim(i) => i < |s.clients| && s.clients[i].Approved?
    case Submit(i) => i < |s.clients| && s.clients[i].Claimed?
    case WarmUp(i, _) => i < |s.clients| && s.clients[i].Idle?
    case WarmPut(i, _) => i < |s.clients| && s.clients[i].Warming?
    case Shutdown => true
    case Pop(j, t) =>
      j < |s.workers| && s.workers[j].Waiting? && t in s.queue && forall u :: u in s.queue ==> u.priority <= t.priority
    case CompileOk(j) => j < |s.workers| && s.workers[j].Running?
    case Callback(j, _) => j < |s.workers| && s.workers[j].Compiled?
    case Count(j) => j < |s.workers| && s.workers[j].Stored?
    case Fail(j) => j < |s.workers| && (s.workers[j].Running? || s.workers[j].Compiled? || s.workers[j].Stored?)
    case Decrement(j) => j < |s.workers| && s.workers[j].Finished?
    case Exit(j) => j < |s.workers| && s.workers[j].Waiting? && s.shutdown && s.queue == {}
  }

  function Move(s: State, i: nat, c: Client): State
    requires i < |s.clients|
  {
    s.(clients := s.clients[i := c])
  }

  function Turn(s: State, j: nat, w: Worker): State
    requires j < |s.workers|
  {
    s.(workers := s.workers[j := w])
  }

  function Execute(s: State, query: Signature, used: Signature): State {
    s.(executions := s.executions + {Execution(query, used)}, crashed := s.crashed || used !in s.cache)
  }

  /** The state after the step; `hash` is the hash of a signature. */
  function Apply(hash: Signature -> nat, s: State, a: Action): State
    requires Enabled(s, a)
  {
    match a
    case Record(i, q) => Move(s, i, Recorded(q)).(freq := Counted(s.freq, q))
    case ExactHit(i) => Move(Execute(s, s.clients[i].q, s.clients[i].q), i, Idle)
    case ExactMiss(i) => Move(s, i, NoExact(s.clients[i].q))
    case FuzzyHit(i, c) => Move(Execute(s, s.clients[i].q, c), i, Ran(s.clients[i].q))
    case FuzzyMiss(i) => Move(s, i, Compiling(s.clients[i].q))
    case SyncFail(i) => Move(s, i, Idle)
    case SyncPut(i, kernel) => Move(s, i, Cached(s.clients[i].q)).(cache := s.cache[s.clients[i].q := kernel])
    case RunCached(i) => Move(Execute(s, s.clients[i].q, s.clients[i].q), i, Ran(s.clients[i].q))
    case ReadCount(i) => Move(s, i, Seen(s.clients[i].q, CountOf(s.freq, s.clients[i].q)))
    case Decide(i) =>
      var Seen(q, n) := s.clients[i];
      Move(s, i, if q in s.freq && s.freq[q] >= 2 then Approved(q, n) else Idle)
    case Claim(i) =>
      var Approved(q, n) := s.clients[i];
      if hash(q) in s.submitted then Move(s, i, Idle)
      else Move(s, i, Claimed(q, n)).(submitted := s.submitted + {hash(q)})
    case Submit(i) =>
      var Claimed(q, n) := s.clients[i];
      var t := Task(|s.log|, q, n);
      Move(s, i, Idle).(
        queue := s.queue + {t}, active := s.active + 1, log := s.log + [t], lateSubmit := s.lateSubmit || s.shutdown)
    case WarmUp(i, q) => Move(s, i, if q in s.cache then Idle else Warming(q))
    case WarmPut(i, kernel) => Move(s, i, Idle).(cache := s.cache[s.clients[i].q := kernel])
    case Shutdown => s.(shutdown := true)
    case Pop(j, t) => Turn(s, j, Running(t)).(queue := s.queue - {t})
    case CompileOk(j) => Turn(s, j, Compiled(s.workers[j].t))
    case Callback(j, kernel) =>
      Turn(s, j, Stored(s.workers[j].t)).(cache := s.cache[s.workers[j].t.sig := kernel])
    case Count(j) =>
      Turn(s, j, Finished(s.workers[j].t, true)).(
        completed := s.completed + 1, succeeded := s.succeeded + {s.workers[j].t.id})
    case Fail(j) => Turn(s, j, Finished(s.workers[j].t, false))
    case Decrement(j) =>
      Turn(s, j, Waiting).(active := s.active - 1, retired := s.retired + {s.workers[j].t.id})
    case Exit(j) => Turn(s, j, Exited)
  }

  // ---------- the invariant ----------

  /** The worker has taken a task and not yet counted it as done. */
  predicate Busy(w: Worker) {
    w.Running? || w.Compiled? || w.Stored? || w.Finished?
  }

  function BusyCount(ws: seq<Worker>): nat {
    if ws == [] then 0 else BusyCount(ws[..|ws| - 1]) + (if Busy(ws[|ws| - 1]) then 1 else 0)
  }

  /** A worker whose task is the one with this id. */
  ghost predicate Working(s: State, j: nat, id: nat) {
    j < |s.workers| && Busy(s.workers[j]) && s.workers[j].t.id == id
  }

  ghost predicate InFlight(s: State, id: nat) {
    exists j :: Working(s, j, id)
  }

  ghost predicate Queued(s: State, id: nat) {
    id < |s.log| && s.log[id] in s.queue
  }

  /** Tasks are numbered as submitted, and queue and workers hold submitted tasks. */
  ghost predicate Numbered(s: State) {
    && (forall i :: 0 <= i < |s.log| ==> s.log[i].id == i)
    && (forall t :: t in s.queue ==> t.id < |s.log| && s.log[t.id] == t)
    && (forall j :: 0 <= j < |s.workers| && Busy(s.workers[j]) ==>
          s.workers[j].t.id < |s.log| && s.log[s.workers[j].t.id] == s.workers[j].t)
    && (forall id :: id in s.retired ==> id < |s.log|)
    && (forall id :: id in s.succeeded ==> id < |s.log|)
  }

  /** No task is in two places. */
  ghost predicate OnePlace(s: State) {
    && (forall t :: t in s.queue ==> t.id !in s.retired)
    && (forall j :: 0 <= j < |s.workers| && Busy(s.workers[j]) ==>
          s.workers[j].t !in s.queue && s.workers[j].t.id !in s.retired)
    && (forall i, j :: 0 <= i < j < |s.workers| && Busy(s.workers[i]) && Busy(s.workers[j]) ==>
          s.workers[i].t.id != s.workers[j].t.id)
  }

  /** Every submitted task is somewhere. */
  ghost predicate NoneLost(s: State) {
    forall id :: 0 <= id < |s.log| ==> Queued(s, id) || InFlight(s, id) || id in s.retired
  }

  ghost predicate Balanced(s: State) {
    s.active == |s.queue| + BusyCount(s.workers)
  }

  /** Success is recorded once per task, when its kernel is in the cache. */
  ghost predicate Outcomes(s: State) {
    && s.completed == |s.succeeded|
    && (forall id :: id in s.succeeded ==> id < |s.log| && s.log[id].sig in s.cache)
    && (forall t :: t in s.queue ==> t.id !in s.succeeded)
    && (forall j :: 0 <= j < |s.workers| && Busy(s.workers[j]) ==>
          (s.workers[j].t.id in s.succeeded <==> s.workers[j].Finished? && s.workers[j].ok))
    && (forall j :: 0 <= j < |s.workers| && s.workers[j].Stored? ==> s.workers[j].t.sig in s.cache)
  }

  /** One claim per hash, and only of shapes seen twice. */
  ghost predicate Claims(hash: Signature -> nat, s: State) {
    && (forall i :: 0 <= i < |s.log| ==> hash(s.log[i].sig) in s.submitted)
    && (forall i, j :: 0 <= i < j < |s.log| ==> hash(s.log[i].sig) != hash(s.log[j].sig))
    && (forall c :: 0 <= c < |s.clients| && s.clients[c].Claimed? ==> hash(s.clients[c].q) in s.submitted)
    && (forall c, i :: 0 <= c < |s.clients| && 0 <= i < |s.log| && s.clients[c].Claimed? ==>
          hash(s.clients[c].q) != hash(s.log[i].sig))
    && (forall c, d :: 0 <= c < d < |s.clients| && s.clients[c].Claimed? && s.clients[d].Claimed? ==>
          hash(s.clients[c].q) != hash(s.clients[d].q))
  }

  ghost predicate SeenTwice(s: State) {
    && (forall i :: 0 <= i < |s.log| ==> CountOf(s.freq, s.log[i].sig) >= 2)
    && (forall c :: 0 <= c < |s.clients| && (s.clients[c].Approved? || s.clients[c].Claimed?) ==>
          CountOf(s.freq, s.clients[c].q) >= 2)
  }

  /** Every kernel that ran was in the cache and covers the shapes it was run on. */
  ghost predicate Served(s: State) {
    && !s.crashed
    && (forall e :: e in s.executions ==> e.used in s.cache && Covers(e.used, e.query))
    && (forall c :: 0 <= c < |s.clients| && s.clients[c].Cached? ==> s.clients[c].q in s.cache)
  }

  /** After a worker left, only submissions made during shutdown can be waiting. */
  ghost predicate LeftEmpty(s: State) {
    forall j :: 0 <= j < |s.workers| && s.workers[j].Exited? ==> s.shutdown && (s.queue == {} || s.lateSubmit)
  }

  ghost predicate Inv(hash: Signature -> nat, s: State) {
    Numbered(s) && OnePlace(s) && NoneLost(s) && Balanced(s) && Outcomes(s)
    && Claims(hash, s) && SeenTwice(s) && Served(s) && LeftEmpty(s)
  }
}
