/** What holds in every state that any interleaving of clients and workers can reach. */
module AdaptiveSafety {
  import opened Base
  import opened KernelCache
  import opened AdaptiveRuntime

  // ---------- counting busy workers ----------

  lemma {:induction false} BusyUpdate(ws: seq<Worker>, j: nat, w: Worker)
    requires j < |ws|
    ensures BusyCount(ws[j := w]) ==
      BusyCount(ws) - (if Busy(ws[j]) then 1 else 0) + (if Busy(w) then 1 else 0)
  {
    hide Busy;
    var n := |ws| - 1;
    if j == n {
      assert ws[j := w][..n] == ws[..n];
    } else {
      assert ws[j := w][..n] == ws[..n][j := w];
      BusyUpdate(ws[..n], j, w);
    }
  }

  lemma {:induction false} NoneBusy(ws: seq<Worker>)
    requires BusyCount(ws) == 0
    ensures forall j :: 0 <= j < |ws| ==> !Busy(ws[j])
  {
    hide Busy;
    if ws != [] { NoneBusy(ws[..|ws| - 1]); }
  }

  // ---------- what a step leaves alone ----------

  predicate WorkerStep(a: Action) {
    a.Pop? || a.CompileOk? || a.Callback? || a.Count? || a.Fail? || a.Decrement? || a.Exit?
  }

  /** The compiler's part of the state is the same; the cache may have grown. */
  predicate SameTasks(s: State, s': State) {
    && s'.queue == s.queue && s'.active == s.active && s'.completed == s.completed && s'.workers == s.workers
    && s'.log == s.log && s'.succeeded == s.succeeded && s'.retired == s.retired && s'.lateSubmit == s.lateSubmit
    && (s.shutdown ==> s'.shutdown) && s.cache.Keys <= s'.cache.Keys
  }

  /** The session's part of the state is the same; the cache may have grown. */
  predicate SameSession(s: State, s': State) {
    && s'.freq == s.freq && s'.submitted == s.submitted && s'.clients == s.clients && s'.log == s.log
    && s'.executions == s.executions && s'.crashed == s.crashed && s.cache.Keys <= s'.cache.Keys
  }

  lemma ClientFrame(hash: Signature -> nat, s: State, a: Action)
    requires Enabled(s, a) && !WorkerStep(a) && !a.Submit?
    ensures SameTasks(s, Apply(hash, s, a))
  {
    hide Nearest, NoneNear, Counted, CountOf;
  }

  lemma WorkerFrame(hash: Signature -> nat, s: State, a: Action)
    requires Enabled(s, a) && WorkerStep(a)
    ensures SameSession(s, Apply(hash, s, a))
  {
    hide Nearest, NoneNear, Counted, CountOf;
  }

  /** The part of the invariant about tasks and workers. */
  ghost predicate TaskInv(s: State) {
    Numbered(s) && OnePlace(s) && NoneLost(s) && Balanced(s) && Outcomes(s) && LeftEmpty(s)
  }

  /** The part of the invariant about clients. */
  ghost predicate SessionInv(hash: Signature -> nat, s: State) {
    Claims(hash, s) && SeenTwice(s) && Served(s)
  }

  lemma TasksKept(s: State, s': State)
    requires TaskInv(s) && SameTasks(s, s')
    ensures TaskInv(s')
  {
    hide Busy, BusyCount;
    forall id | 0 <= id < |s'.log| ensures Queued(s', id) || InFlight(s', id) || id in s'.retired {
      assert Queued(s, id) || InFlight(s, id) || id in s.retired;
      if InFlight(s, id) {
        var j :| Working(s, j, id);
        assert Working(s', j, id);
      }
    }
  }

  lemma SessionKept(hash: Signature -> nat, s: State, s': State)
    requires SessionInv(hash, s) && SameSession(s, s')
    ensures SessionInv(hash, s')
  {
    hide CountOf, Covers;
  }

  // ---------- the four ways a worker moves, and submission ----------

  predicate Takes(s: State, s': State, j: nat, t: Task) {
    && j < |s.workers| && s.workers[j].Waiting? && t in s.queue
    && s' == s.(workers := s.workers[j := Running(t)], queue := s.queue - {t})
  }

  /** A busy worker goes on with its task. */
  predicate Advances(s: State, s': State, j: nat) {
    && j < |s.workers| && j < |s'.workers| && Busy(s.workers[j]) && Busy(s'.workers[j])
    && s'.workers[j].t == s.workers[j].t && s'.workers == s.workers[j := s'.workers[j]]
    && s' == s.(workers := s'.workers, cache := s'.cache, completed := s'.completed, succeeded := s'.succeeded)
  }

  /** What the step of a busy worker does to the cache and the outcomes. */
  predicate Progress(s: State, s': State, j: nat) {
    Advances(s, s', j) && s.cache.Keys <= s'.cache.Keys && !s.workers[j].Finished? &&
    var w, w' := s.workers[j], s'.workers[j];
    && (w'.Stored? ==> w.t.sig in s'.cache)
    && if w'.Finished? && w'.ok
       then w.Stored? && s'.completed == s.completed + 1 && s'.succeeded == s.succeeded + {w.t.id}
       else s'.completed == s.completed && s'.succeeded == s.succeeded
  }

  predicate Releases(s: State, s': State, j: nat) {
    && j < |s.workers| && s.workers[j].Finished?
    && s' == s.(workers := s.workers[j := Waiting], active := s.active - 1, retired := s.retired + {s.workers[j].t.id})
  }

  predicate Leaves(s: State, s': State, j: nat) {
    && j < |s.workers| && s.workers[j].Waiting? && s.shutdown && s.queue == {}
    && s' == s.(workers := s.workers[j := Exited])
  }

  predicate Submits(s: State, s': State) {
    && |s'.log| == |s.log| + 1 && s'.log == s.log + [s'.log[|s.log|]] && s'.log[|s.log|].id == |s.log|
    && s' == s.(clients := s'.clients, queue := s.queue + {s'.log[|s.log|]}, active := s.active + 1, log := s'.log,
                lateSubmit := s.lateSubmit || s.shutdown)
  }

  lemma StepShape(hash: Signature -> nat, s: State, a: Action)
    requires Enabled(s, a) && (WorkerStep(a) || a.Submit?)
    ensures var s' := Apply(hash, s, a);
      match a
      case Pop(j, t) => Takes(s, s', j, t)
      case Decrement(j) => Releases(s, s', j)
      case Exit(j) => Leaves(s, s', j)
      case Submit(_) => Submits(s, s')
      case _ => WorkerStep(a) && Progress(s, s', a.j)
  {
    hide Nearest, NoneNear, Counted, CountOf;
  }

  /** Numbering and places survive a change that moves task `j` has, or `t`, to a legal place. */
  ghost predicate Places(s: State) {
    Numbered(s) && OnePlace(s) && Balanced(s) && LeftEmpty(s)
  }

  lemma TakesPlaces(s: State, s': State, j: nat, t: Task)
    requires Places(s) && Takes(s, s', j, t)
    ensures Places(s')
  {
    hide BusyCount;
    BusyUpdate(s.workers, j, Running(t));
  }

  lemma AdvancesPlaces(s: State, s': State, j: nat)
    requires Places(s) && Progress(s, s', j)
    ensures Places(s')
  {
    hide BusyCount;
    BusyUpdate(s.workers, j, s'.workers[j]);
  }

  lemma ReleasesPlaces(s: State, s': State, j: nat)
    requires Places(s) && Releases(s, s', j)
    ensures Places(s')
  {
    hide BusyCount;
    BusyUpdate(s.workers, j, Waiting);
  }

  lemma LeavesPlaces(s: State, s': State, j: nat)
    requires Places(s) && Leaves(s, s', j)
    ensures Places(s')
  {
    hide BusyCount;
    BusyUpdate(s.workers, j, Exited);
  }

  lemma SubmitsPlaces(s: State, s': State)
    requires Places(s) && Submits(s, s')
    ensures Places(s')
  {
    hide BusyCount;
    assert s'.log[|s.log|] !in s.queue;
  }

  lemma NoneLostMove(s: State, s': State, j: nat)
    requires Numbered(s) && NoneLost(s)
    requires Advances(s, s', j) || Releases(s, s', j) || Leaves(s, s', j) || (exists t :: Takes(s, s', j, t))
    ensures NoneLost(s')
  {
    forall id | 0 <= id < |s'.log| ensures Queued(s', id) || InFlight(s', id) || id in s'.retired {
      assert Queued(s, id) || InFlight(s, id) || id in s.retired;
      if InFlight(s, id) {
        var k :| Working(s, k, id);
        assert Working(s', k, id) || id in s'.retired;
      } else if Queued(s, id) && !Queued(s', id) {
        assert Working(s', j, id);
      }
    }
  }

  lemma NoneLostSubmit(s: State, s': State)
    requires Numbered(s) && NoneLost(s) && Submits(s, s')
    ensures NoneLost(s')
  {
    forall id | 0 <= id < |s'.log| ensures Queued(s', id) || InFlight(s', id) || id in s'.retired {
      if id < |s.log| {
        assert Queued(s, id) || InFlight(s, id) || id in s.retired;
        if InFlight(s, id) {
          var k :| Working(s, k, id);
          assert Working(s', k, id);
        }
      }
    }
  }

  lemma OutcomesSubmit(s: State, s': State)
    requires Numbered(s) && Outcomes(s) && Submits(s, s')
    ensures Outcomes(s')
  {
    hide Busy;
    assert |s.log| !in s.succeeded;
  }

  lemma OutcomesRelease(s: State, s': State, j: nat)
    requires Outcomes(s) && (Releases(s, s', j) || Leaves(s, s', j))
    ensures Outcomes(s')
  {
  }

  lemma OutcomesTake(s: State, s': State, j: nat, t: Task)
    requires Numbered(s) && OnePlace(s) && Outcomes(s) && Takes(s, s', j, t)
    ensures Outcomes(s')
  {
  }

  /** A worker's task succeeds when its callback has returned, after its kernel was stored. */
  lemma OutcomesAdvance(s: State, s': State, j: nat)
    requires Numbered(s) && OnePlace(s) && Outcomes(s) && Progress(s, s', j)
    ensures Outcomes(s')
  {
    var id := s.workers[j].t.id;
    assert id !in s.succeeded;
    assert forall k :: 0 <= k < |s.workers| && k != j && Busy(s.workers[k]) ==> s.workers[k].t.id != id;
    assert forall t :: t in s.queue ==> t.id != id;
  }

  lemma TaskStep(hash: Signature -> nat, s: State, a: Action)
    requires TaskInv(s) && Enabled(s, a)
    ensures TaskInv(Apply(hash, s, a))
  {
    hide Apply, Enabled, Numbered, OnePlace, NoneLost, Balanced, Outcomes, LeftEmpty, Takes, Releases, Leaves, Submits;
    var s' := Apply(hash, s, a);
    if !WorkerStep(a) && !a.Submit? {
      ClientFrame(hash, s, a);
      TasksKept(s, s');
    } else {
      StepShape(hash, s, a);
      assert Places(s);
      if a.Pop? {
        TakesPlaces(s, s', a.j, a.t);
        NoneLostMove(s, s', a.j);
        OutcomesTake(s, s', a.j, a.t);
      } else if a.Decrement? {
        ReleasesPlaces(s, s', a.j);
        NoneLostMove(s, s', a.j);
        OutcomesRelease(s, s', a.j);
      } else if a.Exit? {
        LeavesPlaces(s, s', a.j);
        NoneLostMove(s, s', a.j);
        OutcomesRelease(s, s', a.j);
      } else if a.Submit? {
        SubmitsPlaces(s, s');
        NoneLostSubmit(s, s');
        OutcomesSubmit(s, s');
      } else {
        AdvancesPlaces(s, s', a.j);
        NoneLostMove(s, s', a.j);
        OutcomesAdvance(s, s', a.j);
      }
    }
  }

  // ---------- steps of the clients ----------

  /** A client moves to a place where it holds no claim. */
  predicate Strolls(s: State, s': State, i: nat) {
    && i < |s.clients| && i < |s'.clients| && !s'.clients[i].Claimed? && s'.clients == s.clients[i := s'.clients[i]]
    && s'.log == s.log && s'.submitted == s.submitted
  }

  predicate TakesClaim(hash: Signature -> nat, s: State, s': State, i: nat) {
    && i < |s.clients| && i < |s'.clients| && s'.clients[i].Claimed? && s'.clients == s.clients[i := s'.clients[i]]
    && hash(s'.clients[i].q) !in s.submitted && s'.submitted == s.submitted + {hash(s'.clients[i].q)}
    && s'.log == s.log
  }

  predicate UsesClaim(s: State, s': State, i: nat) {
    && i < |s.clients| && s.clients[i].Claimed? && s'.clients == s.clients[i := Idle]
    && |s'.log| == |s.log| + 1 && s'.log == s.log + [s'.log[|s.log|]] && s'.log[|s.log|].sig == s.clients[i].q
    && s'.submitted == s.submitted
  }

  lemma ClaimShape(hash: Signature -> nat, s: State, a: Action)
    requires Enabled(s, a) && !WorkerStep(a) && !a.Shutdown?
    ensures var s' := Apply(hash, s, a);
      if a.Submit? then UsesClaim(s, s', a.i) else Strolls(s, s', a.i) || TakesClaim(hash, s, s', a.i)
  {
    hide Nearest, NoneNear, Counted, CountOf;
  }

  lemma ClaimsMove(hash: Signature -> nat, s: State, s': State, i: nat)
    requires Claims(hash, s) && (UsesClaim(s, s', i) || Strolls(s, s', i) || TakesClaim(hash, s, s', i))
    ensures Claims(hash, s')
  {
    if UsesClaim(s, s', i) {
      assert forall k :: 0 <= k < |s.log| ==> s'.log[k] == s.log[k];
    }
  }

  /** A client moves; where it needs a shape seen twice, it was seen twice or the client needed it before. */
  predicate MovesSeen(s: State, s': State, i: nat) {
    && i < |s.clients| && i < |s'.clients| && s'.clients == s.clients[i := s'.clients[i]]
    && (s'.clients[i].Approved? || s'.clients[i].Claimed? ==>
          CountOf(s'.freq, s'.clients[i].q) >= 2 || (s.clients[i].Approved? && s.clients[i].q == s'.clients[i].q))
    && (s'.log == s.log
        || (s.clients[i].Claimed? && |s'.log| == |s.log| + 1 && s'.log == s.log + [s'.log[|s.log|]]
            && s'.log[|s.log|].sig == s.clients[i].q))
  }

  lemma SeenShape(hash: Signature -> nat, s: State, a: Action)
    requires Enabled(s, a) && !WorkerStep(a) && !a.Shutdown?
    ensures MovesSeen(s, Apply(hash, s, a), a.i)
  {
    hide Nearest, NoneNear, Counted;
  }

  lemma SeenTwiceMove(s: State, s': State, i: nat)
    requires SeenTwice(s) && MovesSeen(s, s', i) && forall q :: CountOf(s.freq, q) <= CountOf(s'.freq, q)
    ensures SeenTwice(s')
  {
    hide CountOf;
  }

  lemma ServedStep(hash: Signature -> nat, s: State, a: Action)
    requires Served(s) && Enabled(s, a) && !WorkerStep(a)
    ensures Served(Apply(hash, s, a))
  {
    hide NoneNear, Counted, CountOf;
  }

  lemma SessionStep(hash: Signature -> nat, s: State, a: Action)
    requires SessionInv(hash, s) && Enabled(s, a)
    ensures SessionInv(hash, Apply(hash, s, a))
  {
    hide Enabled, Claims, SeenTwice, Served, UsesClaim, Strolls, TakesClaim, MovesSeen, CountOf;
    var s' := Apply(hash, s, a);
    if WorkerStep(a) {
      WorkerFrame(hash, s, a);
      SessionKept(hash, s, s');
    } else {
      if a.Shutdown? {
        ClaimsSame(hash, s);
      } else {
        ClaimShape(hash, s, a);
        ClaimsMove(hash, s, s', a.i);
        SeenShape(hash, s, a);
        StepGrows(hash, s, a);
        SeenTwiceMove(s, s', a.i);
      }
      ServedStep(hash, s, a);
    }
  }

  lemma ClaimsSame(hash: Signature -> nat, s: State)
    requires Claims(hash, s) && SeenTwice(s)
    ensures Claims(hash, s.(shutdown := true)) && SeenTwice(s.(shutdown := true))
  {
  }

  // ---------- whole runs ----------

  /** The state after a sequence of steps, if each could be taken. */
  ghost function After(hash: Signature -> nat, s: State, run: seq<Action>): Option<State>
    decreases |run|
  {
    if run == [] then Some(s)
    else if Enabled(s, run[0]) then After(hash, Apply(hash, s, run[0]), run[1..])
    else None
  }

  lemma InitInv(hash: Signature -> nat, workers: nat, clients: nat)
    ensures Inv(hash, Init(workers, clients))
  {
    NoBusy(workers);
  }

  lemma {:induction false} NoBusy(n: nat)
    ensures BusyCount(seq(n, _ => Waiting)) == 0
  {
    if n > 0 {
      NoBusy(n - 1);
      var ws := seq(n, _ => Waiting);
      assert ws[..n - 1] == seq(n - 1, _ => Waiting);
    }
  }

  lemma StepInv(hash: Signature -> nat, s: State, a: Action)
    requires Inv(hash, s) && Enabled(s, a)
    ensures Inv(hash, Apply(hash, s, a))
  {
    hide Enabled, Apply, Numbered, OnePlace, NoneLost, Balanced, Outcomes, LeftEmpty, Claims, SeenTwice, Served;
    assert TaskInv(s) && SessionInv(hash, s);
    TaskStep(hash, s, a);
    SessionStep(hash, s, a);
  }

  lemma {:induction false} RunInv(hash: Signature -> nat, s: State, run: seq<Action>)
    requires Inv(hash, s) && After(hash, s, run).Some?
    ensures Inv(hash, After(hash, s, run).value)
    decreases |run|
  {
    hide Inv, Enabled, Apply;
    if run != [] {
      StepInv(hash, s, run[0]);
      RunInv(hash, Apply(hash, s, run[0]), run[1..]);
    }
  }

  /** The invariant holds after every run, whatever the number of threads and their interleaving. */
  lemma Safety(hash: Signature -> nat, workers: nat, clients: nat, run: seq<Action>)
    requires After(hash, Init(workers, clients), run).Some?
    ensures Inv(hash, After(hash, Init(workers, clients), run).value)
  {
    hide Inv;
    InitInv(hash, workers, clients);
    RunInv(hash, Init(workers, clients), run);
  }

  /** What never goes back: cached shapes, counts, submissions, finished tasks. */
  ghost predicate Grows(s: State, s': State) {
    && s.cache.Keys <= s'.cache.Keys
    && (forall q :: CountOf(s.freq, q) <= CountOf(s'.freq, q))
    && s.log <= s'.log && s.submitted <= s'.submitted
    && s.retired <= s'.retired && s.succeeded <= s'.succeeded && s.executions <= s'.executions
  }

  lemma StepGrows(hash: Signature -> nat, s: State, a: Action)
    requires Enabled(s, a)
    ensures Grows(s, Apply(hash, s, a))
  {
    hide Enabled, Apply, Grows;
    if WorkerStep(a) {
      WorkerGrows(hash, s, a);
    } else if a.Record? || a.Claim? || a.Submit? {
      SubmissionGrows(hash, s, a);
    } else {
      LookupGrows(hash, s, a);
    }
  }

  lemma WorkerGrows(hash: Signature -> nat, s: State, a: Action)
    requires Enabled(s, a) && WorkerStep(a)
    ensures Grows(s, Apply(hash, s, a))
  {
    hide Nearest, NoneNear, CountOf;
  }

  lemma SubmissionGrows(hash: Signature -> nat, s: State, a: Action)
    requires Enabled(s, a) && (a.Record? || a.Claim? || a.Submit?)
    ensures Grows(s, Apply(hash, s, a))
  {
    hide Nearest, NoneNear;
  }

  lemma LookupGrows(hash: Signature -> nat, s: State, a: Action)
    requires Enabled(s, a) && !WorkerStep(a) && !a.Record? && !a.Claim? && !a.Submit?
    ensures Grows(s, Apply(hash, s, a))
  {
    hide Nearest, NoneNear, CountOf;
  }

  lemma {:induction false} RunGrows(hash: Signature -> nat, s: State, run: seq<Action>)
    requires After(hash, s, run).Some?
    ensures Grows(s, After(hash, s, run).value)
    decreases |run|
  {
    hide Enabled, Apply, CountOf;
    if run != [] {
      StepGrows(hash, s, run[0]);
      var t := Apply(hash, s, run[0]);
      RunGrows(hash, t, run[1..]);
      GrowsChain(s, t, After(hash, t, run[1..]).value);
    }
  }

  lemma GrowsChain(s: State, t: State, u: State)
    requires Grows(s, t) && Grows(t, u)
    ensures Grows(s, u)
  {
    hide CountOf;
    forall q ensures CountOf(s.freq, q) <= CountOf(u.freq, q) {
      assert CountOf(s.freq, q) <= CountOf(t.freq, q);
    }
  }

  // ---------- what it means for every run ----------

  /** The condition `WaitAll` waits for. */
  predicate Drained(s: State) {
    s.active == 0 && s.queue == {}
  }

  /** A state that some number of threads can reach in some interleaving. */
  ghost predicate Reached(hash: Signature -> nat, workers: nat, clients: nat, run: seq<Action>, s: State) {
    After(hash, Init(workers, clients), run) == Some(s)
  }

  /** Active tasks are the queued and the in-flight ones, and every submission is in exactly one place. */
  lemma AccountedFor(hash: Signature -> nat, workers: nat, clients: nat, run: seq<Action>, s: State)
    requires Reached(hash, workers, clients, run, s)
    ensures s.active == |s.queue| + BusyCount(s.workers)
    ensures forall id :: 0 <= id < |s.log| ==>
      (Queued(s, id) && !InFlight(s, id) && id !in s.retired)
      || (!Queued(s, id) && InFlight(s, id) && id !in s.retired)
      || (!Queued(s, id) && !InFlight(s, id) && id in s.retired)
    ensures forall i: nat, j: nat, id: nat :: Working(s, i, id) && Working(s, j, id) ==> i == j
  {
    hide After, BusyCount;
    Safety(hash, workers, clients, run);
    forall id | 0 <= id < |s.log|
      ensures Queued(s, id) || InFlight(s, id) || id in s.retired
      ensures !(Queued(s, id) && InFlight(s, id)) && !(Queued(s, id) && id in s.retired)
        && !(InFlight(s, id) && id in s.retired)
    {
      assert Queued(s, id) || InFlight(s, id) || id in s.retired;
      if InFlight(s, id) {
        var j: nat :| Working(s, j, id);
        assert s.log[id] == s.workers[j].t;
      }
    }
  }

  /** When the wait is over every submission has finished, and each successful one is an exact hit. */
  lemma WaitAllMeans(hash: Signature -> nat, workers: nat, clients: nat, run: seq<Action>, s: State)
    requires Reached(hash, workers, clients, run, s) && Drained(s)
    ensures forall id :: 0 <= id < |s.log| ==> id in s.retired
    ensures forall id :: id in s.succeeded ==> id < |s.log| && s.log[id].sig in s.cache
    ensures s.completed == |s.succeeded|
  {
    hide After;
    Safety(hash, workers, clients, run);
    NoneBusy(s.workers);
    forall id | 0 <= id < |s.log| ensures id in s.retired {
      assert Queued(s, id) || InFlight(s, id) || id in s.retired;
    }
  }

  /** Two submissions never share a hash, and each shape was seen at least twice. */
  lemma OncePerHash(hash: Signature -> nat, workers: nat, clients: nat, run: seq<Action>, s: State)
    requires Reached(hash, workers, clients, run, s)
    ensures forall i, j :: 0 <= i < j < |s.log| ==> hash(s.log[i].sig) != hash(s.log[j].sig)
    ensures forall i :: 0 <= i < |s.log| ==> CountOf(s.freq, s.log[i].sig) >= 2
  {
    hide After;
    Safety(hash, workers, clients, run);
  }

  /** Every kernel that ran was in the cache and covers the shapes it ran on; no lookup after a store misses. */
  lemma ServedWell(hash: Signature -> nat, workers: nat, clients: nat, run: seq<Action>, s: State)
    requires Reached(hash, workers, clients, run, s)
    ensures !s.crashed && forall e :: e in s.executions ==> e.used in s.cache && Covers(e.used, e.query)
  {
    hide After;
    Safety(hash, workers, clients, run);
  }

  /** If nothing was submitted during shutdown, the last worker leaves only when all tasks have finished. */
  lemma ShutdownMeans(hash: Signature -> nat, workers: nat, clients: nat, run: seq<Action>, s: State)
    requires Reached(hash, workers, clients, run, s) && !s.lateSubmit
    requires |s.workers| > 0 && forall j :: 0 <= j < |s.workers| ==> s.workers[j].Exited?
    ensures s.active == 0 && forall id :: 0 <= id < |s.log| ==> id in s.retired
  {
    hide After;
    Safety(hash, workers, clients, run);
    AllExited(s.workers);
    assert s.workers[0].Exited?;
    forall id | 0 <= id < |s.log| ensures id in s.retired {
      assert Queued(s, id) || InFlight(s, id) || id in s.retired;
    }
  }

  lemma {:induction false} AllExited(ws: seq<Worker>)
    requires forall j :: 0 <= j < |ws| ==> ws[j].Exited?
    ensures BusyCount(ws) == 0
  {
    if ws != [] { AllExited(ws[..|ws| - 1]); }
  }

  /** A task that a worker has taken is never taken again, however the run goes on. */
  lemma RunsOnce(
    hash: Signature -> nat, workers: nat, clients: nat, before: seq<Action>, s: State, a: Action, run: seq<Action>,
    b: Action)
    requires Reached(hash, workers, clients, before, s) && a.Pop? && b.Pop? && Enabled(s, a)
    requires After(hash, Apply(hash, s, a), run).Some?
    requires Enabled(After(hash, Apply(hash, s, a), run).value, b)
    ensures b.t.id != a.t.id
  {
    hide Inv, Enabled, Apply, Taken, Init;
    Safety(hash, workers, clients, before);
    PopTakes(hash, s, a);
    StepInv(hash, s, a);
    StaysTaken(hash, Apply(hash, s, a), run, a.t.id);
    RunInv(hash, Apply(hash, s, a), run);
    PopNeedsQueued(hash, After(hash, Apply(hash, s, a), run).value, b);
  }

  lemma PopTakes(hash: Signature -> nat, s: State, a: Action)
    requires Inv(hash, s) && Enabled(s, a) && a.Pop?
    ensures Taken(Apply(hash, s, a), a.t.id)
  {
    hide Nearest, NoneNear, CountOf, Counted, Covers, Claims, SeenTwice, Served, Outcomes, Balanced, NoneLost;
    hide LeftEmpty;
  }

  lemma PopNeedsQueued(hash: Signature -> nat, s: State, b: Action)
    requires Inv(hash, s) && Enabled(s, b) && b.Pop?
    ensures !Taken(s, b.t.id)
  {
    hide Nearest, NoneNear, CountOf, Counted, Covers, Claims, SeenTwice, Served, Outcomes, Balanced, NoneLost;
    hide LeftEmpty;
  }

  /** The submission is not waiting in the queue: a worker holds it or it has finished. */
  ghost predicate Taken(s: State, id: nat) {
    id < |s.log| && !Queued(s, id)
  }

  lemma {:induction false} StaysTaken(hash: Signature -> nat, s: State, run: seq<Action>, id: nat)
    requires Inv(hash, s) && Taken(s, id) && After(hash, s, run).Some?
    ensures Taken(After(hash, s, run).value, id)
    decreases |run|
  {
    hide Enabled, Apply, Inv;
    if run != [] {
      StepInv(hash, s, run[0]);
      TakenStep(hash, s, run[0], id);
      StaysTaken(hash, Apply(hash, s, run[0]), run[1..], id);
    }
  }

  lemma TakenStep(hash: Signature -> nat, s: State, a: Action, id: nat)
    requires Inv(hash, s) && Taken(s, id) && Enabled(s, a)
    ensures Taken(Apply(hash, s, a), id)
  {
    hide Apply, Enabled, NoneLost, Balanced, Outcomes, LeftEmpty, Claims, SeenTwice, Served;
    if WorkerStep(a) || a.Submit? {
      StepShape(hash, s, a);
    } else {
      ClientFrame(hash, s, a);
    }
  }
}
