/** What whole calls and whole compilations do to the state when their steps run one after the other. */
module AdaptiveCalls {
  import opened Base
  import opened KernelCache
  import opened AdaptiveRuntime
  import opened AdaptiveSafety

  lemma OneStep(hash: Signature -> nat, s: State, a: Action, run: seq<Action>)
    ensures After(hash, s, [a] + run) == if Enabled(s, a) then After(hash, Apply(hash, s, a), run) else None
  {
    hide Enabled, Apply;
    assert ([a] + run)[1..] == run;
  }

  lemma OneLast(hash: Signature -> nat, s: State, a: Action)
    ensures After(hash, s, [a]) == if Enabled(s, a) then Some(Apply(hash, s, a)) else None
  {
    hide Enabled, Apply;
    assert [a] == [a] + [];
    OneStep(hash, s, a, []);
    if Enabled(s, a) { assert After(hash, Apply(hash, s, a), []) == Some(Apply(hash, s, a)); }
  }

  lemma TwoSteps(hash: Signature -> nat, s: State, a: Action, b: Action)
    ensures After(hash, s, [a, b]) == if Enabled(s, a) then After(hash, Apply(hash, s, a), [b]) else None
  {
    hide Enabled, Apply, After;
    assert [a, b] == [a] + [b];
    OneStep(hash, s, a, [b]);
  }

  lemma ThreeSteps(hash: Signature -> nat, s: State, a: Action, b: Action, c: Action)
    ensures After(hash, s, [a, b, c]) == if Enabled(s, a) then After(hash, Apply(hash, s, a), [b, c]) else None
  {
    hide Enabled, Apply, After;
    assert [a, b, c] == [a] + [b, c];
    OneStep(hash, s, a, [b, c]);
  }

  // ---------- scheduling a compilation ----------

  /** The state after a submission: one more claim and one more task, in the queue and on the log. */
  function Submitted(hash: Signature -> nat, s: State, i: nat, q: Signature, n: nat): State
    requires i < |s.clients|
  {
    var t := Task(|s.log|, q, n);
    s.(clients := s.clients[i := Idle], submitted := s.submitted + {hash(q)}, queue := s.queue + {t},
       active := s.active + 1, log := s.log + [t], lateSubmit := s.lateSubmit || s.shutdown)
  }

  /**
   A client that has read the count `n` of shape `q` gets to submit exactly when the shape was
   counted twice or more and its hash was not claimed; it then submits `q` with priority `n`.
   Otherwise it ends idle and changes nothing else.
   */
  lemma ScheduleExact(hash: Signature -> nat, s: State, i: nat, q: Signature, n: nat)
    requires i < |s.clients| && s.clients[i] == Seen(q, n)
    ensures After(hash, s, [Decide(i), Claim(i), Submit(i)]).Some?
       <==> CountOf(s.freq, q) >= 2 && hash(q) !in s.submitted
    ensures CountOf(s.freq, q) >= 2 && hash(q) !in s.submitted ==>
      After(hash, s, [Decide(i), Claim(i), Submit(i)]) == Some(Submitted(hash, s, i, q, n))
    ensures CountOf(s.freq, q) < 2 ==> After(hash, s, [Decide(i)]) == Some(Move(s, i, Idle))
    ensures CountOf(s.freq, q) >= 2 && hash(q) in s.submitted ==>
      After(hash, s, [Decide(i), Claim(i)]) == Some(Move(s, i, Idle))
  {
    hide Enabled, Apply, After, Submitted;
    DecideStep(hash, s, i);
    OneLast(hash, s, Decide(i));
    TwoSteps(hash, s, Decide(i), Claim(i));
    ThreeSteps(hash, s, Decide(i), Claim(i), Submit(i));
    if CountOf(s.freq, q) >= 2 {
      ClaimAndSubmit(hash, s, Move(s, i, Approved(q, n)), i, q, n);
    } else {
      TwoSteps(hash, Move(s, i, Idle), Claim(i), Submit(i));
      NeedsApproval(Move(s, i, Idle), i);
    }
  }

  lemma ClaimAndSubmit(hash: Signature -> nat, s: State, s1: State, i: nat, q: Signature, n: nat)
    requires i < |s.clients| && s1 == Move(s, i, Approved(q, n))
    ensures After(hash, s1, [Claim(i), Submit(i)]) ==
      if hash(q) in s.submitted then None else Some(Submitted(hash, s, i, q, n))
    ensures hash(q) in s.submitted ==> After(hash, s1, [Claim(i)]) == Some(Move(s, i, Idle))
  {
    hide Enabled, Apply, After;
    ClaimStep(hash, s1, i);
    OneLast(hash, s1, Claim(i));
    TwoSteps(hash, s1, Claim(i), Submit(i));
    var s2 := Apply(hash, s1, Claim(i));
    OneLast(hash, s2, Submit(i));
    SubmitStep(hash, s2, i);
    assert s.clients[i := Approved(q, n)][i := Idle] == s.clients[i := Idle];
    assert s.clients[i := Approved(q, n)][i := Claimed(q, n)][i := Idle] == s.clients[i := Idle];
  }

  lemma DecideStep(hash: Signature -> nat, s: State, i: nat)
    requires i < |s.clients| && s.clients[i].Seen?
    ensures var c := s.clients[i];
      Enabled(s, Decide(i))
      && Apply(hash, s, Decide(i)) == Move(s, i, if CountOf(s.freq, c.q) >= 2 then Approved(c.q, c.count) else Idle)
  {
  }

  lemma ClaimStep(hash: Signature -> nat, s: State, i: nat)
    requires i < |s.clients| && s.clients[i].Approved?
    ensures var c := s.clients[i];
      Enabled(s, Claim(i))
      && Apply(hash, s, Claim(i)) ==
        if hash(c.q) in s.submitted then Move(s, i, Idle)
        else Move(s, i, Claimed(c.q, c.count)).(submitted := s.submitted + {hash(c.q)})
  {
  }

  lemma NeedsApproval(s: State, i: nat)
    ensures Enabled(s, Claim(i)) <==> i < |s.clients| && s.clients[i].Approved?
  {
  }

  lemma SubmitStep(hash: Signature -> nat, s: State, i: nat)
    requires i < |s.clients|
    ensures Enabled(s, Submit(i)) <==> s.clients[i].Claimed?
    ensures s.clients[i].Claimed? ==>
      var t := Task(|s.log|, s.clients[i].q, s.clients[i].count);
      Apply(hash, s, Submit(i)) == Move(s, i, Idle).(
        queue := s.queue + {t}, active := s.active + 1, log := s.log + [t], lateSubmit := s.lateSubmit || s.shutdown)
  {
  }

  // ---------- a call of Run ----------

  /** The state with the shape counted once more and the client where it is put. */
  function Counting(s: State, i: nat, q: Signature, c: Client): State
    requires i < |s.clients|
  {
    s.(clients := s.clients[i := c], freq := Counted(s.freq, q))
  }

  function Executing(s: State, query: Signature, used: Signature): State {
    s.(executions := s.executions + {Execution(query, used)})
  }

  lemma RecordStep(hash: Signature -> nat, s: State, i: nat, q: Signature)
    requires i < |s.clients| && s.clients[i] == Idle
    ensures Enabled(s, Record(i, q)) && Apply(hash, s, Record(i, q)) == Counting(s, i, q, Recorded(q))
  {
  }

  lemma LookupStep(hash: Signature -> nat, s: State, i: nat, q: Signature)
    requires i < |s.clients| && s.clients[i] == Idle
    ensures var s1 := Counting(s, i, q, Recorded(q));
      (Enabled(s1, ExactHit(i)) <==> q in s.cache) && (Enabled(s1, ExactMiss(i)) <==> q !in s.cache)
      && (q in s.cache ==> Apply(hash, s1, ExactHit(i)) == Executing(Counting(s, i, q, Idle), q, q))
      && (q !in s.cache ==> Apply(hash, s1, ExactMiss(i)) == Counting(s, i, q, NoExact(q)))
  {
    assert s.clients[i := Recorded(q)][i := Idle] == s.clients[i := Idle];
    assert s.clients[i := Recorded(q)][i := NoExact(q)] == s.clients[i := NoExact(q)];
  }

  lemma NearStep(hash: Signature -> nat, s: State, i: nat, q: Signature, c: Signature)
    requires i < |s.clients|
    ensures var s2 := Counting(s, i, q, NoExact(q));
      (Enabled(s2, FuzzyHit(i, c)) <==> Nearest(s.cache, q, c)) && (Enabled(s2, FuzzyMiss(i)) <==> NoneNear(s.cache, q))
      && (Nearest(s.cache, q, c) ==>
            Apply(hash, s2, FuzzyHit(i, c)) == Executing(Counting(s, i, q, Ran(q)), q, c))
      && (NoneNear(s.cache, q) ==> Apply(hash, s2, FuzzyMiss(i)) == Counting(s, i, q, Compiling(q)))
  {
    assert s.clients[i := NoExact(q)][i := Ran(q)] == s.clients[i := Ran(q)];
    assert s.clients[i := NoExact(q)][i := Compiling(q)] == s.clients[i := Compiling(q)];
    if Nearest(s.cache, q, c) { assert c in s.cache; }
    hide Nearest, NoneNear, Counted;
  }

  lemma CompileStep(hash: Signature -> nat, s: State, i: nat, q: Signature, kernel: int)
    requires i < |s.clients|
    ensures var s3 := Counting(s, i, q, Compiling(q));
      Enabled(s3, SyncPut(i, kernel)) && Enabled(s3, SyncFail(i))
      && Apply(hash, s3, SyncPut(i, kernel)) == Counting(s, i, q, Cached(q)).(cache := s.cache[q := kernel])
      && Apply(hash, s3, SyncFail(i)) == Counting(s, i, q, Idle)
  {
    assert s.clients[i := Compiling(q)][i := Cached(q)] == s.clients[i := Cached(q)];
    assert s.clients[i := Compiling(q)][i := Idle] == s.clients[i := Idle];
  }

  lemma RunStep(hash: Signature -> nat, s: State, i: nat, q: Signature)
    requires i < |s.clients| && s.clients[i] == Cached(q) && q in s.cache
    ensures Enabled(s, RunCached(i)) && Apply(hash, s, RunCached(i)) == Executing(Move(s, i, Ran(q)), q, q)
  {
  }

  lemma CountStep(hash: Signature -> nat, s: State, i: nat, q: Signature)
    requires i < |s.clients| && s.clients[i] == Ran(q)
    ensures Enabled(s, ReadCount(i)) && Apply(hash, s, ReadCount(i)) == Move(s, i, Seen(q, CountOf(s.freq, q)))
  {
  }

  /** One run after another. */
  lemma {:induction false} AfterConcat(hash: Signature -> nat, s: State, a: seq<Action>, b: seq<Action>)
    ensures After(hash, s, a + b) ==
      match After(hash, s, a) case None => None case Some(m) => After(hash, m, b)
    decreases |a|
  {
    hide Enabled, Apply;
    if a == [] {
      assert a + b == b;
    } else {
      assert (a + b)[1..] == a[1..] + b;
      if Enabled(s, a[0]) { AfterConcat(hash, Apply(hash, s, a[0]), a[1..], b); }
    }
  }

  /** A shape with a kernel of its own: the call runs it, counts the shape, and schedules nothing. */
  lemma ExactCall(hash: Signature -> nat, s: State, i: nat, q: Signature)
    requires i < |s.clients| && s.clients[i] == Idle
    ensures After(hash, s, [Record(i, q), ExactHit(i)]) ==
      if q in s.cache then Some(Executing(Counting(s, i, q, Idle), q, q)) else None
  {
    hide Enabled, Apply, After, Counting, Executing;
    RecordStep(hash, s, i, q);
    LookupStep(hash, s, i, q);
    TwoSteps(hash, s, Record(i, q), ExactHit(i));
    OneLast(hash, Counting(s, i, q, Recorded(q)), ExactHit(i));
  }

  lemma MissedCall(hash: Signature -> nat, s: State, i: nat, q: Signature)
    requires i < |s.clients| && s.clients[i] == Idle
    ensures After(hash, s, [Record(i, q), ExactMiss(i)]) ==
      if q in s.cache then None else Some(Counting(s, i, q, NoExact(q)))
  {
    hide Enabled, Apply, After, Counting, Executing;
    RecordStep(hash, s, i, q);
    LookupStep(hash, s, i, q);
    TwoSteps(hash, s, Record(i, q), ExactMiss(i));
    OneLast(hash, Counting(s, i, q, Recorded(q)), ExactMiss(i));
  }

  /** Without one, the call runs the nearest kernel that covers the shape and reads the new count. */
  lemma FuzzyCall(hash: Signature -> nat, s: State, i: nat, q: Signature, c: Signature)
    requires i < |s.clients| && s.clients[i] == Idle
    ensures After(hash, s, [Record(i, q), ExactMiss(i)] + [FuzzyHit(i, c), ReadCount(i)]) ==
      if q !in s.cache && Nearest(s.cache, q, c)
      then Some(Executing(Counting(s, i, q, Seen(q, CountOf(s.freq, q) + 1)), q, c)) else None
  {
    hide Enabled, Apply, After, Nearest, NoneNear;
    MissedCall(hash, s, i, q);
    AfterConcat(hash, s, [Record(i, q), ExactMiss(i)], [FuzzyHit(i, c), ReadCount(i)]);
    if q !in s.cache {
      var s2 := Counting(s, i, q, NoExact(q));
      NearStep(hash, s, i, q, c);
      TwoSteps(hash, s2, FuzzyHit(i, c), ReadCount(i));
      if Nearest(s.cache, q, c) {
        var s3 := Executing(Counting(s, i, q, Ran(q)), q, c);
        OneLast(hash, s3, ReadCount(i));
        CountStep(hash, s3, i, q);
        assert s.clients[i := Ran(q)][i := Seen(q, CountOf(s.freq, q) + 1)]
            == s.clients[i := Seen(q, CountOf(s.freq, q) + 1)];
      }
    }
  }

  /** With none near, the call compiles, caches and runs a kernel for the shape itself. */
  lemma MissCall(hash: Signature -> nat, s: State, i: nat, q: Signature, kernel: int)
    requires i < |s.clients| && s.clients[i] == Idle
    ensures var run := [Record(i, q), ExactMiss(i)] + [FuzzyMiss(i), SyncPut(i, kernel)] + [RunCached(i), ReadCount(i)];
      After(hash, s, run) ==
      if q !in s.cache && NoneNear(s.cache, q)
      then Some(Executing(Counting(s, i, q, Seen(q, CountOf(s.freq, q) + 1)).(cache := s.cache[q := kernel]), q, q))
      else None
  {
    hide Enabled, Apply, After, Nearest, NoneNear;
    var first, second := [Record(i, q), ExactMiss(i)], [FuzzyMiss(i), SyncPut(i, kernel)];
    var third := [RunCached(i), ReadCount(i)];
    MissedCall(hash, s, i, q);
    AfterConcat(hash, s, first, second);
    AfterConcat(hash, s, first + second, third);
    if q !in s.cache {
      var s2 := Counting(s, i, q, NoExact(q));
      NearStep(hash, s, i, q, q);
      TwoSteps(hash, s2, FuzzyMiss(i), SyncPut(i, kernel));
      if NoneNear(s.cache, q) {
        CompileStep(hash, s, i, q, kernel);
        OneLast(hash, Counting(s, i, q, Compiling(q)), SyncPut(i, kernel));
        RunAndCount(hash, s, i, q, kernel);
      }
    }
  }

  lemma RunAndCount(hash: Signature -> nat, s: State, i: nat, q: Signature, kernel: int)
    requires i < |s.clients|
    ensures After(hash, Counting(s, i, q, Cached(q)).(cache := s.cache[q := kernel]), [RunCached(i), ReadCount(i)])
         == Some(Executing(Counting(s, i, q, Seen(q, CountOf(s.freq, q) + 1)).(cache := s.cache[q := kernel]), q, q))
  {
    hide Enabled, Apply, After;
    var s4 := Counting(s, i, q, Cached(q)).(cache := s.cache[q := kernel]);
    RunStep(hash, s4, i, q);
    TwoSteps(hash, s4, RunCached(i), ReadCount(i));
    var s5 := Executing(Move(s4, i, Ran(q)), q, q);
    CountStep(hash, s5, i, q);
    OneLast(hash, s5, ReadCount(i));
    assert s.clients[i := Cached(q)][i := Ran(q)][i := Seen(q, CountOf(s.freq, q) + 1)]
        == s.clients[i := Seen(q, CountOf(s.freq, q) + 1)];
  }

  /** A compilation that fails leaves the shape counted and the cache as it was. */
  lemma FailedCall(hash: Signature -> nat, s: State, i: nat, q: Signature)
    requires i < |s.clients| && s.clients[i] == Idle && q !in s.cache && NoneNear(s.cache, q)
    ensures After(hash, s, [Record(i, q), ExactMiss(i)] + [FuzzyMiss(i), SyncFail(i)]) == Some(Counting(s, i, q, Idle))
  {
    hide Enabled, Apply, After, Nearest, NoneNear;
    MissedCall(hash, s, i, q);
    AfterConcat(hash, s, [Record(i, q), ExactMiss(i)], [FuzzyMiss(i), SyncFail(i)]);
    NearStep(hash, s, i, q, q);
    TwoSteps(hash, Counting(s, i, q, NoExact(q)), FuzzyMiss(i), SyncFail(i));
    CompileStep(hash, s, i, q, 0);
    OneLast(hash, Counting(s, i, q, Compiling(q)), SyncFail(i));
  }

  /**
   A call that runs on a nearby kernel goes on to submit exactly when the shape had been seen
   before and its hash was not claimed.
   */
  lemma FuzzyCallSubmits(hash: Signature -> nat, s: State, i: nat, q: Signature, c: Signature)
    requires i < |s.clients| && s.clients[i] == Idle && q !in s.cache && Nearest(s.cache, q, c)
    ensures var run := [Record(i, q), ExactMiss(i)] + [FuzzyHit(i, c), ReadCount(i)];
      After(hash, s, run + [Decide(i), Claim(i), Submit(i)]).Some?
      <==> CountOf(s.freq, q) >= 1 && hash(q) !in s.submitted
  {
    hide After, Nearest;
    var run := [Record(i, q), ExactMiss(i)] + [FuzzyHit(i, c), ReadCount(i)];
    FuzzyCall(hash, s, i, q, c);
    AfterConcat(hash, s, run, [Decide(i), Claim(i), Submit(i)]);
    var m := Executing(Counting(s, i, q, Seen(q, CountOf(s.freq, q) + 1)), q, c);
    ScheduleExact(hash, m, i, q, CountOf(s.freq, q) + 1);
  }

  // ---------- warming up ----------

  /** Warming up caches a kernel for a shape that has none, and does nothing else. */
  lemma WarmUpCall(hash: Signature -> nat, s: State, i: nat, q: Signature, kernel: int)
    requires i < |s.clients| && s.clients[i] == Idle
    ensures q in s.cache ==> After(hash, s, [WarmUp(i, q)]) == Some(s)
    ensures q !in s.cache ==>
      After(hash, s, [WarmUp(i, q), WarmPut(i, kernel)]) == Some(s.(cache := s.cache[q := kernel]))
  {
    hide After;
    OneLast(hash, s, WarmUp(i, q));
    TwoSteps(hash, s, WarmUp(i, q), WarmPut(i, kernel));
    assert s.clients[i := Idle] == s.clients;
    if q !in s.cache {
      var s1 := Move(s, i, Warming(q));
      assert Apply(hash, s, WarmUp(i, q)) == s1;
      OneLast(hash, s1, WarmPut(i, kernel));
      assert s.clients[i := Warming(q)][i := Idle] == s.clients;
    }
  }

  // ---------- a background compilation ----------

  predicate Foremost(s: State, t: Task) {
    t in s.queue && forall u :: u in s.queue ==> u.priority <= t.priority
  }

  /** The state after a task has left the queue and been counted out. */
  function Retiring(s: State, t: Task): State {
    s.(queue := s.queue - {t}, active := s.active - 1, retired := s.retired + {t.id})
  }

  lemma PopStep(hash: Signature -> nat, s: State, j: nat, t: Task)
    requires j < |s.workers| && s.workers[j] == Waiting
    ensures Enabled(s, Pop(j, t)) <==> Foremost(s, t)
    ensures Foremost(s, t) ==>
      Apply(hash, s, Pop(j, t)) == s.(workers := s.workers[j := Running(t)], queue := s.queue - {t})
  {
  }

  lemma BuildSteps(hash: Signature -> nat, s: State, j: nat, t: Task, kernel: int)
    requires j < |s.workers|
    ensures s.workers[j] == Running(t) ==>
      Enabled(s, CompileOk(j)) && Apply(hash, s, CompileOk(j)) == Turn(s, j, Compiled(t))
    ensures s.workers[j] == Compiled(t) ==>
      Enabled(s, Callback(j, kernel))
      && Apply(hash, s, Callback(j, kernel)) == Turn(s, j, Stored(t)).(cache := s.cache[t.sig := kernel])
    ensures s.workers[j] == Running(t) || s.workers[j] == Compiled(t) || s.workers[j] == Stored(t) ==>
      Enabled(s, Fail(j)) && Apply(hash, s, Fail(j)) == Turn(s, j, Finished(t, false))
  {
  }

  lemma FinishSteps(hash: Signature -> nat, s: State, j: nat, t: Task, ok: bool)
    requires j < |s.workers|
    ensures s.workers[j] == Stored(t) ==>
      var done := Turn(s, j, Finished(t, true));
      Enabled(s, Count(j))
      && Apply(hash, s, Count(j)) == done.(completed := s.completed + 1, succeeded := s.succeeded + {t.id})
    ensures s.workers[j] == Finished(t, ok) ==>
      var idle := Turn(s, j, Waiting);
      Enabled(s, Decrement(j))
      && Apply(hash, s, Decrement(j)) == idle.(active := s.active - 1, retired := s.retired + {t.id})
  {
  }

  /** A compilation takes a foremost task, caches a kernel for its shape and counts it once. */
  lemma TaskSucceeds(hash: Signature -> nat, s: State, j: nat, t: Task, kernel: int)
    requires j < |s.workers| && s.workers[j] == Waiting
    ensures After(hash, s, [Pop(j, t), CompileOk(j)] + [Callback(j, kernel), Count(j), Decrement(j)]) ==
      if Foremost(s, t) then
        Some(Retiring(s, t).(cache := s.cache[t.sig := kernel], completed := s.completed + 1,
                             succeeded := s.succeeded + {t.id}))
      else None
  {
    hide Enabled, Apply, After;
    AfterConcat(hash, s, [Pop(j, t), CompileOk(j)], [Callback(j, kernel), Count(j), Decrement(j)]);
    PopStep(hash, s, j, t);
    TwoSteps(hash, s, Pop(j, t), CompileOk(j));
    if Foremost(s, t) {
      var s1 := s.(workers := s.workers[j := Running(t)], queue := s.queue - {t});
      BuildSteps(hash, s1, j, t, kernel);
      OneLast(hash, s1, CompileOk(j));
      var s2 := Turn(s1, j, Compiled(t));
      StoreAndFinish(hash, s2, j, t, kernel);
      assert s2.workers[j := Waiting] == s.workers;
    }
  }

  /** The state after a worker has counted its task and gone back to waiting. */
  function Left(s: State, j: nat, t: Task): State
    requires j < |s.workers|
  {
    Turn(s, j, Waiting).(
      completed := s.completed + 1, succeeded := s.succeeded + {t.id}, active := s.active - 1,
      retired := s.retired + {t.id})
  }

  function Storing(s: State, j: nat, t: Task, kernel: int): State
    requires j < |s.workers|
  {
    Turn(s, j, Stored(t)).(cache := s.cache[t.sig := kernel])
  }

  lemma StoreAndFinish(hash: Signature -> nat, s: State, j: nat, t: Task, kernel: int)
    requires j < |s.workers| && s.workers[j] == Compiled(t)
    ensures After(hash, s, [Callback(j, kernel), Count(j), Decrement(j)])
         == Some(Left(s, j, t).(cache := s.cache[t.sig := kernel]))
  {
    hide Enabled, Apply, After, Left, Storing;
    StoreStep(hash, s, j, t, kernel);
    ThreeSteps(hash, s, Callback(j, kernel), Count(j), Decrement(j));
    CountAndLeave(hash, Storing(s, j, t, kernel), j, t);
    StoredThenLeft(s, j, t, kernel);
  }

  lemma StoreStep(hash: Signature -> nat, s: State, j: nat, t: Task, kernel: int)
    requires j < |s.workers| && s.workers[j] == Compiled(t)
    ensures Enabled(s, Callback(j, kernel)) && Apply(hash, s, Callback(j, kernel)) == Storing(s, j, t, kernel)
    ensures j < |Storing(s, j, t, kernel).workers| && Storing(s, j, t, kernel).workers[j] == Stored(t)
  {
    hide Enabled, Apply;
    BuildSteps(hash, s, j, t, kernel);
  }

  lemma StoredThenLeft(s: State, j: nat, t: Task, kernel: int)
    requires j < |s.workers|
    ensures Left(Storing(s, j, t, kernel), j, t) == Left(s, j, t).(cache := s.cache[t.sig := kernel])
  {
    assert s.workers[j := Stored(t)][j := Waiting] == s.workers[j := Waiting];
  }

  lemma CountAndLeave(hash: Signature -> nat, s: State, j: nat, t: Task)
    requires j < |s.workers| && s.workers[j] == Stored(t)
    ensures After(hash, s, [Count(j), Decrement(j)]) == Some(Left(s, j, t))
  {
    hide Enabled, Apply, After;
    FinishSteps(hash, s, j, t, true);
    TwoSteps(hash, s, Count(j), Decrement(j));
    var s1 := Turn(s, j, Finished(t, true)).(completed := s.completed + 1, succeeded := s.succeeded + {t.id});
    FinishSteps(hash, s1, j, t, true);
    OneLast(hash, s1, Decrement(j));
    assert s.workers[j := Finished(t, true)][j := Waiting] == s.workers[j := Waiting];
  }

  /** One that fails while compiling changes neither cache nor count, and is over all the same. */
  lemma TaskFails(hash: Signature -> nat, s: State, j: nat, t: Task)
    requires j < |s.workers| && s.workers[j] == Waiting && Foremost(s, t)
    ensures After(hash, s, [Pop(j, t), Fail(j), Decrement(j)]) == Some(Retiring(s, t))
  {
    hide Enabled, Apply, After;
    PopStep(hash, s, j, t);
    ThreeSteps(hash, s, Pop(j, t), Fail(j), Decrement(j));
    var s1 := s.(workers := s.workers[j := Running(t)], queue := s.queue - {t});
    BuildSteps(hash, s1, j, t, 0);
    TwoSteps(hash, s1, Fail(j), Decrement(j));
    var s2 := Turn(s1, j, Finished(t, false));
    FinishSteps(hash, s2, j, t, false);
    OneLast(hash, s2, Decrement(j));
    assert s2.workers[j := Waiting] == s.workers;
  }

  /** A waiting worker may leave exactly when shutdown was asked for and the queue is empty. */
  lemma LeavesExact(hash: Signature -> nat, s: State, j: nat)
    requires j < |s.workers| && s.workers[j] == Waiting
    ensures After(hash, s, [Exit(j)]) ==
      if s.shutdown && s.queue == {} then Some(s.(workers := s.workers[j := Exited])) else None
  {
    hide After;
    OneLast(hash, s, Exit(j));
  }
}
