/** Which submissions the pool accepts, and which job a worker takes (src/platform/thread_pool.rs). */
module PoolQueue {
  import opened Wrappers
  import opened ThreadPool

  /** A submission is refused exactly when the pool is stopping or 1024 jobs for each worker are queued; otherwise it joins at the end. */
  lemma AcceptedExactly(c: Config, s: State, i: nat, pick: nat)
    requires i < |s.threads| && s.threads[i].SubmitHold? && Enabled(s, Move(i, pick))
    ensures var s' := Next(c, s, Move(i, pick));
      && |s'.threads| == |s.threads| && s'.finished == s.finished && s'.pending == s.pending
      && if s.stop || |s.jobs| >= 1024 * c.workers
         then s'.jobs == s.jobs && s'.accepted == s.accepted && s'.threads[i].Idle? && s'.lock.None?
         else s'.jobs == s.jobs + [s.accepted] && s'.accepted == s.accepted + 1 && s'.threads[i].SubmitPushed? && s'.lock == s.lock
  {
  }

  // ---- What can be queued ----

  /** The queue rises in order of acceptance and never holds more than 1024 jobs for each worker. */
  predicate QueueOk(c: Config, s: State) {
    && |s.jobs| <= 1024 * c.workers
    && (forall j, k :: 0 <= j < k < |s.jobs| ==> s.jobs[j] < s.jobs[k])
    && (forall j :: 0 <= j < |s.jobs| ==> s.jobs[j] < s.accepted)
  }

  lemma StepKeepsQueue(c: Config, s: State, step: Step)
    requires QueueOk(c, s) && Enabled(s, step)
    ensures QueueOk(c, Next(c, s, step))
  {
    if !step.Stop? {
      JobMoves(c, s, step);
      if step.Move? && s.threads[step.i].SubmitHold? { AcceptedExactly(c, s, step.i, step.pick); }
    }
  }

  lemma {:induction false} RunKeepsQueue(c: Config, states: seq<State>, steps: seq<Step>)
    requires IsRun(c, states, steps) && states[0] == Init(c)
    ensures QueueOk(c, states[|steps|])
  {
    if steps != [] {
      var n := |steps| - 1;
      RunKeepsQueue(c, states[..n + 1], steps[..n]);
      StepKeepsQueue(c, states[n], steps[n]);
    }
  }

  /** A worker that finds jobs takes the one accepted last of all that are queued, and leaves the others. */
  lemma NewestIsTaken(c: Config, s: State, i: nat, pick: nat)
    requires Reachable(c, s) && i < |s.threads| && s.threads[i].Inspect? && Enabled(s, Move(i, pick)) && s.jobs != []
    ensures var s' := Next(c, s, Move(i, pick));
      && |s'.threads| == |s.threads| && s'.threads[i].Popped?
      && multiset(s'.jobs) + multiset{s'.threads[i].job} == multiset(s.jobs)
      && forall j :: j in s'.jobs ==> j < s'.threads[i].job
  {
    var states, steps :| IsRun(c, states, steps) && states[0] == Init(c) && states[|steps|] == s;
    RunKeepsQueue(c, states, steps);
    PopTakesLast(s.jobs);
  }

  // ---- Every size up to the limit is reached ----

  function Numbers(n: nat): (s: seq<nat>)
    ensures |s| == n
  {
    seq(n, i => i)
  }

  /** The first client submits while the workers have not looked yet. */
  function Submitting(c: Config, lock: Option<nat>, jobs: nat, pending: nat, pc: Pc): State
    requires c.Valid()
  {
    State(lock, Numbers(jobs), pending, false, Init(c).threads[c.workers := pc], jobs, [])
  }

  lemma Submits(c: Config, s: State, step: Step, s': State)
    requires Reachable(c, s) && Enabled(s, step) && !step.Stop?
    requires var t := Next(c, s, step);
      && t.lock == s'.lock && t.jobs == s'.jobs && t.pending == s'.pending && t.stop == s'.stop
      && t.accepted == s'.accepted && t.finished == s'.finished && t.threads == s'.threads
    ensures Reachable(c, s')
  {
    Extend(c, s, step, s');
  }

  lemma SubmitterEntersAt(c: Config, n: nat)
    requires c.Valid() && Reachable(c, Submitting(c, None, n, n, Idle))
    ensures Reachable(c, Submitting(c, Some(c.workers), n, n, SubmitHold))
  {
    var w := c.workers;
    Submits(c, Submitting(c, None, n, n, Idle), Submit(w), Submitting(c, None, n, n, SubmitWant));
    Submits(c, Submitting(c, None, n, n, SubmitWant), Move(w, 0), Submitting(c, Some(w), n, n, SubmitHold));
  }

  lemma SubmitterPushes(c: Config, n: nat)
    requires c.Valid() && n < 1024 * c.workers
    ensures var s := Submitting(c, Some(c.workers), n, n, SubmitHold);
      Enabled(s, Move(c.workers, 0)) && Next(c, s, Move(c.workers, 0)) == Submitting(c, Some(c.workers), n + 1, n, SubmitPushed)
  {
    var w := c.workers;
    var s := Submitting(c, Some(w), n, n, SubmitHold);
    AcceptedExactly(c, s, w, 0);
    assert Numbers(n) + [n] == Numbers(n + 1);
    assert s.threads[w := SubmitPushed] == Init(c).threads[w := SubmitPushed];
  }

  lemma OneMoreQueued(c: Config, n: nat)
    requires c.Valid() && n < 1024 * c.workers && Reachable(c, Submitting(c, None, n, n, Idle))
    ensures Reachable(c, Submitting(c, None, n + 1, n + 1, Idle))
  {
    var w := c.workers;
    SubmitterEntersAt(c, n);
    SubmitterPushes(c, n);
    Extend(c, Submitting(c, Some(w), n, n, SubmitHold), Move(w, 0), Submitting(c, Some(w), n + 1, n, SubmitPushed));
    OneMoreCounted(c, n + 1);
  }

  lemma OneMoreCounted(c: Config, n: nat)
    requires c.Valid() && n > 0 && Reachable(c, Submitting(c, Some(c.workers), n, n - 1, SubmitPushed))
    ensures Reachable(c, Submitting(c, None, n, n, Idle))
  {
    var w := c.workers;
    Submits(c, Submitting(c, Some(w), n, n - 1, SubmitPushed), Move(w, 0), Submitting(c, Some(w), n, n, SubmitCounted));
    Submits(c, Submitting(c, Some(w), n, n, SubmitCounted), Move(w, 0), Submitting(c, None, n, n, SubmitNotify));
    Submits(c, Submitting(c, None, n, n, SubmitNotify), Move(w, 0), Submitting(c, None, n, n, Idle));
  }

  lemma {:induction false} SizeIsReached(c: Config, n: nat)
    requires c.Valid() && n <= 1024 * c.workers
    ensures Reachable(c, Submitting(c, None, n, n, Idle))
  {
    if n == 0 {
      InitReachable(c);
      assert Submitting(c, None, 0, 0, Idle) == Init(c);
    } else {
      SizeIsReached(c, n - 1);
      OneMoreQueued(c, n - 1);
    }
  }

  /** The queue can hold exactly up to 1024 jobs for each worker. */
  lemma QueueSizesExactly(c: Config, n: nat)
    requires c.Valid()
    ensures (exists s :: Reachable(c, s) && |s.jobs| == n) <==> n <= 1024 * c.workers
  {
    if n <= 1024 * c.workers {
      SizeIsReached(c, n);
    }
    forall s | Reachable(c, s) ensures |s.jobs| <= 1024 * c.workers {
      var states, steps :| IsRun(c, states, steps) && states[0] == Init(c) && states[|steps|] == s;
      RunKeepsQueue(c, states, steps);
    }
  }
}
