/**
 The worker pool (src/platform/thread_pool.rs) as a state machine: one mutex, one condition
 variable shared by idle workers and `wait_idle`, `pending` and `stop` words, any number of
 workers and clients, every interleaving.
 */
module ThreadPool {
  import opened Wrappers

  /** Threads 0..workers are pool workers, the others are clients. */
  datatype Config = Config(workers: nat, clients: nat) {
    predicate Valid() { workers >= 1 && clients >= 1 }
    function Threads(): nat { workers + clients }
    function MaxJobs(): nat { workers * 1024 }
  }

  datatype Pc =
    // worker_loop
    | Top | WantLock | Inspect | Popped(job: nat) | Running(job: nat) | Finished | Completing | Announcing | Leaving
    | Parked | Exited
    // try_execute
    | Idle | SubmitWant | SubmitHold | SubmitPushed | SubmitCounted | SubmitNotify
    // wait_idle
    | WaitWant | WaitHold | WaitParked

  /** `accepted` and `finished` are histories: every pushed job, and every job run to its end or panic. */
  datatype State = State(
    lock: Option<nat>,
    jobs: seq<nat>,
    pending: nat,
    stop: bool,
    threads: seq<Pc>,
    accepted: nat,
    finished: seq<nat>
  )

  /** `Move` is the next action of thread `i`; `pick` is the thread that `notify_one` wakes. */
  datatype Step = Submit(i: nat) | WaitIdle(i: nat) | Move(i: nat, pick: nat) | Spurious(i: nat) | Stop

  function Init(c: Config): State {
    State(None, [], 0, false, seq(c.Threads(), i => if i < c.workers then Top else Idle), 0, [])
  }

  predicate IsWaiting(pc: Pc) { pc.Parked? || pc.WaitParked? }

  /** The program points inside a critical section. */
  predicate Holds(pc: Pc) {
    || pc.Inspect? || pc.Popped? || pc.Completing? || pc.Announcing? || pc.Leaving?
    || pc.SubmitHold? || pc.SubmitPushed? || pc.SubmitCounted? || pc.WaitHold?
  }

  /** The program points that need the mutex next. */
  predicate NeedsLock(pc: Pc) { pc.WantLock? || pc.Finished? || pc.SubmitWant? || pc.WaitWant? }

  predicate SomeoneWaits(threads: seq<Pc>) {
    exists j :: 0 <= j < |threads| && IsWaiting(threads[j])
  }

  predicate CanMove(s: State, i: nat)
    requires i < |s.threads|
  {
    var pc := s.threads[i];
    && !pc.Idle? && !pc.Exited? && !IsWaiting(pc)
    && (NeedsLock(pc) ==> s.lock.None?)
  }

  predicate Enabled(s: State, step: Step) {
    match step
    case Submit(i) => i < |s.threads| && s.threads[i].Idle?
    case WaitIdle(i) => i < |s.threads| && s.threads[i].Idle?
    case Move(i, pick) =>
      && i < |s.threads| && CanMove(s, i)
      && (s.threads[i].SubmitNotify? && SomeoneWaits(s.threads) ==> pick < |s.threads| && IsWaiting(s.threads[pick]))
    case Spurious(i) => i < |s.threads| && IsWaiting(s.threads[i])
    case Stop => true
  }

  function Woken(pc: Pc): Pc {
    match pc
    case Parked => WantLock
    case WaitParked => WaitWant
    case _ => pc
  }

  function WakeAll(threads: seq<Pc>): (r: seq<Pc>)
    ensures |r| == |threads|
  {
    seq(|threads|, j requires 0 <= j < |threads| => Woken(threads[j]))
  }

  function To(s: State, i: nat, pc: Pc): State
    requires i < |s.threads|
  {
    s.(threads := s.threads[i := pc])
  }

  function Acquire(s: State, i: nat, pc: Pc): State
    requires i < |s.threads|
  {
    s.(threads := s.threads[i := pc], lock := Some(i))
  }

  function Release(s: State, i: nat, pc: Pc): State
    requires i < |s.threads|
  {
    s.(threads := s.threads[i := pc], lock := None)
  }

  /** One action of thread `i`. */
  function Moved(c: Config, s: State, i: nat, pick: nat): State
    requires Enabled(s, Move(i, pick))
  {
    match s.threads[i]
    // worker_loop
    case Top => To(s, i, if s.stop then Exited else WantLock)
    case WantLock => Acquire(s, i, Inspect)
    case Inspect =>
      if s.jobs != [] then
        var last := |s.jobs| - 1;
        To(s.(jobs := s.jobs[..last]), i, Popped(s.jobs[last]))
      else Release(s, i, if s.stop then Exited else Parked)
    case Popped(job) => Release(s, i, Running(job))
    case Running(job) => To(s.(finished := s.finished + [job]), i, Finished)
    case Finished => Acquire(s, i, Completing)
    case Completing => To(s.(pending := if s.pending > 0 then s.pending - 1 else 0), i, Announcing)
    case Announcing => To(s.(threads := WakeAll(s.threads)), i, Leaving)
    case Leaving => Release(s, i, Top)
    // try_execute
    case SubmitWant => Acquire(s, i, SubmitHold)
    case SubmitHold =>
      if s.stop || |s.jobs| >= c.MaxJobs() then Release(s, i, Idle)
      else To(s.(jobs := s.jobs + [s.accepted], accepted := s.accepted + 1), i, SubmitPushed)
    case SubmitPushed => To(s.(pending := s.pending + 1), i, SubmitCounted)
    case SubmitCounted => Release(s, i, SubmitNotify)
    case SubmitNotify =>
      if SomeoneWaits(s.threads) then To(s.(threads := s.threads[pick := Woken(s.threads[pick])]), i, Idle)
      else To(s, i, Idle)
    // wait_idle
    case WaitWant => Acquire(s, i, WaitHold)
    case WaitHold => Release(s, i, if ReturnsTrue(s) || s.stop then Idle else WaitParked)
    case _ => s
  }

  /** The test on which `wait_idle` returns true. */
  predicate ReturnsTrue(s: State) { s.jobs == [] && s.pending == 0 }

  function Next(c: Config, s: State, step: Step): State
    requires Enabled(s, step)
  {
    match step
    case Submit(i) => To(s, i, SubmitWant)
    case WaitIdle(i) => To(s, i, WaitWant)
    case Move(i, pick) => Moved(c, s, i, pick)
    case Spurious(i) => To(s, i, Woken(s.threads[i]))
    case Stop => s.(stop := true)
  }

  ghost predicate IsRun(c: Config, states: seq<State>, steps: seq<Step>) {
    && |states| == |steps| + 1
    && forall k :: 0 <= k < |steps| ==> Enabled(states[k], steps[k]) && states[k + 1] == Next(c, states[k], steps[k])
  }

  // ---- The invariant ----

  predicate IsWorkerPc(pc: Pc) {
    || pc.Top? || pc.WantLock? || pc.Inspect? || pc.Popped? || pc.Running? || pc.Finished? || pc.Completing?
    || pc.Announcing? || pc.Leaving? || pc.Parked? || pc.Exited?
  }

  /** A job taken from the queue whose completion `pending` does not yet show. */
  predicate IsBusy(pc: Pc) { pc.Popped? || pc.Running? || pc.Finished? || pc.Completing? }

  function Busy(threads: seq<Pc>): (n: nat) {
    if threads == [] then 0 else Busy(threads[..|threads| - 1]) + if IsBusy(threads[|threads| - 1]) then 1 else 0
  }

  function JobsOf(pc: Pc): multiset<nat> {
    match pc
    case Popped(job) => multiset{job}
    case Running(job) => multiset{job}
    case _ => multiset{}
  }

  /** The jobs in the workers' hands. */
  function Carried(threads: seq<Pc>): multiset<nat> {
    if threads == [] then multiset{} else Carried(threads[..|threads| - 1]) + JobsOf(threads[|threads| - 1])
  }

  /** The jobs ever accepted: each id below `n`, once. */
  function Ids(n: nat): (r: multiset<nat>)
    ensures forall j :: r[j] == if 0 <= j < n then 1 else 0
  {
    if n == 0 then multiset{} else Ids(n - 1) + multiset{n - 1}
  }

  /** A client between its push and its count, which holds the lock. */
  predicate Uncounted(s: State) {
    s.lock.Some? && s.lock.value < |s.threads| && s.threads[s.lock.value].SubmitPushed?
  }

  ghost predicate LockOk(s: State) {
    && (s.lock.Some? ==> s.lock.value < |s.threads|)
    && forall i :: 0 <= i < |s.threads| ==> (Holds(s.threads[i]) <==> s.lock == Some(i))
  }

  ghost predicate RolesOk(c: Config, s: State) {
    && |s.threads| == c.Threads()
    && (forall i :: 0 <= i < |s.threads| ==> (IsWorkerPc(s.threads[i]) <==> i < c.workers))
    && (!s.stop ==> forall i :: 0 <= i < |s.threads| ==> !s.threads[i].Exited?)
  }

  predicate PendingOk(s: State) {
    s.pending + (if Uncounted(s) then 1 else 0) == |s.jobs| + Busy(s.threads)
  }

  /** Every accepted job is in exactly one place: queued, carried, or finished once. */
  predicate JobsConserved(s: State) {
    multiset(s.jobs) + Carried(s.threads) + multiset(s.finished) == Ids(s.accepted)
  }

  ghost predicate Inv(c: Config, s: State) {
    c.Valid() && RolesOk(c, s) && LockOk(s) && PendingOk(s) && JobsConserved(s)
  }

  lemma {:induction false} BusyUpdate(threads: seq<Pc>, i: nat, pc: Pc)
    requires i < |threads|
    ensures Busy(threads[i := pc]) + (if IsBusy(threads[i]) then 1 else 0) == Busy(threads) + (if IsBusy(pc) then 1 else 0)
  {
    var last := |threads| - 1;
    if i == last {
      assert threads[i := pc][..last] == threads[..last];
    } else {
      BusyUpdate(threads[..last], i, pc);
      assert threads[i := pc][..last] == threads[..last][i := pc];
    }
  }

  lemma {:induction false} CarriedUpdate(threads: seq<Pc>, i: nat, pc: Pc)
    requires i < |threads|
    ensures Carried(threads[i := pc]) + JobsOf(threads[i]) == Carried(threads) + JobsOf(pc)
  {
    var last := |threads| - 1;
    if i == last {
      assert threads[i := pc][..last] == threads[..last];
    } else {
      CarriedUpdate(threads[..last], i, pc);
      assert threads[i := pc][..last] == threads[..last][i := pc];
      SwapParts(Carried(threads[..last][i := pc]), JobsOf(threads[i]), Carried(threads[..last]), JobsOf(pc), JobsOf(threads[last]));
    }
  }

  lemma SwapParts<T>(after: multiset<T>, was: multiset<T>, before: multiset<T>, now: multiset<T>, rest: multiset<T>)
    requires after + was == before + now
    ensures (after + rest) + was == (before + rest) + now
  {
    assert (after + rest) + was == (after + was) + rest;
  }

  lemma {:induction false} WakingMovesNoJob(threads: seq<Pc>)
    ensures Busy(WakeAll(threads)) == Busy(threads) && Carried(WakeAll(threads)) == Carried(threads)
  {
    if threads != [] {
      var last := |threads| - 1;
      WakingMovesNoJob(threads[..last]);
      assert WakeAll(threads)[..last] == WakeAll(threads[..last]);
      WokenHasSameJob(threads[last]);
    }
  }

  lemma WokenHasSameJob(pc: Pc)
    ensures IsBusy(Woken(pc)) == IsBusy(pc) && JobsOf(Woken(pc)) == JobsOf(pc)
  {
  }

  lemma {:induction false} BusyIsSomeone(threads: seq<Pc>)
    ensures Busy(threads) > 0 <==> exists i :: 0 <= i < |threads| && IsBusy(threads[i])
  {
    if threads != [] {
      BusyIsSomeone(threads[..|threads| - 1]);
    }
  }

  lemma {:induction false} CarriersAreBusy(threads: seq<Pc>)
    ensures Carried(threads) != multiset{} ==> Busy(threads) > 0
  {
    if threads != [] {
      CarriersAreBusy(threads[..|threads| - 1]);
    }
  }

  lemma {:induction false} NobodyCarries(threads: seq<Pc>)
    requires forall i :: 0 <= i < |threads| ==> !IsBusy(threads[i])
    ensures Busy(threads) == 0 && Carried(threads) == multiset{}
  {
    if threads != [] {
      NobodyCarries(threads[..|threads| - 1]);
    }
  }

  lemma InitOk(c: Config)
    requires c.Valid()
    ensures Inv(c, Init(c))
  {
    NobodyCarries(Init(c).threads);
  }

  /** A thread's own step leaves it a worker or a client as it was, and out of the exit unless the pool stops. */
  lemma OwnRole(c: Config, s: State, step: Step)
    requires Enabled(s, step) && !step.Stop?
    ensures IsWorkerPc(PcAfter(c, s, step)) <==> IsWorkerPc(s.threads[step.i])
    ensures Next(c, s, step).stop == s.stop && (PcAfter(c, s, step).Exited? ==> s.stop || s.threads[step.i].Exited?)
  {
  }

  lemma WokenRole(pc: Pc)
    ensures (IsWorkerPc(Woken(pc)) <==> IsWorkerPc(pc)) && (Woken(pc).Exited? <==> pc.Exited?)
  {
  }

  lemma StopKeepsRoles(c: Config, s: State, step: Step)
    requires RolesOk(c, s) && Enabled(s, step) && step.Stop?
    ensures RolesOk(c, Next(c, s, step))
  {
  }

  lemma MoveKeepsRoles(c: Config, s: State, step: Step)
    requires RolesOk(c, s) && Enabled(s, step)
    ensures RolesOk(c, Next(c, s, step))
  {
    if step.Stop? {
      StopKeepsRoles(c, s, step);
    } else {
      var s' := Next(c, s, step);
      OthersStay(c, s, step);
      OwnRole(c, s, step);
      forall i | 0 <= i < |s.threads|
        ensures (IsWorkerPc(s'.threads[i]) <==> IsWorkerPc(s.threads[i])) && (s'.threads[i].Exited? ==> s.stop || s.threads[i].Exited?)
      {
        WokenRole(s.threads[i]);
      }
    }
  }

  /** The program counter of thread `i` after its step. */
  function PcAfter(c: Config, s: State, step: Step): Pc
    requires Enabled(s, step) && !step.Stop?
  {
    Next(c, s, step).threads[step.i]
  }

  /** The other threads, apart from being woken, stay where they are. */
  lemma OthersStay(c: Config, s: State, step: Step)
    requires Enabled(s, step) && !step.Stop?
    ensures var s' := Next(c, s, step);
            && |s'.threads| == |s.threads|
            && forall j :: 0 <= j < |s.threads| && j != step.i ==>
                 s'.threads[j] == s.threads[j] || (IsWaiting(s.threads[j]) && s'.threads[j] == Woken(s.threads[j]))
  {
  }

  /** The mutex follows the stepping thread in and out of its critical section. */
  lemma LockFollowsMover(c: Config, s: State, step: Step)
    requires Enabled(s, step) && !step.Stop? && (Holds(s.threads[step.i]) <==> s.lock == Some(step.i))
    ensures var s' := Next(c, s, step);
            && (Holds(PcAfter(c, s, step)) ==> s'.lock == Some(step.i) && (s.lock.None? || s.lock == Some(step.i)))
            && (!Holds(PcAfter(c, s, step)) ==> s'.lock == if s.lock == Some(step.i) then None else s.lock)
  {
  }

  lemma MoveKeepsLock(c: Config, s: State, step: Step)
    requires LockOk(s) && Enabled(s, step)
    ensures LockOk(Next(c, s, step))
  {
    if !step.Stop? {
      OthersStay(c, s, step);
      LockFollowsMover(c, s, step);
    }
  }

  /** Only the stepping thread's own share of the work changes. */
  ghost predicate ShareMoves(before: seq<Pc>, after: seq<Pc>, t: Pc, t': Pc) {
    && Busy(after) + (if IsBusy(t) then 1 else 0) == Busy(before) + (if IsBusy(t') then 1 else 0)
    && Carried(after) + JobsOf(t) == Carried(before) + JobsOf(t')
  }

  lemma ShareOfUpdate(threads: seq<Pc>, i: nat, pc: Pc)
    requires i < |threads|
    ensures ShareMoves(threads, threads[i := pc], threads[i], pc)
  {
    BusyUpdate(threads, i, pc);
    CarriedUpdate(threads, i, pc);
  }

  lemma ShareOfAnnouncing(threads: seq<Pc>, i: nat)
    requires i < |threads| && threads[i].Announcing?
    ensures ShareMoves(threads, WakeAll(threads)[i := Leaving], threads[i], Leaving)
  {
    WakingMovesNoJob(threads);
    ShareOfUpdate(WakeAll(threads), i, Leaving);
  }

  lemma ShareOfNotify(threads: seq<Pc>, i: nat, pick: nat)
    requires i < |threads| && pick < |threads| && threads[i].SubmitNotify? && IsWaiting(threads[pick])
    ensures ShareMoves(threads, threads[pick := Woken(threads[pick])][i := Idle], threads[i], Idle)
  {
    ShareOfUpdate(threads, pick, Woken(threads[pick]));
    ShareOfUpdate(threads[pick := Woken(threads[pick])], i, Idle);
  }

  lemma AnnouncingShape(c: Config, s: State, step: Step)
    requires Enabled(s, step) && !step.Stop? && s.threads[step.i].Announcing?
    ensures PcAfter(c, s, step) == Leaving && Next(c, s, step).threads == WakeAll(s.threads)[step.i := Leaving]
  {
  }

  lemma NotifyShape(c: Config, s: State, step: Step)
    requires Enabled(s, step) && step.Move? && s.threads[step.i].SubmitNotify? && SomeoneWaits(s.threads)
    ensures PcAfter(c, s, step) == Idle
    ensures Next(c, s, step).threads == s.threads[step.pick := Woken(s.threads[step.pick])][step.i := Idle]
  {
  }

  /** Waking moves no job, so only the stepping thread's own share changes. */
  lemma SharesAfter(c: Config, s: State, step: Step)
    requires Enabled(s, step) && !step.Stop?
    ensures ShareMoves(s.threads, Next(c, s, step).threads, s.threads[step.i], PcAfter(c, s, step))
  {
    var i, after, pc := step.i, Next(c, s, step).threads, PcAfter(c, s, step);
    if s.threads[i].Announcing? {
      AnnouncingShape(c, s, step);
      ShareOfAnnouncing(s.threads, i);
    } else if step.Move? && s.threads[i].SubmitNotify? && SomeoneWaits(s.threads) {
      NotifyShape(c, s, step);
      ShareOfNotify(s.threads, i, step.pick);
    } else {
      OnlyMoverChanges(c, s, step);
      ShareOfUpdate(s.threads, i, pc);
    }
  }

  lemma OnlyMoverChanges(c: Config, s: State, step: Step)
    requires Enabled(s, step) && !step.Stop? && !s.threads[step.i].Announcing?
    requires !(step.Move? && s.threads[step.i].SubmitNotify? && SomeoneWaits(s.threads))
    ensures Next(c, s, step).threads == s.threads[step.i := PcAfter(c, s, step)]
  {
  }

  /** How one step moves the words that `pending` is compared with. */
  lemma CountsFollowMover(c: Config, s: State, step: Step)
    requires Enabled(s, step) && !step.Stop? && (s.threads[step.i].Completing? ==> s.pending > 0)
    ensures var s', t, t' := Next(c, s, step), s.threads[step.i], PcAfter(c, s, step);
            s'.pending + (if t'.SubmitPushed? then 1 else 0) + |s.jobs| + (if IsBusy(t) then 1 else 0)
            == s.pending + (if t.SubmitPushed? then 1 else 0) + |s'.jobs| + (if IsBusy(t') then 1 else 0)
  {
  }

  lemma UncountedFollowsMover(c: Config, s: State, step: Step)
    requires LockOk(s) && Enabled(s, step) && !step.Stop?
    ensures var s', t, t' := Next(c, s, step), s.threads[step.i], PcAfter(c, s, step);
            (if Uncounted(s') then 1 else 0) + (if t.SubmitPushed? then 1 else 0)
            == (if Uncounted(s) then 1 else 0) + (if t'.SubmitPushed? then 1 else 0)
  {
    OthersStay(c, s, step);
    LockFollowsMover(c, s, step);
  }

  lemma MoveKeepsPending(c: Config, s: State, step: Step)
    requires LockOk(s) && PendingOk(s) && Enabled(s, step)
    ensures PendingOk(Next(c, s, step))
  {
    if !step.Stop? {
      BusyIsSomeone(s.threads);
      SharesAfter(c, s, step);
      UncountedFollowsMover(c, s, step);
      CountsFollowMover(c, s, step);
    }
  }

  lemma PopTakesLast(jobs: seq<nat>)
    requires jobs != []
    ensures multiset(jobs[..|jobs| - 1]) + multiset{jobs[|jobs| - 1]} == multiset(jobs)
  {
    assert jobs == jobs[..|jobs| - 1] + [jobs[|jobs| - 1]];
  }

  /** Which jobs one step moves: out of the queue, to their end, into the queue, or none. */
  ghost predicate JobMoved(jobs: seq<nat>, t: Pc, finished: seq<nat>, accepted: nat, jobs': seq<nat>, t': Pc, finished': seq<nat>, accepted': nat, room: bool) {
    if t.Inspect? && jobs != [] then
      jobs' == jobs[..|jobs| - 1] && finished' == finished && accepted' == accepted && t' == Popped(jobs[|jobs| - 1])
    else if t.Running? then
      jobs' == jobs && finished' == finished + [t.job] && accepted' == accepted && t' == Finished
    else if t.SubmitHold? && room then
      jobs' == jobs + [accepted] && finished' == finished && accepted' == accepted + 1 && t' == SubmitPushed
    else
      && jobs' == jobs && finished' == finished && accepted' == accepted
      && (if t.Popped? then t' == Running(t.job) else !t'.Popped? && !t'.Running?)
  }

  lemma JobMoves(c: Config, s: State, step: Step)
    requires Enabled(s, step) && !step.Stop?
    ensures var s' := Next(c, s, step);
            JobMoved(s.jobs, s.threads[step.i], s.finished, s.accepted,
                     s'.jobs, PcAfter(c, s, step), s'.finished, s'.accepted, !s.stop && |s.jobs| < c.MaxJobs())
  {
  }

  ghost predicate Balanced(jobs: seq<nat>, t: Pc, finished: seq<nat>, accepted: nat, jobs': seq<nat>, t': Pc, finished': seq<nat>, accepted': nat) {
    multiset(jobs') + JobsOf(t') + multiset(finished') + Ids(accepted) == multiset(jobs) + JobsOf(t) + multiset(finished) + Ids(accepted')
  }

  lemma PushBalances(jobs: seq<nat>, t: Pc, t': Pc, finished: seq<nat>, accepted: nat)
    requires JobsOf(t) == JobsOf(t') == multiset{}
    ensures Balanced(jobs, t, finished, accepted, jobs + [accepted], t', finished, accepted + 1)
  {
    assert multiset(jobs + [accepted]) == multiset(jobs) + multiset{accepted};
  }

  lemma FinishBalances(jobs: seq<nat>, t: Pc, t': Pc, finished: seq<nat>, accepted: nat)
    requires t.Running? && JobsOf(t') == multiset{}
    ensures Balanced(jobs, t, finished, accepted, jobs, t', finished + [t.job], accepted)
  {
    assert multiset(finished + [t.job]) == multiset(finished) + multiset{t.job};
  }

  lemma PopBalances(jobs: seq<nat>, t: Pc, finished: seq<nat>, accepted: nat)
    requires jobs != [] && JobsOf(t) == multiset{}
    ensures Balanced(jobs, t, finished, accepted, jobs[..|jobs| - 1], Popped(jobs[|jobs| - 1]), finished, accepted)
  {
    PopTakesLast(jobs);
  }

  lemma MovedJobsBalance(jobs: seq<nat>, t: Pc, finished: seq<nat>, accepted: nat, jobs': seq<nat>, t': Pc, finished': seq<nat>, accepted': nat, room: bool)
    requires JobMoved(jobs, t, finished, accepted, jobs', t', finished', accepted', room)
    ensures Balanced(jobs, t, finished, accepted, jobs', t', finished', accepted')
  {
    if t.Running? {
      FinishBalances(jobs, t, t', finished, accepted);
    } else if t.Inspect? && jobs != [] {
      PopBalances(jobs, t, finished, accepted);
    } else if t.SubmitHold? && room {
      PushBalances(jobs, t, t', finished, accepted);
    }
  }

  lemma MoveConservesJobs(c: Config, s: State, step: Step)
    requires JobsConserved(s) && Enabled(s, step)
    ensures JobsConserved(Next(c, s, step))
  {
    if !step.Stop? {
      SharesAfter(c, s, step);
      JobMoves(c, s, step);
      var s', t, t' := Next(c, s, step), s.threads[step.i], PcAfter(c, s, step);
      MovedJobsBalance(s.jobs, t, s.finished, s.accepted, s'.jobs, t', s'.finished, s'.accepted, !s.stop && |s.jobs| < c.MaxJobs());
      MultisetCancel(multiset(s.jobs), Carried(s.threads), multiset(s.finished), Ids(s.accepted),
                     multiset(s'.jobs), Carried(s'.threads), multiset(s'.finished), Ids(s'.accepted), JobsOf(t), JobsOf(t'));
    }
  }

  lemma MultisetCancel(q: multiset<nat>, w: multiset<nat>, f: multiset<nat>, a: multiset<nat>,
                       q': multiset<nat>, w': multiset<nat>, f': multiset<nat>, a': multiset<nat>, t: multiset<nat>, t': multiset<nat>)
    requires q + w + f == a && w' + t == w + t' && q' + t' + f' + a == q + t + f + a'
    ensures q' + w' + f' == a'
  {
    forall x: nat ensures (q' + w' + f')[x] == a'[x] {
      assert (q + w + f)[x] == a[x] && (w' + t)[x] == (w + t')[x] && (q' + t' + f' + a)[x] == (q + t + f + a')[x];
    }
  }

  lemma {:induction false} RunKeepsInv(c: Config, states: seq<State>, steps: seq<Step>)
    requires c.Valid() && IsRun(c, states, steps) && states[0] == Init(c)
    ensures Inv(c, states[|steps|])
  {
    if steps == [] {
      InitOk(c);
    } else {
      var n := |steps| - 1;
      RunKeepsInv(c, states[..n + 1], steps[..n]);
      MoveKeepsRoles(c, states[n], steps[n]);
      MoveKeepsLock(c, states[n], steps[n]);
      MoveKeepsPending(c, states[n], steps[n]);
      MoveConservesJobs(c, states[n], steps[n]);
    }
  }

  // ---- What the counters and `wait_idle` mean ----

  /** Whenever the mutex is free, `pending` is exactly the queued plus the running jobs. */
  lemma PendingIsExact(c: Config, states: seq<State>, steps: seq<Step>)
    requires c.Valid() && IsRun(c, states, steps) && states[0] == Init(c)
    ensures var s := states[|steps|]; s.lock.None? ==> s.pending == |s.jobs| + Busy(s.threads)
  {
    RunKeepsInv(c, states, steps);
  }

  /** `wait_idle` answers true only when every accepted job has been run, each exactly once. */
  lemma TrueMeansAllFinished(c: Config, states: seq<State>, steps: seq<Step>, i: nat)
    requires c.Valid() && IsRun(c, states, steps) && states[0] == Init(c)
    requires var s := states[|steps|]; i < |s.threads| && s.threads[i].WaitHold? && ReturnsTrue(s)
    ensures var s := states[|steps|]; multiset(s.finished) == Ids(s.accepted)
  {
    RunKeepsInv(c, states, steps);
    var s := states[|steps|];
    assert s.lock == Some(i);
    CarriersAreBusy(s.threads);
  }

  // ---- One client that submits and then waits is never stuck ----

  ghost predicate SomeWorkerAwake(c: Config, threads: seq<Pc>)
    requires |threads| == c.Threads()
  {
    exists w :: 0 <= w < c.workers && !threads[w].Parked?
  }

  ghost predicate SomeCompletionComing(c: Config, threads: seq<Pc>)
    requires |threads| == c.Threads()
  {
    exists w :: 0 <= w < c.workers && (IsBusy(threads[w]) || threads[w].Announcing?)
  }

  /** The client is about to notify. */
  predicate WillNotify(pc: Pc) { pc.SubmitPushed? || pc.SubmitCounted? || pc.SubmitNotify? }

  /** Queued jobs have an awake worker or a notification coming; a waiting client has work coming. */
  ghost predicate Live(c: Config, s: State) {
    && |s.threads| == c.Threads() == c.workers + 1
    && (s.jobs != [] && !s.stop ==> SomeWorkerAwake(c, s.threads) || WillNotify(s.threads[c.workers]))
    && (s.threads[c.workers].WaitParked? && !s.stop ==> s.jobs != [] || SomeCompletionComing(c, s.threads))
  }

  /** The queue grows only by a push, and a worker parks only over an empty queue. */
  lemma QueueFacts(c: Config, s: State, step: Step)
    requires Enabled(s, step) && !step.Stop?
    ensures var s', t, t' := Next(c, s, step), s.threads[step.i], PcAfter(c, s, step);
            && s'.stop == s.stop
            && (s.jobs == [] && s'.jobs != [] ==> t'.SubmitPushed?)
            && (s'.jobs == [] && s.jobs != [] ==> t'.Popped?)
            && (t'.Parked? ==> s'.jobs == [])
            && (WillNotify(t) ==> WillNotify(t') || t.SubmitNotify?)
            && (t'.WaitParked? ==> t.WaitHold? && !ReturnsTrue(s) && s'.jobs == s.jobs)
            && (IsBusy(t) ==> IsBusy(t') || t'.Announcing?)
            && (t.Announcing? ==> forall j :: 0 <= j < |s'.threads| ==> !s'.threads[j].WaitParked?)
  {
    JobFacts(c, s, step);
    if s.threads[step.i].Announcing? { AnnouncingShape(c, s, step); }
  }

  lemma JobFacts(c: Config, s: State, step: Step)
    requires Enabled(s, step) && !step.Stop?
    ensures var s', t, t' := Next(c, s, step), s.threads[step.i], PcAfter(c, s, step);
            && s'.stop == s.stop
            && (s.jobs == [] && s'.jobs != [] ==> t'.SubmitPushed?)
            && (s'.jobs == [] && s.jobs != [] ==> t'.Popped?)
            && (t'.Parked? ==> s'.jobs == [])
            && (WillNotify(t) ==> WillNotify(t') || t.SubmitNotify?)
            && (t'.WaitParked? ==> t.WaitHold? && !ReturnsTrue(s) && s'.jobs == s.jobs)
            && (IsBusy(t) ==> IsBusy(t') || t'.Announcing?)
  {
  }

  lemma NotifyWakesWorker(c: Config, s: State, step: Step)
    requires c.Valid() && c.clients == 1 && RolesOk(c, s) && Enabled(s, step) && !step.Stop?
    requires s.threads[step.i].SubmitNotify?
    ensures SomeWorkerAwake(c, Next(c, s, step).threads)
  {
    var s' := Next(c, s, step);
    assert step.i == c.workers;
    if SomeoneWaits(s.threads) {
      NotifyShape(c, s, step);
      assert step.pick < c.workers && !s'.threads[step.pick].Parked?;
    } else {
      assert !IsWaiting(s.threads[0]);
      assert !s'.threads[0].Parked?;
    }
  }

  lemma StepKeepsQueueServed(c: Config, s: State, step: Step)
    requires c.clients == 1 && Inv(c, s) && Live(c, s) && Enabled(s, step) && !step.Stop?
    ensures var s' := Next(c, s, step);
            && |s'.threads| == c.Threads()
            && (s'.jobs != [] && !s'.stop ==> SomeWorkerAwake(c, s'.threads) || WillNotify(s'.threads[c.workers]))
  {
    var i, s' := step.i, Next(c, s, step);
    MoveKeepsRoles(c, s, step);
    QueueFacts(c, s, step);
    OthersStay(c, s, step);
    if s'.jobs != [] && !s'.stop {
      if i < c.workers {
        assert !s'.threads[i].Parked?;
      } else if s.threads[i].SubmitNotify? {
        NotifyWakesWorker(c, s, step);
      } else if s.jobs != [] && SomeWorkerAwake(c, s.threads) {
        var w :| 0 <= w < c.workers && !s.threads[w].Parked?;
        assert !s'.threads[w].Parked?;
      }
    }
  }

  lemma StepKeepsWaiterServed(c: Config, s: State, step: Step)
    requires c.clients == 1 && Inv(c, s) && Live(c, s) && Enabled(s, step) && !step.Stop?
    ensures var s' := Next(c, s, step);
            && |s'.threads| == c.Threads()
            && (s'.threads[c.workers].WaitParked? && !s'.stop ==> s'.jobs != [] || SomeCompletionComing(c, s'.threads))
  {
    var i, s' := step.i, Next(c, s, step);
    MoveKeepsRoles(c, s, step);
    QueueFacts(c, s, step);
    OthersStay(c, s, step);
    if s'.threads[c.workers].WaitParked? && !s'.stop && s'.jobs == [] {
      if s.jobs != [] {
        assert s'.threads[i].Popped?;
        assert i < c.workers && IsBusy(s'.threads[i]);
      } else if i == c.workers {
        ParkingClientHasWork(c, s, i);
        var w :| 0 <= w < c.workers && IsBusy(s.threads[w]);
        assert IsBusy(s'.threads[w]);
      } else {
        var w :| 0 <= w < c.workers && (IsBusy(s.threads[w]) || s.threads[w].Announcing?);
        assert IsBusy(s'.threads[w]) || s'.threads[w].Announcing?;
      }
    }
  }

  lemma ParkingClientHasWork(c: Config, s: State, i: nat)
    requires Inv(c, s) && i < |s.threads| && s.threads[i].WaitHold? && !ReturnsTrue(s) && s.jobs == []
    ensures exists w :: 0 <= w < c.workers && IsBusy(s.threads[w])
  {
    assert s.lock == Some(i);
    BusyIsSomeone(s.threads);
    var w :| 0 <= w < |s.threads| && IsBusy(s.threads[w]);
    assert IsWorkerPc(s.threads[w]);
  }

  lemma {:induction false} RunKeepsLive(c: Config, states: seq<State>, steps: seq<Step>)
    requires c.Valid() && c.clients == 1 && IsRun(c, states, steps) && states[0] == Init(c)
    ensures Inv(c, states[|steps|]) && Live(c, states[|steps|])
  {
    RunKeepsInv(c, states, steps);
    if steps != [] {
      var n := |steps| - 1;
      RunKeepsLive(c, states[..n + 1], steps[..n]);
      StepKeepsLive(c, states[n], steps[n]);
    }
  }

  lemma StepKeepsLive(c: Config, s: State, step: Step)
    requires c.clients == 1 && Inv(c, s) && Live(c, s) && Enabled(s, step)
    ensures Live(c, Next(c, s, step))
  {
    if step.Stop? {
      StopKeepsLive(c, s, step);
    } else {
      StepKeepsQueueServed(c, s, step);
      StepKeepsWaiterServed(c, s, step);
    }
  }

  lemma StopKeepsLive(c: Config, s: State, step: Step)
    requires c.clients == 1 && Inv(c, s) && Live(c, s) && Enabled(s, step) && step.Stop?
    ensures Live(c, Next(c, s, step))
  {
  }

  /** No thread has an action of its own to take. */
  predicate Quiescent(s: State) {
    forall i :: 0 <= i < |s.threads| ==> !CanMove(s, i)
  }

  /** Nobody waits for anything inside a critical section. */
  lemma HolderCanMove(s: State, i: nat)
    requires i < |s.threads| && Holds(s.threads[i])
    ensures CanMove(s, i)
  {
  }

  lemma QuiescentShape(c: Config, s: State)
    requires Inv(c, s) && Quiescent(s) && !s.stop
    ensures s.lock.None?
    ensures forall w :: 0 <= w < c.workers ==> s.threads[w].Parked?
    ensures forall i :: c.workers <= i < |s.threads| ==> s.threads[i].Idle? || s.threads[i].WaitParked?
    ensures s.pending == |s.jobs|
  {
    if s.lock.Some? {
      HolderCanMove(s, s.lock.value);
    }
    forall i | 0 <= i < |s.threads|
      ensures i < c.workers ==> s.threads[i].Parked?
      ensures i >= c.workers ==> s.threads[i].Idle? || s.threads[i].WaitParked?
    {
      assert !CanMove(s, i);
    }
    NobodyCarries(s.threads);
  }

  /** With one client, a pool that can act no further has run everything, and the client is back from its call. */
  lemma OneClientIsServed(c: Config, states: seq<State>, steps: seq<Step>)
    requires c.Valid() && c.clients == 1 && IsRun(c, states, steps) && states[0] == Init(c)
    requires Quiescent(states[|steps|]) && !states[|steps|].stop
    ensures var s := states[|steps|];
            && c.workers < |s.threads| && s.threads[c.workers].Idle?
            && ReturnsTrue(s) && multiset(s.finished) == Ids(s.accepted)
  {
    var s := states[|steps|];
    RunKeepsLive(c, states, steps);
    QuiescentShape(c, s);
    CarriersAreBusy(s.threads);
    NobodyCarries(s.threads);
  }

  // ---- Every burst of activity ends ----

  /** What one job can still cost: its own steps, and a wake-up of everybody when it is done. */
  function JobCost(n: nat): nat { 10 + 2 * n }

  function PcRank(pc: Pc, n: nat): nat {
    match pc
    case Top => 3
    case WantLock => 2
    case Inspect => 1
    case Popped(_) => 9 + 2 * n
    case Running(_) => 8 + 2 * n
    case Finished => 7 + 2 * n
    case Completing => 6 + 2 * n
    case Announcing => 5 + 2 * n
    case Leaving => 4
    case SubmitWant => 17 + 2 * n
    case SubmitHold => 16 + 2 * n
    case SubmitPushed => 5
    case SubmitCounted => 4
    case SubmitNotify => 3
    case WaitWant => 2
    case WaitHold => 1
    case _ => 0
  }

  function ThreadsRank(threads: seq<Pc>, n: nat): nat {
    if threads == [] then 0 else ThreadsRank(threads[..|threads| - 1], n) + PcRank(threads[|threads| - 1], n)
  }

  function QueueRank(jobs: nat, n: nat): nat {
    if jobs == 0 then 0 else QueueRank(jobs - 1, n) + JobCost(n)
  }

  /** Bounds the actions left before nobody can move, if no client makes a new call. */
  function Rank(s: State): nat {
    QueueRank(|s.jobs|, |s.threads|) + ThreadsRank(s.threads, |s.threads|)
  }

  lemma {:induction false} RankUpdate(threads: seq<Pc>, i: nat, pc: Pc, n: nat)
    requires i < |threads|
    ensures ThreadsRank(threads[i := pc], n) + PcRank(threads[i], n) == ThreadsRank(threads, n) + PcRank(pc, n)
  {
    var last := |threads| - 1;
    if i == last {
      assert threads[i := pc][..last] == threads[..last];
    } else {
      RankUpdate(threads[..last], i, pc, n);
      assert threads[i := pc][..last] == threads[..last][i := pc];
    }
  }

  lemma {:induction false} RankOfWake(threads: seq<Pc>, n: nat)
    ensures ThreadsRank(WakeAll(threads), n) <= ThreadsRank(threads, n) + 2 * |threads|
  {
    if threads != [] {
      RankOfWake(threads[..|threads| - 1], n);
      assert WakeAll(threads)[..|threads| - 1] == WakeAll(threads[..|threads| - 1]);
    }
  }

  lemma OwnRankFalls(c: Config, s: State, step: Step)
    requires Enabled(s, step) && step.Move? && !s.threads[step.i].Announcing?
    ensures var s', t, t', n := Next(c, s, step), s.threads[step.i], PcAfter(c, s, step), |s.threads|;
            QueueRank(|s'.jobs|, n) + PcRank(t', n) + (if t.SubmitNotify? then 2 else 0) < QueueRank(|s.jobs|, n) + PcRank(t, n)
  {
  }

  lemma AnnouncingDescends(c: Config, s: State, step: Step)
    requires Enabled(s, step) && step.Move? && s.threads[step.i].Announcing?
    ensures Rank(Next(c, s, step)) < Rank(s)
  {
    AnnouncingShape(c, s, step);
    RankOfWake(s.threads, |s.threads|);
    RankUpdate(WakeAll(s.threads), step.i, Leaving, |s.threads|);
    JobMoves(c, s, step);
  }

  lemma MoveDescends(c: Config, s: State, step: Step)
    requires Enabled(s, step) && step.Move?
    ensures Rank(Next(c, s, step)) < Rank(s)
  {
    var i, n, pc := step.i, |s.threads|, PcAfter(c, s, step);
    OthersStay(c, s, step);
    if s.threads[i].Announcing? {
      AnnouncingDescends(c, s, step);
    } else {
      OwnRankFalls(c, s, step);
      if s.threads[i].SubmitNotify? && SomeoneWaits(s.threads) {
        NotifyShape(c, s, step);
        RankUpdate(s.threads, step.pick, Woken(s.threads[step.pick]), n);
        RankUpdate(s.threads[step.pick := Woken(s.threads[step.pick])], i, Idle, n);
      } else {
        OnlyMoverChanges(c, s, step);
        RankUpdate(s.threads, i, pc, n);
      }
    }
  }

  /** However the threads interleave, only so many actions follow before a new call is needed. */
  lemma {:induction false} MovesAreFinite(c: Config, states: seq<State>, steps: seq<Step>)
    requires IsRun(c, states, steps) && forall k :: 0 <= k < |steps| ==> steps[k].Move?
    ensures |steps| <= Rank(states[0])
  {
    if steps != [] {
      MoveDescends(c, states[0], steps[0]);
      MovesAreFinite(c, states[1..], steps[1..]);
    }
  }

  // ---- Two clients can be stuck ----

  ghost predicate Reachable(c: Config, s: State) {
    exists states, steps :: IsRun(c, states, steps) && states[0] == Init(c) && states[|steps|] == s
  }

  /** Jobs are queued, every worker is parked, and nobody can act. */
  predicate Stuck(c: Config, s: State) {
    && !s.stop && s.jobs != [] && Quiescent(s)
    && forall w :: 0 <= w < c.workers && w < |s.threads| ==> s.threads[w].Parked?
  }

  lemma InitReachable(c: Config)
    ensures Reachable(c, Init(c))
  {
    assert IsRun(c, [Init(c)], []);
  }

  lemma Extend(c: Config, s: State, step: Step, s': State)
    requires Reachable(c, s) && Enabled(s, step) && s' == Next(c, s, step)
    ensures Reachable(c, s')
  {
    var states, steps :| IsRun(c, states, steps) && states[0] == Init(c) && states[|steps|] == s;
    assert IsRun(c, states + [s'], steps + [step]);
    assert (states + [s'])[|steps + [step]|] == s';
  }

  /** The first `k` workers have found no work and parked. */
  function ParkedUpTo(c: Config, k: nat): State {
    Init(c).(threads := seq(c.Threads(), i => if i < k then Parked else if i < c.workers then Top else Idle))
  }

  lemma {:induction false} WorkersPark(c: Config, k: nat)
    requires c.Valid() && k <= c.workers
    ensures Reachable(c, ParkedUpTo(c, k))
  {
    if k == 0 {
      InitReachable(c);
      assert ParkedUpTo(c, 0) == Init(c);
    } else {
      var w := k - 1;
      WorkersPark(c, w);
      var s0 := ParkedUpTo(c, w);
      var s1 := To(s0, w, WantLock);
      var s2 := Acquire(s1, w, Inspect);
      Extend(c, s0, Move(w, 0), s1);
      Extend(c, s1, Move(w, 0), s2);
      assert Release(s2, w, Parked).threads == ParkedUpTo(c, k).threads;
      Extend(c, s2, Move(w, 0), ParkedUpTo(c, k));
    }
  }

  /** All workers parked, the first two clients at the given points. */
  function TwoClients(c: Config, lock: Option<nat>, jobs: seq<nat>, pending: nat, a: Pc, b: Pc): State
    requires c.clients >= 2
  {
    State(lock, jobs, pending, false, ParkedUpTo(c, c.workers).threads[c.workers := a][c.workers + 1 := b], |jobs|, [])
  }

  /** One more step of a reachable state, with the new threads compared one by one. */
  lemma Hop(c: Config, s: State, step: Step, s': State)
    requires c.clients >= 2 && Reachable(c, s) && Enabled(s, step) && !step.Stop?
    requires var t := Next(c, s, step);
             && t.lock == s'.lock && t.jobs == s'.jobs && t.pending == s'.pending && t.stop == s'.stop
             && t.accepted == s'.accepted && t.finished == s'.finished && |t.threads| == |s'.threads|
             && forall j :: 0 <= j < |t.threads| ==> t.threads[j] == s'.threads[j]
    ensures Reachable(c, s')
  {
    assert Next(c, s, step).threads == s'.threads;
    Extend(c, s, step, s');
  }

  /** Client `a` takes the lock to submit. */
  lemma SubmitterEnters(c: Config)
    requires c.Valid() && c.clients >= 2
    ensures Reachable(c, TwoClients(c, Some(c.workers), [], 0, SubmitHold, Idle))
  {
    WorkersPark(c, c.workers);
    assert ParkedUpTo(c, c.workers) == TwoClients(c, None, [], 0, Idle, Idle);
    Hop(c, TwoClients(c, None, [], 0, Idle, Idle), Submit(c.workers), TwoClients(c, None, [], 0, SubmitWant, Idle));
    Hop(c, TwoClients(c, None, [], 0, SubmitWant, Idle), Move(c.workers, 0), TwoClients(c, Some(c.workers), [], 0, SubmitHold, Idle));
  }

  /** It pushes, counts, and unlocks, but has not notified yet. */
  lemma SubmitterUnlocks(c: Config)
    requires c.Valid() && c.clients >= 2
    ensures Reachable(c, TwoClients(c, None, [0], 1, SubmitNotify, Idle))
  {
    var a := c.workers;
    SubmitterEnters(c);
    Hop(c, TwoClients(c, Some(a), [], 0, SubmitHold, Idle), Move(a, 0), TwoClients(c, Some(a), [0], 0, SubmitPushed, Idle));
    Hop(c, TwoClients(c, Some(a), [0], 0, SubmitPushed, Idle), Move(a, 0), TwoClients(c, Some(a), [0], 1, SubmitCounted, Idle));
    Hop(c, TwoClients(c, Some(a), [0], 1, SubmitCounted, Idle), Move(a, 0), TwoClients(c, None, [0], 1, SubmitNotify, Idle));
  }

  /** In that gap client `b` calls `wait_idle` and parks. */
  lemma WaiterSlipsIn(c: Config)
    requires c.Valid() && c.clients >= 2
    ensures Reachable(c, TwoClients(c, None, [0], 1, SubmitNotify, WaitParked))
  {
    var b := c.workers + 1;
    SubmitterUnlocks(c);
    Hop(c, TwoClients(c, None, [0], 1, SubmitNotify, Idle), WaitIdle(b), TwoClients(c, None, [0], 1, SubmitNotify, WaitWant));
    Hop(c, TwoClients(c, None, [0], 1, SubmitNotify, WaitWant), Move(b, 0), TwoClients(c, Some(b), [0], 1, SubmitNotify, WaitHold));
    Hop(c, TwoClients(c, Some(b), [0], 1, SubmitNotify, WaitHold), Move(b, 0), TwoClients(c, None, [0], 1, SubmitNotify, WaitParked));
  }

  lemma WaiterIsNotified(c: Config)
    requires c.Valid() && c.clients >= 2
    ensures Reachable(c, TwoClients(c, None, [0], 1, Idle, WaitWant))
  {
    var a, b := c.workers, c.workers + 1;
    WaiterSlipsIn(c);
    assert IsWaiting(TwoClients(c, None, [0], 1, SubmitNotify, WaitParked).threads[b]);
    Hop(c, TwoClients(c, None, [0], 1, SubmitNotify, WaitParked), Move(a, b), TwoClients(c, None, [0], 1, Idle, WaitWant));
  }

  /** The one notification goes to `b`, which finds the queue nonempty and parks again. */
  lemma NotificationIsSpent(c: Config)
    requires c.Valid() && c.clients >= 2
    ensures Reachable(c, TwoClients(c, None, [0], 1, Idle, WaitParked))
  {
    var b := c.workers + 1;
    WaiterIsNotified(c);
    Hop(c, TwoClients(c, None, [0], 1, Idle, WaitWant), Move(b, 0), TwoClients(c, Some(b), [0], 1, Idle, WaitHold));
    Hop(c, TwoClients(c, Some(b), [0], 1, Idle, WaitHold), Move(b, 0), TwoClients(c, None, [0], 1, Idle, WaitParked));
  }

  /** When `a` waits as well, nobody is left to act. */
  lemma TwoClientsCanBeStuck(c: Config)
    requires c.Valid() && c.clients >= 2
    ensures exists s :: Reachable(c, s) && Stuck(c, s)
  {
    var a := c.workers;
    NotificationIsSpent(c);
    Hop(c, TwoClients(c, None, [0], 1, Idle, WaitParked), WaitIdle(a), TwoClients(c, None, [0], 1, WaitWant, WaitParked));
    Hop(c, TwoClients(c, None, [0], 1, WaitWant, WaitParked), Move(a, 0), TwoClients(c, Some(a), [0], 1, WaitHold, WaitParked));
    var s := TwoClients(c, None, [0], 1, WaitParked, WaitParked);
    Hop(c, TwoClients(c, Some(a), [0], 1, WaitHold, WaitParked), Move(a, 0), s);
    assert Stuck(c, s);
  }

  /** The shared condition variable is safe for exactly one client. */
  lemma StuckExactlyWithSeveralClients(c: Config)
    requires c.Valid()
    ensures (exists s :: Reachable(c, s) && Stuck(c, s)) <==> c.clients >= 2
  {
    if c.clients >= 2 {
      TwoClientsCanBeStuck(c);
    } else {
      forall s | Reachable(c, s) ensures !Stuck(c, s) {
        var states, steps :| IsRun(c, states, steps) && states[0] == Init(c) && states[|steps|] == s;
        if Stuck(c, s) {
          OneClientIsServed(c, states, steps);
          assert false;
        }
      }
    }
  }
}
