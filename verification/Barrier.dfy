/**
 The reusable sense-counting barrier of both platform backends, as a state machine of atomic
 steps under sequential consistency: src/platform/linux/threading.rs (futex) and
 src/platform/windows/threading.rs (WaitOnAddress).
 */
module Barrier {
  /** One more than the largest 32-bit word; the sense word wraps here. */
  const WORD: nat := 0x1_0000_0000

  /** The futex backend wakes at most this many sleepers per call. */
  const FUTEX_WAKE_MAX: nat := 0x7FFF_FFFF

  datatype Backend = Futex | WaitOnAddress

  /** Exactly `total` threads share the barrier. */
  datatype Config = Config(total: nat, backend: Backend) {
    predicate Valid() { 1 <= total < WORD }

    /** One wake call reaches every other thread. */
    predicate WakesEveryone() { backend.WaitOnAddress? || total - 1 <= FUTEX_WAKE_MAX }
  }

  /** Where a thread is inside `wait`; `my` is the sense it loaded on entry. */
  datatype Pc =
    | Outside
    | Loaded(my: nat)
    | ResetCount
    | FlipSense
    | WakeAll
    | CheckSense(my: nat)
    | CallWait(my: nat)
    | Asleep(my: nat)

  /** `arrived` and `left` count the thread's increments of the counter and its returns. */
  datatype Thread = Thread(pc: Pc, arrived: nat, left: nat) {
    /** The number of waits the thread has called. */
    function Called(): nat { if pc.Outside? then left else left + 1 }
  }

  /** The two shared words, the history count of sense flips, and the threads. */
  datatype State = State(count: nat, sense: nat, flips: nat, threads: seq<Thread>)

  /** `Move` is the next atomic action of thread `i`; `woken` matters only to the wake call. */
  datatype Step = Enter(i: nat) | Move(i: nat, woken: set<nat>) | Spurious(i: nat)

  function Init(c: Config): State {
    State(0, 0, 0, seq(c.total, _ => Thread(Outside, 0, 0)))
  }

  function Sleepers(threads: seq<Thread>): set<nat> {
    set j | 0 <= j < |threads| && threads[j].pc.Asleep?
  }

  predicate WakeChoice(c: Config, threads: seq<Thread>, woken: set<nat>) {
    var sleepers := Sleepers(threads);
    && woken <= sleepers
    && |woken| == if c.backend.Futex? && |sleepers| > FUTEX_WAKE_MAX then FUTEX_WAKE_MAX else |sleepers|
  }

  predicate Enabled(c: Config, s: State, step: Step) {
    && step.i < |s.threads|
    && var pc := s.threads[step.i].pc;
       match step
       case Enter(_) => pc.Outside?
       case Spurious(_) => pc.Asleep?
       case Move(_, woken) => !pc.Outside? && !pc.Asleep? && (pc.WakeAll? ==> WakeChoice(c, s.threads, woken))
  }

  function Wake(threads: seq<Thread>, woken: set<nat>): (r: seq<Thread>)
    ensures |r| == |threads|
  {
    seq(|threads|, j requires 0 <= j < |threads| =>
      if j in woken && threads[j].pc.Asleep? then threads[j].(pc := CheckSense(threads[j].pc.my)) else threads[j])
  }

  /** The state after one atomic step. */
  function Next(c: Config, s: State, step: Step): State
    requires Enabled(c, s, step)
  {
    var i := step.i;
    var t := s.threads[i];
    match t.pc
    case Outside => s.(threads := s.threads[i := t.(pc := Loaded(s.sense))])
    case Loaded(my) =>
      var count := (s.count + 1) % WORD;
      var pc := if count == c.total then ResetCount else CheckSense(my);
      s.(count := count, threads := s.threads[i := t.(pc := pc, arrived := t.arrived + 1)])
    case ResetCount => s.(count := 0, threads := s.threads[i := t.(pc := FlipSense)])
    case FlipSense => s.(sense := (s.sense + 1) % WORD, flips := s.flips + 1, threads := s.threads[i := t.(pc := WakeAll)])
    case WakeAll => s.(threads := Wake(s.threads, step.woken)[i := t.(pc := Outside, left := t.left + 1)])
    case CheckSense(my) =>
      s.(threads := s.threads[i := if s.sense != my then t.(pc := Outside, left := t.left + 1) else t.(pc := CallWait(my))])
    case CallWait(my) =>
      s.(threads := s.threads[i := t.(pc := if s.sense == my then Asleep(my) else CheckSense(my))])
    case Asleep(my) => s.(threads := s.threads[i := t.(pc := CheckSense(my))])
  }

  /** A finite run: each state follows from the one before by the step between them. */
  ghost predicate IsRun(c: Config, states: seq<State>, steps: seq<Step>) {
    && |states| == |steps| + 1
    && forall k :: 0 <= k < |steps| ==> Enabled(c, states[k], steps[k]) && states[k + 1] == Next(c, states[k], steps[k])
  }

  // ---- The invariant ----

  function ArrivedAt(threads: seq<Thread>, n: nat): (r: nat)
    ensures r <= |threads|
  {
    if threads == [] then 0
    else ArrivedAt(threads[..|threads| - 1], n) + if threads[|threads| - 1].arrived == n then 1 else 0
  }

  predicate Leads(pc: Pc) { pc.ResetCount? || pc.FlipSense? }

  /** What holds of one thread after `flips` sense flips. */
  predicate ThreadOk(t: Thread, flips: nat) {
    match t.pc
    case Outside => t.left == t.arrived == flips
    case Loaded(my) => t.left == t.arrived == flips && my == flips % WORD
    case ResetCount => t.left == flips && t.arrived == flips + 1
    case FlipSense => t.left == flips && t.arrived == flips + 1
    case WakeAll => t.left + 1 == flips && t.arrived == flips
    case _ => t.arrived == t.left + 1 && (t.left == flips || t.left + 1 == flips) && t.pc.my == t.left % WORD
  }

  ghost predicate Inv(c: Config, s: State) {
    && c.Valid() && |s.threads| == c.total
    && s.sense == s.flips % WORD
    && (forall i :: 0 <= i < |s.threads| ==> ThreadOk(s.threads[i], s.flips))
    && (forall i, j :: 0 <= i < j < |s.threads| ==> !(Leads(s.threads[i].pc) && Leads(s.threads[j].pc)))
    && CountOk(c, s)
  }

  ghost predicate CountOk(c: Config, s: State) {
    var here := ArrivedAt(s.threads, s.flips + 1);
    && (here == c.total <==> exists i :: 0 <= i < |s.threads| && Leads(s.threads[i].pc))
    && s.count == if (exists i :: 0 <= i < |s.threads| && s.threads[i].pc.FlipSense?) then 0 else here
  }

  /** A sleeper whose generation has passed still has its wake call coming. */
  ghost predicate NoLostWake(s: State) {
    forall i :: 0 <= i < |s.threads| && s.threads[i].pc.Asleep? && s.threads[i].left + 1 == s.flips
                ==> exists j :: 0 <= j < |s.threads| && s.threads[j].pc.WakeAll?
  }

  lemma {:induction false} ArrivedAtUpdate(threads: seq<Thread>, i: nat, t: Thread, n: nat)
    requires i < |threads|
    ensures ArrivedAt(threads[i := t], n) + (if threads[i].arrived == n then 1 else 0)
            == ArrivedAt(threads, n) + (if t.arrived == n then 1 else 0)
  {
    var last := |threads| - 1;
    if i == last {
      assert threads[i := t][..last] == threads[..last];
    } else {
      ArrivedAtUpdate(threads[..last], i, t, n);
      assert threads[i := t][..last] == threads[..last][i := t];
    }
  }

  lemma {:induction false} ArrivedAtSame(a: seq<Thread>, b: seq<Thread>, n: nat)
    requires |a| == |b| && forall i :: 0 <= i < |a| ==> a[i].arrived == b[i].arrived
    ensures ArrivedAt(a, n) == ArrivedAt(b, n)
  {
    if a != [] {
      ArrivedAtSame(a[..|a| - 1], b[..|b| - 1], n);
    }
  }

  lemma {:induction false} ArrivedAtExtremes(threads: seq<Thread>, n: nat)
    ensures ArrivedAt(threads, n) == |threads| <==> forall i :: 0 <= i < |threads| ==> threads[i].arrived == n
    ensures ArrivedAt(threads, n) == 0 <==> forall i :: 0 <= i < |threads| ==> threads[i].arrived != n
  {
    if threads != [] {
      ArrivedAtExtremes(threads[..|threads| - 1], n);
    }
  }

  lemma InitOk(c: Config)
    requires c.Valid()
    ensures Inv(c, Init(c)) && NoLostWake(Init(c))
  {
    ArrivedAtExtremes(Init(c).threads, 1);
  }

  lemma AllArrived(c: Config, s: State)
    requires Inv(c, s)
    ensures ArrivedAt(s.threads, s.flips + 1) == c.total ==> forall i :: 0 <= i < c.total ==> s.threads[i].arrived == s.flips + 1
  {
    ArrivedAtExtremes(s.threads, s.flips + 1);
  }

  lemma SenseFollowsFlips(flips: nat)
    ensures (flips % WORD + 1) % WORD == (flips + 1) % WORD
    ensures (flips + 1) % WORD != flips % WORD
  {
  }

  /** The stepping thread itself stays in order. */
  lemma MoverKeepsOk(c: Config, s: State, step: Step)
    requires s.sense == s.flips % WORD && Enabled(c, s, step) && ThreadOk(s.threads[step.i], s.flips)
    ensures var s' := Next(c, s, step); |s'.threads| == |s.threads| && ThreadOk(s'.threads[step.i], s'.flips)
  {
    var t := s.threads[step.i];
    if t.pc.CheckSense? && t.left + 1 == s.flips {
      SenseFollowsFlips(t.left);
    }
  }

  /** A thread that has arrived stays in order when the sense flips past it. */
  lemma FlipKeepsOk(t: Thread, flips: nat)
    requires ThreadOk(t, flips) && t.arrived == flips + 1 && !Leads(t.pc)
    ensures ThreadOk(t, flips + 1)
  {
  }

  /** Threads other than the stepping one at most wake up. */
  lemma BystanderStays(c: Config, s: State, step: Step, i: nat)
    requires Enabled(c, s, step) && i < |s.threads| && i != step.i
    ensures var s' := Next(c, s, step);
      && |s'.threads| == |s.threads|
      && (s'.threads[i] == s.threads[i]
          || (s.threads[i].pc.Asleep? && s'.threads[i] == s.threads[i].(pc := CheckSense(s.threads[i].pc.my))))
  {
  }

  lemma NextSense(c: Config, s: State, step: Step)
    requires s.sense == s.flips % WORD && Enabled(c, s, step)
    ensures var s' := Next(c, s, step); s'.sense == s'.flips % WORD && s'.flips == s.flips + if s.threads[step.i].pc.FlipSense? then 1 else 0
  {
    SenseFollowsFlips(s.flips);
  }

  lemma BystanderKeepsOk(c: Config, s: State, step: Step, i: nat)
    requires Inv(c, s) && Enabled(c, s, step) && i < c.total && i != step.i
    ensures var s' := Next(c, s, step); |s'.threads| == c.total && ThreadOk(s'.threads[i], s'.flips)
  {
    BystanderStays(c, s, step, i);
    NextSense(c, s, step);
    assert ThreadOk(s.threads[i], s.flips);
    if s.threads[step.i].pc.FlipSense? {
      AllArrived(c, s);
      assert Leads(s.threads[step.i].pc) && !Leads(s.threads[i].pc);
      FlipKeepsOk(s.threads[i], s.flips);
    }
  }

  lemma NextKeepsThreads(c: Config, s: State, step: Step)
    requires Inv(c, s) && Enabled(c, s, step)
    ensures var s' := Next(c, s, step);
            |s'.threads| == c.total && s'.sense == s'.flips % WORD
            && forall i :: 0 <= i < |s'.threads| ==> ThreadOk(s'.threads[i], s'.flips)
  {
    var s' := Next(c, s, step);
    MoverKeepsOk(c, s, step);
    NextSense(c, s, step);
    forall i: nat | i < c.total && i != step.i ensures ThreadOk(s'.threads[i], s'.flips) {
      BystanderKeepsOk(c, s, step, i);
    }
  }

  lemma NextKeepsOneLeader(c: Config, s: State, step: Step)
    requires Inv(c, s) && Enabled(c, s, step)
    ensures var s' := Next(c, s, step);
            forall i, j :: 0 <= i < j < |s'.threads| ==> !(Leads(s'.threads[i].pc) && Leads(s'.threads[j].pc))
  {
    var s', t := Next(c, s, step), s.threads[step.i];
    assert ThreadOk(t, s.flips);
    if t.pc.Loaded? {
      NobodyLeads(c, s, step.i);
    }
    MoverLeads(c, s, step);
    forall i: nat | i < |s.threads| && i != step.i ensures Leads(s'.threads[i].pc) ==> Leads(s.threads[i].pc) {
      BystanderStays(c, s, step, i);
    }
  }

  /** A thread comes to lead only by arriving last. */
  lemma MoverLeads(c: Config, s: State, step: Step)
    requires Enabled(c, s, step)
    ensures var s' := Next(c, s, step);
      && |s'.threads| == |s.threads|
      && (Leads(s'.threads[step.i].pc) ==> Leads(s.threads[step.i].pc) || s.threads[step.i].pc.Loaded?)
  {
  }

  lemma ArriveKeepsCount(c: Config, s: State, step: Step)
    requires Inv(c, s) && Enabled(c, s, step) && s.threads[step.i].pc.Loaded?
    ensures CountOk(c, Next(c, s, step))
  {
    var i, s' := step.i, Next(c, s, step);
    assert ThreadOk(s.threads[i], s.flips);
    AllArrived(c, s);
    ArrivedAtUpdate(s.threads, i, s'.threads[i], s.flips + 1);
    NobodyLeads(c, s, i);
    assert Leads(s'.threads[i].pc) <==> s.count + 1 == c.total;
  }

  /** While a thread has not arrived, nobody leads and the counter is exact. */
  lemma NobodyLeads(c: Config, s: State, i: nat)
    requires Inv(c, s) && i < c.total && s.threads[i].arrived == s.flips
    ensures forall j :: 0 <= j < c.total ==> !Leads(s.threads[j].pc)
    ensures s.count == ArrivedAt(s.threads, s.flips + 1) < c.total
  {
    AllArrived(c, s);
  }

  lemma LeaderKeepsCount(c: Config, s: State, step: Step)
    requires Inv(c, s) && Enabled(c, s, step) && Leads(s.threads[step.i].pc)
    ensures CountOk(c, Next(c, s, step))
  {
    var i, g, s' := step.i, s.flips, Next(c, s, step);
    AllArrived(c, s);
    if s.threads[i].pc.ResetCount? {
      ArrivedAtUpdate(s.threads, i, s'.threads[i], g + 1);
      assert s'.threads[i].pc.FlipSense?;
    } else {
      ArrivedAtExtremes(s'.threads, g + 2);
      assert forall j :: 0 <= j < c.total ==> !Leads(s'.threads[j].pc);
    }
  }

  lemma OtherKeepsCount(c: Config, s: State, step: Step)
    requires Inv(c, s) && Enabled(c, s, step) && !Leads(s.threads[step.i].pc) && !s.threads[step.i].pc.Loaded?
    ensures CountOk(c, Next(c, s, step))
  {
    var s' := Next(c, s, step);
    OtherTouchesNoCounter(c, s, step);
    ArrivedAtSame(s.threads, s'.threads, s.flips + 1);
    SameLeaders(s.threads, s'.threads);
  }

  lemma OtherTouchesNoCounter(c: Config, s: State, step: Step)
    requires Enabled(c, s, step) && !Leads(s.threads[step.i].pc) && !s.threads[step.i].pc.Loaded?
    ensures var s' := Next(c, s, step);
            && |s'.threads| == |s.threads| && s'.count == s.count && s'.flips == s.flips
            && forall j :: 0 <= j < |s.threads| ==>
                 && s'.threads[j].arrived == s.threads[j].arrived
                 && Leads(s'.threads[j].pc) == Leads(s.threads[j].pc)
                 && s'.threads[j].pc.FlipSense? == s.threads[j].pc.FlipSense?
  {
  }

  lemma SameLeaders(a: seq<Thread>, b: seq<Thread>)
    requires |a| == |b|
    requires forall i :: 0 <= i < |a| ==> Leads(a[i].pc) == Leads(b[i].pc) && a[i].pc.FlipSense? == b[i].pc.FlipSense?
    ensures (exists i :: 0 <= i < |a| && Leads(a[i].pc)) <==> (exists i :: 0 <= i < |b| && Leads(b[i].pc))
    ensures (exists i :: 0 <= i < |a| && a[i].pc.FlipSense?) <==> (exists i :: 0 <= i < |b| && b[i].pc.FlipSense?)
  {
  }

  lemma NextKeepsInv(c: Config, s: State, step: Step)
    requires Inv(c, s) && Enabled(c, s, step)
    ensures Inv(c, Next(c, s, step))
  {
    NextKeepsThreads(c, s, step);
    NextKeepsOneLeader(c, s, step);
    if s.threads[step.i].pc.Loaded? {
      ArriveKeepsCount(c, s, step);
    } else if Leads(s.threads[step.i].pc) {
      LeaderKeepsCount(c, s, step);
    } else {
      OtherKeepsCount(c, s, step);
    }
  }

  lemma NextKeepsWake(c: Config, s: State, step: Step)
    requires Inv(c, s) && NoLostWake(s) && Enabled(c, s, step) && c.WakesEveryone()
    ensures NoLostWake(Next(c, s, step))
  {
    var s' := Next(c, s, step);
    if s.threads[step.i].pc.WakeAll? {
      AllAreWoken(c, s, step);
    } else if s.threads[step.i].pc.FlipSense? {
      assert s'.threads[step.i].pc.WakeAll?;
    } else {
      forall i | 0 <= i < |s'.threads| && s'.threads[i].pc.Asleep? && s'.threads[i].left + 1 == s'.flips
        ensures exists j :: 0 <= j < |s'.threads| && s'.threads[j].pc.WakeAll?
      {
        assert s.threads[i].pc.Asleep? && s.threads[i].left + 1 == s.flips;
        var j :| 0 <= j < |s.threads| && s.threads[j].pc.WakeAll?;
        assert s'.threads[j].pc.WakeAll?;
      }
    }
  }

  lemma AllAreWoken(c: Config, s: State, step: Step)
    requires Inv(c, s) && Enabled(c, s, step) && c.WakesEveryone() && s.threads[step.i].pc.WakeAll?
    ensures step.woken == Sleepers(s.threads)
  {
    var sleepers := Sleepers(s.threads);
    assert sleepers <= Indices(c.total) - {step.i};
    Cardinality(sleepers, Indices(c.total) - {step.i});
    Cardinality(step.woken, sleepers);
  }

  function Indices(n: nat): (r: set<nat>)
    ensures |r| == n && forall j: nat :: j in r <==> j < n
  {
    if n == 0 then {} else Indices(n - 1) + {n - 1}
  }

  lemma {:induction false} Cardinality(a: set<nat>, b: set<nat>)
    requires a <= b
    ensures |a| <= |b|
    ensures |a| == |b| ==> a == b
  {
    if a != {} {
      var x :| x in a;
      Cardinality(a - {x}, b - {x});
    }
  }

  lemma {:induction false} RunKeepsInv(c: Config, states: seq<State>, steps: seq<Step>)
    requires IsRun(c, states, steps) && Inv(c, states[0])
    ensures forall k :: 0 <= k < |states| ==> Inv(c, states[k])
    ensures c.WakesEveryone() && NoLostWake(states[0]) ==> forall k :: 0 <= k < |states| ==> NoLostWake(states[k])
  {
    if steps != [] {
      var n := |steps| - 1;
      RunKeepsInv(c, states[..n + 1], steps[..n]);
      NextKeepsInv(c, states[n], steps[n]);
      if c.WakesEveryone() && NoLostWake(states[0]) {
        NextKeepsWake(c, states[n], steps[n]);
      }
    }
  }

  // ---- Safety ----

  /** No thread leaves its k-th wait before all threads have arrived at theirs. */
  lemma NobodyLeavesEarly(c: Config, states: seq<State>, steps: seq<Step>, n: nat, i: nat, j: nat, k: nat)
    requires c.Valid() && IsRun(c, states, steps) && states[0] == Init(c)
    requires n < |states| && i < c.total && j < c.total
    ensures |states[n].threads| == c.total
    ensures states[n].threads[i].left >= k ==> states[n].threads[j].arrived >= k
  {
    InitOk(c);
    RunKeepsInv(c, states, steps);
    assert ThreadOk(states[n].threads[i], states[n].flips);
    assert ThreadOk(states[n].threads[j], states[n].flips);
  }

  /** The wrapped comparison of sense words decides exactly whether the waiter's generation has passed. */
  lemma WrappingSenseIsExact(c: Config, states: seq<State>, steps: seq<Step>, n: nat, i: nat)
    requires c.Valid() && IsRun(c, states, steps) && states[0] == Init(c) && n < |states| && i < c.total
    ensures |states[n].threads| == c.total
    ensures var t := states[n].threads[i];
            t.pc.CheckSense? || t.pc.CallWait? || t.pc.Asleep? ==>
              && t.left <= states[n].flips <= t.left + 1
              && (states[n].sense != t.pc.my <==> states[n].flips == t.left + 1)
  {
    InitOk(c);
    RunKeepsInv(c, states, steps);
    assert ThreadOk(states[n].threads[i], states[n].flips);
  }

  // ---- No deadlock, and every round completes ----

  predicate Quiet(s: State) {
    forall i :: 0 <= i < |s.threads| ==> s.threads[i].pc.Outside? || s.threads[i].pc.Asleep?
  }

  /** When nothing can move, whoever sleeps waits for a thread that has not called that wait yet. */
  lemma SleeperWaitsForACaller(c: Config, s: State, i: nat) returns (j: nat)
    requires Inv(c, s) && NoLostWake(s) && Quiet(s) && i < |s.threads| && s.threads[i].pc.Asleep?
    ensures j < |s.threads| && s.threads[j].pc.Outside? && s.threads[j].left == s.threads[i].left
  {
    ArrivedAtExtremes(s.threads, s.flips + 1);
    assert s.threads[i].left == s.flips;
    j :| 0 <= j < |s.threads| && s.threads[j].arrived != s.flips + 1;
    assert ThreadOk(s.threads[j], s.flips);
    assert s.threads[j].left + 1 != s.flips || !s.threads[j].pc.Asleep?;
  }

  /** No reachable state leaves every thread asleep. */
  lemma NeverAllAsleep(c: Config, states: seq<State>, steps: seq<Step>, n: nat)
    requires c.Valid() && c.WakesEveryone() && IsRun(c, states, steps) && states[0] == Init(c) && n < |states|
    ensures exists i :: 0 <= i < |states[n].threads| && !states[n].threads[i].pc.Asleep?
  {
    InitOk(c);
    RunKeepsInv(c, states, steps);
    var s := states[n];
    if forall i :: 0 <= i < |s.threads| ==> s.threads[i].pc.Asleep? {
      var j := SleeperWaitsForACaller(c, s, 0);
      assert false;
    }
  }

  // ---- Too many threads for one futex wake ----

  ghost predicate Reachable(c: Config, s: State) {
    exists states: seq<State>, steps: seq<Step> {:trigger IsRun(c, states, steps)} ::
      IsRun(c, states, steps) && states[0] == Init(c) && states[|steps|] == s
  }

  lemma InitIsReachable(c: Config)
    ensures Reachable(c, Init(c))
  {
    assert IsRun(c, [Init(c)], []);
  }

  lemma ReachNext(c: Config, s: State, step: Step)
    requires Reachable(c, s) && Enabled(c, s, step)
    ensures Reachable(c, Next(c, s, step))
  {
    var states, steps :| IsRun(c, states, steps) && states[0] == Init(c) && states[|steps|] == s;
    assert IsRun(c, states + [Next(c, s, step)], steps + [step]);
  }

  ghost predicate EveryoneAsleep(s: State) {
    forall i :: 0 <= i < |s.threads| ==> s.threads[i].pc.Asleep?
  }

  function Updated(s: State, count: nat, i: nat, t: Thread): State
    requires i < |s.threads|
  {
    s.(count := count, threads := s.threads[i := t])
  }

  /** A thread that is not the last to arrive can fall asleep. */
  lemma FallsAsleep(c: Config, s: State, i: nat, n: nat)
    requires c.Valid() && Reachable(c, s) && i < |s.threads| && s.threads[i] == Thread(Outside, n, n) && s.count + 1 < c.total
    ensures Reachable(c, Updated(s, s.count + 1, i, Thread(Asleep(s.sense), n + 1, n)))
  {
    var s1 := Updated(s, s.count, i, Thread(Loaded(s.sense), n, n));
    ReachNext(c, s, Enter(i));
    assert Next(c, s, Enter(i)) == s1;
    var s2 := Updated(s, s.count + 1, i, Thread(CheckSense(s.sense), n + 1, n));
    ReachNext(c, s1, Move(i, {}));
    assert Next(c, s1, Move(i, {})) == s2;
    var s3 := Updated(s, s.count + 1, i, Thread(CallWait(s.sense), n + 1, n));
    ReachNext(c, s2, Move(i, {}));
    assert Next(c, s2, Move(i, {})) == s3;
    ReachNext(c, s3, Move(i, {}));
    assert Next(c, s3, Move(i, {})) == Updated(s, s.count + 1, i, Thread(Asleep(s.sense), n + 1, n));
  }

  /** The first `n` threads asleep in the first round. */
  function FirstSleep(c: Config, n: nat): State {
    State(n, 0, 0, seq(c.total, j => if j < n then Thread(Asleep(0), 1, 0) else Thread(Outside, 0, 0)))
  }

  lemma {:induction false} FirstSleepIsReachable(c: Config, n: nat)
    requires c.Valid() && n < c.total
    ensures Reachable(c, FirstSleep(c, n))
  {
    if n == 0 {
      InitIsReachable(c);
      assert FirstSleep(c, 0) == Init(c);
    } else {
      var before := FirstSleep(c, n - 1);
      FirstSleepIsReachable(c, n - 1);
      FallsAsleep(c, before, n - 1, 0);
      assert Updated(before, n, n - 1, Thread(Asleep(0), 1, 0)) == FirstSleep(c, n);
    }
  }

  /** After the flip and a wake that reaches the first `woken` sleepers, `n` of which sleep again in the second round. */
  function SecondSleep(c: Config, woken: nat, n: nat): State {
    State(n, 1, 1, seq(c.total, j =>
      if j < n then Thread(Asleep(1), 2, 1)
      else if j < woken then Thread(CheckSense(0), 1, 0)
      else if j + 1 < c.total then Thread(Asleep(0), 1, 0)
      else Thread(Outside, 1, 1)))
  }

  predicate IsLow(j: nat, n: nat) { j < n }

  function Low(n: nat): set<nat> { set j: nat | j < n && IsLow(j, n) }

  lemma {:induction false} LowSize(n: nat)
    ensures |Low(n)| == n
  {
    if n > 0 {
      LowSize(n - 1);
      assert Low(n) == Low(n - 1) + {n - 1};
    }
  }

  lemma FirstSleepers(c: Config)
    requires c.Valid()
    ensures Sleepers(FirstSleep(c, c.total - 1).threads) == Low(c.total - 1)
    ensures |Sleepers(FirstSleep(c, c.total - 1).threads)| == c.total - 1
  {
    LowSize(c.total - 1);
  }

  /** The last thread arrives and flips the sense. */
  lemma LastFlips(c: Config)
    requires c.Valid()
    ensures Reachable(c, State(0, 1, 1, FirstSleep(c, c.total - 1).threads[c.total - 1 := Thread(WakeAll, 1, 0)]))
  {
    var s, i := FirstSleep(c, c.total - 1), c.total - 1;
    FirstSleepIsReachable(c, i);
    var s1 := Updated(s, i, i, Thread(Loaded(0), 0, 0));
    ReachNext(c, s, Enter(i));
    assert Next(c, s, Enter(i)) == s1;
    var s2 := Updated(s, c.total, i, Thread(ResetCount, 1, 0));
    ReachNext(c, s1, Move(i, {}));
    assert Next(c, s1, Move(i, {})) == s2;
    var s3 := Updated(s, 0, i, Thread(FlipSense, 1, 0));
    ReachNext(c, s2, Move(i, {}));
    assert Next(c, s2, Move(i, {})) == s3;
    ReachNext(c, s3, Move(i, {}));
    assert Next(c, s3, Move(i, {})) == State(0, 1, 1, s.threads[i := Thread(WakeAll, 1, 0)]);
  }

  lemma PartialWake(c: Config)
    requires c.Valid() && !c.WakesEveryone()
    ensures Reachable(c, SecondSleep(c, FUTEX_WAKE_MAX, 0))
  {
    var i := c.total - 1;
    var threads := FirstSleep(c, i).threads[i := Thread(WakeAll, 1, 0)];
    var s := State(0, 1, 1, threads);
    var woken := Low(FUTEX_WAKE_MAX);
    LastFlips(c);
    FirstSleepers(c);
    LowSize(FUTEX_WAKE_MAX);
    assert Sleepers(threads) == Sleepers(FirstSleep(c, i).threads);
    ReachNext(c, s, Move(i, woken));
    assert Next(c, s, Move(i, woken)) == SecondSleep(c, FUTEX_WAKE_MAX, 0);
  }

  lemma {:induction false} SecondSleepIsReachable(c: Config, woken: nat, n: nat)
    requires c.Valid() && Reachable(c, SecondSleep(c, woken, 0)) && n <= woken && woken + 1 < c.total
    ensures Reachable(c, SecondSleep(c, woken, n))
  {
    if n > 0 {
      var before, i := SecondSleep(c, woken, n - 1), n - 1;
      SecondSleepIsReachable(c, woken, n - 1);
      var out := Updated(before, n - 1, i, Thread(Outside, 1, 1));
      ReachNext(c, before, Move(i, {}));
      assert Next(c, before, Move(i, {})) == out;
      FallsAsleep(c, out, i, 1);
      assert Updated(out, n, i, Thread(Asleep(1), 2, 1)) == SecondSleep(c, woken, n);
    }
  }

  /** With more sleepers than one futex wake reaches, everyone can end up asleep. */
  lemma EveryoneCanBeAsleep(c: Config) returns (s: State)
    requires c.Valid() && !c.WakesEveryone()
    ensures Reachable(c, s) && EveryoneAsleep(s) && |s.threads| == c.total
  {
    var before, i := SecondSleep(c, FUTEX_WAKE_MAX, FUTEX_WAKE_MAX), c.total - 1;
    PartialWake(c);
    SecondSleepIsReachable(c, FUTEX_WAKE_MAX, FUTEX_WAKE_MAX);
    FallsAsleep(c, before, i, 1);
    s := Updated(before, FUTEX_WAKE_MAX + 1, i, Thread(Asleep(1), 2, 1));
  }

  /** Some thread is always awake, exactly when one wake call reaches every other thread. */
  lemma NeverAllAsleepExactly(c: Config)
    requires c.Valid()
    ensures c.backend.WaitOnAddress? || c.total <= 0x8000_0000 <==> forall s :: Reachable(c, s) ==> !EveryoneAsleep(s)
  {
    if c.WakesEveryone() {
      forall s | Reachable(c, s) ensures !EveryoneAsleep(s) {
        var states, steps :| IsRun(c, states, steps) && states[0] == Init(c) && states[|steps|] == s;
        NeverAllAsleep(c, states, steps, |steps|);
      }
    } else {
      var s := EveryoneCanBeAsleep(c);
    }
  }

  function ThreadRank(t: Thread, flips: nat, total: nat): nat {
    match t.pc
    case Outside => 0
    case Loaded(_) => 6 + 2 * total
    case ResetCount => 5 + 2 * total
    case FlipSense => 4 + 2 * total
    case WakeAll => 3 + 2 * total
    case CheckSense(_) => if t.left < flips then 1 else 5
    case CallWait(_) => if t.left < flips then 2 else 4
    case Asleep(_) => if t.left < flips then 2 else 3
  }

  /** Bounds the atomic actions left before everybody is outside or asleep. */
  function Rank(threads: seq<Thread>, flips: nat, total: nat): nat {
    if threads == [] then 0
    else Rank(threads[..|threads| - 1], flips, total) + ThreadRank(threads[|threads| - 1], flips, total)
  }

  lemma {:induction false} RankUpdate(threads: seq<Thread>, i: nat, t: Thread, flips: nat, total: nat)
    requires i < |threads|
    ensures Rank(threads[i := t], flips, total) + ThreadRank(threads[i], flips, total)
            == Rank(threads, flips, total) + ThreadRank(t, flips, total)
  {
    var last := |threads| - 1;
    if i == last {
      assert threads[i := t][..last] == threads[..last];
    } else {
      RankUpdate(threads[..last], i, t, flips, total);
      assert threads[i := t][..last] == threads[..last][i := t];
    }
  }

  /** Waking adds at most two per thread. */
  lemma {:induction false} RankWake(threads: seq<Thread>, woken: set<nat>, flips: nat, total: nat)
    ensures Rank(Wake(threads, woken), flips, total) <= Rank(threads, flips, total) + 2 * |threads|
  {
    if threads != [] {
      var last := |threads| - 1;
      RankWake(threads[..last], woken, flips, total);
      assert Wake(threads, woken)[..last] == Wake(threads[..last], woken);
    }
  }

  /** A flip does not add to the rank of a thread that has arrived and does not lead. */
  lemma {:induction false} RankFlip(threads: seq<Thread>, flips: nat, total: nat)
    requires forall i :: 0 <= i < |threads| ==> ThreadOk(threads[i], flips)
    ensures Rank(threads, flips + 1, total) <= Rank(threads, flips, total)
  {
    if threads != [] {
      RankFlip(threads[..|threads| - 1], flips, total);
      assert ThreadOk(threads[|threads| - 1], flips);
    }
  }

  /** Apart from the flip and the wake, which touch the others, an action lowers its own thread's rank. */
  lemma MoverDescends(c: Config, s: State, step: Step)
    requires s.sense == s.flips % WORD && Enabled(c, s, step) && step.Move? && ThreadOk(s.threads[step.i], s.flips)
    requires !s.threads[step.i].pc.FlipSense? && !s.threads[step.i].pc.WakeAll?
    ensures var s' := Next(c, s, step);
            && s'.threads == s.threads[step.i := s'.threads[step.i]] && s'.flips == s.flips
            && ThreadRank(s'.threads[step.i], s.flips, c.total) < ThreadRank(s.threads[step.i], s.flips, c.total)
  {
    SenseFollowsFlips(s.threads[step.i].left);
  }

  /** Every atomic action of a thread inside `wait` brings the round closer to its end. */
  lemma MoveDescends(c: Config, s: State, step: Step)
    requires Inv(c, s) && Enabled(c, s, step) && step.Move?
    ensures var s' := Next(c, s, step);
            Rank(s'.threads, s'.flips, c.total) < Rank(s.threads, s.flips, c.total)
  {
    var i := step.i;
    if s.threads[i].pc.FlipSense? {
      RankFlipUpdate(c, s, i);
    } else if s.threads[i].pc.WakeAll? {
      var woken := Wake(s.threads, step.woken);
      RankWake(s.threads, step.woken, s.flips, c.total);
      RankUpdate(woken, i, Next(c, s, step).threads[i], s.flips, c.total);
    } else {
      MoverDescends(c, s, step);
      RankUpdate(s.threads, i, Next(c, s, step).threads[i], s.flips, c.total);
    }
  }

  lemma RankFlipUpdate(c: Config, s: State, i: nat)
    requires Inv(c, s) && i < |s.threads| && s.threads[i].pc.FlipSense?
    ensures Rank(s.threads[i := s.threads[i].(pc := WakeAll)], s.flips + 1, c.total) < Rank(s.threads, s.flips, c.total)
  {
    RankFlip(s.threads, s.flips, c.total);
    RankUpdate(s.threads, i, s.threads[i].(pc := WakeAll), s.flips + 1, c.total);
  }

  /** A run in which nobody calls `wait` again and nobody wakes spuriously stops within `Rank` steps. */
  lemma {:induction false} MovesAreFinite(c: Config, states: seq<State>, steps: seq<Step>)
    requires IsRun(c, states, steps) && Inv(c, states[0]) && forall k :: 0 <= k < |steps| ==> steps[k].Move?
    ensures |steps| <= Rank(states[0].threads, states[0].flips, c.total)
  {
    if steps != [] {
      MoveDescends(c, states[0], steps[0]);
      NextKeepsInv(c, states[0], steps[0]);
      MovesAreFinite(c, states[1..], steps[1..]);
    }
  }

  lemma StepKeepsCalls(c: Config, s: State, step: Step, i: nat)
    requires Enabled(c, s, step) && i < |s.threads|
    ensures |Next(c, s, step).threads| == |s.threads|
    ensures s.threads[i].Called() <= Next(c, s, step).threads[i].Called()
  {
  }

  lemma {:induction false} CallsAreKept(c: Config, states: seq<State>, steps: seq<Step>, i: nat)
    requires IsRun(c, states, steps) && i < |states[0].threads|
    ensures |states[|steps|].threads| == |states[0].threads|
    ensures states[0].threads[i].Called() <= states[|steps|].threads[i].Called()
  {
    if steps != [] {
      var n := |steps| - 1;
      CallsAreKept(c, states[..n + 1], steps[..n], i);
      StepKeepsCalls(c, states[n], steps[n], i);
    }
  }

  /** Once every thread has called its k-th wait, a run that can move no further has returned all of them. */
  lemma RoundCompletes(c: Config, states: seq<State>, steps: seq<Step>, n: nat, k: nat, i: nat)
    requires c.Valid() && c.WakesEveryone() && IsRun(c, states, steps) && states[0] == Init(c)
    requires n < |states| && |states[n].threads| == c.total && i < c.total
    requires forall j :: 0 <= j < c.total ==> states[n].threads[j].Called() >= k
    requires Quiet(states[|steps|])
    ensures |states[|steps|].threads| == c.total
    ensures states[|steps|].threads[i].left >= k
  {
    InitOk(c);
    RunKeepsInv(c, states, steps);
    var last := states[|steps|];
    CallsAreKept(c, states[n..], steps[n..], i);
    if last.threads[i].pc.Asleep? {
      var j := SleeperWaitsForACaller(c, last, i);
      CallsAreKept(c, states[n..], steps[n..], j);
    }
  }
}
