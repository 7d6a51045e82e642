/**
 The single-producer single-consumer ring of the message bus (src/kernel/bus.rs): every load and
 store is a step of its own, taken in any interleaving under sequential consistency.
 */
module SpscRing {
  import opened Wrappers
  import opened Bits

  /** Index words are 64 bits wide and wrap. */
  const WORD: nat := 0x1_0000_0000_0000_0000

  /** Capacities are powers of two, at least 2. */
  ghost predicate IsCapacity(n: nat) {
    exists e: nat :: 1 <= e <= 63 && n == Pow2(e)
  }

  /** The slot of an index word: `index & mask` with `mask = capacity - 1`. */
  function SlotOf(index: nat, capacity: nat): (r: nat)
    requires capacity > 0
    ensures r < capacity
  {
    And(index, capacity - 1)
  }

  /** `Push` and `Pop` hold the local words of a call in progress. */
  datatype Producer<T> =
    | Ready
    | TailLoaded(value: T, tail: nat)
    | SlotFree(value: T, tail: nat)
    | Written(value: T, tail: nat)

  datatype Consumer<T> =
    | Waiting
    | HeadLoaded(head: nat)
    | SlotFull(head: nat)
    | Taken(head: nat, value: T)

  /** `heads` and `tails` count the index stores; the words are their residues. */
  datatype State<T> = State(
    slots: seq<Option<T>>,
    head: nat,
    tail: nat,
    producer: Producer<T>,
    consumer: Consumer<T>,
    heads: nat,
    tails: nat
  )

  /** What a completed decision answers to its caller. */
  datatype Event<T> = Silent | Pushed(value: T) | Full(value: T) | Popped(value: T) | Empty

  datatype Action<T> = StartPush(value: T) | StepProducer | StartPop | StepConsumer

  function Init<T>(capacity: nat): State<T> {
    State(seq(capacity, _ => None), 0, 0, Ready, Waiting, 0, 0)
  }

  function WrapSub(a: nat, b: nat): (r: nat)
    requires a < WORD && b < WORD
  {
    (a - b + WORD) % WORD
  }

  predicate Enabled<T>(s: State<T>, action: Action<T>) {
    match action
    case StartPush(_) => s.producer.Ready?
    case StepProducer => !s.producer.Ready?
    case StartPop => s.consumer.Waiting?
    case StepConsumer => !s.consumer.Waiting?
  }

  ghost predicate WordsOk<T>(s: State<T>) {
    && s.head < WORD && s.tail < WORD && |s.slots| > 0
    && (s.producer.TailLoaded? || s.producer.SlotFree? || s.producer.Written? ==> s.producer.tail < WORD)
    && (s.consumer.HeadLoaded? || s.consumer.SlotFull? || s.consumer.Taken? ==> s.consumer.head < WORD)
  }

  /** Neither side touches a slot that the other still needs: writes hit empty slots, reads full ones. */
  predicate SlotAccessSafe<T>(s: State<T>, action: Action<T>)
    requires |s.slots| > 0
  {
    && (action.StepProducer? && s.producer.SlotFree? ==> s.slots[SlotOf(s.producer.tail, |s.slots|)].None?)
    && (action.StepConsumer? && s.consumer.SlotFull? ==> s.slots[SlotOf(s.consumer.head, |s.slots|)].Some?)
  }

  function Next<T>(s: State<T>, action: Action<T>): (State<T>, Event<T>)
    requires Enabled(s, action) && WordsOk(s) && SlotAccessSafe(s, action)
  {
    match action
    case StartPush(value) => (s.(producer := TailLoaded(value, s.tail)), Silent)
    case StartPop => (s.(consumer := HeadLoaded(s.head)), Silent)
    case StepProducer =>
      (match s.producer
       case TailLoaded(value, tail) =>
         if WrapSub(tail, s.head) >= |s.slots| then (s.(producer := Ready), Full(value))
         else (s.(producer := SlotFree(value, tail)), Silent)
       case SlotFree(value, tail) =>
         (s.(slots := s.slots[SlotOf(tail, |s.slots|) := Some(value)], producer := Written(value, tail)), Silent)
       case Written(value, tail) =>
         (s.(tail := (tail + 1) % WORD, tails := s.tails + 1, producer := Ready), Pushed(value)))
    case StepConsumer =>
      (match s.consumer
       case HeadLoaded(head) =>
         if head == s.tail then (s.(consumer := Waiting), Empty)
         else (s.(consumer := SlotFull(head)), Silent)
       case SlotFull(head) =>
         var at := SlotOf(head, |s.slots|);
         (s.(slots := s.slots[at := None], consumer := Taken(head, s.slots[at].value)), Silent)
       case Taken(head, value) =>
         (s.(head := (head + 1) % WORD, heads := s.heads + 1, consumer := Waiting), Popped(value)))
  }

  // ---- The invariant ----

  /** `pushed` is the history of published values; the published, unpopped ones sit in their slots. */
  ghost predicate Inv<T>(s: State<T>, pushed: seq<T>) {
    && IsCapacity(|s.slots|)
    && s.heads <= s.tails <= s.heads + |s.slots| && s.tails == |pushed|
    && s.head == s.heads % WORD && s.tail == s.tails % WORD
    && ProducerOk(s) && ConsumerOk(s, pushed)
    && SlotsOk(s, pushed)
  }

  ghost predicate ProducerOk<T>(s: State<T>) {
    match s.producer
    case Ready => true
    case TailLoaded(_, tail) => tail == s.tail
    case SlotFree(_, tail) => tail == s.tail && s.tails < s.heads + |s.slots|
    case Written(_, tail) => tail == s.tail && s.tails < s.heads + |s.slots|
  }

  ghost predicate ConsumerOk<T>(s: State<T>, pushed: seq<T>) {
    match s.consumer
    case Waiting => true
    case HeadLoaded(head) => head == s.head
    case SlotFull(head) => head == s.head && s.heads < s.tails
    case Taken(head, value) => head == s.head && s.heads < s.tails <= |pushed| && value == pushed[s.heads]
  }

  /** What the slot of index `n` holds, for every index `n` that the two sides may be using. */
  ghost predicate SlotsOk<T>(s: State<T>, pushed: seq<T>)
    requires |s.slots| > 0 && s.heads <= s.tails == |pushed|
  {
    forall n :: s.heads <= n < s.heads + |s.slots| ==> s.slots[Residue(n, |s.slots|)] == Expected(s, pushed, n)
  }

  ghost function Expected<T>(s: State<T>, pushed: seq<T>, n: nat): Option<T>
    requires s.heads <= n && s.tails == |pushed|
  {
    if n < s.tails then
      if n == s.heads && s.consumer.Taken? then None else Some(pushed[n])
    else if n == s.tails && s.producer.Written? then Some(s.producer.value)
    else None
  }

  // ---- Arithmetic of the wrapped indices ----

  lemma WordIsPower()
    ensures Pow2(64) == WORD
  {
    assert Pow2(8) == 0x100;
    assert Pow2(16) == 0x1_0000;
    assert Pow2(24) == 0x100_0000;
    assert Pow2(32) == 0x1_0000_0000;
    assert Pow2(40) == 0x100_0000_0000;
    assert Pow2(48) == 0x1_0000_0000_0000;
    assert Pow2(56) == 0x100_0000_0000_0000;
  }

  lemma {:induction false} CapacityFits(e: nat, n: nat)
    requires e <= n
    ensures Pow2(e) <= Pow2(n)
    decreases n
  {
    if e < n { CapacityFits(e, n - 1); }
  }

  lemma CapacityBelowWord(n: nat)
    requires IsCapacity(n)
    ensures 2 <= n < WORD
  {
    var e: nat :| 1 <= e <= 63 && n == Pow2(e);
    WordIsPower();
    CapacityFits(e, 63);
  }

  lemma {:induction false} ResidueOfWrapped(index: nat, e: nat)
    requires e <= 64
    ensures Residue(index % WORD, Pow2(e)) == Residue(index, Pow2(e))
  {
    if index >= WORD {
      var before := index - WORD;
      ResidueOfWrapped(before, e);
      WordShift(before);
      ResidueShift(before, e, 64 - e);
    }
  }

  lemma WordShift(index: nat)
    ensures (index + WORD) % WORD == index % WORD && index + WORD == index + Pow2(64)
  {
    WordIsPower();
  }

  /** Masking the wrapped word picks the same slot as the unbounded index. */
  lemma SlotOfWrapped(index: nat, n: nat)
    requires IsCapacity(n)
    ensures n > 0 && SlotOf(index % WORD, n) == Residue(index, n)
  {
    var e: nat :| 1 <= e <= 63 && n == Pow2(e);
    MaskIsResidue(index % WORD, e);
    ResidueOfWrapped(index, e);
  }

  /** The wrapped difference of the words is the true number of items. */
  lemma WrapSubIsExact(tails: nat, heads: nat)
    requires heads <= tails < heads + WORD
    ensures WrapSub(tails % WORD, heads % WORD) == tails - heads
  {
  }

  // ---- Preservation, slot safety and refinement of an abstract queue ----

  lemma InitOk<T>(capacity: nat)
    requires IsCapacity(capacity)
    ensures Inv<T>(Init(capacity), []) && WordsOk<T>(Init(capacity))
  {
    CapacityBelowWord(capacity);
  }

  /** No unread slot is overwritten and no unwritten slot is read. */
  lemma AccessesAreSafe<T>(s: State<T>, pushed: seq<T>, action: Action<T>)
    requires Inv(s, pushed) && Enabled(s, action)
    ensures WordsOk(s) && SlotAccessSafe(s, action)
  {
    var n := |s.slots|;
    CapacityBelowWord(n);
    SlotOfWrapped(s.tails, n);
    SlotOfWrapped(s.heads, n);
    assert s.heads < s.heads + n;
    assert s.slots[Residue(s.heads, n)] == Expected(s, pushed, s.heads);
    if s.tails < s.heads + n {
      assert s.slots[Residue(s.tails, n)] == Expected(s, pushed, s.tails);
    }
  }

  /** The abstract queue: published and not yet released. */
  ghost function Queue<T>(s: State<T>, pushed: seq<T>): seq<T>
    requires s.heads <= |pushed|
  {
    pushed[s.heads..]
  }

  /** One atomic operation of a bounded FIFO queue. */
  ghost predicate QueueStep<T>(capacity: nat, q: seq<T>, e: Event<T>, q': seq<T>) {
    match e
    case Silent => q' == q
    case Pushed(v) => |q| < capacity && q' == q + [v]
    case Full(_) => |q| == capacity && q' == q
    case Popped(v) => q != [] && q[0] == v && q' == q[1..]
    case Empty => q == [] && q' == q
  }

  ghost function Published<T>(pushed: seq<T>, e: Event<T>): seq<T> {
    if e.Pushed? then pushed + [e.value] else pushed
  }

  /** Filling or clearing one slot leaves the slots of all other live indices alone. */
  lemma OtherSlotsKeep<T>(slots: seq<Option<T>>, at: nat, v: Option<T>, low: nat)
    requires |slots| > 0 && low <= at < low + |slots|
    ensures var slots' := slots[Residue(at, |slots|) := v];
            forall m :: low <= m < low + |slots| ==>
              slots'[Residue(m, |slots|)] == if m == at then v else slots[Residue(m, |slots|)]
  {
    forall m | low <= m < low + |slots| && m != at ensures Residue(m, |slots|) != Residue(at, |slots|) {
      if m < at { ResiduesDiffer(m, at, |slots|); } else { ResiduesDiffer(at, m, |slots|); }
    }
  }

  lemma WriteKeepsSlots<T>(s: State<T>, pushed: seq<T>)
    requires Inv(s, pushed) && s.producer.SlotFree?
    ensures SlotsOk(s.(slots := s.slots[SlotOf(s.tail, |s.slots|) := Some(s.producer.value)],
                       producer := Written(s.producer.value, s.tail)), pushed)
  {
    SlotOfWrapped(s.tails, |s.slots|);
    OtherSlotsKeep(s.slots, s.tails, Some(s.producer.value), s.heads);
  }

  lemma TakeKeepsSlots<T>(s: State<T>, pushed: seq<T>, v: T)
    requires Inv(s, pushed) && s.consumer.SlotFull?
    ensures SlotsOk(s.(slots := s.slots[SlotOf(s.head, |s.slots|) := None], consumer := Taken(s.head, v)), pushed)
  {
    SlotOfWrapped(s.heads, |s.slots|);
    OtherSlotsKeep(s.slots, s.heads, None, s.heads);
  }

  /** Releasing the head makes its slot the one for the index a full capacity later. */
  lemma ReleaseKeepsSlots<T>(s: State<T>, pushed: seq<T>)
    requires Inv(s, pushed) && s.consumer.Taken?
    ensures SlotsOk(s.(head := (s.head + 1) % WORD, heads := s.heads + 1, consumer := Waiting), pushed)
  {
    var n := |s.slots|;
    var s' := s.(head := (s.head + 1) % WORD, heads := s.heads + 1, consumer := Waiting);
    forall m | s'.heads <= m < s'.heads + n ensures s.slots[Residue(m, n)] == Expected(s', pushed, m) {
      if m == s.heads + n {
        assert Residue(m, n) == Residue(s.heads, n);
        assert s.slots[Residue(s.heads, n)] == Expected(s, pushed, s.heads);
      } else {
        assert s.slots[Residue(m, n)] == Expected(s, pushed, m);
      }
    }
  }

  lemma PublishKeepsSlots<T>(s: State<T>, pushed: seq<T>)
    requires Inv(s, pushed) && s.producer.Written?
    ensures SlotsOk(s.(tail := (s.tail + 1) % WORD, tails := s.tails + 1, producer := Ready), pushed + [s.producer.value])
  {
    var n := |s.slots|;
    var s', pushed' := s.(tail := (s.tail + 1) % WORD, tails := s.tails + 1, producer := Ready), pushed + [s.producer.value];
    forall m | s.heads <= m < s.heads + n ensures s.slots[Residue(m, n)] == Expected(s', pushed', m) {
      assert s.slots[Residue(m, n)] == Expected(s, pushed, m);
    }
  }

  /** The step's new state keeps the invariant, and its event is one atomic queue operation. */
  ghost predicate Refines<T>(s: State<T>, pushed: seq<T>, s': State<T>, e: Event<T>) {
    && s.heads <= |pushed| && s'.heads <= |Published(pushed, e)|
    && Inv(s', Published(pushed, e)) && |s'.slots| == |s.slots|
    && QueueStep(|s.slots|, Queue(s, pushed), e, Queue(s', Published(pushed, e)))
  }

  lemma LoadHeadRefines<T>(s: State<T>, pushed: seq<T>)
    requires Inv(s, pushed) && s.producer.TailLoaded?
    ensures WordsOk(s) && SlotAccessSafe(s, StepProducer)
    ensures var (s', e) := Next(s, StepProducer); Refines(s, pushed, s', e)
  {
    AccessesAreSafe(s, pushed, StepProducer);
    CapacityBelowWord(|s.slots|);
    WrapSubIsExact(s.tails, s.heads);
    SameContents(s, Next(s, StepProducer).0, pushed);
  }

  lemma WriteRefines<T>(s: State<T>, pushed: seq<T>)
    requires Inv(s, pushed) && s.producer.SlotFree?
    ensures WordsOk(s) && SlotAccessSafe(s, StepProducer)
    ensures var (s', e) := Next(s, StepProducer); Refines(s, pushed, s', e)
  {
    AccessesAreSafe(s, pushed, StepProducer);
    WriteKeepsSlots(s, pushed);
  }

  lemma WrapNext(n: nat)
    ensures (n % WORD + 1) % WORD == (n + 1) % WORD
  {
  }

  lemma PublishKeepsInv<T>(s: State<T>, pushed: seq<T>)
    requires Inv(s, pushed) && s.producer.Written?
    ensures Inv(s.(tail := (s.tail + 1) % WORD, tails := s.tails + 1, producer := Ready), pushed + [s.producer.value])
  {
    PublishKeepsSlots(s, pushed);
    WrapNext(s.tails);
  }

  lemma PublishShape<T>(s: State<T>)
    requires WordsOk(s) && SlotAccessSafe(s, StepProducer) && s.producer.Written? && s.producer.tail == s.tail
    ensures Next(s, StepProducer) == (s.(tail := (s.tail + 1) % WORD, tails := s.tails + 1, producer := Ready), Pushed(s.producer.value))
  {
  }

  lemma PublishRefines<T>(s: State<T>, pushed: seq<T>)
    requires Inv(s, pushed) && s.producer.Written?
    ensures WordsOk(s) && SlotAccessSafe(s, StepProducer)
    ensures var (s', e) := Next(s, StepProducer); Refines(s, pushed, s', e)
  {
    AccessesAreSafe(s, pushed, StepProducer);
    PublishShape(s);
    PublishKeepsInv(s, pushed);
    assert (pushed + [s.producer.value])[s.heads..] == pushed[s.heads..] + [s.producer.value];
  }

  /** A step that only moves a program counter between loads leaves the expected slots as they are. */
  lemma SameContents<T>(s: State<T>, s': State<T>, pushed: seq<T>)
    requires Inv(s, pushed) && s'.slots == s.slots && s'.heads == s.heads && s'.tails == s.tails
    requires s'.producer.Written? == s.producer.Written? && (s.producer.Written? ==> s'.producer.value == s.producer.value)
    requires s'.consumer.Taken? == s.consumer.Taken?
    ensures SlotsOk(s', pushed)
  {
    forall m | s.heads <= m < s.heads + |s.slots| ensures s'.slots[Residue(m, |s.slots|)] == Expected(s', pushed, m) {
      assert s.slots[Residue(m, |s.slots|)] == Expected(s, pushed, m);
    }
  }

  lemma TakeRefines<T>(s: State<T>, pushed: seq<T>)
    requires Inv(s, pushed) && s.consumer.SlotFull?
    ensures WordsOk(s) && SlotAccessSafe(s, StepConsumer)
    ensures var (s', e) := Next(s, StepConsumer); Refines(s, pushed, s', e)
  {
    AccessesAreSafe(s, pushed, StepConsumer);
    SlotOfWrapped(s.heads, |s.slots|);
    assert s.slots[Residue(s.heads, |s.slots|)] == Expected(s, pushed, s.heads);
    TakeKeepsSlots(s, pushed, pushed[s.heads]);
  }

  lemma ReleaseKeepsInv<T>(s: State<T>, pushed: seq<T>)
    requires Inv(s, pushed) && s.consumer.Taken?
    ensures Inv(s.(head := (s.head + 1) % WORD, heads := s.heads + 1, consumer := Waiting), pushed)
  {
    ReleaseKeepsSlots(s, pushed);
    WrapNext(s.heads);
  }

  lemma ReleaseShape<T>(s: State<T>)
    requires WordsOk(s) && SlotAccessSafe(s, StepConsumer) && s.consumer.Taken? && s.consumer.head == s.head
    ensures Next(s, StepConsumer) == (s.(head := (s.head + 1) % WORD, heads := s.heads + 1, consumer := Waiting), Popped(s.consumer.value))
  {
  }

  lemma ReleaseRefines<T>(s: State<T>, pushed: seq<T>)
    requires Inv(s, pushed) && s.consumer.Taken?
    ensures WordsOk(s) && SlotAccessSafe(s, StepConsumer)
    ensures var (s', e) := Next(s, StepConsumer); Refines(s, pushed, s', e)
  {
    AccessesAreSafe(s, pushed, StepConsumer);
    ReleaseShape(s);
    ReleaseKeepsInv(s, pushed);
  }

  lemma LoadTailRefines<T>(s: State<T>, pushed: seq<T>)
    requires Inv(s, pushed) && s.consumer.HeadLoaded?
    ensures WordsOk(s) && SlotAccessSafe(s, StepConsumer)
    ensures var (s', e) := Next(s, StepConsumer); Refines(s, pushed, s', e)
  {
    AccessesAreSafe(s, pushed, StepConsumer);
    CapacityBelowWord(|s.slots|);
    WrapSubIsExact(s.tails, s.heads);
    SameContents(s, Next(s, StepConsumer).0, pushed);
  }

  /** Every step keeps the invariant and is one atomic queue operation, or silent: the ring is linearizable. */
  lemma StepRefinesQueue<T>(s: State<T>, pushed: seq<T>, action: Action<T>)
    requires Inv(s, pushed) && Enabled(s, action)
    ensures WordsOk(s) && SlotAccessSafe(s, action)
    ensures var (s', e) := Next(s, action);
            Refines(s, pushed, s', e)
  {
    AccessesAreSafe(s, pushed, action);
    match action
    case StepProducer =>
      if s.producer.TailLoaded? {
        LoadHeadRefines(s, pushed);
      } else if s.producer.SlotFree? {
        WriteRefines(s, pushed);
      } else {
        PublishRefines(s, pushed);
      }
    case StepConsumer =>
      if s.consumer.HeadLoaded? {
        LoadTailRefines(s, pushed);
      } else if s.consumer.SlotFull? {
        TakeRefines(s, pushed);
      } else {
        ReleaseRefines(s, pushed);
      }
    case _ => SameContents(s, Next(s, action).0, pushed);
  }

  // ---- Whole runs ----

  ghost predicate IsRun<T>(states: seq<State<T>>, actions: seq<Action<T>>, events: seq<Event<T>>) {
    && |states| == |actions| + 1 == |events| + 1
    && forall k :: 0 <= k < |actions| ==>
         && Enabled(states[k], actions[k]) && WordsOk(states[k]) && SlotAccessSafe(states[k], actions[k])
         && (states[k + 1], events[k]) == Next(states[k], actions[k])
  }

  ghost function PushedValues<T>(events: seq<Event<T>>): seq<T> {
    if events == [] then []
    else PushedValues(events[..|events| - 1]) + var e := events[|events| - 1]; if e.Pushed? then [e.value] else []
  }

  ghost function PoppedValues<T>(events: seq<Event<T>>): seq<T> {
    if events == [] then []
    else PoppedValues(events[..|events| - 1]) + var e := events[|events| - 1]; if e.Popped? then [e.value] else []
  }

  /** The pops so far are a prefix of the pushes, in order, and the rest is the queue. */
  ghost predicate Follows<T>(capacity: nat, s: State<T>, pushed: seq<T>, popped: seq<T>) {
    && |s.slots| == capacity && Inv(s, pushed)
    && |popped| == s.heads && pushed == popped + Queue(s, pushed)
  }

  lemma StepFollows<T>(capacity: nat, s: State<T>, pushed: seq<T>, popped: seq<T>, action: Action<T>)
    requires Follows(capacity, s, pushed, popped) && Enabled(s, action)
    ensures WordsOk(s) && SlotAccessSafe(s, action)
    ensures var (s', e) := Next(s, action);
            && QueueStep(capacity, Queue(s, pushed), e, Queue(s', Published(pushed, e)))
            && Follows(capacity, s', Published(pushed, e), popped + if e.Popped? then [e.value] else [])
  {
    StepRefinesQueue(s, pushed, action);
    var (s', e) := Next(s, action);
    var q, q' := Queue(s, pushed), Queue(s', Published(pushed, e));
    if e.Popped? {
      assert q == [q[0]] + q';
    }
  }

  /** Under every interleaving the pops are a prefix of the pushes, and at most `capacity` values are in between. */
  lemma {:induction false} PopsArePrefixOfPushes<T>(capacity: nat, states: seq<State<T>>, actions: seq<Action<T>>, events: seq<Event<T>>)
    requires IsCapacity(capacity) && IsRun(states, actions, events) && states[0] == Init(capacity)
    ensures Follows(capacity, states[|actions|], PushedValues(events), PoppedValues(events))
    ensures PoppedValues(events) <= PushedValues(events)
    ensures |PushedValues(events)| - |PoppedValues(events)| <= capacity
  {
    if actions == [] {
      InitOk<T>(capacity);
    } else {
      var n := |actions| - 1;
      PopsArePrefixOfPushes(capacity, states[..n + 1], actions[..n], events[..n]);
      assert (states[n + 1], events[n]) == Next(states[n], actions[n]);
      StepFollows(capacity, states[n], PushedValues(events[..n]), PoppedValues(events[..n]), actions[n]);
      assert PushedValues(events) == Published(PushedValues(events[..n]), events[n]);
    }
  }

  /** Every answer was exact at the instant it was decided: full, empty, and which value. */
  lemma AnswersAreLinearizable<T>(capacity: nat, states: seq<State<T>>, actions: seq<Action<T>>, events: seq<Event<T>>, k: nat)
    requires IsCapacity(capacity) && IsRun(states, actions, events) && states[0] == Init(capacity) && k < |actions|
    ensures var q, taken := PushedValues(events[..k]), |PoppedValues(events[..k])|;
            && (events[k].Full? ==> |q| - taken == capacity)
            && (events[k].Pushed? ==> |q| - taken < capacity)
            && (events[k].Empty? ==> |q| == taken)
            && (events[k].Popped? ==> taken < |q| && events[k].value == q[taken])
  {
    PopsArePrefixOfPushes(capacity, states[..k + 1], actions[..k], events[..k]);
    assert (states[k + 1], events[k]) == Next(states[k], actions[k]);
    StepFollows(capacity, states[k], PushedValues(events[..k]), PoppedValues(events[..k]), actions[k]);
  }
}
