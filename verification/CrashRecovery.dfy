/** What a crash can lose: the log against the in-memory queues, over every run (src/kernel/sync.rs). */
module CrashRecovery {
  import opened Wrappers
  import opened Packet
  import opened Wal
  import opened Replicator
  import opened ReplicatorRuns

  /** Equal up to the piggybacked acknowledgement, which coalescing refreshes only in the log. */
  predicate SameButAck(p: SyncPacket, q: SyncPacket) { p.(ack := 0) == q.(ack := 0) }

  ghost predicate Covers(live: seq<SyncPacket>, p: SyncPacket) {
    exists q :: q in live && SameButAck(q, p)
  }

  ghost predicate CoversAbove(live: seq<SyncPacket>, packets: seq<SyncPacket>, acked: nat) {
    forall p :: p in packets && p.sequence > acked ==> Covers(live, p)
  }

  /** The queues are in sequence order and every packet above all acknowledgements is in the log. */
  ghost predicate Durable(s: Rep, acked: nat) {
    && s.log.Some? && s.log.value.limits.maxPayload + HEADER < U64_LIMIT
    && Safe(Live(s.log.value.records), PacketsOf(s), s.nextSequence, acked)
  }

  ghost predicate Safe(live: seq<SyncPacket>, packets: seq<SyncPacket>, next: nat, acked: nat) {
    && Rising(packets) && Below(packets, next)
    && DistinctSequences(live) && Below(live, next)
    && CoversAbove(live, packets, acked)
  }

  function Max(a: nat, b: nat): nat { if a < b then b else a }

  /** The highest acknowledgement after one operation. */
  function AckedAfter(s: Rep, op: Op, acked: nat): nat {
    match op
    case AckOp(sequence) => Max(acked, sequence)
    case ReceiveOp(p) => if Receive(s, p).1.Some? && p.ack > s.lastAckSent then Max(acked, p.ack) else acked
    case _ => acked
  }

  function Acked(s: Rep, ops: seq<Op>, acked: nat): nat {
    if ops == [] then acked
    else AckedAfter(Run(s, ops[..|ops| - 1]), ops[|ops| - 1], Acked(s, ops[..|ops| - 1], acked))
  }

  lemma LiveAppend(records: seq<Record>, r: Record)
    ensures Live(records + [r]) == After(Live(records), r)
  {
    assert (records + [r])[..|records|] == records;
  }

  /** A successful enqueue appends one packet to the queue and its record to the log; a failed one appends nothing. */
  lemma EnqueueEffect(s: Rep, kind: SyncKind, key: u64, payload: seq<byte>)
    requires s.log.Some? && s.nextSequence + 1 < U64_LIMIT
    ensures var (s', r) := Enqueue(s, kind, key, payload); var p := SyncPacket(s.nextSequence, s.lastReceived, kind, key, payload);
            && s'.log.Some? && s'.stats.droppedRetries == s.stats.droppedRetries
            && s.nextSequence <= s'.nextSequence <= s.nextSequence + 1
            && (if r.Ok? then
                  && PacketsOf(s') == PacketsOf(s) + [p] && s'.nextSequence == s.nextSequence + 1
                  && Live(s'.log.value.records) == Put(Live(s.log.value.records), p)
                else PacketsOf(s') == PacketsOf(s) && s'.log == s.log)
  {
    var (s', r) := Enqueue(s, kind, key, payload);
    var p := SyncPacket(s.nextSequence, s.lastReceived, kind, key, payload);
    if r.Ok? {
      LiveAppend(s.log.value.records, PacketRecord(p));
      assert PacketsOf(s') == PacketsOf(s) + [p];
    }
  }

  lemma AppendKeepsSafe(live: seq<SyncPacket>, packets: seq<SyncPacket>, p: SyncPacket, acked: nat)
    requires Safe(live, packets, p.sequence, acked)
    ensures Safe(Put(live, p), packets + [p], p.sequence + 1, acked)
  {
    assert Put(live, p) == live + [p];
    PutMembers(live, p);
    forall q | q in packets + [p] && q.sequence > acked ensures Covers(live + [p], q) {
      if q in packets {
        var r :| r in live && SameButAck(r, q);
        assert r in live + [p];
      } else {
        assert p in live + [p] && SameButAck(p, q);
      }
    }
  }

  lemma EnqueueKeepsDurable(s: Rep, kind: SyncKind, key: u64, payload: seq<byte>, acked: nat)
    requires Durable(s, acked) && s.nextSequence + 1 < U64_LIMIT
    ensures Durable(Enqueue(s, kind, key, payload).0, acked)
  {
    EnqueueEffect(s, kind, key, payload);
    EnqueueKeepsLimits(s, kind, key, payload);
    if Enqueue(s, kind, key, payload).1.Ok? {
      AppendKeepsSafe(Live(s.log.value.records), PacketsOf(s), SyncPacket(s.nextSequence, s.lastReceived, kind, key, payload), acked);
    }
  }

  lemma EnqueueKeepsLimits(s: Rep, kind: SyncKind, key: u64, payload: seq<byte>)
    requires s.log.Some?
    ensures Enqueue(s, kind, key, payload).0.log.Some?
    ensures Enqueue(s, kind, key, payload).0.log.value.limits == s.log.value.limits
  {
  }

  lemma CoalesceKeepsSafe(live: seq<SyncPacket>, packets: seq<SyncPacket>, at: nat, p: SyncPacket, written: SyncPacket, next: nat, acked: nat)
    requires Safe(live, packets, next, acked) && at < |packets|
    requires p.sequence == packets[at].sequence && SameButAck(written, p)
    ensures Safe(Put(live, written), packets[at := p], next, acked)
  {
    PutMembers(live, written);
    ReplaceKeepsCover(live, packets, at, p, written, acked);
    var put := Put(live, written);
    forall i | 0 <= i < |put| ensures put[i].sequence < next {
      assert put[i] in put;
    }
  }

  lemma CoalesceKeepsDurable(s: Rep, key: u64, payload: seq<byte>, i: nat, acked: nat)
    requires Durable(s, acked) && Validate(s.config, payload).Ok? && FindDelta(s.pending, key) == Some(i)
    requires EnqueueDelta(s, key, payload).1.Ok?
    ensures Durable(EnqueueDelta(s, key, payload).0, acked)
  {
    CoalesceShape(s, key, payload, i);
    UpdateQueued(s.inFlight, s.pending, i, Coalesced(s, i, payload));
    RewriteKeepsDurable(s, EnqueueDelta(s, key, payload).0, |s.inFlight| + i, Coalesced(s, i, payload), Written(s, i, key, payload), acked);
  }

  lemma CoalesceShape(s: Rep, key: u64, payload: seq<byte>, i: nat)
    requires s.log.Some? && Validate(s.config, payload).Ok? && FindDelta(s.pending, key) == Some(i) && EnqueueDelta(s, key, payload).1.Ok?
    ensures SameButAck(Written(s, i, key, payload), Coalesced(s, i, payload))
    ensures var s' := EnqueueDelta(s, key, payload).0;
      && s'.log.Some? && s'.log.value.limits == s.log.value.limits && s'.nextSequence == s.nextSequence
      && Live(s'.log.value.records) == Put(Live(s.log.value.records), Written(s, i, key, payload))
      && PacketsOf(s') == PacketsOf(s)[|s.inFlight| + i := Coalesced(s, i, payload)]
  {
    CoalesceEffect(s, key, payload, i);
    LiveAppend(s.log.value.records, PacketRecord(Written(s, i, key, payload)));
    UpdateQueued(s.inFlight, s.pending, i, Coalesced(s, i, payload));
  }

  lemma RewriteKeepsDurable(s: Rep, s': Rep, at: nat, p: SyncPacket, written: SyncPacket, acked: nat)
    requires Durable(s, acked) && s'.log.Some? && s'.log.value.limits == s.log.value.limits && s'.nextSequence == s.nextSequence
    requires at < |PacketsOf(s)| && p.sequence == PacketsOf(s)[at].sequence && SameButAck(written, p)
    requires Live(s'.log.value.records) == Put(Live(s.log.value.records), written) && PacketsOf(s') == PacketsOf(s)[at := p]
    ensures Durable(s', acked)
  {
    CoalesceKeepsSafe(Live(s.log.value.records), PacketsOf(s), at, p, written, s.nextSequence, acked);
  }

  /** Coalescing rewrites one entry of the queue and of the log alike. */
  lemma DeltaKeepsDurable(s: Rep, key: u64, payload: seq<byte>, acked: nat)
    requires Durable(s, acked) && s.nextSequence + 1 < U64_LIMIT
    ensures Durable(EnqueueDelta(s, key, payload).0, acked)
  {
    var found := FindDelta(s.pending, key);
    if Validate(s.config, payload).Ok? && found.Some? {
      CoalesceEffect(s, key, payload, found.value);
      if EnqueueDelta(s, key, payload).1.Ok? {
        CoalesceKeepsDurable(s, key, payload, found.value, acked);
      }
    } else {
      EnqueueKeepsDurable(s, Delta, key, payload, acked);
    }
  }

  lemma ReplaceKeepsCover(live: seq<SyncPacket>, packets: seq<SyncPacket>, at: nat, p: SyncPacket, written: SyncPacket, acked: nat)
    requires DistinctSequences(live) && Rising(packets) && at < |packets| && CoversAbove(live, packets, acked)
    requires p.sequence == packets[at].sequence && SameButAck(written, p)
    ensures CoversAbove(Put(live, written), packets[at := p], acked)
  {
    var put := Put(live, written);
    PutMembers(live, written);
    forall r | r in packets[at := p] && r.sequence > acked ensures Covers(put, r) {
      var j :| 0 <= j < |packets| && packets[at := p][j] == r;
      if j != at {
        assert packets[j] == r && r.sequence != p.sequence by {
          if j < at { assert packets[j].sequence < packets[at].sequence; } else { assert packets[at].sequence < packets[j].sequence; }
        }
        var q :| q in live && SameButAck(q, r);
        assert q.sequence == r.sequence && q in put;
      }
    }
  }

  lemma AckKeepsDurable(s: Rep, a: u64, acked: nat)
    requires Durable(s, acked)
    ensures Durable(Acknowledge(s, a).0, Max(acked, a))
  {
    var s' := Acknowledge(s, a).0;
    if s' != s {
      var live := Live(s.log.value.records);
      LiveAppend(s.log.value.records, AckRecord(a));
      RetainMembers(live, a);
      RetainIsDistinct(live, a);
      AboveRises(s.inFlight, a, s.pending);
      var live', packets' := Retain(live, a), PacketsOf(s');
      forall i | 0 <= i < |live'| ensures live'[i].sequence < s.nextSequence {
        assert live'[i] in live;
      }
      forall p | p in packets' ensures p in PacketsOf(s) {}
      forall i | 0 <= i < |packets'| ensures packets'[i].sequence < s.nextSequence {
        assert packets'[i] in PacketsOf(s);
      }
      forall p | p in packets' && p.sequence > Max(acked, a) ensures Covers(live', p) {
        var q :| q in live && SameButAck(q, p);
        assert q.sequence == p.sequence && q in live';
      }
    }
  }

  /** A pump moves packets from the queue into flight in order, and may drop some. */
  lemma PumpKeepsOrder(s: Rep, sends: seq<bool>, frame: nat)
    requires Rising(PacketsOf(s)) && Bounded(s)
    ensures var s' := Pump(s, sends, frame).0;
            && Rising(PacketsOf(s')) && s'.log == s.log && s'.nextSequence == s.nextSequence
            && (forall p :: p in PacketsOf(s') ==> p in PacketsOf(s))
            && s.stats.droppedRetries <= s'.stats.droppedRetries
            && (s'.stats.droppedRetries == s.stats.droppedRetries ==> PacketsOf(s') == PacketsOf(s))
  {
    if s.online {
      var first := SendFresh(s.config, s.pending, s.inFlight, sends, 0, frame);
      SendFreshConserves(s.config, s.pending, s.inFlight, sends, 0, frame);
      ResendConserves(s.config, first.inFlight, sends, first.attempts, frame);
      var retried := Resend(s.config, first.inFlight, sends, first.attempts, frame);
      UnexpiredKeeps(s.config, retried.items, frame);
      UnexpiredRises(s.config, retried.items, frame, first.pending);
      assert Carried(retried.items) + first.pending == PacketsOf(s);
      var kept := Unexpired(s.config, retried.items, frame);
      forall p | p in Carried(kept) + first.pending ensures p in PacketsOf(s) {
        assert p in Carried(retried.items) || p in first.pending;
      }
    }
  }

  lemma PumpKeepsDurable(s: Rep, sends: seq<bool>, frame: nat, acked: nat)
    requires Durable(s, acked) && Bounded(s)
    ensures Durable(Pump(s, sends, frame).0, acked)
  {
    PumpKeepsOrder(s, sends, frame);
    var packets' := PacketsOf(Pump(s, sends, frame).0);
    forall i | 0 <= i < |packets'| ensures packets'[i].sequence < s.nextSequence {
      assert packets'[i] in packets';
    }
  }

  /** Durability reads only the queues, the log and the next sequence number. */
  lemma SameQueuesSameDurable(s: Rep, t: Rep, acked: nat)
    requires Durable(s, acked)
    requires t.inFlight == s.inFlight && t.pending == s.pending && t.log == s.log && t.nextSequence == s.nextSequence
    ensures Durable(t, acked)
  {
    assert PacketsOf(t) == PacketsOf(s);
  }

  lemma ReceiveKeepsDurable(s: Rep, packet: SyncPacket, acked: nat)
    requires Durable(s, acked)
    ensures Durable(Receive(s, packet).0, AckedAfter(s, ReceiveOp(packet), acked))
  {
    var s1 := s.(lastReceived := packet.sequence);
    SameQueuesSameDurable(s, s1, acked);
    if Receive(s, packet).1.Some? && packet.ack > s.lastAckSent {
      AckKeepsDurable(s1, packet.ack, acked);
      SameQueuesSameDurable(Acknowledge(s1, packet.ack).0, Receive(s, packet).0, Max(acked, packet.ack));
    } else {
      SameQueuesSameDurable(s, Receive(s, packet).0, acked);
    }
  }

  lemma StepKeepsDurable(s: Rep, op: Op, acked: nat)
    requires Durable(s, acked) && Bounded(s) && s.nextSequence + 1 < U64_LIMIT
    ensures Durable(Step(s, op), AckedAfter(s, op, acked))
  {
    match op
    case EnqueueOp(kind, key, payload) => EnqueueKeepsDurable(s, kind, key, payload, acked);
    case DeltaOp(key, payload) => DeltaKeepsDurable(s, key, payload, acked);
    case PumpOp(sends, frame) => PumpKeepsDurable(s, sends, frame, acked);
    case AckOp(sequence) => AckKeepsDurable(s, sequence, acked);
    case ReceiveOp(packet) => ReceiveKeepsDurable(s, packet, acked);
    case _ => SameQueuesSameDurable(s, Step(s, op), acked);
  }

  lemma StepTakesOneNumber(s: Rep, op: Op)
    requires s.nextSequence + 1 < U64_LIMIT
    ensures s.nextSequence <= Step(s, op).nextSequence <= s.nextSequence + 1
  {
  }

  /** Whatever is acknowledged, every queued or in-flight packet above all acknowledgements is in the log, latest payload included. */
  lemma {:induction false} EveryRunIsDurable(s: Rep, ops: seq<Op>, acked: nat, recovered: nat)
    requires Durable(s, acked) && Bounded(s) && Conserved(s, recovered) && s.nextSequence + |ops| < U64_LIMIT
    ensures Durable(Run(s, ops), Acked(s, ops, acked)) && Run(s, ops).nextSequence <= s.nextSequence + |ops|
  {
    if ops != [] {
      var before := ops[..|ops| - 1];
      EveryRunIsDurable(s, before, acked, recovered);
      RunConserves(s, before, recovered);
      StepTakesOneNumber(Run(s, before), ops[|ops| - 1]);
      StepKeepsDurable(Run(s, before), ops[|ops| - 1], Acked(s, before, acked));
    }
  }

  // ---- With acknowledgements only for what was sent ----

  /** The acknowledgement covers only sequence numbers that have left the queue. */
  ghost predicate Honest(s: Rep, a: nat) {
    a < s.nextSequence && forall i :: 0 <= i < |s.pending| ==> a < s.pending[i].sequence
  }

  ghost predicate HonestOp(s: Rep, op: Op) {
    match op
    case AckOp(sequence) => Honest(s, sequence)
    case ReceiveOp(p) => Receive(s, p).1.Some? && p.ack > s.lastAckSent ==> Honest(s, p.ack)
    case _ => true
  }

  ghost predicate HonestRun(s: Rep, ops: seq<Op>) {
    ops == [] || (HonestRun(s, ops[..|ops| - 1]) && HonestOp(Run(s, ops[..|ops| - 1]), ops[|ops| - 1]))
  }

  function Shadows(packets: seq<SyncPacket>): (r: seq<SyncPacket>)
    ensures |r| == |packets|
  {
    seq(|packets|, i requires 0 <= i < |packets| => packets[i].(ack := 0))
  }

  /** Log and queues fit together: the log rises in sequence order, and when `exact` they hold the same packets. */
  ghost predicate Aligned(live: seq<SyncPacket>, packets: seq<SyncPacket>, acked: nat, next: nat, exact: bool) {
    && acked < next && (forall i :: 0 <= i < |packets| ==> acked < packets[i].sequence)
    && Rising(live) && Below(live, next) && Positive(live)
    && (exact ==> Shadows(live) == Shadows(packets))
  }

  /** Sequence numbers start at 1. */
  ghost predicate Positive(packets: seq<SyncPacket>) {
    forall i :: 0 <= i < |packets| ==> packets[i].sequence > 0
  }

  /** Without drops the log is exactly the in-flight packets and then the queue. */
  ghost predicate Intact(s: Rep, acked: nat, drops: nat) {
    && Durable(s, acked) && drops <= s.stats.droppedRetries
    && Aligned(Live(s.log.value.records), PacketsOf(s), acked, s.nextSequence, s.stats.droppedRetries == drops)
  }

  lemma {:induction false} RetainRises(packets: seq<SyncPacket>, a: u64)
    requires Rising(packets)
    ensures Rising(Retain(packets, a))
  {
    if packets != [] {
      var n := |packets| - 1;
      RetainRises(packets[..n], a);
      RetainMembers(packets[..n], a);
      var before := Retain(packets[..n], a);
      forall i | 0 <= i < |before| ensures before[i].sequence < packets[n].sequence {
        assert before[i] in packets[..n];
      }
    }
  }

  lemma {:induction false} RetainShadows(a: seq<SyncPacket>, b: seq<SyncPacket>, limit: u64)
    requires Shadows(a) == Shadows(b)
    ensures Shadows(Retain(a, limit)) == Shadows(Retain(b, limit))
  {
    assert |a| == |Shadows(a)| == |b|;
    if a != [] {
      var n := |a| - 1;
      assert Shadows(a[..n]) == Shadows(a)[..n] && Shadows(b[..n]) == Shadows(b)[..n];
      RetainShadows(a[..n], b[..n], limit);
      assert Shadows(a)[n] == Shadows(b)[n];
      assert a[n].sequence == b[n].sequence;
      assert Shadows(Retain(a[..n], limit) + [a[n]]) == Shadows(Retain(a[..n], limit)) + [a[n].(ack := 0)];
      assert Shadows(Retain(b[..n], limit) + [b[n]]) == Shadows(Retain(b[..n], limit)) + [b[n].(ack := 0)];
    }
  }

  lemma {:induction false} RetainKeepsTail(x: seq<SyncPacket>, tail: seq<SyncPacket>, a: u64)
    requires forall i :: 0 <= i < |tail| ==> a < tail[i].sequence
    ensures Retain(x + tail, a) == Retain(x, a) + tail
    decreases |tail|
  {
    if tail == [] {
      assert x + tail == x;
    } else {
      var n := |tail| - 1;
      assert (x + tail)[..|x| + n] == x + tail[..n];
      RetainKeepsTail(x, tail[..n], a);
      assert Retain(x, a) + tail == (Retain(x, a) + tail[..n]) + [tail[n]];
    }
  }

  lemma {:induction false} RetainCarried(items: seq<InFlight>, a: u64)
    ensures Retain(Carried(items), a) == Carried(Above(items, a))
  {
    if items != [] {
      var n := |items| - 1;
      assert Carried(items)[..n] == Carried(items[..n]);
      RetainCarried(items[..n], a);
      assert Carried(Above(items[..n], a) + [items[n]]) == Carried(Above(items[..n], a)) + [items[n].packet];
    }
  }

  /** Acknowledging the log and acknowledging the in-flight items agree when the queue is above the acknowledgement. */
  lemma RetainIsAbove(items: seq<InFlight>, tail: seq<SyncPacket>, a: u64)
    requires forall i :: 0 <= i < |tail| ==> a < tail[i].sequence
    ensures Retain(Carried(items) + tail, a) == Carried(Above(items, a)) + tail
  {
    RetainKeepsTail(Carried(items), tail, a);
    RetainCarried(items, a);
  }

  lemma AppendKeepsAligned(live: seq<SyncPacket>, packets: seq<SyncPacket>, p: SyncPacket, acked: nat, exact: bool)
    requires Aligned(live, packets, acked, p.sequence, exact)
    ensures Aligned(Put(live, p), packets + [p], acked, p.sequence + 1, exact)
  {
    assert Put(live, p) == live + [p];
    if exact {
      assert Shadows(live + [p]) == Shadows(live) + [p.(ack := 0)];
      assert Shadows(packets + [p]) == Shadows(packets) + [p.(ack := 0)];
    }
  }

  lemma SequenceIsUnique(live: seq<SyncPacket>, i: nat, j: nat)
    requires Rising(live) && i < |live| && j < |live| && live[i].sequence == live[j].sequence
    ensures i == j
  {
  }

  lemma PutReplaces(live: seq<SyncPacket>, p: SyncPacket, i: nat)
    requires Rising(live) && i < |live| && live[i].sequence == p.sequence
    ensures Put(live, p) == live[i := p]
  {
    var found := Find(live, p.sequence);
    SequenceIsUnique(live, i, found.value);
  }

  lemma ReplaceKeepsAligned(live: seq<SyncPacket>, packets: seq<SyncPacket>, at: nat, p: SyncPacket, written: SyncPacket, acked: nat, next: nat, exact: bool)
    requires Aligned(live, packets, acked, next, exact) && at < |packets| && packets[at].sequence == p.sequence
    requires SameButAck(written, p) && Covers(live, packets[at])
    ensures Aligned(Put(live, written), packets[at := p], acked, next, exact)
  {
    var q :| q in live && SameButAck(q, packets[at]);
    var i :| 0 <= i < |live| && live[i] == q;
    PutReplaces(live, written, i);
    if exact {
      assert Shadows(live)[at] == Shadows(packets)[at];
      SequenceIsUnique(live, i, at);
      assert Shadows(live[at := written]) == Shadows(live)[at := written.(ack := 0)];
      assert Shadows(packets[at := p]) == Shadows(packets)[at := p.(ack := 0)];
    }
  }

  lemma AckKeepsAligned(live: seq<SyncPacket>, items: seq<InFlight>, pending: seq<SyncPacket>, a: u64, acked: nat, next: nat, exact: bool)
    requires Aligned(live, Carried(items) + pending, acked, next, exact)
    requires a < next && forall i :: 0 <= i < |pending| ==> a < pending[i].sequence
    ensures Aligned(Retain(live, a), Carried(Above(items, a)) + pending, Max(acked, a), next, exact)
  {
    var packets := Carried(items) + pending;
    RetainRises(live, a);
    RetainMembers(live, a);
    forall i | 0 <= i < |Retain(live, a)| ensures 0 < Retain(live, a)[i].sequence < next {
      assert Retain(live, a)[i] in live;
    }
    RetainIsAbove(items, pending, a);
    RetainMembers(packets, a);
    forall i | 0 <= i < |Retain(packets, a)| ensures Max(acked, a) < Retain(packets, a)[i].sequence {
      assert Retain(packets, a)[i] in packets;
    }
    if exact {
      RetainShadows(live, packets, a);
    }
  }

  /** Fewer packets, the same log: alignment stays, exactness only if nothing was dropped. */
  lemma PumpKeepsAligned(live: seq<SyncPacket>, packets: seq<SyncPacket>, packets': seq<SyncPacket>, acked: nat, next: nat, exact: bool, exact': bool)
    requires Aligned(live, packets, acked, next, exact) && (forall p :: p in packets' ==> p in packets)
    requires exact' ==> exact && packets' == packets
    ensures Aligned(live, packets', acked, next, exact')
  {
    forall i | 0 <= i < |packets'| ensures acked < packets'[i].sequence {
      assert packets'[i] in packets;
    }
  }

  /** A larger next sequence number keeps alignment. */
  lemma AlignedForLater(live: seq<SyncPacket>, packets: seq<SyncPacket>, acked: nat, next: nat, next': nat, exact: bool)
    requires Aligned(live, packets, acked, next, exact) && next <= next'
    ensures Aligned(live, packets, acked, next', exact)
  {
  }

  lemma EnqueueKeepsIntact(s: Rep, kind: SyncKind, key: u64, payload: seq<byte>, acked: nat, drops: nat)
    requires Intact(s, acked, drops) && s.nextSequence + 1 < U64_LIMIT
    ensures Intact(Enqueue(s, kind, key, payload).0, acked, drops)
  {
    EnqueueKeepsDurable(s, kind, key, payload, acked);
    EnqueueEffect(s, kind, key, payload);
    var live, packets, exact := Live(s.log.value.records), PacketsOf(s), s.stats.droppedRetries == drops;
    if Enqueue(s, kind, key, payload).1.Ok? {
      AppendKeepsAligned(live, packets, SyncPacket(s.nextSequence, s.lastReceived, kind, key, payload), acked, exact);
    } else {
      AlignedForLater(live, packets, acked, s.nextSequence, Enqueue(s, kind, key, payload).0.nextSequence, exact);
    }
  }

  lemma UpdateQueued(items: seq<InFlight>, pending: seq<SyncPacket>, i: nat, p: SyncPacket)
    requires i < |pending|
    ensures Carried(items) + pending[i := p] == (Carried(items) + pending)[|items| + i := p]
    ensures (Carried(items) + pending)[|items| + i] == pending[i]
  {
  }

  /** What a coalesced delta leaves in the queue, and what it writes: the same packet with a refreshed `ack`. */
  function Coalesced(s: Rep, i: nat, payload: seq<byte>): SyncPacket
    requires i < |s.pending|
  {
    s.pending[i].(payload := payload)
  }

  function Written(s: Rep, i: nat, key: u64, payload: seq<byte>): SyncPacket
    requires i < |s.pending|
  {
    SyncPacket(s.pending[i].sequence, s.lastReceived, Delta, key, payload)
  }

  lemma CoalesceEffect(s: Rep, key: u64, payload: seq<byte>, i: nat)
    requires s.log.Some? && Validate(s.config, payload).Ok? && FindDelta(s.pending, key) == Some(i)
    ensures SameButAck(Written(s, i, key, payload), Coalesced(s, i, payload))
    ensures var (s', r) := EnqueueDelta(s, key, payload);
            if r.Err? then s' == s
            else
              && s'.log.Some? && s'.log.value.limits == s.log.value.limits && s'.stats.droppedRetries == s.stats.droppedRetries && s'.nextSequence == s.nextSequence
              && s'.inFlight == s.inFlight && s'.pending == s.pending[i := Coalesced(s, i, payload)]
              && s'.log.value.records == s.log.value.records + [PacketRecord(Written(s, i, key, payload))]
  {
  }

  lemma DeltaKeepsIntact(s: Rep, key: u64, payload: seq<byte>, acked: nat, drops: nat)
    requires Intact(s, acked, drops) && s.nextSequence + 1 < U64_LIMIT
    ensures Intact(EnqueueDelta(s, key, payload).0, acked, drops)
  {
    DeltaKeepsDurable(s, key, payload, acked);
    var found := FindDelta(s.pending, key);
    if Validate(s.config, payload).Ok? && found.Some? {
      var i := found.value;
      var p, written := Coalesced(s, i, payload), Written(s, i, key, payload);
      CoalesceEffect(s, key, payload, i);
      if EnqueueDelta(s, key, payload).1.Ok? {
        LiveAppend(s.log.value.records, PacketRecord(written));
        UpdateQueued(s.inFlight, s.pending, i, p);
        assert PacketsOf(s)[|s.inFlight| + i] in PacketsOf(s);
        ReplaceKeepsAligned(Live(s.log.value.records), PacketsOf(s), |s.inFlight| + i, p, written,
                            acked, s.nextSequence, s.stats.droppedRetries == drops);
      }
    } else {
      EnqueueKeepsIntact(s, Delta, key, payload, acked, drops);
    }
  }

  lemma AckKeepsIntact(s: Rep, a: u64, acked: nat, drops: nat)
    requires Intact(s, acked, drops) && Honest(s, a)
    ensures Intact(Acknowledge(s, a).0, Max(acked, a), drops)
  {
    AckKeepsDurable(s, a, acked);
    LiveAppend(s.log.value.records, AckRecord(a));
    AckKeepsAligned(Live(s.log.value.records), s.inFlight, s.pending, a, acked, s.nextSequence, s.stats.droppedRetries == drops);
  }

  lemma PumpKeepsIntact(s: Rep, sends: seq<bool>, frame: nat, acked: nat, drops: nat)
    requires Intact(s, acked, drops) && Bounded(s)
    ensures Intact(Pump(s, sends, frame).0, acked, drops)
  {
    var s' := Pump(s, sends, frame).0;
    PumpKeepsDurable(s, sends, frame, acked);
    PumpKeepsOrder(s, sends, frame);
    PumpKeepsAligned(Live(s.log.value.records), PacketsOf(s), PacketsOf(s'), acked, s.nextSequence,
                     s.stats.droppedRetries == drops, s'.stats.droppedRetries == drops);
  }

  lemma SameQueuesSameIntact(s: Rep, t: Rep, acked: nat, drops: nat)
    requires Intact(s, acked, drops) && t.stats.droppedRetries == s.stats.droppedRetries
    requires t.inFlight == s.inFlight && t.pending == s.pending && t.log == s.log && t.nextSequence == s.nextSequence
    ensures Intact(t, acked, drops)
  {
    SameQueuesSameDurable(s, t, acked);
    assert PacketsOf(t) == PacketsOf(s);
  }

  lemma ReceiveKeepsIntact(s: Rep, packet: SyncPacket, acked: nat, drops: nat)
    requires Intact(s, acked, drops) && HonestOp(s, ReceiveOp(packet))
    ensures Intact(Receive(s, packet).0, AckedAfter(s, ReceiveOp(packet), acked), drops)
  {
    var s1 := s.(lastReceived := packet.sequence);
    SameQueuesSameIntact(s, s1, acked, drops);
    if Receive(s, packet).1.Some? && packet.ack > s.lastAckSent {
      AckKeepsIntact(s1, packet.ack, acked, drops);
      SameQueuesSameIntact(Acknowledge(s1, packet.ack).0, Receive(s, packet).0, Max(acked, packet.ack), drops);
    } else {
      SameQueuesSameIntact(s, Receive(s, packet).0, acked, drops);
    }
  }

  lemma StepKeepsIntact(s: Rep, op: Op, acked: nat, drops: nat)
    requires Intact(s, acked, drops) && Bounded(s) && HonestOp(s, op) && s.nextSequence + 1 < U64_LIMIT
    ensures Intact(Step(s, op), AckedAfter(s, op, acked), drops)
  {
    match op
    case EnqueueOp(kind, key, payload) => EnqueueKeepsIntact(s, kind, key, payload, acked, drops);
    case DeltaOp(key, payload) => DeltaKeepsIntact(s, key, payload, acked, drops);
    case PumpOp(sends, frame) => PumpKeepsIntact(s, sends, frame, acked, drops);
    case AckOp(sequence) => AckKeepsIntact(s, sequence, acked, drops);
    case ReceiveOp(packet) => ReceiveKeepsIntact(s, packet, acked, drops);
    case _ => SameQueuesSameIntact(s, Step(s, op), acked, drops);
  }

  /** Honest acknowledgements keep log and queues aligned over every run. */
  lemma {:induction false} EveryHonestRunIsIntact(s: Rep, ops: seq<Op>, acked: nat, drops: nat, recovered: nat)
    requires Intact(s, acked, drops) && Bounded(s) && Conserved(s, recovered) && HonestRun(s, ops)
    requires s.nextSequence + |ops| < U64_LIMIT
    ensures Intact(Run(s, ops), Acked(s, ops, acked), drops) && Run(s, ops).nextSequence <= s.nextSequence + |ops|
  {
    if ops != [] {
      var before := ops[..|ops| - 1];
      EveryHonestRunIsIntact(s, before, acked, drops, recovered);
      RunConserves(s, before, recovered);
      StepTakesOneNumber(Run(s, before), ops[|ops| - 1]);
      StepKeepsIntact(Run(s, before), ops[|ops| - 1], Acked(s, before, acked), drops);
    }
  }

  lemma {:induction false} NextAfterRising(packets: seq<SyncPacket>)
    requires Rising(packets) && Below(packets, U64_LIMIT - 1)
    ensures NextAfter(packets) == if packets == [] then 1 else packets[|packets| - 1].sequence + 1
  {
    if packets != [] {
      NextAfterRising(packets[..|packets| - 1]);
    }
  }

  /** A restart over a rising log is a fresh start: the queue is the replayed log, and everything is covered again. */
  lemma RestartIsIntact(config: Config, log: Log)
    requires WithWal(config, log).Ok? && Rising(Live(log.records)) && Below(Live(log.records), U64_LIMIT - 1)
    requires log.limits.maxPayload + HEADER < U64_LIMIT && Positive(Live(log.records))
    ensures var s := WithWal(config, log).value;
            s.pending == Live(log.records) && s.inFlight == [] && Intact(s, 0, 0)
  {
    var s, live := WithWal(config, log).value, Live(log.records);
    ReplayIsLive(log.records, log.limits.maxRecords);
    NextAfterRising(live);
    assert PacketsOf(s) == live;
    forall p | p in live ensures Covers(live, p) {
      assert SameButAck(p, p);
    }
  }

  /** Starting over an empty log. */
  lemma FirstStartIsIntact(config: Config, limits: Limits)
    requires config.Valid() && limits.maxPayload + HEADER < U64_LIMIT
    ensures WithWal(config, Log(limits, [])).Ok? && Intact(WithWal(config, Log(limits, [])).value, 0, 0)
  {
    RestartIsIntact(config, Log(limits, []));
  }

  /** What a restart rebuilds from a log. */
  function Rebuilt(config: Config, log: Log): Rep {
    Rep(config, false, NextAfter(Live(log.records)), 0, 0, Live(log.records), [], NoStats, Some(log))
  }

  /**
    * A restart succeeds exactly if the log always was within its own limit and the live records fit into the queue alone,
    * although they also hold the packets that were in flight.
    */
  lemma RestartExactly(config: Config, log: Log)
    requires config.Valid()
    ensures WithWal(config, log) ==
      if !WithinLimit(log.records, log.limits.maxRecords) then Err(PersistenceFailed)
      else if |Live(log.records)| > config.maxPending then Err(Backpressure)
      else Ok(Rebuilt(config, log))
  {
    ReplayIsLive(log.records, log.limits.maxRecords);
  }

  /**
   Crash recovery. After any run with honest acknowledgements, if the unacknowledged packets never
   exceeded the log's record limit, replay succeeds with strictly increasing sequence numbers, it holds
   every queued or in-flight packet with its latest payload, and nothing else unless retries were dropped.
   A restart rebuilds exactly that queue if it fits into `maxPending`, and is refused otherwise; without drops
   it fits exactly if the queued and in-flight packets together do.
   */
  lemma CrashRecoversTheQueues(s: Rep, ops: seq<Op>, acked: nat, drops: nat, recovered: nat)
    requires Intact(s, acked, drops) && Bounded(s) && Conserved(s, recovered) && HonestRun(s, ops)
    requires s.nextSequence + |ops| < U64_LIMIT
    requires Run(s, ops).log.Some? && WithinLimit(Run(s, ops).log.value.records, Run(s, ops).log.value.limits.maxRecords)
    ensures var s' := Run(s, ops); var log := s'.log.value; var live := Live(log.records);
            && Fold([], log.records, log.limits.maxRecords) == Ok(live) && Rising(live)
            && (forall p :: p in PacketsOf(s') ==> Covers(live, p))
            && (s'.stats.droppedRetries == drops ==> Shadows(live) == Shadows(PacketsOf(s')) && |live| == |s'.inFlight| + |s'.pending|)
            && (s'.config.Valid() ==>
                  WithWal(s'.config, log) == if |live| <= s'.config.maxPending then Ok(Rebuilt(s'.config, log)) else Err(Backpressure))
  {
    EveryHonestRunIsIntact(s, ops, acked, drops, recovered);
    var s' := Run(s, ops);
    ReplayIsLive(s'.log.value.records, s'.log.value.limits.maxRecords);
    if s'.config.Valid() { RestartExactly(s'.config, s'.log.value); }
    if s'.stats.droppedRetries == drops { ExactSize(Live(s'.log.value.records), PacketsOf(s')); }
    IntactCovers(s', Acked(s, ops, acked), drops);
  }

  lemma IntactCovers(s: Rep, acked: nat, drops: nat)
    requires Intact(s, acked, drops)
    ensures forall p :: p in PacketsOf(s) ==> Covers(Live(s.log.value.records), p)
  {
    forall p | p in PacketsOf(s) ensures p.sequence > acked {
      var i :| 0 <= i < |PacketsOf(s)| && PacketsOf(s)[i] == p;
    }
  }

  /** A restart hands out old sequence numbers again exactly when the newest packets have been acknowledged away. */
  lemma RestartCanRepeatSequences(s: Rep, config: Config, acked: nat, drops: nat)
    requires Intact(s, acked, drops) && WithWal(config, s.log.value).Ok? && s.nextSequence + 1 < U64_LIMIT
    ensures var live := Live(s.log.value.records); var next := WithWal(config, s.log.value).value.nextSequence;
            && next <= s.nextSequence
            && (next < s.nextSequence <==>
                  s.nextSequence > 1 && (live == [] || live[|live| - 1].sequence + 1 < s.nextSequence))
  {
    ReplayIsLive(s.log.value.records, s.log.value.limits.maxRecords);
    NextAfterRising(Live(s.log.value.records));
  }

  // ---- Crash after crash ----

  lemma RestartKeepsIntact(s: Rep, acked: nat, drops: nat)
    requires Intact(s, acked, drops) && s.nextSequence < U64_LIMIT && WithWal(s.config, s.log.value).Ok?
    ensures var t := Rebuilt(s.config, s.log.value);
      WithWal(s.config, s.log.value) == Ok(t) && Intact(t, 0, 0) && Bounded(t) && Conserved(t, |t.pending|)
  {
    RestartExactly(s.config, s.log.value);
    RestartIsIntact(s.config, s.log.value);
    StartIsConserved(s.config, s.log.value);
  }

  /** Runs with honest acknowledgements, each ended by a crash and followed by a restart, until one is refused. */
  ghost predicate IsLife(s: Rep, lives: seq<seq<Op>>)
    decreases |lives|
  {
    lives == [] ||
    var s' := Run(s, lives[0]);
    && HonestRun(s, lives[0]) && s.nextSequence + |lives[0]| < U64_LIMIT
    && (s'.log.Some? && WithWal(s'.config, s'.log.value).Ok? ==> IsLife(Rebuilt(s'.config, s'.log.value), lives[1..]))
  }

  /** The replicator after these lives, or the error of the first restart that was refused. */
  function AfterLife(s: Rep, lives: seq<seq<Op>>): Result<Rep, SyncError>
    decreases |lives|
  {
    if lives == [] then Ok(s)
    else
      var s' := Run(s, lives[0]);
      if s'.log.None? then Err(PersistenceFailed)
      else
        match WithWal(s'.config, s'.log.value)
        case Err(e) => Err(e)
        case Ok(t) => AfterLife(t, lives[1..])
  }

  /** At each crash the log is within its limit and what is live in it fits into the queue. */
  ghost predicate FitsAtEachCrash(s: Rep, lives: seq<seq<Op>>)
    decreases |lives|
  {
    lives == [] ||
    var s' := Run(s, lives[0]);
    && s'.log.Some? && WithinLimit(s'.log.value.records, s'.log.value.limits.maxRecords)
    && |Live(s'.log.value.records)| <= s'.config.maxPending
    && FitsAtEachCrash(Rebuilt(s'.config, s'.log.value), lives[1..])
  }

  /**
    * However often it crashes, every restart succeeds exactly if the live records fit each time; it then rebuilds
    * a queue that the log covers, and the next run starts as sound as the first.
    */
  lemma {:induction false} EveryLifeIsIntact(s: Rep, lives: seq<seq<Op>>, acked: nat, drops: nat, recovered: nat)
    requires Intact(s, acked, drops) && Bounded(s) && Conserved(s, recovered) && s.config.Valid() && IsLife(s, lives)
    ensures AfterLife(s, lives).Ok? <==> FitsAtEachCrash(s, lives)
    ensures lives != [] && AfterLife(s, lives).Ok? ==> Intact(AfterLife(s, lives).value, 0, 0) && Bounded(AfterLife(s, lives).value)
    decreases |lives|
  {
    if lives != [] {
      var s' := Run(s, lives[0]);
      OneLife(s, lives[0], acked, drops, recovered);
      var t := Rebuilt(s'.config, s'.log.value);
      if WithWal(s'.config, s'.log.value).Ok? { EveryLifeIsIntact(t, lives[1..], 0, 0, |t.pending|); }
    }
  }

  lemma OneLife(s: Rep, ops: seq<Op>, acked: nat, drops: nat, recovered: nat)
    requires Intact(s, acked, drops) && Bounded(s) && Conserved(s, recovered) && s.config.Valid()
    requires HonestRun(s, ops) && s.nextSequence + |ops| < U64_LIMIT
    ensures var s' := Run(s, ops);
      && s'.log.Some? && s'.config == s.config
      && (WithWal(s'.config, s'.log.value).Ok? <==>
            WithinLimit(s'.log.value.records, s'.log.value.limits.maxRecords) && |Live(s'.log.value.records)| <= s'.config.maxPending)
      && (WithWal(s'.config, s'.log.value).Ok? ==>
            var t := Rebuilt(s'.config, s'.log.value);
            WithWal(s'.config, s'.log.value) == Ok(t) && Intact(t, 0, 0) && Bounded(t) && Conserved(t, |t.pending|))
  {
    var s' := Run(s, ops);
    EveryHonestRunIsIntact(s, ops, acked, drops, recovered);
    RunKeepsConfig(s, ops, recovered);
    RestartExactly(s'.config, s'.log.value);
    if WithWal(s'.config, s'.log.value).Ok? { RestartKeepsIntact(s', Acked(s, ops, acked), drops); }
  }

  // ---- When the log replays in order, exactly ----

  /** An operation that coalesces a queued packet already acknowledged out of the log while a later one is still in it. */
  ghost predicate Disorders(s: Rep, op: Op)
    requires s.log.Some?
  {
    var live := Live(s.log.value.records);
    && op.DeltaOp? && Validate(s.config, op.payload).Ok? && live != []
    && var found := FindDelta(s.pending, op.key);
    && found.Some? && InBounds(PacketRecord(Written(s, found.value, op.key, op.payload)), s.log.value.limits)
    && Find(live, s.pending[found.value].sequence).None? && s.pending[found.value].sequence < live[|live| - 1].sequence
  }

  lemma PutRisesExactly(live: seq<SyncPacket>, p: SyncPacket)
    requires Rising(live)
    ensures Rising(Put(live, p)) <==> Find(live, p.sequence).Some? || live == [] || live[|live| - 1].sequence < p.sequence
  {
    var found := Find(live, p.sequence);
    if found.None? && live != [] {
      var put := live + [p];
      assert Put(live, p) == put && put[|live| - 1] == live[|live| - 1] && put[|live|] == p;
    }
  }

  lemma EnqueueKeepsRising(s: Rep, kind: SyncKind, key: u64, payload: seq<byte>, acked: nat)
    requires Durable(s, acked) && s.nextSequence + 1 < U64_LIMIT && Rising(Live(s.log.value.records))
    ensures var s' := Enqueue(s, kind, key, payload).0; s'.log.Some? && Rising(Live(s'.log.value.records))
  {
    EnqueueEffect(s, kind, key, payload);
    PutRisesExactly(Live(s.log.value.records), SyncPacket(s.nextSequence, s.lastReceived, kind, key, payload));
  }

  lemma DeltaOrder(s: Rep, key: u64, payload: seq<byte>, acked: nat)
    requires Durable(s, acked) && s.nextSequence + 1 < U64_LIMIT && Rising(Live(s.log.value.records))
    ensures var s' := EnqueueDelta(s, key, payload).0;
      s'.log.Some? && (Rising(Live(s'.log.value.records)) <==> !Disorders(s, DeltaOp(key, payload)))
  {
    var found := FindDelta(s.pending, key);
    if Validate(s.config, payload).Ok? && found.Some? {
      CoalesceEffect(s, key, payload, found.value);
      var written := Written(s, found.value, key, payload);
      LiveAppend(s.log.value.records, PacketRecord(written));
      PutRisesExactly(Live(s.log.value.records), written);
    } else {
      EnqueueKeepsRising(s, Delta, key, payload, acked);
    }
  }

  lemma AckKeepsRising(s: Rep, a: u64)
    requires s.log.Some? && Rising(Live(s.log.value.records))
    ensures var s' := Acknowledge(s, a).0; s'.log.Some? && Rising(Live(s'.log.value.records))
  {
    LiveAppend(s.log.value.records, AckRecord(a));
    RetainRises(Live(s.log.value.records), a);
  }

  lemma StepOrder(s: Rep, op: Op, acked: nat)
    requires Durable(s, acked) && s.nextSequence + 1 < U64_LIMIT && Rising(Live(s.log.value.records))
    ensures var s' := Step(s, op); s'.log.Some? && (Rising(Live(s'.log.value.records)) <==> !Disorders(s, op))
  {
    match op
    case EnqueueOp(kind, key, payload) => EnqueueKeepsRising(s, kind, key, payload, acked);
    case DeltaOp(key, payload) => DeltaOrder(s, key, payload, acked);
    case AckOp(sequence) => AckKeepsRising(s, sequence);
    case ReceiveOp(packet) => ReceiveKeepsRising(s, packet);
    case _ =>
  }

  lemma ReceiveKeepsRising(s: Rep, packet: SyncPacket)
    requires s.log.Some? && Rising(Live(s.log.value.records))
    ensures var s' := Receive(s, packet).0; s'.log.Some? && Rising(Live(s'.log.value.records))
  {
    AckKeepsRising(s.(lastReceived := packet.sequence), packet.ack);
  }

  /** At every point of the run a replay would return strictly increasing sequence numbers. */
  ghost predicate RisesThroughout(s: Rep, ops: seq<Op>) {
    && Run(s, ops).log.Some? && Rising(Live(Run(s, ops).log.value.records))
    && (ops == [] || RisesThroughout(s, ops[..|ops| - 1]))
  }

  /** No operation of the run disorders the log it finds. */
  ghost predicate NeverDisorders(s: Rep, ops: seq<Op>) {
    ops == [] ||
    var before := Run(s, ops[..|ops| - 1]);
    NeverDisorders(s, ops[..|ops| - 1]) && before.log.Some? && !Disorders(before, ops[|ops| - 1])
  }

  /** Whatever is acknowledged, the log stays in sequence order throughout a run exactly when no operation disorders it. */
  lemma {:induction false} OrderExactly(s: Rep, ops: seq<Op>, acked: nat, recovered: nat)
    requires Durable(s, acked) && Bounded(s) && Conserved(s, recovered) && Rising(Live(s.log.value.records))
    requires s.nextSequence + |ops| < U64_LIMIT
    ensures RisesThroughout(s, ops) <==> NeverDisorders(s, ops)
  {
    if ops != [] {
      var before := ops[..|ops| - 1];
      OrderExactly(s, before, acked, recovered);
      if RisesThroughout(s, before) {
        EveryRunIsDurable(s, before, acked, recovered);
        StepOrder(Run(s, before), ops[|ops| - 1], Acked(s, before, acked));
      }
    }
  }

  /** So an undisordered run that stays within the record limit replays in order, and holds every packet above all acknowledgements. */
  lemma UndisorderedRunReplaysInOrder(s: Rep, ops: seq<Op>, acked: nat, recovered: nat)
    requires Durable(s, acked) && Bounded(s) && Conserved(s, recovered) && Rising(Live(s.log.value.records))
    requires s.nextSequence + |ops| < U64_LIMIT && NeverDisorders(s, ops)
    requires Run(s, ops).log.Some? && WithinLimit(Run(s, ops).log.value.records, Run(s, ops).log.value.limits.maxRecords)
    ensures var s' := Run(s, ops); var log := s'.log.value; var live := Live(log.records);
      && Fold([], log.records, log.limits.maxRecords) == Ok(live) && Rising(live)
      && CoversAbove(live, PacketsOf(s'), Acked(s, ops, acked))
  {
    OrderExactly(s, ops, acked, recovered);
    EveryRunIsDurable(s, ops, acked, recovered);
    ReplayIsLive(Run(s, ops).log.value.records, Run(s, ops).log.value.limits.maxRecords);
  }

  // ---- When the log stays within its record limit ----

  lemma StepDrops(s: Rep, op: Op)
    ensures s.stats.droppedRetries <= Step(s, op).stats.droppedRetries
  {
  }

  /** Every operation writes at most one record. */
  lemma StepWrites(s: Rep, op: Op)
    requires s.log.Some?
    ensures var s' := Step(s, op);
      && s'.log.Some? && s'.log.value.limits == s.log.value.limits
      && (s'.log.value.records == s.log.value.records
          || (|s'.log.value.records| == |s.log.value.records| + 1 && s'.log.value.records[..|s.log.value.records|] == s.log.value.records))
  {
  }

  lemma ExactSize(live: seq<SyncPacket>, packets: seq<SyncPacket>)
    requires Shadows(live) == Shadows(packets)
    ensures |live| == |packets|
  {
    assert |Shadows(live)| == |live| && |Shadows(packets)| == |packets|;
  }

  /** A retry that has just been sent does not expire at once. */
  predicate Patient(config: Config) { config.maxRetries > 0 || config.resendAfter > 0 }

  /** How many packets may be in flight between two operations: none, if a packet expires in the pump that sent it. */
  function MostInFlight(config: Config): nat { if Patient(config) then config.maxInFlight else 0 }

  lemma {:induction false} NothingStays(config: Config, items: seq<InFlight>, sends: seq<bool>, k: nat, frame: nat)
    requires !Patient(config)
    ensures Unexpired(config, Resend(config, items, sends, k, frame).items, frame) == []
  {
    if items != [] {
      NothingStays(config, items[..|items| - 1], sends, k, frame);
      var before, all := Resend(config, items[..|items| - 1], sends, k, frame).items, Resend(config, items, sends, k, frame).items;
      assert all[..|all| - 1] == before;
    }
  }

  lemma StepKeepsFlight(s: Rep, op: Op)
    requires !Patient(s.config) && s.inFlight == []
    ensures Step(s, op).inFlight == []
  {
    if op.PumpOp? {
      var first := SendFresh(s.config, s.pending, s.inFlight, op.sends, 0, op.frame);
      NothingStays(s.config, first.inFlight, op.sends, first.attempts, op.frame);
    }
  }

  lemma {:induction false} RunKeepsFlight(s: Rep, ops: seq<Op>, recovered: nat)
    requires Conserved(s, recovered) && Bounded(s) && |s.inFlight| <= MostInFlight(s.config)
    ensures |Run(s, ops).inFlight| <= MostInFlight(s.config)
  {
    RunConserves(s, ops, recovered);
    RunKeepsConfig(s, ops, recovered);
    if ops != [] && !Patient(s.config) {
      var before := ops[..|ops| - 1];
      RunKeepsFlight(s, before, recovered);
      RunKeepsConfig(s, before, recovered);
      StepKeepsFlight(Run(s, before), ops[|ops| - 1]);
    }
  }

  /** A log with room for a full queue and all that may be in flight is never over its limit, unless retries were dropped. */
  lemma {:induction false} RoomForBothQueuesIsEnough(s: Rep, ops: seq<Op>, acked: nat, recovered: nat)
    requires Intact(s, acked, s.stats.droppedRetries) && Bounded(s) && Conserved(s, recovered) && HonestRun(s, ops)
    requires s.nextSequence + |ops| < U64_LIMIT && Run(s, ops).stats.droppedRetries == s.stats.droppedRetries
    requires |s.inFlight| <= MostInFlight(s.config)
    requires var max := s.log.value.limits.maxRecords;
      s.config.maxPending + MostInFlight(s.config) <= max && WithinLimit(s.log.value.records, max)
    ensures var s' := Run(s, ops);
      && s'.log.Some? && s'.log.value.limits == s.log.value.limits
      && WithinLimit(s'.log.value.records, s.log.value.limits.maxRecords)
  {
    if ops != [] {
      var before, op := ops[..|ops| - 1], ops[|ops| - 1];
      var t, t' := Run(s, before), Run(s, ops);
      DropsGrow(s, before);
      StepDrops(t, op);
      RoomForBothQueuesIsEnough(s, before, acked, recovered);
      EveryHonestRunIsIntact(s, ops, acked, s.stats.droppedRetries, recovered);
      RunConserves(s, ops, recovered);
      RunKeepsConfig(s, ops, recovered);
      RunKeepsFlight(s, ops, recovered);
      StepWrites(t, op);
      ExactSize(Live(t'.log.value.records), PacketsOf(t'));
    }
  }

  lemma {:induction false} DropsGrow(s: Rep, ops: seq<Op>)
    ensures s.stats.droppedRetries <= Run(s, ops).stats.droppedRetries
  {
    if ops != [] {
      DropsGrow(s, ops[..|ops| - 1]);
      StepDrops(Run(s, ops[..|ops| - 1]), ops[|ops| - 1]);
    }
  }

  lemma {:induction false} RunKeepsConfig(s: Rep, ops: seq<Op>, recovered: nat)
    requires Conserved(s, recovered) && Bounded(s)
    ensures Run(s, ops).config == s.config
  {
    if ops != [] {
      RunKeepsConfig(s, ops[..|ops| - 1], recovered);
      RunConserves(s, ops[..|ops| - 1], recovered);
      StepConserves(Run(s, ops[..|ops| - 1]), ops[|ops| - 1], recovered);
    }
  }

  /** Filling both queues: `j` packets sent one by one, then `m` more queued. */
  function Filling(j: nat, m: nat): seq<Op>
    decreases j, m
  {
    if m > 0 then Filling(j, m - 1) + [EnqueueOp(Event, 0, [1])]
    else if j > 0 then Filling(j - 1, 0) + [EnqueueOp(Event, 0, [1])] + [PumpOp([true], 0)]
    else [ModeOp(true)]
  }

  function FreshStart(config: Config, limits: Limits): Rep {
    Rep(config, false, 1, 0, 0, [], [], NoStats, Some(Log(limits, [])))
  }

  ghost predicate AllJustSent(items: seq<InFlight>) {
    forall i :: 0 <= i < |items| ==> items[i].lastSent == 0 && items[i].retries == 0
  }

  /** Where the filling stands. */
  ghost predicate Filled(s: Rep, config: Config, limits: Limits, flying: nat, queued: nat) {
    && s.online && s.config == config && s.log.Some? && s.log.value.limits == limits
    && |s.pending| == queued && |s.inFlight| == flying && AllJustSent(s.inFlight)
    && |Live(s.log.value.records)| == flying + queued && s.stats.droppedRetries == 0
  }

  lemma EnqueueFills(s: Rep, config: Config, limits: Limits, flying: nat, queued: nat, acked: nat)
    requires Filled(s, config, limits, flying, queued) && Durable(s, acked) && s.nextSequence + 1 < U64_LIMIT
    requires queued < config.maxPending && config.maxPayload > 0 && 0 < limits.maxPayload
    ensures Filled(Step(s, EnqueueOp(Event, 0, [1])), config, limits, flying, queued + 1)
  {
    EnqueueEffect(s, Event, 0, [1]);
    EnqueueKeepsLimits(s, Event, 0, [1]);
    var live := Live(s.log.value.records);
    var p := SyncPacket(s.nextSequence, s.lastReceived, Event, 0, [1]);
    assert Enqueue(s, Event, 0, [1]).1.Ok?;
    assert Put(live, p) == live + [p];
  }

  lemma {:induction false} NothingResent(config: Config, items: seq<InFlight>, k: nat)
    requires k >= 1 && AllJustSent(items) && Patient(config)
    ensures Resend(config, items, [true], k, 0).items == items && Unexpired(config, items, 0) == items
  {
    if items != [] {
      var n := |items| - 1;
      NothingResent(config, items[..n], k);
      AttemptsGrow(config, items[..n], k);
      assert items == items[..n] + [items[n]];
    }
  }

  lemma {:induction false} AttemptsGrow(config: Config, items: seq<InFlight>, k: nat)
    ensures Resend(config, items, [true], k, 0).attempts >= k
  {
    if items != [] { AttemptsGrow(config, items[..|items| - 1], k); }
  }

  lemma PumpFills(s: Rep, config: Config, limits: Limits, flying: nat)
    requires Filled(s, config, limits, flying, 1) && flying < config.maxInFlight && Patient(config)
    ensures Filled(Step(s, PumpOp([true], 0)), config, limits, flying + 1, 0)
  {
    var sent := s.inFlight + [InFlight(s.pending[0], 0, 0)];
    assert s.pending[1..] == [];
    assert SendFresh(config, s.pending[1..], sent, [true], 1, 0) == Fresh([], sent, 0, 1, false);
    assert SendFresh(config, s.pending, s.inFlight, [true], 0, 0) == Fresh([], sent, 1, 1, false);
    NothingResent(config, sent, 1);
  }

  lemma FreshIsSound(config: Config, limits: Limits)
    requires limits.maxPayload + HEADER < U64_LIMIT
    ensures var s := FreshStart(config, limits); Intact(s, 0, 0) && Bounded(s) && Conserved(s, 0)
    ensures var s := FreshStart(config, limits); config.Valid() ==> WithWal(config, Log(limits, [])) == Ok(s)
  {
    var s := FreshStart(config, limits);
    assert PacketsOf(s) == [];
  }

  lemma HonestSnoc(s: Rep, ops: seq<Op>, op: Op)
    requires HonestRun(s, ops) && HonestOp(Run(s, ops), op)
    ensures HonestRun(s, ops + [op])
  {
    assert (ops + [op])[..|ops|] == ops;
  }

  lemma {:induction false} FillingIsHonest(s: Rep, j: nat, m: nat)
    ensures HonestRun(s, Filling(j, m)) && |Filling(j, m)| == 1 + 2 * j + m
    decreases j, m
  {
    if m > 0 {
      FillingIsHonest(s, j, m - 1);
      HonestSnoc(s, Filling(j, m - 1), EnqueueOp(Event, 0, [1]));
    } else if j > 0 {
      FillingIsHonest(s, j - 1, 0);
      HonestSnoc(s, Filling(j - 1, 0), EnqueueOp(Event, 0, [1]));
      HonestSnoc(s, Filling(j - 1, 0) + [EnqueueOp(Event, 0, [1])], PumpOp([true], 0));
    } else {
      var ops := [ModeOp(true)];
      assert Filling(j, m) == ops && ops[..|ops| - 1] == [];
      assert HonestRun(s, []);
    }
  }

  predicate Roomy(config: Config, limits: Limits) {
    limits.maxPayload + HEADER < U64_LIMIT && config.maxPayload > 0 && 0 < limits.maxPayload && 0 < config.maxPending
  }

  lemma OneMoreQueued(config: Config, limits: Limits, ops: seq<Op>, flying: nat, queued: nat)
    requires Roomy(config, limits) && queued < config.maxPending && 3 + |ops| < U64_LIMIT
    requires Filled(Run(FreshStart(config, limits), ops), config, limits, flying, queued)
    ensures Filled(Run(FreshStart(config, limits), ops + [EnqueueOp(Event, 0, [1])]), config, limits, flying, queued + 1)
  {
    var s := FreshStart(config, limits);
    FreshIsSound(config, limits);
    EveryRunIsDurable(s, ops, 0, 0);
    RunSnoc(s, ops, EnqueueOp(Event, 0, [1]));
    EnqueueFills(Run(s, ops), config, limits, flying, queued, Acked(s, ops, 0));
  }

  lemma OneMoreSent(config: Config, limits: Limits, j: nat)
    requires Roomy(config, limits) && 0 < j <= MostInFlight(config) && 4 + 2 * j < U64_LIMIT
    requires Filled(Run(FreshStart(config, limits), Filling(j - 1, 0)), config, limits, j - 1, 0)
    ensures Filled(Run(FreshStart(config, limits), Filling(j, 0)), config, limits, j, 0)
  {
    var s, before := FreshStart(config, limits), Filling(j - 1, 0);
    FillingIsHonest(s, j - 1, 0);
    OneMoreQueued(config, limits, before, j - 1, 0);
    RunSnoc(s, before + [EnqueueOp(Event, 0, [1])], PumpOp([true], 0));
    PumpFills(Run(s, before + [EnqueueOp(Event, 0, [1])]), config, limits, j - 1);
  }

  lemma {:induction false} FillingFills(config: Config, limits: Limits, j: nat, m: nat)
    requires Roomy(config, limits) && j <= MostInFlight(config) && m <= config.maxPending && 4 + 2 * j + m < U64_LIMIT
    ensures Filled(Run(FreshStart(config, limits), Filling(j, m)), config, limits, j, m)
    decreases j, m
  {
    var s := FreshStart(config, limits);
    if m > 0 {
      FillingFills(config, limits, j, m - 1);
      FillingIsHonest(s, j, m - 1);
      OneMoreQueued(config, limits, Filling(j, m - 1), j, m - 1);
    } else if j > 0 {
      FillingFills(config, limits, j - 1, 0);
      OneMoreSent(config, limits, j);
    } else {
      RunSnoc(s, [], ModeOp(true));
      assert [] + [ModeOp(true)] == Filling(j, m);
    }
  }

  /** Runs from a fresh start that acknowledge honestly and drop nothing. */
  ghost predicate CleanRun(config: Config, limits: Limits, ops: seq<Op>) {
    var s := FreshStart(config, limits);
    HonestRun(s, ops) && Run(s, ops).stats.droppedRetries == 0 && 1 + |ops| < U64_LIMIT
  }

  ghost predicate LogSuffices(config: Config, limits: Limits) {
    forall ops :: CleanRun(config, limits, ops) ==>
      var s := Run(FreshStart(config, limits), ops); s.log.Some? && WithinLimit(s.log.value.records, limits.maxRecords)
  }

  /** The run that fills flight and queue up to a total. */
  lemma FillUp(config: Config, limits: Limits, total: nat) returns (ops: seq<Op>)
    requires config.Valid() && 0 < limits.maxPayload && limits.maxPayload + HEADER < U64_LIMIT
    requires total <= config.maxPending + MostInFlight(config) && 2 * total + 6 < U64_LIMIT
    ensures CleanRun(config, limits, ops)
    ensures var s := Run(FreshStart(config, limits), ops); s.log.Some? && s.log.value.limits == limits && |Live(s.log.value.records)| == total
  {
    var j := if MostInFlight(config) <= total then MostInFlight(config) else total;
    ops := Filling(j, total - j);
    FillingFills(config, limits, j, total - j);
    FillingIsHonest(FreshStart(config, limits), j, total - j);
  }

  /** The record limit suffices for every such run exactly when it covers a full queue and all that may be in flight. */
  lemma LogSufficesExactly(config: Config, limits: Limits)
    requires config.Valid() && 0 < limits.maxPayload && limits.maxPayload + HEADER < U64_LIMIT
    requires 2 * limits.maxRecords + 8 < U64_LIMIT
    ensures LogSuffices(config, limits) <==> config.maxPending + MostInFlight(config) <= limits.maxRecords
  {
    var s := FreshStart(config, limits);
    FreshIsSound(config, limits);
    if config.maxPending + MostInFlight(config) <= limits.maxRecords {
      forall ops | CleanRun(config, limits, ops)
        ensures Run(s, ops).log.Some? && WithinLimit(Run(s, ops).log.value.records, limits.maxRecords)
      {
        RoomForBothQueuesIsEnough(s, ops, 0, 0);
      }
    } else {
      var ops := FillUp(config, limits, limits.maxRecords + 1);
      assert CleanRun(config, limits, ops);
    }
  }

  /** With the default sizes, 4096 queued and 128 in flight over a log of 4096 records, it does not. */
  lemma DefaultLogIsTooSmall(resendAfter: nat, maxRetries: nat, maxPayload: nat)
    requires 0 < maxPayload < U64_LIMIT - HEADER && (resendAfter > 0 || maxRetries > 0)
    ensures !LogSuffices(Config(4096, maxPayload, 128, resendAfter, maxRetries), Limits(maxPayload, 4096))
  {
    LogSufficesExactly(Config(4096, maxPayload, 128, resendAfter, maxRetries), Limits(maxPayload, 4096));
  }

  // ---- ... but no log is enough for a restart ----

  /** A crash after any such run can be followed by a restart. */
  ghost predicate RestartsSuffice(config: Config, limits: Limits) {
    forall ops :: CleanRun(config, limits, ops) ==>
      var s := Run(FreshStart(config, limits), ops); s.log.Some? && WithWal(config, s.log.value).Ok?
  }

  /** However large the log: with something in flight and the queue full again, the restart is refused. */
  lemma RestartIsRefused(config: Config, limits: Limits) returns (ops: seq<Op>)
    requires config.Valid() && Patient(config) && 0 < limits.maxPayload && limits.maxPayload + HEADER < U64_LIMIT
    requires config.maxPending + MostInFlight(config) <= limits.maxRecords && 2 * limits.maxRecords + 8 < U64_LIMIT
    ensures CleanRun(config, limits, ops)
    ensures var s := Run(FreshStart(config, limits), ops);
      && s.log.Some? && WithinLimit(s.log.value.records, limits.maxRecords)
      && WithWal(config, s.log.value) == Err(Backpressure)
  {
    ops := FillUp(config, limits, config.maxPending + 1);
    FreshIsSound(config, limits);
    RoomForBothQueuesIsEnough(FreshStart(config, limits), ops, 0, 0);
    RestartExactly(config, Run(FreshStart(config, limits), ops).log.value);
  }

  /** Every crash can be recovered from exactly if packets are dropped in the pump that sends them and the log has room for the queue. */
  lemma RestartsSufficeExactly(config: Config, limits: Limits)
    requires config.Valid() && 0 < limits.maxPayload && limits.maxPayload + HEADER < U64_LIMIT
    requires 2 * limits.maxRecords + 8 < U64_LIMIT
    ensures RestartsSuffice(config, limits) <==> !Patient(config) && config.maxPending <= limits.maxRecords
  {
    var s := FreshStart(config, limits);
    FreshIsSound(config, limits);
    if config.maxPending + MostInFlight(config) > limits.maxRecords {
      var ops := FillUp(config, limits, limits.maxRecords + 1);
      RestartExactly(config, Run(s, ops).log.value);
      assert CleanRun(config, limits, ops);
    } else if Patient(config) {
      var ops := RestartIsRefused(config, limits);
      assert CleanRun(config, limits, ops);
    } else {
      forall ops | CleanRun(config, limits, ops) ensures Run(s, ops).log.Some? && WithWal(config, Run(s, ops).log.value).Ok? {
        RoomForBothQueuesIsEnough(s, ops, 0, 0);
        RunKeepsFlight(s, ops, 0);
        RunKeepsConfig(s, ops, 0);
        RunConserves(s, ops, 0);
        CrashRecoversTheQueues(s, ops, 0, 0, 0);
      }
    }
  }

  // ---- A restart that repeats a sequence number ----

  /** Queue one packet, send it, and have it acknowledged. */
  function SentAndAcknowledged(): seq<Op> {
    [ModeOp(true)] + [EnqueueOp(Event, 0, [1])] + [PumpOp([true], 0)] + [AckOp(1)]
  }

  function First(): SyncPacket { SyncPacket(1, 0, Event, 0, [1]) }

  lemma EnqueueFirst(config: Config, limits: Limits)
    requires Roomy(config, limits)
    ensures var s := FreshStart(config, limits).(online := true);
      Enqueue(s, Event, 0, [1]).0 == s.(nextSequence := 2, pending := [First()], stats := NoStats.(queued := 1), log := Some(Log(limits, [PacketRecord(First())])))
  {
    assert [] + [First()] == [First()] && [] + [PacketRecord(First())] == [PacketRecord(First())];
  }

  lemma PumpFirst(s: Rep)
    requires s.online && s.pending == [First()] && s.inFlight == [] && s.config.maxInFlight > 0 && Patient(s.config)
    ensures var t := Step(s, PumpOp([true], 0));
      t.pending == [] && t.inFlight == [InFlight(First(), 0, 0)] && t.config == s.config && t.log == s.log && t.nextSequence == s.nextSequence
  {
    var sent := [InFlight(First(), 0, 0)];
    assert [First()][1..] == [] && [] + sent == sent;
    assert SendFresh(s.config, [], sent, [true], 1, 0) == Fresh([], sent, 0, 1, false);
    NothingResent(s.config, sent, 1);
  }

  lemma QueueFirst(config: Config, limits: Limits)
    requires Roomy(config, limits)
    ensures Run(FreshStart(config, limits), [ModeOp(true)] + [EnqueueOp(Event, 0, [1])])
      == Enqueue(FreshStart(config, limits).(online := true), Event, 0, [1]).0
  {
    var s := FreshStart(config, limits);
    RunSnoc(s, [], ModeOp(true));
    assert [] + [ModeOp(true)] == [ModeOp(true)];
    RunSnoc(s, [ModeOp(true)], EnqueueOp(Event, 0, [1]));
  }

  lemma SendFirst(config: Config, limits: Limits)
    requires config.Valid() && Roomy(config, limits) && Patient(config)
    ensures var t := Run(FreshStart(config, limits), [ModeOp(true)] + [EnqueueOp(Event, 0, [1])] + [PumpOp([true], 0)]);
      && t.config == config && t.nextSequence == 2 && t.log == Some(Log(limits, [PacketRecord(First())]))
      && t.pending == [] && t.inFlight == [InFlight(First(), 0, 0)]
  {
    var s := FreshStart(config, limits);
    QueueFirst(config, limits);
    EnqueueFirst(config, limits);
    RunSnoc(s, [ModeOp(true)] + [EnqueueOp(Event, 0, [1])], PumpOp([true], 0));
    PumpFirst(Run(s, [ModeOp(true)] + [EnqueueOp(Event, 0, [1])]));
  }

  lemma FirstIsAcknowledged(limits: Limits)
    requires limits.maxRecords > 0
    ensures var records := [PacketRecord(First())] + [AckRecord(1)];
      Live(records) == [] && WithinLimit(records, limits.maxRecords)
  {
    var records := [PacketRecord(First())] + [AckRecord(1)];
    LiveAppend([], PacketRecord(First()));
    assert [] + [PacketRecord(First())] == [PacketRecord(First())];
    LiveAppend([PacketRecord(First())], AckRecord(1));
    RetainNone([First()], 1);
    assert records[..1] == [PacketRecord(First())] && records[..1][..0] == [];
  }

  /** After a restart the next packet gets number 1 again, which a receiver in the same session takes for a duplicate. */
  lemma RestartRepeatsSequence(config: Config, limits: Limits)
    requires config.Valid() && Roomy(config, limits) && Patient(config) && limits.maxRecords > 0
    ensures var s := FreshStart(config, limits);
      var t := Run(s, SentAndAcknowledged());
      && HonestRun(s, SentAndAcknowledged()) && t.nextSequence == 2
      && t.log.Some? && WithWal(config, t.log.value).Ok?
      && Enqueue(WithWal(config, t.log.value).value, Event, 0, [2]).1 == Ok(1)
  {
    var s, ops := FreshStart(config, limits), SentAndAcknowledged();
    var sent := [ModeOp(true)] + [EnqueueOp(Event, 0, [1])] + [PumpOp([true], 0)];
    SendFirst(config, limits);
    RunSnoc(s, sent, AckOp(1));
    assert ops == sent + [AckOp(1)] && ops[..3] == sent;
    FillingIsHonest(s, 1, 0);
    assert Filling(0, 0) == [ModeOp(true)];
    assert Filling(1, 0) == sent;
    FirstIsAcknowledged(limits);
    ReplayIsLive(Run(s, ops).log.value.records, limits.maxRecords);
  }

  // ---- Without that condition the order fails ----

  function TinyConfig(): Config { Config(4, 4, 4, 1, 1) }

  function TinyLog(): Log { Log(Limits(4, 4), []) }

  /** Two queued deltas, an acknowledgement ahead of anything sent, then both deltas again, newest first. */
  function EarlyAckOps(): seq<Op> {
    [DeltaOp(1, [7]), DeltaOp(2, [7]), AckOp(2), DeltaOp(2, [8]), DeltaOp(1, [8])]
  }

  lemma RunSnoc(s: Rep, ops: seq<Op>, op: Op)
    ensures Run(s, ops + [op]) == Step(Run(s, ops), op)
  {
    assert (ops + [op])[..|ops|] == ops;
  }

  function Tiny(sequence: u64, payload: byte): SyncPacket { SyncPacket(sequence, 0, Delta, sequence, [payload]) }

  function TinyState(next: u64, pending: seq<SyncPacket>, records: seq<Record>, queued: nat, coalesced: nat): Rep {
    Rep(TinyConfig(), false, next, 0, 0, pending, [], NoStats.(queued := queued, coalesced := coalesced), Some(TinyLog().(records := records)))
  }

  lemma TinyEnqueue(next: u64, pending: seq<SyncPacket>, records: seq<Record>, payload: byte)
    requires next < 3 && |pending| < 4 && FindDelta(pending, next).None?
    ensures Step(TinyState(next, pending, records, |pending|, 0), DeltaOp(next, [payload]))
            == TinyState(next + 1, pending + [Tiny(next, payload)], records + [PacketRecord(Tiny(next, payload))], |pending| + 1, 0)
  {
  }

  lemma TinyCoalesce(pending: seq<SyncPacket>, records: seq<Record>, key: u64, i: nat, payload: byte, coalesced: nat)
    requires FindDelta(pending, key) == Some(i) && pending[i].sequence == key && pending[i].ack == 0
    ensures Step(TinyState(3, pending, records, 2, coalesced), DeltaOp(key, [payload]))
            == TinyState(3, pending[i := Tiny(key, payload)], records + [PacketRecord(Tiny(key, payload))], 2, coalesced + 1)
  {
  }

  lemma TinyAck(pending: seq<SyncPacket>, records: seq<Record>)
    ensures Step(TinyState(3, pending, records, 2, 0), AckOp(2)) == TinyState(3, pending, records + [AckRecord(2)], 2, 0)
  {
  }

  function EarlyAckRecords(): seq<Record> {
    [PacketRecord(Tiny(1, 7))] + [PacketRecord(Tiny(2, 7))] + [AckRecord(2)] + [PacketRecord(Tiny(2, 8))] + [PacketRecord(Tiny(1, 8))]
  }

  lemma {:induction false} RetainNone(packets: seq<SyncPacket>, a: u64)
    requires forall i :: 0 <= i < |packets| ==> packets[i].sequence <= a
    ensures Retain(packets, a) == []
  {
    if packets != [] { RetainNone(packets[..|packets| - 1], a); }
  }

  lemma EarlyAckLive()
    ensures Live(EarlyAckRecords()) == [Tiny(2, 8), Tiny(1, 8)]
  {
    var r := EarlyAckRecords();
    LiveAppend([], r[0]);
    LiveAppend(r[..1], r[1]);
    LiveAppend(r[..2], r[2]);
    LiveAppend(r[..3], r[3]);
    LiveAppend(r[..4], r[4]);
    RecordPrefixes();
    assert Live(r[..2]) == [Tiny(1, 7), Tiny(2, 7)];
    RetainNone(Live(r[..2]), 2);
    assert Live(r[..4]) == [Tiny(2, 8)];
  }

  lemma OpPrefixes()
    ensures var ops := EarlyAckOps();
            && ops[..1] == [] + [ops[0]] && ops[..2] == ops[..1] + [ops[1]] && ops[..3] == ops[..2] + [ops[2]]
            && ops[..4] == ops[..3] + [ops[3]] && ops == ops[..4] + [ops[4]]
  {
  }

  lemma RecordPrefixes()
    ensures var r := EarlyAckRecords();
            && r[..1] == [] + [r[0]] && r[..2] == r[..1] + [r[1]] && r[..3] == r[..2] + [r[2]]
            && r[..4] == r[..3] + [r[3]] && r == r[..4] + [r[4]]
  {
  }

  lemma EarlyAckFirstHalf()
    ensures var s, ops, r := TinyState(1, [], [], 0, 0), EarlyAckOps(), EarlyAckRecords();
            && Run(s, ops[..2]) == TinyState(3, [Tiny(1, 7)] + [Tiny(2, 7)], r[..2], 2, 0)
            && Run(s, ops[..3]) == TinyState(3, [Tiny(1, 7)] + [Tiny(2, 7)], r[..3], 2, 0)
  {
    var s, ops, r := TinyState(1, [], [], 0, 0), EarlyAckOps(), EarlyAckRecords();
    OpPrefixes();
    RecordPrefixes();
    RunSnoc(s, [], ops[0]);
    TinyEnqueue(1, [], [], 7);
    assert [] + [Tiny(1, 7)] == [Tiny(1, 7)];
    RunSnoc(s, ops[..1], ops[1]);
    TinyEnqueue(2, [Tiny(1, 7)], r[..1], 7);
    RunSnoc(s, ops[..2], ops[2]);
    TinyAck([Tiny(1, 7)] + [Tiny(2, 7)], r[..2]);
  }

  lemma EarlyAckRun()
    ensures var s := TinyState(1, [], [], 0, 0);
            Run(s, EarlyAckOps()).log == Some(TinyLog().(records := EarlyAckRecords()))
  {
    var s, ops, r := TinyState(1, [], [], 0, 0), EarlyAckOps(), EarlyAckRecords();
    EarlyAckFirstHalf();
    OpPrefixes();
    RecordPrefixes();
    var pending := [Tiny(1, 7)] + [Tiny(2, 7)];
    RunSnoc(s, ops[..3], ops[3]);
    TinyCoalesce(pending, r[..3], 2, 1, 8, 0);
    RunSnoc(s, ops[..4], ops[4]);
    TinyCoalesce(pending[1 := Tiny(2, 8)], r[..4], 1, 0, 8, 1);
  }

  lemma EarlyAckIsDishonest()
    ensures !HonestRun(TinyState(1, [], [], 0, 0), EarlyAckOps())
  {
    EarlyAckFirstHalf();
    var s, ops := TinyState(1, [], [], 0, 0), EarlyAckOps();
    assert ops[..4][..3] == ops[..3] && ops[..3][..2] == ops[..2] && ops[..3][2] == AckOp(2);
    assert Run(s, ops[..2]).pending[0].sequence == 1;
    assert !HonestOp(Run(s, ops[..2]), AckOp(2));
    assert !HonestRun(s, ops[..3]) && !HonestRun(s, ops[..4]);
  }

  /** Acknowledging what was never sent makes the log replay out of order. */
  lemma EarlyAckBreaksOrder()
    ensures WithWal(TinyConfig(), TinyLog()).Ok?
    ensures var s := WithWal(TinyConfig(), TinyLog()).value;
            !HonestRun(s, EarlyAckOps()) && Run(s, EarlyAckOps()).log.Some?
            && !Rising(Live(Run(s, EarlyAckOps()).log.value.records))
  {
    EarlyAckIsDishonest();
    EarlyAckRun();
    EarlyAckLive();
    assert WithWal(TinyConfig(), TinyLog()) == Ok(TinyState(1, [], [], 0, 0));
    var live := Live(EarlyAckRecords());
    assert live[0].sequence > live[1].sequence;
  }
}
