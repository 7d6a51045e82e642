/** What the replicator takes in, from its user and from the other side (src/kernel/sync.rs). */
module SessionRules {
  import opened Wrappers
  import opened Packet
  import opened Wal
  import opened Replicator
  import opened ReplicatorRuns

  // ---- Receiving ----

  /** A packet from the other side whose payload is neither empty nor too large. */
  predicate Heard(s: Rep, op: Op) {
    op.ReceiveOp? && 1 <= |op.packet.payload| <= s.config.maxPayload
  }

  /** It is newer than the mark the session started with and than everything heard before it. */
  ghost predicate Newest(s: Rep, ops: seq<Op>, k: nat)
    requires k < |ops| && Heard(s, ops[k])
  {
    && s.lastReceived < ops[k].packet.sequence
    && forall j :: 0 <= j < k && Heard(s, ops[j]) ==> ops[j].packet.sequence < ops[k].packet.sequence
  }

  /** The mark is the highest sequence heard so far. */
  ghost predicate MarkIs(s: Rep, ops: seq<Op>, mark: nat) {
    && s.lastReceived <= mark
    && (forall j :: 0 <= j < |ops| && Heard(s, ops[j]) ==> ops[j].packet.sequence <= mark)
    && (mark == s.lastReceived || exists j :: 0 <= j < |ops| && Heard(s, ops[j]) && ops[j].packet.sequence == mark)
  }

  lemma StepMark(s: Rep, op: Op)
    requires !op.SessionOp?
    ensures Step(s, op).config == s.config
    ensures Step(s, op).lastReceived
      == if Heard(s, op) && s.lastReceived < op.packet.sequence then op.packet.sequence else s.lastReceived
  {
  }

  lemma MarkMoves(s: Rep, before: seq<Op>, op: Op, mark: nat)
    requires MarkIs(s, before, mark)
    ensures MarkIs(s, before + [op], if Heard(s, op) && mark < op.packet.sequence then op.packet.sequence else mark)
  {
    var ops := before + [op];
    assert ops[|before|] == op;
    if mark != s.lastReceived {
      var j :| 0 <= j < |before| && Heard(s, before[j]) && before[j].packet.sequence == mark;
      assert ops[j] == before[j];
    }
    forall j | 0 <= j < |ops| && Heard(s, ops[j]) ensures j < |before| ==> ops[j].packet.sequence <= mark {
      assert j < |before| ==> ops[j] == before[j];
    }
  }

  lemma {:induction false} MarkIsHighest(s: Rep, ops: seq<Op>)
    requires SameSession(ops)
    ensures Run(s, ops).config == s.config && MarkIs(s, ops, Run(s, ops).lastReceived)
  {
    if ops != [] {
      var n := |ops| - 1;
      MarkIsHighest(s, ops[..n]);
      StepMark(Run(s, ops[..n]), ops[n]);
      MarkMoves(s, ops[..n], ops[n], Run(s, ops[..n]).lastReceived);
      assert ops[..n] + [ops[n]] == ops;
    }
  }

  /** Within a session a packet is delivered exactly if it is well-formed and newer than every such packet before it. */
  lemma DeliveredExactly(s: Rep, ops: seq<Op>, k: nat)
    requires SameSession(ops) && k < |ops| && ops[k].ReceiveOp?
    ensures Receive(Run(s, ops[..k]), ops[k].packet).1 == if Heard(s, ops[k]) && Newest(s, ops, k) then Some(ops[k].packet) else None
  {
    var before := ops[..k];
    MarkIsHighest(s, before);
    var mark := Run(s, before).lastReceived;
    if mark != s.lastReceived {
      var j :| 0 <= j < k && Heard(s, before[j]) && before[j].packet.sequence == mark;
      assert ops[j] == before[j];
    }
    forall j | 0 <= j < k && Heard(s, ops[j]) ensures ops[j].packet.sequence <= mark {
      assert before[j] == ops[j];
    }
  }

  // ---- Queueing ----

  /** The log, if there is one, takes the packet. */
  predicate LogTakes(s: Rep, payload: seq<byte>) {
    s.log.Some? ==>
      && s.log.value.limits.maxPayload + HEADER < U64_LIMIT
      && 1 <= |payload| <= s.log.value.limits.maxPayload && |payload| + HEADER < U32_LIMIT
  }

  /** A payload is queued, under the next number and last in line, exactly if it is within its limit, there is room, and the log takes it. */
  lemma QueuedExactly(s: Rep, kind: SyncKind, key: u64, payload: seq<byte>)
    ensures var (s', r) := Enqueue(s, kind, key, payload);
      var ok := 1 <= |payload| <= s.config.maxPayload && |s.pending| < s.config.maxPending && LogTakes(s, payload);
      && r.Ok? == ok && s'.inFlight == s.inFlight
      && (ok ==> r.value == s.nextSequence && s'.pending == s.pending + [SyncPacket(s.nextSequence, s.lastReceived, kind, key, payload)])
      && (!ok ==> s'.pending == s.pending && s'.log == s.log)
      && (r == Err(EmptyPayload) <==> payload == [])
      && (r == Err(PayloadTooLarge) <==> |payload| > s.config.maxPayload > 0 || (payload != [] && s.config.maxPayload == 0))
      && (r == Err(Backpressure) <==> 1 <= |payload| <= s.config.maxPayload && |s.pending| >= s.config.maxPending)
  {
  }

  ghost predicate FirstDelta(pending: seq<SyncPacket>, key: u64, i: nat)
    requires i < |pending|
  {
    && pending[i].kind == Delta && pending[i].key == key
    && forall j :: 0 <= j < i ==> !(pending[j].kind == Delta && pending[j].key == key)
  }

  ghost predicate ReplacedAt(s: Rep, s': Rep, i: nat, payload: seq<byte>, sequence: u64)
    requires i < |s.pending|
  {
    sequence == s.pending[i].sequence && s'.pending == s.pending[i := s.pending[i].(payload := payload)]
  }

  /** A delta to a key that already waits as one takes no place in the queue: only the payload of the first such packet changes. */
  lemma CoalescedExactly(s: Rep, key: u64, payload: seq<byte>)
    requires 1 <= |payload| <= s.config.maxPayload && LogTakes(s, payload)
    requires exists i :: 0 <= i < |s.pending| && FirstDelta(s.pending, key, i)
    ensures var (s', r) := EnqueueDelta(s, key, payload);
      && r.Ok? && |s'.pending| == |s.pending| && s'.nextSequence == s.nextSequence && s'.inFlight == s.inFlight
      && exists i :: 0 <= i < |s.pending| && FirstDelta(s.pending, key, i) && ReplacedAt(s, s', i, payload, r.value)
  {
    var i := FindDelta(s.pending, key).value;
    assert FirstDelta(s.pending, key, i);
    var (s', r) := EnqueueDelta(s, key, payload);
    assert ReplacedAt(s, s', i, payload, r.value);
  }
}
