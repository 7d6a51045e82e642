/** What every run of the replicator keeps: conservation, bounded queues, and a log that covers the queues. */
module ReplicatorRuns {
  import opened Wrappers
  import opened Packet
  import opened Wal
  import opened Replicator

  datatype Op =
    | EnqueueOp(kind: SyncKind, key: u64, payload: seq<byte>)
    | DeltaOp(key: u64, payload: seq<byte>)
    | PumpOp(sends: seq<bool>, frame: nat)
    | AckOp(sequence: u64)
    | ReceiveOp(packet: SyncPacket)
    | ModeOp(online: bool)
    | SessionOp

  function Step(s: Rep, op: Op): Rep {
    match op
    case EnqueueOp(kind, key, payload) => Enqueue(s, kind, key, payload).0
    case DeltaOp(key, payload) => EnqueueDelta(s, key, payload).0
    case PumpOp(sends, frame) => Pump(s, sends, frame).0
    case AckOp(sequence) => Acknowledge(s, sequence).0
    case ReceiveOp(packet) => Receive(s, packet).0
    case ModeOp(online) => s.(online := online)
    case SessionOp => s.(lastReceived := 0, lastAckSent := 0)
  }

  function Run(s: Rep, ops: seq<Op>): Rep {
    if ops == [] then s else Step(Run(s, ops[..|ops| - 1]), ops[|ops| - 1])
  }

  // ---- Conservation and bounds ----

  /** sent = in flight + acknowledged + dropped, and queued + recovered = pending + sent. */
  predicate Conserved(s: Rep, recovered: nat) {
    && s.stats.sent == |s.inFlight| + s.stats.acknowledged + s.stats.droppedRetries
    && s.stats.queued + recovered == |s.pending| + s.stats.sent
  }

  predicate RetriesBounded(config: Config, items: seq<InFlight>) {
    forall i :: 0 <= i < |items| ==> items[i].retries <= config.maxRetries
  }

  predicate Bounded(s: Rep) {
    |s.pending| <= s.config.maxPending && |s.inFlight| <= s.config.maxInFlight && RetriesBounded(s.config, s.inFlight)
  }

  lemma {:induction false} SendFreshConserves(config: Config, pending: seq<SyncPacket>, inFlight: seq<InFlight>, sends: seq<bool>, k: nat, frame: nat)
    requires |inFlight| <= config.maxInFlight && RetriesBounded(config, inFlight)
    ensures var r := SendFresh(config, pending, inFlight, sends, k, frame);
            && |r.pending| + r.sent == |pending| && |r.inFlight| == |inFlight| + r.sent
            && |r.inFlight| <= config.maxInFlight && RetriesBounded(config, r.inFlight)
            && Carried(r.inFlight) + r.pending == Carried(inFlight) + pending
    decreases |pending|
  {
    if |inFlight| < config.maxInFlight && pending != [] && Answer(sends, k) {
      var next := inFlight + [InFlight(pending[0], frame, 0)];
      SendFreshConserves(config, pending[1..], next, sends, k + 1, frame);
      assert Carried(next) + pending[1..] == Carried(inFlight) + pending;
    }
  }

  lemma {:induction false} ResendConserves(config: Config, items: seq<InFlight>, sends: seq<bool>, k: nat, frame: nat)
    requires RetriesBounded(config, items)
    ensures var r := Resend(config, items, sends, k, frame);
            |r.items| == |items| && RetriesBounded(config, r.items) && Carried(r.items) == Carried(items)
  {
    if items != [] {
      var n := |items| - 1;
      ResendConserves(config, items[..n], sends, k, frame);
      assert Carried(items) == Carried(items[..n]) + [items[n].packet];
    }
  }

  lemma {:induction false} UnexpiredKeeps(config: Config, items: seq<InFlight>, frame: nat)
    requires RetriesBounded(config, items)
    ensures RetriesBounded(config, Unexpired(config, items, frame))
    ensures |Unexpired(config, items, frame)| == |items| ==> Unexpired(config, items, frame) == items
  {
    if items != [] {
      var n := |items| - 1;
      UnexpiredKeeps(config, items[..n], frame);
      assert items == items[..n] + [items[n]];
    }
  }

  lemma {:induction false} AboveKeeps(config: Config, items: seq<InFlight>, sequence: u64)
    requires RetriesBounded(config, items)
    ensures RetriesBounded(config, Above(items, sequence))
  {
    if items != [] {
      AboveKeeps(config, items[..|items| - 1], sequence);
    }
  }

  lemma PumpConserves(s: Rep, sends: seq<bool>, frame: nat, recovered: nat)
    requires Conserved(s, recovered) && Bounded(s)
    ensures var s' := Pump(s, sends, frame).0; Conserved(s', recovered) && Bounded(s') && s'.config == s.config
  {
    var first := SendFresh(s.config, s.pending, s.inFlight, sends, 0, frame);
    SendFreshConserves(s.config, s.pending, s.inFlight, sends, 0, frame);
    ResendConserves(s.config, first.inFlight, sends, first.attempts, frame);
    UnexpiredKeeps(s.config, Resend(s.config, first.inFlight, sends, first.attempts, frame).items, frame);
  }

  lemma StepConserves(s: Rep, op: Op, recovered: nat)
    requires Conserved(s, recovered) && Bounded(s)
    ensures Conserved(Step(s, op), recovered) && Bounded(Step(s, op)) && Step(s, op).config == s.config
  {
    match op
    case PumpOp(sends, frame) => PumpConserves(s, sends, frame, recovered);
    case AckOp(sequence) => AboveKeeps(s.config, s.inFlight, sequence);
    case ReceiveOp(packet) => AboveKeeps(s.config, s.inFlight, packet.ack);
    case _ =>
  }

  /** The counters balance and the queues stay within their limits in every run. */
  lemma {:induction false} RunConserves(s: Rep, ops: seq<Op>, recovered: nat)
    requires Conserved(s, recovered) && Bounded(s)
    ensures Conserved(Run(s, ops), recovered) && Bounded(Run(s, ops))
  {
    if ops != [] {
      RunConserves(s, ops[..|ops| - 1], recovered);
      StepConserves(Run(s, ops[..|ops| - 1]), ops[|ops| - 1], recovered);
    }
  }

  /** Both ways of starting are balanced: with `recovered` packets from a log, or with none. */
  lemma StartIsConserved(config: Config, log: Log)
    ensures New(config).Ok? <==> config.maxPending > 0 && config.maxPayload > 0 && config.maxInFlight > 0
    ensures New(config).Ok? ==> Conserved(New(config).value, 0) && Bounded(New(config).value) && New(config).value.nextSequence == 1
    ensures WithWal(config, log).Ok? ==>
              var s := WithWal(config, log).value; Conserved(s, |s.pending|) && Bounded(s)
  {
  }

  // ---- Accepted sequence numbers ----

  /** The sequence numbers that `receive` accepted during a run. */
  function Accepted(s: Rep, ops: seq<Op>): seq<u64> {
    if ops == [] then []
    else
      var before, op := ops[..|ops| - 1], ops[|ops| - 1];
      Accepted(s, before) + if op.ReceiveOp? && Receive(Run(s, before), op.packet).1.Some? then [op.packet.sequence] else []
  }

  predicate SameSession(ops: seq<Op>) { forall i :: 0 <= i < |ops| ==> !ops[i].SessionOp? }

  lemma StepMovesMark(s: Rep, op: Op)
    requires !op.SessionOp?
    ensures if op.ReceiveOp? && Receive(s, op.packet).1.Some?
            then s.lastReceived < op.packet.sequence == Step(s, op).lastReceived
            else Step(s, op).lastReceived == s.lastReceived
  {
  }

  lemma AppendRises(a: seq<u64>, x: u64, start: nat, now: nat)
    requires (forall i, j :: 0 <= i < j < |a| ==> a[i] < a[j]) && (forall i :: 0 <= i < |a| ==> start < a[i])
    requires now == (if a == [] then start else a[|a| - 1]) < x
    ensures var b := a + [x];
            && (forall i, j :: 0 <= i < j < |b| ==> b[i] < b[j])
            && (forall i :: 0 <= i < |b| ==> start < b[i])
            && b[|b| - 1] == x
  {
  }

  /** Within a session the accepted sequence numbers strictly increase, so no packet is delivered twice. */
  lemma {:induction false} AcceptedRise(s: Rep, ops: seq<Op>)
    requires SameSession(ops)
    ensures var a := Accepted(s, ops);
            && (forall i, j :: 0 <= i < j < |a| ==> a[i] < a[j])
            && (forall i :: 0 <= i < |a| ==> s.lastReceived < a[i])
            && Run(s, ops).lastReceived == if a == [] then s.lastReceived else a[|a| - 1]
  {
    if ops != [] {
      var before, op := ops[..|ops| - 1], ops[|ops| - 1];
      AcceptedRise(s, before);
      StepMovesMark(Run(s, before), op);
      if op.ReceiveOp? && Receive(Run(s, before), op.packet).1.Some? {
        AppendRises(Accepted(s, before), op.packet.sequence, s.lastReceived, Run(s, before).lastReceived);
      }
    }
  }

  // ---- The queues in sequence order ----

  function Carried(items: seq<InFlight>): (r: seq<SyncPacket>)
    ensures |r| == |items|
  {
    seq(|items|, i requires 0 <= i < |items| => items[i].packet)
  }

  /** Everything sent but unacknowledged, then everything waiting. */
  function PacketsOf(s: Rep): seq<SyncPacket> { Carried(s.inFlight) + s.pending }

  ghost predicate Rising(packets: seq<SyncPacket>) {
    forall i, j :: 0 <= i < j < |packets| ==> packets[i].sequence < packets[j].sequence
  }

  ghost predicate Below(packets: seq<SyncPacket>, limit: nat) {
    forall i :: 0 <= i < |packets| ==> packets[i].sequence < limit
  }

  lemma {:induction false} UnexpiredRises(config: Config, items: seq<InFlight>, frame: nat, tail: seq<SyncPacket>)
    requires Rising(Carried(items) + tail)
    ensures Rising(Carried(Unexpired(config, items, frame)) + tail)
    ensures forall p :: p in Carried(Unexpired(config, items, frame)) ==> p in Carried(items)
    decreases |items|
  {
    if items != [] {
      var before, last := items[..|items| - 1], items[|items| - 1];
      var all := Carried(items) + tail;
      assert Carried(items) == Carried(before) + [last.packet];
      assert all == Carried(before) + ([last.packet] + tail);
      assert Rising(Carried(before) + tail) by {
        forall i, j | 0 <= i < j < |Carried(before) + tail|
          ensures (Carried(before) + tail)[i].sequence < (Carried(before) + tail)[j].sequence
        {
          var i', j' := if i < |before| then i else i + 1, if j < |before| then j else j + 1;
          assert all[i'].sequence < all[j'].sequence;
        }
      }
      var left := Unexpired(config, before, frame);
      if Expired(config, last, frame) {
        UnexpiredRises(config, before, frame, tail);
      } else {
        UnexpiredRises(config, before, frame, [last.packet] + tail);
        assert Carried(left + [last]) == Carried(left) + [last.packet];
        assert Carried(left + [last]) + tail == Carried(left) + ([last.packet] + tail);
      }
    }
  }

  lemma {:induction false} AboveRises(items: seq<InFlight>, sequence: u64, tail: seq<SyncPacket>)
    requires Rising(Carried(items) + tail)
    ensures Rising(Carried(Above(items, sequence)) + tail)
    ensures forall p :: p in Carried(Above(items, sequence)) <==> p in Carried(items) && p.sequence > sequence
    decreases |items|
  {
    if items != [] {
      var before, last := items[..|items| - 1], items[|items| - 1];
      var all := Carried(items) + tail;
      assert Carried(items) == Carried(before) + [last.packet];
      assert all == Carried(before) + ([last.packet] + tail);
      var left := Above(before, sequence);
      assert Carried(left + [last]) == Carried(left) + [last.packet];
      if last.packet.sequence <= sequence {
        assert Rising(Carried(before) + tail) by {
          forall i, j | 0 <= i < j < |Carried(before) + tail|
            ensures (Carried(before) + tail)[i].sequence < (Carried(before) + tail)[j].sequence
          {
            var i', j' := if i < |before| then i else i + 1, if j < |before| then j else j + 1;
            assert all[i'].sequence < all[j'].sequence;
          }
        }
        AboveRises(before, sequence, tail);
      } else {
        AboveRises(before, sequence, [last.packet] + tail);
        assert Carried(left + [last]) + tail == Carried(left) + ([last.packet] + tail);
      }
    }
  }

  // ---- What the log says ----

  /** The effect of one record, without the limit. */
  function After(pending: seq<SyncPacket>, r: Record): seq<SyncPacket> {
    match r
    case PacketRecord(p) => Put(pending, p)
    case AckRecord(sequence) => Retain(pending, sequence)
  }

  /** The replay of a log without its record limit. */
  function Live(records: seq<Record>): seq<SyncPacket> {
    if records == [] then [] else After(Live(records[..|records| - 1]), records[|records| - 1])
  }

  /** The unacknowledged packets never exceeded the limit. */
  predicate WithinLimit(records: seq<Record>, maxRecords: nat) {
    |Live(records)| <= maxRecords && (records == [] || WithinLimit(records[..|records| - 1], maxRecords))
  }

  lemma {:induction false} WithinLimitMeans(records: seq<Record>, maxRecords: nat)
    ensures WithinLimit(records, maxRecords) <==> forall k :: 0 <= k <= |records| ==> |Live(records[..k])| <= maxRecords
  {
    assert records[..|records|] == records;
    if records != [] {
      var before := records[..|records| - 1];
      WithinLimitMeans(before, maxRecords);
      assert forall k :: 0 <= k < |records| ==> records[..k] == before[..k];
    }
  }

  lemma ApplyIsBounded(pending: seq<SyncPacket>, r: Record, maxRecords: nat)
    requires |pending| <= maxRecords
    ensures var next := After(pending, r);
            Apply(pending, r, maxRecords) == if |next| <= maxRecords then Ok(next) else Err(TooManyRecords)
  {
    if r.AckRecord? {
      RetainMembers(pending, r.sequence);
    }
  }

  /** Replay succeeds exactly when the unacknowledged packets never exceeded the limit, and then returns them. */
  lemma {:induction false} ReplayIsLive(records: seq<Record>, maxRecords: nat)
    ensures Fold([], records, maxRecords) == if WithinLimit(records, maxRecords) then Ok(Live(records)) else Err(TooManyRecords)
  {
    if records != [] {
      var before, last := records[..|records| - 1], records[|records| - 1];
      ReplayIsLive(before, maxRecords);
      assert records == before + [last];
      FoldAppend([], before, [last], maxRecords);
      if WithinLimit(before, maxRecords) {
        FoldSingle(Live(before), last, maxRecords);
        ApplyIsBounded(Live(before), last, maxRecords);
      }
    }
  }
}
