/** Every transmission of a run: how often a packet is sent, and how far apart (src/kernel/sync.rs). */
module Transmissions {
  import opened Wrappers
  import opened Packet
  import opened Wal
  import opened Replicator
  import opened ReplicatorRuns
  import opened PumpRules

  /** A send that the transport answered. */
  datatype Sending = Sending(sequence: u64, frame: nat)

  /** The first `n` queued packets are sent. */
  function FreshSendings(pending: seq<SyncPacket>, n: nat, frame: nat): seq<Sending>
    requires n <= |pending|
  {
    if n == 0 then [] else FreshSendings(pending, n - 1, frame) + [Sending(pending[n - 1].sequence, frame)]
  }

  /** Those of the first `n` items that were sent once more. */
  function Resendings(items: seq<InFlight>, after: seq<InFlight>, n: nat, frame: nat): seq<Sending>
    requires n <= |items| == |after|
  {
    if n == 0 then []
    else Resendings(items, after, n - 1, frame)
         + if after[n - 1].retries != items[n - 1].retries then [Sending(items[n - 1].packet.sequence, frame)] else []
  }

  /** What one operation sends. */
  ghost function SentBy(s: Rep, op: Op): seq<Sending> {
    if !op.PumpOp? || !s.online then []
    else
      FreshSentExactly(s.config, s.pending, s.inFlight, op.sends, 0, op.frame);
      var first := SendFresh(s.config, s.pending, s.inFlight, op.sends, 0, op.frame);
      RetriedExactly(s.config, first.inFlight, op.sends, first.attempts, op.frame);
      var after := Resend(s.config, first.inFlight, op.sends, first.attempts, op.frame).items;
      FreshSendings(s.pending, first.sent, op.frame) + Resendings(first.inFlight, after, |after|, op.frame)
  }

  ghost function Sendings(s: Rep, ops: seq<Op>): seq<Sending> {
    if ops == [] then [] else Sendings(s, ops[..|ops| - 1]) + SentBy(Run(s, ops[..|ops| - 1]), ops[|ops| - 1])
  }

  /** How often the packet with this number was sent. */
  function Times(sendings: seq<Sending>, sequence: u64): nat {
    if sendings == [] then 0
    else Times(sendings[..|sendings| - 1], sequence) + if sendings[|sendings| - 1].sequence == sequence then 1 else 0
  }

  // ---- What the queues know of the sendings ----

  /** The queues are in sequence order, and every packet's sendings are on record. */
  ghost predicate Recorded(config: Config, pending: seq<SyncPacket>, inFlight: seq<InFlight>, next: nat, h: seq<Sending>) {
    Rising(Carried(inFlight) + pending) && forall q :: RecordedFor(config, pending, inFlight, next, h, q)
  }

  /**
    * Packet `q`: while queued it was never sent; in flight it was sent once and as often again as its item counts, last at
    * `lastSent`; it is never sent more often than its retries allow, nor too soon.
    */
  ghost predicate RecordedFor(config: Config, pending: seq<SyncPacket>, inFlight: seq<InFlight>, next: nat, h: seq<Sending>, q: u64) {
    && (forall p :: p in pending && p.sequence == q ==> q < next && Times(h, q) == 0)
    && (forall e :: e in inFlight && e.packet.sequence == q ==> q < next && SentAsCounted(config, e, h))
    && Times(h, q) <= config.maxRetries + 1 && (Times(h, q) > 0 ==> q < next)
    && (config.resendAfter > 0 ==> SpacedFor(h, config.resendAfter, q))
  }

  ghost predicate SentAsCounted(config: Config, e: InFlight, h: seq<Sending>) {
    && Times(h, e.packet.sequence) == e.retries + 1 <= config.maxRetries + 1
    && (config.resendAfter > 0 ==> forall i :: 0 <= i < |h| && h[i].sequence == e.packet.sequence ==> h[i].frame <= e.lastSent)
  }

  /** Two sends of packet `q` are at least `delay` frames apart. */
  ghost predicate SpacedFor(h: seq<Sending>, delay: nat, q: u64) {
    forall i, j :: 0 <= i < j < |h| && h[i].sequence == q == h[j].sequence ==> h[i].frame + delay <= h[j].frame
  }

  lemma {:induction false} TimesCounts(h: seq<Sending>, sequence: u64)
    ensures Times(h, sequence) == 0 <==> forall i :: 0 <= i < |h| ==> h[i].sequence != sequence
  {
    if h != [] { TimesCounts(h[..|h| - 1], sequence); }
  }

  lemma TimesSnoc(h: seq<Sending>, e: Sending, q: u64)
    ensures Times(h + [e], q) == Times(h, q) + if q == e.sequence then 1 else 0
  {
    assert (h + [e])[..|h|] == h;
  }

  lemma SequencesDiffer(inFlight: seq<InFlight>, pending: seq<SyncPacket>)
    requires Rising(Carried(inFlight) + pending)
    ensures forall i, j :: 0 <= i < j < |inFlight| ==> inFlight[i].packet.sequence < inFlight[j].packet.sequence
    ensures forall i, j :: 0 <= i < |inFlight| && 0 <= j < |pending| ==> inFlight[i].packet.sequence < pending[j].sequence
    ensures forall i, j :: 0 <= i < j < |pending| ==> pending[i].sequence < pending[j].sequence
  {
    var all := Carried(inFlight) + pending;
    assert forall i :: 0 <= i < |inFlight| ==> all[i] == inFlight[i].packet;
    assert forall j :: 0 <= j < |pending| ==> all[|inFlight| + j] == pending[j];
  }

  lemma SendOne(config: Config, pending: seq<SyncPacket>, inFlight: seq<InFlight>, next: nat, h: seq<Sending>, frame: nat)
    requires Recorded(config, pending, inFlight, next, h) && pending != []
    ensures Recorded(config, pending[1..], inFlight + [InFlight(pending[0], frame, 0)], next, h + [Sending(pending[0].sequence, frame)])
  {
    var first, item, e := pending[0], InFlight(pending[0], frame, 0), Sending(pending[0].sequence, frame);
    SequencesDiffer(inFlight, pending);
    assert Carried(inFlight + [item]) + pending[1..] == Carried(inFlight) + pending;
    forall q ensures RecordedFor(config, pending[1..], inFlight + [item], next, h + [e], q) {
      assert RecordedFor(config, pending, inFlight, next, h, q);
      TimesSnoc(h, e, q);
      TimesCounts(h, q);
      assert first in pending;
      forall p | p in pending[1..] ensures p.sequence != e.sequence && p in pending {
        var j :| 0 <= j < |pending[1..]| && pending[1..][j] == p;
        assert p == pending[j + 1];
      }
      forall x | x in inFlight ensures x.packet.sequence != e.sequence {
        var i :| 0 <= i < |inFlight| && inFlight[i] == x;
      }
    }
  }

  lemma RetryOne(config: Config, pending: seq<SyncPacket>, inFlight: seq<InFlight>, next: nat, h: seq<Sending>, frame: nat, j: nat)
    requires Recorded(config, pending, inFlight, next, h) && j < |inFlight| && MustRetry(config, inFlight[j], frame)
    ensures Recorded(config, pending, inFlight[j := AfterRetry(inFlight[j], frame, true)], next, h + [Sending(inFlight[j].packet.sequence, frame)])
  {
    var item, e := inFlight[j], Sending(inFlight[j].packet.sequence, frame);
    var after := inFlight[j := AfterRetry(item, frame, true)];
    SequencesDiffer(inFlight, pending);
    assert Carried(after) == Carried(inFlight);
    forall q ensures RecordedFor(config, pending, after, next, h + [e], q) {
      assert RecordedFor(config, pending, inFlight, next, h, q);
      TimesSnoc(h, e, q);
      assert item in inFlight;
      forall x | x in after ensures x == after[j] || (x in inFlight && x.packet.sequence != e.sequence) {
        var i :| 0 <= i < |after| && after[i] == x;
      }
      forall p | p in pending ensures p.sequence != e.sequence {
        var i :| 0 <= i < |pending| && pending[i] == p;
      }
    }
  }

  lemma {:induction false} SendMany(config: Config, pending: seq<SyncPacket>, inFlight: seq<InFlight>, next: nat, h: seq<Sending>, frame: nat, n: nat)
    requires Recorded(config, pending, inFlight, next, h) && n <= |pending|
    ensures Recorded(config, pending[n..], inFlight + SentItems(pending, n, frame), next,
                     h + FreshSendings(pending, n, frame))
  {
    if n == 0 {
      assert pending[0..] == pending && inFlight + [] == inFlight && h + [] == h;
    } else {
      SendMany(config, pending, inFlight, next, h, frame, n - 1);
      var sent := inFlight + SentItems(pending, n - 1, frame);
      SendOne(config, pending[n - 1..], sent, next, h + FreshSendings(pending, n - 1, frame), frame);
      assert pending[n - 1..][1..] == pending[n..];
      assert sent + [InFlight(pending[n - 1], frame, 0)] == inFlight + SentItems(pending, n, frame);
      assert h + FreshSendings(pending, n - 1, frame) + [Sending(pending[n - 1].sequence, frame)] == h + FreshSendings(pending, n, frame);
    }
  }

  /** The first `n` items have been looked at. */
  ghost predicate RetryStage(config: Config, pending: seq<SyncPacket>, items: seq<InFlight>, next: nat, h: seq<Sending>,
                             after: seq<InFlight>, frame: nat, n: nat)
    requires n <= |items| == |after|
  {
    Recorded(config, pending, after[..n] + items[n..], next, h + Resendings(items, after, n, frame))
  }

  lemma {:induction false} RetryMany(config: Config, pending: seq<SyncPacket>, items: seq<InFlight>, next: nat, h: seq<Sending>,
                                     sends: seq<bool>, k: nat, frame: nat, r: Resent, n: nat)
    requires Retried(config, items, sends, k, frame, r) && n <= |items| && RetryStage(config, pending, items, next, h, r.items, frame, 0)
    ensures RetryStage(config, pending, items, next, h, r.items, frame, n)
  {
    if n > 0 {
      RetryMany(config, pending, items, next, h, sends, k, frame, r, n - 1);
      RetryNext(config, pending, items, next, h, sends, k, frame, r, n - 1);
    }
  }

  lemma RetryMaybe(config: Config, pending: seq<SyncPacket>, inFlight: seq<InFlight>, next: nat, h: seq<Sending>, frame: nat, j: nat, succeeds: bool)
    requires Recorded(config, pending, inFlight, next, h) && j < |inFlight| && (succeeds ==> MustRetry(config, inFlight[j], frame))
    ensures Recorded(config, pending, inFlight[j := AfterRetry(inFlight[j], frame, succeeds)], next,
                     h + if succeeds then [Sending(inFlight[j].packet.sequence, frame)] else [])
  {
    if succeeds {
      RetryOne(config, pending, inFlight, next, h, frame, j);
    } else {
      assert inFlight[j := inFlight[j]] == inFlight && h + [] == h;
    }
  }

  lemma RetryNext(config: Config, pending: seq<SyncPacket>, items: seq<InFlight>, next: nat, h: seq<Sending>,
                  sends: seq<bool>, k: nat, frame: nat, r: Resent, m: nat)
    requires Retried(config, items, sends, k, frame, r) && m < |items| && RetryStage(config, pending, items, next, h, r.items, frame, m)
    ensures RetryStage(config, pending, items, next, h, r.items, frame, m + 1)
  {
    var succeeds := RetrySucceeds(config, items, sends, k, frame, m);
    NextItem(items, r.items, m);
    NextSending(items, r.items, m, frame, h, succeeds);
    RetryMaybe(config, pending, r.items[..m] + items[m..], next, h + Resendings(items, r.items, m, frame), frame, m, succeeds);
  }

  lemma NextSending(items: seq<InFlight>, after: seq<InFlight>, m: nat, frame: nat, h: seq<Sending>, succeeds: bool)
    requires m < |items| == |after| && after[m] == AfterRetry(items[m], frame, succeeds)
    ensures h + Resendings(items, after, m + 1, frame)
      == h + Resendings(items, after, m, frame) + if succeeds then [Sending(items[m].packet.sequence, frame)] else []
  {
  }

  lemma NextItem(items: seq<InFlight>, after: seq<InFlight>, m: nat)
    requires m < |items| == |after|
    ensures var before := after[..m] + items[m..];
      |before| == |items| && before[m] == items[m] && after[..m + 1] + items[m + 1..] == before[m := after[m]]
    ensures after[m] == items[m] ==> after[..m + 1] + items[m + 1..] == after[..m] + items[m..]
  {
  }

  /** Giving items up, or having them acknowledged, forgets nothing of what was sent. */
  lemma FewerInFlight(config: Config, pending: seq<SyncPacket>, inFlight: seq<InFlight>, left: seq<InFlight>, next: nat, h: seq<Sending>)
    requires Recorded(config, pending, inFlight, next, h)
    requires Rising(Carried(left) + pending) && forall e :: e in left ==> e in inFlight
    ensures Recorded(config, pending, left, next, h)
  {
    forall q ensures RecordedFor(config, pending, left, next, h, q) {
      assert RecordedFor(config, pending, inFlight, next, h, q);
    }
  }

  lemma {:induction false} UnexpiredItems(config: Config, items: seq<InFlight>, frame: nat)
    ensures forall e :: e in Unexpired(config, items, frame) ==> e in items
  {
    if items != [] { UnexpiredItems(config, items[..|items| - 1], frame); }
  }

  lemma {:induction false} AboveItems(items: seq<InFlight>, sequence: u64)
    ensures forall e :: e in Above(items, sequence) ==> e in items
  {
    if items != [] { AboveItems(items[..|items| - 1], sequence); }
  }

  // ---- Every operation ----

  ghost predicate RecordedIn(s: Rep, h: seq<Sending>) {
    Recorded(s.config, s.pending, s.inFlight, s.nextSequence, h)
  }

  lemma PumpRecords(s: Rep, sends: seq<bool>, frame: nat, h: seq<Sending>)
    requires RecordedIn(s, h) && s.online
    ensures RecordedIn(Pump(s, sends, frame).0, h + SentBy(s, PumpOp(sends, frame)))
  {
    var first := SendFresh(s.config, s.pending, s.inFlight, sends, 0, frame);
    var sent := FreshRecords(s, sends, frame, h);
    var again := RetryRecords(s.config, first.pending, first.inFlight, s.nextSequence, h + sent, sends, first.attempts, frame);
    assert h + sent + again == h + SentBy(s, PumpOp(sends, frame));
    var items := Resend(s.config, first.inFlight, sends, first.attempts, frame).items;
    DropRecords(s.config, first.pending, items, s.nextSequence, h + sent + again, frame);
  }

  lemma FreshRecords(s: Rep, sends: seq<bool>, frame: nat, h: seq<Sending>) returns (sent: seq<Sending>)
    requires RecordedIn(s, h)
    ensures var first := SendFresh(s.config, s.pending, s.inFlight, sends, 0, frame);
      && first.sent <= |s.pending| && sent == FreshSendings(s.pending, first.sent, frame)
      && Recorded(s.config, first.pending, first.inFlight, s.nextSequence, h + sent)
  {
    FreshSentExactly(s.config, s.pending, s.inFlight, sends, 0, frame);
    var first := SendFresh(s.config, s.pending, s.inFlight, sends, 0, frame);
    SendMany(s.config, s.pending, s.inFlight, s.nextSequence, h, frame, first.sent);
    assert first.inFlight == s.inFlight + SentItems(s.pending, first.sent, frame) && first.pending == s.pending[first.sent..];
    sent := FreshSendings(s.pending, first.sent, frame);
  }

  lemma RetryRecords(config: Config, pending: seq<SyncPacket>, items: seq<InFlight>, next: nat, h: seq<Sending>, sends: seq<bool>, k: nat, frame: nat)
    returns (sent: seq<Sending>)
    requires Recorded(config, pending, items, next, h)
    ensures var after := Resend(config, items, sends, k, frame).items;
      && |after| == |items| && sent == Resendings(items, after, |after|, frame)
      && Recorded(config, pending, after, next, h + sent)
  {
    RetriedExactly(config, items, sends, k, frame);
    var r := Resend(config, items, sends, k, frame);
    var n := |items|;
    assert r.items[..0] + items[0..] == items && h + [] == h;
    RetryMany(config, pending, items, next, h, sends, k, frame, r, n);
    assert r.items[..n] + items[n..] == r.items;
    sent := Resendings(items, r.items, n, frame);
  }

  lemma DropRecords(config: Config, pending: seq<SyncPacket>, items: seq<InFlight>, next: nat, h: seq<Sending>, frame: nat)
    requires Recorded(config, pending, items, next, h)
    ensures Recorded(config, pending, Unexpired(config, items, frame), next, h)
  {
    UnexpiredRises(config, items, frame, pending);
    UnexpiredItems(config, items, frame);
    FewerInFlight(config, pending, items, Unexpired(config, items, frame), next, h);
  }

  lemma EnqueueRecords(s: Rep, kind: SyncKind, key: u64, payload: seq<byte>, h: seq<Sending>)
    requires RecordedIn(s, h) && s.nextSequence + 1 < U64_LIMIT
    ensures RecordedIn(Enqueue(s, kind, key, payload).0, h)
  {
    var s' := Enqueue(s, kind, key, payload).0;
    AllBelow(s, h);
    var all, all' := Carried(s.inFlight) + s.pending, Carried(s'.inFlight) + s'.pending;
    assert |all'| == |all| || all' == all + [all'[|all|]];
    forall q ensures RecordedFor(s'.config, s'.pending, s'.inFlight, s'.nextSequence, h, q) {
      assert RecordedFor(s.config, s.pending, s.inFlight, s.nextSequence, h, q);
    }
  }

  lemma AllBelow(s: Rep, h: seq<Sending>)
    requires RecordedIn(s, h)
    ensures Below(Carried(s.inFlight) + s.pending, s.nextSequence)
  {
    forall i | 0 <= i < |s.inFlight| ensures s.inFlight[i].packet.sequence < s.nextSequence {
      assert s.inFlight[i] in s.inFlight;
      assert RecordedFor(s.config, s.pending, s.inFlight, s.nextSequence, h, s.inFlight[i].packet.sequence);
    }
    forall i | 0 <= i < |s.pending| ensures s.pending[i].sequence < s.nextSequence {
      assert s.pending[i] in s.pending;
      assert RecordedFor(s.config, s.pending, s.inFlight, s.nextSequence, h, s.pending[i].sequence);
    }
  }

  lemma CoalesceRecords(s: Rep, i: nat, payload: seq<byte>, h: seq<Sending>)
    requires RecordedIn(s, h) && i < |s.pending|
    ensures RecordedIn(Coalesce(s, i, payload).0, h)
  {
    var s' := Coalesce(s, i, payload).0;
    var all, all' := Carried(s.inFlight) + s.pending, Carried(s'.inFlight) + s'.pending;
    assert |all'| == |all| && forall k :: 0 <= k < |all| ==> all'[k].sequence == all[k].sequence;
    forall q ensures RecordedFor(s'.config, s'.pending, s'.inFlight, s'.nextSequence, h, q) {
      assert RecordedFor(s.config, s.pending, s.inFlight, s.nextSequence, h, q);
      forall p | p in s'.pending ensures exists o :: o in s.pending && o.sequence == p.sequence {
        var k :| 0 <= k < |s'.pending| && s'.pending[k] == p;
        assert s.pending[k] in s.pending;
      }
    }
  }

  lemma AcknowledgeRecords(s: Rep, sequence: u64, h: seq<Sending>)
    requires RecordedIn(s, h)
    ensures RecordedIn(Acknowledge(s, sequence).0, h)
  {
    AboveRises(s.inFlight, sequence, s.pending);
    AboveItems(s.inFlight, sequence);
    FewerInFlight(s.config, s.pending, s.inFlight, Above(s.inFlight, sequence), s.nextSequence, h);
  }

  lemma DeltaRecords(s: Rep, key: u64, payload: seq<byte>, h: seq<Sending>)
    requires RecordedIn(s, h) && s.nextSequence + 1 < U64_LIMIT
    ensures RecordedIn(EnqueueDelta(s, key, payload).0, h)
  {
    EnqueueRecords(s, Delta, key, payload, h);
    var found := FindDelta(s.pending, key);
    if found.Some? { CoalesceRecords(s, found.value, payload, h); }
  }

  lemma ReceiveRecords(s: Rep, packet: SyncPacket, h: seq<Sending>)
    requires RecordedIn(s, h)
    ensures RecordedIn(Receive(s, packet).0, h)
  {
    AcknowledgeRecords(s.(lastReceived := packet.sequence), packet.ack, h);
  }

  lemma StepRecords(s: Rep, op: Op, h: seq<Sending>)
    requires RecordedIn(s, h) && s.nextSequence + 1 < U64_LIMIT
    ensures RecordedIn(Step(s, op), h + SentBy(s, op))
  {
    if op.PumpOp? && s.online {
      PumpRecords(s, op.sends, op.frame, h);
    } else {
      assert h + SentBy(s, op) == h;
      match op
      case EnqueueOp(kind, key, payload) => EnqueueRecords(s, kind, key, payload, h);
      case DeltaOp(key, payload) => DeltaRecords(s, key, payload, h);
      case AckOp(sequence) => AcknowledgeRecords(s, sequence, h);
      case ReceiveOp(packet) => ReceiveRecords(s, packet, h);
      case _ =>
    }
  }

  lemma StepCounts(s: Rep, op: Op)
    requires s.nextSequence + 1 < U64_LIMIT
    ensures Step(s, op).config == s.config && Step(s, op).nextSequence <= s.nextSequence + 1
  {
  }

  /** A replicator that has sent nothing yet: new, or restarted over its log. */
  ghost predicate NothingSent(s: Rep) {
    s.inFlight == [] && Rising(s.pending) && Below(s.pending, s.nextSequence)
  }

  lemma {:induction false} RunRecords(s: Rep, ops: seq<Op>)
    requires NothingSent(s) && s.nextSequence + |ops| < U64_LIMIT
    ensures RecordedIn(Run(s, ops), Sendings(s, ops))
    ensures Run(s, ops).config == s.config && Run(s, ops).nextSequence <= s.nextSequence + |ops|
  {
    if ops == [] {
      assert Carried([]) + s.pending == s.pending;
      forall q ensures RecordedFor(s.config, s.pending, s.inFlight, s.nextSequence, [], q) {
        forall p | p in s.pending ensures p.sequence < s.nextSequence {
          var i :| 0 <= i < |s.pending| && s.pending[i] == p;
        }
      }
    } else {
      RunRecords(s, ops[..|ops| - 1]);
      StepCounts(Run(s, ops[..|ops| - 1]), ops[|ops| - 1]);
      StepRecords(Run(s, ops[..|ops| - 1]), ops[|ops| - 1], Sendings(s, ops[..|ops| - 1]));
    }
  }

  /** Over every run: no packet is sent more than once and its retries, and two sends of one packet are the resend delay apart. */
  lemma SendsAreFewAndSpaced(s: Rep, ops: seq<Op>, sequence: u64)
    requires NothingSent(s) && s.nextSequence + |ops| < U64_LIMIT
    ensures Times(Sendings(s, ops), sequence) <= 1 + s.config.maxRetries
    ensures s.config.resendAfter > 0 ==> SpacedFor(Sendings(s, ops), s.config.resendAfter, sequence)
  {
    RunRecords(s, ops);
    var s' := Run(s, ops);
    assert RecordedFor(s'.config, s'.pending, s'.inFlight, s'.nextSequence, Sendings(s, ops), sequence);
  }

  lemma {:induction false} FreshSendingsSize(pending: seq<SyncPacket>, n: nat, frame: nat)
    requires n <= |pending|
    ensures |FreshSendings(pending, n, frame)| == n
  {
    if n > 0 { FreshSendingsSize(pending, n - 1, frame); }
  }

  lemma {:induction false} ResendingsSize(config: Config, items: seq<InFlight>, sends: seq<bool>, k: nat, frame: nat, r: Resent, n: nat)
    requires Retried(config, items, sends, k, frame, r) && n <= |items|
    ensures |Resendings(items, r.items, n, frame)| == RetriesDone(config, items, sends, k, frame, n)
  {
    if n > 0 {
      ResendingsSize(config, items, sends, k, frame, r, n - 1);
      assert r.items[n - 1] == AfterRetry(items[n - 1], frame, RetrySucceeds(config, items, sends, k, frame, n - 1));
    }
  }

  lemma StepCountsSendings(s: Rep, op: Op)
    ensures Step(s, op).stats.sent + Step(s, op).stats.resent == s.stats.sent + s.stats.resent + |SentBy(s, op)|
  {
    if op.PumpOp? && s.online {
      FreshSentExactly(s.config, s.pending, s.inFlight, op.sends, 0, op.frame);
      var first := SendFresh(s.config, s.pending, s.inFlight, op.sends, 0, op.frame);
      RetriedExactly(s.config, first.inFlight, op.sends, first.attempts, op.frame);
      FreshSendingsSize(s.pending, first.sent, op.frame);
      var r := Resend(s.config, first.inFlight, op.sends, first.attempts, op.frame);
      ResendingsSize(s.config, first.inFlight, op.sends, first.attempts, op.frame, r, |first.inFlight|);
    }
  }

  /** The counters of first and repeated sends count exactly the transmissions. */
  lemma {:induction false} CountersCountSendings(s: Rep, ops: seq<Op>)
    ensures Run(s, ops).stats.sent + Run(s, ops).stats.resent == s.stats.sent + s.stats.resent + |Sendings(s, ops)|
  {
    if ops != [] {
      CountersCountSendings(s, ops[..|ops| - 1]);
      StepCountsSendings(Run(s, ops[..|ops| - 1]), ops[|ops| - 1]);
    }
  }
}
