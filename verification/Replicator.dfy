/** The offline-first replicator as a function of its state (src/kernel/sync.rs). */
module Replicator {
  import opened Wrappers
  import opened Packet
  import opened Wal

  datatype Config = Config(maxPending: nat, maxPayload: nat, maxInFlight: nat, resendAfter: nat, maxRetries: nat) {
    predicate Valid() { maxPending > 0 && maxPayload > 0 && maxInFlight > 0 }
  }

  datatype Stats = Stats(
    queued: nat, coalesced: nat, sent: nat, resent: nat, acknowledged: nat, duplicates: nat,
    droppedRetries: nat, rejectedBackpressure: nat, rejectedReceive: nat
  )

  datatype InFlight = InFlight(packet: SyncPacket, lastSent: nat, retries: nat)

  datatype PumpReport = PumpReport(sent: nat, resent: nat, blocked: bool, failed: nat)

  /** The records written so far, and the limits of the file. */
  datatype Log = Log(limits: Limits, records: seq<Record>)

  datatype Rep = Rep(
    config: Config,
    online: bool,
    nextSequence: u64,
    lastReceived: u64,
    lastAckSent: u64,
    pending: seq<SyncPacket>,
    inFlight: seq<InFlight>,
    stats: Stats,
    log: Option<Log>
  )

  const NoStats := Stats(0, 0, 0, 0, 0, 0, 0, 0, 0)
  const NoReport := PumpReport(0, 0, false, 0)

  function New(config: Config): Result<Rep, SyncError> {
    if !config.Valid() then Err(InvalidConfig)
    else Ok(Rep(config, false, 1, 0, 0, [], [], NoStats, None))
  }

  /** One past the highest sequence number, at least 1, saturating. */
  function NextAfter(packets: seq<SyncPacket>): (n: u64)
    ensures n >= 1
  {
    if packets == [] then 1
    else
      var before, last := NextAfter(packets[..|packets| - 1]), packets[|packets| - 1].sequence;
      var after := if last + 1 < U64_LIMIT then last + 1 else last;
      if after > before then after else before
  }

  /** Recovery: the replayed packets become the queue. */
  function WithWal(config: Config, log: Log): Result<Rep, SyncError> {
    var first := New(config);
    if first.Err? then first
    else
      match Fold([], log.records, log.limits.maxRecords)
      case Err(_) => Err(PersistenceFailed)
      case Ok(recovered) =>
        if |recovered| > config.maxPending then Err(Backpressure)
        else Ok(first.value.(nextSequence := NextAfter(recovered), pending := recovered, log := Some(log)))
  }

  /** Writing one record to the log, if there is one. */
  function Persist(log: Option<Log>, r: Record): Result<Option<Log>, SyncError> {
    match log
    case None => Ok(None)
    case Some(l) => if InBounds(r, l.limits) then Ok(Some(l.(records := l.records + [r]))) else Err(PersistenceFailed)
  }

  function Validate(config: Config, payload: seq<byte>): Result<(), SyncError> {
    if payload == [] then Err(EmptyPayload)
    else if |payload| > config.maxPayload then Err(PayloadTooLarge)
    else Ok(())
  }

  /** The next sequence number wraps from the top to 1. */
  function Advance(sequence: u64): u64 {
    if sequence + 1 < U64_LIMIT then sequence + 1 else 1
  }

  function Enqueue(s: Rep, kind: SyncKind, key: u64, payload: seq<byte>): (Rep, Result<u64, SyncError>) {
    var valid := Validate(s.config, payload);
    if valid.Err? then (s, Err(valid.error))
    else if |s.pending| >= s.config.maxPending then
      (s.(stats := s.stats.(rejectedBackpressure := s.stats.rejectedBackpressure + 1)), Err(Backpressure))
    else
      var packet := SyncPacket(s.nextSequence, s.lastReceived, kind, key, payload);
      var s1 := s.(nextSequence := Advance(s.nextSequence));
      var log := Persist(s.log, PacketRecord(packet));
      if log.Err? then (s1, Err(PersistenceFailed))
      else (s1.(pending := s.pending + [packet], stats := s.stats.(queued := s.stats.queued + 1), log := log.value), Ok(packet.sequence))
  }

  /** The first queued delta for this key. */
  function FindDelta(pending: seq<SyncPacket>, key: u64): (r: Option<nat>)
    ensures r.Some? ==> r.value < |pending| && pending[r.value].kind == Delta && pending[r.value].key == key
    ensures r.Some? ==> forall i :: 0 <= i < r.value ==> !(pending[i].kind == Delta && pending[i].key == key)
    ensures r.None? ==> forall i :: 0 <= i < |pending| ==> !(pending[i].kind == Delta && pending[i].key == key)
  {
    if pending == [] then None
    else if pending[0].kind == Delta && pending[0].key == key then Some(0)
    else
      match FindDelta(pending[1..], key)
      case None => None
      case Some(i) =>
        assert pending[1..][i] == pending[i + 1];
        assert forall j :: 0 < j < i + 1 ==> pending[j] == pending[1..][j - 1];
        Some(i + 1)
  }

  /** A queued delta takes a newer payload, but keeps its `ack`; the log gets both. */
  function Coalesce(s: Rep, i: nat, payload: seq<byte>): (Rep, Result<u64, SyncError>)
    requires i < |s.pending|
  {
    var existing := s.pending[i];
    var log := Persist(s.log, PacketRecord(SyncPacket(existing.sequence, s.lastReceived, Delta, existing.key, payload)));
    if log.Err? then (s, Err(PersistenceFailed))
    else (s.(pending := s.pending[i := existing.(payload := payload)],
             stats := s.stats.(coalesced := s.stats.coalesced + 1), log := log.value), Ok(existing.sequence))
  }

  function EnqueueDelta(s: Rep, key: u64, payload: seq<byte>): (Rep, Result<u64, SyncError>) {
    var valid := Validate(s.config, payload);
    if valid.Err? then (s, Err(valid.error))
    else
      match FindDelta(s.pending, key)
      case None => Enqueue(s, Delta, key, payload)
      case Some(i) => Coalesce(s, i, payload)
  }

  // ---- Pumping: `sends` are the transport's answers to the successive send attempts ----

  function Answer(sends: seq<bool>, k: nat): bool { k < |sends| && sends[k] }

  function Elapsed(frame: nat, since: nat): nat { if frame >= since then frame - since else 0 }

  predicate Due(config: Config, item: InFlight, frame: nat) {
    Elapsed(frame, item.lastSent) >= config.resendAfter && item.retries < config.maxRetries
  }

  predicate Expired(config: Config, item: InFlight, frame: nat) {
    item.retries >= config.maxRetries && Elapsed(frame, item.lastSent) >= config.resendAfter
  }

  datatype Fresh = Fresh(pending: seq<SyncPacket>, inFlight: seq<InFlight>, sent: nat, attempts: nat, blocked: bool)

  function SendFresh(config: Config, pending: seq<SyncPacket>, inFlight: seq<InFlight>, sends: seq<bool>, k: nat, frame: nat): Fresh
    decreases |pending|
  {
    if |inFlight| >= config.maxInFlight || pending == [] then Fresh(pending, inFlight, 0, k, false)
    else if Answer(sends, k) then
      var r := SendFresh(config, pending[1..], inFlight + [InFlight(pending[0], frame, 0)], sends, k + 1, frame);
      r.(sent := r.sent + 1)
    else Fresh(pending, inFlight, 0, k + 1, true)
  }

  datatype Resent = Resent(items: seq<InFlight>, resent: nat, attempts: nat, blocked: bool)

  /** Retries of the items that are due, front to back. */
  function Resend(config: Config, items: seq<InFlight>, sends: seq<bool>, k: nat, frame: nat): Resent {
    if items == [] then Resent([], 0, k, false)
    else
      var before, last := Resend(config, items[..|items| - 1], sends, k, frame), items[|items| - 1];
      if !Due(config, last, frame) then before.(items := before.items + [last])
      else if Answer(sends, before.attempts) then
        Resent(before.items + [last.(lastSent := frame, retries := last.retries + 1)], before.resent + 1, before.attempts + 1, before.blocked)
      else Resent(before.items + [last], before.resent, before.attempts + 1, true)
  }

  function Unexpired(config: Config, items: seq<InFlight>, frame: nat): (r: seq<InFlight>)
    ensures |r| <= |items|
  {
    if items == [] then []
    else
      var before, last := Unexpired(config, items[..|items| - 1], frame), items[|items| - 1];
      if Expired(config, last, frame) then before else before + [last]
  }

  datatype Pumped = Pumped(pending: seq<SyncPacket>, inFlight: seq<InFlight>, report: PumpReport)

  /** Fresh packets, then retries, then expiry. */
  function PumpQueues(config: Config, pending: seq<SyncPacket>, inFlight: seq<InFlight>, sends: seq<bool>, frame: nat): Pumped {
    var first := SendFresh(config, pending, inFlight, sends, 0, frame);
    var retried := Resend(config, first.inFlight, sends, first.attempts, frame);
    var kept := Unexpired(config, retried.items, frame);
    Pumped(first.pending, kept,
           PumpReport(first.sent, retried.resent, first.blocked || retried.blocked, |retried.items| - |kept|))
  }

  function CountPump(stats: Stats, report: PumpReport): Stats {
    stats.(sent := stats.sent + report.sent, resent := stats.resent + report.resent,
           droppedRetries := stats.droppedRetries + report.failed)
  }

  function Pump(s: Rep, sends: seq<bool>, frame: nat): (Rep, PumpReport) {
    if !s.online then (s, NoReport)
    else
      var pumped := PumpQueues(s.config, s.pending, s.inFlight, sends, frame);
      (s.(pending := pumped.pending, inFlight := pumped.inFlight, stats := CountPump(s.stats, pumped.report)), pumped.report)
  }

  // ---- Acknowledging and receiving ----

  function Above(items: seq<InFlight>, sequence: u64): (r: seq<InFlight>)
    ensures |r| <= |items|
  {
    if items == [] then []
    else
      var before, last := Above(items[..|items| - 1], sequence), items[|items| - 1];
      if last.packet.sequence <= sequence then before else before + [last]
  }

  function Acknowledge(s: Rep, sequence: u64): (Rep, Result<(), SyncError>) {
    var log := Persist(s.log, AckRecord(sequence));
    if log.Err? then (s, Err(PersistenceFailed))
    else
      var left := Above(s.inFlight, sequence);
      (s.(inFlight := left, log := log.value,
          stats := s.stats.(acknowledged := s.stats.acknowledged + (|s.inFlight| - |left|))), Ok(()))
  }

  function Receive(s: Rep, packet: SyncPacket): (Rep, Option<SyncPacket>) {
    if packet.payload == [] || |packet.payload| > s.config.maxPayload then
      (s.(stats := s.stats.(rejectedReceive := s.stats.rejectedReceive + 1)), None)
    else if packet.sequence <= s.lastReceived then
      (s.(stats := s.stats.(duplicates := s.stats.duplicates + 1)), None)
    else
      var s1 := s.(lastReceived := packet.sequence);
      if packet.ack > s.lastAckSent then (Acknowledge(s1, packet.ack).0.(lastAckSent := packet.ack), Some(packet))
      else (s1, Some(packet))
  }

  function ReceiveBytes(s: Rep, bytes: seq<byte>): (Rep, Result<Option<SyncPacket>, SyncError>) {
    match DecodeWire(bytes, s.config.maxPayload)
    case Err(e) => (s.(stats := s.stats.(rejectedReceive := s.stats.rejectedReceive + 1)), Err(e))
    case Ok(packet) => var (s1, got) := Receive(s, packet); (s1, Ok(got))
  }
}
