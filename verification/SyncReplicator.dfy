/** The replicator object: fields updated in place, each method proved against the function of its state (src/kernel/sync.rs). */
module SyncReplicator {
  import opened Wrappers
  import opened Packet
  import opened Wal
  import opened Replicator

  class SyncReplicator {
    const config: Config
    const wal: SyncWal?
    var online: bool
    var nextSequence: u64
    var lastReceived: u64
    var lastAckSent: u64
    var pending: seq<SyncPacket>
    var inFlight: seq<InFlight>
    var stats: Stats

    ghost predicate Valid()
      reads this, wal
    {
      wal != null ==> wal.Valid() && wal.limits.maxPayload + HEADER < U64_LIMIT
    }

    ghost function View(): Rep
      reads this, wal
    {
      Rep(config, online, nextSequence, lastReceived, lastAckSent, pending, inFlight, stats,
          if wal == null then None else Some(Log(wal.limits, wal.records)))
    }

    constructor (config: Config, wal: SyncWal?, recovered: seq<SyncPacket>)
      requires wal != null ==> wal.Valid() && wal.limits.maxPayload + HEADER < U64_LIMIT
      ensures Valid() && this.wal == wal && this.config == config
      ensures View() == Rep(config, false, NextAfter(recovered), 0, 0, recovered, [], NoStats,
                            if wal == null then None else Some(Log(wal.limits, wal.records)))
    {
      this.config, this.wal := config, wal;
      online, lastReceived, lastAckSent, inFlight, stats := false, 0, 0, [], NoStats;
      pending := [];
      nextSequence := 1;
      new;
      for i := 0 to |recovered|
        invariant nextSequence == NextAfter(recovered[..i]) && pending == recovered[..i]
        invariant !online && lastReceived == lastAckSent == 0 && inFlight == [] && stats == NoStats
        invariant wal != null ==> wal.Valid()
        invariant wal != null ==> wal.records == old(wal.records)
      {
        assert recovered[..i + 1][..i] == recovered[..i];
        var after := if recovered[i].sequence + 1 < U64_LIMIT then recovered[i].sequence + 1 else recovered[i].sequence;
        nextSequence := if after > nextSequence then after else nextSequence;
        pending := pending + [recovered[i]];
      }
      assert recovered[..|recovered|] == recovered;
    }

    /** Rebuilds the queue from the log, or says why not. */
    static method WithWal(config: Config, wal: SyncWal) returns (r: Result<SyncReplicator, SyncError>)
      requires wal.Valid() && wal.limits.maxPayload + HEADER < U64_LIMIT
      ensures var expected := Replicator.WithWal(config, Log(wal.limits, wal.records));
              if expected.Err? then r == Err(expected.error)
              else r.Ok? && fresh(r.value) && r.value.wal == wal && r.value.Valid() && r.value.View() == expected.value
    {
      if config.maxPending == 0 || config.maxPayload == 0 || config.maxInFlight == 0 {
        return Err(InvalidConfig);
      }
      var recovered := wal.Replay();
      if recovered.Err? {
        return Err(PersistenceFailed);
      }
      if |recovered.value| > config.maxPending {
        return Err(Backpressure);
      }
      var replicator := new SyncReplicator(config, wal, recovered.value);
      return Ok(replicator);
    }

    /** Appends to the log, if there is one. */
    method PersistPacket(packet: SyncPacket) returns (ok: bool)
      requires Valid()
      modifies wal
      ensures Valid()
      ensures var log := Persist(old(View()).log, PacketRecord(packet));
              && ok == log.Ok?
              && View() == if ok then old(View()).(log := log.value) else old(View())
    {
      if wal == null {
        return true;
      }
      var written := wal.Append(packet);
      return written.Ok?;
    }

    method Enqueue(kind: SyncKind, key: u64, payload: seq<byte>) returns (r: Result<u64, SyncError>)
      requires Valid()
      modifies this, wal
      ensures Valid()
      ensures (View(), r) == Replicator.Enqueue(old(View()), kind, key, payload)
    {
      var valid := Validate(config, payload);
      if valid.Err? {
        return Err(valid.error);
      }
      if |pending| >= config.maxPending {
        stats := stats.(rejectedBackpressure := stats.rejectedBackpressure + 1);
        return Err(Backpressure);
      }
      var sequence := nextSequence;
      nextSequence := Advance(nextSequence);
      var packet := SyncPacket(sequence, lastReceived, kind, key, payload);
      var ok := PersistPacket(packet);
      if !ok {
        return Err(PersistenceFailed);
      }
      pending := pending + [packet];
      stats := stats.(queued := stats.queued + 1);
      return Ok(sequence);
    }

    method EnqueueDelta(key: u64, payload: seq<byte>) returns (r: Result<u64, SyncError>)
      requires Valid()
      modifies this, wal
      ensures Valid()
      ensures (View(), r) == Replicator.EnqueueDelta(old(View()), key, payload)
    {
      var valid := Validate(config, payload);
      if valid.Err? {
        return Err(valid.error);
      }
      var found := FindDelta(pending, key);
      if found.None? {
        r := Enqueue(Delta, key, payload);
        return;
      }
      r := Coalesce(found.value, payload);
    }

    method Coalesce(i: nat, payload: seq<byte>) returns (r: Result<u64, SyncError>)
      requires Valid() && i < |pending|
      modifies this, wal
      ensures Valid()
      ensures (View(), r) == Replicator.Coalesce(old(View()), i, payload)
    {
      var existing := pending[i];
      var ok := PersistPacket(SyncPacket(existing.sequence, lastReceived, Delta, existing.key, payload));
      if !ok {
        return Err(PersistenceFailed);
      }
      pending := pending[i := existing.(payload := payload)];
      stats := stats.(coalesced := stats.coalesced + 1);
      return Ok(existing.sequence);
    }

    /** Sends queued packets while the window has room and the transport accepts. */
    method PumpFresh(sends: seq<bool>, frame: nat) returns (sent: nat, attempts: nat, blocked: bool)
      modifies `pending, `inFlight, `stats
      ensures var first := SendFresh(config, old(pending), old(inFlight), sends, 0, frame);
              && pending == first.pending && inFlight == first.inFlight
              && sent == first.sent && attempts == first.attempts && blocked == first.blocked
      ensures stats == old(stats).(sent := old(stats).sent + sent)
    {
      sent, attempts, blocked := 0, 0, false;
      while |inFlight| < config.maxInFlight && pending != []
        invariant var done, left := SendFresh(config, old(pending), old(inFlight), sends, 0, frame),
                                    SendFresh(config, pending, inFlight, sends, attempts, frame);
                  done == left.(sent := left.sent + sent)
        invariant stats == old(stats).(sent := old(stats).sent + sent)
        decreases |pending|
      {
        var packet := pending[0];
        if !Answer(sends, attempts) {
          return sent, attempts + 1, true;
        }
        pending := pending[1..];
        inFlight := inFlight + [InFlight(packet, frame, 0)];
        stats := stats.(sent := stats.sent + 1);
        sent, attempts := sent + 1, attempts + 1;
      }
    }

    /** Resends what is due. */
    method PumpRetries(sends: seq<bool>, first: nat, frame: nat) returns (resent: nat, blocked: bool)
      modifies `inFlight, `stats
      ensures var retried := Resend(config, old(inFlight), sends, first, frame);
              inFlight == retried.items && resent == retried.resent && blocked == retried.blocked
      ensures stats == old(stats).(resent := old(stats).resent + resent)
    {
      var attempts := first;
      resent, blocked := 0, false;
      ghost var items := inFlight;
      for i := 0 to |inFlight|
        invariant |inFlight| == |items| && inFlight[i..] == items[i..]
        invariant Resend(config, items[..i], sends, first, frame) == Resent(inFlight[..i], resent, attempts, blocked)
        invariant stats == old(stats).(resent := old(stats).resent + resent)
      {
        var item := inFlight[i];
        assert item == items[i..][0];
        PrefixOfNext(items, i);
        var next := item;
        if Due(config, item, frame) {
          if Answer(sends, attempts) {
            next := item.(lastSent := frame, retries := item.retries + 1);
            stats := stats.(resent := stats.resent + 1);
            resent := resent + 1;
          } else {
            blocked := true;
          }
          attempts := attempts + 1;
        }
        UpdateAt(inFlight, i, next);
        inFlight := inFlight[i := next];
      }
      assert items[..|items|] == items && inFlight[..|inFlight|] == inFlight;
    }

    /** Drops what has used up its retries. */
    method PumpExpiry(frame: nat) returns (failed: nat)
      modifies `inFlight, `stats
      ensures inFlight == Unexpired(config, old(inFlight), frame) && failed == |old(inFlight)| - |inFlight|
      ensures stats == old(stats).(droppedRetries := old(stats).droppedRetries + failed)
    {
      failed := 0;
      var retained := [];
      ghost var i, items := 0, inFlight;
      while inFlight != []
        invariant i <= |items| && inFlight == items[i..] && retained == Unexpired(config, items[..i], frame)
        invariant failed == i - |retained|
        invariant stats == old(stats).(droppedRetries := old(stats).droppedRetries + failed)
        decreases |inFlight|
      {
        var item := inFlight[0];
        assert items[..i + 1][..i] == items[..i] && item == items[i];
        inFlight := inFlight[1..];
        if Expired(config, item, frame) {
          stats := stats.(droppedRetries := stats.droppedRetries + 1);
          failed := failed + 1;
        } else {
          retained := retained + [item];
        }
        i := i + 1;
      }
      assert items[..i] == items;
      inFlight := retained;
    }

    /** The three loops of a pump in turn. */
    method PumpOnline(sends: seq<bool>, frame: nat) returns (report: PumpReport)
      modifies `pending, `inFlight, `stats
      ensures Pumped(pending, inFlight, report) == PumpQueues(config, old(pending), old(inFlight), sends, frame)
      ensures stats == CountPump(old(stats), report)
    {
      var sent, attempts, blocked := PumpFresh(sends, frame);
      var resent, blockedToo := PumpRetries(sends, attempts, frame);
      var failed := PumpExpiry(frame);
      report := PumpReport(sent, resent, blocked || blockedToo, failed);
    }

    /** One pump: fresh packets, retries, expiry. `sends` answers the send attempts in turn. */
    method Pump(sends: seq<bool>, frame: nat) returns (report: PumpReport)
      requires Valid()
      modifies this
      ensures Valid()
      ensures (View(), report) == Replicator.Pump(old(View()), sends, frame)
    {
      if !online {
        return NoReport;
      }
      report := PumpOnline(sends, frame);
    }

    /** Drops the acknowledged items. */
    method ReleaseUpTo(sequence: u64)
      modifies `inFlight, `stats
      ensures inFlight == Above(old(inFlight), sequence)
      ensures stats == old(stats).(acknowledged := old(stats).acknowledged + (|old(inFlight)| - |inFlight|))
    {
      var retained := [];
      ghost var i, items := 0, inFlight;
      while inFlight != []
        invariant i <= |items| && inFlight == items[i..] && retained == Above(items[..i], sequence)
        invariant stats == old(stats).(acknowledged := old(stats).acknowledged + (i - |retained|))
        decreases |inFlight|
      {
        var item := inFlight[0];
        assert items[..i + 1][..i] == items[..i] && item == items[i];
        inFlight := inFlight[1..];
        if item.packet.sequence <= sequence {
          stats := stats.(acknowledged := stats.acknowledged + 1);
        } else {
          retained := retained + [item];
        }
        i := i + 1;
      }
      assert items[..i] == items;
      inFlight := retained;
    }

    method TryAcknowledge(sequence: u64) returns (r: Result<(), SyncError>)
      requires Valid()
      modifies this, wal
      ensures Valid()
      ensures (View(), r) == Replicator.Acknowledge(old(View()), sequence)
    {
      if wal != null {
        var written := wal.Acknowledge(sequence);
      }
      ReleaseUpTo(sequence);
      return Ok(());
    }

    method Receive(packet: SyncPacket) returns (r: Option<SyncPacket>)
      requires Valid()
      modifies this, wal
      ensures Valid()
      ensures (View(), r) == Replicator.Receive(old(View()), packet)
    {
      if packet.payload == [] || |packet.payload| > config.maxPayload {
        stats := stats.(rejectedReceive := stats.rejectedReceive + 1);
        return None;
      }
      if packet.sequence <= lastReceived {
        stats := stats.(duplicates := stats.duplicates + 1);
        return None;
      }
      lastReceived := packet.sequence;
      if packet.ack > lastAckSent {
        var ignored := TryAcknowledge(packet.ack);
        lastAckSent := packet.ack;
      }
      return Some(packet);
    }

    method ReceiveBytes(bytes: seq<byte>) returns (r: Result<Option<SyncPacket>, SyncError>)
      requires Valid()
      modifies this, wal
      ensures Valid()
      ensures (View(), r) == Replicator.ReceiveBytes(old(View()), bytes)
    {
      var packet := DecodeWire(bytes, config.maxPayload);
      if packet.Err? {
        stats := stats.(rejectedReceive := stats.rejectedReceive + 1);
        return Err(packet.error);
      }
      var got := Receive(packet.value);
      return Ok(got);
    }
  }

  lemma PrefixOfNext<T>(items: seq<T>, i: nat)
    requires i < |items|
    ensures items[..i + 1][..i] == items[..i] && items[..i + 1][i] == items[i]
  {
  }

  lemma UpdateAt<T>(s: seq<T>, i: nat, x: T)
    requires i < |s|
    ensures s[i := x][..i + 1] == s[..i] + [x] && s[i := x][i + 1..] == s[i..][1..]
  {
  }
}
