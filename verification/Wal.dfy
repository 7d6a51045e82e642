/** The checksummed write-ahead log of unacknowledged packets (src/kernel/sync.rs). */
module Wal {
  import opened Wrappers
  import opened Bits
  import opened Packet

  /** "RKW1" */
  const MAGIC: seq<byte> := [0x52, 0x4B, 0x57, 0x31]
  const PACKET: byte := 1
  const ACK: byte := 2

  /** Magic, kind and body length. */
  const RECORD_HEADER: nat := 9
  const TRAILER: nat := 4

  const FNV_BASIS: nat := 2166136261
  const FNV_PRIME: nat := 16777619

  // ---- The checksum ----

  function FnvStep(hash: nat, b: byte): (r: nat)
    ensures r < U32_LIMIT
  {
    Xor(hash, b) * FNV_PRIME % U32_LIMIT
  }

  function Fnv(hash: nat, body: seq<byte>): (r: nat)
    requires hash < U32_LIMIT
    ensures r < U32_LIMIT
    decreases |body|
  {
    if body == [] then hash else Fnv(FnvStep(hash, body[0]), body[1..])
  }

  function Seed(kind: byte): (r: nat)
    ensures r < U32_LIMIT
  {
    SeedFits(kind);
    Xor(FNV_BASIS, kind)
  }

  function Checksum(kind: byte, body: seq<byte>): (r: nat)
    ensures r < U32_LIMIT
  {
    Fnv(Seed(kind), body)
  }

  lemma SeedFits(kind: byte)
    ensures Xor(FNV_BASIS, kind) < U32_LIMIT
  {
    Pow2Of32();
    XorFits(FNV_BASIS, kind, 32);
  }

  lemma Pow2Of32()
    ensures Pow2(32) == U32_LIMIT
  {
    assert Pow2(8) == 0x100;
    assert Pow2(16) == 0x1_0000;
    assert Pow2(24) == 0x100_0000;
  }

  method WalChecksum(kind: byte, body: seq<byte>) returns (hash: nat)
    ensures hash == Checksum(kind, body)
  {
    hash := Seed(kind);
    for i := 0 to |body|
      invariant hash < U32_LIMIT
      invariant Fnv(hash, body[i..]) == Checksum(kind, body)
    {
      hash := FnvStep(hash, body[i]);
      assert body[i..][1..] == body[i + 1..];
    }
  }

  /** Multiplication by the odd prime is undone modulo 2^32 by its inverse 899433627. */
  lemma PrimeIsInvertible(x: nat)
    requires x < U32_LIMIT
    ensures (x * FNV_PRIME % U32_LIMIT) * 899433627 % U32_LIMIT == x
  {
    var y := x * FNV_PRIME % U32_LIMIT;
    var q := x * FNV_PRIME / U32_LIMIT;
    assert y * 899433627 == x + U32_LIMIT * (x * 3513497 - q * 899433627 + x * 0) + 0 * x;
  }

  /** One round loses nothing: it is injective in the hash and in the byte. */
  lemma FnvStepIsInjective(h: nat, g: nat, b: byte, c: byte)
    requires h < U32_LIMIT && g < U32_LIMIT && FnvStep(h, b) == FnvStep(g, c) && (h == g || b == c)
    ensures h == g && b == c
  {
    Pow2Of32();
    XorFits(h, b, 32);
    XorFits(g, c, 32);
    PrimeIsInvertible(Xor(h, b));
    PrimeIsInvertible(Xor(g, c));
    if h == g {
      XorIsSymmetric(h, b);
      XorIsSymmetric(g, c);
      XorIsInjective(b, c, h);
    } else {
      XorIsInjective(h, g, b);
    }
  }

  lemma FnvStepKeepsApart(h: nat, g: nat, b: byte)
    requires h < U32_LIMIT && g < U32_LIMIT && h != g
    ensures FnvStep(h, b) != FnvStep(g, b)
  {
    if FnvStep(h, b) == FnvStep(g, b) {
      FnvStepIsInjective(h, g, b, b);
    }
  }

  lemma FnvStepSeesByte(h: nat, b: byte, c: byte)
    requires h < U32_LIMIT && b != c
    ensures FnvStep(h, b) != FnvStep(h, c)
  {
    if FnvStep(h, b) == FnvStep(h, c) {
      FnvStepIsInjective(h, h, b, c);
    }
  }

  lemma {:induction false} FnvIsInjectiveInHash(h: nat, g: nat, body: seq<byte>)
    requires h < U32_LIMIT && g < U32_LIMIT && h != g
    ensures Fnv(h, body) != Fnv(g, body)
    decreases |body|
  {
    if body != [] {
      FnvStepKeepsApart(h, g, body[0]);
      FnvIsInjectiveInHash(FnvStep(h, body[0]), FnvStep(g, body[0]), body[1..]);
    }
  }

  lemma {:induction false} FnvSeesEveryByte(h: nat, body: seq<byte>, i: nat, b: byte)
    requires h < U32_LIMIT && i < |body| && b != body[i]
    ensures Fnv(h, body[i := b]) != Fnv(h, body)
    decreases |body|
  {
    var next := FnvStep(h, body[0]);
    if i == 0 {
      FnvStepSeesByte(h, b, body[0]);
      FnvIsInjectiveInHash(FnvStep(h, b), next, body[1..]);
      assert body[i := b][1..] == body[1..];
    } else {
      FnvSeesEveryByte(next, body[1..], i - 1, b);
      assert body[i := b][1..] == body[1..][i - 1 := b];
    }
  }

  /** Changing any single body byte, or the kind byte, always changes the checksum. */
  lemma ChecksumSeesEveryByte(kind: byte, body: seq<byte>, i: nat, b: byte)
    ensures i < |body| && b != body[i] ==> Checksum(kind, body[i := b]) != Checksum(kind, body)
    ensures b != kind ==> Checksum(b, body) != Checksum(kind, body)
  {
    if i < |body| && b != body[i] {
      FnvSeesEveryByte(Seed(kind), body, i, b);
    }
    if b != kind {
      if Seed(b) == Seed(kind) {
        XorIsSymmetric(FNV_BASIS, b);
        XorIsSymmetric(FNV_BASIS, kind);
        XorIsInjective(b, kind, FNV_BASIS);
      }
      FnvIsInjectiveInHash(Seed(b), Seed(kind), body);
    }
  }

  /** The kind only flips bits of the first byte, so changing both alike goes unseen. */
  lemma KindHidesInFirstByte(kind: byte, other: byte, body: seq<byte>, b: byte)
    requires body != [] && Xor(Xor(FNV_BASIS, kind), body[0]) == Xor(Xor(FNV_BASIS, other), b)
    ensures Checksum(other, body[0 := b]) == Checksum(kind, body)
  {
    assert body[0 := b][1..] == body[1..];
  }

  /** The 32-bit hash of nothing, and of one zero byte. */
  lemma KnownAnswers(kind: byte, zeros: seq<byte>)
    requires kind == 0 && |zeros| <= 1 && forall i :: 0 <= i < |zeros| ==> zeros[i] == 0
    ensures Checksum(kind, zeros) == if zeros == [] then 0x811C_9DC5 else 0x050C_5D1F
  {
    XorWithZero(FNV_BASIS);
    assert Seed(kind) == FNV_BASIS;
    if zeros != [] {
      XorWithZero(FNV_BASIS);
      assert FnvStep(Seed(kind), zeros[0]) == 0x050C_5D1F;
      assert Fnv(0x050C_5D1F, zeros[1..]) == 0x050C_5D1F;
    }
  }

  // ---- Records and their meaning ----

  datatype Record = PacketRecord(packet: SyncPacket) | AckRecord(sequence: u64)

  /** The position of the packet with this sequence number. */
  function Find(pending: seq<SyncPacket>, sequence: u64): (r: Option<nat>)
    ensures r.Some? ==> r.value < |pending| && pending[r.value].sequence == sequence
    ensures r.None? ==> forall i :: 0 <= i < |pending| ==> pending[i].sequence != sequence
  {
    if pending == [] then None
    else if pending[0].sequence == sequence then Some(0)
    else
      match Find(pending[1..], sequence)
      case None => None
      case Some(i) =>
        assert pending[1..][i] == pending[i + 1];
        Some(i + 1)
  }

  /** The packets still above an acknowledgement. */
  function Retain(pending: seq<SyncPacket>, sequence: u64): seq<SyncPacket> {
    if pending == [] then []
    else
      var before, last := Retain(pending[..|pending| - 1], sequence), pending[|pending| - 1];
      if last.sequence > sequence then before + [last] else before
  }

  /** A packet replaces its older version in place, or joins at the end. */
  function Put(pending: seq<SyncPacket>, p: SyncPacket): seq<SyncPacket> {
    match Find(pending, p.sequence)
    case Some(i) => pending[i := p]
    case None => pending + [p]
  }

  function Apply(pending: seq<SyncPacket>, r: Record, maxRecords: nat): Result<seq<SyncPacket>, WalError> {
    match r
    case AckRecord(sequence) => Ok(Retain(pending, sequence))
    case PacketRecord(p) =>
      if Find(pending, p.sequence).None? && |pending| >= maxRecords then Err(TooManyRecords) else Ok(Put(pending, p))
  }

  /** The meaning of a list of records, record by record. */
  function Fold(pending: seq<SyncPacket>, records: seq<Record>, maxRecords: nat): Result<seq<SyncPacket>, WalError>
    decreases |records|
  {
    if records == [] then Ok(pending)
    else
      match Apply(pending, records[0], maxRecords)
      case Err(e) => Err(e)
      case Ok(next) => Fold(next, records[1..], maxRecords)
  }

  lemma {:induction false} FoldAppend(pending: seq<SyncPacket>, a: seq<Record>, b: seq<Record>, maxRecords: nat)
    ensures Fold(pending, a + b, maxRecords) ==
            var m := Fold(pending, a, maxRecords);
            if m.Err? then m else Fold(m.value, b, maxRecords)
    decreases |a|
  {
    if a == [] {
      assert a + b == b;
    } else {
      assert (a + b)[1..] == a[1..] + b;
      var m := Apply(pending, a[0], maxRecords);
      if m.Ok? {
        FoldAppend(m.value, a[1..], b, maxRecords);
      }
    }
  }

  // ---- The bytes ----

  function KindByteOf(r: Record): byte {
    if r.PacketRecord? then PACKET else ACK
  }

  function BodyOf(r: Record): seq<byte> {
    match r
    case PacketRecord(p) => Envelope(p)
    case AckRecord(sequence) => ToLe(sequence, 8)
  }

  /** A record as written, with any kind, body and stored checksum. */
  function Frame(kind: byte, body: seq<byte>, checksum: nat): (s: seq<byte>)
    ensures |s| == RECORD_HEADER + |body| + TRAILER
  {
    MAGIC + [kind] + ToLe(|body|, 4) + body + ToLe(checksum, 4)
  }

  /** Where each part of a record is, byte by byte. */
  lemma FrameLayout(kind: byte, body: seq<byte>, checksum: nat)
    requires |body| < U32_LIMIT && checksum < U32_LIMIT
    ensures var f := Frame(kind, body, checksum);
      && |f| == 13 + |body|
      && f[0] == 'R' as int && f[1] == 'K' as int && f[2] == 'W' as int && f[3] == '1' as int && f[4] == kind
      && (forall i: nat :: i < 4 ==> f[5 + i] as nat == ByteAt(|body|, i))
      && (forall i: nat :: i < |body| ==> f[9 + i] == body[i])
      && (forall i: nat :: i < 4 ==> f[9 + |body| + i] as nat == ByteAt(checksum, i))
  {
    forall i: nat | i < 4 ensures ToLe(|body|, 4)[i] as nat == ByteAt(|body|, i) && ToLe(checksum, 4)[i] as nat == ByteAt(checksum, i) {
      LeByte(|body|, 4, i);
      LeByte(checksum, 4, i);
    }
  }

  function Print(r: Record): seq<byte> {
    Frame(KindByteOf(r), BodyOf(r), Checksum(KindByteOf(r), BodyOf(r)))
  }

  function FlatMap(f: Record -> seq<byte>, records: seq<Record>): seq<byte> {
    if records == [] then [] else f(records[0]) + FlatMap(f, records[1..])
  }

  function PrintAll(records: seq<Record>): seq<byte> {
    FlatMap(Print, records)
  }

  lemma Regroup(a: seq<byte>, b: seq<byte>, c: seq<byte>)
    ensures a + (b + c) == a + b + c
  {
  }

  lemma {:induction false} FlatMapAppend(f: Record -> seq<byte>, a: seq<Record>, b: seq<Record>)
    ensures FlatMap(f, a + b) == FlatMap(f, a) + FlatMap(f, b)
    decreases |a|
  {
    if a == [] {
      assert a + b == b;
    } else {
      FlatMapAppend(f, a[1..], b);
      assert (a + b)[1..] == a[1..] + b;
      Regroup(f(a[0]), FlatMap(f, a[1..]), FlatMap(f, b));
    }
  }

  lemma PrintAllAppend(a: seq<Record>, b: seq<Record>)
    ensures PrintAll(a + b) == PrintAll(a) + PrintAll(b)
  {
    FlatMapAppend(Print, a, b);
  }

  lemma PrintFirst(records: seq<Record>)
    requires records != []
    ensures PrintAll(records) == Print(records[0]) + PrintAll(records[1..])
  {
  }

  lemma PrintOne(r: Record)
    ensures PrintAll([r]) == Print(r)
  {
    PrintFirst([r]);
    assert [r][1..] == [];
  }

  /** The limits a log was opened with. */
  datatype Limits = Limits(maxPayload: nat, maxRecords: nat)

  /** What `append` and `acknowledge` accept. */
  predicate InBounds(r: Record, limits: Limits) {
    && limits.maxPayload + HEADER < U64_LIMIT
    && match r
       case PacketRecord(p) => 1 <= |p.payload| <= limits.maxPayload && HEADER + |p.payload| < U32_LIMIT
       case AckRecord(_) => true
  }

  predicate AllInBounds(records: seq<Record>, limits: Limits) {
    forall i :: 0 <= i < |records| ==> InBounds(records[i], limits)
  }

  /** One attempt to read a record: the end of the log (clean or torn), a bad record, or a record. */
  datatype Reading = End | Bad(error: WalError) | Got(kind: byte, body: seq<byte>, rest: seq<byte>)

  function ReadRecord(file: seq<byte>, limits: Limits): (r: Reading)
    ensures r.Got? ==> |r.rest| < |file| && r.rest == file[|file| - |r.rest|..]
  {
    if |file| < RECORD_HEADER then End
    else if file[..4] != MAGIC then Bad(InvalidRecord)
    else
      var len := ReadU32(file, 5);
      var at := RECORD_HEADER + len;
      if limits.maxPayload + HEADER >= U64_LIMIT then Bad(RecordTooLarge)
      else if len == 0 || len > limits.maxPayload + HEADER then Bad(RecordTooLarge)
      else if |file| < at + TRAILER then End
      else if Checksum(file[4], file[RECORD_HEADER..at]) != ReadU32(file, at) then Bad(InvalidRecord)
      else Got(file[4], file[RECORD_HEADER..at], file[at + TRAILER..])
  }

  function Interpret(kind: byte, body: seq<byte>, limits: Limits): Result<Record, WalError> {
    if kind == PACKET then
      match DecodePacket(body, limits.maxPayload)
      case Err(e) => Err(e)
      case Ok(p) => Ok(PacketRecord(p))
    else if kind == ACK then
      if |body| != 8 then Err(InvalidRecord) else Ok(AckRecord(ReadU64(body, 0)))
    else Err(InvalidRecord)
  }

  /** Replaying a file from a given point on. */
  function ReplayFrom(file: seq<byte>, pending: seq<SyncPacket>, limits: Limits): Result<seq<SyncPacket>, WalError>
    decreases |file|
  {
    match ReadRecord(file, limits)
    case End => Ok(pending)
    case Bad(e) => Err(e)
    case Got(kind, body, rest) =>
      match Interpret(kind, body, limits)
      case Err(e) => Err(e)
      case Ok(r) =>
        match Apply(pending, r, limits.maxRecords)
        case Err(e) => Err(e)
        case Ok(next) => ReplayFrom(rest, next, limits)
  }

  lemma FrameFields(kind: byte, body: seq<byte>, checksum: nat, rest: seq<byte>)
    requires |body| < U32_LIMIT && checksum < U32_LIMIT
    ensures var f := Frame(kind, body, checksum) + rest; var at := RECORD_HEADER + |body|;
            && f[..4] == MAGIC && f[4] == kind && ReadU32(f, 5) == |body|
            && f[RECORD_HEADER..at] == body && ReadU32(f, at) == checksum && f[at + TRAILER..] == rest
  {
    var f := Frame(kind, body, checksum) + rest;
    var len, sum := ToLe(|body|, 4), ToLe(checksum, 4);
    ReadWritten32(MAGIC + [kind], |body|, body + sum + rest);
    assert f == MAGIC + [kind] + len + (body + sum + rest);
    ReadWritten32(MAGIC + [kind] + len + body, checksum, rest);
    assert f == MAGIC + [kind] + len + body + sum + rest;
  }

  lemma ReadFrame(kind: byte, body: seq<byte>, checksum: nat, rest: seq<byte>, limits: Limits)
    requires 0 < |body| <= limits.maxPayload + HEADER < U64_LIMIT && |body| < U32_LIMIT && checksum < U32_LIMIT
    ensures ReadRecord(Frame(kind, body, checksum) + rest, limits)
            == if Checksum(kind, body) == checksum then Got(kind, body, rest) else Bad(InvalidRecord)
  {
    FrameFields(kind, body, checksum, rest);
  }

  /** A torn record reads as the end of the log. */
  lemma ReadTorn(kind: byte, body: seq<byte>, checksum: nat, n: nat, limits: Limits)
    requires 0 < |body| <= limits.maxPayload + HEADER < U64_LIMIT && |body| < U32_LIMIT && checksum < U32_LIMIT
    requires n < |Frame(kind, body, checksum)|
    ensures ReadRecord(Frame(kind, body, checksum)[..n], limits) == End
  {
    var f := Frame(kind, body, checksum);
    FrameFields(kind, body, checksum, []);
    assert f + [] == f;
    if n >= RECORD_HEADER {
      assert f[..n][..4] == f[..4];
      assert f[..n][5..9] == f[5..9];
    }
  }

  lemma BodyIsReadable(r: Record, limits: Limits)
    requires InBounds(r, limits)
    ensures 0 < |BodyOf(r)| <= limits.maxPayload + HEADER && |BodyOf(r)| < U32_LIMIT
    ensures Interpret(KindByteOf(r), BodyOf(r), limits) == Ok(r)
  {
    match r
    case PacketRecord(p) => DecodeInvertsEncode(p, limits.maxPayload);
    case AckRecord(sequence) =>
      ReadWritten64([], sequence, []);
      assert [] + ToLe(sequence, 8) + [] == ToLe(sequence, 8);
  }

  lemma ReplayOne(r: Record, rest: seq<byte>, pending: seq<SyncPacket>, limits: Limits)
    requires InBounds(r, limits)
    ensures ReplayFrom(Print(r) + rest, pending, limits) ==
            var m := Apply(pending, r, limits.maxRecords);
            if m.Err? then m else ReplayFrom(rest, m.value, limits)
  {
    BodyIsReadable(r, limits);
    ReadFrame(KindByteOf(r), BodyOf(r), Checksum(KindByteOf(r), BodyOf(r)), rest, limits);
  }

  /** How many leading records lie wholly within the first `n` bytes of the log. */
  function Complete(records: seq<Record>, n: nat): (k: nat)
    ensures k <= |records|
  {
    if records == [] || n < |Print(records[0])| then 0 else 1 + Complete(records[1..], n - |Print(records[0])|)
  }

  lemma PrefixOfConcat(a: seq<byte>, b: seq<byte>, n: nat)
    requires n <= |a| + |b|
    ensures (a + b)[..n] == if n < |a| then a[..n] else a + b[..n - |a|]
  {
  }

  /** Records followed by anything: their fold, then the rest. */
  lemma {:induction false} ReplayThen(records: seq<Record>, rest: seq<byte>, pending: seq<SyncPacket>, limits: Limits)
    requires AllInBounds(records, limits)
    ensures ReplayFrom(PrintAll(records) + rest, pending, limits) ==
            var m := Fold(pending, records, limits.maxRecords);
            if m.Err? then m else ReplayFrom(rest, m.value, limits)
    decreases |records|
  {
    if records == [] {
      assert PrintAll(records) + rest == rest;
    } else {
      var tail := PrintAll(records[1..]) + rest;
      PrintFirst(records);
      Regroup(Print(records[0]), PrintAll(records[1..]), rest);
      ReplayOne(records[0], tail, pending, limits);
      var m := Apply(pending, records[0], limits.maxRecords);
      if m.Ok? {
        ReplayThen(records[1..], rest, m.value, limits);
      }
    }
  }

  /** What a prefix holds of the first record that is not complete in it. */
  function TornPart(records: seq<Record>, n: nat): seq<byte>
    decreases |records|
  {
    if records == [] then []
    else if n < |Print(records[0])| then Print(records[0])[..n]
    else TornPart(records[1..], n - |Print(records[0])|)
  }

  lemma {:induction false} ReadTornPart(records: seq<Record>, n: nat, limits: Limits)
    requires AllInBounds(records, limits)
    ensures ReadRecord(TornPart(records, n), limits) == End
    decreases |records|
  {
    if records != [] {
      if n < |Print(records[0])| {
        BodyIsReadable(records[0], limits);
        ReadTorn(KindByteOf(records[0]), BodyOf(records[0]), Checksum(KindByteOf(records[0]), BodyOf(records[0])), n, limits);
      } else {
        ReadTornPart(records[1..], n - |Print(records[0])|, limits);
      }
    }
  }

  lemma PrefixPastFirst(records: seq<Record>, n: nat, k: nat, part: seq<byte>)
    requires records != [] && |Print(records[0])| <= n <= |PrintAll(records)| && k < |records|
    requires |PrintAll(records[1..])| >= n - |Print(records[0])|
    requires PrintAll(records[1..])[..n - |Print(records[0])|] == PrintAll(records[1..][..k]) + part
    ensures PrintAll(records)[..n] == PrintAll(records[..k + 1]) + part
  {
    var first, tail := Print(records[0]), records[1..];
    PrintFirst(records);
    PrefixOfConcat(first, PrintAll(tail), n);
    assert records[..k + 1][1..] == tail[..k];
    PrintFirst(records[..k + 1]);
    Regroup(first, PrintAll(tail[..k]), part);
  }

  /** A prefix is the complete records in it and a torn part of the next. */
  lemma {:induction false} PrefixIs(records: seq<Record>, n: nat)
    requires n <= |PrintAll(records)|
    ensures PrintAll(records)[..n] == PrintAll(records[..Complete(records, n)]) + TornPart(records, n)
    decreases |records|
  {
    if records != [] {
      PrintFirst(records);
      if n < |Print(records[0])| {
        PrefixOfConcat(Print(records[0]), PrintAll(records[1..]), n);
      } else {
        var left := n - |Print(records[0])|;
        PrefixIs(records[1..], left);
        PrefixPastFirst(records, n, Complete(records[1..], left), TornPart(records[1..], left));
      }
    }
  }

  /** Replaying any byte prefix of a log means folding exactly the complete records in it. */
  lemma ReplayOfPrefix(records: seq<Record>, n: nat, pending: seq<SyncPacket>, limits: Limits)
    requires AllInBounds(records, limits) && n <= |PrintAll(records)|
    ensures ReplayFrom(PrintAll(records)[..n], pending, limits) == Fold(pending, records[..Complete(records, n)], limits.maxRecords)
  {
    var whole := records[..Complete(records, n)];
    var m := Fold(pending, whole, limits.maxRecords);
    PrefixIs(records, n);
    ReplayThen(whole, TornPart(records, n), pending, limits);
    ReadTornPart(records, n, limits);
  }


  lemma ReplayOfLog(records: seq<Record>, limits: Limits)
    requires AllInBounds(records, limits)
    ensures ReplayFrom(PrintAll(records), [], limits) == Fold([], records, limits.maxRecords)
  {
    ReplayThen(records, [], [], limits);
    assert PrintAll(records) + [] == PrintAll(records);
  }

  // ---- Damage ----

  ghost predicate OneByteChanged(a: seq<byte>, b: seq<byte>) {
    |a| == |b| && exists i :: 0 <= i < |a| && b[i] != a[i] && b == a[i := b[i]]
  }

  /** A complete record with one kind, body or checksum byte changed makes replay fail closed. */
  lemma TamperingFailsClosed(records: seq<Record>, r: Record, kind: byte, body: seq<byte>, checksum: nat, rest: seq<byte>, limits: Limits)
    requires AllInBounds(records, limits) && InBounds(r, limits) && Fold([], records, limits.maxRecords).Ok? && checksum < U32_LIMIT
    requires var k, b, c := KindByteOf(r), BodyOf(r), Checksum(KindByteOf(r), BodyOf(r));
             || (kind != k && body == b && checksum == c)
             || (kind == k && checksum == c && OneByteChanged(b, body))
             || (kind == k && body == b && checksum != c)
    ensures ReplayFrom(PrintAll(records) + (Frame(kind, body, checksum) + rest), [], limits) == Err(InvalidRecord)
  {
    var k, b := KindByteOf(r), BodyOf(r);
    BodyIsReadable(r, limits);
    if kind != k {
      ChecksumSeesEveryByte(k, b, 0, kind);
    } else if body != b {
      var i :| 0 <= i < |b| && body[i] != b[i] && body == b[i := body[i]];
      ChecksumSeesEveryByte(k, b, i, body[i]);
    }
    ReadFrame(kind, body, checksum, rest, limits);
    ReplayThen(records, Frame(kind, body, checksum) + rest, [], limits);
  }

  /** An append after a crash on a record boundary means what it should ... */
  lemma AppendAfterBoundary(records: seq<Record>, r: Record, limits: Limits)
    requires AllInBounds(records, limits) && InBounds(r, limits)
    ensures ReplayFrom(PrintAll(records) + Print(r), [], limits) == Fold([], records + [r], limits.maxRecords)
  {
    PrintAllAppend(records, [r]);
    PrintOne(r);
    ReplayOfLog(records + [r], limits);
  }

  // ---- ... but the writer never cuts off a torn tail ----

  /** What a crash leaves of a record, and the records written after it. */
  function TornTail(q: Record, torn: nat, rs: seq<Record>): seq<byte>
    requires torn <= |Print(q)|
  {
    Print(q)[..torn] + PrintAll(rs)
  }

  /** The length field that a reader finds where the torn record began. */
  function SplicedLength(tail: seq<byte>): nat
    requires |tail| >= RECORD_HEADER
  {
    ReadU32(tail, 5)
  }

  /** The spliced bytes pass for a record: a checksum collision. */
  predicate Collides(tail: seq<byte>, limits: Limits) {
    ReadRecord(tail, limits).Got?
  }

  /** How replay goes on at a torn tail: it fails, or it stops as if the log ended there. */
  function TornOutcome(torn: nat, tail: seq<byte>, limits: Limits): Option<WalError>
    requires |tail| >= RECORD_HEADER
  {
    if torn < |MAGIC| then Some(InvalidRecord)
    else
      var len := SplicedLength(tail);
      if len == 0 || len > limits.maxPayload + HEADER then Some(RecordTooLarge)
      else if |tail| < RECORD_HEADER + len + TRAILER then None
      else Some(InvalidRecord)
  }

  lemma PrintsHaveMagic(rs: seq<Record>)
    requires rs != []
    ensures |PrintAll(rs)| >= RECORD_HEADER + TRAILER && PrintAll(rs)[..4] == MAGIC
  {
    PrintFirst(rs);
  }

  lemma BrokenMagic(torn: nat, rest: seq<byte>)
    requires 0 < torn < |MAGIC| && |rest| >= 4 && rest[0] == MAGIC[0]
    ensures (MAGIC[..torn] + rest)[..4] != MAGIC
  {
    assert (MAGIC[..torn] + rest)[..4][torn] == rest[0] != MAGIC[torn];
  }

  /** Inside the magic word the next record's magic does not complete it. */
  lemma TornMagic(q: Record, torn: nat, rs: seq<Record>)
    requires 0 < torn < |MAGIC| && rs != []
    ensures |TornTail(q, torn, rs)| >= RECORD_HEADER && TornTail(q, torn, rs)[..4] != MAGIC
  {
    PrintsHaveMagic(rs);
    assert PrintAll(rs)[0] == PrintAll(rs)[..4][0];
    BrokenMagic(torn, PrintAll(rs));
    assert Print(q)[..torn] == MAGIC[..torn];
  }

  /** Past the magic word the reader takes the splice for one record. */
  lemma TornHeader(q: Record, torn: nat, rs: seq<Record>)
    requires |MAGIC| <= torn < |Print(q)| && rs != []
    ensures |TornTail(q, torn, rs)| >= RECORD_HEADER && TornTail(q, torn, rs)[..4] == MAGIC
  {
    PrintsHaveMagic(rs);
    assert Print(q)[..4] == MAGIC;
  }

  lemma ReadTornTail(q: Record, torn: nat, rs: seq<Record>, limits: Limits)
    requires 0 < torn < |Print(q)| && rs != [] && limits.maxPayload + HEADER < U64_LIMIT
    requires !Collides(TornTail(q, torn, rs), limits)
    ensures |TornTail(q, torn, rs)| >= RECORD_HEADER
    ensures var tail := TornTail(q, torn, rs);
      var outcome := TornOutcome(torn, tail, limits);
      ReadRecord(tail, limits) == if outcome.Some? then Bad(outcome.value) else End
  {
    if torn < |MAGIC| {
      TornMagic(q, torn, rs);
    } else {
      TornHeader(q, torn, rs);
    }
  }

  lemma HeaderStays(whole: seq<byte>, torn: nat, rest: seq<byte>)
    requires RECORD_HEADER <= torn <= |whole|
    ensures |whole[..torn] + rest| >= RECORD_HEADER && ReadU32(whole[..torn] + rest, 5) == ReadU32(whole, 5)
  {
    assert (whole[..torn] + rest)[5..9] == whole[5..9];
  }

  /** Past the whole header the spliced length is the torn record's own. */
  lemma TornBodyLength(q: Record, torn: nat, rs: seq<Record>, limits: Limits)
    requires RECORD_HEADER <= torn < |Print(q)| && InBounds(q, limits)
    ensures |TornTail(q, torn, rs)| >= RECORD_HEADER && SplicedLength(TornTail(q, torn, rs)) == |BodyOf(q)|
  {
    BodyIsReadable(q, limits);
    var kind, body := KindByteOf(q), BodyOf(q);
    FrameFields(kind, body, Checksum(kind, body), []);
    assert Print(q) + [] == Print(q);
    HeaderStays(Print(q), torn, PrintAll(rs));
  }

  /** A record whose checksum is torn, up to four bytes of it, is that record with another checksum. */
  lemma TornTrailer(q: Record, torn: nat, file: seq<byte>) returns (checksum: nat)
    requires |Print(q)| - TRAILER <= torn < |Print(q)| && |file| >= TRAILER
    ensures checksum < U32_LIMIT
    ensures Print(q)[..torn] + file == Frame(KindByteOf(q), BodyOf(q), checksum) + file[|Print(q)| - torn..]
  {
    var before, n := Print(q)[..|Print(q)| - TRAILER], |Print(q)| - torn;
    var spliced := Print(q)[|Print(q)| - TRAILER..torn] + file[..n];
    WordSizes();
    ToFromLe(spliced);
    checksum := FromLe(spliced);
    assert Frame(KindByteOf(q), BodyOf(q), checksum) == before + spliced;
    Splice(Print(q), file, |before|, torn, n);
  }

  lemma Splice(a: seq<byte>, b: seq<byte>, from: nat, to: nat, n: nat)
    requires from <= to <= |a| && n <= |b|
    ensures a[..to] + b == (a[..from] + (a[from..to] + b[..n])) + b[n..]
  {
    assert a[..to] == a[..from] + a[from..to];
    assert b == b[..n] + b[n..];
  }

  /** What is left of a log that lost the start of its magic word is no log. */
  lemma WithoutMagic(rs: seq<Record>, n: nat, limits: Limits)
    requires rs != [] && 1 <= n <= |MAGIC|
    ensures n <= |PrintAll(rs)| && ReadRecord(PrintAll(rs)[n..], limits) == Bad(InvalidRecord)
  {
    PrintFirst(rs);
    var file := PrintAll(rs);
    assert |BodyOf(rs[0])| >= 4;
    assert file[n..][..4][0] == file[n] == (MAGIC + [KindByteOf(rs[0])])[n] != MAGIC[0];
  }

  /** Records appended after a torn checksum always make replay fail. */
  lemma TornTrailerFails(records: seq<Record>, q: Record, torn: nat, rs: seq<Record>, limits: Limits)
    requires AllInBounds(records, limits) && InBounds(q, limits) && rs != [] && Fold([], records, limits.maxRecords).Ok?
    requires |Print(q)| - TRAILER <= torn < |Print(q)|
    ensures ReplayFrom(PrintAll(records) + TornTail(q, torn, rs), [], limits).Err?
  {
    var pending := Fold([], records, limits.maxRecords).value;
    var rest := PrintAll(rs)[|Print(q)| - torn..];
    ReadTornTrailer(q, torn, rs, limits);
    BodyIsReadable(q, limits);
    WithoutMagic(rs, |Print(q)| - torn, limits);
    var m := Apply(pending, q, limits.maxRecords);
    if m.Ok? { assert ReplayFrom(rest, m.value, limits) == Err(InvalidRecord); }
    assert ReplayFrom(TornTail(q, torn, rs), pending, limits).Err?;
    ReplayThen(records, TornTail(q, torn, rs), [], limits);
  }

  lemma ReadTornTrailer(q: Record, torn: nat, rs: seq<Record>, limits: Limits)
    requires InBounds(q, limits) && rs != [] && |Print(q)| - TRAILER <= torn < |Print(q)|
    ensures |PrintAll(rs)| >= |Print(q)| - torn
    ensures var reading := ReadRecord(TornTail(q, torn, rs), limits);
      reading == Bad(InvalidRecord) || reading == Got(KindByteOf(q), BodyOf(q), PrintAll(rs)[|Print(q)| - torn..])
  {
    PrintsHaveMagic(rs);
    var checksum := TornTrailer(q, torn, PrintAll(rs));
    BodyIsReadable(q, limits);
    ReadFrame(KindByteOf(q), BodyOf(q), checksum, PrintAll(rs)[|Print(q)| - torn..], limits);
  }

  /** A tear that is not in the checksum reads as a record only if the spliced bytes happen to end in their checksum. */
  predicate Passes(q: Record, torn: nat, rs: seq<Record>, limits: Limits)
    requires torn <= |Print(q)|
  {
    0 < torn < |Print(q)| - TRAILER && Collides(TornTail(q, torn, rs), limits)
  }

  /**
    * What appends after a torn record mean, wherever it was torn and whatever is appended: short of a checksum
    * collision replay either fails, or returns the records before the torn one and silently loses all later ones.
    */
  lemma AppendsAfterTornTail(records: seq<Record>, q: Record, torn: nat, rs: seq<Record>, limits: Limits)
    requires AllInBounds(records, limits) && InBounds(q, limits) && AllInBounds(rs, limits) && rs != []
    requires Fold([], records, limits.maxRecords).Ok? && 0 < torn < |Print(q)|
    requires !Passes(q, torn, rs, limits)
    ensures |TornTail(q, torn, rs)| >= RECORD_HEADER
    ensures var tail := TornTail(q, torn, rs);
      var outcome := TornOutcome(torn, tail, limits);
      var replayed := ReplayFrom(PrintAll(records) + tail, [], limits);
      && (if outcome.Some? then replayed.Err? else replayed == Fold([], records, limits.maxRecords))
      && (outcome.Some? && !Collides(tail, limits) ==> replayed == Err(outcome.value))
      && (torn < |MAGIC| ==> outcome == Some(InvalidRecord))
      && (torn >= RECORD_HEADER ==> outcome == if |tail| < |Print(q)| then None else Some(InvalidRecord))
      && (torn >= |Print(q)| - TRAILER ==> outcome.Some?)
  {
    var tail := TornTail(q, torn, rs);
    if torn >= RECORD_HEADER {
      TornBodyLength(q, torn, rs, limits);
      BodyIsReadable(q, limits);
    }
    PrintsHaveMagic(rs);
    if Collides(tail, limits) {
      if torn < |Print(q)| - TRAILER { assert false; }
      TornTrailerFails(records, q, torn, rs, limits);
    } else {
      ReadTornTail(q, torn, rs, limits);
      ReplayThen(records, tail, [], limits);
    }
  }

  lemma NothingJoined(a: seq<Record>, b: seq<Record>)
    ensures b == [] ==> a + b == a
  {
  }

  /** Appended records are replayed exactly when the log ended on a record boundary, short of a collision. */
  lemma AppendsMeanExactlyAtBoundary(records: seq<Record>, q: Record, torn: nat, rs: seq<Record>, limits: Limits)
    requires AllInBounds(records, limits) && InBounds(q, limits) && AllInBounds(rs, limits) && torn < |Print(q)|
    requires Fold([], records, limits.maxRecords).Ok? && Fold([], records + rs, limits.maxRecords).Ok?
    requires Fold([], records + rs, limits.maxRecords) != Fold([], records, limits.maxRecords)
    requires !Passes(q, torn, rs, limits)
    ensures ReplayFrom(PrintAll(records) + TornTail(q, torn, rs), [], limits) == Fold([], records + rs, limits.maxRecords)
       <==> torn == 0
  {
    NothingJoined(records, rs);
    if torn == 0 {
      PrintAllAppend(records, rs);
      assert TornTail(q, torn, rs) == PrintAll(rs);
      ReplayOfLog(records + rs, limits);
    } else {
      AppendsAfterTornTail(records, q, torn, rs, limits);
    }
  }

  /** The silent loss is not rare: a packet torn right after its header swallows the next acknowledgement without an error. */
  lemma LaterAcknowledgementIsLost(records: seq<Record>, q: Record, sequence: u64, limits: Limits)
    requires AllInBounds(records, limits) && InBounds(q, limits) && q.PacketRecord? && Fold([], records, limits.maxRecords).Ok?
    ensures RECORD_HEADER < |Print(q)|
    ensures ReplayFrom(PrintAll(records) + TornTail(q, RECORD_HEADER, [AckRecord(sequence)]), [], limits) == Fold([], records, limits.maxRecords)
  {
    var rs := [AckRecord(sequence)];
    var tail := TornTail(q, RECORD_HEADER, rs);
    PrintOne(AckRecord(sequence));
    TornBodyLength(q, RECORD_HEADER, rs, limits);
    assert |tail| < |Print(q)|;
    AppendsAfterTornTail(records, q, RECORD_HEADER, rs, limits);
  }

  // ---- The log object ----

  /** The bytes of one record, part by part. */
  method WriteRecord(kind: byte, body: seq<byte>) returns (bytes: seq<byte>)
    ensures bytes == Frame(kind, body, Checksum(kind, body))
  {
    var checksum := WalChecksum(kind, body);
    bytes := MAGIC + [kind];
    bytes := bytes + ToLe(|body|, 4);
    bytes := bytes + body;
    bytes := bytes + ToLe(checksum, 4);
  }

  /** A packet's record, or the refusal of an empty or oversized payload. */
  method WritePacket(packet: SyncPacket, limits: Limits) returns (r: Result<seq<byte>, WalError>)
    requires limits.maxPayload + HEADER < U64_LIMIT
    ensures r.Ok? <==> InBounds(PacketRecord(packet), limits)
    ensures r == if r.Ok? then Ok(Print(PacketRecord(packet))) else Err(RecordTooLarge)
  {
    if packet.payload == [] || |packet.payload| > limits.maxPayload {
      return Err(RecordTooLarge);
    }
    var body := EncodePacket(packet);
    if body.Err? || |body.value| >= U32_LIMIT {
      return Err(RecordTooLarge);
    }
    var bytes := WriteRecord(PACKET, body.value);
    return Ok(bytes);
  }

  /** `file` is the log's content; `records` is what has been written to it. */
  class SyncWal {
    const limits: Limits
    var file: seq<byte>
    ghost var records: seq<Record>

    ghost predicate Valid()
      reads this
    {
      AllInBounds(records, limits) && file == PrintAll(records)
    }

    constructor OpenWithLimits(maxPayload: nat, maxRecords: nat)
      requires maxPayload + HEADER < U64_LIMIT && maxRecords > 0
      ensures Valid() && records == [] && limits == Limits(maxPayload, maxRecords)
    {
      limits := Limits(maxPayload, maxRecords);
      file := [];
      records := [];
    }

    /** Writes one record of an unacknowledged packet, or refuses it and writes nothing. */
    method Append(packet: SyncPacket) returns (r: Result<(), WalError>)
      requires Valid() && limits.maxPayload + HEADER < U64_LIMIT
      modifies this
      ensures Valid()
      ensures r.Ok? <==> InBounds(PacketRecord(packet), limits)
      ensures r.Err? ==> r.error == RecordTooLarge
      ensures records == if r.Ok? then old(records) + [PacketRecord(packet)] else old(records)
    {
      var record := WritePacket(packet, limits);
      if record.Err? {
        return Err(record.error);
      }
      AppendRecord(record.value, PacketRecord(packet));
      return Ok(());
    }

    method Acknowledge(sequence: u64) returns (r: Result<(), WalError>)
      requires Valid() && limits.maxPayload + HEADER < U64_LIMIT
      modifies this
      ensures Valid() && r.Ok?
      ensures records == old(records) + [AckRecord(sequence)]
    {
      var record := WriteRecord(ACK, ToLe(sequence, 8));
      AppendRecord(record, AckRecord(sequence));
      return Ok(());
    }

    method AppendRecord(bytes: seq<byte>, ghost record: Record)
      requires Valid() && InBounds(record, limits) && bytes == Print(record)
      modifies this
      ensures Valid() && records == old(records) + [record]
    {
      file := file + bytes;
      PrintAllAppend(records, [record]);
      PrintOne(record);
      records := records + [record];
    }

    /** Reads the log from the start: the fold of everything written. */
    method Replay() returns (r: Result<seq<SyncPacket>, WalError>)
      requires Valid()
      ensures r == Fold([], records, limits.maxRecords)
    {
      ReplayOfLog(records, limits);
      r := ReplayBytes(file, limits);
    }

    /** Replaces the log by the given packets. */
    method Compact(packets: seq<SyncPacket>) returns (r: Result<(), WalError>)
      requires Valid() && limits.maxPayload + HEADER < U64_LIMIT
      modifies this
      ensures Valid()
      ensures r.Ok? <==> |packets| <= limits.maxRecords
                         && PacketsInBounds(packets, limits)
      ensures records == if r.Ok? then AsRecords(packets) else old(records)
    {
      if |packets| > limits.maxRecords {
        return Err(TooManyRecords);
      }
      var temp := PrintPackets(packets, limits);
      if temp.Err? {
        return Err(temp.error);
      }
      file := temp.value;
      records := AsRecords(packets);
      return Ok(());
    }
  }

  ghost predicate PacketsInBounds(packets: seq<SyncPacket>, limits: Limits) {
    forall i :: 0 <= i < |packets| ==> InBounds(PacketRecord(packets[i]), limits)
  }

  lemma OneMoreInBounds(packets: seq<SyncPacket>, i: nat, limits: Limits)
    requires i < |packets|
    ensures PacketsInBounds(packets[..i + 1], limits) <==> PacketsInBounds(packets[..i], limits) && InBounds(PacketRecord(packets[i]), limits)
    ensures PacketsInBounds(packets, limits) ==> InBounds(PacketRecord(packets[i]), limits)
  {
    assert packets[..i + 1] == packets[..i] + [packets[i]];
  }

  /** The compacted file, or the first refusal. */
  method PrintPackets(packets: seq<SyncPacket>, limits: Limits) returns (r: Result<seq<byte>, WalError>)
    requires limits.maxPayload + HEADER < U64_LIMIT
    ensures r.Ok? <==> PacketsInBounds(packets, limits)
    ensures r.Ok? ==> r.value == PrintAll(AsRecords(packets))
  {
    var temp := [];
    for i := 0 to |packets|
      invariant temp == PrintAll(AsRecords(packets[..i]))
      invariant PacketsInBounds(packets[..i], limits)
    {
      OneMoreInBounds(packets, i, limits);
      PrintNextPacket(packets, i);
      var record := WritePacket(packets[i], limits);
      if record.Err? {
        return Err(record.error);
      }
      temp := temp + record.value;
    }
    assert packets[..|packets|] == packets;
    return Ok(temp);
  }

  lemma PrintNextPacket(packets: seq<SyncPacket>, i: nat)
    requires i < |packets|
    ensures PrintAll(AsRecords(packets[..i + 1])) == PrintAll(AsRecords(packets[..i])) + Print(PacketRecord(packets[i]))
  {
    var before, last := AsRecords(packets[..i]), PacketRecord(packets[i]);
    assert AsRecords(packets[..i + 1]) == before + [last];
    PrintAllAppend(before, [last]);
    PrintOne(last);
  }

  function AsRecords(packets: seq<SyncPacket>): (r: seq<Record>)
    ensures |r| == |packets|
  {
    seq(|packets|, i requires 0 <= i < |packets| => PacketRecord(packets[i]))
  }

  /** The replay loop over the bytes of a file. */
  method ReplayBytes(file: seq<byte>, limits: Limits) returns (r: Result<seq<SyncPacket>, WalError>)
    ensures r == ReplayFrom(file, [], limits)
  {
    var pending: seq<SyncPacket> := [];
    var left := file;
    while true
      invariant ReplayFrom(file, [], limits) == ReplayFrom(left, pending, limits)
      decreases |left|
    {
      var reading := ReadRecord(left, limits);
      match reading
      case End => return Ok(pending);
      case Bad(e) => return Err(e);
      case Got(kind, body, rest) =>
        var record := Interpret(kind, body, limits);
        if record.Err? {
          return Err(record.error);
        }
        var next := Apply(pending, record.value, limits.maxRecords);
        if next.Err? {
          return Err(next.error);
        }
        pending, left := next.value, rest;
    }
  }

  ghost predicate DistinctSequences(packets: seq<SyncPacket>) {
    forall i, j :: 0 <= i < j < |packets| ==> packets[i].sequence != packets[j].sequence
  }

  lemma FoldSingle(pending: seq<SyncPacket>, r: Record, maxRecords: nat)
    ensures Fold(pending, [r], maxRecords) == Apply(pending, r, maxRecords)
  {
    assert [r][1..] == [];
  }

  lemma {:induction false} FoldOfPackets(packets: seq<SyncPacket>, n: nat, maxRecords: nat)
    requires DistinctSequences(packets) && n <= |packets| <= maxRecords
    ensures Fold([], AsRecords(packets)[..n], maxRecords) == Ok(packets[..n])
  {
    if n > 0 {
      FoldOfPackets(packets, n - 1, maxRecords);
      var before, last := AsRecords(packets)[..n - 1], PacketRecord(packets[n - 1]);
      assert AsRecords(packets)[..n] == before + [last];
      FoldAppend([], before, [last], maxRecords);
      FoldSingle(packets[..n - 1], last, maxRecords);
      assert packets[..n] == packets[..n - 1] + [packets[n - 1]];
    }
  }

  // ---- What replay can return ----

  /** `Put` changes only the entry of its own sequence number. */
  lemma PutMembers(live: seq<SyncPacket>, p: SyncPacket)
    requires DistinctSequences(live)
    ensures DistinctSequences(Put(live, p)) && p in Put(live, p)
    ensures forall q :: q in live && q.sequence != p.sequence ==> q in Put(live, p)
    ensures forall q :: q in Put(live, p) ==> q == p || q in live
  {
    var i := Find(live, p.sequence);
    if i.Some? {
      var put := live[i.value := p];
      assert put[i.value] == p;
      forall q | q in live && q.sequence != p.sequence ensures q in put {
        var j :| 0 <= j < |live| && live[j] == q;
        assert put[j] == q;
      }
    }
  }

  lemma {:induction false} RetainMembers(packets: seq<SyncPacket>, sequence: u64)
    ensures |Retain(packets, sequence)| <= |packets|
    ensures forall p :: p in Retain(packets, sequence) <==> p in packets && p.sequence > sequence
  {
    if packets != [] {
      var n := |packets| - 1;
      RetainMembers(packets[..n], sequence);
      assert packets == packets[..n] + [packets[n]];
    }
  }

  lemma {:induction false} RetainIsDistinct(live: seq<SyncPacket>, a: u64)
    requires DistinctSequences(live)
    ensures DistinctSequences(Retain(live, a))
  {
    if live != [] {
      var n := |live| - 1;
      RetainIsDistinct(live[..n], a);
      RetainMembers(live[..n], a);
      forall i | 0 <= i < |Retain(live[..n], a)| ensures Retain(live[..n], a)[i].sequence != live[n].sequence {
        assert Retain(live[..n], a)[i] in live[..n];
      }
    }
  }

  /** No sequence twice, within the record limit, and every packet one that the log takes. */
  ghost predicate Clean(packets: seq<SyncPacket>, limits: Limits) {
    DistinctSequences(packets) && |packets| <= limits.maxRecords && PacketsInBounds(packets, limits)
  }

  lemma ReadPacketIsInBounds(kind: byte, body: seq<byte>, limits: Limits)
    requires Interpret(kind, body, limits).Ok? && |body| < U32_LIMIT && limits.maxPayload + HEADER < U64_LIMIT
    ensures InBounds(Interpret(kind, body, limits).value, limits)
  {
    if kind == PACKET {
      EncodeInvertsDecode(body, limits.maxPayload);
    }
  }

  lemma ApplyIsClean(pending: seq<SyncPacket>, r: Record, limits: Limits)
    requires Clean(pending, limits) && InBounds(r, limits) && Apply(pending, r, limits.maxRecords).Ok?
    ensures Clean(Apply(pending, r, limits.maxRecords).value, limits)
  {
    var next := Apply(pending, r, limits.maxRecords).value;
    assert forall i :: 0 <= i < |pending| ==> pending[i] in pending;
    if r.PacketRecord? {
      PutMembers(pending, r.packet);
    } else {
      RetainIsDistinct(pending, r.sequence);
      RetainMembers(pending, r.sequence);
    }
    forall i | 0 <= i < |next| ensures InBounds(PacketRecord(next[i]), limits) {
      assert next[i] in next;
    }
  }

  /** Whatever the file, replay returns a clean list or fails. */
  lemma {:induction false} ReplayIsClean(file: seq<byte>, pending: seq<SyncPacket>, limits: Limits)
    requires Clean(pending, limits) && ReplayFrom(file, pending, limits).Ok?
    ensures Clean(ReplayFrom(file, pending, limits).value, limits)
    decreases |file|
  {
    var reading := ReadRecord(file, limits);
    if reading.Got? {
      ReadPacketIsInBounds(reading.kind, reading.body, limits);
      var r := Interpret(reading.kind, reading.body, limits).value;
      ApplyIsClean(pending, r, limits);
      ReplayIsClean(reading.rest, Apply(pending, r, limits.maxRecords).value, limits);
    }
  }

  /** Replaying a compacted log returns the compacted packets exactly if no two of them share a sequence. */
  lemma CompactRoundTrip(packets: seq<SyncPacket>, limits: Limits)
    requires |packets| <= limits.maxRecords && PacketsInBounds(packets, limits)
    ensures ReplayFrom(PrintAll(AsRecords(packets)), [], limits) == Ok(packets) <==> DistinctSequences(packets)
  {
    if DistinctSequences(packets) {
      ReplayOfLog(AsRecords(packets), limits);
      FoldOfPackets(packets, |packets|, limits.maxRecords);
      assert AsRecords(packets)[..|packets|] == AsRecords(packets);
      assert packets[..|packets|] == packets;
    } else if ReplayFrom(PrintAll(AsRecords(packets)), [], limits) == Ok(packets) {
      ReplayIsClean(PrintAll(AsRecords(packets)), [], limits);
    }
  }

  /** So whatever a replay returned, of any file, can be compacted and replayed again. */
  lemma ReplayedIsCompactable(file: seq<byte>, limits: Limits)
    requires ReplayFrom(file, [], limits).Ok?
    ensures var packets := ReplayFrom(file, [], limits).value;
      && |packets| <= limits.maxRecords && PacketsInBounds(packets, limits)
      && ReplayFrom(PrintAll(AsRecords(packets)), [], limits) == Ok(packets)
  {
    ReplayIsClean(file, [], limits);
    CompactRoundTrip(ReplayFrom(file, [], limits).value, limits);
  }
}
