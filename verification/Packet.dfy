/** The replication packet and its little-endian wire envelope (src/kernel/sync.rs). */
module Packet {
  import opened Wrappers

  type byte = x: int | 0 <= x < 256

  const U32_LIMIT: nat := 0x1_0000_0000
  const U64_LIMIT: nat := 0x1_0000_0000_0000_0000

  type u64 = x: int | 0 <= x < U64_LIMIT

  datatype SyncKind = Snapshot | Delta | Event

  datatype SyncPacket = SyncPacket(sequence: u64, ack: u64, kind: SyncKind, key: u64, payload: seq<byte>)

  datatype SyncError = EmptyPayload | PayloadTooLarge | Backpressure | InvalidPacket | ReceiveTooLarge | PersistenceFailed | InvalidConfig

  datatype WalError = InvalidRecord | RecordTooLarge | TooManyRecords

  /** Version, kind, sequence, ack, key and payload length. */
  const HEADER: nat := 30

  // ---- Little-endian integers ----

  function Pow256(k: nat): (p: nat)
    ensures p >= 1
  {
    if k == 0 then 1 else 256 * Pow256(k - 1)
  }

  function ToLe(x: nat, k: nat): (s: seq<byte>)
    ensures |s| == k
  {
    if k == 0 then [] else [x % 256] + ToLe(x / 256, k - 1)
  }

  function FromLe(s: seq<byte>): (x: nat)
    ensures x < Pow256(|s|)
  {
    if s == [] then 0 else s[0] + 256 * FromLe(s[1..])
  }

  lemma {:induction false} FromToLe(x: nat, k: nat)
    requires x < Pow256(k)
    ensures FromLe(ToLe(x, k)) == x
  {
    if k > 0 {
      FromToLe(x / 256, k - 1);
      assert ToLe(x, k)[1..] == ToLe(x / 256, k - 1);
    }
  }

  lemma {:induction false} ToFromLe(s: seq<byte>)
    ensures ToLe(FromLe(s), |s|) == s
  {
    if s != [] {
      ToFromLe(s[1..]);
      assert FromLe(s) % 256 == s[0] && FromLe(s) / 256 == FromLe(s[1..]);
    }
  }

  lemma WordSizes()
    ensures Pow256(4) == U32_LIMIT && Pow256(8) == U64_LIMIT
  {
    assert Pow256(2) == 0x1_0000;
    assert Pow256(4) == U32_LIMIT;
    assert Pow256(6) == 0x1_0000_0000_0000;
  }

  function ReadU64(s: seq<byte>, at: nat): u64
    requires at + 8 <= |s|
  {
    WordSizes();
    FromLe(s[at..at + 8])
  }

  function ReadU32(s: seq<byte>, at: nat): (n: nat)
    requires at + 4 <= |s|
    ensures n < U32_LIMIT
  {
    WordSizes();
    FromLe(s[at..at + 4])
  }

  lemma ReadWritten64(before: seq<byte>, x: u64, after: seq<byte>)
    ensures ReadU64(before + ToLe(x, 8) + after, |before|) == x
  {
    WordSizes();
    FromToLe(x, 8);
    assert (before + ToLe(x, 8) + after)[|before|..|before| + 8] == ToLe(x, 8);
  }

  lemma ReadWritten32(before: seq<byte>, x: nat, after: seq<byte>)
    requires x < U32_LIMIT
    ensures ReadU32(before + ToLe(x, 4) + after, |before|) == x
  {
    WordSizes();
    FromToLe(x, 4);
    assert (before + ToLe(x, 4) + after)[|before|..|before| + 4] == ToLe(x, 4);
  }

  // ---- The envelope ----

  function KindByte(kind: SyncKind): byte {
    match kind
    case Snapshot => 0
    case Delta => 1
    case Event => 2
  }

  function KindOf(b: byte): Option<SyncKind> {
    match b
    case 0 => Some(Snapshot)
    case 1 => Some(Delta)
    case 2 => Some(Event)
    case _ => None
  }

  function Envelope(p: SyncPacket): (bytes: seq<byte>)
    ensures |bytes| == HEADER + |p.payload|
  {
    [1, KindByte(p.kind)] + ToLe(p.sequence, 8) + ToLe(p.ack, 8) + ToLe(p.key, 8) + ToLe(|p.payload|, 4) + p.payload
  }

  function EncodePacket(p: SyncPacket): Result<seq<byte>, SyncError> {
    if p.payload == [] then Err(EmptyPayload)
    else if |p.payload| >= U32_LIMIT then Err(PayloadTooLarge)
    else Ok(Envelope(p))
  }

  /** The log's decoder. */
  function DecodePacket(bytes: seq<byte>, maxPayload: nat): Result<SyncPacket, WalError> {
    if |bytes| < HEADER || bytes[0] != 1 then Err(InvalidRecord)
    else
      match KindOf(bytes[1])
      case None => Err(InvalidRecord)
      case Some(kind) =>
        var len := ReadU32(bytes, 26);
        if len == 0 || len > maxPayload || HEADER + len != |bytes| then Err(RecordTooLarge)
        else Ok(SyncPacket(ReadU64(bytes, 2), ReadU64(bytes, 10), kind, ReadU64(bytes, 18), bytes[HEADER..]))
  }

  /** The network's decoder, before the packet is handed to `receive`. */
  function DecodeWire(bytes: seq<byte>, maxPayload: nat): Result<SyncPacket, SyncError> {
    if |bytes| < HEADER then Err(InvalidPacket)
    else
      match KindOf(bytes[1])
      case None => Err(InvalidPacket)
      case Some(kind) =>
        if bytes[0] != 1 then Err(InvalidPacket)
        else
          var len := ReadU32(bytes, 26);
          if len == 0 then Err(EmptyPayload)
          else if len > maxPayload || HEADER + len != |bytes| then Err(ReceiveTooLarge)
          else Ok(SyncPacket(ReadU64(bytes, 2), ReadU64(bytes, 10), kind, ReadU64(bytes, 18), bytes[HEADER..]))
  }

  /** What the encoder and a decoder with limit `maxPayload` both admit. */
  predicate Sendable(p: SyncPacket, maxPayload: nat) {
    1 <= |p.payload| <= maxPayload && |p.payload| < U32_LIMIT
  }

  lemma EnvelopeFields(p: SyncPacket)
    requires |p.payload| < U32_LIMIT
    ensures var b := Envelope(p);
            && ReadU64(b, 2) == p.sequence && ReadU64(b, 10) == p.ack && ReadU64(b, 18) == p.key
            && ReadU32(b, 26) == |p.payload| && b[HEADER..] == p.payload
  {
    var head := [1, KindByte(p.kind)];
    var s, a, k, n := ToLe(p.sequence, 8), ToLe(p.ack, 8), ToLe(p.key, 8), ToLe(|p.payload|, 4);
    EnvelopeParts(p, head, s, a, k, n);
    ReadWritten64(head, p.sequence, a + k + n + p.payload);
    ReadWritten64(head + s, p.ack, k + n + p.payload);
    ReadWritten64(head + s + a, p.key, n + p.payload);
    ReadWritten32(head + s + a + k, |p.payload|, p.payload);
  }

  lemma EnvelopeParts(p: SyncPacket, head: seq<byte>, s: seq<byte>, a: seq<byte>, k: seq<byte>, n: seq<byte>)
    ensures head + s + a + k + n + p.payload == head + s + (a + k + n + p.payload)
    ensures head + s + a + k + n + p.payload == (head + s) + a + (k + n + p.payload)
    ensures head + s + a + k + n + p.payload == (head + s + a) + k + (n + p.payload)
  {
  }

  /** Decoding inverts encoding, for both decoders. */
  lemma DecodeInvertsEncode(p: SyncPacket, maxPayload: nat)
    requires Sendable(p, maxPayload)
    ensures EncodePacket(p).Ok?
    ensures DecodePacket(EncodePacket(p).value, maxPayload) == Ok(p)
    ensures DecodeWire(EncodePacket(p).value, maxPayload) == Ok(p)
  {
    EnvelopeFields(p);
  }

  /** Every accepted byte string is the encoding of what it decodes to. */
  lemma EncodeInvertsDecode(bytes: seq<byte>, maxPayload: nat)
    requires DecodePacket(bytes, maxPayload).Ok?
    ensures var p := DecodePacket(bytes, maxPayload).value;
            Sendable(p, maxPayload) && EncodePacket(p) == Ok(bytes)
  {
    var p := DecodePacket(bytes, maxPayload).value;
    ToFromLe(bytes[2..10]);
    ToFromLe(bytes[10..18]);
    ToFromLe(bytes[18..26]);
    ToFromLe(bytes[26..30]);
    assert [1, KindByte(p.kind)] == bytes[..2];
    Fields(bytes);
  }

  lemma Fields(bytes: seq<byte>)
    requires |bytes| >= HEADER
    ensures bytes == bytes[..2] + bytes[2..10] + bytes[10..18] + bytes[18..26] + bytes[26..30] + bytes[30..]
  {
  }

  /** Byte `i` of a number, least significant first. */
  function ByteAt(x: nat, i: nat): nat { if i == 0 then x % 256 else ByteAt(x / 256, i - 1) }

  lemma {:induction false} LeByte(x: nat, k: nat, i: nat)
    requires i < k
    ensures ToLe(x, k)[i] as nat == ByteAt(x, i)
  {
    if i > 0 { LeByte(x / 256, k - 1, i - 1); }
  }

  /** Why the network's decoder refuses bytes. */
  lemma WireErrorsExactly(bytes: seq<byte>, maxPayload: nat)
    ensures DecodeWire(bytes, maxPayload) == Err(InvalidPacket) <==> |bytes| < 30 || bytes[0] != 1 || bytes[1] > 2
    ensures |bytes| >= 30 && bytes[0] == 1 && bytes[1] <= 2 ==>
      && (DecodeWire(bytes, maxPayload) == Err(EmptyPayload) <==> ReadU32(bytes, 26) == 0)
      && (DecodeWire(bytes, maxPayload).Ok? <==> 1 <= ReadU32(bytes, 26) <= maxPayload && |bytes| == 30 + ReadU32(bytes, 26))
  {
  }

  /** Where each field of an envelope is, byte by byte. */
  lemma EnvelopeLayout(p: SyncPacket)
    requires |p.payload| < U32_LIMIT
    ensures var b := Envelope(p);
      && |b| == 30 + |p.payload| && b[0] == 1
      && (b[1] == 0 <==> p.kind == Snapshot) && (b[1] == 1 <==> p.kind == Delta) && (b[1] == 2 <==> p.kind == Event)
      && (forall i: nat :: i < 8 ==> b[2 + i] as nat == ByteAt(p.sequence, i))
      && (forall i: nat :: i < 8 ==> b[10 + i] as nat == ByteAt(p.ack, i))
      && (forall i: nat :: i < 8 ==> b[18 + i] as nat == ByteAt(p.key, i))
      && (forall i: nat :: i < 4 ==> b[26 + i] as nat == ByteAt(|p.payload|, i))
      && forall i: nat :: i < |p.payload| ==> b[30 + i] == p.payload[i]
  {
    forall i: nat | i < 8
      ensures ToLe(p.sequence, 8)[i] as nat == ByteAt(p.sequence, i)
      ensures ToLe(p.ack, 8)[i] as nat == ByteAt(p.ack, i)
      ensures ToLe(p.key, 8)[i] as nat == ByteAt(p.key, i)
    {
      LeByte(p.sequence, 8, i);
      LeByte(p.ack, 8, i);
      LeByte(p.key, 8, i);
    }
    forall i: nat | i < 4 ensures ToLe(|p.payload|, 4)[i] as nat == ByteAt(|p.payload|, i) {
      LeByte(|p.payload|, 4, i);
    }
  }

  /** The two decoders accept exactly the same bytes and read the same packet. */
  lemma DecodersAgree(bytes: seq<byte>, maxPayload: nat)
    ensures DecodePacket(bytes, maxPayload).Ok? <==> DecodeWire(bytes, maxPayload).Ok?
    ensures DecodePacket(bytes, maxPayload).Ok? ==> DecodePacket(bytes, maxPayload).value == DecodeWire(bytes, maxPayload).value
    ensures DecodePacket(bytes, maxPayload).Ok? <==> exists p :: Sendable(p, maxPayload) && EncodePacket(p) == Ok(bytes)
  {
    if DecodePacket(bytes, maxPayload).Ok? {
      EncodeInvertsDecode(bytes, maxPayload);
    }
    forall p | Sendable(p, maxPayload) && EncodePacket(p) == Ok(bytes) ensures DecodePacket(bytes, maxPayload).Ok? {
      DecodeInvertsEncode(p, maxPayload);
    }
  }
}
