/**
 The wire format of a batch: a little-endian count, then the records of the messages one
 after the other.
 */
module BatchCodec {
  import opened Messages

  const LIMIT32: int := 0x1_0000_0000

  // ----- Little-endian integers -----

  function Pow256(k: nat): (r: nat) {
    if k == 0 then 1 else 256 * Pow256(k - 1)
  }

  function WriteInt(k: nat, n: nat): (r: seq<U8>)
    ensures |r| == k
  {
    if k == 0 then [] else [n % 256] + WriteInt(k - 1, n / 256)
  }

  function ReadInt(bytes: seq<U8>): (r: nat) {
    if bytes == [] then 0 else bytes[0] + 256 * ReadInt(bytes[1..])
  }

  lemma {:induction false} IntRoundTrip(k: nat, n: nat)
    requires n < Pow256(k)
    ensures ReadInt(WriteInt(k, n)) == n
  {
    if k > 0 {
      IntRoundTrip(k - 1, n / 256);
      assert WriteInt(k, n)[1..] == WriteInt(k - 1, n / 256);
    }
  }

  lemma Widths()
    ensures Pow256(1) == 0x100 && Pow256(4) == 0x1_0000_0000 && Pow256(8) == 0x1_0000_0000_0000_0000
  {}

  // ----- Encoding -----

  function ParseProtocol(p: U8): (r: Protocol) {
    match p
    case 0 => Ethernet
    case 1 => Uart
    case 2 => Spi
    case 3 => CanFd
    case 4 => FlexRay
    case 5 => Lin
    case 6 => Rf802154
    case 7 => RfHci
    case _ => Ethernet
  }

  function SerializeProtocol(p: Protocol): (r: U8) {
    match p
    case Ethernet => 0
    case Uart => 1
    case Spi => 2
    case CanFd => 3
    case FlexRay => 4
    case Lin => 5
    case Rf802154 => 6
    case RfHci => 7
    case Control => 8
  }

  /** One record; the payload length is cut to 32 bits, the base topic is not sent. */
  function EncodeMessage(m: CoordMessage): (r: seq<U8>) {
    WriteInt(4, m.src) + WriteInt(4, m.dst) + WriteInt(8, m.vtime) + WriteInt(8, m.sequence)
    + [SerializeProtocol(m.protocol)] + WriteInt(4, |m.payload| % LIMIT32) + m.payload
  }

  function EncodeRecords(msgs: seq<CoordMessage>): (r: seq<U8>) {
    if msgs == [] then [] else EncodeMessage(msgs[0]) + EncodeRecords(msgs[1..])
  }

  function EncodeBatch(msgs: seq<CoordMessage>): (r: seq<U8>) {
    WriteInt(4, |msgs| % LIMIT32) + EncodeRecords(msgs)
  }

  // ----- Decoding -----

  /** A read moves the cursor past what it took; `onShort` says where it ends up when too little is left. */
  datatype Read<+T> = Read(value: Option<T>, pos: nat)

  type ShortRead = (nat, nat) -> nat

  function ReadBytes(onShort: ShortRead, data: seq<U8>, pos: nat, k: nat): (r: Read<seq<U8>>) {
    if pos + k <= |data| then Read(Some(data[pos..pos + k]), pos + k) else Read(None, onShort(pos, |data|))
  }

  function ReadNumber(onShort: ShortRead, data: seq<U8>, pos: nat, k: nat): (r: Read<nat>) {
    var bytes := ReadBytes(onShort, data, pos, k);
    Read(if bytes.value.Some? then Some(ReadInt(bytes.value.value)) else None, bytes.pos)
  }

  lemma {:induction false} ReadIntBound(bytes: seq<U8>)
    ensures ReadInt(bytes) < Pow256(|bytes|)
  {
    if bytes != [] {
      ReadIntBound(bytes[1..]);
    }
  }

  /** All six header fields are read whether or not one of them fails. */
  datatype Header = Header(src: Option<nat>, dst: Option<nat>, vtime: Option<nat>, sequence: Option<nat>, protocol: Option<nat>, len: Option<nat>, pos: nat)

  function ReadHeader(onShort: ShortRead, data: seq<U8>, pos: nat): (r: Header)
    ensures r.src.Some? ==> r.src.value < Pow256(4)
    ensures r.dst.Some? ==> r.dst.value < Pow256(4)
    ensures r.vtime.Some? ==> r.vtime.value < Pow256(8)
    ensures r.sequence.Some? ==> r.sequence.value < Pow256(8)
    ensures r.protocol.Some? ==> r.protocol.value < Pow256(1)
  {
    var src := ReadNumber(onShort, data, pos, 4);
    var dst := ReadNumber(onShort, data, src.pos, 4);
    var vtime := ReadNumber(onShort, data, dst.pos, 8);
    var sequence := ReadNumber(onShort, data, vtime.pos, 8);
    var protocol := ReadNumber(onShort, data, sequence.pos, 1);
    var len := ReadNumber(onShort, data, protocol.pos, 4);
    ReadNumberBound(onShort, data, pos, 4);
    ReadNumberBound(onShort, data, src.pos, 4);
    ReadNumberBound(onShort, data, dst.pos, 8);
    ReadNumberBound(onShort, data, vtime.pos, 8);
    ReadNumberBound(onShort, data, sequence.pos, 1);
    Header(src.value, dst.value, vtime.value, sequence.value, protocol.value, len.value, len.pos)
  }

  lemma ReadNumberBound(onShort: ShortRead, data: seq<U8>, pos: nat, k: nat)
    ensures var r := ReadNumber(onShort, data, pos, k); r.value.Some? ==> r.value.value < Pow256(k)
  {
    if pos + k <= |data| {
      ReadIntBound(data[pos..pos + k]);
    }
  }

  function ReadRecord(onShort: ShortRead, data: seq<U8>, pos: nat): (r: Read<CoordMessage>) {
    var h := ReadHeader(onShort, data, pos);
    if h.src.Some? && h.dst.Some? && h.vtime.Some? && h.sequence.Some? && h.protocol.Some? && h.len.Some? then
      var payload := ReadBytes(onShort, data, h.pos, h.len.value);
      Widths();
      if payload.value.Some? then
        Read(Some(CoordMessage(h.src.value, h.dst.value, h.vtime.value, h.sequence.value,
                               ParseProtocol(h.protocol.value), payload.value.value, None)), payload.pos)
      else
        Read(None, payload.pos)
    else
      Read(None, h.pos)
  }

  /** The messages of `n` attempts from `pos` on. */
  function ReadRecords(onShort: ShortRead, data: seq<U8>, pos: nat, n: nat): (r: seq<CoordMessage>)
    decreases n
  {
    if n == 0 then []
    else
      var m := ReadRecord(onShort, data, pos);
      (if m.value.Some? then [m.value.value] else []) + ReadRecords(onShort, data, m.pos, n - 1)
  }

  function Decoded(onShort: ShortRead, data: seq<U8>): (r: seq<CoordMessage>) {
    var count := ReadNumber(onShort, data, 0, 4);
    if count.value.Some? then ReadRecords(onShort, data, count.pos, count.value.value) else []
  }

  /** The cursor loop, on any bytes. */
  method DecodeBatch(onShort: ShortRead, data: seq<U8>) returns (msgs: seq<CoordMessage>)
    ensures msgs == Decoded(onShort, data)
  {
    hide ReadRecord;
    msgs := [];
    var count := ReadNumber(onShort, data, 0, 4);
    if count.value.Some? {
      var pos := count.pos;
      var n := count.value.value;
      for i := 0 to n
        invariant Decoded(onShort, data) == msgs + ReadRecords(onShort, data, pos, n - i)
      {
        var m := ReadRecord(onShort, data, pos);
        if m.value.Some? {
          assert msgs + ([m.value.value] + ReadRecords(onShort, data, m.pos, n - i - 1)) ==
                 (msgs + [m.value.value]) + ReadRecords(onShort, data, m.pos, n - i - 1);
          msgs := msgs + [m.value.value];
        }
        pos := m.pos;
      }
    }
  }

  // ----- Round trip -----

  /** What the format can carry of a message. */
  function Carried(m: CoordMessage): (r: CoordMessage) {
    m.(protocol := if m.protocol.Control? then Ethernet else m.protocol, baseTopic := None)
  }

  function CarriedAll(msgs: seq<CoordMessage>): (r: seq<CoordMessage>) {
    seq(|msgs|, i requires 0 <= i < |msgs| => Carried(msgs[i]))
  }

  lemma ReadField(onShort: ShortRead, before: seq<U8>, field: seq<U8>, after: seq<U8>)
    ensures ReadBytes(onShort, before + field + after, |before|, |field|) == Read(Some(field), |before| + |field|)
  {}

  lemma ReadNumberField(onShort: ShortRead, before: seq<U8>, k: nat, n: nat, after: seq<U8>)
    requires n < Pow256(k)
    ensures ReadNumber(onShort, before + WriteInt(k, n) + after, |before|, k) == Read(Some(n), |before| + k)
  {
    ReadField(onShort, before, WriteInt(k, n), after);
    IntRoundTrip(k, n);
  }

  lemma HeaderRoundTrip(onShort: ShortRead, before: seq<U8>, m: CoordMessage, after: seq<U8>)
    requires |m.payload| < LIMIT32
    ensures ReadHeader(onShort, before + EncodeMessage(m) + after, |before|) ==
            Header(Some(m.src), Some(m.dst), Some(m.vtime), Some(m.sequence), Some(SerializeProtocol(m.protocol)),
                   Some(|m.payload|), |before| + 29)
  {
    hide WriteInt, ReadNumber;
    Widths();
    var data := before + EncodeMessage(m) + after;
    var a, b, c, d := WriteInt(4, m.src), WriteInt(4, m.dst), WriteInt(8, m.vtime), WriteInt(8, m.sequence);
    var e, f := WriteInt(1, SerializeProtocol(m.protocol)), WriteInt(4, |m.payload|);
    assert e == [SerializeProtocol(m.protocol)] by { OneByte(SerializeProtocol(m.protocol)); }
    var rest := m.payload + after;
    assert data == before + a + (b + c + d + e + f + rest);
    ReadNumberField(onShort, before, 4, m.src, b + c + d + e + f + rest);
    assert data == (before + a) + b + (c + d + e + f + rest);
    ReadNumberField(onShort, before + a, 4, m.dst, c + d + e + f + rest);
    assert data == (before + a + b) + c + (d + e + f + rest);
    ReadNumberField(onShort, before + a + b, 8, m.vtime, d + e + f + rest);
    assert data == (before + a + b + c) + d + (e + f + rest);
    ReadNumberField(onShort, before + a + b + c, 8, m.sequence, e + f + rest);
    assert data == (before + a + b + c + d) + e + (f + rest);
    ReadNumberField(onShort, before + a + b + c + d, 1, SerializeProtocol(m.protocol), f + rest);
    assert data == (before + a + b + c + d + e) + f + rest;
    ReadNumberField(onShort, before + a + b + c + d + e, 4, |m.payload|, rest);
  }

  lemma OneByte(x: U8)
    ensures WriteInt(1, x) == [x]
  {}

  lemma EncodedLength(m: CoordMessage)
    ensures |EncodeMessage(m)| == 29 + |m.payload|
  {}

  lemma RecordRoundTrip(onShort: ShortRead, before: seq<U8>, m: CoordMessage, after: seq<U8>)
    requires |m.payload| < LIMIT32
    ensures ReadRecord(onShort, before + EncodeMessage(m) + after, |before|) ==
            Read(Some(Carried(m)), |before| + |EncodeMessage(m)|)
  {
    HeaderRoundTrip(onShort, before, m, after);
    EncodedLength(m);
    var data, e := before + EncodeMessage(m) + after, EncodeMessage(m);
    hide EncodeMessage, ReadHeader, WriteInt;
    var head := before + e[..29];
    assert e[29..] == m.payload by { EncodedPayload(m); }
    assert data == head + m.payload + after;
    ReadField(onShort, head, m.payload, after);
  }

  lemma EncodedPayload(m: CoordMessage)
    ensures |EncodeMessage(m)| >= 29 && EncodeMessage(m)[29..] == m.payload
  {}

  /** One successful attempt, and the rest from where it ends. */
  lemma ReadOne(onShort: ShortRead, data: seq<U8>, pos: nat, n: nat, m: CoordMessage, next: nat)
    requires n > 0 && ReadRecord(onShort, data, pos) == Read(Some(m), next)
    ensures ReadRecords(onShort, data, pos, n) == [m] + ReadRecords(onShort, data, next, n - 1)
  {
    hide ReadRecord;
  }

  lemma EncodeOne(before: seq<U8>, msgs: seq<CoordMessage>, after: seq<U8>)
    requires msgs != []
    ensures var first, rest := EncodeMessage(msgs[0]), EncodeRecords(msgs[1..]);
            before + EncodeRecords(msgs) + after == before + first + (rest + after) == (before + first) + rest + after
  {
    hide EncodeMessage;
  }

  lemma CarryOne(msgs: seq<CoordMessage>)
    requires msgs != []
    ensures CarriedAll(msgs) == [Carried(msgs[0])] + CarriedAll(msgs[1..])
  {}

  lemma {:induction false} RecordsRoundTrip(onShort: ShortRead, before: seq<U8>, msgs: seq<CoordMessage>, after: seq<U8>)
    requires forall i :: 0 <= i < |msgs| ==> |msgs[i].payload| < LIMIT32
    ensures ReadRecords(onShort, before + EncodeRecords(msgs) + after, |before|, |msgs|) == CarriedAll(msgs)
    decreases |msgs|
  {
    if msgs != [] {
      hide *;
      var first := EncodeMessage(msgs[0]);
      var data := before + EncodeRecords(msgs) + after;
      EncodeOne(before, msgs, after);
      RecordRoundTrip(onShort, before, msgs[0], EncodeRecords(msgs[1..]) + after);
      ReadOne(onShort, data, |before|, |msgs|, Carried(msgs[0]), |before + first|);
      RecordsRoundTrip(onShort, before + first, msgs[1..], after);
      CarryOne(msgs);
    }
  }

  /** Decoding an encoded batch gives back every message as far as the format carries it. */
  lemma BatchRoundTrip(onShort: ShortRead, msgs: seq<CoordMessage>, trailing: seq<U8>)
    requires |msgs| < LIMIT32 && forall i :: 0 <= i < |msgs| ==> |msgs[i].payload| < LIMIT32
    ensures Decoded(onShort, EncodeBatch(msgs) + trailing) == CarriedAll(msgs)
  {
    hide ReadRecords, EncodeRecords, ReadNumber, WriteInt;
    Widths();
    var count, records := WriteInt(4, |msgs|), EncodeRecords(msgs);
    var data := EncodeBatch(msgs) + trailing;
    assert data == [] + count + (records + trailing);
    ReadNumberField(onShort, [], 4, |msgs|, records + trailing);
    assert data == count + records + trailing;
    RecordsRoundTrip(onShort, count, msgs, trailing);
  }

  /** So the round trip is exact precisely for messages without a base topic that are not `Control`. */
  lemma BatchRoundTripExact(onShort: ShortRead, msgs: seq<CoordMessage>)
    requires |msgs| < LIMIT32 && forall i :: 0 <= i < |msgs| ==> |msgs[i].payload| < LIMIT32
    ensures Decoded(onShort, EncodeBatch(msgs)) == msgs <==>
            forall i :: 0 <= i < |msgs| ==> !msgs[i].protocol.Control? && msgs[i].baseTopic.None?
  {
    hide Decoded, EncodeBatch;
    assert EncodeBatch(msgs) + [] == EncodeBatch(msgs);
    BatchRoundTrip(onShort, msgs, []);
    var back := CarriedAll(msgs);
    if back == msgs {
      forall i | 0 <= i < |msgs| ensures !msgs[i].protocol.Control? && msgs[i].baseTopic.None? {
        assert back[i] == msgs[i];
      }
    }
  }
}
