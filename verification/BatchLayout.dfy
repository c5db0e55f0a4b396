/**
 The wire format by byte positions: where in a record each field stands, and what the decoder
 makes of any bytes.
 */
module BatchLayout {
  import opened Integers
  import opened Messages
  import opened BatchCodec

  // ----- What the encoder writes -----

  /** `width` bytes from `at` on hold `n`, the least significant byte first. */
  ghost predicate Holds(bytes: seq<U8>, at: nat, width: nat, n: nat) {
    at + width <= |bytes| && forall i :: 0 <= i < width ==> bytes[at + i] == ByteOf(n, i)
  }

  /** Digit `i` of `n` to base 256. */
  function ByteOf(n: nat, i: nat): (r: U8) {
    Positive(i);
    n / Pow256(i) % 256
  }

  lemma {:induction false} Positive(i: nat)
    ensures Pow256(i) > 0
  {
    if i > 0 { Positive(i - 1); }
  }

  lemma {:induction false} WrittenByte(k: nat, n: nat, i: nat)
    requires i < k
    ensures WriteInt(k, n)[i] == ByteOf(n, i)
  {
    if i > 0 {
      WrittenByte(k - 1, n / 256, i - 1);
      Positive(i - 1);
      NestedQuotient(n, 256, Pow256(i - 1));
    }
  }

  lemma WrittenField(before: seq<U8>, k: nat, n: nat, after: seq<U8>)
    ensures Holds(before + WriteInt(k, n) + after, |before|, k, n)
  {
    hide ByteOf, WriteInt;
    forall i | 0 <= i < k { WrittenByte(k, n, i); }
  }

  /**
   A record: source, destination, time, sequence number, protocol, payload length, payload.  The
   protocol is written as its position in the declaration.
   */
  lemma RecordLayout(m: CoordMessage)
    ensures var e := EncodeMessage(m);
            && |e| == 29 + |m.payload|
            && Holds(e, 0, 4, m.src)
            && Holds(e, 4, 4, m.dst)
            && Holds(e, 8, 8, m.vtime)
            && Holds(e, 16, 8, m.sequence)
            && e[24] < |DECLARED| && DECLARED[e[24]] == m.protocol
            && Holds(e, 25, 4, |m.payload| % 0x1_0000_0000)
            && e[29..] == m.payload
  {
    hide WriteInt, Holds;
    var a, b, c, d := WriteInt(4, m.src), WriteInt(4, m.dst), WriteInt(8, m.vtime), WriteInt(8, m.sequence);
    var p, l := [SerializeProtocol(m.protocol)], WriteInt(4, |m.payload| % LIMIT32);
    var e := EncodeMessage(m);
    WrittenField([], 4, m.src, b + c + d + p + l + m.payload);
    assert e == [] + a + (b + c + d + p + l + m.payload);
    WrittenField(a, 4, m.dst, c + d + p + l + m.payload);
    assert e == a + b + (c + d + p + l + m.payload);
    WrittenField(a + b, 8, m.vtime, d + p + l + m.payload);
    assert e == (a + b) + c + (d + p + l + m.payload);
    WrittenField(a + b + c, 8, m.sequence, p + l + m.payload);
    assert e == (a + b + c) + d + (p + l + m.payload);
    WrittenField(a + b + c + d + p, 4, |m.payload| % LIMIT32, m.payload);
    assert e == (a + b + c + d + p) + l + m.payload;
    assert e[24] == p[0];
  }

  // ----- What the decoder makes of any bytes -----

  lemma Digit(b: U8, p: nat, rest: nat)
    requires rest < p
    ensures 0 <= rest + b * p < 256 * p
  {
    assert 256 * p == b * p + (256 - b) * p;
    Multiples(p, 256 - b);
  }

  /** The number in `k` bytes from `pos` on, the least significant byte first. */
  ghost function Number(data: seq<U8>, pos: nat, k: nat): (r: nat)
    requires pos + k <= |data|
    ensures r < Pow256(k)
  {
    if k == 0 then 0
    else
      Digit(data[pos + k - 1], Pow256(k - 1), Number(data, pos, k - 1));
      Number(data, pos, k - 1) + data[pos + k - 1] * Pow256(k - 1)
  }

  lemma {:induction false} ReadIntSnoc(bytes: seq<U8>, b: U8)
    ensures ReadInt(bytes + [b]) == ReadInt(bytes) + b * Pow256(|bytes|)
  {
    if bytes == [] {
      assert bytes + [b] == [b];
    } else {
      ReadIntSnoc(bytes[1..], b);
      assert (bytes + [b])[1..] == bytes[1..] + [b];
      var p := Pow256(|bytes| - 1);
      assert 256 * (b * p) == b * (256 * p);
    }
  }

  lemma {:induction false} ReadIntIsNumber(data: seq<U8>, pos: nat, k: nat)
    requires pos + k <= |data|
    ensures ReadInt(data[pos..pos + k]) == Number(data, pos, k)
  {
    if k > 0 {
      ReadIntIsNumber(data, pos, k - 1);
      assert data[pos..pos + k] == data[pos..pos + k - 1] + [data[pos + k - 1]];
      ReadIntSnoc(data[pos..pos + k - 1], data[pos + k - 1]);
    }
  }

  lemma ReadNumberAt(onShort: ShortRead, data: seq<U8>, pos: nat, k: nat)
    ensures ReadNumber(onShort, data, pos, k) ==
            if pos + k <= |data| then Read(Some(Number(data, pos, k)), pos + k) else Read(None, onShort(pos, |data|))
  {
    hide ReadInt, Number;
    if pos + k <= |data| { ReadIntIsNumber(data, pos, k); }
  }

  /** A whole record stands at `pos`: the header, and as much payload as it announces. */
  ghost predicate Complete(data: seq<U8>, pos: nat) {
    pos + 29 <= |data| && pos + 29 + Number(data, pos + 25, 4) <= |data|
  }

  ghost function After(data: seq<U8>, pos: nat): (r: nat)
    requires Complete(data, pos)
  {
    pos + 29 + Number(data, pos + 25, 4)
  }

  /** The message at `pos`, field by field; unknown protocol codes mean Ethernet. */
  ghost function RecordAt(data: seq<U8>, pos: nat): (r: CoordMessage)
    requires Complete(data, pos)
  {
    Widths();
    CoordMessage(
      Number(data, pos, 4),
      Number(data, pos + 4, 4),
      Number(data, pos + 8, 8),
      Number(data, pos + 16, 8),
      if data[pos + 24] < 8 then DECLARED[data[pos + 24]] else Ethernet,
      data[pos + 29..After(data, pos)],
      None)
  }

  lemma CodeNames(b: U8)
    ensures ParseProtocol(b) == if b < 8 then DECLARED[b] else Ethernet
  {}

  lemma OneByteNumber(data: seq<U8>, pos: nat)
    requires pos < |data|
    ensures Number(data, pos, 1) == data[pos]
  {
    assert Number(data, pos, 0) == 0 && Pow256(0) == 1;
  }

  lemma HeaderAt(onShort: ShortRead, data: seq<U8>, pos: nat)
    requires pos + 29 <= |data|
    ensures ReadHeader(onShort, data, pos) ==
            Header(Some(Number(data, pos, 4)), Some(Number(data, pos + 4, 4)), Some(Number(data, pos + 8, 8)),
                   Some(Number(data, pos + 16, 8)), Some(data[pos + 24] as nat), Some(Number(data, pos + 25, 4)), pos + 29)
  {
    hide ReadNumber, Number;
    ReadNumberAt(onShort, data, pos, 4);
    ReadNumberAt(onShort, data, pos + 4, 4);
    ReadNumberAt(onShort, data, pos + 8, 8);
    ReadNumberAt(onShort, data, pos + 16, 8);
    ReadNumberAt(onShort, data, pos + 24, 1);
    ReadNumberAt(onShort, data, pos + 25, 4);
    OneByteNumber(data, pos + 24);
  }

  /** A header that is cut off is not read in full, wherever the failing reads leave the cursor. */
  lemma HeaderCutOff(onShort: ShortRead, data: seq<U8>, pos: nat)
    requires pos + 29 > |data|
    ensures var h := ReadHeader(onShort, data, pos);
            h.src.None? || h.dst.None? || h.vtime.None? || h.sequence.None? || h.protocol.None? || h.len.None?
  {
    hide ReadInt;
  }

  /** From any bytes a record is read exactly if it is complete, and then it is the one that stands there. */
  lemma ReadsWhatStands(onShort: ShortRead, data: seq<U8>, pos: nat)
    ensures ReadRecord(onShort, data, pos).value.Some? <==> Complete(data, pos)
    ensures Complete(data, pos) ==> ReadRecord(onShort, data, pos) == Read(Some(RecordAt(data, pos)), After(data, pos))
  {
    hide ReadHeader, Number, ParseProtocol;
    if pos + 29 <= |data| {
      HeaderAt(onShort, data, pos);
      CodeNames(data[pos + 24]);
    } else {
      HeaderCutOff(onShort, data, pos);
    }
  }

  ghost predicate AllComplete(data: seq<U8>, pos: nat, n: nat)
    decreases n
  {
    n == 0 || (Complete(data, pos) && AllComplete(data, After(data, pos), n - 1))
  }

  /** The messages of `n` records that follow one another from `pos` on. */
  ghost function RecordsAt(data: seq<U8>, pos: nat, n: nat): (r: seq<CoordMessage>)
    requires AllComplete(data, pos, n)
    decreases n
  {
    if n == 0 then [] else [RecordAt(data, pos)] + RecordsAt(data, After(data, pos), n - 1)
  }

  lemma {:induction false} ReadsAll(onShort: ShortRead, data: seq<U8>, pos: nat, n: nat)
    requires AllComplete(data, pos, n)
    ensures ReadRecords(onShort, data, pos, n) == RecordsAt(data, pos, n)
    decreases n
  {
    hide ReadRecord, RecordAt, Complete, After;
    if n > 0 {
      ReadsWhatStands(onShort, data, pos);
      ReadsAll(onShort, data, After(data, pos), n - 1);
    }
  }

  /** A batch: four bytes of count, then the records one after the other from byte 4 on. */
  lemma DecodedByPosition(onShort: ShortRead, data: seq<U8>)
    ensures |data| < 4 ==> Decoded(onShort, data) == []
    ensures |data| >= 4 && AllComplete(data, 4, Number(data, 0, 4)) ==>
              Decoded(onShort, data) == RecordsAt(data, 4, Number(data, 0, 4))
  {
    hide ReadNumber, ReadRecords, Number, AllComplete, RecordsAt;
    ReadNumberAt(onShort, data, 0, 4);
    if |data| >= 4 && AllComplete(data, 4, Number(data, 0, 4)) {
      ReadsAll(onShort, data, 4, Number(data, 0, 4));
    }
  }
}
