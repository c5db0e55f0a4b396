/**
 The message records of the two coordinators and their derived comparison functions.

 The deterministic coordinator names nodes by number and compares `protocol` before
 `base_topic`; the Zenoh coordinator names nodes by string and compares them the other way
 round.  Both comparisons are total orders whose `Equal` is equality of all fields, which is
 what the barriers rely on when they sort.
 */
module Messages {
  import opened Ordering

  type U8 = x: int | 0 <= x < 0x100
  type U32 = x: int | 0 <= x < 0x1_0000_0000
  type U64 = x: int | 0 <= x < 0x1_0000_0000_0000_0000

  datatype Option<+T> = None | Some(value: T)

  datatype Protocol =
    | Ethernet | Uart | Spi | CanFd | FlexRay | Lin | Rf802154 | RfHci | Control

  /** The position of a variant in its declaration, which is how a derived `Ord` compares. */
  function Rank(p: Protocol): (r: nat)
  {
    match p
    case Ethernet => 0
    case Uart => 1
    case Spi => 2
    case CanFd => 3
    case FlexRay => 4
    case Lin => 5
    case Rf802154 => 6
    case RfHci => 7
    case Control => 8
  }

  /** The protocols as declared. */
  const DECLARED: seq<Protocol> := [Ethernet, Uart, Spi, CanFd, FlexRay, Lin, Rf802154, RfHci, Control]

  lemma RankIsPosition(p: Protocol)
    ensures Rank(p) < |DECLARED| && DECLARED[Rank(p)] == p
    ensures forall i :: 0 <= i < |DECLARED| && DECLARED[i] == p ==> i == Rank(p)
  {}

  /** The message of the deterministic coordinator. */
  datatype CoordMessage = CoordMessage(
    src: U32, dst: U32, vtime: U64, sequence: U64,
    protocol: Protocol, payload: seq<U8>, baseTopic: Option<string>)

  /** The message of the Zenoh coordinator. */
  datatype NamedMessage = NamedMessage(
    src: string, dst: string, baseTopic: string, vtime: U64, sequence: U64,
    protocol: Protocol, payload: seq<U8>)

  datatype Comparison = Less | Equal | Greater {
    function Reverse(): (r: Comparison) {
      match this
      case Less => Greater
      case Equal => Equal
      case Greater => Less
    }
  }

  function CompareInt(a: int, b: int): (r: Comparison) {
    if a < b then Less else if a == b then Equal else Greater
  }

  /** A chain of `then_with`: the first field that differs decides. */
  function Lexical(fields: seq<Comparison>): (r: Comparison) {
    if fields == [] then Equal
    else if fields[0].Equal? then Lexical(fields[1..])
    else fields[0]
  }

  /** Lexicographic comparison, a proper prefix being smaller. */
  function CompareSeq(a: seq<int>, b: seq<int>): (r: Comparison) {
    if a == [] && b == [] then Equal
    else if a == [] then Less
    else if b == [] then Greater
    else if a[0] == b[0] then CompareSeq(a[1..], b[1..])
    else CompareInt(a[0], b[0])
  }

  /** Strings compare by code point. */
  function Codes(s: string): (r: seq<int>)
    ensures |r| == |s| && forall i :: 0 <= i < |s| ==> r[i] == s[i] as int
  {
    seq(|s|, i requires 0 <= i < |s| => s[i] as int)
  }

  function CompareString(a: string, b: string): (r: Comparison) {
    CompareSeq(Codes(a), Codes(b))
  }

  /** `None` comes before every `Some`. */
  function CompareTopic(a: Option<string>, b: Option<string>): (r: Comparison) {
    match (a, b)
    case (None, None) => Equal
    case (None, Some(_)) => Less
    case (Some(_), None) => Greater
    case (Some(x), Some(y)) => CompareString(x, y)
  }

  function Fields(a: CoordMessage, b: CoordMessage): (r: seq<Comparison>) {
    [ CompareInt(a.vtime, b.vtime),
      CompareInt(a.src, b.src),
      CompareInt(a.dst, b.dst),
      CompareInt(a.sequence, b.sequence),
      CompareInt(Rank(a.protocol), Rank(b.protocol)),
      CompareTopic(a.baseTopic, b.baseTopic),
      CompareSeq(a.payload, b.payload) ]
  }

  function Compare(a: CoordMessage, b: CoordMessage): (r: Comparison) {
    Lexical(Fields(a, b))
  }

  function NamedFields(a: NamedMessage, b: NamedMessage): (r: seq<Comparison>) {
    [ CompareInt(a.vtime, b.vtime),
      CompareString(a.src, b.src),
      CompareString(a.dst, b.dst),
      CompareInt(a.sequence, b.sequence),
      CompareString(a.baseTopic, b.baseTopic),
      CompareInt(Rank(a.protocol), Rank(b.protocol)),
      CompareSeq(a.payload, b.payload) ]
  }

  function CompareNamed(a: NamedMessage, b: NamedMessage): (r: Comparison) {
    Lexical(NamedFields(a, b))
  }

  predicate MessageLeq(a: CoordMessage, b: CoordMessage) {
    !Compare(a, b).Greater?
  }

  predicate NamedLeq(a: NamedMessage, b: NamedMessage) {
    !CompareNamed(a, b).Greater?
  }

  /** A comparison that orders its type totally: `Equal` is equality, and less-than chains. */
  ghost predicate Coherent<T(!new)>(compare: (T, T) -> Comparison) {
    && (forall a, b :: compare(a, b).Equal? <==> a == b)
    && (forall a, b :: compare(b, a) == compare(a, b).Reverse())
    && (forall a, b, c :: compare(a, b).Less? && compare(b, c).Less? ==> compare(a, c).Less?)
  }

  lemma CoherentIsTotal<T(!new)>(compare: (T, T) -> Comparison, leq: (T, T) -> bool)
    requires Coherent(compare)
    requires forall a, b :: leq(a, b) <==> !compare(a, b).Greater?
    ensures IsTotalOrder(leq)
  {}

  /** One field compared across three messages: equality substitutes, and less-than chains. */
  ghost predicate Chains(ab: Comparison, bc: Comparison, ac: Comparison) {
    && (ab.Equal? ==> ac == bc)
    && (bc.Equal? ==> ac == ab)
    && (ab.Less? && bc.Less? ==> ac.Less?)
  }

  lemma {:induction false} CompareSeqEqual(a: seq<int>, b: seq<int>)
    ensures CompareSeq(a, b).Equal? <==> a == b
    ensures CompareSeq(b, a) == CompareSeq(a, b).Reverse()
  {
    if a != [] && b != [] {
      CompareSeqEqual(a[1..], b[1..]);
      assert a == [a[0]] + a[1..] && b == [b[0]] + b[1..];
    }
  }

  lemma {:induction false} CompareSeqTransitive(a: seq<int>, b: seq<int>, c: seq<int>)
    requires CompareSeq(a, b).Less? && CompareSeq(b, c).Less?
    ensures CompareSeq(a, c).Less?
  {
    if a != [] && b != [] && c != [] {
      if a[0] == b[0] == c[0] {
        CompareSeqTransitive(a[1..], b[1..], c[1..]);
      }
    }
  }

  lemma CodesInjective(a: string, b: string)
    ensures Codes(a) == Codes(b) <==> a == b
  {}

  lemma IntLaws(a: int, b: int, c: int)
    ensures CompareInt(a, b).Equal? <==> a == b
    ensures CompareInt(b, a) == CompareInt(a, b).Reverse()
    ensures Chains(CompareInt(a, b), CompareInt(b, c), CompareInt(a, c))
  {}

  lemma SeqLaws(a: seq<int>, b: seq<int>, c: seq<int>)
    ensures CompareSeq(a, b).Equal? <==> a == b
    ensures CompareSeq(b, a) == CompareSeq(a, b).Reverse()
    ensures Chains(CompareSeq(a, b), CompareSeq(b, c), CompareSeq(a, c))
  {
    CompareSeqEqual(a, b);
    CompareSeqEqual(b, c);
    if CompareSeq(a, b).Less? && CompareSeq(b, c).Less? {
      CompareSeqTransitive(a, b, c);
    }
  }

  lemma StringLaws(a: string, b: string, c: string)
    ensures CompareString(a, b).Equal? <==> a == b
    ensures CompareString(b, a) == CompareString(a, b).Reverse()
    ensures Chains(CompareString(a, b), CompareString(b, c), CompareString(a, c))
  {
    CodesInjective(a, b);
    SeqLaws(Codes(a), Codes(b), Codes(c));
  }

  lemma TopicLaws(a: Option<string>, b: Option<string>, c: Option<string>)
    ensures CompareTopic(a, b).Equal? <==> a == b
    ensures CompareTopic(b, a) == CompareTopic(a, b).Reverse()
    ensures Chains(CompareTopic(a, b), CompareTopic(b, c), CompareTopic(a, c))
  {
    if a.Some? && b.Some? {
      StringLaws(a.value, b.value, if c.Some? then c.value else "");
    } else if b.Some? && c.Some? {
      StringLaws(b.value, c.value, "");
    }
  }

  ghost predicate Obey(ab: seq<Comparison>, ba: seq<Comparison>, bc: seq<Comparison>, ac: seq<Comparison>) {
    && |ab| == |ba| == |bc| == |ac|
    && forall i :: 0 <= i < |ab| ==> ba[i] == ab[i].Reverse() && Chains(ab[i], bc[i], ac[i])
  }

  /** If every field obeys the laws, so does the chain that lets the first difference decide. */
  lemma {:induction false} LexicalLaws(ab: seq<Comparison>, ba: seq<Comparison>, bc: seq<Comparison>, ac: seq<Comparison>)
    requires Obey(ab, ba, bc, ac)
    ensures Lexical(ab).Equal? <==> forall i :: 0 <= i < |ab| ==> ab[i].Equal?
    ensures Lexical(ba) == Lexical(ab).Reverse()
    ensures Chains(Lexical(ab), Lexical(bc), Lexical(ac))
  {
    if ab != [] {
      assert Chains(ab[0], bc[0], ac[0]) && ba[0] == ab[0].Reverse();
      LexicalLaws(ab[1..], ba[1..], bc[1..], ac[1..]);
      assert ab == [ab[0]] + ab[1..];
    }
  }

  lemma FieldsObey(a: CoordMessage, b: CoordMessage, c: CoordMessage)
    ensures Obey(Fields(a, b), Fields(b, a), Fields(b, c), Fields(a, c))
  {
    var ab, ba, bc, ac := Fields(a, b), Fields(b, a), Fields(b, c), Fields(a, c);
    forall i | 0 <= i < |ab| ensures ba[i] == ab[i].Reverse() && Chains(ab[i], bc[i], ac[i]) {
      if i == 0 {
        IntLaws(a.vtime, b.vtime, c.vtime);
      } else if i == 1 {
        IntLaws(a.src, b.src, c.src);
      } else if i == 2 {
        IntLaws(a.dst, b.dst, c.dst);
      } else if i == 3 {
        IntLaws(a.sequence, b.sequence, c.sequence);
      } else if i == 4 {
        IntLaws(Rank(a.protocol), Rank(b.protocol), Rank(c.protocol));
      } else if i == 5 {
        TopicLaws(a.baseTopic, b.baseTopic, c.baseTopic);
      } else {
        SeqLaws(a.payload, b.payload, c.payload);
      }
    }
  }

  lemma FieldsDecide(a: CoordMessage, b: CoordMessage)
    ensures a == b <==> forall i :: 0 <= i < |Fields(a, b)| ==> Fields(a, b)[i].Equal?
  {
    TopicLaws(a.baseTopic, b.baseTopic, None);
    SeqLaws(a.payload, b.payload, []);
    var f := Fields(a, b);
    if forall i :: 0 <= i < |f| ==> f[i].Equal? {
      assert f[0].Equal? && f[1].Equal? && f[2].Equal? && f[3].Equal? && f[4].Equal? && f[5].Equal? && f[6].Equal?;
    }
  }

  lemma CompareLaws(a: CoordMessage, b: CoordMessage, c: CoordMessage)
    ensures Compare(a, b).Equal? <==> a == b
    ensures Compare(b, a) == Compare(a, b).Reverse()
    ensures Chains(Compare(a, b), Compare(b, c), Compare(a, c))
  {
    FieldsObey(a, b, c);
    FieldsDecide(a, b);
    LexicalLaws(Fields(a, b), Fields(b, a), Fields(b, c), Fields(a, c));
  }

  lemma NamedFieldsObey(a: NamedMessage, b: NamedMessage, c: NamedMessage)
    ensures Obey(NamedFields(a, b), NamedFields(b, a), NamedFields(b, c), NamedFields(a, c))
  {
    var ab, ba, bc, ac := NamedFields(a, b), NamedFields(b, a), NamedFields(b, c), NamedFields(a, c);
    forall i | 0 <= i < |ab| ensures ba[i] == ab[i].Reverse() && Chains(ab[i], bc[i], ac[i]) {
      if i == 0 {
        IntLaws(a.vtime, b.vtime, c.vtime);
      } else if i == 1 {
        StringLaws(a.src, b.src, c.src);
      } else if i == 2 {
        StringLaws(a.dst, b.dst, c.dst);
      } else if i == 3 {
        IntLaws(a.sequence, b.sequence, c.sequence);
      } else if i == 4 {
        StringLaws(a.baseTopic, b.baseTopic, c.baseTopic);
      } else if i == 5 {
        IntLaws(Rank(a.protocol), Rank(b.protocol), Rank(c.protocol));
      } else {
        SeqLaws(a.payload, b.payload, c.payload);
      }
    }
  }

  lemma NamedFieldsDecide(a: NamedMessage, b: NamedMessage)
    ensures a == b <==> forall i :: 0 <= i < |NamedFields(a, b)| ==> NamedFields(a, b)[i].Equal?
  {
    StringLaws(a.src, b.src, "");
    StringLaws(a.dst, b.dst, "");
    StringLaws(a.baseTopic, b.baseTopic, "");
    SeqLaws(a.payload, b.payload, []);
    var f := NamedFields(a, b);
    if forall i :: 0 <= i < |f| ==> f[i].Equal? {
      assert f[0].Equal? && f[1].Equal? && f[2].Equal? && f[3].Equal? && f[4].Equal? && f[5].Equal? && f[6].Equal?;
    }
  }

  lemma CompareNamedLaws(a: NamedMessage, b: NamedMessage, c: NamedMessage)
    ensures CompareNamed(a, b).Equal? <==> a == b
    ensures CompareNamed(b, a) == CompareNamed(a, b).Reverse()
    ensures Chains(CompareNamed(a, b), CompareNamed(b, c), CompareNamed(a, c))
  {
    NamedFieldsObey(a, b, c);
    NamedFieldsDecide(a, b);
    LexicalLaws(NamedFields(a, b), NamedFields(b, a), NamedFields(b, c), NamedFields(a, c));
  }

  /** The deterministic coordinator's comparison is a total order; `Equal` means the same message. */
  lemma CompareIsTotal()
    ensures Coherent(Compare)
    ensures IsTotalOrder(MessageLeq)
  {
    hide Compare;
    forall a, b, c { CompareLaws(a, b, c); }
    CoherentIsTotal(Compare, MessageLeq);
  }

  /** So is the Zenoh coordinator's. */
  lemma CompareNamedIsTotal()
    ensures Coherent(CompareNamed)
    ensures IsTotalOrder(NamedLeq)
  {
    hide CompareNamed;
    forall a, b, c { CompareNamedLaws(a, b, c); }
    CoherentIsTotal(CompareNamed, NamedLeq);
  }
}
