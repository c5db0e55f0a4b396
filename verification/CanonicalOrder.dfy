/**
 The documentation promises delivery in the order of virtual time, then source node, then
 sequence number.  The comparison in the code looks at the destination before the sequence
 number, so the promise holds exactly when those two do not disagree.
 */
module CanonicalOrder {
  import opened Ordering
  import opened Messages

  /** The documented order: time, then source, then sequence number. */
  predicate Before(a: CoordMessage, b: CoordMessage) {
    || a.vtime < b.vtime
    || (a.vtime == b.vtime && a.src < b.src)
    || (a.vtime == b.vtime && a.src == b.src && a.sequence < b.sequence)
  }

  /** Two messages of one source and one time whose destinations and sequence numbers disagree. */
  predicate Crossed(a: CoordMessage, b: CoordMessage) {
    a.vtime == b.vtime && a.src == b.src && a.dst > b.dst && a.sequence < b.sequence
  }

  lemma FirstDifference(fields: seq<Comparison>, i: nat)
    requires i < |fields| && !fields[i].Equal? && forall k :: 0 <= k < i ==> fields[k].Equal?
    ensures Lexical(fields) == fields[i]
    decreases i
  {
    if i > 0 {
      FirstDifference(fields[1..], i - 1);
    }
  }

  /** Of two messages in documented order, the code puts the first one first unless they are crossed. */
  lemma CodeFollowsDocument(a: CoordMessage, b: CoordMessage)
    requires Before(a, b)
    ensures Compare(a, b).Less? <==> !Crossed(a, b)
    ensures Crossed(a, b) ==> Compare(a, b).Greater?
  {
    hide Lexical;
    var i := if a.vtime != b.vtime then 0 else if a.src != b.src then 1 else if a.dst != b.dst then 2 else 3;
    FirstDifference(Fields(a, b), i);
  }

  /** No later message should have come before an earlier one. */
  ghost predicate InDocumentedOrder(s: seq<CoordMessage>) {
    forall i, j :: 0 <= i < j < |s| ==> !Before(s[j], s[i])
  }

  ghost predicate NoneCrossed(s: seq<CoordMessage>) {
    forall a, b :: a in s && b in s ==> !Crossed(a, b)
  }

  /** A batch sorted by the code is in documented order if and only if no two of its messages are crossed. */
  lemma SortedIsDocumentedIffNoneCrossed(s: seq<CoordMessage>)
    requires Sorted(MessageLeq, s)
    ensures InDocumentedOrder(s) <==> NoneCrossed(s)
  {
    hide Compare, IsTotalOrder;
    forall a, b | Before(a, b) ensures Compare(a, b).Less? <==> !Crossed(a, b) { CodeFollowsDocument(a, b); }
    forall i, j | 0 <= i < j < |s| && Before(s[j], s[i]) ensures Crossed(s[j], s[i]) {
      assert MessageLeq(s[i], s[j]);
      CompareLaws(s[i], s[j], s[j]);
    }
    if InDocumentedOrder(s) {
      forall a, b | a in s && b in s ensures !Crossed(a, b) {
        var i :| 0 <= i < |s| && s[i] == a;
        var j :| 0 <= j < |s| && s[j] == b;
        if Crossed(a, b) {
          CodeFollowsDocument(a, b);
          CompareLaws(b, a, a);
        }
      }
    }
  }

  /** Broadcasts cannot be crossed, so a batch of broadcasts always is. */
  lemma BroadcastsAreDocumented(s: seq<CoordMessage>, destination: U32)
    requires Sorted(MessageLeq, s) && forall m :: m in s ==> m.dst == destination
    ensures InDocumentedOrder(s)
  {
    SortedIsDocumentedIffNoneCrossed(s);
  }

  /** The promise can fail: two unicasts of one node at one instant are delivered against their sequence numbers. */
  lemma CrossedExample()
    ensures var first := CoordMessage(0, 2, 10, 1, Uart, [], None);
            var second := CoordMessage(0, 1, 10, 2, Uart, [], None);
            Before(first, second) && Sort(MessageLeq, [first, second]) == [second, first]
  {}

  // ----- Both comparisons written out on the fields -----

  /** At the first position where they differ `a` is smaller, or ends there. */
  ghost predicate ComesFirst(a: seq<int>, b: seq<int>, i: nat) {
    && i <= |a| && i < |b|
    && (forall k :: 0 <= k < i ==> a[k] == b[k])
    && (i == |a| || a[i] < b[i])
  }

  ghost predicate BytesBefore(a: seq<int>, b: seq<int>) {
    exists i :: ComesFirst(a, b, i)
  }

  /** The same for characters. */
  ghost predicate TextBefore(a: string, b: string) {
    exists i :: && 0 <= i <= |a| && i < |b|
                && (forall k :: 0 <= k < i ==> a[k] == b[k])
                && (i == |a| || a[i] < b[i])
  }

  ghost predicate TopicBefore(a: Option<string>, b: Option<string>) {
    b.Some? && (a.Some? ==> TextBefore(a.value, b.value))
  }

  ghost predicate DeclaredBefore(p: Protocol, q: Protocol) {
    exists i, j :: 0 <= i < j < |DECLARED| && DECLARED[i] == p && DECLARED[j] == q
  }

  /** Time, source, destination, sequence number, protocol, topic, payload. */
  ghost predicate MessageBefore(a: CoordMessage, b: CoordMessage) {
    if a.vtime != b.vtime then a.vtime < b.vtime
    else if a.src != b.src then a.src < b.src
    else if a.dst != b.dst then a.dst < b.dst
    else if a.sequence != b.sequence then a.sequence < b.sequence
    else if a.protocol != b.protocol then DeclaredBefore(a.protocol, b.protocol)
    else if a.baseTopic != b.baseTopic then TopicBefore(a.baseTopic, b.baseTopic)
    else BytesBefore(a.payload, b.payload)
  }

  /** Time, source, destination, sequence number, topic, protocol, payload. */
  ghost predicate NamedBefore(a: NamedMessage, b: NamedMessage) {
    if a.vtime != b.vtime then a.vtime < b.vtime
    else if a.src != b.src then TextBefore(a.src, b.src)
    else if a.dst != b.dst then TextBefore(a.dst, b.dst)
    else if a.sequence != b.sequence then a.sequence < b.sequence
    else if a.baseTopic != b.baseTopic then TextBefore(a.baseTopic, b.baseTopic)
    else if a.protocol != b.protocol then DeclaredBefore(a.protocol, b.protocol)
    else BytesBefore(a.payload, b.payload)
  }

  lemma {:induction false} SeqByFirstDifference(a: seq<int>, b: seq<int>)
    ensures CompareSeq(a, b).Less? <==> BytesBefore(a, b)
  {
    if a == [] {
      if b != [] { assert ComesFirst(a, b, 0); }
    } else if b != [] {
      SeqByFirstDifference(a[1..], b[1..]);
      if a[0] < b[0] {
        assert ComesFirst(a, b, 0);
      } else if a[0] == b[0] {
        if i :| ComesFirst(a[1..], b[1..], i) {
          Extends(a, b, i);
        }
        if j :| ComesFirst(a, b, j) {
          Shortens(a, b, j);
        }
      }
    }
  }

  lemma Extends(a: seq<int>, b: seq<int>, i: nat)
    requires a != [] && b != [] && a[0] == b[0] && ComesFirst(a[1..], b[1..], i)
    ensures ComesFirst(a, b, i + 1)
  {
    forall k | 0 <= k < i + 1 ensures a[k] == b[k] {
      if k > 0 { assert a[1..][k - 1] == b[1..][k - 1]; }
    }
  }

  lemma Shortens(a: seq<int>, b: seq<int>, j: nat)
    requires a != [] && b != [] && a[0] == b[0] && ComesFirst(a, b, j)
    ensures j > 0 && ComesFirst(a[1..], b[1..], j - 1)
  {}

  lemma TextByFirstDifference(a: string, b: string)
    ensures CompareString(a, b).Less? <==> TextBefore(a, b)
  {
    var x, y := Codes(a), Codes(b);
    SeqByFirstDifference(x, y);
    if i :| ComesFirst(x, y, i) {
      forall k | 0 <= k < i ensures a[k] == b[k] { assert x[k] == y[k]; }
    }
    if TextBefore(a, b) {
      var i :| && 0 <= i <= |a| && i < |b|
               && (forall k :: 0 <= k < i ==> a[k] == b[k])
               && (i == |a| || a[i] < b[i]);
      assert ComesFirst(x, y, i);
    }
  }

  lemma TopicByFirstDifference(a: Option<string>, b: Option<string>)
    ensures CompareTopic(a, b).Less? <==> TopicBefore(a, b)
  {
    if a.Some? && b.Some? { TextByFirstDifference(a.value, b.value); }
  }

  lemma RankIsDeclared(p: Protocol, q: Protocol)
    ensures Rank(p) < Rank(q) <==> DeclaredBefore(p, q)
    ensures Rank(p) == Rank(q) <==> p == q
  {
    hide Rank;
    RankIsPosition(p);
    RankIsPosition(q);
  }

  lemma LexicalByHead(fields: seq<Comparison>)
    requires fields != []
    ensures Lexical(fields) == if fields[0].Equal? then Lexical(fields[1..]) else fields[0]
  {}

  lemma NoField()
    ensures Lexical([]).Equal?
  {}

  lemma SevenFields(f: seq<Comparison>)
    requires |f| == 7
    ensures Lexical(f) ==
            if !f[0].Equal? then f[0] else if !f[1].Equal? then f[1] else if !f[2].Equal? then f[2]
            else if !f[3].Equal? then f[3] else if !f[4].Equal? then f[4] else if !f[5].Equal? then f[5] else f[6]
  {
    hide Lexical;
    LexicalByHead(f);
    LexicalByHead(f[1..]);
    LexicalByHead(f[2..]);
    LexicalByHead(f[3..]);
    LexicalByHead(f[4..]);
    LexicalByHead(f[5..]);
    LexicalByHead(f[6..]);
    NoField();
    assert f[1..][1..] == f[2..] && f[2..][1..] == f[3..] && f[3..][1..] == f[4..] && f[4..][1..] == f[5..];
    assert f[5..][1..] == f[6..] && f[6..][1..] == [];
  }

  /** The deterministic coordinator's comparison, field by field. */
  lemma CompareByFields(a: CoordMessage, b: CoordMessage)
    ensures Compare(a, b).Less? <==> MessageBefore(a, b)
  {
    hide Lexical, CompareTopic, CompareSeq, Rank, TopicBefore, BytesBefore, DeclaredBefore;
    SevenFields(Fields(a, b));
    RankIsDeclared(a.protocol, b.protocol);
    TopicByFirstDifference(a.baseTopic, b.baseTopic);
    TopicLaws(a.baseTopic, b.baseTopic, None);
    SeqByFirstDifference(a.payload, b.payload);
  }

  /** The Zenoh coordinator's comparison, field by field. */
  lemma CompareNamedByFields(a: NamedMessage, b: NamedMessage)
    ensures CompareNamed(a, b).Less? <==> NamedBefore(a, b)
  {
    hide Lexical, CompareString, CompareSeq, Rank, TextBefore, BytesBefore, DeclaredBefore;
    SevenFields(NamedFields(a, b));
    TextByFirstDifference(a.src, b.src);
    StringLaws(a.src, b.src, "");
    TextByFirstDifference(a.dst, b.dst);
    StringLaws(a.dst, b.dst, "");
    TextByFirstDifference(a.baseTopic, b.baseTopic);
    StringLaws(a.baseTopic, b.baseTopic, "");
    RankIsDeclared(a.protocol, b.protocol);
    SeqByFirstDifference(a.payload, b.payload);
  }
}
