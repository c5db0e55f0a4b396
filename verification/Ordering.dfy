/**
 Sorting under an arbitrary total order, and the admission control built on it.

 Both coordinators sort messages with a derived total order and then truncate.  Everything
 here is stated for any total order `leq`, because the two coordinators use different ones.
 */
module Ordering {

  ghost predicate IsTotalOrder<T(!new)>(leq: (T, T) -> bool) {
    && (forall a, b :: leq(a, b) || leq(b, a))
    && (forall a, b :: leq(a, b) && leq(b, a) ==> a == b)
    && (forall a, b, c :: leq(a, b) && leq(b, c) ==> leq(a, c))
  }

  ghost predicate Sorted<T>(leq: (T, T) -> bool, s: seq<T>) {
    forall i, j :: 0 <= i < j < |s| ==> leq(s[i], s[j])
  }

  function Insert<T>(leq: (T, T) -> bool, x: T, s: seq<T>): (r: seq<T>)
    ensures multiset(r) == multiset(s) + multiset{x}
  {
    if s == [] || leq(x, s[0]) then
      [x] + s
    else
      assert s == [s[0]] + s[1..];
      [s[0]] + Insert(leq, x, s[1..])
  }

  lemma {:induction false} InsertSorted<T(!new)>(leq: (T, T) -> bool, x: T, s: seq<T>)
    requires IsTotalOrder(leq) && Sorted(leq, s)
    ensures Sorted(leq, Insert(leq, x, s))
  {
    if s == [] || leq(x, s[0]) {
    } else {
      InsertSorted(leq, x, s[1..]);
      var t := Insert(leq, x, s[1..]);
      forall j | 0 <= j < |t| ensures leq(s[0], t[j]) {
        assert t[j] in multiset(t);
        assert t[j] == x || t[j] in s[1..];
      }
    }
  }

  /** The list a `sort()` call leaves behind. */
  function Sort<T>(leq: (T, T) -> bool, s: seq<T>): (r: seq<T>)
    ensures multiset(r) == multiset(s)
    ensures |r| == |s|
  {
    if s == [] then []
    else
      assert s == s[..|s| - 1] + [s[|s| - 1]];
      var r := Insert(leq, s[|s| - 1], Sort(leq, s[..|s| - 1]));
      assert |multiset(r)| == |r|;
      r
  }

  lemma {:induction false} SortSorted<T(!new)>(leq: (T, T) -> bool, s: seq<T>)
    requires IsTotalOrder(leq)
    ensures Sorted(leq, Sort(leq, s))
  {
    if s != [] {
      SortSorted(leq, s[..|s| - 1]);
      InsertSorted(leq, s[|s| - 1], Sort(leq, s[..|s| - 1]));
    }
  }

  lemma SortedHeads<T(!new)>(leq: (T, T) -> bool, s: seq<T>, t: seq<T>)
    requires IsTotalOrder(leq) && Sorted(leq, s) && Sorted(leq, t)
    requires multiset(s) == multiset(t) && s != [] && t != []
    ensures s[0] == t[0]
  {
    assert s[0] in multiset(t) && t[0] in multiset(s);
    var i :| 0 <= i < |t| && t[i] == s[0];
    var j :| 0 <= j < |s| && s[j] == t[0];
  }

  lemma SortedTail<T>(leq: (T, T) -> bool, s: seq<T>)
    requires Sorted(leq, s) && s != []
    ensures Sorted(leq, s[1..])
  {}

  /** A sorted list is determined by its contents: no other arrangement is sorted. */
  lemma {:induction false} OneSortedArrangement<T(!new)>(leq: (T, T) -> bool, s: seq<T>, t: seq<T>)
    requires IsTotalOrder(leq) && Sorted(leq, s) && Sorted(leq, t)
    requires multiset(s) == multiset(t)
    ensures s == t
  {
    hide IsTotalOrder, Sorted;
    assert |s| == |multiset(s)| == |multiset(t)| == |t|;
    if s != [] {
      SortedHeads(leq, s, t);
      SortedTail(leq, s);
      SortedTail(leq, t);
      assert s == [s[0]] + s[1..] && t == [t[0]] + t[1..];
      assert multiset(s[1..]) == multiset(s) - multiset{s[0]};
      assert multiset(t[1..]) == multiset(t) - multiset{s[0]};
      OneSortedArrangement(leq, s[1..], t[1..]);
    }
  }

  /** The one sorted arrangement of a bag of messages. */
  ghost function Canon<T(!new)>(leq: (T, T) -> bool, bag: multiset<T>): (r: seq<T>)
    requires IsTotalOrder(leq)
    ensures Sorted(leq, r) && multiset(r) == bag
    decreases |bag|
  {
    if bag == multiset{} then []
    else
      var x :| x in bag;
      var rest := Canon(leq, bag - multiset{x});
      InsertSorted(leq, x, rest);
      Insert(leq, x, rest)
  }

  lemma SortIsCanon<T(!new)>(leq: (T, T) -> bool, s: seq<T>)
    requires IsTotalOrder(leq)
    ensures Sort(leq, s) == Canon(leq, multiset(s))
  {
    SortSorted(leq, s);
    OneSortedArrangement(leq, Sort(leq, s), Canon(leq, multiset(s)));
  }

  /** Sorting forgets the order in which the messages arrived. */
  lemma SortForgetsOrder<T(!new)>(leq: (T, T) -> bool, s: seq<T>, t: seq<T>)
    requires IsTotalOrder(leq) && multiset(s) == multiset(t)
    ensures Sort(leq, s) == Sort(leq, t)
  {
    SortIsCanon(leq, s);
    SortIsCanon(leq, t);
  }

  lemma SortIdempotent<T(!new)>(leq: (T, T) -> bool, s: seq<T>)
    requires IsTotalOrder(leq) && Sorted(leq, s)
    ensures Sort(leq, s) == s
  {
    SortSorted(leq, s);
    OneSortedArrangement(leq, Sort(leq, s), s);
  }

  function Truncate<T>(max: nat, s: seq<T>): (r: seq<T>)
  {
    if |s| > max then s[..max] else s
  }

  /** Admission control: sort first, then truncate to the per-node limit. */
  function Kept<T>(leq: (T, T) -> bool, max: nat, msgs: seq<T>): (r: seq<T>)
  {
    Truncate(max, Sort(leq, msgs))
  }

  function Dropped<T>(leq: (T, T) -> bool, max: nat, msgs: seq<T>): (r: seq<T>)
  {
    Sort(leq, msgs)[|Kept(leq, max, msgs)|..]
  }

  /**
   What admission control keeps and drops partitions the submission, nothing is dropped
   below the limit, every kept message is ordered before every dropped one, and the choice
   does not depend on the order of arrival.
   */
  lemma AdmissionControl<T(!new)>(leq: (T, T) -> bool, max: nat, msgs: seq<T>, shuffled: seq<T>)
    requires IsTotalOrder(leq) && multiset(msgs) == multiset(shuffled)
    ensures multiset(Kept(leq, max, msgs)) + multiset(Dropped(leq, max, msgs)) == multiset(msgs)
    ensures |Kept(leq, max, msgs)| == if |msgs| <= max then |msgs| else max
    ensures forall k, d :: k in Kept(leq, max, msgs) && d in Dropped(leq, max, msgs) ==> leq(k, d)
    ensures Kept(leq, max, shuffled) == Kept(leq, max, msgs)
  {
    hide Sort;
    SortForgetsOrder(leq, msgs, shuffled);
    SortSorted(leq, msgs);
    var s := Sort(leq, msgs);
    var m := |Kept(leq, max, msgs)|;
    assert s == s[..m] + s[m..] && Kept(leq, max, msgs) == s[..m];
    hide IsTotalOrder;
    assert multiset(s[..m] + s[m..]) == multiset(s[..m]) + multiset(s[m..]);
    forall k, d | k in Kept(leq, max, msgs) && d in Dropped(leq, max, msgs) ensures leq(k, d) {
      var i :| 0 <= i < m && s[i] == k;
      var j :| m <= j < |s| && s[j] == d;
    }
  }
}
