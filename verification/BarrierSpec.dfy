/**
 What both quantum barriers are meant to compute, stated over the history of accepted calls.

 A call reports that a node has finished a quantum and hands over the messages it produced.
 For each quantum the history determines one slot: which nodes have reported, and the bag of
 messages that survived admission control.  Nothing else about the history matters, so a
 slot is the same for every interleaving of the same calls.
 */
module BarrierSpec {
  import opened Collections
  import opened Ordering
  import opened Messages

  datatype Call<+N, +M> = Call(node: N, quantum: nat, msgs: seq<M>)

  datatype Slot<N, M> = Slot(done: set<N>, msgs: multiset<M>)

  datatype BarrierError =
    | DuplicateDone
    | NodeIndexOutOfBounds(node: nat)
    | QuantumMismatch(expected: nat, got: nat)

  /** `Ok(Some(_))` releases messages; `Ok(None)` covers both a pending and a stale report. */
  datatype SubmitResult<+M> = Ok(released: Option<seq<M>>) | Err(error: BarrierError)

  /** Number of nodes, per-node message limit, and the order in which messages are delivered. */
  datatype Config<!M> = Config(nodes: nat, limit: nat, leq: (M, M) -> bool)

  ghost predicate Ordered<M(!new)>(cfg: Config<M>) {
    IsTotalOrder(cfg.leq)
  }

  /** What one call does to a barrier, including which quanta it released. */
  datatype Effect<+S, M> = Effect(state: S, result: SubmitResult<M>, accepted: bool, batches: seq<seq<M>>)

  /** A whole run: final state, one result per call, the accepted calls, the batches released. */
  datatype Trace<+S, +N, M> =
    Trace(state: S, results: seq<SubmitResult<M>>, accepted: seq<Call<N, M>>, batches: seq<seq<M>>)

  ghost predicate ErrorFree<M>(results: seq<SubmitResult<M>>) {
    forall i :: 0 <= i < |results| ==> results[i].Ok?
  }

  /** What was handed to callers, in the order in which the calls returned it. */
  ghost function Releases<M>(results: seq<SubmitResult<M>>): (r: seq<seq<M>>) {
    if results == [] then []
    else
      var r := results[|results| - 1];
      Releases(results[..|results| - 1]) + if r.Ok? && r.released.Some? then [r.released.value] else []
  }

  ghost function Extend<S, N, M>(t: Trace<S, N, M>, c: Call<N, M>, e: Effect<S, M>): (r: Trace<S, N, M>) {
    Trace(e.state, t.results + [e.result],
          if e.accepted then t.accepted + [c] else t.accepted,
          t.batches + e.batches)
  }

  ghost function EmptySlot<N, M>(): (r: Slot<N, M>) {
    Slot({}, multiset{})
  }

  ghost function Add<N, M>(cfg: Config<M>, s: Slot<N, M>, c: Call<N, M>): (r: Slot<N, M>) {
    Slot(s.done + {c.node}, s.msgs + multiset(Kept(cfg.leq, cfg.limit, c.msgs)))
  }

  /** The slot of quantum `q` after a history of accepted calls. */
  ghost function SlotAt<N, M>(cfg: Config<M>, calls: seq<Call<N, M>>, q: nat): (r: Slot<N, M>) {
    if calls == [] then EmptySlot()
    else
      var s := SlotAt(cfg, calls[..|calls| - 1], q);
      var c := calls[|calls| - 1];
      if c.quantum == q then Add(cfg, s, c) else s
  }

  /** The messages of quantum `q`, in the one order in which they may be delivered. */
  ghost function Batch<N, M(!new)>(cfg: Config<M>, calls: seq<Call<N, M>>, q: nat): (r: seq<M>)
    requires Ordered(cfg)
    ensures Sorted(cfg.leq, r) && multiset(r) == SlotAt(cfg, calls, q).msgs
  {
    Canon(cfg.leq, SlotAt(cfg, calls, q).msgs)
  }

  /** No node reports the same quantum twice. */
  ghost predicate Distinct<N, M>(calls: seq<Call<N, M>>) {
    forall i, j :: 0 <= i < j < |calls| && calls[i].quantum == calls[j].quantum ==> calls[i].node != calls[j].node
  }

  lemma SlotSnoc<N, M>(cfg: Config<M>, calls: seq<Call<N, M>>, c: Call<N, M>, q: nat)
    ensures SlotAt(cfg, calls + [c], q) ==
            if c.quantum == q then Add(cfg, SlotAt(cfg, calls, q), c) else SlotAt(cfg, calls, q)
  {}

  /** The reporters of a slot are exactly the nodes that called for that quantum. */
  lemma {:induction false} SlotDone<N, M>(cfg: Config<M>, calls: seq<Call<N, M>>, q: nat, k: N)
    ensures k in SlotAt(cfg, calls, q).done <==>
            exists i :: 0 <= i < |calls| && calls[i].node == k && calls[i].quantum == q
    ensures SlotAt(cfg, calls, q).done == {} ==> SlotAt(cfg, calls, q).msgs == multiset{}
  {
    if calls != [] {
      var n := |calls| - 1;
      SlotDone(cfg, calls[..n], q, k);
      assert calls == calls[..n] + [calls[n]];
      if exists i :: 0 <= i < |calls| && calls[i].node == k && calls[i].quantum == q {
        var i :| 0 <= i < |calls| && calls[i].node == k && calls[i].quantum == q;
        if i < n { assert calls[..n][i] == calls[i]; }
      }
      if k in SlotAt(cfg, calls, q).done && k in SlotAt(cfg, calls[..n], q).done {
        var i :| 0 <= i < n && calls[..n][i].node == k && calls[..n][i].quantum == q;
        assert calls[i].node == k && calls[i].quantum == q;
      }
    }
  }

  /** Two slots combined. */
  ghost function Join<N, M>(a: Slot<N, M>, b: Slot<N, M>): (r: Slot<N, M>) {
    Slot(a.done + b.done, a.msgs + b.msgs)
  }

  lemma {:induction false} SlotConcat<N, M>(cfg: Config<M>, a: seq<Call<N, M>>, b: seq<Call<N, M>>, q: nat)
    ensures SlotAt(cfg, a + b, q) == Join(SlotAt(cfg, a, q), SlotAt(cfg, b, q))
  {
    if b == [] {
      assert a + b == a;
    } else {
      var n := |b| - 1;
      SlotConcat(cfg, a, b[..n], q);
      assert a + b == (a + b[..n]) + [b[n]];
      SlotSnoc(cfg, a + b[..n], b[n], q);
    }
  }

  /** Any call may be moved to the end of the history. */
  lemma SlotMoveLast<N, M>(cfg: Config<M>, calls: seq<Call<N, M>>, i: nat, q: nat)
    requires i < |calls|
    ensures SlotAt(cfg, calls, q) == SlotAt(cfg, Without(calls, i) + [calls[i]], q)
  {
    var pre, c, post := calls[..i], calls[i], calls[i + 1..];
    assert calls == (pre + [c]) + post;
    SlotConcat(cfg, pre + [c], post, q);
    SlotSnoc(cfg, pre, c, q);
    SlotConcat(cfg, pre, post, q);
    SlotSnoc(cfg, pre + post, c, q);
  }

  /** The slot of a quantum does not depend on the order of the calls. */
  lemma {:induction false} SlotForgetsOrder<N, M>(cfg: Config<M>, a: seq<Call<N, M>>, b: seq<Call<N, M>>, q: nat)
    requires multiset(a) == multiset(b)
    ensures SlotAt(cfg, a, q) == SlotAt(cfg, b, q)
  {
    assert |a| == |multiset(a)| == |multiset(b)| == |b|;
    if a != [] {
      var n := |a| - 1;
      assert a == a[..n] + [a[n]];
      assert a[n] in multiset(b);
      var i :| 0 <= i < |b| && b[i] == a[n];
      SlotForgetsOrder(cfg, a[..n], Without(b, i), q);
      SlotMoveLast(cfg, b, i, q);
      SlotSnoc(cfg, a[..n], a[n], q);
      SlotSnoc(cfg, Without(b, i), a[n], q);
    }
  }

  /** With no repeated report, a slot holds at most `limit` messages per reporter. */
  lemma {:induction false} SlotBounded<N, M(!new)>(cfg: Config<M>, calls: seq<Call<N, M>>, q: nat)
    requires Ordered(cfg) && Distinct(calls)
    ensures |SlotAt(cfg, calls, q).msgs| <= |SlotAt(cfg, calls, q).done| * cfg.limit
  {
    if calls != [] {
      var n := |calls| - 1;
      var c := calls[n];
      var s := SlotAt(cfg, calls[..n], q);
      SlotBounded(cfg, calls[..n], q);
      if c.quantum == q {
        SlotDone(cfg, calls[..n], q, c.node);
        assert c.node !in s.done;
        assert |s.done + {c.node}| == |s.done| + 1;
        assert (|s.done| + 1) * cfg.limit == |s.done| * cfg.limit + cfg.limit;
        assert |Kept(cfg.leq, cfg.limit, c.msgs)| <= cfg.limit;
      }
    }
  }

  /** How often node `k` reported quantum `q`. */
  ghost function Reports<N, M>(calls: seq<Call<N, M>>, k: N, q: nat): (r: nat) {
    if calls == [] then 0
    else
      var c := calls[|calls| - 1];
      Reports(calls[..|calls| - 1], k, q) + if c.node == k && c.quantum == q then 1 else 0
  }

  lemma {:induction false} ReportsOnce<N, M>(cfg: Config<M>, calls: seq<Call<N, M>>, k: N, q: nat)
    requires Distinct(calls)
    ensures Reports(calls, k, q) == if k in SlotAt(cfg, calls, q).done then 1 else 0
  {
    if calls != [] {
      var n := |calls| - 1;
      ReportsOnce(cfg, calls[..n], k, q);
      SlotDone(cfg, calls[..n], q, k);
    }
  }

  lemma TwoIndices<T>(s: seq<T>, x: T, y: T) returns (i: nat, j: nat)
    requires multiset{x, y} <= multiset(s)
    ensures i < |s| && j < |s| && i != j && s[i] == x && s[j] == y
  {
    assert multiset(s)[x] >= multiset{x, y}[x] >= 1;
    i :| 0 <= i < |s| && s[i] == x;
    assert multiset(s)[y] >= multiset{x, y}[y];
    assert y in multiset(Without(s, i));
    var k :| 0 <= k < |Without(s, i)| && Without(s, i)[k] == y;
    j := if k < i then k else k + 1;
  }

  lemma DistinctPermutes<N, M>(a: seq<Call<N, M>>, b: seq<Call<N, M>>)
    requires multiset(a) == multiset(b) && Distinct(a)
    ensures Distinct(b)
  {
    forall i, j | 0 <= i < j < |b| && b[i].quantum == b[j].quantum ensures b[i].node != b[j].node {
      assert b == b[..i] + [b[i]] + b[i + 1..j] + [b[j]] + b[j + 1..];
      assert multiset{b[i], b[j]} <= multiset(b);
      var i', j' := TwoIndices(a, b[i], b[j]);
    }
  }

  // ----- Calls up to the order of their messages -----

  /** A call with its messages as a bag. */
  datatype Summary<N, M> = Summary(node: N, quantum: nat, msgs: multiset<M>)

  ghost function Summaries<N, M>(calls: seq<Call<N, M>>): (r: seq<Summary<N, M>>) {
    Map((c: Call<N, M>) => Summary(c.node, c.quantum, multiset(c.msgs)), calls)
  }

  /** The same calls, each with its messages in delivery order. */
  ghost function Tidy<N, M(!new)>(cfg: Config<M>, reports: seq<Summary<N, M>>): (r: seq<Call<N, M>>)
    requires Ordered(cfg)
  {
    Map((x: Summary<N, M>) => Call(x.node, x.quantum, Canon(cfg.leq, x.msgs)), reports)
  }

  lemma TidyPermutes<N, M(!new)>(cfg: Config<M>, a: seq<Summary<N, M>>, b: seq<Summary<N, M>>)
    requires Ordered(cfg) && multiset(a) == multiset(b)
    ensures multiset(Tidy(cfg, a)) == multiset(Tidy(cfg, b))
  {
    hide Map;
    MapPermutes((x: Summary<N, M>) => Call(x.node, x.quantum, Canon(cfg.leq, x.msgs)), a, b);
  }
}
