/**
 The deterministic coordinator's barrier as a state machine: the current quantum, one
 lookahead quantum, and promotion of the lookahead when the current quantum completes.

 Every call runs under one mutex, so a concurrent run is a sequence of calls, and the
 theorems below speak about all such sequences.
 */
module TwoSlot {
  import opened Collections
  import opened Ordering
  import opened Messages
  import opened BarrierSpec

  datatype State<M> = State(current: nat, cur: Slot<nat, M>, next: Slot<nat, M>)

  type Report<M> = Call<nat, M>

  ghost function Fresh<M>(start: nat): (r: State<M>) {
    State(start, EmptySlot(), EmptySlot())
  }

  ghost predicate Accepts<M>(cfg: Config<M>, s: State<M>, c: Report<M>) {
    && c.node < cfg.nodes
    && (|| (c.quantum == s.current && c.node !in s.cur.done)
        || (c.quantum == s.current + 1 && c.node !in s.next.done))
  }

  /** One `submit_done`: stale reports are ignored first, then errors are raised, in that order. */
  ghost function Step<M(!new)>(cfg: Config<M>, s: State<M>, c: Report<M>): (e: Effect<State<M>, M>)
    requires Ordered(cfg)
    ensures e.accepted <==> Accepts(cfg, s, c)
    ensures e.result.Ok? <==> e.accepted || c.quantum < s.current
  {
    if c.quantum < s.current then
      Effect(s, Ok(None), false, [])
    else if c.node >= cfg.nodes then
      Effect(s, Err(NodeIndexOutOfBounds(c.node)), false, [])
    else if c.quantum > s.current + 1 then
      Effect(s, Err(QuantumMismatch(s.current, c.quantum)), false, [])
    else if c.quantum == s.current + 1 then
      if c.node in s.next.done then
        Effect(s, Err(DuplicateDone), false, [])
      else
        Effect(s.(next := Add(cfg, s.next, c)), Ok(None), true, [])
    else if c.node in s.cur.done then
      Effect(s, Err(DuplicateDone), false, [])
    else
      var cur := Add(cfg, s.cur, c);
      if |cur.done| == cfg.nodes then
        var batch := Canon(cfg.leq, cur.msgs);
        Effect(State(s.current + 1, s.next, EmptySlot()), Ok(Some(batch)), true, [batch])
      else
        Effect(s.(cur := cur), Ok(None), true, [])
  }

  ghost function Run<M(!new)>(cfg: Config<M>, s: State<M>, calls: seq<Report<M>>): (t: Trace<State<M>, nat, M>)
    requires Ordered(cfg)
    ensures |t.results| == |calls|
  {
    if calls == [] then Trace(s, [], [], [])
    else
      var t := Run(cfg, s, calls[..|calls| - 1]);
      var c := calls[|calls| - 1];
      Extend(t, c, Step(cfg, t.state, c))
  }

  lemma RunSnoc<M(!new)>(cfg: Config<M>, s: State<M>, calls: seq<Report<M>>, c: Report<M>)
    requires Ordered(cfg)
    ensures var t := Run(cfg, s, calls); Run(cfg, s, calls + [c]) == Extend(t, c, Step(cfg, t.state, c))
  {}

  ghost function AllNodes(n: nat): (r: set<nat>)
    ensures |r| == n && forall k :: k in r <==> 0 <= k < n
  {
    if n == 0 then {} else AllNodes(n - 1) + {n - 1}
  }

  /** Some of `n` nodes are all of them exactly when there are `n` of them. */
  lemma FullIffAll(n: nat, some: set<nat>)
    requires some <= AllNodes(n)
    ensures |some| <= n
    ensures |some| == n <==> some == AllNodes(n)
  {
    assert AllNodes(n) == some + (AllNodes(n) - some);
    assert |AllNodes(n)| == |some| + |AllNodes(n) - some|;
    if |some| == n {
      assert AllNodes(n) - some == {};
    }
  }

  // ----- Safety of every run, with no assumption about the callers -----

  /** Every accepted call is of a configured node, no older than the start and at most one ahead. */
  ghost predicate InWindow<M>(cfg: Config<M>, start: nat, t: Trace<State<M>, nat, M>) {
    forall i :: 0 <= i < |t.accepted| ==>
      t.accepted[i].node < cfg.nodes && start <= t.accepted[i].quantum <= t.state.current + 1
  }

  /** The two slots are what the accepted history says they are. */
  ghost predicate SlotsExplained<M(!new)>(cfg: Config<M>, t: Trace<State<M>, nat, M>) {
    && t.state.cur == SlotAt(cfg, t.accepted, t.state.current)
    && t.state.next == SlotAt(cfg, t.accepted, t.state.current + 1)
  }

  /** One batch per finished quantum, namely the batch specified for it, with every node in it. */
  ghost predicate BatchesExplained<M(!new)>(cfg: Config<M>, start: nat, t: Trace<State<M>, nat, M>)
    requires Ordered(cfg)
  {
    && t.state.current == start + |t.batches|
    && forall q :: start <= q < t.state.current ==>
         && t.batches[q - start] == Batch(cfg, t.accepted, q)
         && SlotAt(cfg, t.accepted, q).done == AllNodes(cfg.nodes)
  }

  ghost predicate Explained<M(!new)>(cfg: Config<M>, start: nat, t: Trace<State<M>, nat, M>)
    requires Ordered(cfg)
  {
    && InWindow(cfg, start, t)
    && Distinct(t.accepted)
    && SlotsExplained(cfg, t)
    && BatchesExplained(cfg, start, t)
    && t.state.cur.done <= AllNodes(cfg.nodes)
    && t.state.next.done <= AllNodes(cfg.nodes)
  }

  lemma NothingBeyondWindow<M(!new)>(cfg: Config<M>, start: nat, t: Trace<State<M>, nat, M>, q: nat)
    requires InWindow(cfg, start, t) && q > t.state.current + 1
    ensures SlotAt(cfg, t.accepted, q) == EmptySlot()
  {
    forall k ensures k !in SlotAt(cfg, t.accepted, q).done {
      SlotDone(cfg, t.accepted, q, k);
    }
    SlotDone(cfg, t.accepted, q, 0);
  }

  lemma AcceptedDistinct<M(!new)>(cfg: Config<M>, start: nat, t: Trace<State<M>, nat, M>, c: Report<M>)
    requires Ordered(cfg) && Explained(cfg, start, t) && Accepts(cfg, t.state, c)
    ensures Distinct(t.accepted + [c])
  {
    SlotDone(cfg, t.accepted, c.quantum, c.node);
  }

  lemma StepSlots<M(!new)>(cfg: Config<M>, start: nat, t: Trace<State<M>, nat, M>, c: Report<M>)
    requires Ordered(cfg) && InWindow(cfg, start, t) && SlotsExplained(cfg, t) && Accepts(cfg, t.state, c)
    ensures SlotsExplained(cfg, Extend(t, c, Step(cfg, t.state, c)))
  {
    hide Kept, Canon, SlotAt, Ordered, InWindow;
    SlotSnoc(cfg, t.accepted, c, t.state.current);
    SlotSnoc(cfg, t.accepted, c, t.state.current + 1);
    SlotSnoc(cfg, t.accepted, c, t.state.current + 2);
    NothingBeyondWindow(cfg, start, t, t.state.current + 2);
  }

  lemma StepBatches<M(!new)>(cfg: Config<M>, start: nat, t: Trace<State<M>, nat, M>, c: Report<M>)
    requires Ordered(cfg) && Explained(cfg, start, t) && Accepts(cfg, t.state, c)
    ensures BatchesExplained(cfg, start, Extend(t, c, Step(cfg, t.state, c)))
  {
    hide Kept, Canon, SlotAt, Ordered, InWindow, Distinct;
    var u := Extend(t, c, Step(cfg, t.state, c));
    forall q | start <= q < u.state.current
      ensures u.batches[q - start] == Batch(cfg, u.accepted, q) && SlotAt(cfg, u.accepted, q).done == AllNodes(cfg.nodes)
    {
      SlotSnoc(cfg, t.accepted, c, q);
      if q == t.state.current {
        FullIffAll(cfg.nodes, Add(cfg, t.state.cur, c).done);
      }
    }
  }

  lemma StepWindow<M(!new)>(cfg: Config<M>, start: nat, t: Trace<State<M>, nat, M>, c: Report<M>)
    requires Ordered(cfg) && Explained(cfg, start, t) && Accepts(cfg, t.state, c)
    ensures var u := Extend(t, c, Step(cfg, t.state, c));
            InWindow(cfg, start, u) && u.state.cur.done <= AllNodes(cfg.nodes) && u.state.next.done <= AllNodes(cfg.nodes)
  {
    hide Kept, Canon, SlotAt, Ordered, SlotsExplained, Distinct;
  }

  /** A call that is not accepted leaves everything but the results alone. */
  lemma RefusedExplained<M(!new)>(cfg: Config<M>, start: nat, t: Trace<State<M>, nat, M>, c: Report<M>)
    requires Ordered(cfg) && Explained(cfg, start, t) && !Accepts(cfg, t.state, c)
    ensures Explained(cfg, start, Extend(t, c, Step(cfg, t.state, c)))
  {
    hide Kept, Canon, SlotAt, Ordered, Distinct;
    assert t.batches + [] == t.batches;
  }

  lemma StepExplained<M(!new)>(cfg: Config<M>, start: nat, t: Trace<State<M>, nat, M>, c: Report<M>)
    requires Ordered(cfg) && Explained(cfg, start, t)
    ensures Explained(cfg, start, Extend(t, c, Step(cfg, t.state, c)))
  {
    hide Step, Ordered, SlotsExplained, BatchesExplained, Distinct, InWindow, Accepts;
    if Accepts(cfg, t.state, c) {
      AcceptedDistinct(cfg, start, t, c);
      StepSlots(cfg, start, t, c);
      StepBatches(cfg, start, t, c);
      StepWindow(cfg, start, t, c);
    } else {
      RefusedExplained(cfg, start, t, c);
    }
  }

  /**
   In every run from a fresh barrier, whatever is called in whatever order: each released
   batch is the specified batch of its quantum, every node contributed to it, quanta are
   released consecutively without repeats, and the buffers hold exactly the accepted
   reports that have not been released.
   */
  lemma {:induction false} RunExplained<M(!new)>(cfg: Config<M>, start: nat, calls: seq<Report<M>>)
    requires Ordered(cfg)
    ensures Explained(cfg, start, Run(cfg, Fresh(start), calls))
  {
    if calls != [] {
      var n := |calls| - 1;
      RunExplained(cfg, start, calls[..n]);
      StepExplained(cfg, start, Run(cfg, Fresh(start), calls[..n]), calls[n]);
    }
  }

  lemma {:induction false} ReleasesAreBatches<M(!new)>(cfg: Config<M>, s: State<M>, calls: seq<Report<M>>)
    requires Ordered(cfg)
    ensures Releases(Run(cfg, s, calls).results) == Run(cfg, s, calls).batches
  {
    if calls != [] {
      var n := |calls| - 1;
      ReleasesAreBatches(cfg, s, calls[..n]);
      var t := Run(cfg, s, calls);
      assert t.results[..n] == Run(cfg, s, calls[..n]).results;
    }
  }

  /** What a caller sees of a released quantum. */
  lemma BatchSafety<M(!new)>(cfg: Config<M>, start: nat, calls: seq<Report<M>>, q: nat)
    requires Ordered(cfg) && start <= q < start + |Releases(Run(cfg, Fresh(start), calls).results)|
    ensures var t := Run(cfg, Fresh(start), calls);
            var batch := Releases(t.results)[q - start];
            && batch == Batch(cfg, t.accepted, q)
            && (forall k: nat :: Reports(t.accepted, k, q) == if k < cfg.nodes then 1 else 0)
            && |batch| <= cfg.nodes * cfg.limit
  {
    var t := Run(cfg, Fresh(start), calls);
    ReleasesAreBatches(cfg, Fresh(start), calls);
    RunExplained(cfg, start, calls);
    assert SlotAt(cfg, t.accepted, q).done == AllNodes(cfg.nodes);
    forall k: nat ensures Reports(t.accepted, k, q) == if k < cfg.nodes then 1 else 0 {
      ReportsOnce(cfg, t.accepted, k, q);
    }
    SlotBounded(cfg, t.accepted, q);
    assert |Batch(cfg, t.accepted, q)| == |multiset(Batch(cfg, t.accepted, q))|;
  }

  // ----- Progress -----

  /** The current quantum is complete, yet no call is left that would release it. */
  ghost predicate Wedged<M>(cfg: Config<M>, s: State<M>) {
    cfg.nodes > 0 && s.cur.done == AllNodes(cfg.nodes)
  }

  /** A wedged barrier never releases anything again. */
  lemma {:induction false} WedgedForever<M(!new)>(cfg: Config<M>, s: State<M>, calls: seq<Report<M>>)
    requires Ordered(cfg) && Wedged(cfg, s)
    ensures var t := Run(cfg, s, calls); t.batches == [] && t.state.current == s.current && Wedged(cfg, t.state)
  {
    if calls != [] {
      WedgedForever(cfg, s, calls[..|calls| - 1]);
    }
  }

  /** The call that closes the current quantum while every node has already reported the next one. */
  ghost predicate ClosesOnFullLookahead<M>(cfg: Config<M>, s: State<M>, c: Report<M>) {
    && c.quantum == s.current && c.node < cfg.nodes && c.node !in s.cur.done
    && s.cur.done + {c.node} == AllNodes(cfg.nodes) == s.next.done
  }

  /** Exactly that call wedges a barrier that was not wedged before. */
  lemma WedgeCondition<M(!new)>(cfg: Config<M>, start: nat, t: Trace<State<M>, nat, M>, c: Report<M>)
    requires Ordered(cfg) && Explained(cfg, start, t) && !Wedged(cfg, t.state)
    ensures Wedged(cfg, Step(cfg, t.state, c).state) <==> ClosesOnFullLookahead(cfg, t.state, c)
  {
    if Accepts(cfg, t.state, c) {
      FullIffAll(cfg.nodes, Add(cfg, t.state.cur, c).done);
    }
    if cfg.nodes > 0 {
      assert 0 in AllNodes(cfg.nodes);
    }
  }

  /** Some call of the run closed a quantum on a full lookahead. */
  ghost predicate MetFullLookahead<M(!new)>(cfg: Config<M>, start: nat, calls: seq<Report<M>>)
    requires Ordered(cfg)
  {
    exists i :: 0 <= i < |calls| && ClosesOnFullLookahead(cfg, Run(cfg, Fresh(start), calls[..i]).state, calls[i])
  }

  lemma MetSnoc<M(!new)>(cfg: Config<M>, start: nat, calls: seq<Report<M>>, c: Report<M>)
    requires Ordered(cfg)
    ensures MetFullLookahead(cfg, start, calls + [c]) <==>
            MetFullLookahead(cfg, start, calls) || ClosesOnFullLookahead(cfg, Run(cfg, Fresh(start), calls).state, c)
  {
    hide Run, ClosesOnFullLookahead;
    var all, n := calls + [c], |calls|;
    assert all[..n] == calls && all[n] == c;
    if MetFullLookahead(cfg, start, calls) {
      var i :| 0 <= i < n && ClosesOnFullLookahead(cfg, Run(cfg, Fresh(start), calls[..i]).state, calls[i]);
      assert all[..i] == calls[..i] && all[i] == calls[i];
    }
    if MetFullLookahead(cfg, start, all) {
      var i :| 0 <= i <= n && ClosesOnFullLookahead(cfg, Run(cfg, Fresh(start), all[..i]).state, all[i]);
      if i < n { assert all[..i] == calls[..i] && all[i] == calls[i]; }
    }
  }

  /** A run ends wedged if and only if some call of it closed a quantum on a full lookahead. */
  lemma {:induction false} WedgedIffMet<M(!new)>(cfg: Config<M>, start: nat, calls: seq<Report<M>>)
    requires Ordered(cfg) && cfg.nodes > 0
    ensures Wedged(cfg, Run(cfg, Fresh(start), calls).state) <==> MetFullLookahead(cfg, start, calls)
  {
    if calls == [] {
      assert 0 in AllNodes(cfg.nodes);
    } else {
      hide Explained, MetFullLookahead, Ordered;
      var before, c := calls[..|calls| - 1], calls[|calls| - 1];
      assert calls == before + [c];
      WedgedIffMet(cfg, start, before);
      MetSnoc(cfg, start, before, c);
      RunExplained(cfg, start, before);
      var t := Run(cfg, Fresh(start), before);
      if Wedged(cfg, t.state) {
        StaysWedged(cfg, t.state, c);
      } else {
        WedgeCondition(cfg, start, t, c);
      }
    }
  }

  lemma StaysWedged<M(!new)>(cfg: Config<M>, s: State<M>, c: Report<M>)
    requires Ordered(cfg) && Wedged(cfg, s)
    ensures var e := Step(cfg, s, c); Wedged(cfg, e.state) && e.batches == [] && e.state.current == s.current
  {}

  /** It can happen: a lone node that reports quantum 2 before quantum 1 stops the simulation. */
  lemma WedgeExample<M(!new)>(leq: (M, M) -> bool, limit: nat)
    requires IsTotalOrder(leq)
    ensures var cfg := Config(1, limit, leq);
            var t := Run(cfg, Fresh(1), [Call(0, 2, []), Call(0, 1, [])]);
            ErrorFree(t.results) && Wedged(cfg, t.state)
  {
    var cfg := Config(1, limit, leq);
    var early, late := Call(0, 2, []), Call(0, 1, []);
    hide Kept, Canon, IsTotalOrder;
    assert [early, late] == [early] + [late] && [early] == [] + [early];
    RunSnoc(cfg, Fresh(1), [], early);
    RunSnoc(cfg, Fresh(1), [early], late);
    assert Add(cfg, EmptySlot(), late).done == {0} == AllNodes(1);
  }

  /** Each node reports its quanta in strictly increasing order. */
  ghost predicate NodeIncreasing<N, M>(calls: seq<Call<N, M>>) {
    forall i, j :: 0 <= i < j < |calls| && calls[i].node == calls[j].node ==> calls[i].quantum < calls[j].quantum
  }

  lemma {:induction false} AcceptedAreCalls<M(!new)>(cfg: Config<M>, s: State<M>, calls: seq<Report<M>>, c: Report<M>)
    requires Ordered(cfg) && c in Run(cfg, s, calls).accepted
    ensures c in calls
  {
    var n := |calls| - 1;
    if c != calls[n] {
      AcceptedAreCalls(cfg, s, calls[..n], c);
    }
  }

  /** An accepted report that the history shows was made by an earlier call. */
  lemma EarlierCall<M(!new)>(cfg: Config<M>, s: State<M>, calls: seq<Report<M>>, k: nat, q: nat) returns (i: nat)
    requires Ordered(cfg) && k in SlotAt(cfg, Run(cfg, s, calls).accepted, q).done
    ensures i < |calls| && calls[i].node == k && calls[i].quantum == q
  {
    var acc := Run(cfg, s, calls).accepted;
    SlotDone(cfg, acc, q, k);
    var j :| 0 <= j < |acc| && acc[j].node == k && acc[j].quantum == q;
    AcceptedAreCalls(cfg, s, calls, acc[j]);
    i :| 0 <= i < |calls| && calls[i] == acc[j];
  }

  /** With increasing reports, the next report is for a quantum its node has not reached before. */
  lemma NotYetReported<M(!new)>(cfg: Config<M>, s: State<M>, calls: seq<Report<M>>, c: Report<M>, q: nat)
    requires Ordered(cfg) && NodeIncreasing(calls + [c]) && q >= c.quantum
    ensures c.node !in SlotAt(cfg, Run(cfg, s, calls).accepted, q).done
  {
    var all := calls + [c];
    forall i | 0 <= i < |calls| && calls[i].node == c.node ensures calls[i].quantum < q {
      assert all[i] == calls[i] && all[|calls|] == c;
    }
    if c.node in SlotAt(cfg, Run(cfg, s, calls).accepted, q).done {
      var i := EarlierCall(cfg, s, calls, c.node, q);
      assert false;
    }
  }

  lemma PrefixIncreasing<N, M>(calls: seq<Call<N, M>>, c: Call<N, M>)
    requires NodeIncreasing(calls + [c])
    ensures NodeIncreasing(calls)
  {
    forall i, j | 0 <= i < j < |calls| && calls[i].node == calls[j].node ensures calls[i].quantum < calls[j].quantum {
      assert (calls + [c])[i].node == (calls + [c])[j].node;
    }
  }

  lemma LookaheadIsHistory<M(!new)>(cfg: Config<M>, start: nat, t: Trace<State<M>, nat, M>)
    requires Ordered(cfg) && Explained(cfg, start, t)
    ensures t.state.next == SlotAt(cfg, t.accepted, t.state.current + 1)
  {}

  /** With increasing reports the current quantum is never left complete between calls. */
  lemma {:induction false} NeverWedged<M(!new)>(cfg: Config<M>, start: nat, calls: seq<Report<M>>)
    requires Ordered(cfg) && NodeIncreasing(calls)
    ensures !Wedged(cfg, Run(cfg, Fresh(start), calls).state)
  {
    hide Step, Explained, NodeIncreasing, Ordered, SlotAt;
    if calls == [] {
      if cfg.nodes > 0 { assert 0 in AllNodes(cfg.nodes); }
    } else {
      var before, c := calls[..|calls| - 1], calls[|calls| - 1];
      assert calls == before + [c];
      PrefixIncreasing(before, c);
      NeverWedged(cfg, start, before);
      RunExplained(cfg, start, before);
      var t := Run(cfg, Fresh(start), before);
      WedgeCondition(cfg, start, t, c);
      if ClosesOnFullLookahead(cfg, t.state, c) {
        LookaheadIsHistory(cfg, start, t);
        NotYetReported(cfg, Fresh(start), before, c, t.state.current + 1);
        assert false;
      }
    }
  }

  // ----- Determinism -----

  /** The reports that can count: those of a configured node for a quantum not before the start. */
  ghost function Relevant<M>(cfg: Config<M>, start: nat): (r: Report<M> -> bool) {
    (c: Report<M>) => c.node < cfg.nodes && c.quantum >= start
  }

  lemma PrefixErrorFree<M(!new)>(cfg: Config<M>, s: State<M>, calls: seq<Report<M>>)
    requires Ordered(cfg) && calls != [] && ErrorFree(Run(cfg, s, calls).results)
    ensures ErrorFree(Run(cfg, s, calls[..|calls| - 1]).results)
    ensures Step(cfg, Run(cfg, s, calls[..|calls| - 1]).state, calls[|calls| - 1]).result.Ok?
  {
    var n := |calls| - 1;
    var r, r0 := Run(cfg, s, calls).results, Run(cfg, s, calls[..n]).results;
    assert r == r0 + [Step(cfg, Run(cfg, s, calls[..n]).state, calls[n]).result];
    assert forall i :: 0 <= i < n ==> r[i] == r0[i];
    assert r[n].Ok?;
  }

  /** Without errors and with increasing reports, every report that can count is accepted. */
  lemma {:induction false} AllAccepted<M(!new)>(cfg: Config<M>, start: nat, calls: seq<Report<M>>)
    requires Ordered(cfg) && NodeIncreasing(calls)
    requires ErrorFree(Run(cfg, Fresh(start), calls).results)
    ensures Run(cfg, Fresh(start), calls).accepted == Filter(Relevant(cfg, start), calls)
  {
    if calls != [] {
      var before, c := calls[..|calls| - 1], calls[|calls| - 1];
      assert calls == before + [c];
      PrefixErrorFree(cfg, Fresh(start), calls);
      PrefixIncreasing(before, c);
      AllAccepted(cfg, start, before);
      RunExplained(cfg, start, before);
      var t := Run(cfg, Fresh(start), before);
      NotYetReported(cfg, Fresh(start), before, c, c.quantum);
      if start <= c.quantum < t.state.current {
        assert SlotAt(cfg, t.accepted, c.quantum).done == AllNodes(cfg.nodes);
      }
    }
  }

  /** No node skips a quantum: whatever it reports after the start it has reported the one before. */
  ghost predicate GapFree<M>(start: nat, calls: seq<Report<M>>) {
    forall i :: 0 <= i < |calls| && calls[i].quantum > start ==> ReportedBefore(calls, i)
  }

  ghost predicate ReportedBefore<M>(calls: seq<Report<M>>, i: nat)
    requires i < |calls|
  {
    exists j :: 0 <= j < i && calls[j].node == calls[i].node && calls[j].quantum + 1 == calls[i].quantum
  }

  /** Without gaps, whoever has reported a quantum ahead has reported the current one too. */
  lemma AheadImpliesCurrent<M(!new)>(cfg: Config<M>, start: nat, calls: seq<Report<M>>, c: Report<M>, q: nat, k: nat)
    requires Ordered(cfg) && GapFree(start, calls + [c]) && q >= start && k < cfg.nodes
    requires Run(cfg, Fresh(start), calls).accepted == Filter(Relevant(cfg, start), calls)
    requires k in SlotAt(cfg, Filter(Relevant(cfg, start), calls) + [c], q + 1).done
    ensures k in SlotAt(cfg, Filter(Relevant(cfg, start), calls), q).done
  {
    hide Run, SlotAt, Ordered;
    var acc := Filter(Relevant(cfg, start), calls);
    var all := calls + [c];
    SlotDone(cfg, acc + [c], q + 1, k);
    var a :| 0 <= a < |acc + [c]| && (acc + [c])[a].node == k && (acc + [c])[a].quantum == q + 1;
    if a < |acc| { FilterMember(Relevant(cfg, start), calls, acc[a]); }
    assert (acc + [c])[a] in all;
    var i :| 0 <= i < |all| && all[i] == (acc + [c])[a];
    assert ReportedBefore(all, i);
    var j :| 0 <= j < i && all[j].node == k && all[j].quantum == q;
    assert all[j] == calls[j];
    FilterMember(Relevant(cfg, start), calls, calls[j]);
    var b :| 0 <= b < |acc| && acc[b] == calls[j];
    SlotDone(cfg, acc, q, k);
  }

  /** With a gap it does not: a lone node that skips quantum 1 completes quantum 2 and gets nothing back. */
  lemma GapExample<M(!new)>(leq: (M, M) -> bool, limit: nat)
    requires IsTotalOrder(leq)
    ensures var cfg := Config(1, limit, leq);
            var c: Report<M> := Call(0, 2, []);
            && SlotAt(cfg, [c], 2).done == AllNodes(1)
            && Run(cfg, Fresh(1), [c]).results == [Ok(None)]
  {}

  lemma AcceptedWithLast<M(!new)>(cfg: Config<M>, start: nat, calls: seq<Report<M>>, c: Report<M>)
    requires Ordered(cfg) && NodeIncreasing(calls + [c])
    requires ErrorFree(Run(cfg, Fresh(start), calls + [c]).results) && Relevant(cfg, start)(c)
    ensures Run(cfg, Fresh(start), calls).accepted == Filter(Relevant(cfg, start), calls)
    ensures Filter(Relevant(cfg, start), calls + [c]) == Filter(Relevant(cfg, start), calls) + [c]
    ensures Accepts(cfg, Run(cfg, Fresh(start), calls).state, c)
  {
    hide Run, SlotAt, Ordered, NodeIncreasing, Filter, Step;
    assert (calls + [c])[..|calls|] == calls;
    PrefixErrorFree(cfg, Fresh(start), calls + [c]);
    PrefixIncreasing(calls, c);
    AllAccepted(cfg, start, calls);
    AllAccepted(cfg, start, calls + [c]);
    FilterSnoc(Relevant(cfg, start), calls, c);
    RunSnoc(cfg, Fresh(start), calls, c);
  }

  /** The report that fills the current slot returns that quantum's batch. */
  lemma CompletingReport<M(!new)>(cfg: Config<M>, start: nat, t: Trace<State<M>, nat, M>, c: Report<M>)
    requires Ordered(cfg) && Explained(cfg, start, t) && Accepts(cfg, t.state, c) && c.quantum == t.state.current
    requires SlotAt(cfg, t.accepted + [c], c.quantum).done == AllNodes(cfg.nodes)
    ensures Step(cfg, t.state, c).result == Ok(Some(Batch(cfg, t.accepted + [c], c.quantum)))
  {
    hide Sort, Canon, IsTotalOrder;
    SlotSnoc(cfg, t.accepted, c, c.quantum);
  }

  /** Every quantum from the start to just before `q` has all its reports. */
  ghost predicate CompleteUpTo<M>(cfg: Config<M>, start: nat, accepted: seq<Report<M>>, q: nat) {
    forall p :: start <= p < q ==> SlotAt(cfg, accepted, p).done == AllNodes(cfg.nodes)
  }

  /** `q` is the first quantum, from the start, that the history leaves incomplete. */
  ghost predicate Frontier<M>(cfg: Config<M>, start: nat, accepted: seq<Report<M>>, q: nat) {
    && start <= q
    && CompleteUpTo(cfg, start, accepted, q)
    && SlotAt(cfg, accepted, q).done != AllNodes(cfg.nodes)
  }

  /** With increasing reports the barrier stands at the first incomplete quantum. */
  lemma StandsAtFrontier<M(!new)>(cfg: Config<M>, start: nat, calls: seq<Report<M>>)
    requires Ordered(cfg) && NodeIncreasing(calls) && cfg.nodes > 0
    ensures var t := Run(cfg, Fresh(start), calls); Frontier(cfg, start, t.accepted, t.state.current)
  {
    RunExplained(cfg, start, calls);
    NeverWedged(cfg, start, calls);
  }

  /**
   With increasing reports, the report that completes its quantum returns the batch of that
   quantum if and only if every quantum before it is complete.
   */
  lemma ReleasesIffReached<M(!new)>(cfg: Config<M>, start: nat, calls: seq<Report<M>>, c: Report<M>)
    requires Ordered(cfg) && cfg.nodes > 0 && NodeIncreasing(calls + [c])
    requires Accepts(cfg, Run(cfg, Fresh(start), calls).state, c)
    requires SlotAt(cfg, Run(cfg, Fresh(start), calls).accepted + [c], c.quantum).done == AllNodes(cfg.nodes)
    ensures var t := Run(cfg, Fresh(start), calls);
            Step(cfg, t.state, c).result == Ok(Some(Batch(cfg, t.accepted + [c], c.quantum))) <==>
            CompleteUpTo(cfg, start, t.accepted, c.quantum)
  {
    hide Run, SlotAt, Ordered, NodeIncreasing;
    var t := Run(cfg, Fresh(start), calls);
    RunExplained(cfg, start, calls);
    PrefixIncreasing(calls, c);
    StandsAtFrontier(cfg, start, calls);
    if c.quantum == t.state.current {
      CompletingReport(cfg, start, t, c);
    } else {
      assert SlotAt(cfg, t.accepted, t.state.current).done != AllNodes(cfg.nodes);
    }
  }

  /**
   Progress: with increasing reports, no gaps and no errors, the report that completes a
   quantum releases it at once.
   */
  lemma LastReportReleases<M(!new)>(cfg: Config<M>, start: nat, calls: seq<Report<M>>, c: Report<M>)
    requires Ordered(cfg) && cfg.nodes > 0
    requires NodeIncreasing(calls + [c]) && GapFree(start, calls + [c])
    requires ErrorFree(Run(cfg, Fresh(start), calls + [c]).results)
    requires Relevant(cfg, start)(c)
    requires SlotAt(cfg, Filter(Relevant(cfg, start), calls + [c]), c.quantum).done == AllNodes(cfg.nodes)
    ensures var t := Run(cfg, Fresh(start), calls);
            Step(cfg, t.state, c).result == Ok(Some(Batch(cfg, t.accepted + [c], c.quantum)))
  {
    hide Run, SlotAt, Ordered, NodeIncreasing, GapFree, Filter;
    var t := Run(cfg, Fresh(start), calls);
    AcceptedWithLast(cfg, start, calls, c);
    RunExplained(cfg, start, calls);
    forall p | start <= p < c.quantum ensures SlotAt(cfg, t.accepted, p).done == AllNodes(cfg.nodes) {
      if p == t.state.current {
        forall k | k in AllNodes(cfg.nodes) ensures k in t.state.cur.done {
          AheadImpliesCurrent(cfg, start, calls, c, t.state.current, k);
        }
      }
    }
    ReleasesIffReached(cfg, start, calls, c);
  }

  lemma FullLookaheadRefuses<M(!new)>(cfg: Config<M>, start: nat, calls: seq<Report<M>>, c: Report<M>)
    requires Ordered(cfg) && NodeIncreasing(calls + [c])
    requires Run(cfg, Fresh(start), calls).state.next.done == AllNodes(cfg.nodes)
    ensures !Accepts(cfg, Run(cfg, Fresh(start), calls).state, c)
  {
    hide Run, SlotAt, Ordered, NodeIncreasing;
    var t := Run(cfg, Fresh(start), calls);
    RunExplained(cfg, start, calls);
    if c.quantum <= t.state.current + 1 {
      NotYetReported(cfg, Fresh(start), calls, c, t.state.current + 1);
    }
  }

  /**
   In an increasing run, once every node has reported the next quantum while the current one
   still lacks a report, no further report is accepted and nothing is ever released again.
   */
  lemma {:induction false} FullLookaheadStalls<M(!new)>(cfg: Config<M>, start: nat, calls: seq<Report<M>>, more: seq<Report<M>>)
    requires Ordered(cfg) && NodeIncreasing(calls + more)
    requires Run(cfg, Fresh(start), calls).state.next.done == AllNodes(cfg.nodes)
    ensures var t, u := Run(cfg, Fresh(start), calls), Run(cfg, Fresh(start), calls + more);
            u.state == t.state && u.accepted == t.accepted && u.batches == t.batches
  {
    hide Run, NodeIncreasing, Ordered;
    if more == [] {
      assert calls + more == calls;
    } else {
      var before, c := more[..|more| - 1], more[|more| - 1];
      assert calls + more == (calls + before) + [c];
      PrefixIncreasing(calls + before, c);
      FullLookaheadStalls(cfg, start, calls, before);
      FullLookaheadRefuses(cfg, start, calls + before, c);
      RunSnoc(cfg, Fresh(start), calls + before, c);
    }
  }

  lemma {:induction false} NoNodesNoAccepts<M(!new)>(cfg: Config<M>, s: State<M>, calls: seq<Report<M>>)
    requires Ordered(cfg) && cfg.nodes == 0
    ensures Run(cfg, s, calls).accepted == [] && Run(cfg, s, calls).batches == [] && Run(cfg, s, calls).state == s
  {
    if calls != [] {
      NoNodesNoAccepts(cfg, s, calls[..|calls| - 1]);
    }
  }

  /** Two traces with permuted accepted calls that both stand at the frontier agree. */
  lemma FrontierDecides<M(!new)>(cfg: Config<M>, start: nat, t: Trace<State<M>, nat, M>, u: Trace<State<M>, nat, M>)
    requires Ordered(cfg) && Explained(cfg, start, t) && Explained(cfg, start, u)
    requires Frontier(cfg, start, t.accepted, t.state.current) && Frontier(cfg, start, u.accepted, u.state.current)
    requires multiset(t.accepted) == multiset(u.accepted)
    ensures t.state == u.state && t.batches == u.batches
  {
    hide SlotAt, Canon, Ordered, Distinct, InWindow;
    forall q { SlotForgetsOrder(cfg, t.accepted, u.accepted, q); }
    assert t.state.current == u.state.current;
    assert |t.batches| == |u.batches|;
    forall i | 0 <= i < |t.batches| ensures t.batches[i] == u.batches[i] {
      var q := start + i;
      assert t.batches[q - start] == Batch(cfg, t.accepted, q);
      assert u.batches[q - start] == Batch(cfg, u.accepted, q);
    }
  }

  /**
   Determinism: two error-free interleavings of the same increasing reports release the same
   sequence of batches and end in the same state.
   */
  lemma Determinism<M(!new)>(cfg: Config<M>, start: nat, a: seq<Report<M>>, b: seq<Report<M>>)
    requires Ordered(cfg) && NodeIncreasing(a) && NodeIncreasing(b)
    requires multiset(a) == multiset(b)
    requires ErrorFree(Run(cfg, Fresh(start), a).results) && ErrorFree(Run(cfg, Fresh(start), b).results)
    ensures Run(cfg, Fresh(start), a).state == Run(cfg, Fresh(start), b).state
    ensures Releases(Run(cfg, Fresh(start), a).results) == Releases(Run(cfg, Fresh(start), b).results)
  {
    ReleasesAreBatches(cfg, Fresh(start), a);
    ReleasesAreBatches(cfg, Fresh(start), b);
    if cfg.nodes == 0 {
      NoNodesNoAccepts(cfg, Fresh(start), a);
      NoNodesNoAccepts(cfg, Fresh(start), b);
    } else {
      AllAccepted(cfg, start, a);
      AllAccepted(cfg, start, b);
      FilterPermutes(Relevant(cfg, start), a, b);
      StandsAtFrontier(cfg, start, a);
      StandsAtFrontier(cfg, start, b);
      RunExplained(cfg, start, a);
      RunExplained(cfg, start, b);
      FrontierDecides(cfg, start, Run(cfg, Fresh(start), a), Run(cfg, Fresh(start), b));
    }
  }

  /** The order of the messages inside a report does not matter to the step it takes. */
  lemma AlikeSteps<M(!new)>(cfg: Config<M>, s: State<M>, c: Report<M>, d: Report<M>)
    requires Ordered(cfg) && c.node == d.node && c.quantum == d.quantum && multiset(c.msgs) == multiset(d.msgs)
    ensures Step(cfg, s, c) == Step(cfg, s, d)
  {
    hide Sort, Canon;
    SortForgetsOrder(cfg.leq, c.msgs, d.msgs);
  }

  lemma {:induction false} TidyRuns<M(!new)>(cfg: Config<M>, s: State<M>, calls: seq<Report<M>>)
    requires Ordered(cfg)
    ensures var t, u := Run(cfg, s, calls), Run(cfg, s, Tidy(cfg, Summaries(calls)));
            t.state == u.state && t.results == u.results && t.batches == u.batches
  {
    hide Step, Sort, Canon;
    if calls != [] {
      var before, c := calls[..|calls| - 1], calls[|calls| - 1];
      TidyRuns(cfg, s, before);
      var d := Call(c.node, c.quantum, Canon(cfg.leq, multiset(c.msgs)));
      assert Tidy(cfg, Summaries(calls)) == Tidy(cfg, Summaries(before)) + [d];
      RunSnoc(cfg, s, Tidy(cfg, Summaries(before)), d);
      AlikeSteps(cfg, Run(cfg, s, before).state, c, d);
    }
  }

  lemma TidyIncreases<M(!new)>(cfg: Config<M>, calls: seq<Report<M>>)
    requires Ordered(cfg) && NodeIncreasing(calls)
    ensures NodeIncreasing(Tidy(cfg, Summaries(calls)))
  {
    hide Ordered, Canon;
  }

  /** Determinism when the messages inside each report may arrive in a different order as well. */
  lemma BagDeterminism<M(!new)>(cfg: Config<M>, start: nat, a: seq<Report<M>>, b: seq<Report<M>>)
    requires Ordered(cfg) && NodeIncreasing(a) && NodeIncreasing(b)
    requires multiset(Summaries(a)) == multiset(Summaries(b))
    requires ErrorFree(Run(cfg, Fresh(start), a).results) && ErrorFree(Run(cfg, Fresh(start), b).results)
    ensures Run(cfg, Fresh(start), a).state == Run(cfg, Fresh(start), b).state
    ensures Releases(Run(cfg, Fresh(start), a).results) == Releases(Run(cfg, Fresh(start), b).results)
  {
    hide Run, Ordered, Releases, ErrorFree, Tidy, Summaries, NodeIncreasing;
    TidyRuns(cfg, Fresh(start), a);
    TidyRuns(cfg, Fresh(start), b);
    TidyPermutes(cfg, Summaries(a), Summaries(b));
    TidyIncreases(cfg, a);
    TidyIncreases(cfg, b);
    Determinism(cfg, start, Tidy(cfg, Summaries(a)), Tidy(cfg, Summaries(b)));
  }

  /** No report is more than one quantum ahead of the barrier it meets. */
  ghost predicate AtMostOneAhead<M(!new)>(cfg: Config<M>, start: nat, calls: seq<Report<M>>)
    requires Ordered(cfg)
  {
    forall i :: 0 <= i < |calls| ==>
      calls[i].node < cfg.nodes && calls[i].quantum <= Run(cfg, Fresh(start), calls[..i]).state.current + 1
  }

  lemma PrefixAhead<M(!new)>(cfg: Config<M>, start: nat, calls: seq<Report<M>>, c: Report<M>)
    requires Ordered(cfg) && AtMostOneAhead(cfg, start, calls + [c])
    ensures AtMostOneAhead(cfg, start, calls)
    ensures c.node < cfg.nodes && c.quantum <= Run(cfg, Fresh(start), calls).state.current + 1
  {
    var all := calls + [c];
    forall i | 0 <= i <= |calls| ensures all[..i] == calls[..i] {}
    assert all[|calls|] == c && calls[..|calls|] == calls;
    forall i | 0 <= i < |calls|
      ensures calls[i].node < cfg.nodes && calls[i].quantum <= Run(cfg, Fresh(start), calls[..i]).state.current + 1
    {
      assert all[i] == calls[i];
    }
  }

  lemma NewReportIsOk<M(!new)>(cfg: Config<M>, start: nat, t: Trace<State<M>, nat, M>, c: Report<M>)
    requires Ordered(cfg) && Explained(cfg, start, t)
    requires c.node < cfg.nodes && c.quantum <= t.state.current + 1 && c.node !in SlotAt(cfg, t.accepted, c.quantum).done
    ensures Step(cfg, t.state, c).result.Ok?
  {
    hide Sort, Canon, SlotAt;
  }

  /** Reports that never run more than one quantum ahead raise no error. */
  lemma {:induction false} NoErrors<M(!new)>(cfg: Config<M>, start: nat, calls: seq<Report<M>>)
    requires Ordered(cfg) && NodeIncreasing(calls) && AtMostOneAhead(cfg, start, calls)
    ensures ErrorFree(Run(cfg, Fresh(start), calls).results)
  {
    hide Run, Step, Explained, NodeIncreasing, AtMostOneAhead, Ordered;
    if calls != [] {
      var before, c := calls[..|calls| - 1], calls[|calls| - 1];
      assert calls == before + [c];
      PrefixIncreasing(before, c);
      PrefixAhead(cfg, start, before, c);
      NoErrors(cfg, start, before);
      RunExplained(cfg, start, before);
      NotYetReported(cfg, Fresh(start), before, c, c.quantum);
      RunSnoc(cfg, Fresh(start), before, c);
      NewReportIsOk(cfg, start, Run(cfg, Fresh(start), before), c);
    }
  }

  /**
   Which error a call meets after any run, on the history alone.  Let `q` be the first quantum not
   released.  Reports before `q` are ignored; otherwise an unknown node is refused first, then a
   quantum beyond `q + 1`, then a report already accepted.
   */
  lemma ErrorsExplained<M(!new)>(cfg: Config<M>, start: nat, calls: seq<Report<M>>, c: Report<M>, k: nat, e: nat, g: nat)
    requires Ordered(cfg)
    ensures var t := Run(cfg, Fresh(start), calls);
            var r, q := Step(cfg, t.state, c).result, start + |Releases(t.results)|;
            && (c.quantum < q ==> r == Ok(None))
            && (r == Err(NodeIndexOutOfBounds(k)) <==> c.quantum >= q && c.node >= cfg.nodes && k == c.node)
            && (r == Err(QuantumMismatch(e, g)) <==>
                c.quantum > q + 1 && c.node < cfg.nodes && e == q && g == c.quantum)
            && (r == Err(DuplicateDone) <==>
                && q <= c.quantum <= q + 1 && c.node < cfg.nodes
                && exists i :: 0 <= i < |t.accepted| && t.accepted[i].node == c.node && t.accepted[i].quantum == c.quantum)
  {
    hide Run, SlotAt, Canon, Kept, Ordered, Releases;
    var t := Run(cfg, Fresh(start), calls);
    RunExplained(cfg, start, calls);
    ReleasesAreBatches(cfg, Fresh(start), calls);
    SlotDone(cfg, t.accepted, c.quantum, c.node);
  }
}
