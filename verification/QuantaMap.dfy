/**
 The Zenoh coordinator's barrier as a state machine: any future quantum is accepted into a
 map, and one call drains every consecutive complete quantum.
 */
module QuantaMap {
  import opened Collections
  import opened Ordering
  import opened Messages
  import opened BarrierSpec

  datatype State<N, M> = State(current: nat, slots: map<nat, Slot<N, M>>)

  datatype Drained<N, M> = Drained(state: State<N, M>, batches: seq<seq<M>>)

  ghost function Fresh<N, M>(start: nat): (r: State<N, M>) {
    State(start, map[])
  }

  ghost function Lookup<N, M>(s: State<N, M>, q: nat): (r: Slot<N, M>) {
    if q in s.slots then s.slots[q] else EmptySlot()
  }

  /** The current quantum is present with exactly as many reporters as there are nodes. */
  ghost predicate Complete<N, M>(cfg: Config<M>, s: State<N, M>) {
    s.current in s.slots && |s.slots[s.current].done| == cfg.nodes
  }

  /** What is left once the current quantum has been taken out. */
  ghost function Advance<N, M>(s: State<N, M>): (r: State<N, M>)
    requires s.current in s.slots
    ensures |r.slots| < |s.slots|
  {
    assert (s.slots - {s.current}).Keys == s.slots.Keys - {s.current};
    State(s.current + 1, s.slots - {s.current})
  }

  /** Release complete quanta until one is missing or incomplete. */
  ghost function Drain<N, M(!new)>(cfg: Config<M>, s: State<N, M>): (r: Drained<N, M>)
    requires Ordered(cfg)
    ensures !Complete(cfg, r.state)
    ensures r.state.current == s.current + |r.batches|
    decreases |s.slots|
  {
    if Complete(cfg, s) then
      var rest := Drain(cfg, Advance(s));
      Drained(rest.state, [Canon(cfg.leq, s.slots[s.current].msgs)] + rest.batches)
    else
      Drained(s, [])
  }

  ghost predicate Accepts<N, M>(s: State<N, M>, c: Call<N, M>) {
    s.current <= c.quantum && c.node !in Lookup(s, c.quantum).done
  }

  ghost function Record<N, M>(cfg: Config<M>, s: State<N, M>, c: Call<N, M>): (r: State<N, M>)
    ensures r.current == s.current
  {
    s.(slots := s.slots[c.quantum := Add(cfg, Lookup(s, c.quantum), c)])
  }

  /** One `submit_done`. */
  ghost function Step<N, M(!new)>(cfg: Config<M>, s: State<N, M>, c: Call<N, M>): (e: Effect<State<N, M>, M>)
    requires Ordered(cfg)
    ensures e.accepted <==> Accepts(s, c)
    ensures e.result.Ok? <==> e.accepted || c.quantum < s.current
  {
    if c.quantum < s.current then
      Effect(s, Ok(None), false, [])
    else if c.node in Lookup(s, c.quantum).done then
      Effect(s, Err(DuplicateDone), false, [])
    else
      var d := Drain(cfg, Record(cfg, s, c));
      Effect(d.state, Ok(if d.batches == [] then None else Some(Flatten(d.batches))), true, d.batches)
  }

  ghost function Run<N, M(!new)>(cfg: Config<M>, s: State<N, M>, calls: seq<Call<N, M>>): (t: Trace<State<N, M>, N, M>)
    requires Ordered(cfg)
    ensures |t.results| == |calls|
  {
    if calls == [] then Trace(s, [], [], [])
    else
      var t := Run(cfg, s, calls[..|calls| - 1]);
      var c := calls[|calls| - 1];
      Extend(t, c, Step(cfg, t.state, c))
  }

  // ----- Safety of every run -----

  /** The map holds exactly the slots the history has opened and not yet released. */
  ghost predicate SlotsExplained<N, M>(cfg: Config<M>, accepted: seq<Call<N, M>>, s: State<N, M>) {
    && (forall q :: q in s.slots ==> q >= s.current && s.slots[q].done != {})
    && (forall q :: q >= s.current ==> Lookup(s, q) == SlotAt(cfg, accepted, q))
  }

  /** One batch per finished quantum, namely the one specified for it, with `nodes` reporters. */
  ghost predicate BatchesExplained<N, M(!new)>(cfg: Config<M>, start: nat, accepted: seq<Call<N, M>>, current: nat, batches: seq<seq<M>>)
    requires Ordered(cfg)
  {
    && current == start + |batches|
    && forall q :: start <= q < current ==>
         && batches[q - start] == Batch(cfg, accepted, q)
         && |SlotAt(cfg, accepted, q).done| == cfg.nodes
  }

  ghost predicate Explained<N, M(!new)>(cfg: Config<M>, start: nat, t: Trace<State<N, M>, N, M>)
    requires Ordered(cfg)
  {
    && Distinct(t.accepted)
    && (forall i :: 0 <= i < |t.accepted| ==> t.accepted[i].quantum >= start)
    && SlotsExplained(cfg, t.accepted, t.state)
    && BatchesExplained(cfg, start, t.accepted, t.state.current, t.batches)
    && !Complete(cfg, t.state)
  }

  lemma AdvanceExplained<N, M(!new)>(cfg: Config<M>, start: nat, accepted: seq<Call<N, M>>, s: State<N, M>, released: seq<seq<M>>)
    requires Ordered(cfg) && SlotsExplained(cfg, accepted, s) && Complete(cfg, s)
    requires BatchesExplained(cfg, start, accepted, s.current, released)
    ensures SlotsExplained(cfg, accepted, Advance(s))
    ensures BatchesExplained(cfg, start, accepted, s.current + 1, released + [Canon(cfg.leq, s.slots[s.current].msgs)])
  {
    hide Canon, SlotAt;
    assert Lookup(s, s.current) == SlotAt(cfg, accepted, s.current);
    forall q | q >= s.current + 1 ensures Lookup(Advance(s), q) == SlotAt(cfg, accepted, q) {
      assert Lookup(Advance(s), q) == Lookup(s, q);
    }
  }

  /** Draining releases specified batches only, and leaves the rest of the map untouched. */
  lemma {:induction false} DrainExplained<N, M(!new)>(cfg: Config<M>, start: nat, accepted: seq<Call<N, M>>, s: State<N, M>, released: seq<seq<M>>)
    requires Ordered(cfg) && SlotsExplained(cfg, accepted, s)
    requires BatchesExplained(cfg, start, accepted, s.current, released)
    ensures var d := Drain(cfg, s);
            && SlotsExplained(cfg, accepted, d.state)
            && BatchesExplained(cfg, start, accepted, d.state.current, released + d.batches)
    decreases |s.slots|
  {
    hide Canon, SlotsExplained, BatchesExplained;
    if Complete(cfg, s) {
      var batch := Canon(cfg.leq, s.slots[s.current].msgs);
      AdvanceExplained(cfg, start, accepted, s, released);
      DrainExplained(cfg, start, accepted, Advance(s), released + [batch]);
      assert released + Drain(cfg, s).batches == (released + [batch]) + Drain(cfg, Advance(s)).batches;
    } else {
      assert released + [] == released;
    }
  }

  lemma RecordExplained<N, M(!new)>(cfg: Config<M>, start: nat, t: Trace<State<N, M>, N, M>, c: Call<N, M>)
    requires Ordered(cfg) && Explained(cfg, start, t) && Accepts(t.state, c)
    ensures SlotsExplained(cfg, t.accepted + [c], Record(cfg, t.state, c))
    ensures BatchesExplained(cfg, start, t.accepted + [c], t.state.current, t.batches)
    ensures Distinct(t.accepted + [c])
  {
    hide Sort, Canon;
    var acc := t.accepted + [c];
    SlotDone(cfg, t.accepted, c.quantum, c.node);
    forall q | q >= t.state.current ensures Lookup(Record(cfg, t.state, c), q) == SlotAt(cfg, acc, q) {
      SlotSnoc(cfg, t.accepted, c, q);
    }
    forall q | start <= q < t.state.current ensures SlotAt(cfg, acc, q) == SlotAt(cfg, t.accepted, q) {
      SlotSnoc(cfg, t.accepted, c, q);
    }
  }

  lemma StartedBefore<N, M(!new)>(cfg: Config<M>, start: nat, t: Trace<State<N, M>, N, M>)
    requires Ordered(cfg) && Explained(cfg, start, t)
    ensures t.state.current >= start
  {}

  lemma StepExplained<N, M(!new)>(cfg: Config<M>, start: nat, t: Trace<State<N, M>, N, M>, c: Call<N, M>)
    requires Ordered(cfg) && Explained(cfg, start, t)
    ensures Explained(cfg, start, Extend(t, c, Step(cfg, t.state, c)))
  {
    hide SlotsExplained, BatchesExplained, Flatten, Ordered, Drain, Record, Distinct, Lookup, Complete;
    StartedBefore(cfg, start, t);
    if Accepts(t.state, c) {
      RecordExplained(cfg, start, t, c);
      DrainExplained(cfg, start, t.accepted + [c], Record(cfg, t.state, c), t.batches);
    } else {
      assert t.batches + [] == t.batches;
    }
  }

  lemma NothingYet<N, M(!new)>(cfg: Config<M>, start: nat)
    requires Ordered(cfg)
    ensures Explained<N, M>(cfg, start, Trace(Fresh(start), [], [], []))
  {}

  /**
   In every run, whatever is called: the released batches are the specified batches of
   consecutive quanta, every remaining key is at least the current quantum, and the current
   quantum is absent or incomplete.
   */
  lemma {:induction false} RunExplained<N, M(!new)>(cfg: Config<M>, start: nat, calls: seq<Call<N, M>>)
    requires Ordered(cfg)
    ensures Explained(cfg, start, Run(cfg, Fresh(start), calls))
  {
    hide Explained, Step, Ordered;
    if calls == [] {
      NothingYet<N, M>(cfg, start);
    } else {
      var before, c := calls[..|calls| - 1], calls[|calls| - 1];
      RunExplained(cfg, start, before);
      StepExplained(cfg, start, Run(cfg, Fresh(start), before), c);
    }
  }

  /** What a caller gets back: the batches of exactly the quanta this call closed, one after the other. */
  lemma ResultExplained<N, M(!new)>(cfg: Config<M>, start: nat, t: Trace<State<N, M>, N, M>, c: Call<N, M>)
    requires Ordered(cfg) && Explained(cfg, start, t) && Accepts(t.state, c)
    ensures var e := Step(cfg, t.state, c);
            && e.result == Ok(if e.state.current == t.state.current then None else Some(Flatten(e.batches)))
            && |e.batches| == e.state.current - t.state.current
            && forall q :: t.state.current <= q < e.state.current ==>
                 e.batches[q - t.state.current] == Batch(cfg, t.accepted + [c], q)
  {
    hide Sort, Canon, SlotAt, SlotsExplained, Flatten;
    var e := Step(cfg, t.state, c);
    RecordExplained(cfg, start, t, c);
    DrainExplained(cfg, start, t.accepted + [c], Record(cfg, t.state, c), t.batches);
    var all := t.batches + e.batches;
    forall q | t.state.current <= q < e.state.current
      ensures e.batches[q - t.state.current] == Batch(cfg, t.accepted + [c], q)
    {
      assert all[q - start] == e.batches[q - t.state.current];
    }
  }

  /** All messages the callers of a run receive, in the order in which the calls return. */
  ghost function Received<M>(results: seq<SubmitResult<M>>): (r: seq<M>) {
    Flatten(Releases(results))
  }

  lemma ReceivedSnoc<M>(results: seq<SubmitResult<M>>, r: SubmitResult<M>)
    ensures Received(results + [r]) == Received(results) + if r.Ok? && r.released.Some? then r.released.value else []
  {
    hide Flatten;
    assert (results + [r])[..|results|] == results;
    if r.Ok? && r.released.Some? {
      FlattenConcat(Releases(results), [r.released.value]);
      FlattenOne(r.released.value);
    } else {
      assert Releases(results) + [] == Releases(results);
    }
  }

  /** Put together, the results of a run are the batches of the quanta it released, one after the other. */
  lemma {:induction false} ReceivedAreBatches<N, M(!new)>(cfg: Config<M>, s: State<N, M>, calls: seq<Call<N, M>>)
    requires Ordered(cfg)
    ensures Received(Run(cfg, s, calls).results) == Flatten(Run(cfg, s, calls).batches)
  {
    if calls != [] {
      hide Flatten, Releases, Received, Drain, Ordered;
      var before, c := calls[..|calls| - 1], calls[|calls| - 1];
      ReceivedAreBatches(cfg, s, before);
      var t := Run(cfg, s, before);
      var e := Step(cfg, t.state, c);
      ReceivedSnoc(t.results, e.result);
      FlattenConcat(t.batches, e.batches);
      FlattenEmpty<M>();
    }
  }

  // ----- Confluence -----

  /**
   No quantum that the barrier can reach has more reporters than the barrier counts.  The
   completeness test is an equality on sizes, so one reporter too many is as bad as one too few.
   */
  ghost predicate Fits<N, M>(cfg: Config<M>, start: nat, calls: seq<Call<N, M>>) {
    forall q :: q >= start && CompleteUpTo(cfg, start, calls, q) ==> |SlotAt(cfg, calls, q).done| <= cfg.nodes
  }

  /** Every quantum before `q` has exactly the number of reporters the barrier waits for. */
  ghost predicate CompleteUpTo<N, M>(cfg: Config<M>, start: nat, calls: seq<Call<N, M>>, q: nat) {
    forall p :: start <= p < q ==> |SlotAt(cfg, calls, p).done| == cfg.nodes
  }

  ghost predicate NotBefore<N, M>(start: nat, calls: seq<Call<N, M>>) {
    forall i :: 0 <= i < |calls| ==> calls[i].quantum >= start
  }

  lemma PrefixDistinct<N, M>(calls: seq<Call<N, M>>, c: Call<N, M>)
    requires Distinct(calls + [c])
    ensures Distinct(calls)
    ensures forall i :: 0 <= i < |calls| && calls[i].quantum == c.quantum ==> calls[i].node != c.node
  {
    var all := calls + [c];
    forall i | 0 <= i < |calls| ensures all[i] == calls[i] {}
    assert all[|calls|] == c;
    forall i, j | 0 <= i < j < |calls| && calls[i].quantum == calls[j].quantum ensures calls[i].node != calls[j].node {
      assert all[i].quantum == all[j].quantum;
    }
    forall i | 0 <= i < |calls| && calls[i].quantum == c.quantum ensures calls[i].node != c.node {
      assert all[i].quantum == all[|calls|].quantum;
    }
  }

  lemma SlotGrows<N, M>(cfg: Config<M>, before: seq<Call<N, M>>, after: seq<Call<N, M>>, q: nat)
    ensures SlotAt(cfg, before, q).done <= SlotAt(cfg, before + after, q).done
  {
    SlotConcat(cfg, before, after, q);
  }

  /** Quanta complete in part of a fitting history have no reporter left for the rest of it. */
  lemma {:induction false} CompleteIsFinal<N, M>(cfg: Config<M>, start: nat, before: seq<Call<N, M>>, after: seq<Call<N, M>>, q: nat)
    requires Fits(cfg, start, before + after) && CompleteUpTo(cfg, start, before, q) && q >= start
    ensures forall p :: start <= p < q ==> SlotAt(cfg, before + after, p).done == SlotAt(cfg, before, p).done
    decreases q - start
  {
    hide SlotAt;
    if q > start {
      CompleteIsFinal(cfg, start, before, after, q - 1);
      assert CompleteUpTo(cfg, start, before + after, q - 1);
      SlotGrows(cfg, before, after, q - 1);
      SubsetSize(SlotAt(cfg, before, q - 1).done, SlotAt(cfg, before + after, q - 1).done);
    }
  }

  /** Distinct reports that fit are all accepted. */
  lemma {:induction false} AllAccepted<N, M(!new)>(cfg: Config<M>, start: nat, calls: seq<Call<N, M>>, later: seq<Call<N, M>>)
    requires Ordered(cfg) && Distinct(calls) && NotBefore(start, calls) && Fits(cfg, start, calls + later)
    ensures Run(cfg, Fresh(start), calls).accepted == calls
    ensures ErrorFree(Run(cfg, Fresh(start), calls).results)
  {
    hide Sort, Canon, Drain, SlotAt, Fits;
    if calls != [] {
      var before, c := calls[..|calls| - 1], calls[|calls| - 1];
      assert calls == before + [c];
      PrefixDistinct(before, c);
      assert calls + later == before + ([c] + later);
      AllAccepted(cfg, start, before, [c] + later);
      RunExplained(cfg, start, before);
      SlotDone(cfg, before, c.quantum, c.node);
      var t := Run(cfg, Fresh(start), before);
      if c.quantum < t.state.current {
        CompleteIsFinal(cfg, start, before, [c] + later, t.state.current);
        SlotGrows(cfg, before + [c], later, c.quantum);
        SlotSnoc(cfg, before, c, c.quantum);
        assert false;
      }
    }
  }

  /** The barrier stands at the first quantum that does not have the right number of reporters. */
  ghost predicate Frontier<N, M>(cfg: Config<M>, start: nat, calls: seq<Call<N, M>>, q: nat) {
    q >= start && CompleteUpTo(cfg, start, calls, q) && |SlotAt(cfg, calls, q).done| != cfg.nodes
  }

  lemma StandsAtFrontier<N, M(!new)>(cfg: Config<M>, start: nat, t: Trace<State<N, M>, N, M>)
    requires Ordered(cfg) && Explained(cfg, start, t) && cfg.nodes > 0
    ensures Frontier(cfg, start, t.accepted, t.state.current)
  {
    hide SlotAt, Canon;
    assert Lookup(t.state, t.state.current) == SlotAt(cfg, t.accepted, t.state.current);
  }

  lemma SlotsEqual<N, M>(cfg: Config<M>, a: seq<Call<N, M>>, b: seq<Call<N, M>>, s: State<N, M>, u: State<N, M>)
    requires SlotsExplained(cfg, a, s) && SlotsExplained(cfg, b, u)
    requires s.current == u.current && multiset(a) == multiset(b)
    ensures s == u
  {
    forall q | q >= s.current ensures Lookup(s, q) == Lookup(u, q) {
      SlotForgetsOrder(cfg, a, b, q);
    }
    forall q ensures q in s.slots <==> q in u.slots {
      if q >= s.current { assert Lookup(s, q) == Lookup(u, q); }
    }
    forall q | q in s.slots ensures s.slots[q] == u.slots[q] {
      assert Lookup(s, q) == Lookup(u, q);
    }
    assert s.slots == u.slots;
  }

  /** State and output are a matter of which calls were accepted, not of their order. */
  lemma FrontierDecides<N, M(!new)>(cfg: Config<M>, start: nat, t: Trace<State<N, M>, N, M>, u: Trace<State<N, M>, N, M>)
    requires Ordered(cfg) && Explained(cfg, start, t) && Explained(cfg, start, u) && cfg.nodes > 0
    requires multiset(t.accepted) == multiset(u.accepted)
    ensures t.state == u.state && t.batches == u.batches
  {
    hide Sort, Canon;
    forall q { SlotForgetsOrder(cfg, t.accepted, u.accepted, q); }
    StandsAtFrontier(cfg, start, t);
    StandsAtFrontier(cfg, start, u);
    assert t.state.current == u.state.current;
    SlotsEqual(cfg, t.accepted, u.accepted, t.state, u.state);
    forall i | 0 <= i < |t.batches| ensures t.batches[i] == u.batches[i] {
      var q := start + i;
      assert t.batches[q - start] == Batch(cfg, t.accepted, q);
      assert u.batches[q - start] == Batch(cfg, u.accepted, q);
    }
  }

  lemma PermutedHypotheses<N, M(!new)>(cfg: Config<M>, start: nat, a: seq<Call<N, M>>, b: seq<Call<N, M>>)
    requires multiset(a) == multiset(b) && Distinct(a) && NotBefore(start, a)
    ensures Distinct(b) && NotBefore(start, b)
    ensures Fits(cfg, start, a) ==> Fits(cfg, start, b)
  {
    hide SlotAt;
    DistinctPermutes(a, b);
    forall i | 0 <= i < |b| ensures b[i].quantum >= start {
      assert b[i] in multiset(b) && b[i] in multiset(a);
      assert b[i] in a;
    }
    forall q { SlotForgetsOrder(cfg, a, b, q); }
  }

  /**
   Confluence: every ordering of the same distinct, fitting reports is accepted in full, hands
   its callers the same messages in the same order, and ends in the same state.
   */
  lemma Confluence<N, M(!new)>(cfg: Config<M>, start: nat, a: seq<Call<N, M>>, b: seq<Call<N, M>>)
    requires Ordered(cfg) && cfg.nodes > 0
    requires Distinct(a) && NotBefore(start, a) && Fits(cfg, start, a)
    requires multiset(a) == multiset(b)
    ensures Run(cfg, Fresh(start), b).accepted == b && ErrorFree(Run(cfg, Fresh(start), b).results)
    ensures Run(cfg, Fresh(start), a).state == Run(cfg, Fresh(start), b).state
    ensures Run(cfg, Fresh(start), a).batches == Run(cfg, Fresh(start), b).batches
    ensures Received(Run(cfg, Fresh(start), a).results) == Received(Run(cfg, Fresh(start), b).results)
  {
    hide *;
    ReceivedAreBatches(cfg, Fresh(start), a);
    ReceivedAreBatches(cfg, Fresh(start), b);
    PermutedHypotheses(cfg, start, a, b);
    assert a + [] == a && b + [] == b;
    AllAccepted(cfg, start, a, []);
    AllAccepted(cfg, start, b, []);
    RunExplained(cfg, start, a);
    RunExplained(cfg, start, b);
    FrontierDecides(cfg, start, Run(cfg, Fresh(start), a), Run(cfg, Fresh(start), b));
  }

  /** All reports come from a fixed set of exactly as many names as the barrier counts. */
  ghost predicate FromUniverse<N, M>(cfg: Config<M>, names: set<N>, calls: seq<Call<N, M>>) {
    && |names| == cfg.nodes
    && forall i :: 0 <= i < |calls| ==> calls[i].node in names
  }

  /** Such reports always fit, so they are confluent. */
  lemma UniverseFits<N, M(!new)>(cfg: Config<M>, names: set<N>, start: nat, calls: seq<Call<N, M>>)
    requires FromUniverse(cfg, names, calls)
    ensures Fits(cfg, start, calls)
  {
    forall q | q >= start ensures |SlotAt(cfg, calls, q).done| <= cfg.nodes {
      var done := SlotAt(cfg, calls, q).done;
      forall k | k in done ensures k in names {
        SlotDone(cfg, calls, q, k);
      }
      SubsetSize(done, names);
    }
  }

  // ----- Confluence fails exactly when the reports do not fit -----

  ghost predicate AllBelow<N, M>(calls: seq<Call<N, M>>, q: nat) {
    forall i :: 0 <= i < |calls| ==> calls[i].quantum < q
  }

  ghost predicate AllAt<N, M>(calls: seq<Call<N, M>>, q: nat) {
    forall i :: 0 <= i < |calls| ==> calls[i].quantum == q
  }

  ghost predicate AllAbove<N, M>(calls: seq<Call<N, M>>, q: nat) {
    forall i :: 0 <= i < |calls| ==> calls[i].quantum > q
  }

  lemma {:induction false} SlotElsewhere<N, M>(cfg: Config<M>, calls: seq<Call<N, M>>, q: nat)
    requires forall i :: 0 <= i < |calls| ==> calls[i].quantum != q
    ensures SlotAt(cfg, calls, q) == EmptySlot()
  {
    if calls != [] {
      SlotElsewhere(cfg, calls[..|calls| - 1], q);
    }
  }

  lemma {:induction false} SlotOfOneQuantum<N, M>(cfg: Config<M>, calls: seq<Call<N, M>>, q: nat)
    requires Distinct(calls) && AllAt(calls, q)
    ensures |SlotAt(cfg, calls, q).done| == |calls|
  {
    if calls != [] {
      var before, c := calls[..|calls| - 1], calls[|calls| - 1];
      assert calls == before + [c];
      PrefixDistinct(before, c);
      SlotOfOneQuantum(cfg, before, q);
      SlotDone(cfg, before, q, c.node);
    }
  }

  lemma {:induction false} FilterKeeps<T>(keep: T -> bool, s: seq<T>)
    ensures forall i :: 0 <= i < |Filter(keep, s)| ==> keep(Filter(keep, s)[i])
  {
    if s != [] {
      FilterKeeps(keep, s[..|s| - 1]);
    }
  }

  /** The calls sorted into those before, at and after quantum `q`. */
  lemma SplitAt<N(!new), M(!new)>(calls: seq<Call<N, M>>, q: nat)
    returns (low: seq<Call<N, M>>, mid: seq<Call<N, M>>, high: seq<Call<N, M>>)
    ensures multiset(low + mid + high) == multiset(calls)
    ensures AllBelow(low, q) && AllAt(mid, q) && AllAbove(high, q)
  {
    var below := (c: Call<N, M>) => c.quantum < q;
    var equal := (c: Call<N, M>) => c.quantum == q;
    var above := (c: Call<N, M>) => c.quantum > q;
    low, mid, high := Filter(below, calls), Filter(equal, calls), Filter(above, calls);
    FilterKeeps(below, calls);
    FilterKeeps(equal, calls);
    FilterKeeps(above, calls);
    forall c ensures multiset(low + mid + high)[c] == multiset(calls)[c] {
      FilterCount(below, calls, c);
      FilterCount(equal, calls, c);
      FilterCount(above, calls, c);
    }
  }

  lemma {:induction false} AcceptedPrefix<N, M(!new)>(cfg: Config<M>, s: State<N, M>, calls: seq<Call<N, M>>, i: nat)
    requires Ordered(cfg) && Run(cfg, s, calls).accepted == calls && i < |calls|
    ensures Run(cfg, s, calls[..i]).accepted == calls[..i]
    ensures Accepts(Run(cfg, s, calls[..i]).state, calls[i])
  {
    hide Step, Sort, Canon, Drain;
    var n := |calls| - 1;
    AcceptedShorter(cfg, s, calls[..n]);
    assert calls == calls[..n] + [calls[n]];
    if i < n {
      AcceptedPrefix(cfg, s, calls[..n], i);
      assert calls[..n][..i] == calls[..i];
    }
  }

  lemma {:induction false} AcceptedShorter<N, M(!new)>(cfg: Config<M>, s: State<N, M>, calls: seq<Call<N, M>>)
    requires Ordered(cfg)
    ensures |Run(cfg, s, calls).accepted| <= |calls|
  {
    if calls != [] {
      AcceptedShorter(cfg, s, calls[..|calls| - 1]);
    }
  }

  lemma JoinsToComplete<N, M>(cfg: Config<M>, start: nat, low: seq<Call<N, M>>, mid: seq<Call<N, M>>, q: nat)
    requires AllBelow(low, q) && AllAt(mid, q)
    requires CompleteUpTo(cfg, start, low, q) && Distinct(mid) && |mid| == cfg.nodes
    ensures CompleteUpTo(cfg, start, low + mid, q + 1)
  {
    hide SlotAt;
    forall p | start <= p <= q ensures |SlotAt(cfg, low + mid, p).done| == cfg.nodes {
      SlotConcat(cfg, low, mid, p);
      if p == q {
        SlotElsewhere(cfg, low, q);
        SlotOfOneQuantum(cfg, mid, q);
        assert {} + SlotAt(cfg, mid, q).done == SlotAt(cfg, mid, q).done;
      } else {
        SlotElsewhere(cfg, mid, p);
        assert SlotAt(cfg, low, p).done + {} == SlotAt(cfg, low, p).done;
      }
    }
  }

  lemma PastComplete<N, M(!new)>(cfg: Config<M>, start: nat, calls: seq<Call<N, M>>, q: nat)
    requires Ordered(cfg) && cfg.nodes > 0 && Run(cfg, Fresh(start), calls).accepted == calls
    requires CompleteUpTo(cfg, start, calls, q)
    ensures Run(cfg, Fresh(start), calls).state.current >= q
  {
    hide Ordered, Explained, Run, SlotAt;
    RunExplained(cfg, start, calls);
    StandsAtFrontier(cfg, start, Run(cfg, Fresh(start), calls));
  }

  /** A report for a quantum that earlier calls have completed comes too late. */
  lemma NoneLate<N, M(!new)>(cfg: Config<M>, start: nat, before: seq<Call<N, M>>, c: Call<N, M>, after: seq<Call<N, M>>)
    requires Ordered(cfg) && cfg.nodes > 0
    requires Run(cfg, Fresh(start), before + [c] + after).accepted == before + [c] + after
    ensures !CompleteUpTo(cfg, start, before, c.quantum + 1)
  {
    hide Ordered, Run, CompleteUpTo, Lookup;
    var all := before + [c] + after;
    AcceptedPrefix(cfg, Fresh(start), all, |before|);
    assert all[..|before|] == before && all[|before|] == c;
    if CompleteUpTo(cfg, start, before, c.quantum + 1) {
      PastComplete(cfg, start, before, c.quantum + 1);
    }
  }

  lemma SplitSlot<N, M>(cfg: Config<M>, low: seq<Call<N, M>>, mid: seq<Call<N, M>>, high: seq<Call<N, M>>, q: nat, p: nat)
    requires p <= q
    requires AllBelow(low, q) && AllAt(mid, q) && AllAbove(high, q)
    ensures SlotAt(cfg, low + mid + high, p) == if p == q then SlotAt(cfg, mid, q) else SlotAt(cfg, low, p)
  {
    hide SlotAt;
    SlotConcat(cfg, low + mid, high, p);
    SlotConcat(cfg, low, mid, p);
    SlotElsewhere(cfg, high, p);
    if p == q {
      SlotElsewhere(cfg, low, q);
    } else {
      SlotElsewhere(cfg, mid, p);
    }
  }

  lemma SplitSlots<N, M>(cfg: Config<M>, start: nat, calls: seq<Call<N, M>>, q: nat, low: seq<Call<N, M>>, mid: seq<Call<N, M>>, high: seq<Call<N, M>>)
    requires multiset(low + mid + high) == multiset(calls) && CompleteUpTo(cfg, start, calls, q)
    requires AllBelow(low, q) && AllAt(mid, q) && AllAbove(high, q)
    ensures CompleteUpTo(cfg, start, low, q)
    ensures SlotAt(cfg, mid, q) == SlotAt(cfg, calls, q)
  {
    hide SlotAt, AllBelow, AllAt, AllAbove;
    forall p | 0 <= p <= q ensures SlotAt(cfg, calls, p) == if p == q then SlotAt(cfg, mid, q) else SlotAt(cfg, low, p) {
      SlotForgetsOrder(cfg, low + mid + high, calls, p);
      SplitSlot(cfg, low, mid, high, q, p);
    }
  }

  /** Every ordering of the calls is accepted in full. */
  ghost predicate AlwaysAccepted<N(!new), M(!new)>(cfg: Config<M>, start: nat, calls: seq<Call<N, M>>)
    requires Ordered(cfg)
  {
    forall order :: multiset(order) == multiset(calls) ==> Run(cfg, Fresh(start), order).accepted == order
  }

  lemma DistinctInside<N, M>(low: seq<Call<N, M>>, mid: seq<Call<N, M>>, high: seq<Call<N, M>>)
    requires Distinct(low + mid + high)
    ensures Distinct(mid)
  {
    var all := low + mid + high;
    forall i | 0 <= i < |mid| ensures mid[i] == all[|low| + i] {}
  }

  lemma TakeAt<N, M>(calls: seq<Call<N, M>>, q: nat, n: nat)
    requires AllAt(calls, q) && Distinct(calls) && n < |calls|
    ensures AllAt(calls[..n], q) && Distinct(calls[..n]) && calls[n].quantum == q
  {}

  /** Once its first `nodes` reporters are in, quantum `q` is released, and any other comes too late. */
  lemma ReportersBounded<N, M(!new)>(cfg: Config<M>, start: nat, low: seq<Call<N, M>>, mid: seq<Call<N, M>>, high: seq<Call<N, M>>, q: nat)
    requires Ordered(cfg) && cfg.nodes > 0 && AllBelow(low, q) && AllAt(mid, q) && Distinct(mid)
    requires CompleteUpTo(cfg, start, low, q)
    requires Run(cfg, Fresh(start), low + mid + high).accepted == low + mid + high
    ensures |mid| <= cfg.nodes
  {
    hide *;
    if |mid| > cfg.nodes {
      var first, c, rest := mid[..cfg.nodes], mid[cfg.nodes], mid[cfg.nodes + 1..] + high;
      assert low + mid + high == (low + first) + [c] + rest;
      NoneLate(cfg, start, low + first, c, rest);
      TakeAt(mid, q, cfg.nodes);
      JoinsToComplete(cfg, start, low, first, q);
    }
  }

  lemma AcceptedFits<N(!new), M(!new)>(cfg: Config<M>, start: nat, calls: seq<Call<N, M>>, q: nat)
    requires Ordered(cfg) && cfg.nodes > 0 && Distinct(calls) && AlwaysAccepted(cfg, start, calls)
    requires q >= start && CompleteUpTo(cfg, start, calls, q)
    ensures |SlotAt(cfg, calls, q).done| <= cfg.nodes
  {
    var low, mid, high := SplitAt(calls, q);
    assert Run(cfg, Fresh(start), low + mid + high).accepted == low + mid + high;
    hide *;
    SplitSlots(cfg, start, calls, q, low, mid, high);
    DistinctPermutes(calls, low + mid + high);
    DistinctInside(low, mid, high);
    SlotOfOneQuantum(cfg, mid, q);
    ReportersBounded(cfg, start, low, mid, high, q);
  }

  /** Exactly the fitting sets of reports are accepted in full whatever their order. */
  lemma AlwaysAcceptedIffFits<N(!new), M(!new)>(cfg: Config<M>, start: nat, calls: seq<Call<N, M>>)
    requires Ordered(cfg) && cfg.nodes > 0 && Distinct(calls) && NotBefore(start, calls)
    ensures AlwaysAccepted(cfg, start, calls) <==> Fits(cfg, start, calls)
  {
    hide Step, Sort, Canon, Drain, Run, SlotAt;
    if AlwaysAccepted(cfg, start, calls) {
      forall q | q >= start && CompleteUpTo(cfg, start, calls, q) ensures |SlotAt(cfg, calls, q).done| <= cfg.nodes {
        AcceptedFits(cfg, start, calls, q);
      }
    }
    if Fits(cfg, start, calls) {
      forall order | multiset(order) == multiset(calls) ensures Run(cfg, Fresh(start), order).accepted == order {
        Confluence(cfg, start, calls, order);
      }
    }
  }

  // ----- Too many reporters -----

  /** The current quantum has more reporters than the barrier counts. */
  ghost predicate Overfull<N, M>(cfg: Config<M>, s: State<N, M>) {
    s.current in s.slots && |s.slots[s.current].done| > cfg.nodes
  }

  /** An overfull barrier never releases anything again. */
  lemma {:induction false} OverfullForever<N, M(!new)>(cfg: Config<M>, s: State<N, M>, calls: seq<Call<N, M>>)
    requires Ordered(cfg) && Overfull(cfg, s)
    ensures var t := Run(cfg, s, calls); t.batches == [] && t.state.current == s.current && Overfull(cfg, t.state)
  {
    hide Sort, Canon;
    if calls != [] {
      OverfullForever(cfg, s, calls[..|calls| - 1]);
      var t := Run(cfg, s, calls[..|calls| - 1]);
      var c := calls[|calls| - 1];
      SubsetSize(Lookup(t.state, c.quantum).done, Add(cfg, Lookup(t.state, c.quantum), c).done);
    }
  }

  /** A run ends overfull if and only if it accepted too many reports for the first quantum that is not complete. */
  lemma OverfullIff<N, M(!new)>(cfg: Config<M>, start: nat, calls: seq<Call<N, M>>)
    requires Ordered(cfg) && cfg.nodes > 0
    ensures var t := Run(cfg, Fresh(start), calls);
            Overfull(cfg, t.state) <==>
            exists q :: q >= start && CompleteUpTo(cfg, start, t.accepted, q) && |SlotAt(cfg, t.accepted, q).done| > cfg.nodes
  {
    hide Run, SlotAt, Ordered, BatchesExplained, Distinct;
    var t := Run(cfg, Fresh(start), calls);
    RunExplained(cfg, start, calls);
    StandsAtFrontier(cfg, start, t);
    assert Lookup(t.state, t.state.current) == SlotAt(cfg, t.accepted, t.state.current);
    if q :| q >= start && CompleteUpTo(cfg, start, t.accepted, q) && |SlotAt(cfg, t.accepted, q).done| > cfg.nodes {
      assert q == t.state.current;
    }
  }

  lemma RunSnoc<N, M(!new)>(cfg: Config<M>, s: State<N, M>, calls: seq<Call<N, M>>, c: Call<N, M>)
    requires Ordered(cfg)
    ensures var t := Run(cfg, s, calls); Run(cfg, s, calls + [c]) == Extend(t, c, Step(cfg, t.state, c))
  {}

  /** A report without messages adds its sender to the slot and nothing else. */
  lemma RecordSilent<N, M>(cfg: Config<M>, s: State<N, M>, node: N, q: nat)
    ensures var slot := Lookup(s, q);
            Record(cfg, s, Call(node, q, [])) == State(s.current, s.slots[q := Slot(slot.done + {node}, slot.msgs)])
  {
    assert Kept(cfg.leq, cfg.limit, []) == [];
    assert Lookup(s, q).msgs + multiset([]) == Lookup(s, q).msgs;
  }

  /** A report for a later quantum releases nothing while the current one has no reporter. */
  lemma EarlyReport<N, M(!new)>(cfg: Config<M>, s: State<N, M>, c: Call<N, M>)
    requires Ordered(cfg) && Accepts(s, c) && s.current !in s.slots && c.quantum > s.current
    ensures Step(cfg, s, c) == Effect(Record(cfg, s, c), Ok(None), true, [])
  {}

  /** A lone report closes the current quantum if one node is expected, and uncovers what lies behind it. */
  lemma ClosesOne<N, M(!new)>(cfg: Config<M>, s: State<N, M>, node: N)
    requires Ordered(cfg) && cfg.nodes == 1 && s.current !in s.slots
    requires s.current + 1 in s.slots && |s.slots[s.current + 1].done| > 1
    ensures var e := Step(cfg, s, Call(node, s.current, [])); e.result.Ok? && Overfull(cfg, e.state)
  {
    hide Kept, Canon;
    var full := Record(cfg, s, Call(node, s.current, []));
    assert full.slots[s.current].done == {} + {node} == {node};
    assert Complete(cfg, full);
    assert Advance(full).slots[s.current + 1] == s.slots[s.current + 1];
    assert Drain(cfg, Advance(full)) == Drained(Advance(full), []);
  }

  /** It can happen: with one node configured, two names report quantum 2 before quantum 1 closes. */
  lemma OverfullExample<N, M(!new)>(leq: (M, M) -> bool, limit: nat, a: N, b: N)
    requires IsTotalOrder(leq) && a != b
    ensures var cfg := Config(1, limit, leq);
            var t := Run(cfg, Fresh(1), [Call(a, 2, []), Call(b, 2, []), Call(a, 1, [])]);
            ErrorFree(t.results) && Overfull(cfg, t.state)
  {
    hide Step, Record, Kept, IsTotalOrder, Overfull, Run;
    var cfg := Config(1, limit, leq);
    var x: Call<N, M>, y: Call<N, M>, z: Call<N, M> := Call(a, 2, []), Call(b, 2, []), Call(a, 1, []);
    assert [] + [x] == [x] && [x] + [y] == [x, y] && [x, y] + [z] == [x, y, z];
    RunSnoc(cfg, Fresh(1), [], x);
    RunSnoc(cfg, Fresh(1), [x], y);
    RunSnoc(cfg, Fresh(1), [x, y], z);
    EmptyRun<N, M>(cfg, Fresh(1));
    var s1: State<N, M> := State(1, map[2 := Slot({} + {a}, multiset{})]);
    var s2: State<N, M> := State(1, s1.slots[2 := Slot({a} + {b}, multiset{})]);
    RecordSilent(cfg, Fresh<N, M>(1), a, 2);
    EarlyReport(cfg, Fresh(1), x);
    RecordSilent(cfg, s1, b, 2);
    EarlyReport(cfg, s1, y);
    assert |{a} + {b}| == 2;
    ClosesOne(cfg, s2, a);
  }

  lemma EmptyRun<N, M(!new)>(cfg: Config<M>, s: State<N, M>)
    requires Ordered(cfg)
    ensures Run(cfg, s, []) == Trace(s, [], [], [])
  {}

  /** After any run a call is refused exactly if the same report has been accepted for a quantum not yet released. */
  lemma ErrorsExplained<N, M(!new)>(cfg: Config<M>, start: nat, calls: seq<Call<N, M>>, c: Call<N, M>)
    requires Ordered(cfg)
    ensures var t := Run(cfg, Fresh(start), calls);
            var r := Step(cfg, t.state, c).result;
            && (r.Err? ==> r == Err(DuplicateDone))
            && (r.Err? <==>
                && c.quantum >= start + |t.batches|
                && exists i :: 0 <= i < |t.accepted| && t.accepted[i].node == c.node && t.accepted[i].quantum == c.quantum)
  {
    hide Run, SlotAt, Drain, Ordered;
    var t := Run(cfg, Fresh(start), calls);
    RunExplained(cfg, start, calls);
    SlotDone(cfg, t.accepted, c.quantum, c.node);
  }
}
