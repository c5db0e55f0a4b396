/**
 When the two barriers agree.  A two-slot state is a quanta map with at most two entries, the
 current quantum and the next.  On runs without error the two machines answer every call alike
 if and only if no call closes a quantum while the whole lookahead is full.
 */
module Refinement {
  import opened Collections
  import opened Ordering
  import opened BarrierSpec
  import TwoSlot
  import QuantaMap

  ghost function SlotOf<M>(s: TwoSlot.State<M>, q: nat): (r: Slot<nat, M>) {
    if q == s.current then s.cur else if q == s.current + 1 then s.next else EmptySlot()
  }

  /** The map a two-slot state stands for. */
  ghost function Embed<M>(s: TwoSlot.State<M>): (r: QuantaMap.State<nat, M>) {
    QuantaMap.State(s.current, map q | q in {s.current, s.current + 1} && SlotOf(s, q).done != {} :: SlotOf(s, q))
  }

  /** A slot without reporters holds no messages. */
  ghost predicate Proper<M>(s: TwoSlot.State<M>) {
    && (s.cur.done == {} ==> s.cur == EmptySlot())
    && (s.next.done == {} ==> s.next == EmptySlot())
  }

  lemma EmbedLookup<M>(s: TwoSlot.State<M>, q: nat)
    requires Proper(s)
    ensures QuantaMap.Lookup(Embed(s), q) == SlotOf(s, q)
  {}

  /** Recording a report commutes with the embedding. */
  lemma RecordEmbeds<M(!new)>(cfg: Config<M>, s: TwoSlot.State<M>, c: TwoSlot.Report<M>)
    requires Proper(s) && s.current <= c.quantum <= s.current + 1
    ensures var s' := if c.quantum == s.current then s.(cur := Add(cfg, s.cur, c)) else s.(next := Add(cfg, s.next, c));
            QuantaMap.Record(cfg, Embed(s), c) == Embed(s') && Proper(s')
  {
    hide Kept;
    EmbedLookup(s, c.quantum);
    var s' := if c.quantum == s.current then s.(cur := Add(cfg, s.cur, c)) else s.(next := Add(cfg, s.next, c));
    assert QuantaMap.Record(cfg, Embed(s), c).slots == Embed(s').slots;
  }

  /** A state whose current slot is not full has nothing to drain. */
  lemma NothingToDrain<M(!new)>(cfg: Config<M>, s: TwoSlot.State<M>)
    requires Ordered(cfg) && Proper(s) && |s.cur.done| != cfg.nodes
    ensures QuantaMap.Drain(cfg, Embed(s)) == QuantaMap.Drained(Embed(s), [])
  {}

  /** Taking out a full current slot is promotion. */
  lemma AdvanceEmbeds<M(!new)>(cfg: Config<M>, s: TwoSlot.State<M>)
    requires Ordered(cfg) && Proper(s) && s.cur.done != {}
    ensures QuantaMap.Advance(Embed(s)) == Embed(TwoSlot.State(s.current + 1, s.next, EmptySlot()))
  {}

  lemma ClosingStep<M(!new)>(cfg: Config<M>, s: TwoSlot.State<M>)
    requires Ordered(cfg) && Proper(s) && |s.cur.done| == cfg.nodes > 0
    ensures var s', batch := TwoSlot.State(s.current + 1, s.next, EmptySlot()), Canon(cfg.leq, s.cur.msgs);
            var d := QuantaMap.Drain(cfg, Embed(s));
            if |s.next.done| == cfg.nodes then d.state.current >= s.current + 2
            else d == QuantaMap.Drained(Embed(s'), [batch])
  {
    hide Canon;
    AdvanceEmbeds(cfg, s);
    var s' := TwoSlot.State(s.current + 1, s.next, EmptySlot());
    if |s.next.done| != cfg.nodes {
      NothingToDrain(cfg, s');
    } else {
      AdvanceEmbeds(cfg, s');
    }
  }

  /**
   One call: if the two-slot barrier raises no error, the map barrier answers the same and
   stays coupled to it, unless the call closes the current quantum on a full lookahead; in
   that case, and only then, they part.
   */
  lemma StepRefines<M(!new)>(cfg: Config<M>, s: TwoSlot.State<M>, c: TwoSlot.Report<M>)
    requires Ordered(cfg) && Proper(s) && |s.cur.done| < cfg.nodes
    requires TwoSlot.Step(cfg, s, c).result.Ok?
    ensures var e, f := TwoSlot.Step(cfg, s, c), QuantaMap.Step(cfg, Embed(s), c);
            var closing := c.quantum == s.current && |s.cur.done + {c.node}| == |s.next.done| == cfg.nodes;
            && (f.state == Embed(e.state) <==> !closing)
            && (!closing ==> f == QuantaMapEffect(e) && Proper(e.state))
            && (closing ==> f.state.current > e.state.current)
  {
    hide Canon, Kept, QuantaMap.Drain;
    EmbedLookup(s, c.quantum);
    if c.quantum >= s.current {
      RecordEmbeds(cfg, s, c);
      if c.quantum == s.current + 1 {
        NothingToDrain(cfg, s.(next := Add(cfg, s.next, c)));
      } else {
        var s' := s.(cur := Add(cfg, s.cur, c));
        if |s'.cur.done| == cfg.nodes {
          ClosingStep(cfg, s');
          var batch := Canon(cfg.leq, s'.cur.msgs);
          assert Flatten([batch]) == batch;
        } else {
          NothingToDrain(cfg, s');
        }
      }
    }
  }

  /** The same effect, read as an effect on the map. */
  ghost function QuantaMapEffect<M>(e: Effect<TwoSlot.State<M>, M>): (r: Effect<QuantaMap.State<nat, M>, M>) {
    Effect(Embed(e.state), e.result, e.accepted, e.batches)
  }

  ghost function QuantaMapTrace<M>(t: Trace<TwoSlot.State<M>, nat, M>): (r: Trace<QuantaMap.State<nat, M>, nat, M>) {
    Trace(Embed(t.state), t.results, t.accepted, t.batches)
  }

  lemma ReachableIsProper<M(!new)>(cfg: Config<M>, start: nat, t: Trace<TwoSlot.State<M>, nat, M>)
    requires Ordered(cfg) && TwoSlot.Explained(cfg, start, t)
    ensures Proper(t.state)
    ensures |t.state.cur.done| <= cfg.nodes && |t.state.next.done| <= cfg.nodes
    ensures |t.state.cur.done| == cfg.nodes > 0 ==> TwoSlot.Wedged(cfg, t.state)
  {
    SlotDone(cfg, t.accepted, t.state.current, 0);
    SlotDone(cfg, t.accepted, t.state.current + 1, 0);
    TwoSlot.FullIffAll(cfg.nodes, t.state.cur.done);
    TwoSlot.FullIffAll(cfg.nodes, t.state.next.done);
  }

  /** For a call without error the separating condition is that of the wedge. */
  lemma SeparationIsWedge<M(!new)>(cfg: Config<M>, start: nat, t: Trace<TwoSlot.State<M>, nat, M>, c: TwoSlot.Report<M>)
    requires Ordered(cfg) && TwoSlot.Explained(cfg, start, t) && TwoSlot.Step(cfg, t.state, c).result.Ok?
    ensures c.quantum == t.state.current && |t.state.cur.done + {c.node}| == |t.state.next.done| == cfg.nodes <==>
            TwoSlot.ClosesOnFullLookahead(cfg, t.state, c)
  {
    hide SlotAt, Canon, Sort;
    if c.quantum == t.state.current {
      TwoSlot.FullIffAll(cfg.nodes, t.state.cur.done + {c.node});
      TwoSlot.FullIffAll(cfg.nodes, t.state.next.done);
    }
  }

  /** Coupled as long as no call has closed on a full lookahead; ahead for good from that call on. */
  ghost predicate Coupled<M(!new)>(cfg: Config<M>, start: nat, calls: seq<TwoSlot.Report<M>>)
    requires Ordered(cfg)
  {
    var t, u := TwoSlot.Run(cfg, TwoSlot.Fresh(start), calls), QuantaMap.Run(cfg, QuantaMap.Fresh(start), calls);
    if TwoSlot.MetFullLookahead(cfg, start, calls) then u.state.current > t.state.current
    else u == QuantaMapTrace(t)
  }

  lemma CoupledStep<M(!new)>(cfg: Config<M>, start: nat, before: seq<TwoSlot.Report<M>>, c: TwoSlot.Report<M>)
    requires Ordered(cfg) && cfg.nodes > 0 && Coupled(cfg, start, before)
    requires TwoSlot.Step(cfg, TwoSlot.Run(cfg, TwoSlot.Fresh(start), before).state, c).result.Ok?
    ensures Coupled(cfg, start, before + [c])
  {
    hide TwoSlot.Run, QuantaMap.Run, TwoSlot.Step, QuantaMap.Step, TwoSlot.Explained, TwoSlot.ClosesOnFullLookahead;
    hide TwoSlot.MetFullLookahead, Ordered, TwoSlot.Wedged;
    var t, u := TwoSlot.Run(cfg, TwoSlot.Fresh(start), before), QuantaMap.Run(cfg, QuantaMap.Fresh(start), before);
    TwoSlot.RunSnoc(cfg, TwoSlot.Fresh(start), before, c);
    QuantaMap.RunSnoc(cfg, QuantaMap.Fresh(start), before, c);
    TwoSlot.MetSnoc(cfg, start, before, c);
    TwoSlot.WedgedIffMet(cfg, start, before);
    TwoSlot.RunExplained(cfg, start, before);
    ReachableIsProper(cfg, start, t);
    if TwoSlot.MetFullLookahead(cfg, start, before) {
      TwoSlot.StaysWedged(cfg, t.state, c);
      StepAdvances(cfg, u.state, c);
    } else {
      SeparationIsWedge(cfg, start, t, c);
      StepRefines(cfg, t.state, c);
    }
  }

  lemma StepAdvances<M(!new)>(cfg: Config<M>, s: QuantaMap.State<nat, M>, c: Call<nat, M>)
    requires Ordered(cfg)
    ensures QuantaMap.Step(cfg, s, c).state.current >= s.current
  {
    hide QuantaMap.Drain;
  }

  lemma {:induction false} RunCoupled<M(!new)>(cfg: Config<M>, start: nat, calls: seq<TwoSlot.Report<M>>)
    requires Ordered(cfg) && cfg.nodes > 0
    requires ErrorFree(TwoSlot.Run(cfg, TwoSlot.Fresh(start), calls).results)
    ensures Coupled(cfg, start, calls)
  {
    if calls == [] {
      assert Embed<M>(TwoSlot.Fresh(start)).slots == map[];
    } else {
      hide TwoSlot.Run, TwoSlot.Step, Coupled, Ordered;
      var before, c := calls[..|calls| - 1], calls[|calls| - 1];
      assert calls == before + [c];
      TwoSlot.PrefixErrorFree(cfg, TwoSlot.Fresh(start), calls);
      RunCoupled(cfg, start, before);
      CoupledStep(cfg, start, before, c);
    }
  }

  /**
   Exact refinement: on a run without error the two barriers return the same result call by call,
   accept the same calls and end in coupled states if and only if no call closed a quantum on a
   full lookahead.  After such a call the map barrier is ahead for good.
   */
  lemma RefinesIffNoneMet<M(!new)>(cfg: Config<M>, start: nat, calls: seq<TwoSlot.Report<M>>)
    requires Ordered(cfg) && cfg.nodes > 0
    requires ErrorFree(TwoSlot.Run(cfg, TwoSlot.Fresh(start), calls).results)
    ensures var t, u := TwoSlot.Run(cfg, TwoSlot.Fresh(start), calls), QuantaMap.Run(cfg, QuantaMap.Fresh(start), calls);
            && (u == QuantaMapTrace(t) <==> !TwoSlot.MetFullLookahead(cfg, start, calls))
            && (TwoSlot.MetFullLookahead(cfg, start, calls) ==> u.state.current > t.state.current)
  {
    hide TwoSlot.Run, QuantaMap.Run, TwoSlot.MetFullLookahead, Ordered, ErrorFree;
    RunCoupled(cfg, start, calls);
  }

  /** So they agree on every error-free run with increasing reports. */
  lemma RunRefines<M(!new)>(cfg: Config<M>, start: nat, calls: seq<TwoSlot.Report<M>>)
    requires Ordered(cfg) && TwoSlot.NodeIncreasing(calls) && cfg.nodes > 0
    requires ErrorFree(TwoSlot.Run(cfg, TwoSlot.Fresh(start), calls).results)
    ensures QuantaMap.Run(cfg, QuantaMap.Fresh(start), calls) ==
            QuantaMapTrace(TwoSlot.Run(cfg, TwoSlot.Fresh(start), calls))
  {
    hide *;
    RefinesIffNoneMet(cfg, start, calls);
    TwoSlot.NeverWedged(cfg, start, calls);
    TwoSlot.WedgedIffMet(cfg, start, calls);
  }
}
