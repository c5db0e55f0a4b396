/**
 No message is lost or duplicated unnoticed: at any moment every frame and every batched
 message is held back, refused together with its DONE, truncated, waiting in a barrier slot,
 or delivered, and it is exactly one of these.
 */
module Conservation {
  import opened Collections
  import opened Ordering
  import opened BarrierSpec
  import TwoSlot
  import opened EventLoop
  import opened Output

  // ----- The barrier -----

  ghost function Bag<N, M>(calls: seq<Call<N, M>>): (r: multiset<M>) {
    if calls == [] then multiset{} else Bag(calls[..|calls| - 1]) + multiset(calls[|calls| - 1].msgs)
  }

  /** What admission control cut off. */
  ghost function Truncated<N, M>(cfg: Config<M>, accepted: seq<Call<N, M>>): (r: multiset<M>) {
    if accepted == [] then multiset{}
    else
      Truncated(cfg, accepted[..|accepted| - 1])
      + multiset(Dropped(cfg.leq, cfg.limit, accepted[|accepted| - 1].msgs))
  }

  ghost function BatchBag<M>(batches: seq<seq<M>>): (r: multiset<M>) {
    if batches == [] then multiset{} else BatchBag(batches[..|batches| - 1]) + multiset(batches[|batches| - 1])
  }

  ghost function Pending<M>(s: TwoSlot.State<M>): (r: multiset<M>) {
    s.cur.msgs + s.next.msgs
  }

  /** The calls that were stale or refused with an error; their messages go nowhere. */
  ghost function Refused<M(!new)>(cfg: Config<M>, s: TwoSlot.State<M>, calls: seq<TwoSlot.Report<M>>): (r: seq<TwoSlot.Report<M>>)
    requires Ordered(cfg)
  {
    if calls == [] then []
    else
      var before, c := calls[..|calls| - 1], calls[|calls| - 1];
      var rest := Refused(cfg, s, before);
      if TwoSlot.Accepts(cfg, TwoSlot.Run(cfg, s, before).state, c) then rest else rest + [c]
  }

  lemma StepConserves<M(!new)>(cfg: Config<M>, s: TwoSlot.State<M>, c: TwoSlot.Report<M>)
    requires Ordered(cfg)
    ensures var e := TwoSlot.Step(cfg, s, c);
            Pending(s) + multiset(c.msgs) ==
              Pending(e.state)
              + multiset(if e.accepted then Dropped(cfg.leq, cfg.limit, c.msgs) else c.msgs)
              + BatchBag(e.batches)
  {
    hide Sort, Canon, Kept, Dropped, IsTotalOrder;
    AdmissionControl(cfg.leq, cfg.limit, c.msgs, c.msgs);
    var e := TwoSlot.Step(cfg, s, c);
    if e.batches != [] {
      assert BatchBag(e.batches) == multiset(e.batches[0]) == s.cur.msgs + multiset(Kept(cfg.leq, cfg.limit, c.msgs));
    }
  }

  lemma BatchBagAppend<M>(batches: seq<seq<M>>, more: seq<seq<M>>)
    requires |more| <= 1
    ensures BatchBag(batches + more) == BatchBag(batches) + BatchBag(more)
  {
    if more == [] {
      assert batches + more == batches;
    } else {
      assert (batches + more)[..|batches|] == batches;
      assert more[..0] == [];
    }
  }

  lemma TruncatedSnoc<M>(cfg: Config<M>, accepted: seq<TwoSlot.Report<M>>, c: TwoSlot.Report<M>)
    ensures Truncated(cfg, accepted + [c]) == Truncated(cfg, accepted) + multiset(Dropped(cfg.leq, cfg.limit, c.msgs))
  {}

  lemma BagSnoc<N, M>(calls: seq<Call<N, M>>, c: Call<N, M>)
    ensures Bag(calls + [c]) == Bag(calls) + multiset(c.msgs)
  {}

  /** In every run, from any state: what was submitted is refused, truncated, pending or released. */
  lemma {:induction false} BarrierConserves<M(!new)>(cfg: Config<M>, s: TwoSlot.State<M>, calls: seq<TwoSlot.Report<M>>)
    requires Ordered(cfg)
    ensures var t := TwoSlot.Run(cfg, s, calls);
            Pending(s) + Bag(calls) ==
              Bag(Refused(cfg, s, calls)) + Truncated(cfg, t.accepted) + Pending(t.state) + BatchBag(t.batches)
  {
    if calls == [] {
    } else {
      var before, c := calls[..|calls| - 1], calls[|calls| - 1];
      assert calls == before + [c];
      BarrierConserves(cfg, s, before);
      var t := TwoSlot.Run(cfg, s, before);
      var e := TwoSlot.Step(cfg, t.state, c);
      assert TwoSlot.Run(cfg, s, calls) == Extend(t, c, e);
      assert Refused(cfg, s, calls) == Refused(cfg, s, before) + if e.accepted then [] else [c];
      hide *;
      StepConserves(cfg, t.state, c);
      OneBatchAtMost(cfg, t.state, c);
      BatchBagAppend(t.batches, e.batches);
      TruncatedSnoc(cfg, t.accepted, c);
      BagSnoc(Refused(cfg, s, before), c);
      BagSnoc(before, c);
      Rebalance(Pending(s), Bag(before), Bag(Refused(cfg, s, before)), Truncated(cfg, t.accepted), Pending(t.state),
                BatchBag(t.batches), multiset(c.msgs), Pending(e.state),
                multiset(if e.accepted then Dropped(cfg.leq, cfg.limit, c.msgs) else c.msgs), BatchBag(e.batches));
      ExtendFields(t, c, e);
      assert Refused(cfg, s, before) + [] == Refused(cfg, s, before);
    }
  }

  lemma ExtendFields<S, N, M>(t: Trace<S, N, M>, c: Call<N, M>, e: Effect<S, M>)
    ensures Extend(t, c, e).state == e.state && Extend(t, c, e).batches == t.batches + e.batches
    ensures Extend(t, c, e).accepted == if e.accepted then t.accepted + [c] else t.accepted
  {}

  /** Posting one more call to balanced books. */
  lemma Rebalance<M>(start: multiset<M>, given: multiset<M>, refused: multiset<M>, cut: multiset<M>, pending: multiset<M>,
                     out: multiset<M>, msgs: multiset<M>, pending': multiset<M>, lost: multiset<M>, released: multiset<M>)
    requires start + given == refused + cut + pending + out
    requires pending + msgs == pending' + lost + released
    ensures start + (given + msgs) == refused + (cut + lost) + pending' + (out + released)
    ensures start + (given + msgs) == (refused + lost) + cut + pending' + (out + released)
  {
    assert start + (given + msgs) == (start + given) + msgs;
    assert (refused + cut + pending + out) + msgs == refused + cut + out + (pending + msgs);
  }

  lemma OneBatchAtMost<M(!new)>(cfg: Config<M>, s: TwoSlot.State<M>, c: TwoSlot.Report<M>)
    requires Ordered(cfg)
    ensures |TwoSlot.Step(cfg, s, c).batches| <= 1
  {}

  // ----- The event loop -----

  /** Every frame and every batched message the loop has been given. */
  ghost function Given(events: seq<Event>): (r: multiset<Msg>) {
    if events == [] then multiset{}
    else
      var ev := events[|events| - 1];
      Given(events[..|events| - 1]) + if ev.Tx? then multiset{ev.msg} else multiset(ev.batched)
  }

  /** The frames among the first `n` events that no DONE has reached, of all nodes. */
  ghost function WaitingBag(events: seq<Event>, n: nat): (r: multiset<Msg>)
    requires n <= |events|
  {
    if n == 0 then multiset{}
    else
      WaitingBag(events, n - 1)
      + if Waiting(events, events[n - 1].node, n - 1) then multiset{events[n - 1].msg} else multiset{}
  }

  lemma {:induction false} DoneSplitsWaiting(events: seq<Event>, ev: Event, n: nat)
    requires n <= |events| && ev.Done?
    ensures WaitingBag(events, n) ==
            WaitingBag(events + [ev], n) + multiset(ReachedFrames(events + [ev], |events|, n))
  {
    if n > 0 {
      DoneSplitsWaiting(events, ev, n - 1);
      var i := n - 1;
      assert (events + [ev])[i] == events[i];
      WaitingSnoc(events, ev, events[i].node, i);
      FirstReachesLast(events, ev, i);
    }
  }

  lemma {:induction false} TxKeepsWaiting(events: seq<Event>, ev: Event, n: nat)
    requires n <= |events| && ev.Tx?
    ensures WaitingBag(events + [ev], n) == WaitingBag(events, n)
  {
    if n > 0 {
      TxKeepsWaiting(events, ev, n - 1);
      assert (events + [ev])[n - 1] == events[n - 1];
      WaitingSnoc(events, ev, events[n - 1].node, n - 1);
    }
  }

  /** What was given is still waiting or has been submitted. */
  lemma {:induction false} LoopConserves(events: seq<Event>)
    ensures Given(events) == WaitingBag(events, |events|) + Bag(Submissions(events))
  {
    if events != [] {
      var n := |events| - 1;
      var before, ev := events[..n], events[n];
      assert events == before + [ev];
      LoopConserves(before);
      if ev.Tx? {
        TxKeepsWaiting(before, ev, n);
      } else {
        DoneSplitsWaiting(before, ev, n);
        BagSnoc(Submissions(before), Submission(events, n));
      }
    }
  }

  lemma {:induction false} FlattenBag(batches: seq<seq<Msg>>)
    ensures multiset(Flatten(batches)) == BatchBag(batches)
  {
    if batches != [] {
      hide Flatten;
      var n := |batches| - 1;
      FlattenBag(batches[..n]);
      FlattenConcat(batches[..n], [batches[n]]);
      FlattenOne(batches[n]);
      assert batches == batches[..n] + [batches[n]];
    }
  }

  /** The books balance in every run. */
  lemma MessagesConserved(cfg: Config<Msg>, events: seq<Event>)
    requires Proper(cfg)
    ensures var t := BarrierRun(cfg, events);
            Given(events) ==
              WaitingBag(events, |events|)
              + Bag(Refused(cfg, TwoSlot.Fresh(1), Submissions(events)))
              + Truncated(cfg, t.accepted)
              + Pending(t.state)
              + multiset(Delivered(Run(cfg, events).sent))
  {
    hide Run, TwoSlot.Run, Submissions, Given, WaitingBag, Truncated, BatchBag, Bag, Refused;
    hide Delivered, Flatten, Releases;
    LoopConserves(events);
    DeliveredInOrder(cfg, events);
    TwoSlot.ReleasesAreBatches(cfg, TwoSlot.Fresh(1), Submissions(events));
    BarrierConserves(cfg, TwoSlot.Fresh(1), Submissions(events));
    FlattenBag(BarrierRun(cfg, events).batches);
    var t := BarrierRun(cfg, events);
    var waiting, lost := WaitingBag(events, |events|), Bag(Refused(cfg, TwoSlot.Fresh(1), Submissions(events)));
    assert Bag(Submissions(events)) == lost + Truncated(cfg, t.accepted) + Pending(t.state) + BatchBag(t.batches);
    assert waiting + (lost + Truncated(cfg, t.accepted) + Pending(t.state) + BatchBag(t.batches)) ==
           waiting + lost + Truncated(cfg, t.accepted) + Pending(t.state) + BatchBag(t.batches);
  }
}
