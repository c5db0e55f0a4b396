/**
 Host scheduling does not show: as long as every DONE hands over the same messages, the order in
 which frames and DONEs of the same or of different nodes reach the coordinator changes neither
 its output nor its barrier.
 */
module Scheduling {
  import opened Collections
  import opened Ordering
  import opened BarrierSpec
  import TwoSlot
  import opened EventLoop

  ghost function EventOf(k: nat): (r: Event -> bool) {
    (ev: Event) => ev.node == k
  }

  ghost function CallOf(k: nat): (r: Call<nat, Msg> -> bool) {
    (c: Call<nat, Msg>) => c.node == k
  }

  /** What node `k` did, in its own order. */
  ghost function Local(events: seq<Event>, k: nat): (r: seq<Event>) {
    Filter(EventOf(k), events)
  }

  /** Two interleavings of the same behaviour of every node. */
  ghost predicate SameLocally(a: seq<Event>, b: seq<Event>) {
    forall k :: Local(a, k) == Local(b, k)
  }

  /** A node's held-back frames depend on its own events only. */
  lemma {:induction false} WaitingIsLocal(events: seq<Event>, k: nat)
    ensures WaitingAt(events, k) == WaitingAt(Local(events, k), k)
  {
    hide WaitingAt;
    if events != [] {
      var before, ev := events[..|events| - 1], events[|events| - 1];
      assert events == before + [ev];
      WaitingIsLocal(before, k);
      WaitingAtSnoc(before, ev, k);
      if ev.node == k {
        WaitingAtSnoc(Local(before, k), ev, k);
      }
    }
  }

  /** So do the calls made on its behalf. */
  lemma {:induction false} SubmissionsAreLocal(events: seq<Event>, k: nat)
    ensures Filter(CallOf(k), Submissions(events)) == Submissions(Local(events, k))
  {
    hide WaitingAt, Submissions;
    if events == [] {
      NoSubmissions();
    } else {
      var before, ev := events[..|events| - 1], events[|events| - 1];
      assert events == before + [ev];
      SubmissionsAreLocal(before, k);
      SubmissionsSnoc(before, ev);
      if ev.Done? {
        FilterSnoc(CallOf(k), Submissions(before), Submissions(before + [ev])[|Submissions(before)|]);
      }
      if ev.node == k {
        WaitingIsLocal(before, k);
        SubmissionsSnoc(Local(before, k), ev);
      }
    }
  }

  lemma NoSubmissions()
    ensures Submissions([]) == []
  {}

  /** Two interleavings make the same calls, in some order. */
  lemma SubmissionsPermute(a: seq<Event>, b: seq<Event>)
    requires SameLocally(a, b)
    ensures multiset(Submissions(a)) == multiset(Submissions(b))
  {
    hide Submissions, Local;
    forall c: Call<nat, Msg> ensures multiset(Submissions(a))[c] == multiset(Submissions(b))[c] {
      SubmissionsAreLocal(a, c.node);
      SubmissionsAreLocal(b, c.node);
      FilterCount(CallOf(c.node), Submissions(a), c);
      FilterCount(CallOf(c.node), Submissions(b), c);
      assert Local(a, c.node) == Local(b, c.node);
    }
  }

  /** Each node reports its quanta in strictly increasing order. */
  ghost predicate DonesIncrease(events: seq<Event>) {
    forall i, j :: 0 <= i < j < |events| && events[i].Done? && events[j].Done? && events[i].node == events[j].node ==>
      events[i].quantum < events[j].quantum
  }

  /** Every call stems from a DONE of the same node for the same quantum. */
  lemma {:induction false} SubmissionOrigin(events: seq<Event>, i: nat) returns (j: nat)
    requires i < |Submissions(events)|
    ensures j < |events| && events[j].Done?
    ensures events[j].node == Submissions(events)[i].node && events[j].quantum == Submissions(events)[i].quantum
  {
    var n := |events| - 1;
    if i < |Submissions(events[..n])| {
      j := SubmissionOrigin(events[..n], i);
    } else {
      j := n;
    }
  }

  lemma {:induction false} CallsIncrease(events: seq<Event>)
    requires DonesIncrease(events)
    ensures TwoSlot.NodeIncreasing(Submissions(events))
  {
    if events != [] {
      var n := |events| - 1;
      var before, calls := events[..n], Submissions(events[..n]);
      CallsIncrease(before);
      forall i | 0 <= i < |calls| && events[n].Done? && calls[i].node == events[n].node
        ensures calls[i].quantum < events[n].quantum
      {
        var j := SubmissionOrigin(before, i);
        assert events[j] == before[j];
      }
    }
  }

  /** A call may follow others of its node only with a larger quantum. */
  lemma IncreasingSnoc(calls: seq<Call<nat, Msg>>, c: Call<nat, Msg>)
    ensures TwoSlot.NodeIncreasing(calls + [c]) <==>
            TwoSlot.NodeIncreasing(calls) && forall d :: d in calls && d.node == c.node ==> d.quantum < c.quantum
  {
    var all, n := calls + [c], |calls|;
    assert all[n] == c;
    if TwoSlot.NodeIncreasing(all) {
      TwoSlot.PrefixIncreasing(calls, c);
      forall d | d in calls && d.node == c.node ensures d.quantum < c.quantum {
        var i :| 0 <= i < n && calls[i] == d;
        assert all[i].node == all[n].node;
      }
    }
  }

  /** Quanta increase per node exactly if they increase in each node's own calls. */
  lemma {:induction false} IncreasingIsLocal(calls: seq<Call<nat, Msg>>)
    ensures TwoSlot.NodeIncreasing(calls) <==> forall k :: TwoSlot.NodeIncreasing(Filter(CallOf(k), calls))
  {
    if calls != [] {
      var before, c := calls[..|calls| - 1], calls[|calls| - 1];
      assert calls == before + [c];
      IncreasingIsLocal(before);
      IncreasingSnoc(before, c);
      forall k
        ensures TwoSlot.NodeIncreasing(Filter(CallOf(k), calls)) <==>
                TwoSlot.NodeIncreasing(Filter(CallOf(k), before)) &&
                (k == c.node ==> forall d :: d in before && d.node == c.node ==> d.quantum < c.quantum)
      {
        hide TwoSlot.NodeIncreasing;
        if k == c.node {
          IncreasingSnoc(Filter(CallOf(k), before), c);
          forall d { FilterMember(CallOf(k), before, d); }
        }
      }
      if forall k :: TwoSlot.NodeIncreasing(Filter(CallOf(k), calls)) {
        assert TwoSlot.NodeIncreasing(Filter(CallOf(c.node), calls));
        forall k ensures TwoSlot.NodeIncreasing(Filter(CallOf(k), before)) {
          assert TwoSlot.NodeIncreasing(Filter(CallOf(k), calls));
        }
      }
    }
  }

  /** So if quanta increase in one interleaving they increase in all. */
  lemma IncreasingTransfers(a: seq<Event>, b: seq<Event>)
    requires SameLocally(a, b) && TwoSlot.NodeIncreasing(Submissions(a))
    ensures TwoSlot.NodeIncreasing(Submissions(b))
  {
    hide Submissions, TwoSlot.NodeIncreasing, Filter;
    IncreasingIsLocal(Submissions(a));
    IncreasingIsLocal(Submissions(b));
    forall k ensures TwoSlot.NodeIncreasing(Filter(CallOf(k), Submissions(b))) {
      SubmissionsAreLocal(a, k);
      SubmissionsAreLocal(b, k);
      assert Local(a, k) == Local(b, k);
      assert TwoSlot.NodeIncreasing(Filter(CallOf(k), Submissions(a)));
    }
  }

  /** No DONE is refused with an error. */
  ghost predicate NoneRefused(cfg: Config<Msg>, events: seq<Event>)
    requires Proper(cfg)
  {
    ErrorFree(BarrierRun(cfg, events).results)
  }

  /** What the barrier was told: per DONE its node, its quantum and the bag of messages handed over. */
  ghost function Told(events: seq<Event>): (r: seq<Summary<nat, Msg>>) {
    Summaries(Submissions(events))
  }

  /** Same deliveries and starts in the same order, and the same barrier. */
  ghost predicate SameOutside(s: State, u: State) {
    s.sent == u.sent && s.barrier == u.barrier && s.current == u.current
  }

  lemma ReportsDecide(cfg: Config<Msg>, a: seq<Event>, b: seq<Event>)
    requires Proper(cfg) && multiset(Told(a)) == multiset(Told(b))
    requires TwoSlot.NodeIncreasing(Submissions(a)) && TwoSlot.NodeIncreasing(Submissions(b))
    requires NoneRefused(cfg, a) && NoneRefused(cfg, b)
    ensures SameOutside(Run(cfg, a), Run(cfg, b))
  {
    hide Run, Submissions, HeldExplained, TwoSlot.Run, TwoSlot.NodeIncreasing, Ordered, Summaries, ErrorFree;
    RunExplained(cfg, a);
    RunExplained(cfg, b);
    TwoSlot.BagDeterminism(cfg, 1, Submissions(a), Submissions(b));
    TwoSlot.ReleasesAreBatches(cfg, TwoSlot.Fresh(1), Submissions(a));
    TwoSlot.ReleasesAreBatches(cfg, TwoSlot.Fresh(1), Submissions(b));
  }

  /**
   Every node reports the same quanta, each with the same bag of messages, in increasing order
   and without error: the output and the barrier are the same, whatever the order in which
   frames and DONEs of the same or of different nodes arrived.
   */
  lemma SchedulingIndependence(cfg: Config<Msg>, a: seq<Event>, b: seq<Event>)
    requires Proper(cfg) && multiset(Told(a)) == multiset(Told(b))
    requires DonesIncrease(a) && DonesIncrease(b)
    requires NoneRefused(cfg, a) && NoneRefused(cfg, b)
    ensures SameOutside(Run(cfg, a), Run(cfg, b))
  {
    hide *;
    CallsIncrease(a);
    CallsIncrease(b);
    ReportsDecide(cfg, a, b);
  }

  lemma HeldAgree(a: seq<Event>, b: seq<Event>, s: map<nat, seq<Msg>>, u: map<nat, seq<Msg>>)
    requires SameLocally(a, b) && HeldExplained(a, s) && HeldExplained(b, u)
    ensures s == u
  {
    hide WaitingAt, Local;
    forall k: nat ensures Held(s, k) == Held(u, k) && (k in s <==> k in u) {
      WaitingIsLocal(a, k);
      WaitingIsLocal(b, k);
      assert Local(a, k) == Local(b, k);
      assert Held(s, k) == WaitingAt(a, k) && Held(u, k) == WaitingAt(b, k);
    }
    assert forall k :: k in s <==> k in u;
    forall k | k in s ensures s[k] == u[k] {
      assert Held(s, k) == Held(u, k);
    }
  }

  /**
   If moreover every node's events arrive in that node's own order, the whole state is the
   same, down to the order of the frames held back.
   */
  lemma InterleavingIndependence(cfg: Config<Msg>, a: seq<Event>, b: seq<Event>)
    requires Proper(cfg) && SameLocally(a, b)
    requires DonesIncrease(a)
    requires NoneRefused(cfg, a) && NoneRefused(cfg, b)
    ensures Run(cfg, a) == Run(cfg, b)
  {
    hide Run, Submissions, SameLocally, DonesIncrease, HeldExplained, NoneRefused;
    hide TwoSlot.Run, TwoSlot.NodeIncreasing, Ordered, Map;
    RunExplained(cfg, a);
    RunExplained(cfg, b);
    HeldAgree(a, b, Run(cfg, a).held, Run(cfg, b).held);
    SubmissionsPermute(a, b);
    MapPermutes((c: Call<nat, Msg>) => Summary(c.node, c.quantum, multiset(c.msgs)), Submissions(a), Submissions(b));
    CallsIncrease(a);
    IncreasingTransfers(a, b);
    ReportsDecide(cfg, a, b);
  }

  // ----- Reordering the events of one node -----

  /**
   Neighbouring events whose order the host may decide unseen: of different nodes, two frames,
   or a frame and a DONE that does not reach it.
   */
  ghost predicate Harmless(x: Event, y: Event) {
    || x.node != y.node
    || (x.Tx? && y.Tx?)
    || (x.Tx? && y.Done? && x.msg.vtime > y.limit)
    || (x.Done? && y.Tx? && y.msg.vtime > x.limit)
  }

  /** The same frames wait at every node and the same reports were made, up to order. */
  ghost predicate Alike(a: seq<Event>, b: seq<Event>) {
    && (forall k :: multiset(WaitingAt(a, k)) == multiset(WaitingAt(b, k)))
    && multiset(Told(a)) == multiset(Told(b))
  }

  lemma ToldSnoc(events: seq<Event>, ev: Event)
    ensures Told(events + [ev]) ==
            if ev.Tx? then Told(events)
            else Told(events) + [Summary(ev.node, ev.quantum,
                   multiset(Filter(DueBy(ev.limit), WaitingAt(events, ev.node))) + multiset(ev.batched))]
  {
    hide Submissions, WaitingAt, Filter;
    SubmissionsSnoc(events, ev);
  }

  lemma AlikeSnoc(a: seq<Event>, b: seq<Event>, ev: Event)
    requires Alike(a, b)
    ensures Alike(a + [ev], b + [ev])
  {
    hide Told, WaitingAt, Filter;
    ToldSnoc(a, ev);
    ToldSnoc(b, ev);
    if ev.Done? {
      FilterPermutes(DueBy(ev.limit), WaitingAt(a, ev.node), WaitingAt(b, ev.node));
      FilterPermutes(After(ev.limit), WaitingAt(a, ev.node), WaitingAt(b, ev.node));
    }
    forall k ensures multiset(WaitingAt(a + [ev], k)) == multiset(WaitingAt(b + [ev], k)) {
      WaitingAtSnoc(a, ev, k);
      WaitingAtSnoc(b, ev, k);
    }
  }

  lemma {:induction false} AlikeConcat(a: seq<Event>, b: seq<Event>, post: seq<Event>)
    requires Alike(a, b)
    ensures Alike(a + post, b + post)
  {
    hide Alike;
    if post == [] {
      assert a + post == a && b + post == b;
    } else {
      var n := |post| - 1;
      AlikeConcat(a, b, post[..n]);
      AlikeSnoc(a + post[..n], b + post[..n], post[n]);
      assert a + post == a + post[..n] + [post[n]] && b + post == b + post[..n] + [post[n]];
    }
  }

  lemma SwapWaiting(pre: seq<Event>, x: Event, y: Event, k: nat)
    requires Harmless(x, y)
    ensures multiset(WaitingAt(pre + [x] + [y], k)) == multiset(WaitingAt(pre + [y] + [x], k))
  {
    hide WaitingAt, Filter;
    WaitingAtSnoc(pre, x, k);
    WaitingAtSnoc(pre, y, k);
    WaitingAtSnoc(pre + [x], y, k);
    WaitingAtSnoc(pre + [y], x, k);
    if x.Tx? && y.Done? { FilterSnoc(After(y.limit), WaitingAt(pre, k), x.msg); }
    if x.Done? && y.Tx? { FilterSnoc(After(x.limit), WaitingAt(pre, k), y.msg); }
  }

  lemma SwapTold(pre: seq<Event>, x: Event, y: Event)
    requires Harmless(x, y)
    ensures multiset(Told(pre + [x] + [y])) == multiset(Told(pre + [y] + [x]))
  {
    hide WaitingAt, Filter, Told;
    ToldSnoc(pre, x);
    ToldSnoc(pre, y);
    ToldSnoc(pre + [x], y);
    ToldSnoc(pre + [y], x);
    WaitingAtSnoc(pre, x, y.node);
    WaitingAtSnoc(pre, y, x.node);
    if x.Tx? && y.Done? { FilterSnoc(DueBy(y.limit), WaitingAt(pre, y.node), x.msg); }
    if x.Done? && y.Tx? { FilterSnoc(DueBy(x.limit), WaitingAt(pre, x.node), y.msg); }
  }

  /** `b` is `a` with the harmless neighbours at `n` exchanged. */
  ghost predicate SwapsAt(a: seq<Event>, b: seq<Event>, n: nat) {
    n + 1 < |a| && Harmless(a[n], a[n + 1]) && b == a[n := a[n + 1]][n + 1 := a[n]]
  }

  lemma SwapAlike(a: seq<Event>, b: seq<Event>, n: nat)
    requires SwapsAt(a, b, n)
    ensures Alike(a, b)
    ensures DonesIncrease(a) ==> DonesIncrease(b)
  {
    hide WaitingAt, Told;
    var pre, x, y, post := a[..n], a[n], a[n + 1], a[n + 2..];
    SwapTold(pre, x, y);
    forall k { SwapWaiting(pre, x, y, k); }
    AlikeConcat(pre + [x] + [y], pre + [y] + [x], post);
    assert a == pre + [x] + [y] + post && b == pre + [y] + [x] + post;
  }

  ghost predicate Swapped(a: seq<Event>, b: seq<Event>) {
    exists n :: SwapsAt(a, b, n)
  }

  /** A chain of runs, each made from the one before by one harmless exchange. */
  ghost predicate Rearranged(runs: seq<seq<Event>>) {
    |runs| > 0 && forall i :: 0 < i < |runs| ==> Swapped(runs[i - 1], runs[i])
  }

  lemma {:induction false} RearrangedAlike(runs: seq<seq<Event>>)
    requires Rearranged(runs)
    ensures Alike(runs[0], runs[|runs| - 1])
    ensures DonesIncrease(runs[0]) ==> DonesIncrease(runs[|runs| - 1])
  {
    hide WaitingAt, Told, DonesIncrease, SwapsAt;
    var last := |runs| - 1;
    if last > 0 {
      forall i | 0 < i < last ensures Swapped(runs[..last][i - 1], runs[..last][i]) {
        assert Swapped(runs[i - 1], runs[i]);
      }
      RearrangedAlike(runs[..last]);
      assert Swapped(runs[last - 1], runs[last]);
      var n :| SwapsAt(runs[last - 1], runs[last], n);
      SwapAlike(runs[last - 1], runs[last], n);
    }
  }

  /**
   However many harmless exchanges the host makes, also among the events of one node, the
   output and the barrier are the same and the same frames are held back for every node.
   */
  lemma ReorderingUnseen(cfg: Config<Msg>, runs: seq<seq<Event>>)
    requires Proper(cfg) && Rearranged(runs) && DonesIncrease(runs[0])
    requires NoneRefused(cfg, runs[0]) && NoneRefused(cfg, runs[|runs| - 1])
    ensures SameOutside(Run(cfg, runs[0]), Run(cfg, runs[|runs| - 1]))
    ensures forall k :: multiset(Held(Run(cfg, runs[0]).held, k)) == multiset(Held(Run(cfg, runs[|runs| - 1]).held, k))
  {
    hide Run, WaitingAt, Told, DonesIncrease, NoneRefused, SameOutside, Held, BarrierRun, Ordered;
    var a, b := runs[0], runs[|runs| - 1];
    RearrangedAlike(runs);
    SchedulingIndependence(cfg, a, b);
    RunExplained(cfg, a);
    RunExplained(cfg, b);
    forall k: nat ensures multiset(Held(Run(cfg, a).held, k)) == multiset(Held(Run(cfg, b).held, k)) {
      assert Held(Run(cfg, a).held, k) == WaitingAt(a, k) && Held(Run(cfg, b).held, k) == WaitingAt(b, k);
    }
  }

  // ----- Nodes that follow the protocol are never refused -----

  /** A configured node, reporting the first quantum or one it has been told to start. */
  ghost predicate MayReport(cfg: Config<Msg>, sent: seq<Action>, ev: Event) {
    ev.Done? ==> ev.node < cfg.nodes && (ev.quantum <= 1 || Start(ev.node, ev.quantum) in sent)
  }

  /** Every DONE answers a start that had been sent by the time it arrived. */
  ghost predicate Obedient(cfg: Config<Msg>, events: seq<Event>)
    requires Proper(cfg)
  {
    forall i :: 0 <= i < |events| ==> MayReport(cfg, Run(cfg, events[..i]).sent, events[i])
  }

  /** Only quanta up to the one after the last batch have been started. */
  lemma {:induction false} StartedQuanta(cfg: Config<Msg>, batches: seq<seq<Msg>>, k: nat, q: nat)
    requires Start(k, q) in Schedule(cfg, batches)
    ensures q <= |batches| + 1
  {
    var n := |batches| - 1;
    if Start(k, q) in Schedule(cfg, batches[..n]) {
      StartedQuanta(cfg, batches[..n], k, q);
    } else {
      assert Start(k, q) !in Deliveries(batches[n]);
      assert Start(k, q) in Starts(cfg.nodes, n + 2);
    }
  }

  lemma ObedientSnoc(cfg: Config<Msg>, events: seq<Event>, ev: Event)
    requires Proper(cfg) && Obedient(cfg, events + [ev])
    ensures Obedient(cfg, events) && MayReport(cfg, Run(cfg, events).sent, ev)
  {
    hide Run, MayReport, Ordered;
    var all, n := events + [ev], |events|;
    assert all[..n] == events && all[n] == ev;
    forall i | 0 <= i < n ensures MayReport(cfg, Run(cfg, events[..i]).sent, events[i]) {
      assert all[..i] == events[..i] && all[i] == events[i];
    }
  }

  /** A report that may be made is not ahead of the barrier. */
  lemma NotAhead(cfg: Config<Msg>, events: seq<Event>, ev: Event)
    requires Proper(cfg) && ev.Done? && MayReport(cfg, Run(cfg, events).sent, ev)
    ensures ev.node < cfg.nodes && ev.quantum <= BarrierRun(cfg, events).state.current
  {
    hide Run, Submissions, HeldExplained, TwoSlot.Run, Ordered, Schedule;
    RunExplained(cfg, events);
    TwoSlot.RunExplained(cfg, 1, Submissions(events));
    if ev.quantum > 1 {
      StartedQuanta(cfg, BarrierRun(cfg, events).batches, ev.node, ev.quantum);
    }
  }

  /** One more DONE that may be made. */
  lemma DoneIsOk(cfg: Config<Msg>, events: seq<Event>, ev: Event)
    requires Proper(cfg) && NoneRefused(cfg, events) && ev.Done? && MayReport(cfg, Run(cfg, events).sent, ev)
    requires TwoSlot.NodeIncreasing(Submissions(events + [ev]))
    ensures NoneRefused(cfg, events + [ev])
  {
    hide Run, Submissions, TwoSlot.Run, TwoSlot.Step, TwoSlot.Explained, TwoSlot.NodeIncreasing, Ordered, MayReport;
    hide WaitingAt, Filter, SlotAt;
    SubmissionsSnoc(events, ev);
    var calls := Submissions(events);
    var c := Submissions(events + [ev])[|calls|];
    NotAhead(cfg, events, ev);
    TwoSlot.RunSnoc(cfg, TwoSlot.Fresh(1), calls, c);
    TwoSlot.RunExplained(cfg, 1, calls);
    TwoSlot.NotYetReported(cfg, TwoSlot.Fresh(1), calls, c, c.quantum);
    TwoSlot.NewReportIsOk(cfg, 1, BarrierRun(cfg, events), c);
  }

  lemma {:induction false} NeverRefused(cfg: Config<Msg>, events: seq<Event>)
    requires Proper(cfg) && DonesIncrease(events) && Obedient(cfg, events)
    ensures NoneRefused(cfg, events)
  {
    hide Run, Submissions, TwoSlot.NodeIncreasing, Ordered, Obedient, MayReport, WaitingAt, Filter;
    if events == [] {
      NoSubmissions();
    } else {
      var before, ev := events[..|events| - 1], events[|events| - 1];
      assert events == before + [ev];
      ObedientSnoc(cfg, before, ev);
      NeverRefused(cfg, before);
      SubmissionsSnoc(before, ev);
      if ev.Done? {
        CallsIncrease(events);
        DoneIsOk(cfg, before, ev);
      }
    }
  }

  /**
   The promise of the whole system: nodes that report in order and only what they were told to
   start, with the same messages in every run, make the coordinator send the same in every run.
   */
  lemma ProtocolDeterminism(cfg: Config<Msg>, a: seq<Event>, b: seq<Event>)
    requires Proper(cfg) && multiset(Told(a)) == multiset(Told(b))
    requires DonesIncrease(a) && DonesIncrease(b) && Obedient(cfg, a) && Obedient(cfg, b)
    ensures SameOutside(Run(cfg, a), Run(cfg, b))
  {
    hide *;
    NeverRefused(cfg, a);
    NeverRefused(cfg, b);
    SchedulingIndependence(cfg, a, b);
  }

  // ----- The limit of the claim -----

  /**
   A frame and a DONE of the same node arrive on different channels.  Swapping the two leaves
   the coordinator in the same state if and only if the frame lies beyond the DONE's limit.
   */
  lemma FrameAndDoneCommute(cfg: Config<Msg>, s: State, frame: Event, done: Event)
    requires Proper(cfg) && frame.Tx? && done.Done? && frame.node == done.node
    ensures Step(cfg, Step(cfg, s, frame), done) == Step(cfg, Step(cfg, s, done), frame) <==>
            frame.msg.vtime > done.limit
  {
    hide TwoSlot.Step, Sort, Filter, Ordered;
    var k := done.node;
    var frames := Held(s.held, k);
    FilterSnoc(After(done.limit), frames, frame.msg);
    FilterSnoc(DueBy(done.limit), frames, frame.msg);
    var a, b := Step(cfg, Step(cfg, s, frame), done), Step(cfg, Step(cfg, s, done), frame);
    assert Held(Step(cfg, s, frame).held, k) == frames + [frame.msg];
    assert Held(Step(cfg, s, done).held, k) == Filter(After(done.limit), frames);
    assert Held(b.held, k) == Filter(After(done.limit), frames) + [frame.msg];
    if frame.msg.vtime > done.limit {
      assert a.held == b.held;
    } else {
      assert Held(a.held, k) == Filter(After(done.limit), frames);
      assert |Held(a.held, k)| < |Held(b.held, k)|;
    }
  }
}
