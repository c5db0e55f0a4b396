/**
 The deterministic coordinator's event loop: frames are held back per node until a DONE of
 that node reaches their delivery time, every DONE goes through the barrier, and a released
 batch is delivered before the next quantum is started on every node.
 */
module EventLoop {
  import opened Collections
  import opened Ordering
  import opened Messages
  import opened BarrierSpec
  import TwoSlot

  type Msg = CoordMessage

  /** What the loop receives, in the order in which it handles it. */
  datatype Event =
    | Tx(node: nat, msg: Msg)
    | Done(node: nat, quantum: nat, limit: nat, batched: seq<Msg>)

  /** What the loop sends out. */
  datatype Action = Deliver(msg: Msg) | Start(node: nat, quantum: nat)

  datatype State = State(held: map<nat, seq<Msg>>, current: nat, barrier: TwoSlot.State<Msg>, sent: seq<Action>)

  ghost predicate Proper(cfg: Config<Msg>) {
    cfg.leq == MessageLeq && Ordered(cfg)
  }

  ghost function Initial(): (r: State) {
    State(map[], 1, TwoSlot.Fresh(1), [])
  }

  ghost function Held(held: map<nat, seq<Msg>>, k: nat): (r: seq<Msg>) {
    if k in held then held[k] else []
  }

  ghost function DueBy(limit: nat): (r: Msg -> bool) {
    (m: Msg) => m.vtime <= limit
  }

  ghost function After(limit: nat): (r: Msg -> bool) {
    (m: Msg) => m.vtime > limit
  }

  function Deliveries(batch: seq<Msg>): (r: seq<Action>) {
    seq(|batch|, i requires 0 <= i < |batch| => Deliver(batch[i]))
  }

  function Starts(nodes: nat, quantum: nat): (r: seq<Action>) {
    seq(nodes, i requires 0 <= i < nodes => Start(i, quantum))
  }

  /** What one event does. */
  ghost function Step(cfg: Config<Msg>, s: State, ev: Event): (r: State)
    requires Proper(cfg)
  {
    match ev
    case Tx(k, m) =>
      s.(held := s.held[k := Held(s.held, k) + [m]])
    case Done(k, q, limit, batched) =>
      var frames := Held(s.held, k);
      var later := Filter(After(limit), frames);
      var held := if later == [] then s.held - {k} else s.held[k := later];
      var e := TwoSlot.Step(cfg, s.barrier, Call(k, q, Filter(DueBy(limit), frames) + batched));
      if e.result.Ok? && e.result.released.Some? then
        State(held, s.current + 1, e.state,
              s.sent + Deliveries(Sort(cfg.leq, e.result.released.value)) + Starts(cfg.nodes, s.current + 1))
      else
        State(held, s.current, e.state, s.sent)
  }

  ghost function Run(cfg: Config<Msg>, events: seq<Event>): (r: State)
    requires Proper(cfg)
  {
    if events == [] then Initial() else Step(cfg, Run(cfg, events[..|events| - 1]), events[|events| - 1])
  }

  // ----- When a frame leaves, stated on the history alone -----

  /** A DONE at `j` reaches the delivery time of the frame sent at `i` by the same node. */
  ghost predicate Reaches(events: seq<Event>, i: nat, j: nat)
    requires i < |events| && j < |events|
  {
    && events[i].Tx? && events[j].Done? && events[i].node == events[j].node
    && events[i].msg.vtime <= events[j].limit
  }

  /** `j` is the first DONE after `i` that reaches the frame sent at `i`. */
  ghost predicate FirstReaches(events: seq<Event>, i: nat, j: nat)
    requires j < |events|
  {
    i < j && Reaches(events, i, j) && forall j' :: i < j' < j ==> !Reaches(events, i, j')
  }

  /** The frame sent at `i` by node `k` has not been reached by any DONE so far. */
  ghost predicate Waiting(events: seq<Event>, k: nat, i: nat)
    requires i < |events|
  {
    events[i].Tx? && events[i].node == k && forall j :: i < j < |events| ==> !Reaches(events, i, j)
  }

  /** The waiting frames of node `k` among the first `n` events, in order. */
  ghost function WaitingFrames(events: seq<Event>, k: nat, n: nat): (r: seq<Msg>)
    requires n <= |events|
  {
    if n == 0 then []
    else if Waiting(events, k, n - 1) then WaitingFrames(events, k, n - 1) + [events[n - 1].msg]
    else WaitingFrames(events, k, n - 1)
  }

  /** The frames that the DONE at `j` is the first to reach, among the first `n` events, in order. */
  ghost function ReachedFrames(events: seq<Event>, j: nat, n: nat): (r: seq<Msg>)
    requires n <= |events| && j < |events|
  {
    if n == 0 then []
    else if FirstReaches(events, n - 1, j) then ReachedFrames(events, j, n - 1) + [events[n - 1].msg]
    else ReachedFrames(events, j, n - 1)
  }

  /** The call a DONE makes: the frames it is the first to reach, then the messages it carries. */
  ghost function Submission(events: seq<Event>, j: nat): (r: Call<nat, Msg>)
    requires j < |events| && events[j].Done?
  {
    Call(events[j].node, events[j].quantum, ReachedFrames(events, j, j) + events[j].batched)
  }

  /** All calls, in order. */
  ghost function Submissions(events: seq<Event>): (r: seq<Call<nat, Msg>>) {
    if events == [] then []
    else
      var n := |events| - 1;
      if events[n].Done? then Submissions(events[..n]) + [Submission(events, n)] else Submissions(events[..n])
  }

  lemma WaitingSnoc(events: seq<Event>, ev: Event, k: nat, i: nat)
    requires i < |events|
    ensures Waiting(events + [ev], k, i) <==>
            Waiting(events, k, i) && !(ev.Done? && ev.node == k && events[i].msg.vtime <= ev.limit)
  {
    var all := events + [ev];
    assert all[i] == events[i] && all[|events|] == ev;
    forall j | i < j < |events| ensures Reaches(all, i, j) <==> Reaches(events, i, j) {
      assert all[j] == events[j];
    }
    if Waiting(all, k, i) {
      assert !Reaches(all, i, |events|);
      forall j | i < j < |events| ensures !Reaches(events, i, j) {
        assert !Reaches(all, i, j);
      }
    }
  }

  /** How the waiting frames change with one more event. */
  lemma {:induction false} WaitingFramesSnoc(events: seq<Event>, ev: Event, k: nat, n: nat)
    requires n <= |events|
    ensures WaitingFrames(events + [ev], k, n) ==
            if ev.Done? && ev.node == k then Filter(After(ev.limit), WaitingFrames(events, k, n))
            else WaitingFrames(events, k, n)
  {
    if n > 0 {
      WaitingFramesSnoc(events, ev, k, n - 1);
      WaitingSnoc(events, ev, k, n - 1);
      assert (events + [ev])[n - 1] == events[n - 1];
      if Waiting(events, k, n - 1) && ev.Done? {
        FilterSnoc(After(ev.limit), WaitingFrames(events, k, n - 1), events[n - 1].msg);
      }
    }
  }

  lemma FirstReachesLast(events: seq<Event>, ev: Event, i: nat)
    requires i < |events| && ev.Done?
    ensures FirstReaches(events + [ev], i, |events|) <==>
            Waiting(events, ev.node, i) && events[i].msg.vtime <= ev.limit
    ensures Waiting(events, ev.node, i) ==> events[i].Tx?
  {
    var all, n := events + [ev], |events|;
    assert all[i] == events[i] && all[n] == ev;
    forall j | i < j < n ensures Reaches(all, i, j) <==> Reaches(events, i, j) {
      assert all[j] == events[j];
    }
  }

  /** The frames a DONE is the first to reach are the waiting ones that are due. */
  lemma {:induction false} ReachedAreDue(events: seq<Event>, ev: Event, n: nat)
    requires n <= |events| && ev.Done?
    ensures ReachedFrames(events + [ev], |events|, n) == Filter(DueBy(ev.limit), WaitingFrames(events, ev.node, n))
  {
    hide FirstReaches, Waiting;
    if n > 0 {
      ReachedAreDue(events, ev, n - 1);
      FirstReachesLast(events, ev, n - 1);
      assert (events + [ev])[n - 1] == events[n - 1];
      if Waiting(events, ev.node, n - 1) {
        FilterSnoc(DueBy(ev.limit), WaitingFrames(events, ev.node, n - 1), events[n - 1].msg);
      }
    }
  }

  ghost function WaitingAt(events: seq<Event>, k: nat): (r: seq<Msg>) {
    WaitingFrames(events, k, |events|)
  }

  /** The held-back frames of a node as a recurrence over the events. */
  lemma WaitingAtSnoc(events: seq<Event>, ev: Event, k: nat)
    ensures WaitingAt(events + [ev], k) ==
            if ev.node != k then WaitingAt(events, k)
            else if ev.Tx? then WaitingAt(events, k) + [ev.msg]
            else Filter(After(ev.limit), WaitingAt(events, k))
  {
    var all, n := events + [ev], |events|;
    WaitingFramesSnoc(events, ev, k, n);
    assert all[n] == ev;
    assert Waiting(all, k, n) <==> ev.Tx? && ev.node == k;
  }

  lemma SubmissionsSnoc(events: seq<Event>, ev: Event)
    ensures Submissions(events + [ev]) ==
            if ev.Done? then
              Submissions(events) +
              [Call(ev.node, ev.quantum, Filter(DueBy(ev.limit), WaitingAt(events, ev.node)) + ev.batched)]
            else Submissions(events)
  {
    assert (events + [ev])[..|events|] == events;
    if ev.Done? {
      ReachedAreDue(events, ev, |events|);
    }
  }

  // ----- Whole runs -----

  /** Deliver a batch, start the next quantum everywhere, and so on. */
  ghost function Schedule(cfg: Config<Msg>, batches: seq<seq<Msg>>): (r: seq<Action>) {
    if batches == [] then []
    else
      var n := |batches| - 1;
      Schedule(cfg, batches[..n]) + Deliveries(batches[n]) + Starts(cfg.nodes, n + 2)
  }

  ghost function BarrierRun(cfg: Config<Msg>, events: seq<Event>): (r: Trace<TwoSlot.State<Msg>, nat, Msg>)
    requires Proper(cfg)
  {
    TwoSlot.Run(cfg, TwoSlot.Fresh(1), Submissions(events))
  }

  ghost predicate HeldExplained(events: seq<Event>, held: map<nat, seq<Msg>>) {
    forall k: nat :: Held(held, k) == WaitingAt(events, k) && (k in held <==> WaitingAt(events, k) != [])
  }

  ghost predicate Explained(cfg: Config<Msg>, events: seq<Event>, s: State)
    requires Proper(cfg)
  {
    var t := BarrierRun(cfg, events);
    && HeldExplained(events, s.held)
    && s.barrier == t.state
    && s.current == s.barrier.current
    && s.sent == Schedule(cfg, t.batches)
  }

  lemma HeldStep(cfg: Config<Msg>, events: seq<Event>, s: State, ev: Event)
    requires Proper(cfg) && HeldExplained(events, s.held)
    ensures HeldExplained(events + [ev], Step(cfg, s, ev).held)
  {
    hide Filter, WaitingAt, TwoSlot.Step, Sort;
    forall k: nat
      ensures Held(Step(cfg, s, ev).held, k) == WaitingAt(events + [ev], k)
      ensures k in Step(cfg, s, ev).held <==> WaitingAt(events + [ev], k) != []
    {
      WaitingAtSnoc(events, ev, k);
      assert Held(s.held, k) == WaitingAt(events, k);
      assert Held(s.held, ev.node) == WaitingAt(events, ev.node);
    }
  }

  lemma ScheduleSnoc(cfg: Config<Msg>, batches: seq<seq<Msg>>, batch: seq<Msg>)
    ensures Schedule(cfg, batches + [batch]) ==
            Schedule(cfg, batches) + Deliveries(batch) + Starts(cfg.nodes, |batches| + 2)
  {}

  /** What one barrier call adds to the output. */
  lemma SentByCall(cfg: Config<Msg>, t: Trace<TwoSlot.State<Msg>, nat, Msg>, c: Call<nat, Msg>, sent: seq<Action>)
    requires Ordered(cfg) && t.state.current == 1 + |t.batches| && sent == Schedule(cfg, t.batches)
    ensures var e := TwoSlot.Step(cfg, t.state, c);
            Schedule(cfg, t.batches + e.batches) ==
              if e.result.Ok? && e.result.released.Some? then
                sent + Deliveries(Sort(cfg.leq, e.result.released.value)) + Starts(cfg.nodes, t.state.current + 1)
              else sent
  {
    hide Sort, TwoSlot.Step, Schedule, Ordered;
    ReleasedIsSorted(cfg, t.state, c);
    var e := TwoSlot.Step(cfg, t.state, c);
    if e.batches == [] {
      assert t.batches + [] == t.batches;
    } else {
      ScheduleSnoc(cfg, t.batches, e.batches[0]);
    }
  }

  lemma SentStep(cfg: Config<Msg>, events: seq<Event>, s: State, ev: Event)
    requires Proper(cfg) && Explained(cfg, events, s)
    ensures var t := BarrierRun(cfg, events + [ev]);
            var s' := Step(cfg, s, ev);
            s'.barrier == t.state && s'.current == s'.barrier.current && s'.sent == Schedule(cfg, t.batches)
  {
    hide Filter, WaitingAt, TwoSlot.Run, TwoSlot.Step, Sort, Submissions, Schedule, Ordered;
    SubmissionsSnoc(events, ev);
    if ev.Done? {
      assert Held(s.held, ev.node) == WaitingAt(events, ev.node);
      var c := Call(ev.node, ev.quantum, Filter(DueBy(ev.limit), Held(s.held, ev.node)) + ev.batched);
      TwoSlot.RunSnoc(cfg, TwoSlot.Fresh(1), Submissions(events), c);
      CurrentCountsBatches(cfg, Submissions(events));
      ReleasedIsSorted(cfg, s.barrier, c);
      SentByCall(cfg, BarrierRun(cfg, events), c, s.sent);
    }
  }

  lemma ReleasedIsSorted(cfg: Config<Msg>, s: TwoSlot.State<Msg>, c: Call<nat, Msg>)
    requires Ordered(cfg)
    ensures var e := TwoSlot.Step(cfg, s, c);
            if e.result.Ok? && e.result.released.Some? then
              && e.batches == [e.result.released.value]
              && Sort(cfg.leq, e.result.released.value) == e.result.released.value
              && e.state.current == s.current + 1
            else e.batches == [] && e.state.current == s.current
  {
    hide Canon;
    var e := TwoSlot.Step(cfg, s, c);
    if e.result.Ok? && e.result.released.Some? {
      SortIdempotent(cfg.leq, e.result.released.value);
    }
  }

  lemma CurrentCountsBatches(cfg: Config<Msg>, calls: seq<Call<nat, Msg>>)
    requires Ordered(cfg)
    ensures var t := TwoSlot.Run(cfg, TwoSlot.Fresh(1), calls); t.state.current == 1 + |t.batches|
  {}

  /**
   Every run of the loop: the loop's quantum is the barrier's, the held-back frames are those
   no DONE has reached yet, every DONE submits exactly the frames it is the first to reach,
   and the output is deliver batch 1, start 2, deliver batch 2, start 3, and so on.
   */
  lemma {:induction false} RunExplained(cfg: Config<Msg>, events: seq<Event>)
    requires Proper(cfg)
    ensures Explained(cfg, events, Run(cfg, events))
  {
    hide Step, Filter, Sort, Canon;
    if events != [] {
      var before, ev := events[..|events| - 1], events[|events| - 1];
      assert events == before + [ev];
      RunExplained(cfg, before);
      HeldStep(cfg, before, Run(cfg, before), ev);
      SentStep(cfg, before, Run(cfg, before), ev);
    }
  }
}
