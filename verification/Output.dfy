/**
 What the coordinator sends, read off the output alone: the delivered messages are the released
 batches one after the other, every node is started once per quantum, and a quantum is started
 after the batch before it and before its own.
 */
module Output {
  import opened Collections
  import opened Integers
  import opened Ordering
  import opened Messages
  import opened BarrierSpec
  import TwoSlot
  import opened EventLoop

  /** The delivered messages, in order. */
  ghost function Delivered(sent: seq<Action>): (r: seq<Msg>) {
    if sent == [] then []
    else
      var a := sent[|sent| - 1];
      Delivered(sent[..|sent| - 1]) + if a.Deliver? then [a.msg] else []
  }

  /** The starts, in order. */
  ghost function Started(sent: seq<Action>): (r: seq<Action>) {
    if sent == [] then []
    else
      var a := sent[|sent| - 1];
      Started(sent[..|sent| - 1]) + if a.Start? then [a] else []
  }

  lemma NothingSent()
    ensures Delivered([]) == [] && Started([]) == []
  {}

  lemma {:induction false} DeliveredConcat(a: seq<Action>, b: seq<Action>)
    ensures Delivered(a + b) == Delivered(a) + Delivered(b)
  {
    hide Delivered;
    if b == [] {
      assert a + b == a;
      NothingSent();
    } else {
      var n := |b| - 1;
      DeliveredConcat(a, b[..n]);
      assert a + b == (a + b[..n]) + [b[n]];
      DeliveredSnoc(a + b[..n], b[n]);
      DeliveredSnoc(b[..n], b[n]);
      assert b == b[..n] + [b[n]];
    }
  }

  lemma DeliveredSnoc(sent: seq<Action>, a: Action)
    ensures Delivered(sent + [a]) == Delivered(sent) + if a.Deliver? then [a.msg] else []
  {}

  lemma {:induction false} StartedConcat(a: seq<Action>, b: seq<Action>)
    ensures Started(a + b) == Started(a) + Started(b)
  {
    hide Started;
    if b == [] {
      assert a + b == a;
      NothingSent();
    } else {
      var n := |b| - 1;
      StartedConcat(a, b[..n]);
      assert a + b == (a + b[..n]) + [b[n]];
      StartedSnoc(a + b[..n], b[n]);
      StartedSnoc(b[..n], b[n]);
      assert b == b[..n] + [b[n]];
    }
  }

  lemma StartedSnoc(sent: seq<Action>, a: Action)
    ensures Started(sent + [a]) == Started(sent) + if a.Start? then [a] else []
  {}

  /** Only deliveries. */
  ghost predicate AllDeliver(sent: seq<Action>) {
    forall i :: 0 <= i < |sent| ==> sent[i].Deliver?
  }

  lemma {:induction false} ReadDeliveries(sent: seq<Action>)
    requires AllDeliver(sent)
    ensures Started(sent) == [] && |Delivered(sent)| == |sent|
    ensures forall i :: 0 <= i < |sent| ==> sent[i] == Deliver(Delivered(sent)[i])
  {
    if sent != [] {
      ReadDeliveries(sent[..|sent| - 1]);
    }
  }

  lemma ReadBatch(batch: seq<Msg>)
    ensures Delivered(Deliveries(batch)) == batch && Started(Deliveries(batch)) == []
  {
    ReadDeliveries(Deliveries(batch));
    var read := Delivered(Deliveries(batch));
    forall i | 0 <= i < |batch| ensures read[i] == batch[i] {
      assert Deliveries(batch)[i] == Deliver(read[i]);
    }
  }

  lemma {:induction false} ReadStarts(sent: seq<Action>)
    requires forall i :: 0 <= i < |sent| ==> sent[i].Start?
    ensures Delivered(sent) == [] && Started(sent) == sent
  {
    if sent != [] {
      ReadStarts(sent[..|sent| - 1]);
      assert sent == sent[..|sent| - 1] + [sent[|sent| - 1]];
    }
  }

  /** One more batch and its starts. */
  lemma ReadRound(before: seq<Action>, batch: seq<Msg>, nodes: nat, quantum: nat)
    ensures var sent := before + Deliveries(batch) + Starts(nodes, quantum);
            Delivered(sent) == Delivered(before) + batch && Started(sent) == Started(before) + Starts(nodes, quantum)
  {
    hide Delivered, Started;
    ReadBatch(batch);
    ReadStarts(Starts(nodes, quantum));
    DeliveredConcat(before, Deliveries(batch));
    DeliveredConcat(before + Deliveries(batch), Starts(nodes, quantum));
    StartedConcat(before, Deliveries(batch));
    StartedConcat(before + Deliveries(batch), Starts(nodes, quantum));
  }

  // ----- Deliveries -----

  lemma {:induction false} ScheduleDelivers(cfg: Config<Msg>, batches: seq<seq<Msg>>)
    ensures Delivered(Schedule(cfg, batches)) == Flatten(batches)
  {
    if batches != [] {
      hide Delivered, Deliveries, Starts, Flatten;
      var n := |batches| - 1;
      ScheduleDelivers(cfg, batches[..n]);
      ReadRound(Schedule(cfg, batches[..n]), batches[n], cfg.nodes, n + 2);
      FlattenConcat(batches[..n], [batches[n]]);
      FlattenOne(batches[n]);
      assert batches == batches[..n] + [batches[n]];
    } else {
      FlattenEmpty<Msg>();
    }
  }

  /** In every run the delivered messages are the batches the barrier returned, one after the other. */
  lemma DeliveredInOrder(cfg: Config<Msg>, events: seq<Event>)
    requires Proper(cfg)
    ensures Delivered(Run(cfg, events).sent) == Flatten(Releases(BarrierRun(cfg, events).results))
  {
    hide Run, HeldExplained, TwoSlot.Run, Schedule, Delivered, Flatten, Releases, Ordered, Submissions;
    RunExplained(cfg, events);
    ScheduleDelivers(cfg, BarrierRun(cfg, events).batches);
    TwoSlot.ReleasesAreBatches(cfg, TwoSlot.Fresh(1), Submissions(events));
  }

  // ----- Rounds -----

  ghost predicate AllSorted(leq: (Msg, Msg) -> bool, batches: seq<seq<Msg>>) {
    forall i :: 0 <= i < |batches| ==> Sorted(leq, batches[i])
  }

  lemma EndsWithStart(cfg: Config<Msg>, batches: seq<seq<Msg>>)
    requires cfg.nodes > 0 && batches != []
    ensures var s := Schedule(cfg, batches); s != [] && s[|s| - 1].Start?
  {
    var s := Schedule(cfg, batches);
    assert s[|s| - 1] == Starts(cfg.nodes, |batches| + 1)[cfg.nodes - 1];
  }

  lemma SliceOfBatch(leq: (Msg, Msg) -> bool, batch: seq<Msg>, i: nat, j: nat)
    requires i <= j <= |batch| && Sorted(leq, batch)
    ensures Sorted(leq, Delivered(Deliveries(batch)[i..j]))
  {
    hide Delivered;
    assert Deliveries(batch)[i..j] == Deliveries(batch[i..j]);
    ReadBatch(batch[i..j]);
  }

  /** A stretch of the output that leaves the deliveries of the last batch, on either side, contains a start. */
  lemma StartInside(cfg: Config<Msg>, batches: seq<seq<Msg>>, i: nat, j: nat)
    requires cfg.nodes > 0 && batches != [] && i < j <= |Schedule(cfg, batches)|
    requires var b := |Schedule(cfg, batches[..|batches| - 1])|; j > b + |batches[|batches| - 1]| || i < b < j
    ensures !AllDeliver(Schedule(cfg, batches)[i..j])
  {
    var n := |batches| - 1;
    var all, before := Schedule(cfg, batches), Schedule(cfg, batches[..n]);
    var e := |before| + |batches[n]|;
    if j > e {
      var k := if i > e then i else e;
      assert all[k] == Starts(cfg.nodes, n + 2)[k - e];
      assert !all[i..j][k - i].Deliver?;
    } else {
      EndsWithStart(cfg, batches[..n]);
      assert !all[i..j][|before| - 1 - i].Deliver?;
    }
  }

  /** Deliveries with no start in between stem from one batch. */
  lemma {:induction false} ScheduleRounds(cfg: Config<Msg>, batches: seq<seq<Msg>>, i: nat, j: nat)
    requires cfg.nodes > 0 && AllSorted(cfg.leq, batches)
    requires i <= j <= |Schedule(cfg, batches)| && AllDeliver(Schedule(cfg, batches)[i..j])
    ensures Sorted(cfg.leq, Delivered(Schedule(cfg, batches)[i..j]))
  {
    if i < j {
      hide Delivered, Sorted;
      var n := |batches| - 1;
      var all, before, d := Schedule(cfg, batches), Schedule(cfg, batches[..n]), Deliveries(batches[n]);
      if j > |before| + |d| || i < |before| < j {
        StartInside(cfg, batches, i, j);
        assert false;
      } else if j <= |before| {
        assert all[i..j] == before[i..j];
        ScheduleRounds(cfg, batches[..n], i, j);
      } else {
        assert all[i..j] == d[i - |before|..j - |before|];
        SliceOfBatch(cfg.leq, batches[n], i - |before|, j - |before|);
      }
    }
  }

  lemma BatchesSorted(cfg: Config<Msg>, events: seq<Event>)
    requires Proper(cfg)
    ensures AllSorted(MessageLeq, BarrierRun(cfg, events).batches)
    ensures cfg.nodes == 0 ==> BarrierRun(cfg, events).batches == []
  {
    hide TwoSlot.Run, SlotAt, Canon, Submissions, Ordered;
    var t := BarrierRun(cfg, events);
    TwoSlot.RunExplained(cfg, 1, Submissions(events));
    forall i | 0 <= i < |t.batches| ensures Sorted(MessageLeq, t.batches[i]) {
      assert t.batches[i + 1 - 1] == Batch(cfg, t.accepted, i + 1);
    }
    if cfg.nodes == 0 {
      TwoSlot.NoNodesNoAccepts(cfg, TwoSlot.Fresh(1), Submissions(events));
    }
  }

  /** In every run, what is delivered without a start in between is in delivery order. */
  lemma RoundsSorted(cfg: Config<Msg>, events: seq<Event>, i: nat, j: nat)
    requires Proper(cfg) && i <= j <= |Run(cfg, events).sent| && AllDeliver(Run(cfg, events).sent[i..j])
    ensures Sorted(MessageLeq, Delivered(Run(cfg, events).sent[i..j]))
  {
    hide Run, HeldExplained, BarrierRun, Delivered, Sorted, AllSorted, AllDeliver, Ordered;
    RunExplained(cfg, events);
    BatchesSorted(cfg, events);
    if cfg.nodes > 0 {
      hide Schedule;
      ScheduleRounds(cfg, BarrierRun(cfg, events).batches, i, j);
    } else {
      NothingSent();
      NothingUnsorted();
    }
  }

  lemma NothingUnsorted()
    ensures Sorted(MessageLeq, [])
  {}

  // ----- Starts -----

  lemma {:induction false} StartsOnce(nodes: nat, quantum: nat, k: nat, q: nat)
    ensures multiset(Starts(nodes, quantum))[Start(k, q)] == if k < nodes && q == quantum then 1 else 0
  {
    if nodes > 0 {
      StartsOnce(nodes - 1, quantum, k, q);
      assert Starts(nodes, quantum) == Starts(nodes - 1, quantum) + [Start(nodes - 1, quantum)];
    }
  }

  lemma {:induction false} ScheduleStarts(cfg: Config<Msg>, batches: seq<seq<Msg>>, k: nat, q: nat)
    ensures multiset(Schedule(cfg, batches))[Start(k, q)] == if k < cfg.nodes && 2 <= q <= |batches| + 1 then 1 else 0
  {
    if batches != [] {
      var n := |batches| - 1;
      ScheduleStarts(cfg, batches[..n], k, q);
      StartsOnce(cfg.nodes, n + 2, k, q);
      assert Start(k, q) !in Deliveries(batches[n]);
    }
  }

  /** In every run each node has been started exactly once on each quantum from 2 to the current one, and on no other. */
  lemma StartsCounted(cfg: Config<Msg>, events: seq<Event>, k: nat, q: nat)
    requires Proper(cfg)
    ensures multiset(Run(cfg, events).sent)[Start(k, q)] ==
            if k < cfg.nodes && 2 <= q <= Run(cfg, events).current then 1 else 0
  {
    hide Run, HeldExplained, TwoSlot.Run, Schedule, Ordered, Submissions;
    RunExplained(cfg, events);
    CurrentCountsBatches(cfg, Submissions(events));
    ScheduleStarts(cfg, BarrierRun(cfg, events).batches, k, q);
  }

  lemma DeliveryInside(before: seq<Action>, batch: seq<Msg>, after: seq<Action>, i: nat)
    requires |before| <= i < |before| + |batch|
    ensures (before + Deliveries(batch) + after)[i].Deliver?
  {}

  lemma {:induction false} ScheduleStartsAfter(cfg: Config<Msg>, batches: seq<seq<Msg>>, i: nat)
    requires i < |Schedule(cfg, batches)| && Schedule(cfg, batches)[i].Start?
    ensures var a := Schedule(cfg, batches)[i];
            && a.node < cfg.nodes && 2 <= a.quantum <= |batches| + 1
            && Delivered(Schedule(cfg, batches)[..i]) == Flatten(batches[..a.quantum - 1])
  {
    hide Delivered, Flatten;
    var n := |batches| - 1;
    var all, before, d := Schedule(cfg, batches), Schedule(cfg, batches[..n]), Deliveries(batches[n]);
    if i < |before| {
      ScheduleStartsAfter(cfg, batches[..n], i);
      assert all[..i] == before[..i] && all[i] == before[i];
      assert batches[..n][..all[i].quantum - 1] == batches[..all[i].quantum - 1];
    } else if i < |before| + |d| {
      DeliveryInside(before, batches[n], Starts(cfg.nodes, n + 2), i);
      assert false;
    } else {
      var j := i - |before| - |d|;
      assert all[i] == Starts(cfg.nodes, n + 2)[j];
      assert all[..i] == before + d + Starts(j, n + 2);
      ScheduleDelivers(cfg, batches[..n]);
      ReadRound(before, batches[n], j, n + 2);
      FlattenConcat(batches[..n], [batches[n]]);
      FlattenOne(batches[n]);
      assert batches[..n] + [batches[n]] == batches == batches[..n + 1];
    }
  }

  /**
   In every run, when a node is started on quantum q the batches of the quanta before q have been
   delivered, all of them and nothing else.
   */
  lemma StartAfterBatches(cfg: Config<Msg>, events: seq<Event>, i: nat)
    requires Proper(cfg) && i < |Run(cfg, events).sent| && Run(cfg, events).sent[i].Start?
    ensures var sent, batches := Run(cfg, events).sent, Releases(BarrierRun(cfg, events).results);
            && sent[i].node < cfg.nodes && 2 <= sent[i].quantum <= |batches| + 1
            && Delivered(sent[..i]) == Flatten(batches[..sent[i].quantum - 1])
  {
    hide Run, HeldExplained, TwoSlot.Run, Schedule, Delivered, Flatten, Releases, Ordered, Submissions;
    RunExplained(cfg, events);
    ScheduleStartsAfter(cfg, BarrierRun(cfg, events).batches, i);
    TwoSlot.ReleasesAreBatches(cfg, TwoSlot.Fresh(1), Submissions(events));
  }

  /** The starts in order: all nodes by number, quantum by quantum. */
  ghost predicate InRounds(nodes: nat, starts: seq<Action>, rounds: nat) {
    && |starts| == nodes * rounds
    && forall i :: 0 <= i < |starts| ==> starts[i] == Start(i % nodes, 2 + i / nodes)
  }

  lemma OneMoreRound(nodes: nat, starts: seq<Action>, rounds: nat)
    requires InRounds(nodes, starts, rounds)
    ensures InRounds(nodes, starts + Starts(nodes, rounds + 2), rounds + 1)
  {
    var all := starts + Starts(nodes, rounds + 2);
    assert nodes * (rounds + 1) == nodes * rounds + nodes;
    forall i | 0 <= i < |all| ensures all[i] == Start(i % nodes, 2 + i / nodes) {
      if i >= |starts| { Quotient(i, nodes, rounds, i - |starts|); }
    }
  }

  lemma {:induction false} ScheduleStartsInRounds(cfg: Config<Msg>, batches: seq<seq<Msg>>)
    ensures InRounds(cfg.nodes, Started(Schedule(cfg, batches)), |batches|)
  {
    if batches != [] {
      hide Started, InRounds, Deliveries, Starts;
      var n := |batches| - 1;
      ScheduleStartsInRounds(cfg, batches[..n]);
      ReadRound(Schedule(cfg, batches[..n]), batches[n], cfg.nodes, n + 2);
      OneMoreRound(cfg.nodes, Started(Schedule(cfg, batches[..n])), n);
    }
  }

  /** In every run the starts come round by round, the nodes of a round by number. */
  lemma StartsInRounds(cfg: Config<Msg>, events: seq<Event>)
    requires Proper(cfg)
    ensures var s := Run(cfg, events); s.current > 0 && InRounds(cfg.nodes, Started(s.sent), s.current - 1)
  {
    hide Run, HeldExplained, TwoSlot.Run, Schedule, Ordered, Submissions, Started, InRounds;
    RunExplained(cfg, events);
    CurrentCountsBatches(cfg, Submissions(events));
    ScheduleStartsInRounds(cfg, BarrierRun(cfg, events).batches);
  }
}
