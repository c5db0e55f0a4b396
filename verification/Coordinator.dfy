/** The event loop with the variables it updates, driving a two-slot barrier. */
module Coordinators {
  import opened Collections
  import opened Ordering
  import opened Messages
  import opened EventLoop
  import opened TwoSlotBarriers
  import TwoSlot

  /** Splits held-back frames at a DONE's limit, keeping their order on both sides. */
  method Partition(frames: seq<Msg>, limit: nat) returns (due: seq<Msg>, later: seq<Msg>)
    ensures due == Filter(DueBy(limit), frames)
    ensures later == Filter(After(limit), frames)
  {
    due, later := [], [];
    assert frames[..0] == [];
    for i := 0 to |frames|
      invariant due == Filter(DueBy(limit), frames[..i])
      invariant later == Filter(After(limit), frames[..i])
    {
      assert frames[..i + 1] == frames[..i] + [frames[i]];
      FilterSnoc(DueBy(limit), frames[..i], frames[i]);
      FilterSnoc(After(limit), frames[..i], frames[i]);
      if frames[i].vtime <= limit {
        due := due + [frames[i]];
      } else {
        later := later + [frames[i]];
      }
    }
    assert frames[..|frames|] == frames;
  }

  class Coordinator {
    const nodes: nat
    const barrier: TwoSlotBarrier<Msg>
    var nodeBatches: map<nat, seq<Msg>>
    var currentQuantum: nat
    var sent: seq<Action>

    ghost predicate Valid()
      reads this, barrier
    {
      barrier.Valid() && barrier.nodes == nodes && barrier.leq == MessageLeq
    }

    ghost function Model(): (r: State)
      reads this, barrier
    {
      State(nodeBatches, currentQuantum, barrier.Model(), sent)
    }

    constructor (nodes: nat, limit: nat)
      ensures Valid() && fresh(barrier) && this.nodes == nodes && barrier.limit == limit && Model() == Initial()
    {
      CompareIsTotal();
      var b := new TwoSlotBarrier<Msg>(nodes, limit, MessageLeq);
      b.SetQuantum(1);
      this.nodes, barrier := nodes, b;
      nodeBatches, currentQuantum, sent := map[], 1, [];
    }

    method HandleTx(node: nat, msg: Msg)
      requires Valid()
      modifies this
      ensures Valid() && Model() == Step(barrier.Cfg(), old(Model()), Tx(node, msg))
    {
      var frames := if node in nodeBatches then nodeBatches[node] else [];
      nodeBatches := nodeBatches[node := frames + [msg]];
    }

    /** Refines the event loop's step: same frames held back, same output, same quantum. */
    method HandleDone(node: nat, quantum: nat, limit: nat, batched: seq<Msg>)
      requires Valid()
      modifies this, barrier
      ensures Valid() && Model() == Step(barrier.Cfg(), old(Model()), Done(node, quantum, limit, batched))
    {
      hide Sort, Canon, Filter, IsTotalOrder, TwoSlot.Step, Flagged;
      var frames := if node in nodeBatches then nodeBatches[node] else [];
      nodeBatches := nodeBatches - {node};
      var due, later := Partition(frames, limit);
      if later != [] {
        nodeBatches := nodeBatches[node := later];
      }
      assert nodeBatches == if later == [] then old(nodeBatches) - {node} else old(nodeBatches)[node := later];
      var r := barrier.SubmitDone(node, quantum, currentQuantum, due + batched);
      if r.Ok? && r.released.Some? {
        DeliverAll(Sort(barrier.leq, r.released.value));
        currentQuantum := currentQuantum + 1;
        StartAll();
      }
    }

    method DeliverAll(msgs: seq<Msg>)
      modifies this`sent
      ensures sent == old(sent) + Deliveries(msgs)
    {
      assert Deliveries(msgs[..0]) == [];
      for i := 0 to |msgs|
        invariant sent == old(sent) + Deliveries(msgs[..i])
      {
        sent := sent + [Deliver(msgs[i])];
        assert Deliveries(msgs[..i + 1]) == Deliveries(msgs[..i]) + [Deliver(msgs[i])];
      }
      assert msgs[..|msgs|] == msgs;
    }

    method StartAll()
      modifies this`sent
      ensures sent == old(sent) + Starts(nodes, currentQuantum)
    {
      assert Starts(0, currentQuantum) == [];
      for i := 0 to nodes
        invariant sent == old(sent) + Starts(i, currentQuantum)
      {
        sent := sent + [Start(i, currentQuantum)];
        assert Starts(i + 1, currentQuantum) == Starts(i, currentQuantum) + [Start(i, currentQuantum)];
      }
    }
  }
}
