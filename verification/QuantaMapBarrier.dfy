/** The Zenoh coordinator's barrier with the map it updates in place and its draining loop. */
module QuantaMapBarriers {
  import opened Collections
  import opened Ordering
  import opened Messages
  import opened BarrierSpec
  import QuantaMap

  datatype QuantumData<N, M> = QuantumData(doneNodes: set<N>, messages: seq<M>)

  ghost function Abstract<N, M>(quanta: map<nat, QuantumData<N, M>>): (r: map<nat, Slot<N, M>>) {
    map q | q in quanta :: SlotOf(quanta[q])
  }

  ghost function SlotOf<N, M>(data: QuantumData<N, M>): (r: Slot<N, M>) {
    Slot(data.doneNodes, multiset(data.messages))
  }

  lemma AbstractUpdate<N, M>(quanta: map<nat, QuantumData<N, M>>, q: nat, data: QuantumData<N, M>)
    ensures Abstract(quanta[q := data]) == Abstract(quanta)[q := SlotOf(data)]
  {}

  lemma AbstractRemove<N, M>(quanta: map<nat, QuantumData<N, M>>, q: nat)
    requires q in quanta
    ensures Abstract(quanta - {q}) == Abstract(quanta) - {q}
    ensures |quanta - {q}| == |quanta| - 1
  {}

  lemma DrainUnfolds<N, M(!new)>(cfg: Config<M>, s: QuantaMap.State<N, M>)
    requires Ordered(cfg)
    ensures QuantaMap.Complete(cfg, s) ==>
              var rest := QuantaMap.Drain(cfg, QuantaMap.Advance(s));
              QuantaMap.Drain(cfg, s) ==
                QuantaMap.Drained(rest.state, [Canon(cfg.leq, s.slots[s.current].msgs)] + rest.batches)
    ensures !QuantaMap.Complete(cfg, s) ==> QuantaMap.Drain(cfg, s) == QuantaMap.Drained(s, [])
  {}

  class QuantaMapBarrier<N(==), M(!new, ==)> {
    const nodes: nat
    const limit: nat
    const leq: (M, M) -> bool
    var currentQuantum: nat
    var quanta: map<nat, QuantumData<N, M>>

    ghost function Cfg(): (r: Config<M>) {
      Config(nodes, limit, leq)
    }

    ghost predicate Valid() {
      IsTotalOrder(leq)
    }

    ghost function Model(): (r: QuantaMap.State<N, M>)
      reads this
    {
      QuantaMap.State(currentQuantum, Abstract(quanta))
    }

    constructor (nodes: nat, limit: nat, leq: (M, M) -> bool)
      requires IsTotalOrder(leq)
      ensures Valid() && Cfg() == Config(nodes, limit, leq) && Model() == QuantaMap.Fresh(1)
    {
      this.nodes, this.limit, this.leq := nodes, limit, leq;
      currentQuantum, quanta := 1, map[];
      new;
      assert Abstract(quanta) == map[];
    }

    /** Forgets everything reported; the current quantum stays. */
    method Reset()
      requires Valid()
      modifies this
      ensures Model() == QuantaMap.Fresh(old(currentQuantum))
    {
      quanta := map[];
      assert Abstract(quanta) == map[];
    }

    /** Refines the state machine: same answer, same new state, for every call. */
    method SubmitDone(node: N, quantum: nat, expectedQuantum: nat, messages: seq<M>) returns (r: SubmitResult<M>)
      requires Valid()
      modifies this
      ensures var e := QuantaMap.Step(Cfg(), old(Model()), Call(node, quantum, messages));
              r == e.result && Model() == e.state
    {
      hide Sort, Canon, IsTotalOrder, QuantaMap.Drain, Flatten;
      if quantum < currentQuantum {
        return Ok(None);
      }
      var data := if quantum in quanta then quanta[quantum] else QuantumData({}, []);
      if node in data.doneNodes {
        return Err(DuplicateDone);
      }
      data := QuantumData(data.doneNodes + {node}, data.messages + Truncate(limit, Sort(leq, messages)));
      AbstractUpdate(quanta, quantum, data);
      quanta := quanta[quantum := data];
      assert Model() == QuantaMap.Record(Cfg(), old(Model()), Call(node, quantum, messages));
      var all, advanced := DrainComplete();
      r := Ok(if advanced then Some(all) else None);
    }

    /** Takes the current quantum out of the map and returns its messages in order. */
    method TakeCurrent() returns (sorted: seq<M>)
      requires Valid() && currentQuantum in quanta
      modifies this
      ensures old(currentQuantum) in old(Model()).slots
      ensures sorted == Canon(leq, old(Model()).slots[old(currentQuantum)].msgs)
      ensures Model() == QuantaMap.Advance(old(Model()))
      ensures |quanta| < |old(quanta)|
    {
      hide Sort, Canon, IsTotalOrder;
      var data := quanta[currentQuantum];
      AbstractRemove(quanta, currentQuantum);
      quanta := quanta - {currentQuantum};
      sorted := Sort(leq, data.messages);
      SortIsCanon(leq, data.messages);
      currentQuantum := currentQuantum + 1;
    }

    /** The draining loop; each round removes one entry of the map. */
    method DrainComplete() returns (all: seq<M>, advanced: bool)
      requires Valid()
      modifies this
      ensures var d := QuantaMap.Drain(Cfg(), old(Model()));
              Model() == d.state && all == Flatten(d.batches) && (advanced <==> d.batches != [])
    {
      hide Sort, Canon, IsTotalOrder, QuantaMap.Drain, Flatten, QuantaMap.Advance, Abstract, QuantaMap.Complete;
      all, advanced := [], false;
      ghost var batches: seq<seq<M>> := [];
      FlattenEmpty<M>();
      CompleteIffGuard();
      while currentQuantum in quanta && |quanta[currentQuantum].doneNodes| == nodes
        invariant QuantaMap.Drain(Cfg(), old(Model())) ==
                  var rest := QuantaMap.Drain(Cfg(), Model()); QuantaMap.Drained(rest.state, batches + rest.batches)
        invariant all == Flatten(batches)
        invariant advanced <==> batches != []
        invariant QuantaMap.Complete(Cfg(), Model()) <==>
                  currentQuantum in quanta && |quanta[currentQuantum].doneNodes| == nodes
        decreases |quanta|
      {
        DrainUnfolds(Cfg(), Model());
        var sorted := TakeCurrent();
        FlattenConcat(batches, [sorted]);
        FlattenOne(sorted);
        ghost var rest := QuantaMap.Drain(Cfg(), Model());
        assert batches + ([sorted] + rest.batches) == (batches + [sorted]) + rest.batches;
        all, advanced, batches := all + sorted, true, batches + [sorted];
        CompleteIffGuard();
      }
      DrainUnfolds(Cfg(), Model());
      assert batches + [] == batches;
    }

    lemma CompleteIffGuard()
      ensures QuantaMap.Complete(Cfg(), Model()) <==>
              currentQuantum in quanta && |quanta[currentQuantum].doneNodes| == nodes
    {}
  }
}
