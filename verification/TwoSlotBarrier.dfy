/** The deterministic coordinator's barrier with the fields it updates in place. */
module TwoSlotBarriers {
  import opened Ordering
  import opened Messages
  import opened BarrierSpec
  import TwoSlot

  /** The nodes whose flag is set. */
  ghost function Flagged(flags: seq<bool>): (r: set<nat>)
    ensures forall k :: k in r <==> 0 <= k < |flags| && flags[k]
  {
    set k: nat | k < |flags| && flags[k]
  }

  lemma FlagNode(flags: seq<bool>, k: nat)
    requires k < |flags| && !flags[k]
    ensures Flagged(flags[k := true]) == Flagged(flags) + {k}
    ensures |Flagged(flags[k := true])| == |Flagged(flags)| + 1
  {}

  lemma FlagsSnoc(flags: seq<bool>, i: nat)
    requires i < |flags|
    ensures |Flagged(flags[..i + 1])| == |Flagged(flags[..i])| + if flags[i] then 1 else 0
  {
    var a, b := Flagged(flags[..i]), Flagged(flags[..i + 1]);
    assert b == if flags[i] then a + {i} else a;
    assert i !in a;
  }

  lemma NoFlags(n: nat)
    ensures Flagged(seq(n, _ => false)) == {}
  {}

  /** Counting the set flags, as is done after promotion. */
  method CountFlags(flags: seq<bool>) returns (count: nat)
    ensures count == |Flagged(flags)|
  {
    count := 0;
    assert Flagged(flags[..0]) == {};
    for i := 0 to |flags|
      invariant count == |Flagged(flags[..i])|
    {
      FlagsSnoc(flags, i);
      if flags[i] {
        count := count + 1;
      }
    }
    assert flags[..|flags|] == flags;
  }

  class TwoSlotBarrier<M(!new, ==)> {
    const nodes: nat
    const limit: nat
    const leq: (M, M) -> bool
    var currentQuantum: nat
    var doneCount: nat
    var messageBuffer: seq<M>
    var doneNodes: seq<bool>
    var nextBuffer: seq<M>
    var nextDoneNodes: seq<bool>

    ghost function Cfg(): (r: Config<M>) {
      Config(nodes, limit, leq)
    }

    /** The count agrees with the flags, and there is one flag per node in each slot. */
    ghost predicate Valid()
      reads this
    {
      && IsTotalOrder(leq)
      && |doneNodes| == nodes == |nextDoneNodes|
      && doneCount == |Flagged(doneNodes)|
    }

    ghost function Model(): (r: TwoSlot.State<M>)
      reads this
    {
      TwoSlot.State(currentQuantum,
                    Slot(Flagged(doneNodes), multiset(messageBuffer)),
                    Slot(Flagged(nextDoneNodes), multiset(nextBuffer)))
    }

    constructor (nodes: nat, limit: nat, leq: (M, M) -> bool)
      requires IsTotalOrder(leq)
      ensures Valid() && Cfg() == Config(nodes, limit, leq) && Model() == TwoSlot.Fresh(0)
    {
      this.nodes, this.limit, this.leq := nodes, limit, leq;
      currentQuantum, doneCount := 0, 0;
      messageBuffer, nextBuffer := [], [];
      doneNodes, nextDoneNodes := seq(nodes, _ => false), seq(nodes, _ => false);
      NoFlags(nodes);
    }

    method SetQuantum(quantum: nat)
      requires Valid()
      modifies this`currentQuantum
      ensures Valid() && Model() == old(Model()).(current := quantum)
    {
      currentQuantum := quantum;
    }

    method RecordNext(node: nat, messages: seq<M>)
      requires Valid() && node < nodes && !nextDoneNodes[node]
      modifies this
      ensures Valid()
      ensures Model() == old(Model()).(next := Add(Cfg(), old(Model()).next, Call(node, currentQuantum + 1, messages)))
    {
      hide Sort, IsTotalOrder, Flagged;
      FlagNode(nextDoneNodes, node);
      nextDoneNodes := nextDoneNodes[node := true];
      nextBuffer := nextBuffer + Truncate(limit, Sort(leq, messages));
    }

    method RecordCurrent(node: nat, messages: seq<M>)
      requires Valid() && node < nodes && !doneNodes[node]
      modifies this
      ensures Valid()
      ensures Model() == old(Model()).(cur := Add(Cfg(), old(Model()).cur, Call(node, currentQuantum, messages)))
    {
      hide Sort, IsTotalOrder, Flagged;
      FlagNode(doneNodes, node);
      doneNodes := doneNodes[node := true];
      messageBuffer := messageBuffer + Truncate(limit, Sort(leq, messages));
      doneCount := doneCount + 1;
    }

    /** Releases the current buffer and moves the lookahead into its place. */
    method Promote() returns (all: seq<M>)
      requires Valid()
      modifies this
      ensures Valid()
      ensures all == Canon(leq, old(Model()).cur.msgs)
      ensures Model() == TwoSlot.State(old(currentQuantum) + 1, old(Model()).next, EmptySlot())
    {
      hide Sort, Canon, Flagged;
      all := Sort(leq, messageBuffer);
      SortIsCanon(leq, messageBuffer);
      currentQuantum := currentQuantum + 1;
      messageBuffer, nextBuffer := nextBuffer, [];
      doneNodes, nextDoneNodes := nextDoneNodes, seq(nodes, _ => false);
      NoFlags(nodes);
      doneCount := CountFlags(doneNodes);
    }

    /** Refines the state machine: same answer, same new state, for every call. */
    method SubmitDone(node: nat, quantum: nat, expectedQuantum: nat, messages: seq<M>) returns (r: SubmitResult<M>)
      requires Valid()
      modifies this
      ensures Valid()
      ensures var e := TwoSlot.Step(Cfg(), old(Model()), Call(node, quantum, messages));
              r == e.result && Model() == e.state
    {
      hide Kept, Canon, IsTotalOrder, Flagged;
      var current := currentQuantum;
      if quantum < current {
        return Ok(None);
      }
      if node >= nodes {
        return Err(NodeIndexOutOfBounds(node));
      }
      if quantum > current + 1 {
        return Err(QuantumMismatch(current, quantum));
      }
      if quantum == current + 1 {
        if nextDoneNodes[node] {
          return Err(DuplicateDone);
        }
        RecordNext(node, messages);
        return Ok(None);
      }
      if doneNodes[node] {
        return Err(DuplicateDone);
      }
      RecordCurrent(node, messages);
      if doneCount == nodes {
        var all := Promote();
        return Ok(Some(all));
      }
      return Ok(None);
    }

    method Reset()
      requires Valid()
      modifies this
      ensures Valid() && Model() == TwoSlot.Fresh(0)
    {
      currentQuantum, doneCount := 0, 0;
      messageBuffer, nextBuffer := [], [];
      var i := 0;
      while i < |doneNodes|
        invariant i <= |doneNodes| == nodes
        invariant forall k :: 0 <= k < i ==> !doneNodes[k]
        invariant currentQuantum == doneCount == 0 && messageBuffer == nextBuffer == []
        invariant |nextDoneNodes| == nodes
      {
        doneNodes := doneNodes[i := false];
        i := i + 1;
      }
      i := 0;
      while i < |nextDoneNodes|
        invariant i <= |nextDoneNodes| == nodes == |doneNodes|
        invariant forall k :: 0 <= k < i ==> !nextDoneNodes[k]
        invariant forall k :: 0 <= k < nodes ==> !doneNodes[k]
        invariant currentQuantum == doneCount == 0 && messageBuffer == nextBuffer == []
      {
        nextDoneNodes := nextDoneNodes[i := false];
        i := i + 1;
      }
      assert Flagged(doneNodes) == {} == Flagged(nextDoneNodes);
    }
  }
}
