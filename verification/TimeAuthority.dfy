/**
 The virtual time authority drives the clocks of all nodes in steps.  A node may overshoot
 the step it was asked for; the authority subtracts the overshoot from the next step, so the
 drift stays bounded however many steps are made.
 */
module TimeAuthority {
  import opened Integers

  /** One node as the authority sees it. */
  datatype Clock = Clock(vtime: int, expected: int, overshoot: int)

  /** The step actually requested from a node. */
  function Adjusted(c: Clock, delta: int): (r: int) {
    Max(0, delta - c.overshoot)
  }

  /** Bookkeeping after a node has answered that it stands at `vtime`. */
  function Advance(c: Clock, delta: int, vtime: int): (r: Clock) {
    Clock(vtime, c.expected + delta, Max(0, vtime - (c.expected + delta)))
  }

  /** The request is the step less the overshoot, never negative; the new overshoot is what the reply is ahead, never negative. */
  lemma StepMeans(c: Clock, delta: int, vtime: int)
    ensures var asked, c' := Adjusted(c, delta), Advance(c, delta, vtime);
            && (if c.overshoot <= delta then asked + c.overshoot == delta else asked == 0)
            && c'.vtime == vtime && c'.expected - c.expected == delta
            && (if vtime >= c'.expected then c'.expected + c'.overshoot == vtime else c'.overshoot == 0)
  {}

  /** A node runs for what it was asked plus at most `slack`, and does not move when asked for nothing. */
  ghost predicate Obeys(c: Clock, delta: int, vtime: int, slack: nat) {
    var moved := vtime - c.vtime;
    Adjusted(c, delta) <= moved <= if Adjusted(c, delta) == 0 then 0 else Adjusted(c, delta) + slack
  }

  /** The recorded overshoot is the true one, and lies between zero and `slack`. */
  ghost predicate InBand(c: Clock, slack: nat) {
    c.overshoot == c.vtime - c.expected && 0 <= c.overshoot <= slack
  }

  lemma StepStaysInBand(c: Clock, delta: int, vtime: int, slack: nat)
    requires InBand(c, slack) && delta >= 0 && Obeys(c, delta, vtime, slack)
    ensures InBand(Advance(c, delta, vtime), slack)
    ensures vtime >= c.vtime
    ensures vtime <= Max(c.vtime, c.vtime + delta + slack)
  {}

  /** A sequence of requested steps and the times a node answered. */
  datatype Answer = Answer(delta: int, vtime: int)

  ghost function Drive(c: Clock, answers: seq<Answer>): (r: Clock) {
    if answers == [] then c
    else
      var last := answers[|answers| - 1];
      Advance(Drive(c, answers[..|answers| - 1]), last.delta, last.vtime)
  }

  ghost function Requested(answers: seq<Answer>): (r: int) {
    if answers == [] then 0 else Requested(answers[..|answers| - 1]) + answers[|answers| - 1].delta
  }

  ghost predicate ObeysAll(c: Clock, answers: seq<Answer>, slack: nat) {
    forall i :: 0 <= i < |answers| ==>
      answers[i].delta >= 0 && Obeys(Drive(c, answers[..i]), answers[i].delta, answers[i].vtime, slack)
  }

  /** However long the run, the drift is that of a single step: it never accumulates. */
  lemma {:induction false} BoundedDrift(c: Clock, answers: seq<Answer>, slack: nat)
    requires InBand(c, slack) && ObeysAll(c, answers, slack)
    ensures InBand(Drive(c, answers), slack)
    ensures Drive(c, answers).expected == c.expected + Requested(answers)
    ensures var drift := Drive(c, answers).vtime - (c.expected + Requested(answers)); 0 <= drift <= slack
  {
    if answers != [] {
      var n := |answers| - 1;
      var before := answers[..n];
      forall i | 0 <= i < n ensures before[i] == answers[i] && before[..i] == answers[..i] {}
      assert ObeysAll(c, before, slack);
      BoundedDrift(c, before, slack);
      assert Obeys(Drive(c, before), answers[n].delta, answers[n].vtime, slack);
    }
  }

  // ----- The authority -----

  datatype Reply = NoReply | TransportError | Ready(vtime: int, errorCode: int, quantum: int)

  datatype Failure = Timeout | ReplyError | Stall | WrongQuantum

  /** `Failed(i, f)`: the i-th node's reply was unusable; the nodes before it were already updated. */
  datatype StepResult = Stepped | Failed(index: nat, failure: Failure)

  datatype RunResult = Reached(vtime: int) | NoNodes | Aborted(result: StepResult)

  /** How the nodes answer: by node, quantum number, current time and requested step. */
  type Environment = (int, int, int, int) -> Reply

  predicate Usable(reply: Reply, quantum: int) {
    reply.Ready? && reply.errorCode == 0 && reply.quantum == quantum
  }

  /** The checks in the order in which they are made. */
  function FailureOf(reply: Reply, quantum: int): (r: Failure)
    requires !Usable(reply, quantum)
  {
    if reply.NoReply? then Timeout
    else if reply.TransportError? then ReplyError
    else if reply.errorCode != 0 then Stall
    else WrongQuantum
  }

  /** The failure a reply stands for; exactly the unusable replies have one. */
  ghost predicate Explains(f: Failure, reply: Reply, quantum: int) {
    match f
    case Timeout => reply == NoReply
    case ReplyError => reply == TransportError
    case Stall => reply.Ready? && reply.errorCode != 0
    case WrongQuantum => reply.Ready? && reply.errorCode == 0 && reply.quantum != quantum
  }

  /** One node, if its reply is usable, has run for what it was asked. */
  ghost predicate AnswersWell(env: Environment, slack: nat, nid: int, quantum: int, c: Clock, delta: int) {
    var reply := env(nid, quantum, c.vtime, Adjusted(c, delta));
    Usable(reply, quantum) ==> Obeys(c, delta, reply.vtime, slack)
  }

  ghost predicate Compliant(env: Environment, slack: nat) {
    forall nid, quantum, c: Clock, delta :: AnswersWell(env, slack, nid, quantum, c, delta)
  }

  /** The least entry, as Python's `min` over the dictionary's values. */
  function Least(ids: seq<int>, m: map<int, int>): (r: int)
    requires ids != [] && forall i :: 0 <= i < |ids| ==> ids[i] in m
    ensures forall i :: 0 <= i < |ids| ==> r <= m[ids[i]]
    ensures exists i :: 0 <= i < |ids| && m[ids[i]] == r
  {
    var last := |ids| - 1;
    if last == 0 then m[ids[0]]
    else
      var rest := Least(ids[..last], m);
      if m[ids[last]] < rest then m[ids[last]]
      else
        assert exists i :: 0 <= i < last && m[ids[..last][i]] == rest;
        rest
  }

  class VirtualTimeAuthority {
    const nodeIds: seq<int>
    var currentVtimes: map<int, int>
    var expectedVtimes: map<int, int>
    var overshoots: map<int, int>
    var quantumNumber: int

    ghost predicate Valid()
      reads this
    {
      && (forall i, j :: 0 <= i < j < |nodeIds| ==> nodeIds[i] != nodeIds[j])
      && (forall i :: 0 <= i < |nodeIds| ==>
            nodeIds[i] in currentVtimes && nodeIds[i] in expectedVtimes && nodeIds[i] in overshoots)
    }

    ghost function ClockAt(i: nat): (r: Clock)
      reads this
      requires Valid() && i < |nodeIds|
    {
      Clock(currentVtimes[nodeIds[i]], expectedVtimes[nodeIds[i]], overshoots[nodeIds[i]])
    }

    ghost predicate AllInBand(slack: nat)
      reads this
      requires Valid()
    {
      forall i :: 0 <= i < |nodeIds| ==> InBand(ClockAt(i), slack)
    }

    constructor (nodeIds: seq<int>)
      requires forall i, j :: 0 <= i < j < |nodeIds| ==> nodeIds[i] != nodeIds[j]
      ensures Valid() && this.nodeIds == nodeIds && quantumNumber == 0
      ensures forall i :: 0 <= i < |nodeIds| ==> ClockAt(i) == Clock(0, 0, 0)
    {
      this.nodeIds := nodeIds;
      currentVtimes := map n | n in nodeIds :: 0;
      expectedVtimes := map n | n in nodeIds :: 0;
      overshoots := map n | n in nodeIds :: 0;
      quantumNumber := 0;
    }

    /**
     The effect of asking every node for `delta`: those before the first unusable reply have
     advanced by what they answered, the others have not, and the failure says why.
     */
    twostate predicate HasStepped(delta: int, env: Environment, r: StepResult)
      requires old(Valid()) && Valid()
      reads this
    {
      && quantumNumber == old(quantumNumber) + 1
      && (r.Failed? ==> r.index < |nodeIds|)
      && forall i :: 0 <= i < |nodeIds| ==>
           var c := old(ClockAt(i));
           var reply := env(nodeIds[i], quantumNumber, c.vtime, Adjusted(c, delta));
           if r.Stepped? || i < r.index then Usable(reply, quantumNumber) && ClockAt(i) == Advance(c, delta, reply.vtime)
           else ClockAt(i) == c && (i == r.index ==> Explains(r.failure, reply, quantumNumber))
    }

    /** Asks every node for its step, corrected by its overshoot, and collects the replies. */
    method AskAll(delta: int, env: Environment) returns (replies: seq<Reply>)
      requires Valid()
      ensures |replies| == |nodeIds|
      ensures forall k :: 0 <= k < |nodeIds| ==>
                replies[k] == env(nodeIds[k], quantumNumber, ClockAt(k).vtime, Adjusted(ClockAt(k), delta))
    {
      replies := [];
      for i := 0 to |nodeIds|
        invariant |replies| == i
        invariant forall k :: 0 <= k < i ==>
                    replies[k] == env(nodeIds[k], quantumNumber, ClockAt(k).vtime, Adjusted(ClockAt(k), delta))
      {
        var nid := nodeIds[i];
        var adjusted := Max(0, delta - overshoots[nid]);
        replies := replies + [env(nid, quantumNumber, currentVtimes[nid], adjusted)];
      }
    }

    /**
     One step of every clock.  If a reply is unusable the step stops there: the nodes before
     it have advanced, it and the nodes after it have not, and the quantum number has.
     */
    method Step(delta: int, env: Environment) returns (r: StepResult)
      requires Valid()
      modifies this
      ensures Valid() && HasStepped(delta, env, r)
    {
      quantumNumber := quantumNumber + 1;
      var replies := AskAll(delta, env);
      for i := 0 to |nodeIds|
        invariant Valid() && quantumNumber == old(quantumNumber) + 1
        invariant forall k :: 0 <= k < |nodeIds| ==>
                    var c := old(ClockAt(k));
                    if k < i then Usable(replies[k], quantumNumber) && ClockAt(k) == Advance(c, delta, replies[k].vtime)
                    else ClockAt(k) == c
      {
        var nid, reply := nodeIds[i], replies[i];
        if !Usable(reply, quantumNumber) {
          return Failed(i, FailureOf(reply, quantumNumber));
        }
        currentVtimes := currentVtimes[nid := reply.vtime];
        expectedVtimes := expectedVtimes[nid := expectedVtimes[nid] + delta];
        overshoots := overshoots[nid := Max(0, reply.vtime - expectedVtimes[nid])];
      }
      return Stepped;
    }

    /** A zero step, after which every node's own time is taken as its starting point. */
    method Init(env: Environment) returns (r: StepResult)
      requires Valid()
      modifies this
      ensures Valid()
      ensures nodeIds == [] ==> r.Stepped? && quantumNumber == old(quantumNumber)
      ensures r.Failed? ==> HasStepped(0, env, r)
      ensures r.Stepped? && nodeIds != [] ==> quantumNumber == old(quantumNumber) + 1
      ensures r.Stepped? ==> forall i :: 0 <= i < |nodeIds| ==>
                var c := old(ClockAt(i));
                var reply := env(nodeIds[i], quantumNumber, c.vtime, Max(0, 0 - c.overshoot));
                Usable(reply, quantumNumber) && ClockAt(i) == Clock(reply.vtime, reply.vtime, 0)
      ensures r.Stepped? ==> forall slack: nat :: AllInBand(slack)
    {
      if nodeIds == [] {
        return Stepped;
      }
      r := Step(0, env);
      if r.Stepped? {
        ghost var replied := currentVtimes;
        for i := 0 to |nodeIds|
          invariant Valid() && quantumNumber == old(quantumNumber) + 1 && currentVtimes == replied
          invariant forall k :: 0 <= k < i ==> ClockAt(k) == Clock(replied[nodeIds[k]], replied[nodeIds[k]], 0)
        {
          var nid := nodeIds[i];
          label Before:
          expectedVtimes := expectedVtimes[nid := currentVtimes[nid]];
          overshoots := overshoots[nid := 0];
          forall k | 0 <= k < i ensures ClockAt(k) == old@Before(ClockAt(k)) {
            assert nodeIds[k] != nid;
          }
        }
      }
    }

    ghost function LeastExpected(): (r: int)
      reads this
      requires Valid() && nodeIds != []
    {
      Least(nodeIds, expectedVtimes)
    }

    function LeastVtime(): (r: int)
      reads this
      requires Valid() && nodeIds != []
      ensures forall i :: 0 <= i < |nodeIds| ==> r <= ClockAt(i).vtime
      ensures exists i :: 0 <= i < |nodeIds| && ClockAt(i).vtime == r
    {
      var r := Least(nodeIds, currentVtimes);
      assert exists i :: 0 <= i < |nodeIds| && currentVtimes[nodeIds[i]] == r && ClockAt(i).vtime == r;
      r
    }

    /** One round of `RunFor`: every expected time grows by the step, and the slowest node ends near the target. */
    method Round(target: int, stepNs: int, env: Environment, slack: nat) returns (r: StepResult)
      requires Valid() && nodeIds != [] && AllInBand(slack) && Compliant(env, slack)
      requires stepNs > 0 && LeastVtime() < target
      modifies this
      ensures Valid()
      ensures HasStepped(Min(stepNs, target - old(LeastVtime())), env, r)
      ensures r.Stepped? ==> AllInBand(slack) && LeastVtime() <= target + slack && LeastExpected() > old(LeastExpected())
    {
      var toStep := Min(stepNs, target - LeastVtime());
      ghost var slowest :| 0 <= slowest < |nodeIds| && ClockAt(slowest).vtime == LeastVtime();
      r := Step(toStep, env);
      if r.Stepped? {
        forall i | 0 <= i < |nodeIds|
          ensures InBand(ClockAt(i), slack)
          ensures expectedVtimes[nodeIds[i]] == old(expectedVtimes[nodeIds[i]]) + toStep
          ensures i == slowest ==> ClockAt(i).vtime <= target + slack
        {
          var c := old(ClockAt(i));
          var reply := env(nodeIds[i], quantumNumber, c.vtime, Adjusted(c, toStep));
          assert ClockAt(i) == Advance(c, toStep, reply.vtime);
          assert AnswersWell(env, slack, nodeIds[i], quantumNumber, c, toStep);
          StepStaysInBand(c, toStep, reply.vtime, slack);
        }
        ghost var lagging :| 0 <= lagging < |nodeIds| && expectedVtimes[nodeIds[lagging]] == LeastExpected();
      }
    }

    /**
     Advances all clocks by `duration`.  With compliant nodes it terminates; unless a step
     fails, the slowest node then stands at the target or at most `slack` past it.  A duration
     that is not positive moves nothing.
     */
    method RunFor(duration: int, stepNs: int, env: Environment, slack: nat) returns (r: RunResult)
      requires Valid() && AllInBand(slack) && Compliant(env, slack) && stepNs > 0
      modifies this
      ensures Valid()
      ensures r.NoNodes? <==> nodeIds == []
      ensures r.Reached? ==> nodeIds != [] && AllInBand(slack) && r.vtime == LeastVtime()
      ensures r.Reached? && duration > 0 ==> old(LeastVtime()) + duration <= r.vtime <= old(LeastVtime()) + duration + slack
      ensures r.Reached? && duration <= 0 ==> r.vtime == old(LeastVtime()) && quantumNumber == old(quantumNumber)
    {
      if nodeIds == [] {
        return NoNodes;
      }
      var target := LeastVtime() + duration;
      while LeastVtime() < target
        invariant Valid() && AllInBand(slack)
        invariant duration > 0 ==> LeastVtime() <= target + slack
        invariant duration <= 0 ==> LeastVtime() == old(LeastVtime()) && quantumNumber == old(quantumNumber)
        decreases target - LeastExpected()
      {
        ghost var slowest :| 0 <= slowest < |nodeIds| && ClockAt(slowest).vtime == LeastVtime();
        assert LeastExpected() <= ClockAt(slowest).expected <= LeastVtime();
        var s := Round(target, stepNs, env, slack);
        if !s.Stepped? {
          return Aborted(s);
        }
      }
      return Reached(LeastVtime());
    }
  }
}
