/**
 Which links may be used.  Wired links are listed in the topology, wireless ones follow from
 positions and range, and pairs can be cut and restored at run time by control messages.
 */
module Topology {
  import opened Collections
  import opened Messages
  import opened Obstacles

  datatype WireLink<N> = WireLink(protocol: Protocol, nodes: seq<N>)

  predicate IsWireless(p: Protocol) {
    p.Rf802154? || p.RfHci?
  }

  /** Some link of this protocol has both nodes on it. */
  ghost predicate Wired<N>(links: seq<WireLink<N>>, p: Protocol, a: N, b: N) {
    exists i :: 0 <= i < |links| && links[i].protocol == p && a in links[i].nodes && b in links[i].nodes
  }

  method FindWire<N(==)>(links: seq<WireLink<N>>, p: Protocol, a: N, b: N) returns (found: bool)
    ensures found <==> Wired(links, p, a, b)
  {
    for i := 0 to |links|
      invariant !Wired(links[..i], p, a, b)
    {
      assert links[..i + 1] == links[..i] + [links[i]];
      if links[i].protocol == p && a in links[i].nodes && b in links[i].nodes {
        return true;
      }
    }
    assert links[..|links|] == links;
    return false;
  }

  // ----- The deterministic coordinator -----

  datatype Graph = Graph(
    links: seq<WireLink<nat>>, hasWireless: bool, positions: map<nat, Point>, range: real,
    isExplicit: bool, dropList: set<(nat, nat)>)

  /** Distance at most the range plus a small tolerance, stated on squares. */
  predicate InRange(range: real, a: Point, b: Point) {
    range + 0.000001 >= 0.0 && DistSq(a, b) <= Sq(range + 0.000001)
  }

  ghost predicate Neighbours(g: Graph, a: nat, b: nat) {
    g.hasWireless && a != b && a in g.positions && b in g.positions && InRange(g.range, g.positions[a], g.positions[b])
  }

  ghost predicate Blocked(g: Graph, a: nat, b: nat) {
    (a, b) in g.dropList || (b, a) in g.dropList
  }

  /** Joined by the topology, whatever has been cut. */
  ghost predicate Joined(g: Graph, a: nat, b: nat, p: Protocol) {
    if !g.isExplicit then true
    else if IsWireless(p) then Neighbours(g, a, b)
    else Wired(g.links, p, a, b)
  }

  ghost predicate Allowed(g: Graph, a: nat, b: nat, p: Protocol) {
    !Blocked(g, a, b) && Joined(g, a, b, p)
  }

  method RfNeighbors(g: Graph, node: nat) returns (out: seq<nat>)
    ensures NoDuplicates(out)
    ensures forall b :: b in out <==> Neighbours(g, node, b)
  {
    out := [];
    if !g.hasWireless {
      return;
    }
    if node in g.positions {
      var left := g.positions.Keys;
      while left != {}
        invariant left <= g.positions.Keys
        invariant NoDuplicates(out)
        invariant forall b :: b in out <==> b !in left && Neighbours(g, node, b)
        decreases |left|
      {
        var other :| other in left;
        left := left - {other};
        if other != node && InRange(g.range, g.positions[node], g.positions[other]) {
          out := out + [other];
        }
      }
    }
  }

  method IsLinkAllowed(g: Graph, src: nat, dst: nat, p: Protocol) returns (allowed: bool)
    ensures allowed <==> Allowed(g, src, dst, p)
  {
    if (src, dst) in g.dropList || (dst, src) in g.dropList {
      return false;
    }
    if !g.isExplicit {
      return true;
    }
    if IsWireless(p) {
      var neighbours := RfNeighbors(g, src);
      return dst in neighbours;
    }
    allowed := FindWire(g.links, p, src, dst);
  }

  // ----- Run-time updates -----

  datatype Update =
    | Control(from: nat, to: nat, dropProbability: real)
    | Move(moves: seq<(nat, Point)>)

  const DROP: real := 0.99
  const RESTORE: real := 0.01

  ghost function Place(positions: map<nat, Point>, moves: seq<(nat, Point)>): (r: map<nat, Point>) {
    if moves == [] then positions
    else
      var last := moves[|moves| - 1];
      Place(positions, moves[..|moves| - 1])[last.0 := last.1]
  }

  ghost function Apply(g: Graph, u: Update): (r: Graph) {
    match u
    case Control(from, to, prob) =>
      if prob >= DROP then g.(dropList := g.dropList + {(from, to)})
      else if prob <= RESTORE then g.(dropList := g.dropList - {(from, to)} - {(to, from)})
      else g
    case Move(moves) => g.(positions := Place(g.positions, moves))
  }

  ghost function ApplyAll(g: Graph, updates: seq<Update>): (r: Graph) {
    if updates == [] then g else Apply(ApplyAll(g, updates[..|updates| - 1]), updates[|updates| - 1])
  }

  /** An update that cuts or restores this unordered pair. */
  ghost predicate Decides(u: Update, a: nat, b: nat) {
    && u.Control? && (u.dropProbability >= 0.99 || u.dropProbability <= 0.01)
    && ((u.from == a && u.to == b) || (u.from == b && u.to == a))
  }

  /** Some update decided this pair, and the last one to do so cut it. */
  ghost predicate LastWasCut(updates: seq<Update>, a: nat, b: nat) {
    exists i :: 0 <= i < |updates| && Decides(updates[i], a, b) && updates[i].dropProbability >= 0.99
                && forall j :: i < j < |updates| ==> !Decides(updates[j], a, b)
  }

  lemma LastWasCutSnoc(updates: seq<Update>, u: Update, a: nat, b: nat)
    ensures LastWasCut(updates + [u], a, b) <==>
            if Decides(u, a, b) then u.dropProbability >= 0.99 else LastWasCut(updates, a, b)
  {
    var all, n := updates + [u], |updates|;
    assert all[n] == u;
    if LastWasCut(all, a, b) {
      var i :| 0 <= i < |all| && Decides(all[i], a, b) && all[i].dropProbability >= 0.99
               && forall j :: i < j < |all| ==> !Decides(all[j], a, b);
      if i < n {
        assert !Decides(all[n], a, b);
        assert updates[i] == all[i];
        forall j | i < j < n ensures !Decides(updates[j], a, b) { assert updates[j] == all[j]; }
      }
    }
    if !Decides(u, a, b) && LastWasCut(updates, a, b) {
      var i :| 0 <= i < n && Decides(updates[i], a, b) && updates[i].dropProbability >= 0.99
               && forall j :: i < j < n ==> !Decides(updates[j], a, b);
      assert all[i] == updates[i];
      forall j | i < j < |all| ensures !Decides(all[j], a, b) {
        if j < n { assert all[j] == updates[j]; }
      }
    }
  }

  /** After any updates a pair is blocked exactly if the last update deciding it, in either direction, cut it. */
  lemma {:induction false} BlockedIffLastWasCut(g: Graph, updates: seq<Update>, a: nat, b: nat)
    requires g.dropList == {}
    ensures Blocked(ApplyAll(g, updates), a, b) <==> LastWasCut(updates, a, b)
  {
    if updates != [] {
      var before, u := updates[..|updates| - 1], updates[|updates| - 1];
      assert updates == before + [u];
      BlockedIffLastWasCut(g, before, a, b);
      LastWasCutSnoc(before, u, a, b);
    }
  }

  /** No update touches the wiring. */
  lemma {:induction false} WiringFixed(g: Graph, updates: seq<Update>)
    ensures var h := ApplyAll(g, updates);
            h.links == g.links && h.isExplicit == g.isExplicit && h.hasWireless == g.hasWireless && h.range == g.range
  {
    if updates != [] {
      WiringFixed(g, updates[..|updates| - 1]);
    }
  }

  /**
   After any updates a link may be used exactly if the topology joins the two nodes and the last
   update deciding the pair, if any, restored it; and it may be used in both directions or in none.
   */
  lemma LinkAfterUpdates(g: Graph, updates: seq<Update>, a: nat, b: nat, p: Protocol)
    requires g.dropList == {}
    ensures var h := ApplyAll(g, updates);
            && (Allowed(h, a, b, p) <==> Joined(h, a, b, p) && !LastWasCut(updates, a, b))
            && (Allowed(h, a, b, p) <==> Allowed(h, b, a, p))
            && (!g.isExplicit ==> Joined(h, a, b, p))
            && (g.isExplicit && p != Rf802154 && p != RfHci ==> (Joined(h, a, b, p) <==> Wired(g.links, p, a, b)))
            && (g.isExplicit && (p == Rf802154 || p == RfHci) ==>
                (Joined(h, a, b, p) <==>
                 && g.hasWireless && a != b && a in h.positions && b in h.positions
                 && InRange(g.range, h.positions[a], h.positions[b])))
  {
    hide ApplyAll, LastWasCut;
    BlockedIffLastWasCut(g, updates, a, b);
    WiringFixed(g, updates);
  }

  /** In range means at most a micrometre further than the range, whatever the range. */
  lemma InRangeByDistance(range: real, a: Point, b: Point, d: real)
    requires d >= 0.0 && d * d == DistSq(a, b)
    ensures InRange(range, a, b) <==> d <= range + 0.000001
  {
    var bound := range + 0.000001;
    if bound >= 0.0 { SquaresCompare(d, bound); }
  }

  lemma SquaresCompare(x: real, y: real)
    requires x >= 0.0 && y >= 0.0
    ensures x * x <= y * y <==> x <= y
  {
    if x < y {
      SquareGrows(x, y - x);
    } else if x > y {
      SquareGrows(y, x - y);
    }
  }

  lemma Product(x: real, y: real)
    requires x >= 0.0 && y > 0.0
    ensures x * y >= 0.0 && (x > 0.0 ==> x * y > 0.0)
  {}

  lemma SquareGrows(x: real, e: real)
    requires x >= 0.0 && e > 0.0
    ensures (x + e) * (x + e) > x * x
  {
    var xe, ee := x * e, e * e;
    Product(x, e);
    Product(e, e);
    assert (x + e) * (x + e) == x * x + 2.0 * xe + ee;
  }

  // ----- Where the nodes stand -----

  lemma {:induction false} PlaceConcat(positions: map<nat, Point>, a: seq<(nat, Point)>, b: seq<(nat, Point)>)
    ensures Place(positions, a + b) == Place(Place(positions, a), b)
  {
    if b == [] {
      assert a + b == a;
    } else {
      var n := |b| - 1;
      PlaceConcat(positions, a, b[..n]);
      assert (a + b)[..|a + b| - 1] == a + b[..n];
    }
  }

  /** Move `i` names node `k`, and no later one does. */
  ghost predicate LastMove(moves: seq<(nat, Point)>, k: nat, i: nat) {
    i < |moves| && moves[i].0 == k && forall j :: i < j < |moves| ==> moves[j].0 != k
  }

  lemma {:induction false} PlacedByLastMove(positions: map<nat, Point>, moves: seq<(nat, Point)>, k: nat, i: nat)
    requires LastMove(moves, k, i)
    ensures k in Place(positions, moves) && Place(positions, moves)[k] == moves[i].1
  {
    var n := |moves| - 1;
    if i < n {
      assert moves[n].0 != k;
      PlacedByLastMove(positions, moves[..n], k, i);
    }
  }

  lemma {:induction false} UnmovedStays(positions: map<nat, Point>, moves: seq<(nat, Point)>, k: nat)
    requires forall j :: 0 <= j < |moves| ==> moves[j].0 != k
    ensures k in Place(positions, moves) <==> k in positions
    ensures k in positions ==> Place(positions, moves)[k] == positions[k]
  {
    if moves != [] {
      UnmovedStays(positions, moves[..|moves| - 1], k);
    }
  }

  /** All moves of all updates, in order. */
  ghost function AllMoves(updates: seq<Update>): (r: seq<(nat, Point)>) {
    if updates == [] then []
    else
      var u := updates[|updates| - 1];
      AllMoves(updates[..|updates| - 1]) + if u.Move? then u.moves else []
  }

  lemma {:induction false} PositionsAfter(g: Graph, updates: seq<Update>)
    ensures ApplyAll(g, updates).positions == Place(g.positions, AllMoves(updates))
  {
    if updates != [] {
      var n := |updates| - 1;
      PositionsAfter(g, updates[..n]);
      PlaceConcat(g.positions, AllMoves(updates[..n]), if updates[n].Move? then updates[n].moves else []);
    }
  }

  /** After any updates a node stands where the last move naming it put it, or where it stood at first. */
  lemma StandsWhereMoved(g: Graph, updates: seq<Update>, k: nat)
    ensures var moves, at := AllMoves(updates), ApplyAll(g, updates).positions;
            && (forall i: nat :: LastMove(moves, k, i) ==> k in at && at[k] == moves[i].1)
            && ((forall j :: 0 <= j < |moves| ==> moves[j].0 != k) ==>
                (k in at <==> k in g.positions) && (k in at ==> at[k] == g.positions[k]))
  {
    hide ApplyAll, Place, AllMoves;
    var moves := AllMoves(updates);
    PositionsAfter(g, updates);
    forall i: nat | LastMove(moves, k, i) { PlacedByLastMove(g.positions, moves, k, i); }
    if forall j :: 0 <= j < |moves| ==> moves[j].0 != k { UnmovedStays(g.positions, moves, k); }
  }

  class TopologyGraph {
    const links: seq<WireLink<nat>>
    const hasWireless: bool
    const range: real
    const isExplicit: bool
    var positions: map<nat, Point>
    var dropList: set<(nat, nat)>

    ghost function Model(): (r: Graph)
      reads this
    {
      Graph(links, hasWireless, positions, range, isExplicit, dropList)
    }

    constructor (links: seq<WireLink<nat>>, hasWireless: bool, positions: map<nat, Point>, range: real, isExplicit: bool)
      ensures Model() == Graph(links, hasWireless, positions, range, isExplicit, {})
    {
      this.links, this.hasWireless, this.positions := links, hasWireless, positions;
      this.range, this.isExplicit, dropList := range, isExplicit, {};
    }

    method UpdatePositions(moves: seq<(nat, Point)>)
      modifies this
      ensures Model() == Apply(old(Model()), Move(moves))
    {
      for i := 0 to |moves|
        invariant Model() == old(Model()).(positions := Place(old(positions), moves[..i]))
      {
        assert moves[..i + 1][..i] == moves[..i];
        positions := positions[moves[i].0 := moves[i].1];
      }
      assert moves[..|moves|] == moves;
    }

    method UpdateControl(from: nat, to: nat, dropProbability: real)
      modifies this
      ensures Model() == Apply(old(Model()), Update.Control(from, to, dropProbability))
    {
      if dropProbability >= DROP {
        dropList := dropList + {(from, to)};
      } else if dropProbability <= RESTORE {
        dropList := dropList - {(from, to)};
        dropList := dropList - {(to, from)};
      }
    }
  }

  // ----- Where a message goes -----

  const BROADCAST: nat := 0xFFFF_FFFF

  /** How often the links of this protocol that carry `src` name `n`. */
  ghost function WireCopies(links: seq<WireLink<nat>>, p: Protocol, src: nat, n: nat): (r: nat) {
    if links == [] then 0
    else
      var link := links[|links| - 1];
      WireCopies(links[..|links| - 1], p, src, n) +
      if link.protocol == p && src in link.nodes then multiset(link.nodes)[n] else 0
  }

  lemma {:induction false} NamedIffWired(links: seq<WireLink<nat>>, p: Protocol, src: nat, n: nat)
    ensures WireCopies(links, p, src, n) > 0 <==> Wired(links, p, src, n)
  {
    if links != [] {
      var k := |links| - 1;
      NamedIffWired(links[..k], p, src, n);
      WiredSnoc(links, k, p, src, n);
      assert links[..k + 1] == links;
    }
  }

  lemma WiredSnoc<N>(links: seq<WireLink<N>>, i: nat, p: Protocol, a: N, b: N)
    requires i < |links|
    ensures Wired(links[..i + 1], p, a, b) <==>
            Wired(links[..i], p, a, b) || (links[i].protocol == p && a in links[i].nodes && b in links[i].nodes)
  {}

  /**
   How many copies of a message from `src` to `dst` node `n` is sent; `seen` is consulted only
   by a broadcast without an explicit topology.
   */
  ghost function Copies(g: Graph, seen: set<nat>, src: nat, dst: nat, p: Protocol, n: nat): (r: nat) {
    if dst != BROADCAST then
      if n == dst && Allowed(g, src, n, p) then 1 else 0
    else if n == src then 0
    else if !g.isExplicit then
      if n in seen && Allowed(g, src, n, p) then 1 else 0
    else if IsWireless(p) then
      if Neighbours(g, src, n) then 1 else 0
    else WireCopies(g.links, p, src, n)
  }

  method Others(nodes: seq<nat>, src: nat) returns (out: seq<nat>)
    ensures forall n :: multiset(out)[n] == if n == src then 0 else multiset(nodes)[n]
  {
    out := [];
    for j := 0 to |nodes|
      invariant forall n :: multiset(out)[n] == if n == src then 0 else multiset(nodes[..j])[n]
    {
      assert nodes[..j + 1] == nodes[..j] + [nodes[j]];
      if nodes[j] != src {
        out := out + [nodes[j]];
      }
    }
    assert nodes[..|nodes|] == nodes;
  }

  method WireTargets(links: seq<WireLink<nat>>, p: Protocol, src: nat) returns (out: seq<nat>)
    ensures forall n :: multiset(out)[n] == if n == src then 0 else WireCopies(links, p, src, n)
  {
    out := [];
    for i := 0 to |links|
      invariant forall n :: multiset(out)[n] == if n == src then 0 else WireCopies(links[..i], p, src, n)
    {
      var link := links[i];
      assert links[..i + 1][..i] == links[..i];
      if link.protocol == p && src in link.nodes {
        var others := Others(link.nodes, src);
        out := out + others;
      }
    }
    assert links[..|links|] == links;
  }

  method SeenTargets(g: Graph, seen: set<nat>, src: nat, p: Protocol) returns (out: seq<nat>)
    ensures forall n :: multiset(out)[n] == if n != src && n in seen && Allowed(g, src, n, p) then 1 else 0
  {
    hide Allowed;
    out := [];
    var left := seen;
    while left != {}
      invariant left <= seen
      invariant forall n :: multiset(out)[n] == if n != src && n in seen - left && Allowed(g, src, n, p) then 1 else 0
      decreases |left|
    {
      var n :| n in left;
      left := left - {n};
      if n != src {
        var allowed := IsLinkAllowed(g, src, n, p);
        if allowed {
          out := out + [n];
        }
      }
    }
  }

  /** The target list of one message: every node as often as it is sent a copy. */
  method TargetNodes(g: Graph, seen: set<nat>, src: nat, dst: nat, p: Protocol) returns (out: seq<nat>)
    ensures forall n :: multiset(out)[n] == Copies(g, seen, src, dst, p, n)
  {
    hide Allowed, WireCopies, InRange;
    out := [];
    if dst != BROADCAST {
      var allowed := IsLinkAllowed(g, src, dst, p);
      if allowed {
        out := [dst];
      }
    } else if !g.isExplicit {
      out := SeenTargets(g, seen, src, p);
    } else if IsWireless(p) {
      out := RfNeighbors(g, src);
      forall n { OnceEach(out, n); }
    } else {
      out := WireTargets(g.links, p, src);
    }
  }

  /** A broadcast and a unicast of `src` treat the other nodes alike. */
  ghost predicate BroadcastMatchesUnicast(g: Graph, seen: set<nat>, src: nat, p: Protocol) {
    forall n :: n != src && n != BROADCAST ==>
      (Copies(g, seen, src, BROADCAST, p, n) > 0 <==> Copies(g, seen, src, n, p, n) > 0)
  }

  /** A broadcast in an explicit topology goes to every other joined node, cut or not. */
  lemma BroadcastReaches(g: Graph, seen: set<nat>, src: nat, p: Protocol, n: nat)
    requires g.isExplicit
    ensures Copies(g, seen, src, BROADCAST, p, n) > 0 <==> n != src && Joined(g, src, n, p)
  {
    NamedIffWired(g.links, p, src, n);
  }

  /** Without a topology a broadcast goes once to every other node seen whose link was not cut last. */
  lemma ImplicitBroadcast(g: Graph, updates: seq<Update>, seen: set<nat>, src: nat, p: Protocol, n: nat)
    requires !g.isExplicit && g.dropList == {}
    ensures Copies(ApplyAll(g, updates), seen, src, 0xFFFF_FFFF, p, n) ==
            if n != src && n in seen && !LastWasCut(updates, src, n) then 1 else 0
  {
    hide ApplyAll, LastWasCut;
    WiringFixed(g, updates);
    LinkAfterUpdates(g, updates, src, n, p);
  }

  /** After any updates a unicast is sent once, if the link may be used then, and to nobody else. */
  lemma UnicastAfterUpdates(g: Graph, updates: seq<Update>, seen: set<nat>, src: nat, dst: nat, p: Protocol, n: nat)
    requires g.dropList == {} && dst != 0xFFFF_FFFF
    ensures var h := ApplyAll(g, updates);
            Copies(h, seen, src, dst, p, n) ==
              if n == dst && Joined(h, src, dst, p) && !LastWasCut(updates, src, dst) then 1 else 0
  {
    hide ApplyAll, LastWasCut, Joined;
    LinkAfterUpdates(g, updates, src, dst, p);
  }

  /** After any updates a radio broadcast goes once to every other node within range of where they stand then. */
  lemma RadioBroadcast(g: Graph, updates: seq<Update>, seen: set<nat>, src: nat, p: Protocol, n: nat)
    requires g.isExplicit && (p == Rf802154 || p == RfHci)
    ensures var h := ApplyAll(g, updates);
            Copies(h, seen, src, 0xFFFF_FFFF, p, n) ==
              if && g.hasWireless && n != src && src in h.positions && n in h.positions
                 && InRange(g.range, h.positions[src], h.positions[n])
              then 1 else 0
  {
    hide ApplyAll, InRange;
    WiringFixed(g, updates);
  }

  /** The places on the sender's links that name `n`: link and position on the link. */
  ghost function Mentions(links: seq<WireLink<nat>>, p: Protocol, src: nat, n: nat): (r: set<(nat, nat)>) {
    set i: nat, j: nat | i < |links| && j < |links[i].nodes|
                         && links[i].protocol == p && src in links[i].nodes && links[i].nodes[j] == n :: (i, j)
  }

  ghost function Places(i: nat, nodes: seq<nat>, n: nat): (r: set<(nat, nat)>) {
    set j: nat | j < |nodes| && nodes[j] == n :: (i, j)
  }

  lemma {:induction false} PlacesCount(i: nat, nodes: seq<nat>, n: nat)
    ensures |Places(i, nodes, n)| == multiset(nodes)[n]
  {
    if nodes == [] {
      assert Places(i, nodes, n) == {};
    } else {
      var k := |nodes| - 1;
      PlacesCount(i, nodes[..k], n);
      assert nodes == nodes[..k] + [nodes[k]];
      assert Places(i, nodes, n) == Places(i, nodes[..k], n) + if nodes[k] == n then {(i, k)} else {};
    }
  }

  lemma MentionsSnoc(links: seq<WireLink<nat>>, link: WireLink<nat>, p: Protocol, src: nat, n: nat)
    ensures var more := if link.protocol == p && src in link.nodes then Places(|links|, link.nodes, n) else {};
            Mentions(links + [link], p, src, n) == Mentions(links, p, src, n) + more && Mentions(links, p, src, n) !! more
  {}

  lemma NothingMentioned(p: Protocol, src: nat, n: nat)
    ensures Mentions([], p, src, n) == {}
  {}

  /** A wired broadcast names a node once per mention on the sender's links. */
  lemma {:induction false} MentionsCounted(links: seq<WireLink<nat>>, p: Protocol, src: nat, n: nat)
    ensures WireCopies(links, p, src, n) == |Mentions(links, p, src, n)|
  {
    hide Mentions, Places;
    if links == [] {
      NothingMentioned(p, src, n);
    } else {
      var k := |links| - 1;
      var before, link := links[..k], links[k];
      assert links == before + [link];
      MentionsCounted(before, p, src, n);
      MentionsSnoc(before, link, p, src, n);
      PlacesCount(k, link.nodes, n);
    }
  }

  /**
   After any updates of an explicit topology, broadcast and unicast of `src` reach the same nodes
   if and only if no node joined to `src` had its link cut by the last update deciding it.
   */
  lemma MatchIffNoneCut(g: Graph, updates: seq<Update>, seen: set<nat>, src: nat, p: Protocol)
    requires g.isExplicit && g.dropList == {}
    ensures var h := ApplyAll(g, updates);
            BroadcastMatchesUnicast(h, seen, src, p) <==>
            forall n :: n != src && n != BROADCAST && Joined(h, src, n, p) ==> !LastWasCut(updates, src, n)
  {
    hide ApplyAll, LastWasCut, Joined, Allowed;
    var h := ApplyAll(g, updates);
    WiringFixed(g, updates);
    forall n | n != src && n != BROADCAST
      ensures Copies(h, seen, src, BROADCAST, p, n) > 0 <==> Joined(h, src, n, p)
      ensures Copies(h, seen, src, n, p, n) > 0 <==> Joined(h, src, n, p) && !LastWasCut(updates, src, n)
    {
      BroadcastReaches(h, seen, src, p, n);
      LinkAfterUpdates(g, updates, src, n, p);
    }
  }

  /** One cable, cut: the broadcast still arrives, the unicast does not. */
  lemma CutExample(seen: set<nat>)
    ensures var g := Graph([WireLink(Uart, [0, 1])], false, map[], 0.0, true, {});
            var h := ApplyAll(g, [Update.Control(0, 1, 1.0)]);
            Copies(h, seen, 0, 0xFFFF_FFFF, Uart, 1) == 1 && Copies(h, seen, 0, 1, Uart, 1) == 0
  {
    var g := Graph([WireLink(Uart, [0, 1])], false, map[], 0.0, true, {});
    var h := ApplyAll(g, [Update.Control(0, 1, 1.0)]);
    assert (0, 1) in h.dropList;
    assert 0 in h.links[0].nodes;
  }

  // ----- The Zenoh coordinator -----

  datatype NamedGraph = NamedGraph(links: seq<WireLink<string>>, isExplicit: bool)

  ghost predicate NamedAllowed(g: NamedGraph, a: string, b: string, p: Protocol) {
    !g.isExplicit || Wired(g.links, p, a, b)
  }

  method IsNamedLinkAllowed(g: NamedGraph, src: string, dst: string, p: Protocol) returns (allowed: bool)
    ensures allowed <==> NamedAllowed(g, src, dst, p)
  {
    if !g.isExplicit {
      return true;
    }
    allowed := FindWire(g.links, p, src, dst);
  }

  method GetWirePeers(g: NamedGraph, node: string, p: Protocol) returns (peers: set<string>)
    ensures forall n :: n in peers <==> g.isExplicit && n != node && NamedAllowed(g, node, n, p)
  {
    peers := {};
    if !g.isExplicit {
      return;
    }
    for i := 0 to |g.links|
      invariant forall n :: n in peers <==> n != node && Wired(g.links[..i], p, node, n)
    {
      ghost var before := peers;
      var link := g.links[i];
      if link.protocol == p && node in link.nodes {
        for j := 0 to |link.nodes|
          invariant forall n :: n in peers <==> n in before || (n != node && n in link.nodes[..j])
        {
          assert link.nodes[..j + 1] == link.nodes[..j] + [link.nodes[j]];
          if link.nodes[j] != node {
            peers := peers + {link.nodes[j]};
          }
        }
        assert link.nodes[..|link.nodes|] == link.nodes;
      }
      forall n { WiredSnoc(g.links, i, p, node, n); }
    }
    assert g.links[..|g.links|] == g.links;
  }

  /**
   Destination selection of the Ethernet, UART and LIN handlers.  The permission test they
   make on each destination never fails, so the violation branch is dead.
   */
  method Destinations(g: NamedGraph, known: set<string>, src: string, p: Protocol)
    returns (out: seq<string>, violations: int)
    ensures violations == 0 && NoDuplicates(out)
    ensures forall n :: n in out <==> n != src && (if g.isExplicit then Wired(g.links, p, src, n) else n in known)
  {
    hide Wired, NoDuplicates;
    var dests := {};
    if g.isExplicit {
      dests := GetWirePeers(g, src, p);
    } else {
      dests := known - {src};
    }
    out, violations := [], 0;
    NoneRepeated<string>();
    var left := dests;
    while left != {}
      invariant left <= dests && violations == 0 && NoDuplicates(out)
      invariant forall n :: n in out <==> n in dests - left
      decreases |left|
    {
      var dst :| dst in left;
      left := left - {dst};
      var allowed := IsNamedLinkAllowed(g, src, dst, p);
      if !allowed {
        violations := violations + 1;
      } else {
        AppendNew(out, dst);
        out := out + [dst];
      }
    }
  }
}
