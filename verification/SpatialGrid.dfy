/**
 Who hears a radio frame?  Positions are hashed into cells of 500 m, only the 27 cells
 around the sender are searched, and a candidate receives the frame if its signal is strong
 enough.  The index must not change the answer that a scan of all positions would give.
 */
module SpatialGrid {
  import opened Collections
  import opened Obstacles

  datatype Cell = Cell(x: int, y: int, z: int)

  type Positions = map<(string, string), Point>

  const CELL_SIZE: real := 500.0

  function CellOf(p: Point): (r: Cell) {
    Cell((p.x / CELL_SIZE).Floor, (p.y / CELL_SIZE).Floor, (p.z / CELL_SIZE).Floor)
  }

  /** The ids of one prefix that lie in one cell. */
  ghost predicate Lives(pos: Positions, prefix: string, id: string, c: Cell) {
    (prefix, id) in pos && CellOf(pos[(prefix, id)]) == c
  }

  function Lookup(cells: map<Cell, seq<string>>, c: Cell): (r: seq<string>) {
    if c in cells then cells[c] else []
  }

  /** Every node of the prefix is filed once, in the cell it lives in. */
  ghost predicate IsGrid(pos: Positions, prefix: string, cells: map<Cell, seq<string>>) {
    && (forall c :: NoDuplicates(Lookup(cells, c)))
    && (forall c, id :: id in Lookup(cells, c) <==> Lives(pos, prefix, id, c))
  }

  /** Files the entries in whatever order the map yields them. */
  method Build(pos: Positions, prefix: string) returns (cells: map<Cell, seq<string>>)
    ensures IsGrid(pos, prefix, cells)
  {
    cells := map[];
    var left := pos.Keys;
    ghost var filed: Positions := map[];
    while left != {}
      invariant left <= pos.Keys
      invariant filed == map key | key in pos.Keys - left :: pos[key]
      invariant IsGrid(filed, prefix, cells)
      decreases |left|
    {
      var key :| key in left;
      left := left - {key};
      ghost var before := filed;
      filed := filed[key := pos[key]];
      if key.0 == prefix {
        var c := CellOf(pos[key]);
        FileOne(before, prefix, cells, key.1, pos[key]);
        cells := cells[c := Lookup(cells, c) + [key.1]];
      } else {
        SkipOne(before, prefix, cells, key, pos[key]);
      }
    }
    assert filed == pos;
  }

  lemma FileOne(pos: Positions, prefix: string, cells: map<Cell, seq<string>>, id: string, at: Point)
    requires IsGrid(pos, prefix, cells) && (prefix, id) !in pos
    ensures var c := CellOf(at);
            IsGrid(pos[(prefix, id) := at], prefix, cells[c := Lookup(cells, c) + [id]])
  {
    var c := CellOf(at);
    var pos', cells' := pos[(prefix, id) := at], cells[c := Lookup(cells, c) + [id]];
    assert id !in Lookup(cells, c);
    forall c', id' ensures id' in Lookup(cells', c') <==> Lives(pos', prefix, id', c') {
      assert id' in Lookup(cells, c') <==> Lives(pos, prefix, id', c');
    }
    forall c' ensures NoDuplicates(Lookup(cells', c')) {
      assert NoDuplicates(Lookup(cells, c'));
    }
  }

  lemma SkipOne(pos: Positions, prefix: string, cells: map<Cell, seq<string>>, key: (string, string), at: Point)
    requires IsGrid(pos, prefix, cells) && key.0 != prefix
    ensures IsGrid(pos[key := at], prefix, cells)
  {}

  // ----- Searching the 27 cells -----

  predicate InCube(d: Cell) {
    -1 <= d.x <= 1 && -1 <= d.y <= 1 && -1 <= d.z <= 1
  }

  /** The order in which the three nested loops visit the cube. */
  function Rank(d: Cell): (r: int) {
    9 * (d.x + 1) + 3 * (d.y + 1) + (d.z + 1)
  }

  function Offset(c: Cell, centre: Cell): (r: Cell) {
    Cell(c.x - centre.x, c.y - centre.y, c.z - centre.z)
  }

  /** The cube cells of rank below `rank` have been searched. */
  ghost predicate Found(pos: Positions, prefix: string, centre: Cell, self: string, rank: int, id: string) {
    && id != self && (prefix, id) in pos
    && var d := Offset(CellOf(pos[(prefix, id)]), centre); InCube(d) && Rank(d) < rank
  }

  ghost predicate Collected(pos: Positions, prefix: string, centre: Cell, self: string, rank: int, out: seq<string>) {
    NoDuplicates(out) && forall id :: id in out <==> Found(pos, prefix, centre, self, rank, id)
  }

  /** Appends the ids of one cell, other than the sender. */
  method CollectCell(ids: seq<string>, self: string, out: seq<string>) returns (out': seq<string>)
    requires NoDuplicates(ids) && NoDuplicates(out) && forall id :: id in ids ==> id !in out
    ensures NoDuplicates(out')
    ensures forall id :: id in out' <==> id in out || (id in ids && id != self)
  {
    out' := out;
    for i := 0 to |ids|
      invariant NoDuplicates(out')
      invariant forall id :: id in out' <==> id in out || (id in ids[..i] && id != self)
    {
      assert ids[..i + 1] == ids[..i] + [ids[i]];
      if ids[i] != self {
        assert ids[i] !in ids[..i];
        assert ids[i] !in out;
        out' := out' + [ids[i]];
      }
    }
    assert ids[..|ids|] == ids;
  }

  /** One more cell of the cube. */
  lemma CollectedNext(pos: Positions, prefix: string, cells: map<Cell, seq<string>>, centre: Cell, self: string, d: Cell, out: seq<string>, out': seq<string>)
    requires IsGrid(pos, prefix, cells) && InCube(d) && Collected(pos, prefix, centre, self, Rank(d), out)
    requires NoDuplicates(out')
    requires var c := Cell(centre.x + d.x, centre.y + d.y, centre.z + d.z);
             forall id :: id in out' <==> id in out || (id in Lookup(cells, c) && id != self)
    ensures Collected(pos, prefix, centre, self, Rank(d) + 1, out')
  {}

  /** Same prefix, not the sender, and at most one cell away on every axis. */
  ghost predicate IsCandidate(pos: Positions, prefix: string, at: Point, self: string, id: string) {
    id != self && (prefix, id) in pos && Near(at, pos[(prefix, id)])
  }

  ghost predicate Near(a: Point, b: Point) {
    InCube(Offset(CellOf(b), CellOf(a)))
  }

  /** Lists every candidate exactly once. */
  method Candidates(cells: map<Cell, seq<string>>, at: Point, self: string, ghost pos: Positions, ghost prefix: string)
    returns (out: seq<string>)
    requires IsGrid(pos, prefix, cells)
    ensures NoDuplicates(out)
    ensures forall id :: id in out <==> IsCandidate(pos, prefix, at, self, id)
  {
    hide CellOf, NoDuplicates, IsGrid;
    var centre := CellOf(at);
    out := [];
    NoneCollected(pos, prefix, centre, self);
    for dx := -1 to 2
      invariant Collected(pos, prefix, centre, self, 9 * (dx + 1), out)
    {
      for dy := -1 to 2
        invariant Collected(pos, prefix, centre, self, 9 * (dx + 1) + 3 * (dy + 1), out)
      {
        for dz := -1 to 2
          invariant Collected(pos, prefix, centre, self, 9 * (dx + 1) + 3 * (dy + 1) + (dz + 1), out)
        {
          var d := Cell(dx, dy, dz);
          var ids := Lookup(cells, Cell(centre.x + dx, centre.y + dy, centre.z + dz));
          CellIsNew(pos, prefix, cells, centre, self, d, out);
          var out' := CollectCell(ids, self, out);
          CollectedNext(pos, prefix, cells, centre, self, d, out, out');
          out := out';
        }
      }
    }
    forall id ensures id in out <==> IsCandidate(pos, prefix, at, self, id) {
      assert id in out <==> Found(pos, prefix, centre, self, 27, id);
    }
  }

  lemma NoneCollected(pos: Positions, prefix: string, centre: Cell, self: string)
    ensures Collected(pos, prefix, centre, self, 0, [])
  {}

  lemma CellIsNew(pos: Positions, prefix: string, cells: map<Cell, seq<string>>, centre: Cell, self: string, d: Cell, out: seq<string>)
    requires IsGrid(pos, prefix, cells) && InCube(d) && Collected(pos, prefix, centre, self, Rank(d), out)
    ensures var ids := Lookup(cells, Cell(centre.x + d.x, centre.y + d.y, centre.z + d.z));
            NoDuplicates(ids) && NoDuplicates(out) && forall id :: id in ids ==> id !in out
  {}

  // ----- Signal strength -----

  ghost function Attenuation(a: Point, b: Point, obstacles: seq<ObstacleBox>): (r: real) {
    if obstacles == [] then 0.0
    else
      var n := |obstacles| - 1;
      Attenuation(a, b, obstacles[..n]) + if Hit(a, b, obstacles[n]) then obstacles[n].attenuation else 0.0
  }

  /** Transmit power, sensitivity, and path loss as a function of the squared distance. */
  datatype Radio = Radio(power: real, sensitivity: real, loss: real -> real)

  ghost predicate Hears(radio: Radio, obstacles: seq<ObstacleBox>, a: Point, b: Point) {
    radio.power - radio.loss(DistSq(a, b)) - Attenuation(a, b, obstacles) >= radio.sensitivity
  }

  method ObstacleLoss(a: Point, b: Point, obstacles: seq<ObstacleBox>) returns (sum: real)
    ensures sum == Attenuation(a, b, obstacles)
  {
    sum := 0.0;
    for i := 0 to |obstacles|
      invariant sum == Attenuation(a, b, obstacles[..i])
    {
      var hit := RayIntersectsAabb(a, b, obstacles[i]);
      assert obstacles[..i + 1][..i] == obstacles[..i];
      if hit {
        sum := sum + obstacles[i].attenuation;
      }
    }
    assert obstacles[..|obstacles|] == obstacles;
  }

  /** Path and obstacle loss count only when both ends have a position. */
  ghost predicate Receives(pos: Positions, prefix: string, src: string, radio: Radio, obstacles: seq<ObstacleBox>, id: string) {
    if (prefix, src) in pos && (prefix, id) in pos
    then Hears(radio, obstacles, pos[(prefix, src)], pos[(prefix, id)])
    else radio.power >= radio.sensitivity
  }

  /** Neighbours on the grid, or every known node when the sender's position is unknown. */
  ghost predicate IsSearched(pos: Positions, prefix: string, src: string, known: seq<string>, id: string) {
    if (prefix, src) in pos then IsCandidate(pos, prefix, pos[(prefix, src)], src, id)
    else id in known && id != src
  }

  /** The recipients of a frame, each listed once. */
  method Recipients(pos: Positions, prefix: string, src: string, known: seq<string>, isExplicit: bool,
                    neighbours: set<string>, radio: Radio, obstacles: seq<ObstacleBox>) returns (out: seq<string>)
    requires NoDuplicates(known)
    ensures NoDuplicates(out)
    ensures forall id :: id in out <==>
              && IsSearched(pos, prefix, src, known, id)
              && (isExplicit ==> id in neighbours)
              && Receives(pos, prefix, src, radio, obstacles, id)
  {
    hide Hears, IsGrid, Attenuation, Near;
    var candidates;
    if (prefix, src) in pos {
      var cells := Build(pos, prefix);
      candidates := Candidates(cells, pos[(prefix, src)], src, pos, prefix);
    } else {
      candidates := CollectCell(known, src, []);
    }
    out := [];
    for i := 0 to |candidates|
      invariant NoDuplicates(out)
      invariant forall id :: id in out <==>
                  && id in candidates[..i]
                  && (isExplicit ==> id in neighbours)
                  && Receives(pos, prefix, src, radio, obstacles, id)
    {
      var dst := candidates[i];
      assert candidates[..i + 1] == candidates[..i] + [dst];
      assert dst !in candidates[..i];
      var rssi := radio.power;
      if (prefix, src) in pos && (prefix, dst) in pos {
        var s, r := pos[(prefix, src)], pos[(prefix, dst)];
        var obstacleLoss := ObstacleLoss(s, r, obstacles);
        rssi := radio.power - radio.loss(DistSq(s, r)) - obstacleLoss;
        HearsIff(radio, obstacles, s, r, rssi);
      }
      if (!isExplicit || dst in neighbours) && rssi >= radio.sensitivity {
        out := out + [dst];
      }
    }
    assert candidates[..|candidates|] == candidates;
  }

  lemma HearsIff(radio: Radio, obstacles: seq<ObstacleBox>, a: Point, b: Point, rssi: real)
    requires rssi == radio.power - radio.loss(DistSq(a, b)) - Attenuation(a, b, obstacles)
    ensures rssi >= radio.sensitivity <==> Hears(radio, obstacles, a, b)
  {}

  // ----- The grid agrees with a full scan -----

  /** Coordinates at most one cell size apart are at most one cell apart. */
  lemma NearbyCells(a: real, b: real)
    requires -CELL_SIZE <= a - b <= CELL_SIZE
    ensures -1 <= (a / CELL_SIZE).Floor - (b / CELL_SIZE).Floor <= 1
  {}

  lemma SquareBound(x: real, bound: real)
    requires Sq(x) <= Sq(bound) && bound > 0.0
    ensures -bound <= x <= bound
  {
    assert (x - bound) * (x + bound) == Sq(x) - Sq(bound);
  }

  lemma SquareNonNegative(x: real)
    ensures Sq(x) >= 0.0
  {}

  /** The grid misses no node within 500 m. */
  lemma WithinCellSizeIsNear(a: Point, b: Point)
    requires DistSq(a, b) <= Sq(CELL_SIZE)
    ensures Near(a, b)
  {
    SquareNonNegative(a.x - b.x);
    SquareNonNegative(a.y - b.y);
    SquareNonNegative(a.z - b.z);
    hide Sq;
    SquareBound(a.x - b.x, CELL_SIZE);
    SquareBound(a.y - b.y, CELL_SIZE);
    SquareBound(a.z - b.z, CELL_SIZE);
    NearbyCells(a.x, b.x);
    NearbyCells(a.y, b.y);
    NearbyCells(a.z, b.z);
  }

  /** The grid searches the cells of 500 m that are at most one away on every axis. */
  lemma NearMeans(a: Point, b: Point)
    ensures Near(a, b) <==>
            && -1 <= (b.x / 500.0).Floor - (a.x / 500.0).Floor <= 1
            && -1 <= (b.y / 500.0).Floor - (a.y / 500.0).Floor <= 1
            && -1 <= (b.z / 500.0).Floor - (a.z / 500.0).Floor <= 1
  {}

  /** Even without obstacles nobody hears a frame from further than 500 m. */
  ghost predicate CutOff(radio: Radio) {
    forall d :: d > Sq(500.0) ==> radio.power - radio.loss(d) < radio.sensitivity
  }

  ghost predicate NonNegative(obstacles: seq<ObstacleBox>) {
    forall i :: 0 <= i < |obstacles| ==> obstacles[i].attenuation >= 0.0
  }

  lemma {:induction false} AttenuationNonNegative(a: Point, b: Point, obstacles: seq<ObstacleBox>)
    requires NonNegative(obstacles)
    ensures Attenuation(a, b, obstacles) >= 0.0
  {
    if obstacles != [] {
      var n := |obstacles| - 1;
      assert obstacles[n].attenuation >= 0.0;
      AttenuationNonNegative(a, b, obstacles[..n]);
    }
  }

  /** The grid search picks `id` as a recipient. */
  ghost predicate GridPicks(pos: Positions, prefix: string, src: string, known: seq<string>, radio: Radio,
                            obstacles: seq<ObstacleBox>, id: string) {
    IsSearched(pos, prefix, src, known, id) && Receives(pos, prefix, src, radio, obstacles, id)
  }

  /** A scan of all positions picks `id` as a recipient. */
  ghost predicate ScanPicks(pos: Positions, prefix: string, src: string, radio: Radio, obstacles: seq<ObstacleBox>, id: string) {
    id != src && (prefix, id) in pos && Receives(pos, prefix, src, radio, obstacles, id)
  }

  /**
   With such a radio, the candidates that hear the frame are all nodes that hear it: the
   recipients chosen through the grid are those of a scan of all positions.
   */
  lemma GridEqualsScan(pos: Positions, prefix: string, src: string, known: seq<string>, radio: Radio,
                       obstacles: seq<ObstacleBox>, id: string)
    requires (prefix, src) in pos && CutOff(radio) && NonNegative(obstacles)
    ensures GridPicks(pos, prefix, src, known, radio, obstacles, id) <==> ScanPicks(pos, prefix, src, radio, obstacles, id)
  {
    hide Near, DistSq, Attenuation;
    if (prefix, id) in pos {
      var s, r := pos[(prefix, src)], pos[(prefix, id)];
      AttenuationNonNegative(s, r, obstacles);
      if Hears(radio, obstacles, s, r) {
        assert DistSq(s, r) <= Sq(CELL_SIZE);
        WithinCellSizeIsNear(s, r);
      }
    }
  }

  ghost predicate NonDecreasing(loss: real -> real) {
    forall d, e :: d <= e ==> loss(d) <= loss(e)
  }

  /** Wherever two nodes are, if the frame is heard the grid finds the receiver. */
  ghost predicate NeverMisses(radio: Radio) {
    forall a, b :: radio.power - radio.loss(DistSq(a, b)) >= radio.sensitivity ==> Near(a, b)
  }

  /** A pair just over 500 m apart, but two cells apart. */
  lemma FarPair(excess: real) returns (a: Point, b: Point)
    requires 0.0 < excess <= 1.0
    ensures DistSq(a, b) == Sq(CELL_SIZE + excess) && !Near(a, b)
  {
    a := Point(CELL_SIZE - excess, 0.0, 0.0);
    b := Point(2.0 * CELL_SIZE, 0.0, 0.0);
    assert (a.x / CELL_SIZE).Floor == 0;
    assert (b.x / CELL_SIZE).Floor == 2;
  }

  /** For a loss that never decreases with distance, the cut-off is exactly what the grid needs. */
  lemma NeverMissesIffCutOff(radio: Radio)
    requires NonDecreasing(radio.loss)
    ensures NeverMisses(radio) <==> CutOff(radio)
  {
    if CutOff(radio) {
      forall a, b | radio.power - radio.loss(DistSq(a, b)) >= radio.sensitivity ensures Near(a, b) {
        WithinCellSizeIsNear(a, b);
      }
    }
    if NeverMisses(radio) {
      forall d | d > Sq(CELL_SIZE) ensures radio.power - radio.loss(d) < radio.sensitivity {
        var slack := d - Sq(CELL_SIZE);
        var excess := if slack > 1001.0 then 1.0 else slack / 1001.0;
        assert 0.0 < excess <= 1.0 && 1001.0 * excess <= slack;
        assert Sq(CELL_SIZE + excess) == Sq(CELL_SIZE) + 1000.0 * excess + excess * excess;
        assert excess * excess <= excess;
        var a, b := FarPair(excess);
        assert radio.loss(DistSq(a, b)) <= radio.loss(d);
      }
    }
  }

  /** For all positions and obstacles, the grid search picks the recipients a scan would pick. */
  ghost predicate GridAgrees(radio: Radio) {
    forall pos, prefix, src, known, obstacles, id :: (prefix, src) in pos && NonNegative(obstacles) ==>
      (GridPicks(pos, prefix, src, known, radio, obstacles, id) <==> ScanPicks(pos, prefix, src, radio, obstacles, id))
  }

  /** Two nodes in cells that are not neighbours: if the frame is heard, only the scan finds the receiver. */
  lemma FarNodeMissed(radio: Radio, a: Point, b: Point)
    requires !Near(a, b) && radio.power - radio.loss(DistSq(a, b)) >= radio.sensitivity
    ensures var pos: Positions := map[("", "a") := a, ("", "b") := b];
            ScanPicks(pos, "", "a", radio, [], "b") && !GridPicks(pos, "", "a", [], radio, [], "b")
  {
    var pos: Positions := map[("", "a") := a, ("", "b") := b];
    assert "a"[0] != "b"[0];
    assert pos[("", "a")] == a && pos[("", "b")] == b;
    assert Attenuation(a, b, []) == 0.0;
  }

  /** The grid picks the right recipients from all positions exactly if nothing is audible beyond 500 m. */
  lemma GridAgreesIffCutOff(radio: Radio)
    requires NonDecreasing(radio.loss)
    ensures GridAgrees(radio) <==> CutOff(radio)
  {
    hide GridPicks, ScanPicks, CutOff, Near, DistSq;
    if CutOff(radio) {
      forall pos, prefix, src, known, obstacles, id | (prefix, src) in pos && NonNegative(obstacles)
        ensures GridPicks(pos, prefix, src, known, radio, obstacles, id) <==>
                ScanPicks(pos, prefix, src, radio, obstacles, id)
      {
        GridEqualsScan(pos, prefix, src, known, radio, obstacles, id);
      }
    } else {
      NeverMissesIffCutOff(radio);
      var a, b :| radio.power - radio.loss(DistSq(a, b)) >= radio.sensitivity && !Near(a, b);
      FarNodeMissed(radio, a, b);
      var pos: Positions := map[("", "a") := a, ("", "b") := b];
      assert ("", "a") in pos && NonNegative([]);
    }
  }

  lemma FarApart()
    ensures var a, b := Point(0.0, 0.0, 0.0), Point(1500.0, 0.0, 0.0); !Near(a, b) && DistSq(a, b) == Sq(1500.0)
  {
    assert CellOf(Point(0.0, 0.0, 0.0)).x == 0 && CellOf(Point(1500.0, 0.0, 0.0)).x == 3;
  }

  /** A receiver 1500 m away that is strong enough to hear the frame is not among the recipients. */
  lemma MissedExample(radio: Radio)
    requires radio.power - radio.loss(Sq(1500.0)) >= radio.sensitivity
    ensures var pos: Positions := map[("", "a") := Point(0.0, 0.0, 0.0), ("", "b") := Point(1500.0, 0.0, 0.0)];
            ScanPicks(pos, "", "a", radio, [], "b") && !GridPicks(pos, "", "a", [], radio, [], "b")
  {
    hide *;
    FarApart();
    FarNodeMissed(radio, Point(0.0, 0.0, 0.0), Point(1500.0, 0.0, 0.0));
  }

  // ----- Which boxes attenuate, on the geometry -----

  ghost function InTheWay(a: Point, b: Point): (r: ObstacleBox -> bool) {
    (box: ObstacleBox) => Touches(a, b, box)
  }

  ghost function TotalLoss(boxes: seq<ObstacleBox>): (r: real) {
    if boxes == [] then 0.0 else TotalLoss(boxes[..|boxes| - 1]) + boxes[|boxes| - 1].attenuation
  }

  ghost predicate AllWellFormed(obstacles: seq<ObstacleBox>) {
    forall i :: 0 <= i < |obstacles| ==> WellFormed(obstacles[i])
  }

  /** Without a sliver, freezing changes nothing. */
  lemma NothingToFreeze(a: Point, b: Point)
    requires NoSliver(a, b)
    ensures Frozen(a, b) == b
  {}

  lemma TotalLossSnoc(boxes: seq<ObstacleBox>, box: ObstacleBox)
    ensures TotalLoss(boxes + [box]) == TotalLoss(boxes) + box.attenuation
  {}

  /**
   The attenuation between two points is the sum over the boxes the segment touches, the segment
   taken with its slivers frozen.
   */
  lemma {:induction false} AttenuationByGeometry(a: Point, b: Point, obstacles: seq<ObstacleBox>)
    requires AllWellFormed(obstacles)
    ensures Attenuation(a, b, obstacles) == TotalLoss(Filter(InTheWay(a, Frozen(a, b)), obstacles))
  {
    if obstacles != [] {
      hide Hit, Touches, WellFormed, TotalLoss, Frozen;
      var n := |obstacles| - 1;
      AttenuationByGeometry(a, b, obstacles[..n]);
      TestFreezesSlivers(a, b, obstacles[n]);
      TotalLossSnoc(Filter(InTheWay(a, Frozen(a, b)), obstacles[..n]), obstacles[n]);
    }
  }

  lemma {:induction false} AttenuationConcat(a: Point, b: Point, x: seq<ObstacleBox>, y: seq<ObstacleBox>)
    ensures Attenuation(a, b, x + y) == Attenuation(a, b, x) + Attenuation(a, b, y)
  {
    if y == [] {
      assert x + y == x;
    } else {
      hide Hit;
      var n := |y| - 1;
      AttenuationConcat(a, b, x, y[..n]);
      assert (x + y)[..|x + y| - 1] == x + y[..n];
    }
  }

  /** One more box, wherever it stands in the list, adds its attenuation exactly if it is touched. */
  lemma OneMoreBox(a: Point, b: Point, pre: seq<ObstacleBox>, box: ObstacleBox, post: seq<ObstacleBox>)
    requires WellFormed(box) && NoSliver(a, b)
    ensures Attenuation(a, b, pre + [box] + post) ==
            Attenuation(a, b, pre + post) + if Touches(a, b, box) then box.attenuation else 0.0
  {
    hide Hit, Touches, NoSliver;
    AttenuationConcat(a, b, pre + [box], post);
    AttenuationConcat(a, b, pre, [box]);
    AttenuationConcat(a, b, pre, post);
    TestIsExact(a, b, box);
    assert Attenuation(a, b, []) == 0.0;
  }

  /**
   A positioned node is picked exactly if it is searched and the power, less the path loss and
   less the attenuations of the boxes between, reaches the sensitivity.
   */
  lemma PickedByGeometry(pos: Positions, prefix: string, src: string, known: seq<string>, radio: Radio,
                         obstacles: seq<ObstacleBox>, id: string)
    requires (prefix, src) in pos && (prefix, id) in pos && AllWellFormed(obstacles)
    ensures var s, r := pos[(prefix, src)], pos[(prefix, id)];
            && (GridPicks(pos, prefix, src, known, radio, obstacles, id) <==>
                && id != src && Near(s, r)
                && radio.power - radio.loss(DistSq(s, r)) - TotalLoss(Filter(InTheWay(s, Frozen(s, r)), obstacles))
                   >= radio.sensitivity)
            && (NoSliver(s, r) ==> Frozen(s, r) == r)
  {
    hide Near, DistSq, Attenuation, TotalLoss, Filter, NoSliver, Frozen, AllWellFormed;
    var s, r := pos[(prefix, src)], pos[(prefix, id)];
    AttenuationByGeometry(s, r, obstacles);
    if NoSliver(s, r) { NothingToFreeze(s, r); }
  }

  /** A sender without a position reaches every other known node if its power suffices by itself. */
  lemma PickedBlind(pos: Positions, prefix: string, src: string, known: seq<string>, radio: Radio,
                    obstacles: seq<ObstacleBox>, id: string)
    requires (prefix, src) !in pos
    ensures GridPicks(pos, prefix, src, known, radio, obstacles, id) <==>
            id in known && id != src && radio.power >= radio.sensitivity
  {}

  lemma SingleBox(a: Point, b: Point, box: ObstacleBox)
    requires WellFormed(box) && NoSliver(a, b)
    ensures Attenuation(a, b, [box]) == if Touches(a, b, box) then box.attenuation else 0.0
  {
    hide Hit, Touches;
    TestIsExact(a, b, box);
  }

  /** Two nodes in neighbouring cells and one box. */
  lemma PickedOverBox(radio: Radio, a: Point, b: Point, box: ObstacleBox)
    requires Near(a, b) && WellFormed(box) && NoSliver(a, b)
    ensures var pos: Positions := map[("", "a") := a, ("", "b") := b];
            GridPicks(pos, "", "a", [], radio, [box], "b") <==>
            radio.power - radio.loss(DistSq(a, b)) - (if Touches(a, b, box) then box.attenuation else 0.0)
              >= radio.sensitivity
  {
    hide Touches, Attenuation, Near, DistSq;
    var pos: Positions := map[("", "a") := a, ("", "b") := b];
    assert "a"[0] != "b"[0];
    assert pos[("", "a")] == a && pos[("", "b")] == b;
    SingleBox(a, b, box);
  }

  const NODE_A := Point(0.0, 0.0, 0.0)
  const NODE_B := Point(100.0, 0.0, 0.0)
  const ACROSS := ObstacleBox(Point(40.0, -10.0, -10.0), Point(60.0, 10.0, 10.0), 100.0)
  const BESIDE := ObstacleBox(Point(40.0, 20.0, -10.0), Point(60.0, 40.0, 10.0), 100.0)

  lemma AcrossIsTouched()
    ensures Touches(NODE_A, NODE_B, ACROSS)
  {
    assert At(NODE_A, NODE_B, 0.5).x == 50.0;
    assert Inside(ACROSS, At(NODE_A, NODE_B, 0.5));
  }

  lemma BesideIsNotTouched()
    ensures !Touches(NODE_A, NODE_B, BESIDE)
  {
    forall p ensures !Inside(BESIDE, At(NODE_A, NODE_B, p)) {
      assert p * 0.0 == 0.0;
      assert At(NODE_A, NODE_B, p).y == 0.0;
    }
  }

  lemma ExampleGeometry()
    ensures Near(NODE_A, NODE_B) && NoSliver(NODE_A, NODE_B) && WellFormed(ACROSS) && WellFormed(BESIDE)
  {
    assert CellOf(NODE_A) == Cell(0, 0, 0) == CellOf(NODE_B);
  }

  /** A wall across the segment silences a node 100 m away; the same wall to the side does not. */
  lemma WallExample(radio: Radio)
    requires 0.0 <= radio.power - radio.loss(DistSq(NODE_A, NODE_B)) - radio.sensitivity < 100.0
    ensures var pos: Positions := map[("", "a") := NODE_A, ("", "b") := NODE_B];
            && !GridPicks(pos, "", "a", [], radio, [ACROSS], "b")
            && GridPicks(pos, "", "a", [], radio, [BESIDE], "b")
  {
    hide GridPicks, Touches, Near, NoSliver, WellFormed, DistSq;
    ExampleGeometry();
    AcrossIsTouched();
    BesideIsNotTouched();
    PickedOverBox(radio, NODE_A, NODE_B, ACROSS);
    PickedOverBox(radio, NODE_A, NODE_B, BESIDE);
  }
}
