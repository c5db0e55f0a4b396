/**
 Does the straight line between two radios pass through an obstacle?  The slab test narrows
 the admissible parameters of the segment one axis at a time.
 */
module Obstacles {

  /** Below this a coordinate difference counts as no difference. */
  const EPSILON: real := 1.0 / 4503599627370496.0

  datatype Point = Point(x: real, y: real, z: real)

  function Sq(x: real): (r: real) { x * x }

  function DistSq(a: Point, b: Point): (r: real) {
    Sq(a.x - b.x) + Sq(a.y - b.y) + Sq(a.z - b.z)
  }

  datatype ObstacleBox = ObstacleBox(min: Point, max: Point, attenuation: real)

  /** One axis of the test: the slab, the step along the segment, and where the segment starts. */
  datatype Axis = Axis(low: real, high: real, delta: real, origin: real)

  function Axes(o: Point, t: Point, box: ObstacleBox): (r: seq<Axis>) {
    [ Axis(box.min.x, box.max.x, t.x - o.x, o.x),
      Axis(box.min.y, box.max.y, t.y - o.y, o.y),
      Axis(box.min.z, box.max.z, t.z - o.z, o.z) ]
  }

  function Min(a: real, b: real): (r: real) { if a < b then a else b }
  function Max(a: real, b: real): (r: real) { if a < b then b else a }

  predicate Flat(axis: Axis) {
    -EPSILON < axis.delta < EPSILON
  }

  /** What the test asks of parameter `p` on one axis; a flat axis ignores the parameter. */
  ghost predicate Admits(axis: Axis, p: real) {
    if Flat(axis) then axis.low <= axis.origin <= axis.high
    else Min(axis.low, axis.high) <= axis.origin + p * axis.delta <= Max(axis.low, axis.high)
  }

  ghost predicate AdmitsAll(axes: seq<Axis>, p: real) {
    0.0 <= p <= 1.0 && forall k :: 0 <= k < |axes| ==> Admits(axes[k], p)
  }

  /** The answer of the test. */
  ghost predicate Hit(o: Point, t: Point, box: ObstacleBox) {
    exists p :: AdmitsAll(Axes(o, t, box), p)
  }

  lemma DivideCompare(a: real, d: real, p: real)
    requires d != 0.0
    ensures d > 0.0 ==> (a / d <= p <==> a <= p * d)
    ensures d > 0.0 ==> (p <= a / d <==> p * d <= a)
    ensures d < 0.0 ==> (a / d <= p <==> p * d <= a)
    ensures d < 0.0 ==> (p <= a / d <==> a <= p * d)
  {}

  /** The parameters one slanted axis admits are exactly an interval. */
  lemma SlabInterval(axis: Axis, p: real)
    requires axis.delta != 0.0
    ensures var t1, t2 := (axis.low - axis.origin) / axis.delta, (axis.high - axis.origin) / axis.delta;
            Min(t1, t2) <= p <= Max(t1, t2) <==>
            Min(axis.low, axis.high) <= axis.origin + p * axis.delta <= Max(axis.low, axis.high)
  {
    DivideCompare(axis.low - axis.origin, axis.delta, p);
    DivideCompare(axis.high - axis.origin, axis.delta, p);
    var t1, t2 := (axis.low - axis.origin) / axis.delta, (axis.high - axis.origin) / axis.delta;
    DivideCompare(axis.low - axis.origin, axis.delta, t2);
    assert t2 * axis.delta == axis.high - axis.origin;
  }

  lemma AdmitsNext(axes: seq<Axis>, i: nat, p: real)
    requires i < |axes|
    ensures AdmitsAll(axes[..i + 1], p) <==> AdmitsAll(axes[..i], p) && Admits(axes[i], p)
  {}

  /** The parameters admitted by these axes are exactly the interval `[lo, hi]`. */
  ghost predicate Exactly(axes: seq<Axis>, lo: real, hi: real) {
    forall p :: lo <= p <= hi <==> AdmitsAll(axes, p)
  }

  lemma FlatStep(axes: seq<Axis>, i: nat, lo: real, hi: real)
    requires i < |axes| && Exactly(axes[..i], lo, hi) && Flat(axes[i])
    requires axes[i].low <= axes[i].origin <= axes[i].high
    ensures Exactly(axes[..i + 1], lo, hi)
  {
    var next := axes[..i + 1];
    forall p ensures lo <= p <= hi <==> AdmitsAll(next, p) {
      AdmitsNext(axes, i, p);
    }
  }

  lemma SlabStep(axes: seq<Axis>, i: nat, lo: real, hi: real)
    requires i < |axes| && Exactly(axes[..i], lo, hi) && !Flat(axes[i])
    ensures var axis := axes[i];
            var t1, t2 := (axis.low - axis.origin) / axis.delta, (axis.high - axis.origin) / axis.delta;
            Exactly(axes[..i + 1], Max(lo, Min(t1, t2)), Min(hi, Max(t1, t2)))
  {
    hide AdmitsAll, Admits;
    var next := axes[..i + 1];
    var axis := axes[i];
    var t1, t2 := (axis.low - axis.origin) / axis.delta, (axis.high - axis.origin) / axis.delta;
    forall p ensures Max(lo, Min(t1, t2)) <= p <= Min(hi, Max(t1, t2)) <==> AdmitsAll(next, p) {
      SlabAdmits(axis, p);
      AdmitsNext(axes, i, p);
      MeetOfIntervals(lo, hi, Min(t1, t2), Max(t1, t2), p);
    }
  }

  lemma SlabAdmits(axis: Axis, p: real)
    requires !Flat(axis)
    ensures var t1, t2 := (axis.low - axis.origin) / axis.delta, (axis.high - axis.origin) / axis.delta;
            Min(t1, t2) <= p <= Max(t1, t2) <==> Admits(axis, p)
  {
    SlabInterval(axis, p);
  }

  lemma MeetOfIntervals(lo: real, hi: real, lo': real, hi': real, p: real)
    ensures Max(lo, lo') <= p <= Min(hi, hi') <==> lo <= p <= hi && lo' <= p <= hi'
  {}

  /** The test, for every segment and every box, well-formed or not. */
  method RayIntersectsAabb(o: Point, t: Point, box: ObstacleBox) returns (hit: bool)
    ensures hit <==> Hit(o, t, box)
  {
    hide AdmitsAll, Axes;
    var axes := Axes(o, t, box);
    var tMin, tMax := 0.0, 1.0;
    Unrestricted();
    assert axes[..0] == [];
    for i := 0 to |axes|
      invariant tMin <= tMax
      invariant Exactly(axes[..i], tMin, tMax)
    {
      var axis := axes[i];
      if Flat(axis) {
        if axis.origin < axis.low || axis.origin > axis.high {
          NoneBeyond(axes, i);
          return false;
        }
        FlatStep(axes, i, tMin, tMax);
      } else {
        var t1, t2 := (axis.low - axis.origin) / axis.delta, (axis.high - axis.origin) / axis.delta;
        SlabStep(axes, i, tMin, tMax);
        tMin := Max(tMin, Min(t1, t2));
        tMax := Min(tMax, Max(t1, t2));
        if tMin > tMax {
          NoneLater(axes, i + 1, tMin, tMax);
          return false;
        }
      }
    }
    assert axes[..|axes|] == axes;
    assert AdmitsAll(axes, tMin);
    return tMin <= tMax;
  }

  lemma Unrestricted()
    ensures Exactly([], 0.0, 1.0)
  {}

  lemma NoneLater(axes: seq<Axis>, i: nat, lo: real, hi: real)
    requires i <= |axes| && Exactly(axes[..i], lo, hi) && lo > hi
    ensures !exists p :: AdmitsAll(axes, p)
  {
    forall p | AdmitsAll(axes, p) ensures AdmitsAll(axes[..i], p) {
      forall k | 0 <= k < i ensures Admits(axes[..i][k], p) { assert axes[..i][k] == axes[k]; }
    }
  }

  lemma NoneBeyond(axes: seq<Axis>, i: nat)
    requires i < |axes| && forall p :: !Admits(axes[i], p)
    ensures !exists p :: AdmitsAll(axes, p)
  {
    forall p | AdmitsAll(axes, p) ensures Admits(axes[i], p) {}
  }

  // ----- Geometry -----

  function At(o: Point, t: Point, p: real): (r: Point) {
    Point(o.x + p * (t.x - o.x), o.y + p * (t.y - o.y), o.z + p * (t.z - o.z))
  }

  ghost predicate Inside(box: ObstacleBox, q: Point) {
    box.min.x <= q.x <= box.max.x && box.min.y <= q.y <= box.max.y && box.min.z <= q.z <= box.max.z
  }

  ghost predicate WellFormed(box: ObstacleBox) {
    box.min.x <= box.max.x && box.min.y <= box.max.y && box.min.z <= box.max.z
  }

  /** Some point of the closed segment lies in the box. */
  ghost predicate Touches(o: Point, t: Point, box: ObstacleBox) {
    exists p :: 0.0 <= p <= 1.0 && Inside(box, At(o, t, p))
  }

  /** No coordinate differs by less than 2^-52 without being equal. */
  ghost predicate NoSliver(o: Point, t: Point) {
    Clear(t.x - o.x) && Clear(t.y - o.y) && Clear(t.z - o.z)
  }

  ghost predicate Clear(d: real) {
    d == 0.0 || d * 4503599627370496.0 >= 1.0 || d * 4503599627370496.0 <= -1.0
  }

  /** The coordinate at parameter `p` lies in the slab. */
  ghost predicate Spans(axis: Axis, p: real) {
    axis.low <= axis.origin + p * axis.delta <= axis.high
  }

  lemma AdmitsAxis(axis: Axis, p: real)
    requires axis.low <= axis.high && Clear(axis.delta)
    ensures Admits(axis, p) <==> Spans(axis, p)
  {}

  lemma SpansAxis(low: real, high: real, a: real, b: real, p: real)
    ensures Spans(Axis(low, high, b - a, a), p) <==> low <= a + p * (b - a) <= high
  {}

  lemma SpansInside(o: Point, t: Point, box: ObstacleBox, p: real)
    ensures var a := Axes(o, t, box); Spans(a[0], p) && Spans(a[1], p) && Spans(a[2], p) <==> Inside(box, At(o, t, p))
  {
    hide Spans;
    SpansAxis(box.min.x, box.max.x, o.x, t.x, p);
    SpansAxis(box.min.y, box.max.y, o.y, t.y, p);
    SpansAxis(box.min.z, box.max.z, o.z, t.z, p);
  }

  lemma AdmitsInside(o: Point, t: Point, box: ObstacleBox, p: real)
    requires WellFormed(box) && NoSliver(o, t) && 0.0 <= p <= 1.0
    ensures AdmitsAll(Axes(o, t, box), p) <==> Inside(box, At(o, t, p))
  {
    hide Spans, Admits, Inside, At;
    var a := Axes(o, t, box);
    SpansInside(o, t, box, p);
    forall k | 0 <= k < 3 ensures Admits(a[k], p) <==> Spans(a[k], p) {
      AdmitsAxis(a[k], p);
    }
    if AdmitsAll(a, p) {
      assert Admits(a[0], p) && Admits(a[1], p) && Admits(a[2], p);
    }
  }

  /** For well-formed boxes and no sliver, the test is exact. */
  lemma TestIsExact(o: Point, t: Point, box: ObstacleBox)
    requires WellFormed(box) && NoSliver(o, t)
    ensures Hit(o, t, box) <==> Touches(o, t, box)
  {
    forall p | 0.0 <= p <= 1.0 { AdmitsInside(o, t, box, p); }
    if Touches(o, t, box) {
      var p :| 0.0 <= p <= 1.0 && Inside(box, At(o, t, p));
      assert AdmitsAll(Axes(o, t, box), p);
    }
  }

  /** The box that consists of one point. */
  function Speck(q: Point): (r: ObstacleBox)
    ensures WellFormed(r)
  {
    ObstacleBox(q, q, 0.0)
  }

  /** On a segment with a sliver the test misses the segment's own end. */
  lemma SliverMissesEnd(o: Point, t: Point)
    requires !NoSliver(o, t)
    ensures !Hit(o, t, Speck(t))
  {
    var k := if !Clear(t.x - o.x) then 0 else if !Clear(t.y - o.y) then 1 else 2;
    NoneBeyond(Axes(o, t, Speck(t)), k);
  }

  /** The end is on the segment, and the test finds it when started there. */
  lemma EndIsFound(o: Point, t: Point)
    ensures Touches(o, t, Speck(t)) && Hit(t, o, Speck(t))
  {
    assert At(o, t, 1.0) == t;
    assert Inside(Speck(t), At(o, t, 1.0));
    var axes := Axes(t, o, Speck(t));
    forall k | 0 <= k < |axes| ensures Admits(axes[k], 0.0) {
      assert 0.0 * axes[k].delta == 0.0;
    }
    assert AdmitsAll(axes, 0.0);
  }

  /** The test decides every well-formed box correctly if and only if the segment has no sliver. */
  lemma ExactIffNoSliver(o: Point, t: Point)
    ensures (forall box :: WellFormed(box) ==> (Hit(o, t, box) <==> Touches(o, t, box))) <==> NoSliver(o, t)
  {
    hide Hit, Touches, NoSliver, WellFormed;
    if NoSliver(o, t) {
      forall box | WellFormed(box) { TestIsExact(o, t, box); }
    } else {
      SliverMissesEnd(o, t);
      EndIsFound(o, t);
      assert WellFormed(Speck(t));
    }
  }

  /** Walking the segment backwards. */
  lemma TouchesBackwards(o: Point, t: Point, box: ObstacleBox)
    requires Touches(o, t, box)
    ensures Touches(t, o, box)
  {
    var p :| 0.0 <= p <= 1.0 && Inside(box, At(o, t, p));
    assert At(o, t, p) == At(t, o, 1.0 - p);
    assert Inside(box, At(t, o, 1.0 - p));
  }

  /** And it does not matter which end the segment is walked from. */
  lemma TestIsSymmetric(o: Point, t: Point, box: ObstacleBox)
    requires WellFormed(box) && NoSliver(o, t)
    ensures Hit(o, t, box) <==> Hit(t, o, box)
  {
    hide Hit, Touches;
    TestIsExact(o, t, box);
    TestIsExact(t, o, box);
    if Touches(o, t, box) { TouchesBackwards(o, t, box); }
    if Touches(t, o, box) { TouchesBackwards(t, o, box); }
  }

  /** The test gives the same answer in both directions for every well-formed box if and only if there is no sliver. */
  lemma SymmetricIffNoSliver(o: Point, t: Point)
    ensures (forall box :: WellFormed(box) ==> (Hit(o, t, box) <==> Hit(t, o, box))) <==> NoSliver(o, t)
  {
    hide Hit, Touches, NoSliver, WellFormed;
    if NoSliver(o, t) {
      forall box | WellFormed(box) { TestIsSymmetric(o, t, box); }
    } else {
      SliverMissesEnd(o, t);
      EndIsFound(o, t);
      assert WellFormed(Speck(t));
    }
  }

  // ----- What the test computes on slivers -----

  /** The segment with every sliver coordinate frozen at its start: what the test really walks. */
  function Frozen(o: Point, t: Point): (r: Point)
    ensures NoSliver(o, r)
  {
    Point(Freeze(o.x, t.x), Freeze(o.y, t.y), Freeze(o.z, t.z))
  }

  function Freeze(a: real, b: real): (r: real) {
    if -EPSILON < b - a < EPSILON then a else b
  }

  /** For every segment and well-formed box, the answer is that of the frozen segment. */
  lemma TestFreezesSlivers(o: Point, t: Point, box: ObstacleBox)
    requires WellFormed(box)
    ensures Hit(o, t, box) <==> Touches(o, Frozen(o, t), box)
  {
    TestIsExact(o, Frozen(o, t), box);
    var a, b := Axes(o, t, box), Axes(o, Frozen(o, t), box);
    forall p ensures AdmitsAll(a, p) <==> AdmitsAll(b, p) {
      forall k | 0 <= k < 3 ensures Admits(a[k], p) <==> Admits(b[k], p) {}
    }
  }

  /** With a sliver the test can miss a box the segment touches, and depend on the direction. */
  lemma SliverExample()
    ensures var o, t := Point(0.0, 0.0, 0.0), Point(EPSILON / 2.0, 0.0, 0.0);
            var box := ObstacleBox(Point(EPSILON / 2.0, 0.0, 0.0), Point(1.0, 0.0, 0.0), 20.0);
            WellFormed(box) && Touches(o, t, box) && !Hit(o, t, box) && Hit(t, o, box)
  {
    var o, t := Point(0.0, 0.0, 0.0), Point(EPSILON / 2.0, 0.0, 0.0);
    var box := ObstacleBox(Point(EPSILON / 2.0, 0.0, 0.0), Point(1.0, 0.0, 0.0), 20.0);
    assert Inside(box, At(o, t, 1.0));
    NoneBeyond(Axes(o, t, box), 0);
    var back := Axes(t, o, box);
    assert Admits(back[0], 0.0) && Admits(back[1], 0.0) && Admits(back[2], 0.0);
    assert AdmitsAll(back, 0.0);
  }
}
