/**
 Replaying recorded sensor data: the reading at a virtual time is interpolated between the
 two samples around it, and held constant before the first and after the last.
 */
module Resd {

  datatype Sample = Sample(timestamp: nat, data: seq<int>)

  function Held(s: Sample): (r: seq<real>) {
    seq(|s.data|, k requires 0 <= k < |s.data| => s.data[k] as real)
  }

  function MinLength(a: seq<int>, b: seq<int>): (r: nat) {
    if |a| < |b| then |a| else |b|
  }

  /** The value on the line through `(t0, v0)` and `(t1, v1)` at time `t`. */
  function Interpolate(t0: nat, t1: nat, t: nat, v0: int, v1: int): (r: real)
    requires t0 < t1
  {
    var factor := (t as real - t0 as real) / (t1 as real - t0 as real);
    v0 as real + factor * (v1 as real - v0 as real)
  }

  /** Where the search stops: every later sample passed is due, and the next one is not. */
  ghost predicate StopsAt(samples: seq<Sample>, t: nat, i: nat) {
    && i < |samples|
    && (forall k :: 0 < k <= i ==> samples[k].timestamp <= t)
    && (i + 1 < |samples| ==> samples[i + 1].timestamp > t)
  }

  lemma StopsOnce(samples: seq<Sample>, t: nat, i: nat, j: nat)
    requires StopsAt(samples, t, i) && StopsAt(samples, t, j)
    ensures i == j
  {}

  ghost predicate Holds(samples: seq<Sample>, t: nat, i: nat)
    requires i < |samples|
  {
    i + 1 == |samples| || t < samples[i].timestamp
  }

  ghost predicate IsReading(samples: seq<Sample>, t: nat, i: nat, out: seq<real>)
    requires StopsAt(samples, t, i)
  {
    if Holds(samples, t, i) then out == Held(samples[i])
    else
      var s0, s1 := samples[i], samples[i + 1];
      && s0.timestamp <= t < s1.timestamp
      && |out| == MinLength(s0.data, s1.data)
      && forall k :: 0 <= k < |out| ==>
           out[k] == Interpolate(s0.timestamp, s1.timestamp, t, s0.data[k], s1.data[k])
  }

  /** For every list of samples, sorted or not, and every time; no division by zero. */
  method GetReading(samples: seq<Sample>, t: nat) returns (out: seq<real>)
    ensures samples == [] ==> out == [0.0]
    ensures samples != [] ==> exists i :: StopsAt(samples, t, i) && IsReading(samples, t, i, out)
  {
    if samples == [] {
      return [0.0];
    }
    var i := 0;
    while i + 1 < |samples| && samples[i + 1].timestamp <= t
      invariant i < |samples|
      invariant forall k :: 0 < k <= i ==> samples[k].timestamp <= t
    {
      i := i + 1;
    }
    assert StopsAt(samples, t, i);
    if i + 1 >= |samples| || t < samples[i].timestamp {
      out := Held(samples[i]);
    } else {
      var s0, s1 := samples[i], samples[i + 1];
      out := [];
      while |out| < |s0.data| && |out| < |s1.data|
        invariant |out| <= MinLength(s0.data, s1.data)
        invariant forall k :: 0 <= k < |out| ==>
                    out[k] == Interpolate(s0.timestamp, s1.timestamp, t, s0.data[k], s1.data[k])
        decreases |s0.data| - |out|
      {
        var k := |out|;
        out := out + [Interpolate(s0.timestamp, s1.timestamp, t, s0.data[k], s1.data[k])];
      }
    }
    assert IsReading(samples, t, i, out);
  }

  lemma FactorInUnit(t0: nat, t1: nat, t: nat)
    requires t0 <= t < t1
    ensures 0.0 <= (t as real - t0 as real) / (t1 as real - t0 as real) < 1.0
  {
    var a, b := t as real - t0 as real, t1 as real - t0 as real;
    var f := a / b;
    assert f * b == a && 0.0 <= a < b;
    assert (1.0 - f) * b == b - a;
    PositiveFactor(1.0 - f, b);
  }

  lemma PositiveFactor(x: real, y: real)
    requires x * y > 0.0 && y > 0.0
    ensures x > 0.0
  {}

  lemma ScaleBetween(f: real, d: real)
    requires 0.0 <= f <= 1.0
    ensures d >= 0.0 ==> 0.0 <= f * d <= d
    ensures d <= 0.0 ==> d <= f * d <= 0.0
  {}

  lemma Reorder(f: real, d: real, span: real)
    ensures (f * d) * span == (f * span) * d
  {}

  /** An interpolated value lies between its two ends, on the line through them, and meets the first end exactly. */
  lemma InterpolateOnLine(t0: nat, t1: nat, t: nat, v0: int, v1: int)
    requires t0 <= t < t1
    ensures var v := Interpolate(t0, t1, t, v0, v1);
            && (v0 <= v1 ==> v0 as real <= v <= v1 as real)
            && (v1 <= v0 ==> v1 as real <= v <= v0 as real)
            && (v - v0 as real) * (t1 as real - t0 as real) == (t as real - t0 as real) * (v1 as real - v0 as real)
            && (t == t0 ==> v == v0 as real)
  {
    var span := t1 as real - t0 as real;
    var f := (t as real - t0 as real) / span;
    var d := v1 as real - v0 as real;
    FactorInUnit(t0, t1, t);
    ScaleBetween(f, d);
    assert f * span == t as real - t0 as real;
    Reorder(f, d, span);
    var p := f * d;
    assert Interpolate(t0, t1, t, v0, v1) == v0 as real + p;
    assert t == t0 ==> f == 0.0;
    assert f == 0.0 ==> p == 0.0;
  }

  /** Every interpolated component lies between the two samples around the time, whatever the list. */
  lemma ReadingBetween(samples: seq<Sample>, t: nat, i: nat, out: seq<real>, k: nat)
    requires StopsAt(samples, t, i) && IsReading(samples, t, i, out) && !Holds(samples, t, i) && k < |out|
    ensures var a, b := samples[i].data[k], samples[i + 1].data[k];
            (a <= b ==> a as real <= out[k] <= b as real) && (b <= a ==> b as real <= out[k] <= a as real)
  {
    InterpolateOnLine(samples[i].timestamp, samples[i + 1].timestamp, t, samples[i].data[k], samples[i + 1].data[k]);
  }

  ghost predicate Ascending(samples: seq<Sample>) {
    forall i, j :: 0 <= i < j < |samples| ==> samples[i].timestamp < samples[j].timestamp
  }

  /** With ascending timestamps the reading is constant outside the recording. */
  lemma ConstantOutside(samples: seq<Sample>, t: nat, i: nat, out: seq<real>)
    requires Ascending(samples) && StopsAt(samples, t, i) && IsReading(samples, t, i, out)
    ensures t < samples[0].timestamp ==> out == Held(samples[0])
    ensures t >= samples[|samples| - 1].timestamp ==> out == Held(samples[|samples| - 1])
  {}

  lemma StopsBetween(samples: seq<Sample>, t: nat, j: nat)
    requires Ascending(samples) && j + 1 < |samples| && samples[j].timestamp <= t < samples[j + 1].timestamp
    ensures StopsAt(samples, t, j)
  {
    forall m | 0 < m <= j ensures samples[m].timestamp <= t {
      assert m < j ==> samples[m].timestamp < samples[j].timestamp;
    }
  }

  /** ... linear between neighbouring samples ... */
  lemma LinearBetween(samples: seq<Sample>, t: nat, i: nat, out: seq<real>, j: nat, k: nat)
    requires Ascending(samples) && StopsAt(samples, t, i) && IsReading(samples, t, i, out)
    requires j + 1 < |samples| && samples[j].timestamp <= t < samples[j + 1].timestamp
    requires k < |samples[j].data| && k < |samples[j + 1].data|
    ensures k < |out|
    ensures var t0, t1 := samples[j].timestamp as real, samples[j + 1].timestamp as real;
            var v0, v1 := samples[j].data[k] as real, samples[j + 1].data[k] as real;
            (out[k] - v0) * (t1 - t0) == (t as real - t0) * (v1 - v0)
  {
    StopsBetween(samples, t, j);
    StopsOnce(samples, t, i, j);
    InterpolateOnLine(samples[j].timestamp, samples[j + 1].timestamp, t, samples[j].data[k], samples[j + 1].data[k]);
  }

  /** ... and exact at every sample, for the components the next sample also has. */
  lemma ExactAtSamples(samples: seq<Sample>, i: nat, out: seq<real>, j: nat, k: nat)
    requires Ascending(samples) && j < |samples|
    requires StopsAt(samples, samples[j].timestamp, i) && IsReading(samples, samples[j].timestamp, i, out)
    requires k < |samples[j].data| && (j + 1 < |samples| ==> k < |samples[j + 1].data|)
    ensures k < |out| && out[k] == samples[j].data[k] as real
  {
    var t := samples[j].timestamp;
    if j + 1 == |samples| {
      ConstantOutside(samples, t, i, out);
    } else {
      LinearBetween(samples, t, i, out, j, k);
      StopsBetween(samples, t, j);
      StopsOnce(samples, t, i, j);
      InterpolateOnLine(t, samples[j + 1].timestamp, t, samples[j].data[k], samples[j + 1].data[k]);
    }
  }

  /** The whole sample is read back at its time exactly if the next sample is not shorter. */
  lemma WholeIffNotCutShort(samples: seq<Sample>, i: nat, out: seq<real>, j: nat)
    requires Ascending(samples) && j < |samples|
    requires StopsAt(samples, samples[j].timestamp, i) && IsReading(samples, samples[j].timestamp, i, out)
    ensures out == Held(samples[j]) <==> (j + 1 < |samples| ==> |samples[j].data| <= |samples[j + 1].data|)
  {
    var t := samples[j].timestamp;
    if j + 1 == |samples| {
      ConstantOutside(samples, t, i, out);
    } else {
      StopsBetween(samples, t, j);
      StopsOnce(samples, t, i, j);
      forall k | 0 <= k < |out| ensures out[k] == samples[j].data[k] as real {
        InterpolateOnLine(t, samples[j + 1].timestamp, t, samples[j].data[k], samples[j + 1].data[k]);
      }
    }
  }

  /** As the file reader fills a sensor: the sample type fixes the number of components. */
  ghost predicate SameWidth(samples: seq<Sample>) {
    forall i, j :: 0 <= i < j < |samples| ==> |samples[i].data| == |samples[j].data|
  }

  /** Such recordings are read back whole, component by component, at every sample's own time. */
  lemma RecordingsReadBack(samples: seq<Sample>, i: nat, out: seq<real>, j: nat)
    requires Ascending(samples) && SameWidth(samples) && j < |samples|
    requires StopsAt(samples, samples[j].timestamp, i) && IsReading(samples, samples[j].timestamp, i, out)
    ensures out == Held(samples[j])
  {
    WholeIffNotCutShort(samples, i, out, j);
  }

  /** Before a shorter sample, components are lost. */
  lemma CutShortExample(i: nat, out: seq<real>)
    requires var samples := [Sample(0, [1, 2, 3]), Sample(10, [4])];
             StopsAt(samples, 0, i) && IsReading(samples, 0, i, out)
    ensures out == [1.0]
  {
    var samples := [Sample(0, [1, 2, 3]), Sample(10, [4])];
    assert StopsAt(samples, 0, 0);
    StopsOnce(samples, 0, i, 0);
    InterpolateOnLine(0, 10, 0, 1, 4);
  }
}
