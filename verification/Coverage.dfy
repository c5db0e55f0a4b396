/**
 Counting executed bytes: basic blocks are sorted and merged, and a symbol's coverage is
 summed over the merged intervals found by binary search.
 */
module Coverage {
  import opened Collections
  import opened Integers
  import opened Ordering

  /** Half-open: `start` is in, `end` is not.  A block of size zero is empty. */
  datatype Interval = Interval(start: int, end: int)

  predicate IntervalLeq(a: Interval, b: Interval) {
    a.start < b.start || (a.start == b.start && a.end <= b.end)
  }

  predicate In(b: Interval, a: int) {
    b.start <= a < b.end
  }

  ghost predicate WellFormed(s: seq<Interval>) {
    forall i :: 0 <= i < |s| ==> s[i].start <= s[i].end
  }

  /** Some block covers address `a`. */
  ghost predicate Covers(s: seq<Interval>, a: int) {
    exists i :: 0 <= i < |s| && In(s[i], a)
  }

  ghost predicate SameUnion(s: seq<Interval>, t: seq<Interval>) {
    forall a :: Covers(s, a) <==> Covers(t, a)
  }

  /** In order, with at least one uncovered address between neighbours. */
  ghost predicate Separated(s: seq<Interval>) {
    forall i, j :: 0 <= i < j < |s| ==> s[i].end < s[j].start
  }

  /** The executed addresses of `[lo, hi)`; their number is what a report should show. */
  ghost function Executed(lo: int, hi: int, s: seq<Interval>): (r: set<int>) {
    set a | lo <= a < hi && Covers(s, a)
  }

  lemma CoversSnoc(s: seq<Interval>, b: Interval, a: int)
    ensures Covers(s + [b], a) <==> Covers(s, a) || In(b, a)
  {
    var t := s + [b];
    if Covers(s, a) {
      var i :| 0 <= i < |s| && In(s[i], a);
      assert In(t[i], a);
    }
    if In(b, a) {
      assert In(t[|s|], a);
    }
    if Covers(t, a) {
      var i :| 0 <= i < |t| && In(t[i], a);
      if i < |s| { assert In(s[i], a); }
    }
  }

  lemma CoversPermutes(s: seq<Interval>, t: seq<Interval>, a: int)
    requires multiset(s) == multiset(t) && Covers(s, a)
    ensures Covers(t, a)
  {
    var i :| 0 <= i < |s| && In(s[i], a);
    assert s[i] in multiset(t);
    var j :| 0 <= j < |t| && t[j] == s[i];
  }

  lemma SortedByStart(s: seq<Interval>)
    ensures var t := Sort(IntervalLeq, s);
            && (forall i, j :: 0 <= i < j < |t| ==>
                  t[i].start <= t[j].start && (t[i].start == t[j].start ==> t[i].end <= t[j].end))
            && SameUnion(s, t)
            && (WellFormed(s) ==> WellFormed(t))
  {
    var t := Sort(IntervalLeq, s);
    SortSorted(IntervalLeq, s);
    forall i, j | 0 <= i < j < |t|
      ensures t[i].start <= t[j].start && (t[i].start == t[j].start ==> t[i].end <= t[j].end)
    {
      assert IntervalLeq(t[i], t[j]);
    }
    forall a ensures Covers(s, a) <==> Covers(t, a) {
      if Covers(s, a) { CoversPermutes(s, t, a); }
      if Covers(t, a) { CoversPermutes(t, s, a); }
    }
    forall i | 0 <= i < |t| && WellFormed(s) ensures t[i].start <= t[i].end {
      assert t[i] in multiset(s);
    }
  }

  /** Stretching the interval in hand over one that starts inside it or right behind it. */
  lemma MergeStep(done: seq<Interval>, cur: Interval, next: Interval, seen: seq<Interval>)
    requires SameUnion(done + [cur], seen) && next.start <= next.end && cur.start <= next.start <= cur.end
    ensures SameUnion(done + [Interval(cur.start, if cur.end < next.end then next.end else cur.end)], seen + [next])
  {
    var stretched := Interval(cur.start, if cur.end < next.end then next.end else cur.end);
    forall a ensures Covers(done + [stretched], a) <==> Covers(seen + [next], a) {
      CoversSnoc(done, stretched, a);
      CoversSnoc(done, cur, a);
      CoversSnoc(seen, next, a);
    }
  }

  lemma AppendStep(done: seq<Interval>, next: Interval, seen: seq<Interval>)
    requires SameUnion(done, seen)
    ensures SameUnion(done + [next], seen + [next])
  {
    forall a ensures Covers(done + [next], a) <==> Covers(seen + [next], a) {
      CoversSnoc(done, next, a);
      CoversSnoc(seen, next, a);
    }
  }

  /** The merging loop, over blocks already sorted. */
  method MergeSorted(s: seq<Interval>) returns (merged: seq<Interval>)
    requires WellFormed(s) && forall i, j :: 0 <= i < j < |s| ==> s[i].start <= s[j].start
    ensures WellFormed(merged) && Separated(merged) && SameUnion(s, merged)
  {
    if s == [] {
      return [];
    }
    merged := [];
    var cur := s[0];
    assert s[..1] == [] + [s[0]];
    for i := 1 to |s|
      invariant WellFormed(merged) && Separated(merged) && cur.start <= cur.end
      invariant forall k :: 0 <= k < |merged| ==> merged[k].end < cur.start
      invariant cur.start <= s[i - 1].start
      invariant SameUnion(merged + [cur], s[..i])
    {
      var next := s[i];
      assert s[..i + 1] == s[..i] + [next];
      if next.start <= cur.end {
        MergeStep(merged, cur, next, s[..i]);
        cur := Interval(cur.start, if cur.end < next.end then next.end else cur.end);
      } else {
        AppendStep(merged + [cur], next, s[..i]);
        merged := merged + [cur];
        cur := next;
      }
    }
    assert s[..|s|] == s;
    merged := merged + [cur];
  }

  /**
   Sorts the list in place, as a side effect the caller sees, and merges it: the result has
   the same union and no two intervals touch.
   */
  method MergeIntervals(intervals: array<Interval>) returns (merged: seq<Interval>)
    requires WellFormed(intervals[..])
    modifies intervals
    ensures intervals[..] == Sort(IntervalLeq, old(intervals[..]))
    ensures WellFormed(merged) && Separated(merged) && SameUnion(old(intervals[..]), merged)
  {
    var sorted := Sort(IntervalLeq, intervals[..]);
    SortedByStart(intervals[..]);
    forall i | 0 <= i < intervals.Length {
      intervals[i] := sorted[i];
    }
    assert intervals[..] == sorted;
    merged := MergeSorted(sorted);
  }

  /** First position whose element exceeds `x`, or just after the last that does not. */
  method BisectRight(a: seq<int>, x: int) returns (k: nat)
    requires forall i, j :: 0 <= i < j < |a| ==> a[i] <= a[j]
    ensures k <= |a|
    ensures forall i :: 0 <= i < |a| ==> (i < k <==> a[i] <= x)
  {
    var lo, hi := 0, |a|;
    while lo < hi
      invariant 0 <= lo <= hi <= |a|
      invariant forall i :: 0 <= i < lo ==> a[i] <= x
      invariant forall i :: hi <= i < |a| ==> a[i] > x
    {
      var mid := (lo + hi) / 2;
      if x < a[mid] { hi := mid; } else { lo := mid + 1; }
    }
    k := lo;
  }

  method BisectLeft(a: seq<int>, x: int) returns (k: nat)
    requires forall i, j :: 0 <= i < j < |a| ==> a[i] <= a[j]
    ensures k <= |a|
    ensures forall i :: 0 <= i < |a| ==> (i < k <==> a[i] < x)
  {
    var lo, hi := 0, |a|;
    while lo < hi
      invariant 0 <= lo <= hi <= |a|
      invariant forall i :: 0 <= i < lo ==> a[i] < x
      invariant forall i :: hi <= i < |a| ==> a[i] >= x
    {
      var mid := (lo + hi) / 2;
      if a[mid] < x { lo := mid + 1; } else { hi := mid; }
    }
    k := lo;
  }

  ghost function Range(lo: int, hi: int): (r: set<int>) {
    set a | lo <= a < hi && In(Interval(lo, hi), a)
  }

  lemma {:induction false} RangeSize(lo: int, hi: int)
    ensures |Range(lo, hi)| == if lo < hi then hi - lo else 0
    decreases hi - lo
  {
    if lo < hi {
      RangeSize(lo, hi - 1);
      assert Range(lo, hi) == Range(lo, hi - 1) + {hi - 1};
    } else {
      assert Range(lo, hi) == {};
    }
  }

  /** One more interval, disjoint from those before it, adds the size of its overlap. */
  lemma ExecutedSnoc(lo: int, hi: int, s: seq<Interval>, b: Interval)
    requires forall i :: 0 <= i < |s| ==> s[i].end <= b.start
    ensures |Executed(lo, hi, s + [b])| ==
            |Executed(lo, hi, s)| + var x, y := Max(lo, b.start), Min(hi, b.end); if x < y then y - x else 0
  {
    var x, y := Max(lo, b.start), Min(hi, b.end);
    forall a ensures a in Executed(lo, hi, s + [b]) <==> a in Executed(lo, hi, s) || a in Range(x, y) {
      CoversSnoc(s, b, a);
    }
    assert Executed(lo, hi, s) !! Range(x, y);
    RangeSize(x, y);
    hide Covers;
    assert Executed(lo, hi, s + [b]) == Executed(lo, hi, s) + Range(x, y);
  }

  lemma NoneExecuted(lo: int, hi: int, s: seq<Interval>, t: seq<Interval>)
    requires forall i :: 0 <= i < |t| ==> t[i].end <= lo || hi <= t[i].start
    ensures Executed(lo, hi, s + t) == Executed(lo, hi, s)
  {
    forall a | lo <= a < hi ensures Covers(s + t, a) <==> Covers(s, a) {
      if Covers(s, a) {
        var i :| 0 <= i < |s| && In(s[i], a);
        assert In((s + t)[i], a);
      }
      if Covers(s + t, a) {
        var i :| 0 <= i < |s + t| && In((s + t)[i], a);
        assert i < |s| && In(s[i], a);
      }
    }
  }

  /** Counts the executed addresses of `[symStart, symEnd)` exactly. */
  method CalculateCoverage(symStart: int, symEnd: int, intervals: seq<Interval>) returns (count: nat)
    requires WellFormed(intervals) && Separated(intervals)
    ensures count == |Executed(symStart, symEnd, intervals)|
  {
    hide Executed;
    var starts := seq(|intervals|, i requires 0 <= i < |intervals| => intervals[i].start);
    var ends := seq(|intervals|, i requires 0 <= i < |intervals| => intervals[i].end);
    var first := BisectRight(ends, symStart);
    var last := BisectLeft(starts, symEnd);
    count := 0;
    forall i | 0 <= i < first ensures intervals[i].end <= symStart { assert ends[i] <= symStart; }
    forall i | last <= i < |intervals| ensures symEnd <= intervals[i].start { assert starts[i] >= symEnd; }
    NoneExecuted(symStart, symEnd, [], intervals[..first]);
    assert [] + intervals[..first] == intervals[..first];
    NothingFromNothing(symStart, symEnd);
    var i := first;
    while i < last
      invariant first <= i && (i <= last || i == first)
      invariant i <= |intervals|
      invariant count == |Executed(symStart, symEnd, intervals[..i])|
    {
      var b := intervals[i];
      assert intervals[..i + 1] == intervals[..i] + [b];
      ExecutedSnoc(symStart, symEnd, intervals[..i], b);
      var x, y := Max(symStart, b.start), Min(symEnd, b.end);
      if y > x {
        count := count + (y - x);
      }
      i := i + 1;
    }
    NoneExecuted(symStart, symEnd, intervals[..i], intervals[i..]);
    assert intervals[..i] + intervals[i..] == intervals;
  }

  lemma NothingFromNothing(lo: int, hi: int)
    ensures Executed(lo, hi, []) == {}
  {}

  /** Intervals with the same union give every symbol the same coverage. */
  lemma UnionDecides(lo: int, hi: int, s: seq<Interval>, t: seq<Interval>)
    requires SameUnion(s, t)
    ensures Executed(lo, hi, s) == Executed(lo, hi, t)
  {}

  /** Coverage is additive over adjacent ranges. */
  lemma CoverageAdditive(lo: int, mid: int, hi: int, s: seq<Interval>)
    requires lo <= mid <= hi
    ensures |Executed(lo, hi, s)| == |Executed(lo, mid, s)| + |Executed(mid, hi, s)|
  {
    assert Executed(lo, hi, s) == Executed(lo, mid, s) + Executed(mid, hi, s);
    assert Executed(lo, mid, s) !! Executed(mid, hi, s);
  }

  datatype Symbol = Symbol(address: int, size: nat)

  /** One line of the report; `coverage` is a percentage. */
  datatype Line = Line(symbol: Symbol, executed: bool, coverage: real)

  /** How many of a symbol's addresses lie in some block. */
  ghost function Hits(sym: Symbol, blocks: seq<Interval>): (r: nat) {
    |Executed(sym.address, sym.address + sym.size, blocks)|
  }

  ghost function LineOf(sym: Symbol, blocks: seq<Interval>): (r: Line)
    requires sym.size > 0
  {
    Line(sym, Hits(sym, blocks) > 0, Hits(sym, blocks) as real / sym.size as real * 100.0)
  }

  /** The lines of the symbols that occupy any address, in order. */
  ghost function Lines(symbols: seq<Symbol>, blocks: seq<Interval>): (r: seq<Line>) {
    if symbols == [] then []
    else
      var sym := symbols[|symbols| - 1];
      Lines(symbols[..|symbols| - 1], blocks) + if sym.size > 0 then [LineOf(sym, blocks)] else []
  }

  ghost function TotalSize(symbols: seq<Symbol>): (r: nat) {
    if symbols == [] then 0 else TotalSize(symbols[..|symbols| - 1]) + symbols[|symbols| - 1].size
  }

  ghost function TotalHits(symbols: seq<Symbol>, blocks: seq<Interval>): (r: nat) {
    if symbols == [] then 0
    else TotalHits(symbols[..|symbols| - 1], blocks) + Hits(symbols[|symbols| - 1], blocks)
  }

  ghost function TotalCoverage(symbols: seq<Symbol>, blocks: seq<Interval>): (r: real) {
    if TotalSize(symbols) == 0 then 0.0
    else TotalHits(symbols, blocks) as real / TotalSize(symbols) as real * 100.0
  }

  /** Only a symbol's own addresses are counted, so no percentage exceeds one hundred. */
  lemma HitsBounded(sym: Symbol, blocks: seq<Interval>)
    ensures Hits(sym, blocks) <= sym.size
  {
    var lo, hi := sym.address, sym.address + sym.size;
    RangeSize(lo, hi);
    SubsetSize(Executed(lo, hi, blocks), Range(lo, hi));
  }

  lemma {:induction false} TotalBounded(symbols: seq<Symbol>, blocks: seq<Interval>)
    ensures TotalHits(symbols, blocks) <= TotalSize(symbols)
  {
    if symbols != [] {
      TotalBounded(symbols[..|symbols| - 1], blocks);
      HitsBounded(symbols[|symbols| - 1], blocks);
    }
  }

  lemma Share(part: nat, whole: nat)
    requires part <= whole && whole > 0
    ensures 0.0 <= part as real / whole as real * 100.0 <= 100.0
    ensures part < whole ==> part as real / whole as real * 100.0 < 100.0
  {}

  /** Every percentage of a report lies between nought and one hundred. */
  lemma {:induction false} CoverageIsPercentage(symbols: seq<Symbol>, blocks: seq<Interval>)
    ensures forall k :: 0 <= k < |Lines(symbols, blocks)| ==> 0.0 <= Lines(symbols, blocks)[k].coverage <= 100.0
    ensures 0.0 <= TotalCoverage(symbols, blocks) <= 100.0
  {
    hide Executed, Hits;
    if symbols != [] {
      var sym := symbols[|symbols| - 1];
      CoverageIsPercentage(symbols[..|symbols| - 1], blocks);
      HitsBounded(sym, blocks);
      if sym.size > 0 { Share(Hits(sym, blocks), sym.size); }
    }
    TotalBounded(symbols, blocks);
    if TotalSize(symbols) > 0 { Share(TotalHits(symbols, blocks), TotalSize(symbols)); }
  }

  lemma HitsMean(sym: Symbol, blocks: seq<Interval>)
    ensures Hits(sym, blocks) > 0 <==> exists a :: sym.address <= a < sym.address + sym.size && Covers(blocks, a)
    ensures Hits(sym, blocks) == sym.size <==> forall a :: sym.address <= a < sym.address + sym.size ==> Covers(blocks, a)
  {
    hide Covers;
    var lo, hi := sym.address, sym.address + sym.size;
    var hit := Executed(lo, hi, blocks);
    RangeSize(lo, hi);
    SubsetSize(hit, Range(lo, hi));
    if |hit| > 0 {
      var a :| a in hit;
    }
    if a :| lo <= a < hi && Covers(blocks, a) {
      assert a in hit;
    }
    if |hit| == sym.size {
      forall a | lo <= a < hi ensures Covers(blocks, a) { assert a in Range(lo, hi); }
    }
    if forall a :: lo <= a < hi ==> Covers(blocks, a) {
      assert hit == Range(lo, hi);
    }
  }

  lemma Percent(part: nat, whole: nat)
    requires whole > 0
    ensures var c := part as real / whole as real * 100.0; c * whole as real == 100.0 * part as real
    ensures part as real / whole as real * 100.0 == 100.0 <==> part == whole
  {
    var f := part as real / whole as real;
    assert f * whole as real == part as real;
    assert (f * 100.0) * whole as real == 100.0 * (f * whole as real);
  }

  /** A line says executed exactly if some address of the symbol is covered, and 100 exactly if all are. */
  lemma LineMeans(sym: Symbol, blocks: seq<Interval>)
    requires sym.size > 0
    ensures var line := LineOf(sym, blocks);
            && line.symbol == sym
            && (line.executed <==> exists a :: sym.address <= a < sym.address + sym.size && Covers(blocks, a))
            && (line.coverage == 100.0 <==> forall a :: sym.address <= a < sym.address + sym.size ==> Covers(blocks, a))
            && line.coverage * sym.size as real == 100.0 * Hits(sym, blocks) as real
  {
    hide Hits, Covers;
    HitsMean(sym, blocks);
    Percent(Hits(sym, blocks), sym.size);
  }

  ghost function Occupies(): (r: Symbol -> bool) {
    (sym: Symbol) => sym.size > 0
  }

  /** The lines are those of the symbols that occupy an address, in their order. */
  lemma {:induction false} LinesInOrder(symbols: seq<Symbol>, blocks: seq<Interval>)
    ensures var sized := Filter(Occupies(), symbols);
            && |Lines(symbols, blocks)| == |sized|
            && forall k :: 0 <= k < |sized| ==> sized[k].size > 0 && Lines(symbols, blocks)[k] == LineOf(sized[k], blocks)
  {
    if symbols != [] {
      hide LineOf;
      LinesInOrder(symbols[..|symbols| - 1], blocks);
    }
  }

  ghost function Weight(line: Line): (r: real) {
    line.coverage * line.symbol.size as real
  }

  /** What the lines of a report add up to. */
  ghost function Weighted(lines: seq<Line>): (r: real) {
    if lines == [] then 0.0 else Weighted(lines[..|lines| - 1]) + Weight(lines[|lines| - 1])
  }

  lemma WeightedSnoc(lines: seq<Line>, line: Line)
    ensures Weighted(lines + [line]) == Weighted(lines) + Weight(line)
  {}

  lemma WeightOfLine(sym: Symbol, blocks: seq<Interval>)
    requires sym.size > 0
    ensures Weight(LineOf(sym, blocks)) == 100.0 * Hits(sym, blocks) as real
  {
    hide Hits;
    LineMeans(sym, blocks);
  }

  lemma {:induction false} LinesAddUp(symbols: seq<Symbol>, blocks: seq<Interval>)
    ensures Weighted(Lines(symbols, blocks)) == 100.0 * TotalHits(symbols, blocks) as real
  {
    if symbols != [] {
      hide Weighted, Weight, Hits, LineOf;
      var before, sym := symbols[..|symbols| - 1], symbols[|symbols| - 1];
      LinesAddUp(before, blocks);
      HitsBounded(sym, blocks);
      if sym.size > 0 {
        WeightOfLine(sym, blocks);
        WeightedSnoc(Lines(before, blocks), LineOf(sym, blocks));
      } else {
        assert Lines(symbols, blocks) == Lines(before, blocks);
      }
    }
  }

  /** The addresses the symbols of a report occupy. */
  ghost function Extent(lines: seq<Line>): (r: nat) {
    if lines == [] then 0 else Extent(lines[..|lines| - 1]) + lines[|lines| - 1].symbol.size
  }

  lemma ExtentSnoc(lines: seq<Line>, line: Line)
    ensures Extent(lines + [line]) == Extent(lines) + line.symbol.size
  {}

  lemma {:induction false} SizesAddUp(symbols: seq<Symbol>, blocks: seq<Interval>)
    ensures TotalSize(symbols) == Extent(Lines(symbols, blocks))
    ensures TotalSize(symbols) == 0 <==> Lines(symbols, blocks) == []
  {
    if symbols != [] {
      hide Hits, Extent;
      var before, sym := symbols[..|symbols| - 1], symbols[|symbols| - 1];
      SizesAddUp(before, blocks);
      if sym.size > 0 {
        ExtentSnoc(Lines(before, blocks), LineOf(sym, blocks));
      } else {
        assert Lines(symbols, blocks) == Lines(before, blocks);
      }
    }
  }

  /** The total is the mean of the lines weighted by size, and nought if there is no line. */
  lemma TotalIsMean(symbols: seq<Symbol>, blocks: seq<Interval>)
    ensures var lines, total := Lines(symbols, blocks), TotalCoverage(symbols, blocks);
            && total * Extent(lines) as real == Weighted(lines)
            && (lines == [] ==> total == 0.0)
            && (lines != [] ==> Extent(lines) > 0)
  {
    hide Weighted, Lines, Extent;
    LinesAddUp(symbols, blocks);
    SizesAddUp(symbols, blocks);
    TotalBounded(symbols, blocks);
    if TotalSize(symbols) > 0 { Percent(TotalHits(symbols, blocks), TotalSize(symbols)); }
  }

  /**
   The report on the blocks as read from the trace, however they overlap or repeat.  Symbols of
   size zero are skipped.  The verbosity filter drops nothing: a symbol that was not executed
   has a coverage below one hundred.
   */
  method Report(blocks: array<Interval>, symbols: seq<Symbol>, verbose: bool)
    returns (lines: seq<Line>, total: real)
    requires WellFormed(blocks[..])
    modifies blocks
    ensures blocks[..] == Sort(IntervalLeq, old(blocks[..]))
    ensures lines == Lines(symbols, old(blocks[..]))
    ensures total == TotalCoverage(symbols, old(blocks[..]))
  {
    hide Executed, WellFormed, Separated, SameUnion, Sort;
    ghost var original := blocks[..];
    var merged := MergeIntervals(blocks);
    var totalSize, totalHits := 0, 0;
    lines := [];
    for i := 0 to |symbols|
      invariant blocks[..] == Sort(IntervalLeq, original)
      invariant lines == Lines(symbols[..i], original)
      invariant totalSize == TotalSize(symbols[..i]) && totalHits == TotalHits(symbols[..i], original)
    {
      var sym := symbols[i];
      assert symbols[..i + 1][..i] == symbols[..i];
      HitsBounded(sym, original);
      if sym.size == 0 {
        continue;
      }
      var count := CalculateCoverage(sym.address, sym.address + sym.size, merged);
      UnionDecides(sym.address, sym.address + sym.size, original, merged);
      Share(count, sym.size);
      var line := Line(sym, count > 0, count as real / sym.size as real * 100.0);
      if verbose || line.executed || line.coverage < 100.0 {
        lines := lines + [line];
      }
      totalSize, totalHits := totalSize + sym.size, totalHits + count;
    }
    assert symbols[..|symbols|] == symbols;
    total := if totalSize > 0 then totalHits as real / totalSize as real * 100.0 else 0.0;
  }
}
