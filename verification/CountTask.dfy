/** The fork/join task that sums a range of numbers by splitting it into 10000 subranges. */
module CountTask {

  newtype long = x: int | -0x8000_0000_0000_0000 <= x < 0x8000_0000_0000_0000

  datatype Range = Range(start: long, end: long)

  const THRESHOLD := 10000
  const MAX_NUM := 10000

  /** start + (start + 1) + ... + end; an inverted range is empty. */
  function RangeSum(start: int, end: int): int
    decreases end - start
  {
    if start > end then 0 else RangeSum(start, end - 1) + end
  }

  lemma {:induction false} RangeSumClosed(start: int, end: int)
    requires start <= end + 1
    ensures 2 * RangeSum(start, end) == (end - start + 1) * (start + end)
    decreases end - start
  {
    if start <= end {
      RangeSumClosed(start, end - 1);
      assert (end - start + 1) * (start + end) == (end - start) * (start + end - 1) + 2 * end;
    }
  }

  lemma {:induction false} RangeSumJoin(start: int, mid: int, end: int)
    requires start <= mid <= end + 1
    ensures RangeSum(start, end) == RangeSum(start, mid - 1) + RangeSum(mid, end)
    decreases end - mid
  {
    if mid <= end {
      RangeSumJoin(start, mid, end - 1);
    }
  }

  // ---------- the split

  /** The width of a subrange, less one: the long division of the source, for a non-negative sum. */
  function Step(start: nat, end: nat): nat {
    (start + end) / MAX_NUM
  }

  function Low(start: nat, step: nat, i: nat): nat {
    start + i * (step + 1)
  }

  function High(start: nat, end: nat, step: nat, i: nat): nat {
    if Low(start, step, i) + step > end then end else Low(start, step, i) + step
  }

  lemma LowNext(start: nat, step: nat, i: nat)
    ensures Low(start, step, i + 1) == Low(start, step, i) + step + 1
  {
    assert (i + 1) * (step + 1) == i * (step + 1) + (step + 1);
  }

  lemma {:induction false} LowAscends(start: nat, step: nat, i: nat, j: nat)
    requires i < j
    ensures Low(start, step, i) + step < Low(start, step, j)
    decreases j
  {
    LowNext(start, step, j - 1);
    if i < j - 1 {
      LowAscends(start, step, i, j - 1);
    }
  }

  /** The last subrange starts beyond the end or reaches it. */
  lemma SplitReachesEnd(start: nat, end: nat)
    ensures Low(start, Step(start, end), MAX_NUM) > end
  {
    assert MAX_NUM * (Step(start, end) + 1) > start + end;
  }

  /** Every number of the range lies in exactly one of the 10000 subranges. */
  lemma {:induction false} InOneSubrange(start: nat, end: nat, x: nat, m: nat) returns (i: nat)
    requires start <= x <= end && x < Low(start, Step(start, end), m)
    ensures var step := Step(start, end);
            && i < m && Low(start, step, i) <= x <= High(start, end, step, i)
            && forall j: nat :: Low(start, step, j) <= x <= High(start, end, step, j) ==> j == i
    decreases m
  {
    var step := Step(start, end);
    LowNext(start, step, m - 1);
    if Low(start, step, m - 1) <= x {
      i := m - 1;
      forall j: nat | Low(start, step, j) <= x <= High(start, end, step, j)
        ensures j == i
      {
        if j < i {
          LowAscends(start, step, j, i);
        } else if i < j {
          LowAscends(start, step, i, j);
        }
      }
    } else {
      i := InOneSubrange(start, end, x, m - 1);
    }
  }

  lemma SplitCoversOnce(start: nat, end: nat, x: nat) returns (i: nat)
    requires start <= x <= end
    ensures var step := Step(start, end);
            && i < MAX_NUM && Low(start, step, i) <= x <= High(start, end, step, i)
            && forall j: nat :: Low(start, step, j) <= x <= High(start, end, step, j) ==> j == i
  {
    SplitReachesEnd(start, end);
    i := InOneSubrange(start, end, x, MAX_NUM);
  }

  // ---------- which splits end

  /** The exact condition under which splitting a long range comes to an end. */
  predicate SplitEnds(start: nat, end: nat) {
    Step(start, end) < THRESHOLD ||
    (Step(start, end) == THRESHOLD && end - start <= 20000 && 2 * start + 10000 < 100_000_000)
  }

  /** Recursion to at most the given depth computes the range. */
  ghost predicate EndsWithin(start: nat, end: int, depth: nat)
    decreases depth
  {
    end - start < THRESHOLD ||
    (depth > 0 && forall i: nat :: i < MAX_NUM ==>
                    EndsWithin(Low(start, Step(start, end), i), High(start, end, Step(start, end), i), depth - 1))
  }

  /** The subranges of a split that ends are short, or the first one needs one more level. */
  lemma Subrange(start: nat, end: nat, i: nat)
    requires end - start >= THRESHOLD && SplitEnds(start, end)
    ensures var lo, hi := Low(start, Step(start, end), i), High(start, end, Step(start, end), i);
            && hi - lo <= THRESHOLD
            && (hi - lo >= THRESHOLD ==> Step(start, end) == THRESHOLD && Step(lo, hi) < THRESHOLD)
  {
    var step := Step(start, end);
    if i == 0 {
      LowZero(start, step);
    } else {
      LowZero(start, step);
      LowAscends(start, step, 0, i);
    }
  }

  lemma LowZero(start: nat, step: nat)
    ensures Low(start, step, 0) == start
  {
  }

  lemma EndsInTwo(start: nat, end: nat)
    requires end - start >= THRESHOLD && SplitEnds(start, end)
    ensures EndsWithin(start, end, 2)
  {
    hide Low, High;
    var step := Step(start, end);
    forall i: nat | i < MAX_NUM
      ensures EndsWithin(Low(start, step, i), High(start, end, step, i), 1)
    {
      Subrange(start, end, i);
      var lo, hi := Low(start, step, i), High(start, end, step, i);
      if hi - lo >= THRESHOLD {
        EndsInOne(lo, hi);
      }
    }
  }

  lemma EndsInOne(start: nat, end: nat)
    requires end - start >= THRESHOLD && Step(start, end) < THRESHOLD
    ensures EndsWithin(start, end, 1)
  {
    hide Low, High;
    forall i: nat | i < MAX_NUM
      ensures EndsWithin(Low(start, Step(start, end), i), High(start, end, Step(start, end), i), 0)
    {
      Subrange(start, end, i);
    }
  }

  /** The position of the last subrange of full width, when there are at least two of them. */
  lemma LastFull(start: nat, end: nat, step: nat, q: nat)
    requires q >= 2 && q * (step + 1) <= end - start + 1 < q * (step + 1) + (step + 1)
    ensures var lo := Low(start, step, q - 1);
            High(start, end, step, q - 1) == lo + step <= end && 2 * lo + step >= start + end
  {
    var lo := Low(start, step, q - 1);
    LowNext(start, step, q - 1);
    assert Low(start, step, q) == start + q * (step + 1);
    Twice(q, step + 1);
  }

  lemma Twice(q: nat, w: nat)
    requires q >= 2
    ensures q * w >= w + w
  {
    assert q * w == w + w + (q - 2) * w;
  }

  lemma FullCount(width: nat, w: nat) returns (q: nat)
    requires w > 0
    ensures q * w <= width < q * w + w
    ensures width >= w + w ==> q >= 2
  {
    q := width / w;
    assert width == q * w + width % w;
    if q < 2 {
      assert q == 0 || q == 1;
    }
  }

  /** Low stays below the end only for fewer than 10000 subranges. */
  lemma FewerThanAll(start: nat, end: nat, i: nat)
    requires Low(start, Step(start, end), i) <= end
    ensures i < MAX_NUM
  {
    SplitReachesEnd(start, end);
    if i > MAX_NUM {
      LowAscends(start, Step(start, end), MAX_NUM, i);
    }
  }

  /** The last full subrange of a split with two of them is as bad as the whole. */
  lemma BadLastFull(start: nat, end: nat) returns (i: nat)
    requires Step(start, end) >= THRESHOLD && end - start >= 2 * Step(start, end) + 1
    ensures i < MAX_NUM
    ensures var lo, hi := Low(start, Step(start, end), i), High(start, end, Step(start, end), i);
            hi - lo >= THRESHOLD && !SplitEnds(lo, hi)
  {
    hide Low, High;
    var step := Step(start, end);
    var q := FullCount(end - start + 1, step + 1);
    i := q - 1;
    LastFull(start, end, step, q);
    FewerThanAll(start, end, i);
    StepMonotone(start + end, 2 * Low(start, step, i) + step);
  }

  lemma StepMonotone(x: nat, y: nat)
    requires x <= y
    ensures x / MAX_NUM <= y / MAX_NUM
  {
  }

  lemma LowOne(start: nat, step: nat)
    ensures Low(start, step, 1) == start + step + 1
  {
    LowZero(start, step);
    LowNext(start, step, 0);
  }

  /** A long range that misses the condition has a long subrange that misses it. */
  lemma BadSubrange(start: nat, end: nat) returns (i: nat)
    requires end - start >= THRESHOLD && !SplitEnds(start, end)
    ensures i < MAX_NUM
    ensures var lo, hi := Low(start, Step(start, end), i), High(start, end, Step(start, end), i);
            hi - lo >= THRESHOLD && !SplitEnds(lo, hi)
  {
    var step, d := Step(start, end), end - start;
    LowZero(start, step);
    LowOne(start, step);
    hide Low;
    if d <= step {
      i := 0;
    } else if d >= 2 * step + 1 {
      i := BadLastFull(start, end);
    } else if d - step - 1 >= THRESHOLD {
      i := 1;
    } else {
      i := 0;
      BadFirst(start, end);
    }
  }

  /** With a short second subrange the first one is bad; at step 10001 because twice the start is even. */
  lemma BadFirst(start: nat, end: nat)
    requires Step(start, end) < end - start <= Step(start, end) + THRESHOLD && !SplitEnds(start, end)
    ensures !SplitEnds(start, start + Step(start, end))
  {
    var step := Step(start, end);
    assert start + end >= MAX_NUM * step;
    assert 2 * start + step >= MAX_NUM * (step - 1);
  }

  lemma {:induction false} NeverEnds(start: nat, end: nat, depth: nat)
    requires end - start >= THRESHOLD && !SplitEnds(start, end)
    ensures !EndsWithin(start, end, depth)
    decreases depth
  {
    hide SplitEnds, Low, High;
    if depth > 0 {
      var i := BadSubrange(start, end);
      NeverEnds(Low(start, Step(start, end), i), High(start, end, Step(start, end), i), depth - 1);
    }
  }

  /** Splitting a long range comes to an end exactly under the condition. */
  lemma EndsExactly(start: nat, end: nat)
    requires end - start >= THRESHOLD
    ensures (exists depth: nat :: EndsWithin(start, end, depth)) <==> SplitEnds(start, end)
  {
    hide SplitEnds, EndsWithin;
    if SplitEnds(start, end) {
      EndsInTwo(start, end);
    } else {
      forall depth: nat
        ensures !EndsWithin(start, end, depth)
      {
        NeverEnds(start, end, depth);
      }
    }
  }

  /** Step 10000 can end and can fail to end. */
  lemma StepAtThreshold()
    ensures Step(49_990_000, 50_010_000) == THRESHOLD && SplitEnds(49_990_000, 50_010_000)
    ensures Step(49_990_000, 50_010_001) == THRESHOLD && !SplitEnds(49_990_000, 50_010_001)
  {
  }

  // ---------- computing a range

  /** Two's complement 64-bit wrap-around. */
  function Wrap64(x: int): (r: int)
    ensures -0x8000_0000_0000_0000 <= r < 0x8000_0000_0000_0000
  {
    (x + 0x8000_0000_0000_0000) % 0x1_0000_0000_0000_0000 - 0x8000_0000_0000_0000
  }

  predicate IsLong(x: int) {
    -0x8000_0000_0000_0000 <= x < 0x8000_0000_0000_0000
  }

  lemma WrapAdd(x: int, y: int)
    ensures Wrap64(Wrap64(x) + y) == Wrap64(x + y)
  {
  }

  lemma WrapFits(x: int)
    requires IsLong(x)
    ensures Wrap64(x) == x
  {
  }

  /** The step with the overflow of its sum and the division that truncates toward zero. */
  function LongStep(start: int, end: int): int {
    var sum := Wrap64(start + end);
    if sum >= 0 then sum / MAX_NUM else -(-sum / MAX_NUM)
  }

  /** Where the sum of a long range's ends overflows, every subrange is inverted and the result is 0. */
  lemma OverflowInverts(start: nat, end: nat, pos: int)
    requires end - start >= THRESHOLD && end < 0x8000_0000_0000_0000
    ensures start + end >= 0x8000_0000_0000_0000 ==>
              LongStep(start, end) < 0 && RangeSum(pos, pos + LongStep(start, end)) == 0
    ensures start + end < 0x8000_0000_0000_0000 ==> LongStep(start, end) == Step(start, end)
  {
    if start + end >= 0x8000_0000_0000_0000 {
      assert Wrap64(start + end) == start + end - 0x1_0000_0000_0000_0000 <= -10000;
    } else {
      WrapFits(start + end);
    }
  }

  /** The test of the source, on the wrapped width. */
  predicate Short(start: int, end: int) {
    Wrap64(end - start) < THRESHOLD
  }

  /**
   The inputs on which the task comes to an end, for ranges that start at 0 or above: a range taken for short
   whose loop index cannot run past the largest long, or a long range whose splitting ends.
   */
  predicate InScope(start: int, end: int) {
    if Short(start, end) then start > end || end < 0x7fff_ffff_ffff_ffff
    else 0 <= start <= end && SplitEnds(start, end)
  }

  /** How many more times a range is split. */
  function Levels(start: int, end: int): nat {
    if Short(start, end) then 0
    else if 0 <= start <= end && Step(start, end) < THRESHOLD then 1 else 2
  }

  function SumOf(tasks: seq<Range>): int {
    if tasks == [] then 0
    else SumOf(tasks[..|tasks| - 1]) + RangeSum(tasks[|tasks| - 1].start as int, tasks[|tasks| - 1].end as int)
  }

  lemma SumOfSnoc(tasks: seq<Range>, t: Range)
    ensures SumOf(tasks + [t]) == SumOf(tasks) + RangeSum(t.start as int, t.end as int)
  {
    assert (tasks + [t])[..|tasks|] == tasks;
  }

  lemma SumOfTake(tasks: seq<Range>, k: nat)
    requires k < |tasks|
    ensures SumOf(tasks[..k + 1]) == SumOf(tasks[..k]) + RangeSum(tasks[k].start as int, tasks[k].end as int)
  {
    assert tasks[..k + 1] == tasks[..k] + [tasks[k]];
    SumOfSnoc(tasks[..k], tasks[k]);
  }

  /** The loop of a short range. */
  method SumDirectly(start: long, end: long) returns (sum: long)
    requires start > end || end < 0x7fff_ffff_ffff_ffff
    ensures sum as int == Wrap64(RangeSum(start as int, end as int))
  {
    sum := 0;
    var i := start;
    while i <= end
      invariant start <= i && (i as int <= end as int + 1 || i == start)
      invariant sum as int == Wrap64(RangeSum(start as int, i as int - 1))
      decreases end as int - i as int
    {
      WrapAdd(RangeSum(start as int, i as int - 1), i as int);
      sum := Wrap64(sum as int + i as int) as long;
      i := i + 1;
    }
  }

  /** A subtask of a long range in scope that is split at most levels more times. */
  predicate SubtaskOk(t: Range, levels: nat) {
    && 0 <= t.start as int && t.end as int < 100_010_000
    && t.end as int - t.start as int <= THRESHOLD
    && InScope(t.start as int, t.end as int) && Levels(t.start as int, t.end as int) < levels
  }

  /** A long range in scope has numbers below 100010000. */
  lemma LongRangeBounds(start: nat, end: nat)
    requires end - start >= THRESHOLD && SplitEnds(start, end)
    ensures start + end < 100_010_000 && Step(start, end) <= THRESHOLD
  {
  }

  lemma LongIsNotShort(start: nat, end: nat)
    requires start <= end < 0x8000_0000_0000_0000
    ensures Short(start, end) <==> end - start < THRESHOLD
  {
    WrapFits(end - start);
  }

  lemma SubtaskInScope(start: nat, end: nat, i: nat, t: Range)
    requires end - start >= THRESHOLD && SplitEnds(start, end) && end < 0x8000_0000_0000_0000
    requires t.start as int == Low(start, Step(start, end), i)
    requires t.end as int == High(start, end, Step(start, end), i)
    ensures SubtaskOk(t, Levels(start, end))
  {
    hide Low, High, SplitEnds;
    LongRangeBounds(start, end);
    LongIsNotShort(start, end);
    Subrange(start, end, i);
    HighAtMost(start, end, Step(start, end), i);
    var lo, hi := t.start as int, t.end as int;
    WrapFits(hi - lo);
    if hi - lo >= THRESHOLD {
      StepSmallEnds(lo, hi);
    }
  }

  lemma HighAtMost(start: nat, end: nat, step: nat, i: nat)
    ensures High(start, end, step, i) <= end
  {
  }

  lemma StepSmallEnds(start: nat, end: nat)
    requires Step(start, end) < THRESHOLD
    ensures SplitEnds(start, end)
  {
  }

  /** The loop that creates the subtasks. */
  method Split(start: long, end: long) returns (subTasks: seq<Range>)
    requires 0 <= start as int && end as int - start as int >= THRESHOLD && SplitEnds(start as int, end as int)
    ensures |subTasks| == MAX_NUM && SumOf(subTasks) == RangeSum(start as int, end as int)
    ensures forall k :: 0 <= k < MAX_NUM ==>
              var step := Step(start as int, end as int);
              && subTasks[k].start as int == Low(start as int, step, k)
              && subTasks[k].end as int == High(start as int, end as int, step, k)
  {
    hide RangeSum, Low, SumOf, SplitEnds;
    LongRangeBounds(start as int, end as int);
    var step := (start + end) / 10000;
    ghost var s, e, st := start as int, end as int, Step(start as int, end as int);
    assert step as int == st;
    subTasks := [];
    var pos := start;
    var i := 0;
    EmptyRange(s, st);
    while i < MAX_NUM
      invariant |subTasks| == i <= MAX_NUM
      invariant s <= pos as int == Low(s, st, i) <= s + i * 10001
      invariant SumOf(subTasks) == RangeSum(s, if pos as int > e then e else pos as int - 1)
      invariant forall k :: 0 <= k < i ==>
                  subTasks[k].start as int == Low(s, st, k) && subTasks[k].end as int == High(s, e, st, k)
    {
      var lastOne := pos + step;
      if lastOne > end {
        lastOne := end;
      }
      LowNext(s, st, i);
      NextSubrange(s, e, pos as int, lastOne as int);
      SumOfSnoc(subTasks, Range(pos, lastOne));
      subTasks := subTasks + [Range(pos, lastOne)];
      pos := pos + (step + 1);
      i := i + 1;
    }
    SplitReachesEnd(s, e);
  }

  lemma EmptyRange(s: nat, st: nat)
    ensures RangeSum(s, s - 1) == 0 == SumOf([]) && Low(s, st, 0) == s
  {
  }

  /** A subrange past the end adds nothing; any other continues the sum. */
  lemma NextSubrange(s: int, e: int, pos: int, lastOne: int)
    requires s <= pos && lastOne <= e && (pos <= e ==> pos <= lastOne)
    ensures RangeSum(s, if pos > e then e else pos - 1) + RangeSum(pos, lastOne) ==
            RangeSum(s, if lastOne == e || pos > e then e else lastOne)
  {
    if pos <= e {
      RangeSumJoin(s, pos, lastOne);
    }
  }

  lemma PartBound(pos: int, lastOne: int)
    requires 0 <= pos && lastOne < 100_010_000 && lastOne - pos <= THRESHOLD
    ensures 0 <= RangeSum(pos, lastOne) <= 2_000_000_000_000
  {
    if pos <= lastOne {
      RangeSumClosed(pos, lastOne);
      Monotone(lastOne - pos + 1, 10001, pos + lastOne, 200_020_000);
    }
  }

  lemma Monotone(a: nat, b: nat, x: nat, y: nat)
    requires a <= b && x <= y
    ensures 0 <= a * x <= b * y
  {
    assert b * y == a * x + a * (y - x) + (b - a) * y;
  }

  lemma EmptySum()
    ensures SumOf([]) == 0
  {
  }

  lemma TakeEnds<T>(xs: seq<T>)
    ensures xs[..0] == [] && xs[..|xs|] == xs
  {
  }

  /** The loop that joins the subtasks of a range that is split levels times; nothing wraps around. */
  method Join(subTasks: seq<Range>, ghost levels: nat) returns (sum: long)
    requires 0 < levels && |subTasks| <= MAX_NUM
    requires forall k :: 0 <= k < |subTasks| ==> SubtaskOk(subTasks[k], levels)
    ensures sum as int == SumOf(subTasks)
    decreases levels, 0
  {
    hide RangeSum, SumOf, SubtaskOk;
    sum := 0;
    var k := 0;
    assert SumOf([]) == 0 by { EmptySum(); }
    TakeEnds(subTasks);
    while k < |subTasks|
      invariant 0 <= k <= |subTasks|
      invariant sum as int == SumOf(subTasks[..k])
      invariant 0 <= sum as int <= k * 2_000_000_000_000
    {
      var part := ComputeSubtask(subTasks[k], levels);
      SumOfTake(subTasks, k);
      sum := sum + part;
      k := k + 1;
    }
  }

  method ComputeSubtask(t: Range, ghost levels: nat) returns (part: long)
    requires 0 < levels && SubtaskOk(t, levels)
    ensures part as int == RangeSum(t.start as int, t.end as int)
    ensures 0 <= part as int <= 2_000_000_000_000
    decreases levels - 1, 2
  {
    hide RangeSum;
    PartBound(t.start as int, t.end as int);
    WrapFits(RangeSum(t.start as int, t.end as int));
    part := Compute(t.start, t.end);
  }

  /**
   The task returns the sum of its range, wrapped to a long where the loop of a short range overflows; a range
   that is split never overflows.
   */
  method Compute(start: long, end: long) returns (sum: long)
    requires InScope(start as int, end as int)
    ensures sum as int == Wrap64(RangeSum(start as int, end as int))
    ensures !Short(start as int, end as int) ==> sum as int == RangeSum(start as int, end as int)
    ensures 0 <= start as int <= end as int < 1_000_000_000 ==>
              2 * (sum as int) == (end as int - start as int + 1) * (start as int + end as int)
    decreases Levels(start as int, end as int), 1
  {
    hide RangeSum, Low, High, SplitEnds;
    if 0 <= start as int <= end as int < 1_000_000_000 {
      SmallSum(start as int, end as int);
    }
    var canCompute := Wrap64(end as int - start as int) < 10000;
    if canCompute {
      sum := SumDirectly(start, end);
    } else {
      LongIsNotShort(start as int, end as int);
      var subTasks := Split(start, end);
      forall k | 0 <= k < |subTasks|
        ensures SubtaskOk(subTasks[k], Levels(start as int, end as int))
      {
        SubtaskInScope(start as int, end as int, k, subTasks[k]);
      }
      sum := Join(subTasks, Levels(start as int, end as int));
      WrapFits(sum as int);
    }
  }

  /** The closed form, for numbers small enough that the sum is a long. */
  lemma SmallSum(start: nat, end: nat)
    requires start <= end < 1_000_000_000
    ensures 2 * RangeSum(start, end) == (end - start + 1) * (start + end)
    ensures Wrap64(RangeSum(start, end)) == RangeSum(start, end)
  {
    RangeSumClosed(start, end);
    Monotone(end - start + 1, 1_000_000_000, start + end, 2_000_000_000);
    WrapFits(RangeSum(start, end));
  }
}
