/** How many channels a run may miss, and how often it may skip some: the sharp bounds, and the tolerances for which
    they are within the tolerance. */
module MissedChannels {
  import opened GreedyRuns

  // ----- what runs miss

  /** The channels without hits between the first and the last of d[a..b]. */
  function Missed(d: seq<int>, a: nat, b: nat): int
    requires a < b <= |d|
  {
    d[b - 1] - d[a] - (b - 1 - a)
  }

  /** The number of gaps in d[a..b]. */
  function Gaps(d: seq<int>, a: nat, b: nat): nat
    requires a < b <= |d|
    decreases b - a
  {
    if a + 1 == b then 0 else (if d[a + 1] - d[a] > 1 then 1 else 0) + Gaps(d, a + 1, b)
  }

  /** The most gaps that a run can have with `left` of the tolerance left. */
  function MostGaps(left: int, free: nat): nat {
    if left <= 0 then 0 else if free == 0 then (left + 1) / 2 else left
  }

  ghost predicate MissAtMost(tol: nat, free: nat, m: int) {
    forall d, a: nat, b: nat :: Increasing(d) && a < b <= |d| && IsRun(d, 0, a, b, tol, free) ==> Missed(d, a, b) <= m
  }

  ghost predicate GapsAtMost(tol: nat, free: nat, m: int) {
    forall d, a: nat, b: nat :: Increasing(d) && a < b <= |d| && IsRun(d, 0, a, b, tol, free) ==> Gaps(d, a, b) <= m
  }

  lemma {:induction false} RunHasFewGaps(d: seq<int>, i: nat, used: int, tol: nat, free: nat)
    requires i < |d| && used >= 0 && free <= 1
    ensures Gaps(d, i, RunEnd(d, i, used, tol, free)) <= MostGaps(tol - used, free)
    decreases |d| - i
  {
    if i + 1 < |d| && Extends(d[i + 1] - d[i], used, tol) {
      RunHasFewGaps(d, i + 1, used + Cost(d[i + 1] - d[i], free), tol, free);
    }
  }

  // ----- the lists that attain the bounds

  /** The next step of a list that misses as many channels as a run can, or has as many gaps. */
  function NextStep(left: int, free: nat, wide: bool): nat {
    if !wide then 2
    else if free == 1 then if left >= 2 then 2 else MAX_STEP
    else if 3 <= left <= MAX_STEP then left - 1 else MAX_STEP
  }

  function Path(from: int, left: int, free: nat, wide: bool): (d: seq<int>)
    requires free <= 1
    ensures d != [] && d[0] == from
    decreases if left < 0 then 0 else left
  {
    if left <= 0 then [from]
    else
      var step := NextStep(left, free, wide);
      [from] + Path(from + step, left - (step - free), free, wide)
  }

  lemma {:induction false} RunEndBehind(x: int, d: seq<int>, i: nat, used: int, tol: nat, free: nat)
    requires i < |d|
    ensures RunEnd([x] + d, i + 1, used, tol, free) == RunEnd(d, i, used, tol, free) + 1
    decreases |d| - i
  {
    var e := [x] + d;
    assert e[i + 1] == d[i] && (i + 1 < |d| ==> e[i + 2] == d[i + 1]);
    if i + 1 < |d| && Extends(d[i + 1] - d[i], used, tol) {
      RunEndBehind(x, d, i + 1, used + Cost(d[i + 1] - d[i], free), tol, free);
    }
  }

  lemma {:induction false} GapsBehind(x: int, d: seq<int>, i: nat, b: nat)
    requires i < b <= |d|
    ensures Gaps([x] + d, i + 1, b + 1) == Gaps(d, i, b)
    decreases b - i
  {
    var e := [x] + d;
    assert e[i + 1] == d[i] && (i + 1 < |d| ==> e[i + 2] == d[i + 1]);
    if i + 1 < b {
      GapsBehind(x, d, i + 1, b);
    }
  }

  lemma StepIsGap(left: int, free: nat, wide: bool)
    ensures 2 <= NextStep(left, free, wide) <= MAX_STEP
  {
  }

  lemma RunsOn(x: int, step: nat, d: seq<int>, used: int, tol: nat, free: nat)
    requires d != [] && d[0] == x + step && 2 <= step <= MAX_STEP && used < tol
    ensures RunEnd([x] + d, 0, used, tol, free) == RunEnd(d, 0, used + step - free, tol, free) + 1
  {
    RunEndBehind(x, d, 0, used + step - free, tol, free);
    assert ([x] + d)[1] == x + step;
  }

  /** The whole list is one run. */
  lemma {:induction false} PathIsRun(from: int, left: int, used: int, tol: nat, free: nat, wide: bool)
    requires free <= 1 && used >= 0 && left == tol - used
    ensures var d := Path(from, left, free, wide); RunEnd(d, 0, used, tol, free) == |d|
    decreases if left < 0 then 0 else left
  {
    if left > 0 {
      var step := NextStep(left, free, wide);
      var rest := Path(from + step, left - (step - free), free, wide);
      PathIsRun(from + step, left - (step - free), used + step - free, tol, free, wide);
      StepIsGap(left, free, wide);
      hide Path, NextStep;
      RunsOn(from, step, rest, used, tol, free);
    }
  }

  lemma {:induction false} PathIncreases(from: int, left: int, free: nat, wide: bool)
    requires free <= 1
    ensures Increasing(Path(from, left, free, wide))
    decreases if left < 0 then 0 else left
  {
    if left > 0 {
      var step := NextStep(left, free, wide);
      var rest := Path(from + step, left - (step - free), free, wide);
      PathIncreases(from + step, left - (step - free), free, wide);
      FirstIsLess(from, rest);
    }
  }

  lemma FirstIsLess(x: int, d: seq<int>)
    requires d != [] && Increasing(d) && x < d[0]
    ensures Increasing([x] + d)
  {
    var e := [x] + d;
    forall i, j | 0 <= i < j < |e|
      ensures e[i] < e[j]
    {
      if i == 0 {
        assert d[0] <= d[j - 1];
      }
    }
  }

  lemma {:induction false} WidePathMisses(from: int, left: int, free: nat)
    requires free <= 1
    ensures var d := Path(from, left, free, true); Missed(d, 0, |d|) == MostMissed(left, free)
    decreases if left < 0 then 0 else left
  {
    if left > 0 {
      var step := NextStep(left, free, true);
      var rest := Path(from + step, left - (step - free), free, true);
      WidePathMisses(from + step, left - (step - free), free);
      WideStepMisses(left, free);
      hide MostMissed, NextStep;
      assert Missed([from] + rest, 0, |rest| + 1) == step - 1 + Missed(rest, 0, |rest|);
    }
  }

  lemma WideStepMisses(left: int, free: nat)
    requires left > 0 && free <= 1
    ensures var step := NextStep(left, free, true);
      MostMissed(left, free) == step - 1 + MostMissed(left - (step - free), free)
  {
  }

  lemma {:induction false} PathHasGaps(from: int, left: int, free: nat)
    requires free <= 1
    ensures var d := Path(from, left, free, false); Gaps(d, 0, |d|) == MostGaps(left, free)
    decreases if left < 0 then 0 else left
  {
    if left > 0 {
      var rest := Path(from + 2, left - (2 - free), free, false);
      PathHasGaps(from + 2, left - (2 - free), free);
      GapsBehind(from, rest, 0, |rest|);
      assert ([from] + rest)[1] == from + 2;
    }
  }

  lemma PathIsWholeRun(tol: nat, free: nat, wide: bool)
    requires free <= 1
    ensures var d := Path(0, tol, free, wide); Increasing(d) && IsRun(d, 0, 0, |d|, tol, free)
  {
    PathIsRun(0, tol, 0, tol, free, wide);
    PathIncreases(0, tol, free, wide);
    hide RunEnd, Path;
  }

  // ----- the sharp bounds

  /** The bound on the channels that a run misses is sharp, for every tolerance and both ways to count a step. */
  lemma MissedExactly(tol: nat, free: nat, m: int)
    requires free <= 1
    ensures MissAtMost(tol, free, m) <==> MostMissed(tol, free) <= m
  {
    hide IsRun, RunEnd, Path, MostMissed;
    if MissAtMost(tol, free, m) {
      PathIsWholeRun(tol, free, true);
      WidePathMisses(0, tol, free);
    }
    if MostMissed(tol, free) <= m {
      forall d, a: nat, b: nat | Increasing(d) && a < b <= |d| && IsRun(d, 0, a, b, tol, free)
        ensures Missed(d, a, b) <= m
      {
        RunsAreNoLonger(d, 0, a, b, tol, free);
        RunMissesFew(d, a, 0, tol, free);
      }
    }
  }

  /** So runs never miss more channels than the tolerance if and only if there is none, or it is at least 12 and
      steps count in full. */
  lemma MissedWithinTolerance(tol: nat, free: nat)
    requires free <= 1
    ensures MissAtMost(tol, free, tol) <==> tol == 0 || (free == 0 && tol >= 12)
  {
    MissedExactly(tol, free, tol);
  }

  /** So is the bound on the number of gaps. */
  lemma GapsExactly(tol: nat, free: nat, m: int)
    requires free <= 1
    ensures GapsAtMost(tol, free, m) <==> MostGaps(tol, free) <= m
  {
    hide IsRun, RunEnd, Path, MostGaps, Gaps;
    if GapsAtMost(tol, free, m) {
      PathIsWholeRun(tol, free, false);
      PathHasGaps(0, tol, free);
    }
    if MostGaps(tol, free) <= m {
      forall d, a: nat, b: nat | Increasing(d) && a < b <= |d| && IsRun(d, 0, a, b, tol, free)
        ensures Gaps(d, a, b) <= m
      {
        RunsAreNoLonger(d, 0, a, b, tol, free);
        RunHasFewGaps(d, a, 0, tol, free);
      }
    }
  }

  /** Runs never have more gaps than the tolerance, and always have fewer if and only if steps count in full and it
      is at least 2. */
  lemma GapsWithinTolerance(tol: nat, free: nat)
    requires free <= 1
    ensures GapsAtMost(tol, free, tol)
    ensures GapsAtMost(tol, free, tol - 1) <==> free == 0 && tol >= 2
  {
    GapsExactly(tol, free, tol);
    GapsExactly(tol, free, tol - 1);
  }
}
