/** Greedy runs over a strictly increasing list of channels: a run goes on to the next channel when that is
    adjacent, or up to five channels on while the tolerance is not used up. */
module GreedyRuns {

  const MAX_STEP := 5

  function Max(x: int, y: int): int {
    if x < y then y else x
  }

  ghost predicate Sorted(c: seq<int>) {
    forall i, j :: 0 <= i <= j < |c| ==> c[i] <= c[j]
  }

  ghost predicate Increasing(d: seq<int>) {
    forall i, j :: 0 <= i < j < |d| ==> d[i] < d[j]
  }

  /** A run may step over `step` channels with `used` of the tolerance used. */
  predicate Extends(step: int, used: int, tol: nat) {
    step == 1 || (2 <= step <= MAX_STEP && used < tol)
  }

  /** What a step costs: nothing to the adjacent channel, else its length less `free`. */
  function Cost(step: int, free: nat): int {
    if step == 1 then 0 else step - free
  }

  /** The end of the run that has reached position `i`. */
  function RunEnd(d: seq<int>, i: nat, used: int, tol: nat, free: nat): (e: nat)
    requires i < |d|
    ensures i < e <= |d|
    decreases |d| - i
  {
    if i + 1 < |d| && Extends(d[i + 1] - d[i], used, tol) then
      RunEnd(d, i + 1, used + Cost(d[i + 1] - d[i], free), tol, free)
    else
      i + 1
  }

  /** d[a..b] is one of the runs into which `d`, from position `i` on, is cut greedily. */
  ghost predicate IsRun(d: seq<int>, i: nat, a: nat, b: nat, tol: nat, free: nat)
    requires i <= |d|
    decreases |d| - i
  {
    i < |d| && ((a == i && b == RunEnd(d, i, 0, tol, free)) || IsRun(d, RunEnd(d, i, 0, tol, free), a, b, tol, free))
  }

  /** The length of the longest run from position `i` on. */
  function Longest(d: seq<int>, i: nat, tol: nat, free: nat): (m: int)
    requires i <= |d|
    ensures 0 <= m <= |d| - i
    ensures i < |d| ==> m >= 1
    decreases |d| - i
  {
    if i == |d| then 0
    else
      var e := RunEnd(d, i, 0, tol, free);
      Max(e - i, Longest(d, e, tol, free))
  }

  datatype Run = NoRun | Run(from: nat, to: nat)

  /** The first run from position `i` on with more than `threshold` channels. */
  function FirstLong(d: seq<int>, i: nat, threshold: nat, tol: nat, free: nat): Run
    requires i <= |d|
    decreases |d| - i
  {
    if i == |d| then NoRun
    else
      var e := RunEnd(d, i, 0, tol, free);
      if e - i > threshold then Run(i, e) else FirstLong(d, e, threshold, tol, free)
  }

  // ----- what runs are

  ghost predicate Consecutive(d: seq<int>, x: nat, y: nat) {
    x < y <= |d| && forall i :: x <= i < y - 1 ==> d[i + 1] == d[i] + 1
  }

  /** A run does not end within a stretch of consecutive channels. */
  lemma {:induction false} RunHoldsConsecutive(d: seq<int>, i: nat, used: int, tol: nat, free: nat, y: nat)
    requires i < |d| && Consecutive(d, i, y)
    ensures y <= RunEnd(d, i, used, tol, free)
    decreases |d| - i
  {
    if i + 1 < y {
      assert d[i + 1] == d[i] + 1;
      RunHoldsConsecutive(d, i + 1, used, tol, free, y);
    }
  }

  lemma {:induction false} RunPassesThrough(d: seq<int>, i: nat, used: int, tol: nat, free: nat, x: nat, y: nat)
    requires i < |d| && i <= x < RunEnd(d, i, used, tol, free) && Consecutive(d, x, y)
    ensures y <= RunEnd(d, i, used, tol, free)
    decreases |d| - i
  {
    if i == x {
      RunHoldsConsecutive(d, i, used, tol, free, y);
    } else {
      RunPassesThrough(d, i + 1, used + Cost(d[i + 1] - d[i], free), tol, free, x, y);
    }
  }

  /** A stretch of consecutive channels lies within one run, so it is no longer than the longest run. */
  lemma {:induction false} ConsecutiveIsShort(d: seq<int>, i: nat, tol: nat, free: nat, x: nat, y: nat)
    requires i <= x && Consecutive(d, x, y)
    ensures y - x <= Longest(d, i, tol, free)
    decreases |d| - i
  {
    var e := RunEnd(d, i, 0, tol, free);
    if x < e {
      RunPassesThrough(d, i, 0, tol, free, x, y);
    } else {
      ConsecutiveIsShort(d, e, tol, free, x, y);
    }
  }

  /** In an increasing list, consecutive values stand next to each other. */
  lemma {:induction false} StretchInList(d: seq<int>, c: int, n: nat) returns (x: nat)
    requires Increasing(d) && n > 0 && forall v :: c <= v < c + n ==> v in d
    ensures x + n <= |d| && forall i :: x <= i < x + n ==> d[i] == c + i - x
  {
    if n == 1 {
      assert c in d;
      x :| 0 <= x < |d| && d[x] == c;
    } else {
      x := StretchInList(d, c, n - 1);
      assert c + n - 1 in d;
      var y :| 0 <= y < |d| && d[y] == c + n - 1;
      assert d[x + n - 2] == c + n - 2 < d[y];
      assert x + n - 1 < |d| ==> d[x + n - 2] < d[x + n - 1];
    }
  }

  /** The longest length is that of some run. */
  lemma {:induction false} LongestIsRun(d: seq<int>, i: nat, tol: nat, free: nat) returns (a: nat, b: nat)
    requires i < |d|
    ensures i <= a < b <= |d| && IsRun(d, i, a, b, tol, free) && b - a == Longest(d, i, tol, free)
    decreases |d| - i
  {
    var e := RunEnd(d, i, 0, tol, free);
    if e < |d| && Longest(d, e, tol, free) > e - i {
      a, b := LongestIsRun(d, e, tol, free);
    } else {
      a, b := i, e;
    }
  }

  lemma {:induction false} RunsAreNoLonger(d: seq<int>, i: nat, a: nat, b: nat, tol: nat, free: nat)
    requires i <= |d| && IsRun(d, i, a, b, tol, free)
    ensures i <= a < b <= |d| && b - a <= Longest(d, i, tol, free)
    ensures b == RunEnd(d, a, 0, tol, free)
    decreases |d| - i
  {
    var e := RunEnd(d, i, 0, tol, free);
    if !(a == i && b == e) {
      RunsAreNoLonger(d, e, a, b, tol, free);
    }
  }

  /** Without tolerance a run is a stretch of consecutive channels. */
  lemma {:induction false} RunWithoutTolerance(d: seq<int>, i: nat, used: int, free: nat)
    requires i < |d| && used >= 0
    ensures Consecutive(d, i, RunEnd(d, i, used, 0, free))
    decreases |d| - i
  {
    if i + 1 < |d| && Extends(d[i + 1] - d[i], used, 0) {
      RunWithoutTolerance(d, i + 1, used, free);
    }
  }

  /** The most channels that a run can miss with `left` of the tolerance left. */
  function MostMissed(left: int, free: nat): nat {
    if left <= 0 then 0 else if free == 0 then 4 + 4 * (left - 1) / 5 else left + 3
  }

  /** The number of channels that a run misses is bounded by the tolerance, which its last step may overrun. */
  lemma {:induction false} RunMissesFew(d: seq<int>, i: nat, used: int, tol: nat, free: nat)
    requires i < |d| && used >= 0 && free <= 1
    ensures var e := RunEnd(d, i, used, tol, free);
      d[e - 1] - d[i] - (e - 1 - i) <= MostMissed(tol - used, free)
    decreases |d| - i
  {
    if i + 1 < |d| && Extends(d[i + 1] - d[i], used, tol) {
      RunMissesFew(d, i + 1, used + Cost(d[i + 1] - d[i], free), tol, free);
    }
  }

  /** Every step within a run is at most five channels. */
  lemma {:induction false} RunSteps(d: seq<int>, i: nat, used: int, tol: nat, free: nat, j: nat)
    requires i <= j < |d| && j + 1 < RunEnd(d, i, used, tol, free) && Increasing(d)
    ensures j + 1 < |d| && 1 <= d[j + 1] - d[j] <= MAX_STEP
    decreases |d| - i
  {
    if j > i {
      RunSteps(d, i + 1, used + Cost(d[i + 1] - d[i], free), tol, free, j);
    }
  }

  /** The first long run is a run; if there is none, every run is short. */
  lemma {:induction false} FirstLongCorrect(d: seq<int>, i: nat, threshold: nat, tol: nat, free: nat)
    requires i <= |d|
    ensures match FirstLong(d, i, threshold, tol, free)
      case NoRun => Longest(d, i, tol, free) <= threshold
      case Run(a, b) =>
        && IsRun(d, i, a, b, tol, free) && i <= a < b <= |d| && b - a > threshold
        && forall a': nat, b': nat :: IsRun(d, i, a', b', tol, free) && a' < a ==> b' - a' <= threshold
    decreases |d| - i
  {
    if i < |d| {
      var e := RunEnd(d, i, 0, tol, free);
      if e - i <= threshold {
        FirstLongCorrect(d, e, threshold, tol, free);
      } else {
        assert IsRun(d, i, i, e, tol, free);
        forall a': nat, b': nat | IsRun(d, i, a', b', tol, free)
          ensures a' >= i
        {
          RunsAreNoLonger(d, i, a', b', tol, free);
        }
      }
    }
  }
}
