/** How the longest run depends on the hits and on the tolerance: lists on which more hits, or more tolerance,
    make it shorter, and when there are none. */
module RunMonotonicity {
  import opened GreedyRuns

  // ----- walking along a list

  /** What a run spends of its tolerance from position `i` to `j`, when all steps are longer than one. */
  function Spent(d: seq<int>, i: nat, j: nat, free: nat): int
    requires i < |d| && j < |d|
  {
    d[j] - d[i] - if free == 0 then 0 else j - i
  }

  /** A run that reached position `i` with `used` of the tolerance used goes on from position `m`. */
  ghost predicate GoesOn(d: seq<int>, i: nat, m: nat, used: int, tol: nat, free: nat)
    requires i <= m && m + 1 < |d|
  {
    2 <= d[m + 1] - d[m] <= MAX_STEP && used + Spent(d, i, m, free) < tol
  }

  lemma {:induction false} RunGoesOn(d: seq<int>, i: nat, j: nat, used: int, tol: nat, free: nat)
    requires i <= j < |d| && free <= 1
    requires forall m: nat :: i <= m < j ==> GoesOn(d, i, m, used, tol, free)
    ensures RunEnd(d, i, used, tol, free) == RunEnd(d, j, used + Spent(d, i, j, free), tol, free)
    decreases j
  {
    if i < j {
      RunGoesOn(d, i, j - 1, used, tol, free);
      assert GoesOn(d, i, j - 1, used, tol, free);
    }
  }

  lemma {:induction false} RunAlong(d: seq<int>, i: nat, j: nat, used: int, tol: nat, free: nat)
    requires i <= j && Consecutive(d, i, j + 1)
    ensures RunEnd(d, i, used, tol, free) == RunEnd(d, j, used, tol, free)
    decreases j
  {
    if i < j {
      RunAlong(d, i, j - 1, used, tol, free);
      assert d[j - 1 + 1] == d[j - 1] + 1;
    }
  }

  /** From position `a` on there are two blocks of `len` consecutive channels, two channels apart. */
  ghost predicate TwoBlocks(d: seq<int>, a: nat, len: nat) {
    && len > 0 && |d| == a + 2 * len
    && Consecutive(d, a, a + len) && Consecutive(d, a + len, a + 2 * len)
    && d[a + len] - d[a + len - 1] == 2
  }

  /** A run with tolerance left at the first block takes in both; one with none left ends with the first. */
  lemma BlocksEnd(d: seq<int>, a: nat, len: nat, used: int, tol: nat, free: nat)
    requires TwoBlocks(d, a, len)
    ensures |d| == a + 2 * len && RunEnd(d, a, used, tol, free) == if used < tol then |d| else a + len
    ensures RunEnd(d, a + len, 0, tol, free) == |d|
  {
    hide RunEnd, Consecutive;
    var last := a + 2 * len - 1;
    RunAlong(d, a, a + len - 1, used, tol, free);
    RunAlong(d, a + len, last, used + Cost(2, free), tol, free);
    RunAlong(d, a + len, last, 0, tol, free);
    RunAtEnd(d, 0, tol, free);
    RunAtEnd(d, used + Cost(2, free), tol, free);
    RunAtTwo(d, a + len - 1, used, tol, free);
  }

  lemma RunAtEnd(d: seq<int>, used: int, tol: nat, free: nat)
    requires d != []
    ensures RunEnd(d, |d| - 1, used, tol, free) == |d|
  {
  }

  lemma RunAtTwo(d: seq<int>, i: nat, used: int, tol: nat, free: nat)
    requires i + 1 < |d| && d[i + 1] - d[i] == 2
    ensures RunEnd(d, i, used, tol, free) ==
      if used < tol then RunEnd(d, i + 1, used + Cost(2, free), tol, free) else i + 1
  {
  }

  // ----- the lists

  /** Channels 0, 2, ... up to number `p`, which is `end`; then `x` channels on, and from there `n` steps of two
      to the first of two blocks of `len` consecutive channels, two apart. */
  datatype Layout = Layout(p: nat, end: nat, x: nat, n: nat, len: nat) {
    ghost predicate Ok() {
      && 2 <= x <= MAX_STEP && len > 0
      && if p == 0 then end == 0 else 2 <= end - 2 * (p - 1) <= MAX_STEP
    }

    function Blocks(): nat {
      p + 1 + n
    }

    function At(i: nat): nat {
      if i < p then 2 * i
      else if i == p then end
      else if i < Blocks() then end + x + 2 * (i - p - 1)
      else end + x + 2 * n + (i - Blocks()) + if i < Blocks() + len then 0 else 1
    }

    function List(): (d: seq<int>)
      ensures |d| == Blocks() + 2 * len && forall i :: 0 <= i < |d| ==> d[i] == At(i)
    {
      seq(Blocks() + 2 * len, i requires 0 <= i < Blocks() + 2 * len => At(i))
    }
  }

  lemma StepAt(l: Layout, i: nat)
    requires l.Ok() && i < l.Blocks()
    ensures 2 <= l.List()[i + 1] - l.List()[i] <= MAX_STEP
  {
  }

  lemma ListHasBlocks(l: Layout)
    requires l.Ok()
    ensures TwoBlocks(l.List(), l.Blocks(), l.len)
  {
  }

  lemma ListIncreases(l: Layout)
    requires l.Ok()
    ensures Increasing(l.List())
  {
    var d := l.List();
    forall i, j | 0 <= i < j < |d|
      ensures d[i] < d[j]
    {
      AtIncreases(l, i, j);
    }
  }

  lemma {:induction false} AtIncreases(l: Layout, i: nat, j: nat)
    requires l.Ok() && i < j < l.Blocks() + 2 * l.len
    ensures l.At(i) < l.At(j)
    decreases j
  {
    if i < j - 1 {
      AtIncreases(l, i, j - 1);
    }
  }

  lemma TwoRuns(d: seq<int>, e: nat, tol: nat, free: nat)
    requires e < |d| && RunEnd(d, 0, 0, tol, free) == e && RunEnd(d, e, 0, tol, free) == |d|
    ensures Longest(d, 0, tol, free) == Max(e, |d| - e)
  {
    hide RunEnd;
    assert Longest(d, |d|, tol, free) == 0;
    assert Longest(d, e, tol, free) == |d| - e;
  }

  /** The run from the first position on has tolerance left at position `i` of the list. */
  ghost predicate HasLeft(d: seq<int>, i: nat, tol: nat, free: nat) {
    i < |d| && Spent(d, 0, i, free) < tol
  }

  lemma ListGoesOn(l: Layout, j: nat, tol: nat, free: nat)
    requires l.Ok() && free <= 1 && j <= l.Blocks() && forall i: nat :: i < j ==> HasLeft(l.List(), i, tol, free)
    ensures RunEnd(l.List(), 0, 0, tol, free) == RunEnd(l.List(), j, Spent(l.List(), 0, j, free), tol, free)
  {
    hide RunEnd, Layout.At;
    var d := l.List();
    forall m: nat | m < j
      ensures GoesOn(d, 0, m, 0, tol, free)
    {
      StepAt(l, m);
      assert HasLeft(d, m, tol, free);
    }
    RunGoesOn(d, 0, j, 0, tol, free);
  }

  /** When a run has used up its tolerance just at the first block, that run is the longest, and ends there. */
  lemma UsedUpAtBlocks(l: Layout, tol: nat, free: nat)
    requires l.Ok() && free <= 1
    requires forall i: nat :: i < l.Blocks() ==> HasLeft(l.List(), i, tol, free)
    requires Spent(l.List(), 0, l.Blocks(), free) >= tol
    ensures Longest(l.List(), 0, tol, free) == l.Blocks() + l.len
  {
    hide RunEnd, Longest, TwoBlocks, HasLeft;
    var d, a := l.List(), l.Blocks();
    ListHasBlocks(l);
    ListGoesOn(l, a, tol, free);
    BlocksEnd(d, a, l.len, Spent(d, 0, a, free), tol, free);
    TwoRuns(d, a + l.len, tol, free);
  }

  // ----- more hits

  ghost predicate MoreHitsNeverShorten(tol: nat, free: nat) {
    forall d, e :: Increasing(d) && Increasing(e) && (forall x :: x in d ==> x in e) ==>
      Longest(d, 0, tol, free) <= Longest(e, 0, tol, free)
  }

  lemma MoreHitsWithoutTolerance(d: seq<int>, e: seq<int>, free: nat)
    requires Increasing(d) && Increasing(e) && forall x :: x in d ==> x in e
    ensures Longest(d, 0, 0, free) <= Longest(e, 0, 0, free)
  {
    if d != [] {
      var a, b := LongestIsRun(d, 0, 0, free);
      RunsAreNoLonger(d, 0, a, b, 0, free);
      RunWithoutTolerance(d, a, 0, free);
      ConsecutiveValues(d, a, b);
      assert forall v :: d[a] <= v < d[a] + (b - a) ==> v in e;
      var x := StretchInList(e, d[a], b - a);
      assert Consecutive(e, x, x + (b - a));
      ConsecutiveIsShort(e, 0, 0, free, x, x + (b - a));
    }
  }

  lemma {:induction false} ConsecutiveValues(d: seq<int>, a: nat, b: nat)
    requires Consecutive(d, a, b)
    ensures d[b - 1] == d[a] + (b - a) - 1 && forall v :: d[a] <= v < d[a] + (b - a) ==> v in d
    decreases b
  {
    if a + 1 < b {
      ConsecutiveValues(d, a, b - 1);
      assert d[b - 2 + 1] == d[b - 2] + 1;
    }
  }

  /** The steps of two that use up the tolerance. */
  function StepsOfTwo(tol: nat, free: nat): nat {
    if free == 0 then (tol + 1) / 2 else tol
  }

  /** Steps of two lead up to two blocks, and use up the tolerance: without them the blocks make one run. */
  lemma FewerHitsLengthen(tol: nat, free: nat) returns (d: seq<int>, e: seq<int>)
    requires tol >= 1 && free <= 1
    ensures Increasing(d) && Increasing(e) && forall x :: x in d ==> x in e
    ensures Longest(d, 0, tol, free) > Longest(e, 0, tol, free)
    ensures |d| >= 2 && |e| >= 2 && forall x :: x in e ==> 0 <= x <= 6 * tol + 9
  {
    hide RunEnd, Longest, TwoBlocks, HasLeft, Layout.At;
    var q := StepsOfTwo(tol, free);
    var l := Layout(q - 1, 2 * (q - 1), 2, 0, q + 2);
    e := l.List();
    d := e[q..];
    TwosUseUp(q, tol, free, l);
    ListIncreases(l);
    ListInRange(l);
    ListHasBlocks(l);
    UsedUpAtBlocks(l, tol, free);
    SuffixBlocks(e, q, l.len);
    OneRun(d, l.len, tol, free);
  }

  lemma ListInRange(l: Layout)
    ensures forall x :: x in l.List() ==> 0 <= x <= 2 * l.p + l.end + l.x + 2 * l.n + 2 * l.len + 1
  {
    var d := l.List();
    forall i | 0 <= i < |d|
      ensures 0 <= l.At(i) <= 2 * l.p + l.end + l.x + 2 * l.n + 2 * l.len + 1
    {
    }
  }

  lemma TwosUseUp(q: nat, tol: nat, free: nat, l: Layout)
    requires tol >= 1 && free <= 1 && q == StepsOfTwo(tol, free) && l == Layout(q - 1, 2 * (q - 1), 2, 0, q + 2)
    ensures forall i: nat :: i < q ==> HasLeft(l.List(), i, tol, free)
    ensures Spent(l.List(), 0, q, free) >= tol
  {
    var e := l.List();
    assert e[q] == 2 * q;
    forall i: nat | i < q
      ensures HasLeft(e, i, tol, free)
    {
      assert e[i] == 2 * i;
    }
  }

  lemma SuffixBlocks(d: seq<int>, a: nat, len: nat)
    requires TwoBlocks(d, a, len)
    ensures TwoBlocks(d[a..], 0, len)
  {
    var r := d[a..];
    forall i | 0 <= i < |r| - 1
      ensures r[i + 1] - r[i] == d[a + i + 1] - d[a + i]
    {
    }
  }

  lemma OneRun(d: seq<int>, len: nat, tol: nat, free: nat)
    requires TwoBlocks(d, 0, len) && tol > 0
    ensures Longest(d, 0, tol, free) == 2 * len
  {
    BlocksEnd(d, 0, len, 0, tol, free);
    hide RunEnd;
    assert Longest(d, |d|, tol, free) == 0;
  }

  /** More hits never make the longest run shorter, whatever the hits, if and only if there is no tolerance. */
  lemma MoreHitsExactly(tol: nat, free: nat)
    requires free <= 1
    ensures MoreHitsNeverShorten(tol, free) <==> tol == 0
  {
    if tol == 0 {
      forall d, e | Increasing(d) && Increasing(e) && (forall x :: x in d ==> x in e)
        ensures Longest(d, 0, tol, free) <= Longest(e, 0, tol, free)
      {
        MoreHitsWithoutTolerance(d, e, free);
      }
    } else {
      var d, e := FewerHitsLengthen(tol, free);
    }
  }

  // ----- more tolerance

  ghost predicate MoreToleranceNeverShortens(tol: nat, tol': nat, free: nat) {
    forall d :: Increasing(d) ==> Longest(d, 0, tol, free) <= Longest(d, 0, tol', free)
  }

  lemma WithoutTolerance(d: seq<int>, tol: nat, free: nat)
    requires Increasing(d)
    ensures Longest(d, 0, 0, free) <= Longest(d, 0, tol, free)
  {
    if d != [] {
      var a, b := LongestIsRun(d, 0, 0, free);
      RunsAreNoLonger(d, 0, a, b, 0, free);
      RunWithoutTolerance(d, a, 0, free);
      ConsecutiveIsShort(d, 0, tol, free, a, b);
    }
  }

  /** Where a step of two counts as two, a run never has used one: tolerances 1 and 2 decide alike. */
  lemma {:induction false} OneLikeTwoRun(d: seq<int>, i: nat, used: int)
    requires i < |d| && (used == 0 || used >= 2)
    ensures RunEnd(d, i, used, 1, 0) == RunEnd(d, i, used, 2, 0)
    decreases |d| - i
  {
    if i + 1 < |d| && Extends(d[i + 1] - d[i], used, 1) {
      OneLikeTwoRun(d, i + 1, used + Cost(d[i + 1] - d[i], 0));
    }
  }

  lemma {:induction false} OneLikeTwo(d: seq<int>, i: nat)
    requires i <= |d|
    ensures Longest(d, i, 1, 0) == Longest(d, i, 2, 0)
    decreases |d| - i
  {
    if i < |d| {
      OneLikeTwoRun(d, i, 0);
      OneLikeTwo(d, RunEnd(d, i, 0, 1, 0));
    }
  }

  /** Runs that each take `k` steps and leave out the next do not take exactly `k` of the last of `n` steps. */
  predicate Lands(n: nat, k: nat) {
    n < k || (n > k && Lands(n - k - 1, k))
  }

  lemma {:induction false} OneLessLands(n: nat, k: nat)
    requires !Lands(n, k) && k >= 1
    ensures n >= 1 && Lands(n - 1, k)
  {
    if n > k {
      OneLessLands(n - k - 1, k);
    }
  }

  /** What `m` steps of two cost. */
  function CostOfTwos(m: nat, free: nat): int {
    if free == 0 then 2 * m else m
  }

  /** From position `i` on there are `n` steps of two up to position `a`. */
  ghost predicate Twos(d: seq<int>, i: nat, a: nat) {
    i <= a < |d| && forall m :: i <= m <= a ==> d[m] == d[i] + 2 * (m - i)
  }

  lemma TwosGoOn(d: seq<int>, i: nat, j: nat, a: nat, tol: nat, free: nat)
    requires Twos(d, i, a) && i <= j <= a && free <= 1
    requires j > i ==> CostOfTwos(j - 1 - i, free) < tol
    ensures RunEnd(d, i, 0, tol, free) == RunEnd(d, j, CostOfTwos(j - i, free), tol, free)
  {
    hide RunEnd;
    forall m: nat | i <= m < j
      ensures GoesOn(d, i, m, 0, tol, free)
    {
      assert d[m + 1] == d[i] + 2 * (m + 1 - i);
    }
    RunGoesOn(d, i, j, 0, tol, free);
  }

  /** Runs that go through steps of two, and reach the first block with tolerance left, take in both blocks. */
  lemma {:induction false} TwosReachBlocks(d: seq<int>, i: nat, a: nat, len: nat, k: nat, tol: nat, free: nat)
    requires Twos(d, i, a) && TwoBlocks(d, a, len) && free <= 1
    requires k >= 1 && CostOfTwos(k - 1, free) < tol <= CostOfTwos(k, free) && Lands(a - i, k)
    ensures Longest(d, i, tol, free) >= 2 * len
    decreases a - i
  {
    hide TwoBlocks;
    if a - i < k {
      TwosGoOn(d, i, a, a, tol, free);
      BlocksEnd(d, a, len, CostOfTwos(a - i, free), tol, free);
      hide RunEnd, CostOfTwos;
      assert RunEnd(d, i, 0, tol, free) == |d|;
    } else {
      TwosGoOn(d, i, i + k, a, tol, free);
      assert d[i + k + 1] - d[i + k] == 2;
      assert RunEnd(d, i, 0, tol, free) == i + k + 1;
      TwosReachBlocks(d, i + k + 1, a, len, k, tol, free);
    }
  }

  /** The longer steps lead from the first channel to one, number `p`, that exhausts the smaller tolerance and not
      the larger; the larger is exhausted just at the blocks, the smaller is not. */
  ghost predicate Separates(l: Layout, k: nat, tol: nat, tol': nat, free: nat) {
    var d := l.List();
    && l.Ok() && free <= 1 && l.len == l.Blocks() + 1
    && k >= 1 && CostOfTwos(k - 1, free) < tol <= CostOfTwos(k, free) && Lands(l.n, k)
    && (forall i: nat :: i < l.p ==> HasLeft(d, i, tol, free)) && Spent(d, 0, l.p, free) >= tol
    && (forall i: nat :: i < l.Blocks() ==> HasLeft(d, i, tol', free)) && Spent(d, 0, l.Blocks(), free) >= tol'
  }

  lemma SeparatedTolerances(l: Layout, k: nat, tol: nat, tol': nat, free: nat)
    requires Separates(l, k, tol, tol', free)
    ensures Longest(l.List(), 0, tol, free) > Longest(l.List(), 0, tol', free)
  {
    hide Layout.At, TwoBlocks, HasLeft, RunEnd, Lands, CostOfTwos, Longest, Twos, Spent;
    var d := l.List();
    UsedUpAtBlocks(l, tol', free);
    ListGoesOn(l, l.p, tol, free);
    StepAt(l, l.p);
    RunStops(d, l.p, Spent(d, 0, l.p, free), tol, free);
    ListHasBlocks(l);
    ListHasTwos(l);
    TwosReachBlocks(d, l.p + 1, l.Blocks(), l.len, k, tol, free);
    LongestFromEnd(d, tol, free);
  }

  lemma LongestFromEnd(d: seq<int>, tol: nat, free: nat)
    requires d != []
    ensures Longest(d, 0, tol, free) >= Longest(d, RunEnd(d, 0, 0, tol, free), tol, free)
  {
    hide RunEnd;
  }

  lemma RunStops(d: seq<int>, i: nat, used: int, tol: nat, free: nat)
    requires i + 1 < |d| && d[i + 1] - d[i] >= 2 && used >= tol
    ensures RunEnd(d, i, used, tol, free) == i + 1
  {
  }

  lemma ListHasTwos(l: Layout)
    requires l.Ok()
    ensures Twos(l.List(), l.p + 1, l.Blocks())
  {
  }

  /** The number of steps that use up the tolerance exactly, unless it is 1 and steps count in full, and the
      channel they reach. */
  function StepsTo(tol: nat, free: nat): nat {
    if free == 1 then tol else if tol == 1 then 1 else tol / 2
  }

  function ReachOf(tol: nat, free: nat): nat {
    if free == 1 then 2 * tol else if tol == 1 then 2 else tol
  }

  lemma SmallerUsedUp(l: Layout, tol: nat, free: nat)
    requires free <= 1 && tol >= 1 && l.p == StepsTo(tol, free) && l.end == ReachOf(tol, free)
    ensures forall i: nat :: i < l.p ==> HasLeft(l.List(), i, tol, free)
    ensures Spent(l.List(), 0, l.p, free) == if free == 0 && tol == 1 then 2 else tol
    ensures 2 <= l.end - 2 * (l.p - 1) <= MAX_STEP
  {
    var d := l.List();
    assert d[l.p] == l.end;
    forall i: nat | i < l.p
      ensures HasLeft(d, i, tol, free)
    {
      assert d[i] == 2 * i;
    }
  }

  /** What is spent at the `j`-th of the steps of two. */
  lemma SpentAtTwos(l: Layout, j: nat, free: nat)
    requires l.x >= 2 && j <= l.n && free <= 1 && l.len > 0
    ensures var d := l.List();
      Spent(d, 0, l.p + 1 + j, free) == Spent(d, 0, l.p, free) + l.x - free + CostOfTwos(j, free)
  {
    var d := l.List();
    assert d[l.p] == l.At(l.p) && d[l.p + 1 + j] == l.At(l.p + 1 + j) && d[0] == l.At(0);
  }

  lemma LargerUsedUp(l: Layout, tol: nat, tol': nat, free: nat)
    requires free <= 1 && tol < tol' && l.x >= 2 && l.len > 0
    requires forall i: nat :: i < l.p ==> HasLeft(l.List(), i, tol, free)
    requires var spent := Spent(l.List(), 0, l.p, free);
      && spent < tol' <= spent + l.x - free + CostOfTwos(l.n, free)
      && (l.n > 0 ==> spent + l.x - free + CostOfTwos(l.n - 1, free) < tol')
    ensures forall i: nat :: i < l.Blocks() ==> HasLeft(l.List(), i, tol', free)
    ensures Spent(l.List(), 0, l.Blocks(), free) >= tol'
  {
    hide Layout.At, Spent;
    var d := l.List();
    SpentAtTwos(l, l.n, free);
    forall i: nat | i < l.Blocks()
      ensures HasLeft(d, i, tol', free)
    {
      assert i < l.p ==> HasLeft(d, i, tol, free);
      if i > l.p {
        SpentAtTwos(l, i - l.p - 1, free);
      }
    }
  }

  /** The number of steps of two that `left` of the tolerance still allows. */
  function StepsLeft(left: int, free: nat): nat {
    if left <= 0 then 0 else if free == 0 then (left + 1) / 2 else left
  }

  /** What `n` steps of two after a step of `x` have to spend, from what the smaller tolerance has spent. */
  predicate UsesUp(x: nat, n: nat, tol: nat, tol': nat, free: nat) {
    var spent := if free == 0 && tol == 1 then 2 else tol;
    && 2 <= x <= MAX_STEP && spent < tol' <= spent + x - free + CostOfTwos(n, free)
    && (n > 0 ==> spent + x - free + CostOfTwos(n - 1, free) < tol')
  }

  lemma LayoutSeparates(l: Layout, tol: nat, tol': nat, free: nat)
    requires free <= 1 && 1 <= tol < tol' && l.p == StepsTo(tol, free) && l.end == ReachOf(tol, free)
    requires l.len == l.Blocks() + 1 && Lands(l.n, StepsOfTwo(tol, free)) && UsesUp(l.x, l.n, tol, tol', free)
    ensures Separates(l, StepsOfTwo(tol, free), tol, tol', free)
  {
    hide Layout.At, Spent, HasLeft, Lands;
    SmallerUsedUp(l, tol, free);
    LargerUsedUp(l, tol, tol', free);
  }

  /** A list on which the run of the larger tolerance ends between two blocks, and one of the smaller goes on. */
  lemma SeparatingLayout(tol: nat, tol': nat, free: nat) returns (l: Layout, k: nat)
    requires free <= 1 && 1 <= tol < tol' && !(free == 0 && tol == 1 && tol' == 2)
    ensures Separates(l, k, tol, tol', free)
  {
    hide Layout.At, Separates, Lands;
    k := StepsOfTwo(tol, free);
    var x, n := ChooseSteps(tol, tol', free);
    l := Layout(StepsTo(tol, free), ReachOf(tol, free), x, n, StepsTo(tol, free) + 2 + n);
    LayoutSeparates(l, tol, tol', free);
  }

  lemma ChooseSteps(tol: nat, tol': nat, free: nat) returns (x: nat, n: nat)
    requires free <= 1 && 1 <= tol < tol' && !(free == 0 && tol == 1 && tol' == 2)
    ensures Lands(n, StepsOfTwo(tol, free)) && UsesUp(x, n, tol, tol', free)
  {
    hide Lands;
    var spent := if free == 0 && tol == 1 then 2 else tol;
    n := StepsLeft(tol' - spent - 2 + free, free);
    if Lands(n, StepsOfTwo(tol, free)) {
      x := 2;
    } else {
      OneLessLands(n, StepsOfTwo(tol, free));
      x, n := if free == 0 then 4 else 3, n - 1;
    }
  }

  /** Going from tolerance `tol` to a larger one never makes the longest run shorter, whatever the hits, if and
      only if there was none, or nothing changes: which from 1 to 2 it does not where steps count in full. */
  lemma MoreToleranceExactly(tol: nat, tol': nat, free: nat)
    requires tol <= tol' && free <= 1
    ensures MoreToleranceNeverShortens(tol, tol', free) <==>
      tol == 0 || tol == tol' || (free == 0 && tol == 1 && tol' == 2)
  {
    if tol == 0 || tol == tol' || (free == 0 && tol == 1 && tol' == 2) {
      forall d | Increasing(d)
        ensures Longest(d, 0, tol, free) <= Longest(d, 0, tol', free)
      {
        if tol == 0 {
          WithoutTolerance(d, tol', free);
        } else if tol != tol' {
          OneLikeTwo(d, 0);
        }
      }
    } else {
      var l, k := SeparatingLayout(tol, tol', free);
      SeparatedTolerances(l, k, tol, tol', free);
      ListIncreases(l);
    }
  }
}
