/** The adjacency of a window: the length of its longest run of channels with hits. */
module Adjacency {
  import opened TriggerTypes
  import opened GreedyRuns
  import opened MissedChannels
  import opened ChannelLists

  /** Where the walk along the sorted channels `c` stands at position `i`: at channel number `k` of the
      distinct ones. */
  ghost predicate StandsAt(c: seq<int>, d: seq<int>, i: nat, k: nat) {
    i < |c| && k < |d| && d == Distinct(c) && k + 1 == |Distinct(c[..i + 1])| && d[..k + 1] == Distinct(c[..i + 1])
  }

  lemma StandsAtStart(c: seq<int>)
    requires c != []
    ensures StandsAt(c, Distinct(c), 0, 0)
  {
    assert c[..1] == [c[0]] && [c[0]][..0] == [];
    DistinctPrefix(c, 1);
  }

  lemma StandsAtNext(c: seq<int>, d: seq<int>, i: nat, k: nat)
    requires StandsAt(c, d, i, k) && i + 1 < |c|
    ensures c[i + 1] == c[i] ==> StandsAt(c, d, i + 1, k)
    ensures c[i + 1] != c[i] ==> StandsAt(c, d, i + 1, k + 1)
  {
    DistinctStep(c, i);
    DistinctPrefix(c, i + 2);
  }

  lemma StandsAtChannel(c: seq<int>, d: seq<int>, i: nat, k: nat)
    requires StandsAt(c, d, i, k)
    ensures d[k] == c[i] && (i == |c| - 1 ==> k == |d| - 1)
  {
    assert d[..k + 1][k] == c[..i + 1][i];
    if i == |c| - 1 {
      assert c[..i + 1] == c;
    }
  }

  /** Where the walk has only met the first channel, it stands at it. */
  lemma StandsAtFirst(c: seq<int>, d: seq<int>, i: nat, k: nat)
    requires StandsAt(c, d, i, k) && Sorted(c) && c[i] == c[0]
    ensures k == 0
  {
    DistinctCorrect(c);
    StandsAtStart(c);
    StandsAtChannel(c, d, i, k);
    StandsAtChannel(c, d, 0, 0);
  }

  /** The state of the walk: a run that began at `a` has reached `k`, and `max` is the longest run before it. */
  ghost predicate Walked(d: seq<int>, tol: nat, a: nat, k: nat, adj: int, max: int, used: int) {
    && a <= k < |d| && adj == k - a + 1 && used >= 0
    && RunEnd(d, a, 0, tol, 0) == RunEnd(d, k, used, tol, 0)
    && Longest(d, 0, tol, 0) == Max(max, Longest(d, a, tol, 0))
  }

  lemma WalkOn(d: seq<int>, tol: nat, a: nat, k: nat, adj: int, max: int, used: int)
    requires Walked(d, tol, a, k, adj, max, used) && k + 1 < |d|
    ensures Extends(d[k + 1] - d[k], used, tol) && d[k] < d[k + 1] ==>
      Walked(d, tol, a, k + 1, adj + 1, max, used + Cost(d[k + 1] - d[k], 0))
    ensures !Extends(d[k + 1] - d[k], used, tol) ==> Walked(d, tol, k + 1, k + 1, 1, Max(max, adj), 0)
  {
  }

  lemma WalkEnd(d: seq<int>, tol: nat, a: nat, adj: int, max: int, used: int)
    requires d != [] && Walked(d, tol, a, |d| - 1, adj, max, used)
    ensures Max(max, adj) == Longest(d, 0, tol, 0)
  {
  }

  /** The distinct channels of a list of primitives tell what its adjacency is. The walk never closes the
      run it is in when all hits are on one channel, unless that is channel 0. */
  ghost predicate IsAdjacency(adj: int, d: seq<int>, tol: nat) {
    adj == AdjacencyOf(d, tol)
  }

  ghost function AdjacencyOf(d: seq<int>, tol: nat): int {
    if |d| == 1 && d[0] != 0 then 0 else Longest(d, 0, tol, 0)
  }

  /** All hits are on one channel, which is not channel 0. */
  ghost predicate AllOnOneChannel(tps: TPs) {
    tps != [] && tps[0].channel != 0 && forall i :: 0 <= i < |tps| ==> tps[i].channel == tps[0].channel
  }

  lemma OneChannelListed(d: seq<int>, tps: TPs)
    requires ListsChannels(d, tps)
    ensures |d| == 1 && d[0] != 0 <==> AllOnOneChannel(tps)
  {
    assert forall i :: 0 <= i < |tps| ==> tps[i].channel in d;
    assert forall j :: 0 <= j < |d| ==> d[j] in d;
    assert |d| > 1 ==> d[0] < d[1];
    if |d| == 1 && d[0] != 0 {
      var i :| 0 <= i < |tps| && tps[i].channel == d[0];
      assert AllOnOneChannel(tps);
    }
    assert tps != [] ==> tps[0].channel in d;
  }

  /** Adjacency is the length of the longest run exactly when the hits are not all on one channel other than 0. */
  lemma AdjacencyIsLongest(d: seq<int>, tps: TPs, tol: nat, adj: int)
    requires ListsChannels(d, tps) && IsAdjacency(adj, d, tol)
    ensures adj == Longest(d, 0, tol, 0) <==> !AllOnOneChannel(tps)
    ensures AllOnOneChannel(tps) ==> adj == 0
  {
    OneChannelListed(d, tps);
  }

  /** The adjacency of the channels of `tps`: the longest run among the distinct channels, whatever the
      order of the primitives and however many there are on a channel. */
  method CheckAdjacency(tps: TPs, tol: nat) returns (max: nat)
    requires |tps| < TWO_16
    ensures forall d :: ListsChannels(d, tps) ==> IsAdjacency(max, d, tol)
    ensures forall d :: ListsChannels(d, tps) ==> (max == Longest(d, 0, tol, 0) <==> !AllOnOneChannel(tps))
  {
    var s := SortByChannel(tps);
    var c := ChannelsOf(s);
    DistinctListsChannels(tps, s);
    DistinctCorrect(c);
    assert |s| == |tps| by {
      assert |multiset(s)| == |multiset(tps)|;
    }
    max := WalkChannels(c, tol);
    hide IsAdjacency, AllOnOneChannel, ListsChannels, Longest;
    forall d | ListsChannels(d, tps)
      ensures IsAdjacency(max, d, tol) && (max == Longest(d, 0, tol, 0) <==> !AllOnOneChannel(tps))
    {
      assert d == Distinct(c);
      AdjacencyIsLongest(d, tps, tol, max);
    }
  }

  lemma {:induction false} DistinctIsShort(c: seq<int>)
    ensures |Distinct(c)| <= |c|
  {
    if c != [] {
      DistinctIsShort(c[..|c| - 1]);
    }
  }

  // ----- the walk, step by step

  /** The walk is at position `i`, or has ended. */
  ghost predicate Walking(c: seq<int>, tol: nat, i: nat, a: nat, k: nat, adj: int, max: int, used: int) {
    var d := Distinct(c);
    && 0 <= max <= |c|
    && if i < |c| then
         StandsAt(c, d, i, k) && Walked(d, tol, a, k, adj, max, used) && (k == 0 && c[0] != 0 ==> max == 0)
       else
         IsAdjacency(max, d, tol)
  }

  ghost predicate ChannelRange(c: seq<int>) {
    Sorted(c) && 0 < |c| < TWO_16 && forall i :: 0 <= i < |c| ==> 0 <= c[i] < 0x8000_0000
  }

  lemma WalkStarts(c: seq<int>, tol: nat)
    requires ChannelRange(c)
    ensures Walking(c, tol, 0, 0, 0, 1, 0, 0)
  {
    StandsAtStart(c);
  }

  lemma WalkedBounds(c: seq<int>, tol: nat, i: nat, a: nat, k: nat, adj: int, max: int, used: int)
    requires ChannelRange(c) && i < |c| && Walking(c, tol, i, a, k, adj, max, used)
    ensures 1 <= adj < TWO_16 && used >= 0 && max >= 0
  {
    DistinctIsShort(c);
  }

  /** The next hit is on the same channel. On channel 0 the walk takes it for the end of the list. */
  lemma WalkSame(c: seq<int>, tol: nat, i: nat, a: nat, k: nat, adj: int, max: int, used: int)
    requires ChannelRange(c) && i + 1 < |c| && Walking(c, tol, i, a, k, adj, max, used) && c[i + 1] == c[i]
    ensures Walking(c, tol, i + 1, a, k, adj, max, used)
    ensures c[i] == 0 ==> Walking(c, tol, i + 1, k, k, 1, Max(max, adj), 0)
  {
    var d := Distinct(c);
    StandsAtNext(c, d, i, k);
    if c[i] == 0 {
      assert c[0] <= c[i];
      StandsAtFirst(c, d, i, k);
    }
  }

  lemma WalkDifferent(c: seq<int>, tol: nat, i: nat, a: nat, k: nat, adj: int, max: int, used: int)
    requires ChannelRange(c) && i + 1 < |c| && Walking(c, tol, i, a, k, adj, max, used) && c[i + 1] != c[i]
    ensures Extends(c[i + 1] - c[i], used, tol) ==>
      Walking(c, tol, i + 1, a, k + 1, adj + 1, max, used + Cost(c[i + 1] - c[i], 0))
    ensures !Extends(c[i + 1] - c[i], used, tol) ==> Walking(c, tol, i + 1, k + 1, k + 1, 1, Max(max, adj), 0)
  {
    hide StandsAt, Longest, RunEnd, Distinct, Extends, Cost, IsAdjacency;
    var d := Distinct(c);
    StandsAtNext(c, d, i, k);
    StandsAtChannel(c, d, i, k);
    StandsAtChannel(c, d, i + 1, k + 1);
    DistinctIsShort(c);
    assert c[i] <= c[i + 1];
    WalkOn(d, tol, a, k, adj, max, used);
  }

  /** At the end the walk closes its run, unless the last channel is also the first and not channel 0. */
  lemma WalkEnds(c: seq<int>, tol: nat, a: nat, k: nat, adj: int, max: int, used: int)
    requires ChannelRange(c) && Walking(c, tol, |c| - 1, a, k, adj, max, used)
    ensures if c[0] == c[|c| - 1] && c[0] != 0
      then Walking(c, tol, |c|, a, k, adj, max, used) else Walking(c, tol, |c|, k, k, 1, Max(max, adj), 0)
  {
    var d := Distinct(c);
    StandsAtChannel(c, d, |c| - 1, k);
    StandsAtStart(c);
    StandsAtChannel(c, d, 0, 0);
    DistinctIsShort(c);
    DistinctCorrect(c);
    hide StandsAt, Distinct;
    WalkEnd(d, tol, a, adj, max, used);
    if c[0] == c[|c| - 1] {
      assert d[0] == d[|d| - 1];
    }
  }

  lemma NothingAdjacent(tol: nat)
    ensures IsAdjacency(0, Distinct([]), tol)
  {
  }

  lemma WalkHasEnded(c: seq<int>, tol: nat, i: nat, a: nat, k: nat, adj: int, max: int, used: int)
    requires i >= |c| && Walking(c, tol, i, a, k, adj, max, used)
    ensures max >= 0 && IsAdjacency(max, Distinct(c), tol)
  {
  }

  lemma NextIndex(i: nat, n: nat)
    requires i < n
    ensures (i + 1) % n == if i + 1 == n then 0 else i + 1
  {
  }

  /** What happens between two hits; counts are kept in 16 bits. */
  method CountStep(channel: int, nextChannel: int, tol: nat, adj: int, max: int, used: int) returns (adj': int,
                   max': int, used': int)
    requires 0 <= adj
    ensures nextChannel == channel ==> adj' == adj && max' == max && used' == used
    ensures nextChannel > channel && Extends(nextChannel - channel, used, tol) ==>
      adj' == (adj + 1) % TWO_16 && max' == max && used' == used + Cost(nextChannel - channel, 0)
    ensures nextChannel != channel && !Extends(nextChannel - channel, used, tol) ==>
      adj' == 1 && max' == Max(max, adj) && used' == 0
  {
    adj', max', used' := adj, max, used;
    if nextChannel == channel {
    } else if nextChannel == channel + 1 {
      adj' := (adj + 1) % TWO_16;
    } else if channel + 2 <= nextChannel <= channel + 5 && used < tol {
      adj' := (adj + 1) % TWO_16;
      for j := 0 to nextChannel - channel
        invariant used' == used + j
      {
        used' := used' + 1;
      }
    } else {
      if adj > max {
        max' := adj;
      }
      adj' := 1;
      used' := 0;
    }
  }

  method NextChannel(c: seq<int>, i: nat) returns (nextChannel: int)
    requires i < |c|
    ensures nextChannel == Compared(c, i)
  {
    NextIndex(i, |c|);
    nextChannel := c[(i + 1) % |c|];
    if nextChannel == 0 {
      nextChannel := Wrap32(c[i] - 1);
    }
  }

  method WalkChannels(c: seq<int>, tol: nat) returns (max: nat)
    requires c != [] ==> ChannelRange(c)
    ensures IsAdjacency(max, Distinct(c), tol)
  {
    NothingAdjacent(tol);
    hide Walking, Compared, ChannelRange, Extends, IsAdjacency, Distinct, Cost, Max;
    if c == [] {
      return 0;
    }
    var adj, tolCount := 1, 0;
    var best := 0;
    ghost var a, k := 0, 0;
    WalkStarts(c, tol);
    var i := 0;
    while i < |c|
      invariant 0 <= i <= |c|
      invariant Walking(c, tol, i, a, k, adj, best, tolCount)
    {
      ghost var a', k' := WalkStep(c, tol, i, a, k, adj, best, tolCount);
      var nextChannel := NextChannel(c, i);
      adj, best, tolCount := CountStep(c[i], nextChannel, tol, adj, best, tolCount);
      a, k := a', k';
      i := i + 1;
    }
    WalkHasEnded(c, tol, i, a, k, adj, best, tolCount);
    max := best;
  }

  /** The channel that the walk compares with: the next hit's, but at the end of the list the first, and
      the one before the current channel in place of channel 0. */
  function Compared(c: seq<int>, i: nat): int
    requires i < |c|
  {
    var next := if i + 1 == |c| then c[0] else c[i + 1];
    if next == 0 then Wrap32(c[i] - 1) else next
  }

  lemma ComparedCases(c: seq<int>, i: nat)
    requires ChannelRange(c) && i < |c|
    ensures i + 1 < |c| && c[i + 1] != c[i] ==> Compared(c, i) == c[i + 1] > c[i]
    ensures (if i + 1 == |c| then c[0] == c[i] else c[i + 1] == c[i]) && c[i] != 0 ==> Compared(c, i) == c[i]
    ensures i + 1 < |c| && c[i + 1] == c[i] == 0 ==> Compared(c, i) != c[i]
    ensures i + 1 == |c| && !(c[0] == c[i] && c[i] != 0) ==> Compared(c, i) != c[i]
    ensures i + 1 == |c| || c[i + 1] == c[i] ==> !(1 <= Compared(c, i) - c[i] <= MAX_STEP)
  {
    assert i + 1 < |c| ==> c[i] <= c[i + 1];
    assert c[0] <= c[i];
  }

  lemma WalkStep(c: seq<int>, tol: nat, i: nat, a: nat, k: nat, adj: int, max: int, used: int) returns (a': nat,
                 k': nat)
    requires ChannelRange(c) && i < |c| && Walking(c, tol, i, a, k, adj, max, used)
    ensures 1 <= adj && used >= 0 && max >= 0
    ensures var next := Compared(c, i); var step := next - c[i];
      if next == c[i] then Walking(c, tol, i + 1, a', k', adj, max, used)
      else if Extends(step, used, tol) then
        step > 0 && (adj + 1) % TWO_16 == adj + 1 && Walking(c, tol, i + 1, a', k', adj + 1, max, used + Cost(step, 0))
      else Walking(c, tol, i + 1, a', k', 1, Max(max, adj), 0)
  {
    hide Walking, ChannelRange;
    WalkedBounds(c, tol, i, a, k, adj, max, used);
    ComparedCases(c, i);
    hide Compared;
    a', k' := a, k;
    if i + 1 == |c| {
      WalkEnds(c, tol, a, k, adj, max, used);
      if !(c[0] == c[i] && c[i] != 0) {
        a' := k;
      }
    } else if c[i + 1] == c[i] {
      WalkSame(c, tol, i, a, k, adj, max, used);
      if c[i] == 0 {
        a' := k;
      }
    } else {
      WalkDifferent(c, tol, i, a, k, adj, max, used);
      if Extends(c[i + 1] - c[i], used, tol) {
        k' := k + 1;
        WalkedBounds(c, tol, i + 1, a', k', adj + 1, max, used + Cost(c[i + 1] - c[i], 0));
      } else {
        a', k' := k + 1, k + 1;
      }
    }
  }

  // ----- what adjacency means

  /** With hits on at least two channels, adjacency is the number of channels with hits in some run that misses no
      more channels than a run can, in at most as many gaps as a run can have, each of at most four channels, and
      no stretch of consecutive channels is longer; without tolerance that run is such a stretch. */
  lemma AdjacencyMeans(d: seq<int>, tol: nat, adj: int) returns (a: nat, b: nat)
    requires Increasing(d) && |d| >= 2 && IsAdjacency(adj, d, tol)
    ensures adj <= |d|
    ensures a < b <= |d| && b - a == adj && IsRun(d, 0, a, b, tol, 0)
    ensures Missed(d, a, b) <= MostMissed(tol, 0) && Gaps(d, a, b) <= MostGaps(tol, 0)
    ensures forall j :: a <= j < b - 1 ==> d[j + 1] - d[j] <= MAX_STEP
    ensures forall x: nat, y: nat :: Consecutive(d, x, y) ==> y - x <= adj
    ensures tol == 0 ==> Consecutive(d, a, b)
  {
    a, b := LongestIsRun(d, 0, tol, 0);
    RunsAreNoLonger(d, 0, a, b, tol, 0);
    RunMissesFew(d, a, 0, tol, 0);
    RunHasFewGaps(d, a, 0, tol, 0);
    forall j | a <= j < b - 1
      ensures d[j + 1] - d[j] <= MAX_STEP
    {
      RunSteps(d, a, 0, tol, 0, j);
    }
    forall x: nat, y: nat | Consecutive(d, x, y)
      ensures y - x <= adj
    {
      ConsecutiveIsShort(d, 0, tol, 0, x, y);
    }
    if tol == 0 {
      RunWithoutTolerance(d, a, 0, 0);
    }
  }
}
