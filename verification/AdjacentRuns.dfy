/** The search of a window for a long run of adjacent channels, with one primitive for each channel of it. */
module AdjacentRuns {
  import opened TriggerTypes
  import opened GreedyRuns
  import opened ChannelLists
  import opened Adjacency

  /** `run` has one primitive for each channel of the first long run of `d`, in order of channel; it is
      empty if there is no long run. */
  ghost predicate IsFirstLong(run: TPs, d: seq<int>, threshold: nat, tol: nat) {
    match FirstLong(d, 0, threshold, tol, 1)
    case NoRun => run == []
    case Run(a, b) => a < b <= |d| && ChannelsOf(run) == d[a..b]
  }

  /** Where the search stands at position `i` of the sorted primitives `s`: `run` holds one for each channel
      from number `a` on to number `k`, or nothing yet if `a` is `k`. */
  ghost predicate Searching(s: TPs, threshold: nat, tol: nat, i: nat, a: nat, k: nat,
                            run: TPs, used: int) {
    var c := ChannelsOf(s);
    var d := Distinct(c);
    && StandsAt(c, d, i, k) && a <= k && used >= 0
    && (if run == [] then a == k && used == 0 else ChannelsOf(run) == d[a..k + 1])
    && RunEnd(d, a, 0, tol, 1) == RunEnd(d, k, used, tol, 1)
    && FirstLong(d, 0, threshold, tol, 1) == FirstLong(d, a, threshold, tol, 1)
    && multiset(run) <= multiset(s[..i + 1])
  }

  ghost predicate ManyPrimitives(s: TPs) {
    s != [] && SortedByChannel(s)
  }

  lemma SearchStarts(s: TPs, threshold: nat, tol: nat)
    requires ManyPrimitives(s)
    ensures Searching(s, threshold, tol, 0, 0, 0, [], 0)
  {
    StandsAtStart(ChannelsOf(s));
  }

  /** The run with the current primitive, if it was empty. */
  function Begun(run: TPs, tp: TriggerPrimitive): TPs {
    if run == [] then [tp] else run
  }

  lemma PrefixOneMore(s: TPs, i: nat, run: TPs)
    requires i + 1 < |s| && multiset(run) <= multiset(s[..i + 1])
    ensures multiset(run) <= multiset(s[..i + 2])
    ensures multiset(run + [s[i + 1]]) <= multiset(s[..i + 2])
  {
    assert s[..i + 2] == s[..i + 1] + [s[i + 1]];
  }

  lemma PrefixHolds(s: TPs, i: nat)
    requires i < |s|
    ensures multiset([s[i]]) <= multiset(s[..i + 1])
  {
    assert s[..i + 1] == s[..i] + [s[i]];
  }

  lemma SearchSame(s: TPs, threshold: nat, tol: nat, i: nat, a: nat, k: nat, run: TPs, used: int)
    requires ManyPrimitives(s) && i + 1 < |s| && Searching(s, threshold, tol, i, a, k, run, used)
    requires s[i + 1].channel == s[i].channel
    ensures Searching(s, threshold, tol, i + 1, a, k, run, used)
  {
    StandsAtNext(ChannelsOf(s), Distinct(ChannelsOf(s)), i, k);
    PrefixOneMore(s, i, run);
    hide StandsAt, RunEnd, FirstLong;
  }

  lemma SearchBegins(s: TPs, threshold: nat, tol: nat, i: nat, a: nat, k: nat, run: TPs, used: int)
    requires i < |s| && Searching(s, threshold, tol, i, a, k, run, used)
    ensures Searching(s, threshold, tol, i, a, k, Begun(run, s[i]), used)
  {
    var c := ChannelsOf(s);
    StandsAtChannel(c, Distinct(c), i, k);
    PrefixHolds(s, i);
    assert Distinct(c)[k..k + 1] == [c[i]];
    assert ChannelsOf([s[i]]) == [c[i]];
    hide StandsAt, RunEnd, FirstLong;
  }

  lemma SearchStands(s: TPs, threshold: nat, tol: nat, i: nat, a: nat, k: nat, run: TPs, used: int)
    requires ManyPrimitives(s) && i + 1 < |s| && Searching(s, threshold, tol, i, a, k, run, used)
    requires s[i + 1].channel != s[i].channel
    ensures var c := ChannelsOf(s); var d := Distinct(c);
      && StandsAt(c, d, i + 1, k + 1) && k + 1 < |d| && c[i] < c[i + 1] && d[k] == c[i] && d[k + 1] == c[i + 1]
  {
    hide RunEnd, FirstLong;
    var c := ChannelsOf(s);
    var d := Distinct(c);
    assert c[i] <= c[i + 1];
    StandsAtNext(c, d, i, k);
    StandsAtChannel(c, d, i, k);
    StandsAtChannel(c, d, i + 1, k + 1);
  }

  lemma SearchContinues(s: TPs, threshold: nat, tol: nat, i: nat, a: nat, k: nat, run: TPs, used: int)
    requires ManyPrimitives(s) && i + 1 < |s| && Searching(s, threshold, tol, i, a, k, run, used) && run != []
    requires s[i + 1].channel != s[i].channel && Extends(s[i + 1].channel - s[i].channel, used, tol)
    ensures Searching(s, threshold, tol, i + 1, a, k + 1, run + [s[i + 1]],
                      used + Cost(s[i + 1].channel - s[i].channel, 1))
  {
    hide StandsAt, Distinct, FirstLong, ManyPrimitives;
    var d := Distinct(ChannelsOf(s));
    SearchStands(s, threshold, tol, i, a, k, run, used);
    PrefixOneMore(s, i, run);
    assert d[a..k + 2] == d[a..k + 1] + [d[k + 1]];
    assert ChannelsOf(run + [s[i + 1]]) == ChannelsOf(run) + [s[i + 1].channel];
  }

  lemma SearchCloses(s: TPs, threshold: nat, tol: nat, i: nat, a: nat, k: nat, run: TPs, used: int)
    requires ManyPrimitives(s) && i + 1 < |s| && Searching(s, threshold, tol, i, a, k, run, used) && run != []
    requires s[i + 1].channel != s[i].channel && !Extends(s[i + 1].channel - s[i].channel, used, tol)
    ensures |run| <= threshold ==> Searching(s, threshold, tol, i + 1, k + 1, k + 1, [], 0)
    ensures |run| > threshold ==> IsFirstLong(run, Distinct(ChannelsOf(s)), threshold, tol)
  {
    hide StandsAt, Distinct, ManyPrimitives;
    var d := Distinct(ChannelsOf(s));
    SearchStands(s, threshold, tol, i, a, k, run, used);
    assert |run| == |ChannelsOf(run)| == k + 1 - a;
    assert RunEnd(d, a, 0, tol, 1) == k + 1;
    hide RunEnd;
  }

  lemma SearchOn(s: TPs, threshold: nat, tol: nat, i: nat, a: nat, k: nat, run: TPs, used: int)
    requires ManyPrimitives(s) && i + 1 < |s| && Searching(s, threshold, tol, i, a, k, run, used) && run != []
    requires s[i + 1].channel != s[i].channel
    ensures var step := s[i + 1].channel - s[i].channel;
      && step > 0
      && (Extends(step, used, tol) ==>
            Searching(s, threshold, tol, i + 1, a, k + 1, run + [s[i + 1]], used + Cost(step, 1)))
      && (!Extends(step, used, tol) && |run| <= threshold ==> Searching(s, threshold, tol, i + 1, k + 1, k + 1, [], 0))
      && (!Extends(step, used, tol) && |run| > threshold ==> IsFirstLong(run, Distinct(ChannelsOf(s)), threshold, tol))
  {
    hide Searching, IsFirstLong, ManyPrimitives, StandsAt, Extends, Cost;
    SearchStands(s, threshold, tol, i, a, k, run, used);
    if Extends(s[i + 1].channel - s[i].channel, used, tol) {
      SearchContinues(s, threshold, tol, i, a, k, run, used);
    } else {
      SearchCloses(s, threshold, tol, i, a, k, run, used);
    }
  }

  lemma SearchEnds(s: TPs, threshold: nat, tol: nat, a: nat, k: nat, run: TPs, used: int)
    requires ManyPrimitives(s) && Searching(s, threshold, tol, |s| - 1, a, k, run, used) && run != []
    ensures IsFirstLong(if |run| > threshold then run else [], Distinct(ChannelsOf(s)), threshold, tol)
  {
    var c := ChannelsOf(s);
    var d := Distinct(c);
    StandsAtChannel(c, d, |s| - 1, k);
    assert |run| == |ChannelsOf(run)| == k + 1 - a;
    assert FirstLong(d, |d|, threshold, tol, 1) == NoRun;
    assert RunEnd(d, a, 0, tol, 1) == |d|;
    assert d[a..k + 1] == d[a..|d|];
    hide StandsAt, Distinct;
  }

  /** The unsigned step to the channel compared with: at the end of the list, the one before. */
  lemma StepValue(channel: Channel, next: Channel)
    ensures next > channel ==> Wrap32(next - channel) == next - channel
    ensures Wrap32(Wrap32(channel - 1) - channel) == TWO_32 - 1 && Wrap32(channel - 1) != channel
  {
  }

  /** A long run of adjacent channels in the window: that of lowest channels, with one primitive for each of
      them; empty if there is none. */
  method CheckAdjacency(tps: TPs, threshold: nat, tol: nat) returns (r: TPs)
    ensures forall d :: ListsChannels(d, tps) ==> IsFirstLong(r, d, threshold, tol)
    ensures multiset(r) <= multiset(tps)
  {
    var s := SortByChannel(tps);
    DistinctListsChannels(tps, s);
    hide Searching, IsFirstLong, ListsChannels;
    if s == [] {
      NoneIsFirstLong(threshold, tol);
      return [];
    }
    r := SearchSorted(s, threshold, tol);
  }

  lemma NoneIsFirstLong(threshold: nat, tol: nat)
    ensures IsFirstLong([], Distinct(ChannelsOf([])), threshold, tol)
  {
  }

  lemma SearchingHolds(s: TPs, threshold: nat, tol: nat, i: nat, a: nat, k: nat, run: TPs, used: int)
    requires i < |s| && Searching(s, threshold, tol, i, a, k, run, used)
    ensures multiset(run) <= multiset(s)
  {
    assert s == s[..i + 1] + s[i + 1..];
  }

  /** The channel that the search compares with: that of the next primitive, or at the end the one before. */
  function NextChannel(s: TPs, i: nat): nat
    requires i < |s|
  {
    if i + 1 == |s| then Wrap32(s[i].channel - 1) else s[i + 1].channel
  }

  /** What becomes of the run at position `i`, in the terms of the search itself: the run goes on, with the next
      primitive or without a new channel; or it is long, and found; or a new one is to begin. */
  ghost predicate Stepped(s: TPs, threshold: nat, tol: nat, i: nat, run: TPs, used: int,
                          run': TPs, used': int, found: bool)
    requires i < |s|
  {
    var next := NextChannel(s, i);
    var step := Wrap32(next - s[i].channel);
    var begun := Begun(run, s[i]);
    if next == s[i].channel then run' == run && used' == used && !found
    else if Extends(step, used, tol) then
      i + 1 < |s| && run' == begun + [s[i + 1]] && used' == used + Cost(step, 1) && !found
    else if |begun| > threshold then run' == begun && found
    else run' == [] && used' == 0 && !found
  }

  lemma SearchStep(s: TPs, threshold: nat, tol: nat, i: nat, a: nat, k: nat, run: TPs, used: int,
                   run': TPs, used': int, found: bool) returns (a': nat, k': nat)
    requires ManyPrimitives(s) && i < |s| && Searching(s, threshold, tol, i, a, k, run, used)
    requires Stepped(s, threshold, tol, i, run, used, run', used', found)
    ensures found ==> IsFirstLong(run', Distinct(ChannelsOf(s)), threshold, tol) && multiset(run') <= multiset(s)
    ensures !found && i + 1 < |s| ==> Searching(s, threshold, tol, i + 1, a', k', run', used')
    ensures !found && i + 1 == |s| ==> IsFirstLong([], Distinct(ChannelsOf(s)), threshold, tol)
  {
    hide Searching, IsFirstLong, ManyPrimitives, ChannelsOf, Distinct, Wrap32;
    StepValue(s[i].channel, if i + 1 == |s| then s[i].channel else s[i + 1].channel);
    a', k' := a, k;
    if NextChannel(s, i) == s[i].channel {
      SearchSame(s, threshold, tol, i, a, k, run, used);
    } else {
      var begun := Begun(run, s[i]);
      SearchBegins(s, threshold, tol, i, a, k, run, used);
      SearchingHolds(s, threshold, tol, i, a, k, begun, used);
      if i + 1 == |s| {
        SearchEnds(s, threshold, tol, a, k, begun, used);
      } else {
        SearchOn(s, threshold, tol, i, a, k, begun, used);
        k' := k + 1;
        if !Extends(s[i + 1].channel - s[i].channel, used, tol) {
          a' := k + 1;
        }
      }
    }
  }

  lemma StepStays(s: TPs, i: nat)
    requires i < |s| && ManyPrimitives(s)
    ensures NextChannel(s, i) != s[i].channel && Wrap32(NextChannel(s, i) - s[i].channel) <= MAX_STEP ==> i + 1 < |s|
    ensures NextChannel(s, i) != s[i].channel ==> Wrap32(NextChannel(s, i) - s[i].channel) > 0
  {
    StepValue(s[i].channel, if i + 1 == |s| then s[i].channel else s[i + 1].channel);
    assert i + 1 < |s| ==> ChannelsOf(s)[i] <= ChannelsOf(s)[i + 1];
  }

  method StepRun(s: TPs, threshold: nat, tol: nat, i: nat, run: TPs, used: int)
    returns (run': TPs, used': int, found: bool)
    requires i < |s| && ManyPrimitives(s)
    ensures Stepped(s, threshold, tol, i, run, used, run', used', found)
  {
    StepStays(s, i);
    hide Wrap32, ManyPrimitives, NextChannel;
    var nextChannel := NextChannel(s, i);
    run', used', found := run, used, false;
    if nextChannel == s[i].channel {
      return;
    }
    if run' == [] {
      run' := [s[i]];
    }
    var step := Wrap32(nextChannel - s[i].channel);
    if step == 1 {
      run' := run' + [s[i + 1]];
    } else if 0 < step <= 5 && used < tol {
      run' := run' + [s[i + 1]];
      used' := used + step - 1;
    } else if |run'| > threshold {
      found := true;
    } else {
      used' := 0;
      run' := [];
    }
  }

  method SearchSorted(s: TPs, threshold: nat, tol: nat) returns (r: TPs)
    requires ManyPrimitives(s)
    ensures IsFirstLong(r, Distinct(ChannelsOf(s)), threshold, tol) && multiset(r) <= multiset(s)
  {
    var run, tolCount := [], 0;
    ghost var a, k := 0, 0;
    SearchStarts(s, threshold, tol);
    hide Searching, IsFirstLong, ManyPrimitives, ChannelsOf, Distinct, Stepped;
    var i := 0;
    while i < |s|
      invariant 0 <= i <= |s|
      invariant i < |s| ==> Searching(s, threshold, tol, i, a, k, run, tolCount)
      invariant i == |s| ==> IsFirstLong([], Distinct(ChannelsOf(s)), threshold, tol)
    {
      var run', tolCount', found := StepRun(s, threshold, tol, i, run, tolCount);
      a, k := SearchStep(s, threshold, tol, i, a, k, run, tolCount, run', tolCount', found);
      if found {
        return run';
      }
      run, tolCount := run', tolCount';
      i := i + 1;
    }
    r := [];
  }

  // ----- what the search finds

  lemma LongRunMeans(d: seq<int>, threshold: nat, tol: nat, a: nat, b: nat)
    requires Increasing(d) && FirstLong(d, 0, threshold, tol, 1) == Run(a, b)
    ensures a < b <= |d| && b - a > threshold && Longest(d, 0, tol, 1) > threshold
    ensures forall i :: a <= i < b - 1 ==> d[i + 1] - d[i] <= MAX_STEP
    ensures d[b - 1] - d[a] - (b - 1 - a) <= if tol == 0 then 0 else tol + 3
  {
    FirstLongCorrect(d, 0, threshold, tol, 1);
    RunsAreNoLonger(d, 0, a, b, tol, 1);
    RunMissesFew(d, a, 0, tol, 1);
    forall i | a <= i < b - 1
      ensures d[i + 1] - d[i] <= MAX_STEP
    {
      RunSteps(d, a, 0, tol, 1, i);
    }
  }

  /** The channels `c` increase in steps of at most five, and few of them are missing. */
  ghost predicate Adjacent(c: seq<int>, tol: nat) {
    && c != [] && Increasing(c)
    && (forall i :: 0 <= i < |c| - 1 ==> c[i + 1] - c[i] <= MAX_STEP)
    && c[|c| - 1] - c[0] - (|c| - 1) <= if tol == 0 then 0 else tol + 3
  }

  lemma SliceIsAdjacent(d: seq<int>, tol: nat, a: nat, b: nat)
    requires Increasing(d) && a < b <= |d|
    requires forall i :: a <= i < b - 1 ==> d[i + 1] - d[i] <= MAX_STEP
    requires d[b - 1] - d[a] - (b - 1 - a) <= if tol == 0 then 0 else tol + 3
    ensures Adjacent(d[a..b], tol)
  {
    var c := d[a..b];
    forall i | 0 <= i < |c| - 1
      ensures c[i + 1] - c[i] <= MAX_STEP
    {
      assert d[a + i + 1] - d[a + i] <= MAX_STEP;
    }
  }

  /** The run found has one primitive for each of its channels, in increasing order, in steps of at most five
      channels, missing at most three channels more than the tolerance; it is longer than the threshold. If none
      is found, no run is longer, and in particular no stretch of consecutive channels is. */
  lemma FirstLongMeans(run: TPs, d: seq<int>, threshold: nat, tol: nat)
    requires Increasing(d) && IsFirstLong(run, d, threshold, tol)
    ensures run != [] ==>
      |run| > threshold && Adjacent(ChannelsOf(run), tol) && (forall x :: x in ChannelsOf(run) ==> x in d)
    ensures run == [] <==> Longest(d, 0, tol, 1) <= threshold
    ensures run == [] ==> forall x: nat, y: nat :: Consecutive(d, x, y) ==> y - x <= threshold
  {
    hide Adjacent, Longest, FirstLong;
    match FirstLong(d, 0, threshold, tol, 1)
    case NoRun =>
      FirstLongCorrect(d, 0, threshold, tol, 1);
      forall x: nat, y: nat | Consecutive(d, x, y)
        ensures y - x <= threshold
      {
        ConsecutiveIsShort(d, 0, tol, 1, x, y);
      }
    case Run(a, b) =>
      LongRunMeans(d, threshold, tol, a, b);
      SliceIsAdjacent(d, tol, a, b);
      assert |run| == |ChannelsOf(run)| == b - a;
  }
}
