/** The trigger on the adjacency of the window it holds, against brute force over all intervals. */
module AdjacencyTrigger {
  import opened TriggerTypes
  import opened SlidingWindows
  import opened GreedyRuns
  import opened RunMonotonicity
  import opened ChannelLists
  import opened WindowTests

  /** For every threshold, window length and stream in time order that has not triggered yet, the trigger and brute
      force say the same of the next primitive. */
  ghost predicate TriggerIsExact(tol: nat) {
    forall threshold: nat, tps, x, length: Timestamp ::
      tps != [] && InTimeOrder(tps + [x]) && length > 0 && Quiet(tps, length, HighAdjacency(threshold, tol)) ==>
        (Fires(WindowAfter(tps, length), x, length, HighAdjacency(threshold, tol)) <==>
         HeavyIntervalClosed(tps, x, length, HighAdjacency(threshold, tol)))
  }

  // ----- streams

  /** The channels fit in the range of channel numbers. */
  ghost predicate InChannelRange(d: seq<int>) {
    forall x :: x in d ==> 0 <= x < 0x8000_0000
  }

  /** One primitive on each channel of `d`, all at time `t`. */
  function Burst(d: seq<int>, t: Timestamp): TPs
    requires InChannelRange(d)
  {
    seq(|d|, i requires 0 <= i < |d| => TriggerPrimitive(t, 0, ChannelAt(d, i), 0))
  }

  function ChannelAt(d: seq<int>, i: nat): (c: Channel)
    requires InChannelRange(d) && i < |d|
    ensures c == d[i]
  {
    assert d[i] in d;
    d[i]
  }

  lemma BurstLists(d: seq<int>, t: Timestamp)
    requires InChannelRange(d) && Increasing(d)
    ensures ListsChannels(d, Burst(d, t))
  {
    var tps := Burst(d, t);
    forall c
      ensures c in d <==> exists i :: 0 <= i < |tps| && tps[i].channel == c
    {
      assert forall i :: 0 <= i < |d| ==> tps[i].channel == d[i];
    }
  }

  /** Bursts on `e` and, one tick later, on the part `d` of it. */
  function TwoBursts(e: seq<int>, d: seq<int>): TPs
    requires InChannelRange(e) && InChannelRange(d)
  {
    Burst(e, 0) + Burst(d, 1)
  }

  lemma TwoBurstsList(e: seq<int>, d: seq<int>)
    requires InChannelRange(e) && InChannelRange(d) && Increasing(e) && forall x :: x in d ==> x in e
    ensures ListsChannels(e, TwoBursts(e, d))
  {
    var tps, m := TwoBursts(e, d), |e|;
    forall c
      ensures c in e <==> exists i :: 0 <= i < |tps| && tps[i].channel == c
    {
      if c in e {
        var i :| 0 <= i < m && e[i] == c;
        assert tps[i].channel == c;
      }
      if i :| 0 <= i < |tps| && tps[i].channel == c {
        assert i >= m ==> c == d[i - m] && d[i - m] in d;
      }
    }
  }

  lemma TwoBurstsTimes(e: seq<int>, d: seq<int>)
    requires InChannelRange(e) && InChannelRange(d)
    ensures var tps := TwoBursts(e, d);
      && |tps| == |e| + |d| && tps[|e|..] == Burst(d, 1) && InTimeOrder(tps)
      && forall i :: 0 <= i < |tps| ==> tps[i].timeStart == if i < |e| then 0 else 1
  {
  }

  lemma AllStaysInWindow(tps: TPs)
    requires InTimeOrder(tps) && tps != [] && tps[0].timeStart == 0 && tps[|tps| - 1].timeStart <= 1
    ensures WindowAfter(tps, 2) == tps
  {
    hide WindowAfter, InTimeOrder;
    var w := WindowIsSuffix(tps, 2);
    var first: int, last: int := tps[0].timeStart, tps[|tps| - 1].timeStart;
    assert w > 0 ==> last - first >= 2;
    assert tps[0..] == tps;
  }

  lemma LaterIsInterval(tps: TPs, n: nat)
    requires n <= |tps| && forall i :: 0 <= i < |tps| ==> tps[i].timeStart == if i < n then 0 else 1
    ensures InInterval(tps, 1, 2) == tps[n..]
  {
    hide InInterval;
    assert tps[n..|tps|] == tps[n..];
    assert IsSlice(tps, 1, 2, n, |tps|);
    hide IsSlice;
    SliceIsInterval(tps, 1, 2, n, |tps|);
  }

  /** With a window of two ticks all of the two bursts stays in the window, and the later burst is an interval. */
  lemma TwoBurstsInWindow(e: seq<int>, d: seq<int>, tps: TPs)
    requires InChannelRange(e) && InChannelRange(d) && e != [] && d != [] && tps == TwoBursts(e, d)
    ensures |tps| == |e| + |d| && InTimeOrder(tps) && WindowAfter(tps, 2) == tps && InInterval(tps, 1, 2) == Burst(d, 1)
    ensures tps[0].timeStart == 0 && tps[|e|].timeStart == 1
  {
    TwoBurstsTimes(e, d);
    hide TwoBursts, Burst, InTimeOrder, WindowAfter, InInterval, InChannelRange;
    AllStaysInWindow(tps);
    LaterIsInterval(tps, |e|);
  }

  lemma WithinNeverFires(tps: TPs, x: TriggerPrimitive, heavy: TPs -> bool)
    requires InTimeOrder(tps) && tps != [] && tps[0].timeStart == 0 && x.timeStart <= 1
    requires tps[|tps| - 1].timeStart <= 1
    ensures !Fires(WindowAfter(tps, 2), x, 2, heavy)
  {
    hide WindowAfter, InTimeOrder;
    AllStaysInWindow(tps);
    TicksInOrder(x.timeStart, 0);
  }

  lemma AllWithinIsQuiet(tps: TPs, heavy: TPs -> bool)
    requires InTimeOrder(tps) && tps != [] && tps[0].timeStart == 0
    requires forall i :: 0 <= i < |tps| ==> tps[i].timeStart <= 1
    ensures Quiet(tps, 2, heavy)
  {
    hide InTimeOrder, Fires, WindowAfter;
    forall m | 1 <= m < |tps|
      ensures !Fires(WindowAfter(tps[..m], 2), tps[m], 2, heavy)
    {
      PrefixInOrder(tps, m);
      WithinNeverFires(tps[..m], tps[m], heavy);
    }
  }

  /** The adjacency of a window is that of any list of its channels. */
  lemma AdjacencyOfList(d: seq<int>, tps: TPs, threshold: nat, tol: nat)
    requires ListsChannels(d, tps) && |d| >= 2
    ensures HighAdjacency(threshold, tol)(tps) <==> Longest(d, 0, tol, 0) > threshold
  {
    hide Longest;
    IncreasingUnique(d, ChannelList(tps));
  }

  /** When the later burst has a longer run than both together, brute force finds it, and the trigger, which has
      both in its window, does not. */
  lemma BurstIsMissed(e: seq<int>, d: seq<int>, tol: nat, tps: TPs, x: TriggerPrimitive)
    requires InChannelRange(e) && InChannelRange(d) && tps == TwoBursts(e, d) && x.timeStart == 3
    requires Increasing(d) && Increasing(e) && |d| >= 2 && |e| >= 2 && forall c :: c in d ==> c in e
    requires Longest(d, 0, tol, 0) > Longest(e, 0, tol, 0)
    ensures tps != [] && InTimeOrder(tps + [x])
    ensures var high := HighAdjacency(Longest(e, 0, tol, 0), tol);
      Quiet(tps, 2, high) && !Fires(WindowAfter(tps, 2), x, 2, high) && HeavyIntervalClosed(tps, x, 2, high)
  {
    hide Longest, TwoBursts, Burst, HighAdjacency, WindowAfter, InTimeOrder, Quiet, InInterval, ListsChannels;
    var threshold := Longest(e, 0, tol, 0);
    TwoBurstsInWindow(e, d, tps);
    LastInOrder(tps, x, e, d);
    AllWithinIsQuiet(tps, HighAdjacency(threshold, tol));
    TwoBurstsList(e, d);
    BurstLists(d, 1);
    AdjacencyOfList(e, tps, threshold, tol);
    AdjacencyOfList(d, Burst(d, 1), threshold, tol);
    assert tps[|e|].timeStart + 2 <= x.timeStart && InInterval(tps, tps[|e|].timeStart, 2) == Burst(d, 1);
  }

  lemma TriggerMisses(tol: nat)
    requires 1 <= tol < TWO_16
    ensures !TriggerIsExact(tol)
  {
    hide Longest, TwoBursts, HighAdjacency, WindowAfter, InTimeOrder, Quiet, HeavyIntervalClosed, Fires;
    var d, e := FewerHitsLengthen(tol, 0);
    BurstIsMissed(e, d, tol, TwoBursts(e, d), TriggerPrimitive(3, 0, 0, 0));
  }

  lemma LastInOrder(tps: TPs, x: TriggerPrimitive, e: seq<int>, d: seq<int>)
    requires InChannelRange(e) && InChannelRange(d) && tps == TwoBursts(e, d) && x.timeStart == 3
    ensures InTimeOrder(tps + [x]) && forall i :: 0 <= i < |tps| ==> tps[i].timeStart <= 1
  {
  }

  /** For every tolerance that 16 bits hold, a maker that triggers on adjacency agrees with brute force on all
      streams if and only if that tolerance is 0. */
  lemma ExactWithoutTolerance(tol: nat)
    requires tol < TWO_16
    ensures TriggerIsExact(tol) <==> tol == 0
  {
    if tol == 0 {
      forall threshold: nat, tps, x, length: Timestamp |
        tps != [] && InTimeOrder(tps + [x]) && length > 0 && Quiet(tps, length, HighAdjacency(threshold, tol))
        ensures Fires(WindowAfter(tps, length), x, length, HighAdjacency(threshold, tol)) <==>
                HeavyIntervalClosed(tps, x, length, HighAdjacency(threshold, tol))
      {
        HighAdjacencyIsMonotone(threshold);
        TriggerMissesNothing(tps, x, length, HighAdjacency(threshold, tol));
      }
    } else {
      TriggerMisses(tol);
    }
  }
}
