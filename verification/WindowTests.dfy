/** Tests of a window that stay true when primitives are added to it at either end. */
module WindowTests {
  import opened TriggerTypes
  import opened SlidingWindows
  import opened TPWindows
  import opened Collections
  import opened GreedyRuns
  import opened ChannelLists
  import opened Adjacency
  import opened RunMonotonicity

  // ----- the ADC sum

  function Heavy(threshold: nat): TPs -> bool {
    tps => AdcSum(tps) > threshold
  }

  lemma HeavyIsMonotone(threshold: nat)
    ensures Monotone(Heavy(threshold))
  {
    forall a, b, c | Heavy(threshold)(b)
      ensures Heavy(threshold)(a + b + c)
    {
      AdcSumAppend(a, b);
      AdcSumAppend(a + b, c);
    }
  }

  /** No window of the run over `tps` holds an ADC sum beyond 32 bits. */
  ghost predicate NoOverflow(tps: TPs, length: Timestamp) {
    forall m :: 1 <= m <= |tps| ==> AdcSum(WindowAfter(tps[..m], length)) < TWO_32
  }

  lemma SumFits(tps: TPs, length: Timestamp)
    requires tps != [] && NoOverflow(tps, length)
    ensures var sum := AdcSum(WindowAfter(tps, length)); Wrap32(sum) == sum
  {
    hide WindowAfter, AdcSum;
    assert tps[..|tps|] == tps;
  }

  lemma NoOverflowBefore(tps: TPs, tp: TriggerPrimitive, length: Timestamp)
    ensures NoOverflow(tps + [tp], length) ==> NoOverflow(tps, length)
  {
    hide WindowAfter, AdcSum;
    assert forall m :: 0 <= m <= |tps| ==> (tps + [tp])[..m] == tps[..m];
  }

  // ----- the number of channels

  function ManyChannels(threshold: nat): TPs -> bool {
    tps => |Channels(tps)| > threshold
  }

  lemma ManyChannelsIsMonotone(threshold: nat)
    ensures Monotone(ManyChannels(threshold))
  {
    forall a, b, c | ManyChannels(threshold)(b)
      ensures ManyChannels(threshold)(a + b + c)
    {
      assert Channels(b) <= Channels(a + b + c);
      SubsetSize(Channels(b), Channels(a + b + c));
    }
  }

  // ----- stretches of consecutive channels

  ghost predicate HasHit(tps: TPs, c: int) {
    exists i :: 0 <= i < |tps| && tps[i].channel == c
  }

  /** The window `tps` has hits on all channels from `c` to `c + n - 1`. */
  ghost predicate HasStretch(tps: TPs, c: int, n: nat) {
    forall x :: c <= x < c + n ==> HasHit(tps, x)
  }

  ghost function LongStretch(threshold: nat): TPs -> bool {
    tps => exists c: int, n: nat :: n > threshold && HasStretch(tps, c, n)
  }

  lemma HitRemains(a: TPs, b: TPs, e: TPs, c: int)
    requires HasHit(b, c)
    ensures HasHit(a + b + e, c)
  {
    var i :| 0 <= i < |b| && b[i].channel == c;
    assert (a + b + e)[|a| + i] == b[i];
  }

  lemma LongStretchIsMonotone(threshold: nat)
    ensures Monotone(LongStretch(threshold))
  {
    hide HasHit;
    forall a, b, e | LongStretch(threshold)(b)
      ensures LongStretch(threshold)(a + b + e)
    {
      var c: int, n: nat :| n > threshold && HasStretch(b, c, n);
      forall x | c <= x < c + n
        ensures HasHit(a + b + e, x)
      {
        assert HasHit(b, x);
        HitRemains(a, b, e, x);
      }
      assert HasStretch(a + b + e, c, n);
    }
  }

  // ----- adjacency without tolerance

  ghost function HighAdjacency(threshold: nat, tol: nat): TPs -> bool {
    tps => AdjacencyOf(ChannelList(tps), tol) > threshold
  }

  lemma HighAdjacencyIsMonotone(threshold: nat)
    ensures Monotone(HighAdjacency(threshold, 0))
  {
    hide AdjacencyOf;
    forall a, b, e | HighAdjacency(threshold, 0)(b)
      ensures HighAdjacency(threshold, 0)(a + b + e)
    {
      ListsGrow(a, b, e, ChannelList(b), ChannelList(a + b + e));
      AdjacencyGrows(ChannelList(b), ChannelList(a + b + e));
    }
  }

  /** Whatever the tolerance, a stretch of consecutive channels longer than a threshold makes the adjacency exceed
      it too, if the threshold is at least 1. */
  lemma LongStretchIsAdjacent(threshold: nat, tol: nat, tps: TPs)
    requires threshold >= 1 && LongStretch(threshold)(tps)
    ensures HighAdjacency(threshold, tol)(tps)
  {
    hide Longest;
    var d := ChannelList(tps);
    var c: int, n: nat :| n > threshold && HasStretch(tps, c, n);
    forall v | c <= v < c + n
      ensures v in d
    {
      assert HasHit(tps, v);
    }
    var x := StretchInList(d, c, n);
    assert Consecutive(d, x, x + n);
    ConsecutiveIsShort(d, 0, tol, 0, x, x + n);
  }

  lemma ListsGrow(a: TPs, b: TPs, e: TPs, d: seq<int>, d': seq<int>)
    requires ListsChannels(d, b) && ListsChannels(d', a + b + e)
    ensures Increasing(d) && Increasing(d') && forall x :: x in d ==> x in d'
  {
    forall x | x in d
      ensures x in d'
    {
      var i :| 0 <= i < |b| && b[i].channel == x;
      assert (a + b + e)[|a| + i] == b[i];
    }
  }

  /** Without tolerance, more channels never make the adjacency smaller, even where all hits are on one. */
  lemma AdjacencyGrows(d: seq<int>, d': seq<int>)
    requires Increasing(d) && Increasing(d') && forall x :: x in d ==> x in d'
    ensures AdjacencyOf(d, 0) <= AdjacencyOf(d', 0)
  {
    MoreHitsWithoutTolerance(d, d', 0);
    OnlyOne(d, d');
    hide Longest;
  }

  lemma OnlyOne(d: seq<int>, d': seq<int>)
    requires Increasing(d) && (forall x :: x in d ==> x in d')
    ensures |d'| == 1 && d != [] ==> d == d'
  {
    forall i | 0 <= i < |d|
      ensures d[i] in d'
    {
      assert d[i] in d;
    }
    var second := if |d| >= 2 then d[1] else 0;
    assert |d| >= 2 ==> d[0] < second;
  }
}
