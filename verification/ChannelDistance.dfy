/** The maker that gathers primitives close in channel to those it already holds. */
module ChannelDistance {
  import opened TriggerTypes
  import opened ChannelLists

  // ----- channels without wide gaps

  ghost predicate IsHighest(tps: TPs, c: int) {
    forall i :: 0 <= i < |tps| ==> tps[i].channel <= c
  }

  ghost predicate HasNext(tps: TPs, d: nat, c: int) {
    exists i :: 0 <= i < |tps| && c < tps[i].channel <= c + d
  }

  /** From every channel but the highest the next one is no further than `d`. */
  ghost predicate Gapless(tps: TPs, d: nat) {
    forall i :: 0 <= i < |tps| ==> IsHighest(tps, tps[i].channel) || HasNext(tps, d, tps[i].channel)
  }

  /** So in the list of distinct channels no two neighbours are further apart. */
  lemma GaplessMeans(tps: TPs, list: seq<int>, d: nat, j: nat)
    requires Gapless(tps, d) && ListsChannels(list, tps) && j + 1 < |list|
    ensures list[j + 1] - list[j] <= d
  {
    assert list[j] in list && list[j + 1] in list;
    var i :| 0 <= i < |tps| && tps[i].channel == list[j];
    var h :| 0 <= h < |tps| && tps[h].channel == list[j + 1];
    assert !IsHighest(tps, list[j]);
    assert HasNext(tps, d, tps[i].channel);
    var n :| 0 <= n < |tps| && list[j] < tps[n].channel <= list[j] + d;
    assert tps[n].channel in list;
    var m :| 0 <= m < |list| && list[m] == tps[n].channel;
  }

  /** The highest of the channels up to `c`. */
  lemma {:induction false} HighestUpTo(tps: TPs, c: int, h: nat) returns (z: nat)
    requires h < |tps| && tps[h].channel <= c
    ensures z < |tps| && tps[z].channel <= c && forall i :: 0 <= i < |tps| && tps[i].channel <= c ==>
      tps[i].channel <= tps[z].channel
  {
    z := h;
    var n := 0;
    while n < |tps|
      invariant 0 <= n <= |tps| && z < |tps| && tps[z].channel <= c
      invariant forall i :: 0 <= i < n && tps[i].channel <= c ==> tps[i].channel <= tps[z].channel
    {
      if tps[z].channel < tps[n].channel <= c {
        z := n;
      }
      n := n + 1;
    }
  }

  lemma GapAbove(tps: TPs, d: nat, c: int, low: nat)
    requires Gapless(tps, d) && low < |tps| && tps[low].channel - d <= c && !IsHighest(tps, c)
    ensures HasNext(tps, d, c)
  {
    if tps[low].channel <= c {
      var z := HighestUpTo(tps, c, low);
      var y :| 0 <= y < |tps| && tps[y].channel > c;
      assert !IsHighest(tps, tps[z].channel);
      var n :| 0 <= n < |tps| && tps[z].channel < tps[n].channel <= tps[z].channel + d;
      assert c < tps[n].channel <= c + d;
    }
  }

  lemma NextRemains(tps: TPs, tp: TriggerPrimitive, d: nat, c: int)
    requires HasNext(tps, d, c)
    ensures HasNext(tps + [tp], d, c)
  {
    var n :| 0 <= n < |tps| && c < tps[n].channel <= c + d;
    assert (tps + [tp])[n] == tps[n];
  }

  /** A primitive within `d` of some channels held, from above and from below, opens no gap. */
  lemma GaplessGrows(tps: TPs, tp: TriggerPrimitive, d: nat, low: nat, high: nat)
    requires Gapless(tps, d) && low < |tps| && high < |tps|
    requires tps[low].channel - d <= tp.channel <= tps[high].channel + d
    ensures Gapless(tps + [tp], d)
  {
    var all := tps + [tp];
    hide Gapless;
    forall i | 0 <= i < |all|
      ensures IsHighest(all, all[i].channel) || HasNext(all, d, all[i].channel)
    {
      NextInAll(tps, tp, d, low, high, i);
    }
    GaplessIs(all, d);
  }

  lemma GaplessIs(tps: TPs, d: nat)
    requires forall i :: 0 <= i < |tps| ==> IsHighest(tps, tps[i].channel) || HasNext(tps, d, tps[i].channel)
    ensures Gapless(tps, d)
  {
  }

  lemma NextInAll(tps: TPs, tp: TriggerPrimitive, d: nat, low: nat, high: nat, i: nat)
    requires Gapless(tps, d) && low < |tps| && high < |tps| && i <= |tps|
    requires tps[low].channel - d <= tp.channel <= tps[high].channel + d
    ensures var all := tps + [tp]; IsHighest(all, all[i].channel) || HasNext(all, d, all[i].channel)
  {
    var all := tps + [tp];
    assert all[|tps|] == tp && forall n :: 0 <= n < |tps| ==> all[n] == tps[n];
    var c := all[i].channel;
    if i < |tps| {
      if !IsHighest(tps, c) {
        NextRemains(tps, tp, d, c);
      } else {
        assert tps[high].channel <= c;
        assert c < tp.channel ==> c < all[|tps|].channel <= c + d;
      }
    } else if !IsHighest(tps, c) {
      GapAbove(tps, d, c, low);
      NextRemains(tps, tp, d, c);
    }
  }

  // ----- the bounds

  /** The lower bound is the least, the upper one the greatest of those of the primitives held, in unsigned
      32-bit arithmetic. */
  ghost predicate AreBounds(tps: TPs, d: nat, lower: nat, upper: nat) {
    && (exists i :: 0 <= i < |tps| && lower == Below(tps[i], d))
    && (forall i :: 0 <= i < |tps| ==> lower <= Below(tps[i], d))
    && (exists i :: 0 <= i < |tps| && upper == Above(tps[i], d))
    && (forall i :: 0 <= i < |tps| ==> Above(tps[i], d) <= upper)
  }

  function Below(tp: TriggerPrimitive, d: nat): nat {
    Wrap32(tp.channel - d)
  }

  function Above(tp: TriggerPrimitive, d: nat): nat {
    Wrap32(tp.channel + d)
  }

  /** A primitive on channel `c` is between the bounds of some of the primitives held. */
  ghost predicate Takes(tps: TPs, d: nat, c: int) {
    && (exists i :: 0 <= i < |tps| && Below(tps[i], d) <= c)
    && (exists i :: 0 <= i < |tps| && c <= Above(tps[i], d))
  }

  /** The channels are far enough from both ends of their range. */
  ghost predicate FarFromEnds(tps: TPs, d: nat) {
    forall i :: 0 <= i < |tps| ==> d <= tps[i].channel < TWO_32 - d
  }

  /** The primitive is no further than `d` from the range of channels held. */
  ghost predicate IsNear(tps: TPs, d: nat, c: int) {
    && (exists i :: 0 <= i < |tps| && tps[i].channel - d <= c)
    && (exists i :: 0 <= i < |tps| && c <= tps[i].channel + d)
  }

  /** It is at most `d` above some channel held, and not more than `d` below some channel held that is at least `d`. */
  ghost predicate IsReachable(tps: TPs, d: nat, c: int) {
    && (exists i :: 0 <= i < |tps| && tps[i].channel >= d && tps[i].channel - d <= c)
    && (exists i :: 0 <= i < |tps| && c <= tps[i].channel + d)
  }

  lemma WrapBelow(x: int)
    ensures x < TWO_32 ==> Wrap32(x) >= x
    ensures x >= 0 ==> Wrap32(x) <= x
    ensures 0 <= x < TWO_32 ==> Wrap32(x) == x
    ensures -0x8000_0000 <= x < 0 ==> Wrap32(x) >= 0x8000_0000
  {
  }

  /** The bounds decide as the primitives held do. */
  lemma WithinBounds(tps: TPs, d: nat, lower: nat, upper: nat, c: int)
    requires AreBounds(tps, d, lower, upper)
    ensures lower <= c <= upper <==> Takes(tps, d, c)
  {
    hide Below, Above;
  }

  lemma OneWithin(tp: TriggerPrimitive, d: nat, c: Channel)
    ensures Below(tp, d) <= c ==> tp.channel - d <= c
    ensures c <= Above(tp, d) ==> c <= tp.channel + d
    ensures d <= tp.channel < TWO_32 - d ==> Below(tp, d) == tp.channel - d && Above(tp, d) == tp.channel + d
    ensures d < 0x8000_0000 ==> (Below(tp, d) <= c <==> tp.channel >= d && tp.channel - d <= c)
    ensures d < 0x8000_0000 ==> Above(tp, d) == tp.channel + d
  {
    hide Wrap32;
    WrapBelow(tp.channel - d);
    WrapBelow(tp.channel + d);
  }

  /** Only near primitives are taken, whatever wraps around, and away from the ends of the channel range all of
      them. For distances below 2^31 exactly those are that are near from above to some channel held and near from
      below to one that is at least the distance; so while every channel held is below the distance none is taken,
      not even one on a channel held. */
  lemma TakesMeans(tps: TPs, d: nat, c: Channel)
    ensures Takes(tps, d, c) ==> IsNear(tps, d, c)
    ensures FarFromEnds(tps, d) ==> (Takes(tps, d, c) <==> IsNear(tps, d, c))
    ensures d < 0x8000_0000 ==> (Takes(tps, d, c) <==> IsReachable(tps, d, c))
    ensures d < 0x8000_0000 && (forall i :: 0 <= i < |tps| ==> tps[i].channel < d) ==> !Takes(tps, d, c)
  {
    forall i | 0 <= i < |tps|
      ensures Below(tps[i], d) <= c ==> tps[i].channel - d <= c
      ensures c <= Above(tps[i], d) ==> c <= tps[i].channel + d
      ensures FarFromEnds(tps, d) ==> Below(tps[i], d) == tps[i].channel - d && Above(tps[i], d) == tps[i].channel + d
      ensures d < 0x8000_0000 ==> (Below(tps[i], d) <= c <==> tps[i].channel >= d && tps[i].channel - d <= c)
      ensures d < 0x8000_0000 ==> Above(tps[i], d) == tps[i].channel + d
    {
      OneWithin(tps[i], d, c);
    }
    hide Below, Above;
  }

  lemma BoundsGrow(tps: TPs, tp: TriggerPrimitive, d: nat, lower: nat, upper: nat)
    requires AreBounds(tps, d, lower, upper)
    ensures AreBounds(tps + [tp], d, Lower(lower, tp, d), Upper(upper, tp, d))
  {
    hide Below, Above;
    var all := tps + [tp];
    assert all[|tps|] == tp && forall i :: 0 <= i < |tps| ==> all[i] == tps[i];
  }

  function Lower(lower: nat, tp: TriggerPrimitive, d: nat): nat {
    if Below(tp, d) < lower then Below(tp, d) else lower
  }

  function Upper(upper: nat, tp: TriggerPrimitive, d: nat): nat {
    if Above(tp, d) > upper then Above(tp, d) else upper
  }

  lemma BoundsOfOne(tp: TriggerPrimitive, d: nat)
    ensures AreBounds([tp], d, Below(tp, d), Above(tp, d)) && Gapless([tp], d)
  {
    hide Below, Above;
    var one := [tp];
    assert one[0] == tp;
  }

  // ----- the maker

  /** What a maker with the given distance may hold, with its bounds. */
  ghost predicate Holds(tps: TPs, d: nat, lower: nat, upper: nat) {
    Gapless(tps, d) && AreBounds(tps, d, lower, upper)
  }

  lemma HoldsMore(tps: TPs, tp: TriggerPrimitive, d: nat, lower: nat, upper: nat)
    requires Holds(tps, d, lower, upper) && lower <= tp.channel <= upper
    ensures Holds(tps + [tp], d, Lower(lower, tp, d), Upper(upper, tp, d))
  {
    WithinBounds(tps, d, lower, upper, tp.channel);
    TakesMeans(tps, d, tp.channel);
    BoundsGrow(tps, tp, d, lower, upper);
    var i :| 0 <= i < |tps| && tps[i].channel - d <= tp.channel;
    var j :| 0 <= j < |tps| && tp.channel <= tps[j].channel + d;
    hide Gapless, AreBounds, Lower, Upper, Takes, FarFromEnds, IsReachable;
    GaplessGrows(tps, tp, d, i, j);
  }

  /** The activity has the times and channels of its first and last input, and the ADC sum of all. */
  ghost predicate IsTrack(ta: TriggerActivity, tps: TPs)
    requires tps != []
  {
    && ta.inputs == tps && ta.adcIntegral == AdcSum(tps)
    && ta.timeStart == tps[0].timeStart && ta.timeEnd == tps[|tps| - 1].timeStart
    && ta.channelStart == tps[0].channel && ta.channelEnd == tps[|tps| - 1].channel
  }

  class TriggerActivityMakerChannelDistance {
    const maxChannelDistance: nat
    const windowLength: Timestamp
    const minTps: nat
    var inputs: TPs
    var lowerBound: nat
    var upperBound: nat

    ghost predicate Valid()
      reads this
    {
      inputs != [] ==> Holds(inputs, maxChannelDistance, lowerBound, upperBound)
    }

    constructor (maxChannelDistance: nat, windowLength: Timestamp, minTps: nat)
      ensures Valid() && inputs == []
      ensures this.maxChannelDistance == maxChannelDistance && this.windowLength == windowLength
      ensures this.minTps == minTps
    {
      this.maxChannelDistance, this.windowLength, this.minTps := maxChannelDistance, windowLength, minTps;
      inputs, lowerBound, upperBound := [], 0, 0;
    }

    method SetNewTA(tp: TriggerPrimitive)
      modifies this
      ensures Valid() && inputs == [tp]
    {
      BoundsOfOne(tp, maxChannelDistance);
      hide Wrap32, Gapless, AreBounds;
      inputs := [tp];
      lowerBound := Wrap32(tp.channel - maxChannelDistance);
      upperBound := Wrap32(tp.channel + maxChannelDistance);
    }

    method SetAttributes() returns (ta: TriggerActivity)
      requires inputs != []
      ensures IsTrack(ta, inputs)
    {
      var first, last := inputs[0], inputs[|inputs| - 1];
      var adc := 0;
      var i := 0;
      while i < |inputs|
        invariant 0 <= i <= |inputs| && adc == AdcSum(inputs[..i])
      {
        assert inputs[..i + 1][..i] == inputs[..i];
        adc := adc + inputs[i].adcIntegral;
        i := i + 1;
      }
      assert inputs[..|inputs|] == inputs;
      ta := TriggerActivity(first.timeStart, last.timeStart, first.channel, last.channel, adc, inputs);
    }

    /** Takes in one primitive. Every activity made has at least the minimum number of inputs, and its distinct
        channels have no gap wider than the distance, for all channels and distances. A primitive in time is
        added exactly if it is between the bounds of some of the primitives held. */
    method Process(tp: TriggerPrimitive) returns (tas: seq<TriggerActivity>)
      requires Valid()
      modifies this
      ensures Valid()
      ensures var closes := old(inputs) != [] && Ticks(tp.timeStart, old(inputs)[0].timeStart) > windowLength;
        if closes && |old(inputs)| >= minTps then
          |tas| == 1 && IsTrack(tas[0], old(inputs)) && Gapless(tas[0].inputs, maxChannelDistance)
        else tas == []
      ensures Kept(old(inputs), tp, maxChannelDistance, windowLength, inputs)
    {
      hide Gapless, AreBounds, Takes, Wrap32, Lower, Upper;
      tas := [];
      if inputs == [] {
        SetNewTA(tp);
        return;
      }
      if Ticks(tp.timeStart, inputs[0].timeStart) > windowLength {
        if |inputs| >= minTps {
          var ta := SetAttributes();
          tas := [ta];
        }
        SetNewTA(tp);
        return;
      }
      WithinBounds(inputs, maxChannelDistance, lowerBound, upperBound, tp.channel);
      if tp.channel > upperBound || tp.channel < lowerBound {
        return;
      }
      HoldsMore(inputs, tp, maxChannelDistance, lowerBound, upperBound);
      inputs := inputs + [tp];
      lowerBound := Lower(lowerBound, tp, maxChannelDistance);
      upperBound := Upper(upperBound, tp, maxChannelDistance);
    }
  }

  /** Which primitives are held after the arrival of `tp`. */
  ghost predicate Kept(tps: TPs, tp: TriggerPrimitive, d: nat, length: Timestamp, tps': TPs) {
    if tps == [] || Ticks(tp.timeStart, tps[0].timeStart) > length then tps' == [tp]
    else tps' == if Takes(tps, d, tp.channel) then tps + [tp] else tps
  }
}
