/** The window of trigger primitives with its running aggregates. */
module TPWindows {
  import opened TriggerTypes
  import opened SlidingWindows

  function Channels(tps: TPs): set<Channel> {
    set tp | tp in tps :: tp.channel
  }

  function Count(tps: TPs, c: Channel): nat {
    if tps == [] then 0 else Count(tps[..|tps| - 1], c) + if tps[|tps| - 1].channel == c then 1 else 0
  }

  /** The number of primitives on each channel that has any. */
  function Counts(tps: TPs): map<Channel, nat> {
    map c | c in Channels(tps) :: Count(tps, c)
  }

  /** No count leaves its 16 bits. */
  ghost predicate CountsFit(tps: TPs) {
    forall c :: Count(tps, c) < 0x1_0000
  }

  lemma {:induction false} AdcSumAppend(a: TPs, b: TPs)
    ensures AdcSum(a + b) == AdcSum(a) + AdcSum(b)
  {
    if b == [] {
      assert a + b == a;
    } else {
      assert (a + b)[..|a + b| - 1] == a + b[..|b| - 1];
      AdcSumAppend(a, b[..|b| - 1]);
    }
  }

  lemma {:induction false} CountAppend(a: TPs, b: TPs, c: Channel)
    ensures Count(a + b, c) == Count(a, c) + Count(b, c)
  {
    if b == [] {
      assert a + b == a;
    } else {
      assert (a + b)[..|a + b| - 1] == a + b[..|b| - 1];
      CountAppend(a, b[..|b| - 1], c);
    }
  }

  lemma {:induction false} CountOfChannel(tps: TPs, c: Channel)
    ensures Count(tps, c) > 0 <==> c in Channels(tps)
  {
    if tps != [] {
      var n := |tps| - 1;
      CountOfChannel(tps[..n], c);
      assert tps == tps[..n] + [tps[n]];
      assert c in Channels(tps) <==> c in Channels(tps[..n]) || c == tps[n].channel;
    }
  }

  /** Adding a primitive increments its channel's count, which starts from nothing. */
  lemma CountsAdd(tps: TPs, tp: TriggerPrimitive)
    ensures var cs := Counts(tps); var c := tp.channel;
      Counts(tps + [tp]) == cs[c := if c in cs then cs[c] + 1 else 1]
  {
    var all := tps + [tp];
    assert all[..|tps|] == tps;
    CountOfChannel(tps, tp.channel);
    assert Channels(all) == Channels(tps) + {tp.channel} by {
      assert forall c :: c in Channels(all) <==> c in Channels(tps) || c == tp.channel;
    }
  }

  lemma CountFirst(tps: TPs, c: Channel)
    requires tps != []
    ensures Count(tps, c) == Count(tps[1..], c) + if c == tps[0].channel then 1 else 0
    ensures c in Channels(tps) <==> c in Channels(tps[1..]) || c == tps[0].channel
  {
    assert tps == [tps[0]] + tps[1..];
    CountAppend([tps[0]], tps[1..], c);
    assert tps[0] in tps;
  }

  /** Removing the first primitive decrements its channel's count, and drops the channel at zero. */
  lemma CountsRemoveFirst(tps: TPs)
    requires tps != []
    ensures var cs := Counts(tps); var c := tps[0].channel;
      c in cs && cs[c] > 0 && Counts(tps[1..]) == if cs[c] == 1 then cs - {c} else cs[c := cs[c] - 1]
  {
    CountFirst(tps, tps[0].channel);
    hide Count, Channels;
    forall c: Channel
      ensures Count(tps, c) == Count(tps[1..], c) + if c == tps[0].channel then 1 else 0
      ensures Count(tps[1..], c) > 0 <==> c in Channels(tps[1..])
      ensures c in Channels(tps) <==> c in Channels(tps[1..]) || c == tps[0].channel
    {
      CountFirst(tps, c);
      CountOfChannel(tps[1..], c);
    }
  }

  lemma AdcSumLast(tps: TPs, tp: TriggerPrimitive)
    ensures AdcSum(tps + [tp]) == AdcSum(tps) + tp.adcIntegral
  {
    assert (tps + [tp])[..|tps|] == tps;
  }

  lemma AdcSumFirst(tps: TPs)
    requires tps != []
    ensures AdcSum(tps) == tps[0].adcIntegral + AdcSum(tps[1..])
  {
    AdcSumAppend([tps[0]], tps[1..]);
    AdcSumLast([], tps[0]);
    assert [] + [tps[0]] == [tps[0]];
    assert [tps[0]] + tps[1..] == tps;
  }

  lemma CountsOfOne(tp: TriggerPrimitive)
    ensures Counts([tp]) == map[tp.channel := 1] && AdcSum([tp]) == tp.adcIntegral && CountsFit([tp])
  {
    CountsAdd([], tp);
    AdcSumLast([], tp);
    assert [] + [tp] == [tp] && [tp][..0] == [];
  }

  lemma CountsFitSuffix(tps: TPs, k: nat)
    requires k <= |tps| && CountsFit(tps)
    ensures CountsFit(tps[k..])
  {
    forall c: Channel
      ensures Count(tps[k..], c) < TWO_16
    {
      CountAppend(tps[..k], tps[k..], c);
      assert tps == tps[..k] + tps[k..];
    }
  }

  lemma {:induction false} ChannelsAtMost(tps: TPs)
    ensures |Channels(tps)| <= |tps|
  {
    if tps != [] {
      var n := |tps| - 1;
      ChannelsAtMost(tps[..n]);
      assert tps == tps[..n] + [tps[n]];
      assert Channels(tps) == Channels(tps[..n]) + {tps[n].channel};
    }
  }

  lemma {:induction false} CountAtMost(tps: TPs, c: Channel)
    ensures Count(tps, c) <= |tps|
  {
    if tps != [] {
      CountAtMost(tps[..|tps| - 1], c);
    }
  }

  lemma SmallWindowFits(tps: TPs)
    requires |tps| < TWO_16
    ensures CountsFit(tps) && |Channels(tps)| < TWO_16
  {
    ChannelsAtMost(tps);
    forall c: Channel
      ensures Count(tps, c) < TWO_16
    {
      CountAtMost(tps, c);
    }
  }

  class TPWindow {
    var timeStart: Timestamp
    var adcIntegral: nat
    var channelStates: map<Channel, nat>
    var inputs: TPs

    /** The running aggregates agree with the list of inputs: the ADC sum in 32 bits, the counts exactly. */
    ghost predicate Aggregates()
      reads this
    {
      adcIntegral == Wrap32(AdcSum(inputs)) && channelStates == Counts(inputs) && CountsFit(inputs)
    }

    /** Moreover the window starts at its first input. */
    ghost predicate Valid()
      reads this
    {
      Aggregates() && (inputs != [] ==> timeStart == inputs[0].timeStart)
    }

    constructor ()
      ensures Valid() && inputs == []
    {
      timeStart, adcIntegral, channelStates, inputs := 0, 0, map[], [];
    }

    predicate IsEmpty()
      reads this
    {
      inputs == []
    }

    method Add(tp: TriggerPrimitive)
      requires Aggregates() && CountsFit(inputs + [tp])
      modifies this
      ensures Aggregates() && inputs == old(inputs) + [tp] && timeStart == old(timeStart)
    {
      CountsAdd(inputs, tp);
      AdcSumLast(inputs, tp);
      Wrap32Add(AdcSum(inputs), tp.adcIntegral);
      hide Wrap32, Counts, AdcSum, CountsFit;
      adcIntegral := Wrap32(adcIntegral + tp.adcIntegral);
      channelStates :=
        channelStates[tp.channel := if tp.channel in channelStates then channelStates[tp.channel] + 1 else 1];
      inputs := inputs + [tp];
    }

    method Clear()
      modifies this
      ensures Aggregates() && inputs == [] && timeStart == 0
    {
      inputs, channelStates, timeStart, adcIntegral := [], map[], 0, 0;
    }

    method NChannelsHit() returns (n: nat)
      requires Aggregates()
      ensures n == |Channels(inputs)| % 0x1_0000
    {
      n := |channelStates| % TWO_16;
      assert channelStates.Keys == Channels(inputs);
    }

    method Reset(tp: TriggerPrimitive)
      modifies this
      ensures Valid() && inputs == [tp]
    {
      CountsOfOne(tp);
      hide Wrap32, Counts, AdcSum, CountsFit;
      channelStates, inputs := map[], [];
      timeStart := tp.timeStart;
      adcIntegral := Wrap32(tp.adcIntegral);
      channelStates := channelStates[tp.channel := 1];
      inputs := inputs + [tp];
      assert inputs == [tp];
    }

    /** Takes the first of `rest`, the inputs not yet expelled, out of the aggregates. */
    method Expel(ghost rest: TPs, tp: TriggerPrimitive)
      requires rest != [] && rest[0] == tp && adcIntegral == Wrap32(AdcSum(rest)) && channelStates == Counts(rest)
      modifies this`adcIntegral, this`channelStates
      ensures adcIntegral == Wrap32(AdcSum(rest[1..])) && channelStates == Counts(rest[1..])
    {
      CountsRemoveFirst(rest);
      AdcSumFirst(rest);
      Wrap32Add(AdcSum(rest), 0 - tp.adcIntegral);
      hide Wrap32, Counts, AdcSum;
      adcIntegral := Wrap32(adcIntegral - tp.adcIntegral);
      channelStates := channelStates[tp.channel := channelStates[tp.channel] - 1];
      if channelStates[tp.channel] == 0 {
        channelStates := channelStates - {tp.channel};
      }
    }

    /** Slides the window along to take in `tp`. */
    method Move(tp: TriggerPrimitive, length: Timestamp)
      requires Aggregates() && CountsFit(inputs + [tp])
      modifies this
      ensures Valid() && inputs == Moved(old(inputs), tp, length)
    {
      var k := 0;
      while k < |inputs| && !Within(tp.timeStart, inputs[k].timeStart, length)
        invariant 0 <= k <= |inputs| && inputs == old(inputs)
        invariant Expired(inputs, tp.timeStart, length, k) == Expired(inputs, tp.timeStart, length, 0)
        invariant adcIntegral == Wrap32(AdcSum(inputs[k..])) && channelStates == Counts(inputs[k..])
      {
        hide Counts, AdcSum, Wrap32;
        assert inputs[k..][1..] == inputs[k + 1..];
        Expel(inputs[k..], inputs[k]);
        k := k + 1;
      }
      CountsFitSuffix(inputs, k);
      CountsFitSuffix(inputs + [tp], k);
      hide Wrap32, Counts, AdcSum, CountsFit;
      assert (inputs + [tp])[k..] == inputs[k..] + [tp];
      inputs := inputs[k..];
      if inputs != [] {
        timeStart := inputs[0].timeStart;
        Add(tp);
      } else {
        Reset(tp);
      }
    }
  }
}
