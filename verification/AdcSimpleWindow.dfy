/** The maker that triggers on the ADC sum of a sliding window. */
module AdcSimpleWindow {
  import opened TriggerTypes
  import opened SlidingWindows
  import opened TPWindows
  import opened WindowTests

  /** The window of this maker: a list of primitives, its ADC sum and its start. */
  class Window {
    var timeStart: Timestamp
    var adcIntegral: nat
    var tps: TPs

    ghost predicate Valid()
      reads this
    {
      tps != [] ==> adcIntegral == Wrap32(AdcSum(tps)) && timeStart == tps[0].timeStart
    }

    constructor ()
      ensures Valid() && tps == []
    {
      timeStart, adcIntegral, tps := 0, 0, [];
    }

    /** An empty window does not get its start and its sum from here. */
    method Add(tp: TriggerPrimitive)
      modifies this
      ensures tps == old(tps) + [tp] && timeStart == old(timeStart)
      ensures adcIntegral == Wrap32(old(adcIntegral) + tp.adcIntegral)
      ensures old(Valid() && tps != []) ==> Valid()
    {
      AdcSumLast(tps, tp);
      Wrap32Add(AdcSum(tps), tp.adcIntegral);
      hide Wrap32, AdcSum;
      adcIntegral := Wrap32(adcIntegral + tp.adcIntegral);
      tps := tps + [tp];
    }

    method Reset(tp: TriggerPrimitive)
      modifies this
      ensures Valid() && tps == [tp]
    {
      AdcSumLast([], tp);
      assert [] + [tp] == [tp];
      tps := [tp];
      timeStart := tp.timeStart;
      adcIntegral := Wrap32(tp.adcIntegral);
    }

    method Move(tp: TriggerPrimitive, length: Timestamp)
      requires Valid()
      modifies this
      ensures Valid() && tps == Moved(old(tps), tp, length)
    {
      hide Wrap32, AdcSum;
      var k := 0;
      while k < |tps| && !Within(tp.timeStart, tps[k].timeStart, length)
        invariant 0 <= k <= |tps| && tps == old(tps)
        invariant Expired(tps, tp.timeStart, length, k) == Expired(tps, tp.timeStart, length, 0)
        invariant tps != [] ==> adcIntegral == Wrap32(AdcSum(tps[k..]))
      {
        AdcSumFirst(tps[k..]);
        assert tps[k..][1..] == tps[k + 1..];
        Wrap32Add(AdcSum(tps[k..]), 0 - tps[k].adcIntegral);
        adcIntegral := Wrap32(adcIntegral - tps[k].adcIntegral);
        k := k + 1;
      }
      tps := tps[k..];
      if tps != [] {
        timeStart := tps[0].timeStart;
        Add(tp);
      } else {
        Reset(tp);
      }
    }
  }

  /** `held` are the primitives of `tps` in the interval that starts with one of them, at time `from`. */
  ghost predicate IsInterval(tps: TPs, length: Timestamp, from: Timestamp, held: TPs) {
    (exists j :: 0 <= j < |tps| && tps[j].timeStart == from) && held == InInterval(tps, from, length)
  }

  /** The activity of a window: from the start of its first primitive to the end of its last, on the channel of
      that, with the ADC sum of all in 32 bits. */
  ghost predicate IsActivityOf(ta: TriggerActivity, tps: TPs)
    requires tps != []
  {
    var last := tps[|tps| - 1];
    && ta.inputs == tps && ta.adcIntegral == Wrap32(AdcSum(tps))
    && ta.timeStart == tps[0].timeStart && ta.timeEnd == last.timeStart + last.timeOverThreshold
    && ta.channelStart == ta.channelEnd == last.channel
  }

  class TriggerActivityMakerADCSimpleWindow {
    const window: Window
    const adcThreshold: nat
    const windowLength: Timestamp

    /** The primitives since the window was last reset, that one included. */
    ghost var since: TPs

    /** No arrival since the last reset has triggered, and the window is what those arrivals leave. */
    ghost predicate Valid()
      reads this, window
    {
      && window.Valid()
      && window.tps == (if since == [] then [] else WindowAfter(since, windowLength))
      && (NoOverflow(since, windowLength) ==> Quiet(since, windowLength, Heavy(adcThreshold)))
    }

    constructor (adcThreshold: nat, windowLength: Timestamp)
      ensures Valid() && fresh(window) && since == []
      ensures this.adcThreshold == adcThreshold && this.windowLength == windowLength
    {
      this.adcThreshold, this.windowLength := adcThreshold, windowLength;
      window := new Window();
      since := [];
    }

    method ConstructTA() returns (ta: TriggerActivity)
      requires window.Valid() && window.tps != []
      ensures IsActivityOf(ta, window.tps)
    {
      var last := window.tps[|window.tps| - 1];
      ta := TriggerActivity(window.timeStart, last.timeStart + last.timeOverThreshold, last.channel, last.channel,
                            window.adcIntegral, window.tps);
    }

    /** Takes in one primitive. For primitives in time order and sums within 32 bits there is an activity
        exactly when some interval of the window length, starting at a primitive since the last reset, is over
        and has an ADC sum above the threshold; the activity holds all primitives of such an interval. */
    method Process(tp: TriggerPrimitive) returns (tas: seq<TriggerActivity>)
      requires Valid()
      modifies this, window
      ensures Valid() && |tas| <= 1
      ensures since == if tas != [] || old(since) == [] then [tp] else old(since) + [tp]
      ensures windowLength > 0 && InTimeOrder(old(since) + [tp]) && NoOverflow(old(since), windowLength) ==>
        (tas != [] <==> HeavyIntervalClosed(old(since), tp, windowLength, Heavy(adcThreshold)))
      ensures tas != [] <==>
        && old(window.tps) != [] && !Within(tp.timeStart, old(window.tps)[0].timeStart, windowLength)
        && Wrap32(AdcSum(old(window.tps))) > adcThreshold
      ensures tas != [] ==> old(window.tps) != [] && IsActivityOf(tas[0], old(window.tps))
      ensures tas != [] && windowLength > 0 && InTimeOrder(old(since)) ==>
        IsInterval(old(since), windowLength, tas[0].timeStart, tas[0].inputs)
    {
      tas := [];
      QuietStart(tp, windowLength, Heavy(adcThreshold));
      hide Wrap32, AdcSum, Quiet, Fires, WindowAfter, HeavyIntervalClosed, NoOverflow, InTimeOrder, Heavy, IsInterval;
      if window.tps == [] {
        window.Reset(tp);
        since := [tp];
        return;
      }
      FiresByTheSum(since, tp);
      QuietGrows(since, tp, windowLength, Heavy(adcThreshold));
      NoOverflowBefore(since, tp, windowLength);
      if Within(tp.timeStart, window.timeStart, windowLength) {
        window.Add(tp);
        since := since + [tp];
      } else if window.adcIntegral > adcThreshold {
        ActivityIsInterval(since);
        var ta := ConstructTA();
        tas := [ta];
        window.Reset(tp);
        since := [tp];
      } else {
        window.Move(tp, windowLength);
        since := since + [tp];
      }
    }

    /** Without overflow, the code's test is the trigger on the window, and that is brute force. */
    lemma FiresByTheSum(tps: TPs, tp: TriggerPrimitive)
      requires tps != [] && window.Valid() && window.tps == WindowAfter(tps, windowLength)
      requires NoOverflow(tps, windowLength) ==> Quiet(tps, windowLength, Heavy(adcThreshold))
      ensures NoOverflow(tps, windowLength) ==>
        (Fires(window.tps, tp, windowLength, Heavy(adcThreshold)) <==>
          !Within(tp.timeStart, window.timeStart, windowLength) && window.adcIntegral > adcThreshold)
      ensures windowLength > 0 && InTimeOrder(tps + [tp]) && NoOverflow(tps, windowLength) ==>
        (Fires(window.tps, tp, windowLength, Heavy(adcThreshold)) <==>
         HeavyIntervalClosed(tps, tp, windowLength, Heavy(adcThreshold)))
    {
      hide WindowAfter, AdcSum, Wrap32, NoOverflow, Quiet, HeavyIntervalClosed, InTimeOrder;
      if NoOverflow(tps, windowLength) {
        SumFits(tps, windowLength);
        if windowLength > 0 && InTimeOrder(tps + [tp]) {
          HeavyIsMonotone(adcThreshold);
          TriggerMissesNothing(tps, tp, windowLength, Heavy(adcThreshold));
        }
      }
    }

    lemma ActivityIsInterval(tps: TPs)
      requires tps != [] && window.Valid() && window.tps == WindowAfter(tps, windowLength)
      ensures windowLength > 0 && InTimeOrder(tps) ==>
        IsInterval(tps, windowLength, window.tps[0].timeStart, window.tps)
    {
      if windowLength > 0 && InTimeOrder(tps) {
        var w := WindowIsSuffix(tps, windowLength);
        WindowIsInterval(tps, windowLength, w);
        assert tps[w] == window.tps[0];
      }
    }
  }
}
