/** The span of a trigger activity, found from its inputs one by one. */
module Activities {
  import opened TriggerTypes

  /** Where a primitive ends, if its time over threshold counts, and else where it starts. */
  function EndOf(tp: TriggerPrimitive, tot: bool): nat {
    if tot then tp.timeStart + tp.timeOverThreshold else tp.timeStart
  }

  ghost predicate Covers(ta: TriggerActivity, tp: TriggerPrimitive, tot: bool) {
    && ta.timeStart <= tp.timeStart && ta.channelStart <= tp.channel <= ta.channelEnd
    && (if tot then tp.timeStart + tp.timeOverThreshold else tp.timeStart) <= ta.timeEnd
  }

  /** The activity covers its primitives and no more: each bound is that of one of them. */
  ghost predicate Spans(ta: TriggerActivity, tps: TPs, tot: bool) {
    && (forall tp :: tp in tps ==> Covers(ta, tp, tot))
    && (exists tp :: tp in tps && tp.timeStart == ta.timeStart)
    && (exists tp :: tp in tps && ta.timeEnd == if tot then tp.timeStart + tp.timeOverThreshold else tp.timeStart)
    && (exists tp :: tp in tps && tp.channel == ta.channelStart)
    && (exists tp :: tp in tps && tp.channel == ta.channelEnd)
  }

  function Extended(ta: TriggerActivity, tp: TriggerPrimitive, tot: bool): TriggerActivity {
    ta.(timeStart := if tp.timeStart < ta.timeStart then tp.timeStart else ta.timeStart,
        timeEnd := if EndOf(tp, tot) > ta.timeEnd then EndOf(tp, tot) else ta.timeEnd,
        channelStart := if tp.channel < ta.channelStart then tp.channel else ta.channelStart,
        channelEnd := if tp.channel > ta.channelEnd then tp.channel else ta.channelEnd)
  }

  lemma ExtendedSpans(ta: TriggerActivity, tps: TPs, tp: TriggerPrimitive, tot: bool)
    requires Spans(ta, tps, tot)
    ensures Spans(Extended(ta, tp, tot), tps + [tp], tot)
    ensures Extended(ta, tp, tot).adcIntegral == ta.adcIntegral && Extended(ta, tp, tot).inputs == ta.inputs
  {
    assert forall x :: x in tps + [tp] <==> x in tps || x == tp;
  }

  lemma SpansOne(ta: TriggerActivity, tp: TriggerPrimitive, tot: bool)
    requires ta.timeStart == tp.timeStart && ta.timeEnd == EndOf(tp, tot)
    requires ta.channelStart == ta.channelEnd == tp.channel
    ensures Spans(ta, [tp], tot)
  {
    assert tp in [tp];
  }

  /** The bounds do not change when a primitive counts twice. */
  lemma SpansAgain(ta: TriggerActivity, tps: TPs, k: nat, tot: bool)
    requires k < |tps| && Spans(ta, [tps[k]] + tps, tot)
    ensures Spans(ta, tps, tot)
  {
    assert forall x :: x in [tps[k]] + tps <==> x in tps;
  }

  /** The activity over all primitives of a window, with their ADC sum in 32 bits. */
  ghost predicate IsActivityOver(ta: TriggerActivity, tps: TPs, tot: bool) {
    ta.inputs == tps && ta.adcIntegral == Wrap32(AdcSum(tps)) && Spans(ta, tps, tot)
  }

  /** The activity ends where the last of its primitives falls below threshold. */
  ghost predicate EndsLast(ta: TriggerActivity, tps: TPs) {
    && (forall tp :: tp in tps ==> tp.timeStart + tp.timeOverThreshold <= ta.timeEnd)
    && (exists tp :: tp in tps && ta.timeEnd == tp.timeStart + tp.timeOverThreshold)
  }

  /** It ends where the last of its primitives starts. */
  ghost predicate EndsAtLastStart(ta: TriggerActivity, tps: TPs) {
    && (forall tp :: tp in tps ==> tp.timeStart <= ta.timeEnd)
    && (exists tp :: tp in tps && ta.timeEnd == tp.timeStart)
  }

  lemma SpansEnd(ta: TriggerActivity, tps: TPs)
    ensures Spans(ta, tps, true) ==> EndsLast(ta, tps)
    ensures Spans(ta, tps, false) ==> EndsAtLastStart(ta, tps)
  {
    assert Spans(ta, tps, true) ==> forall tp :: tp in tps ==> Covers(ta, tp, true);
    assert Spans(ta, tps, false) ==> forall tp :: tp in tps ==> Covers(ta, tp, false);
  }

  /** The activity over the inputs of a window, with the window's ADC sum. */
  method Construct(tps: TPs, adc: nat, tot: bool) returns (ta: TriggerActivity)
    requires tps != []
    ensures Spans(ta, tps, tot) && ta.adcIntegral == adc && ta.inputs == tps
  {
    var last := tps[|tps| - 1];
    ta := TriggerActivity(last.timeStart, EndOf(last, tot), last.channel, last.channel, adc, tps);
    SpansOne(ta, last, tot);
    hide Spans, Extended, EndOf;
    var i := 0;
    assert [last] + tps[..0] == [last];
    while i < |tps|
      invariant 0 <= i <= |tps|
      invariant Spans(ta, [last] + tps[..i], tot) && ta.adcIntegral == adc && ta.inputs == tps
    {
      ExtendedSpans(ta, [last] + tps[..i], tps[i], tot);
      assert [last] + tps[..i + 1] == [last] + tps[..i] + [tps[i]];
      ta := Extended(ta, tps[i], tot);
      i := i + 1;
    }
    assert tps[..|tps|] == tps;
    SpansAgain(ta, tps, |tps| - 1, tot);
  }
}
