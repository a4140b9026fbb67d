/** The window of trigger activities, kept in order of time, with its running aggregates. */
module TAWindows {
  import opened TriggerTypes
  import opened SlidingWindows
  import opened TPWindows

  /** The primitives of all activities. */
  function AllInputs(tas: seq<TriggerActivity>): TPs {
    if tas == [] then [] else AllInputs(tas[..|tas| - 1]) + tas[|tas| - 1].inputs
  }

  function AdcTotal(tas: seq<TriggerActivity>): nat {
    if tas == [] then 0 else AdcTotal(tas[..|tas| - 1]) + tas[|tas| - 1].adcIntegral
  }

  ghost predicate SortedByTime(tas: seq<TriggerActivity>) {
    forall i, j :: 0 <= i <= j < |tas| ==> tas[i].timeStart <= tas[j].timeStart
  }

  /** The position of the first activity, from the `i`-th on, that starts after `t`. */
  function PlaceFrom(tas: seq<TriggerActivity>, t: Timestamp, i: nat): (k: nat)
    requires i <= |tas|
    ensures i <= k <= |tas|
    ensures forall j :: i <= j < k ==> tas[j].timeStart <= t
    ensures k < |tas| ==> t < tas[k].timeStart
    decreases |tas| - i
  {
    if i < |tas| && t >= tas[i].timeStart then PlaceFrom(tas, t, i + 1) else i
  }

  /** The window with `ta` in its place. */
  function Inserted(tas: seq<TriggerActivity>, ta: TriggerActivity): seq<TriggerActivity> {
    var k := PlaceFrom(tas, ta.timeStart, 0);
    tas[..k] + [ta] + tas[k..]
  }

  /** The number of leading activities, from the `i`-th on, that the arrival of one at time `now` expels. */
  function Outdated(tas: seq<TriggerActivity>, now: Timestamp, length: Timestamp, i: nat): (k: nat)
    requires i <= |tas|
    ensures i <= k <= |tas|
    decreases |tas| - i
  {
    if i < |tas| && !Within(now, tas[i].timeStart, length) then Outdated(tas, now, length, i + 1) else i
  }

  /** The window after sliding it along to take in `ta`, and when it starts then. */
  function MovedTo(tas: seq<TriggerActivity>, ta: TriggerActivity, length: Timestamp): seq<TriggerActivity> {
    Inserted(tas[Outdated(tas, ta.timeStart, length, 0)..], ta)
  }

  function MovedStart(tas: seq<TriggerActivity>, ta: TriggerActivity, length: Timestamp): Timestamp {
    var k := Outdated(tas, ta.timeStart, length, 0);
    if k < |tas| then tas[k].timeStart else ta.timeStart
  }

  lemma InsertedHolds(tas: seq<TriggerActivity>, ta: TriggerActivity)
    ensures multiset(Inserted(tas, ta)) == multiset(tas) + multiset{ta} && |Inserted(tas, ta)| == |tas| + 1
  {
    var k := PlaceFrom(tas, ta.timeStart, 0);
    assert tas == tas[..k] + tas[k..];
  }

  lemma InsertedIsSorted(tas: seq<TriggerActivity>, ta: TriggerActivity)
    requires SortedByTime(tas)
    ensures SortedByTime(Inserted(tas, ta))
  {
    var k := PlaceFrom(tas, ta.timeStart, 0);
    var r := Inserted(tas, ta);
    assert forall i :: 0 <= i < |r| ==> r[i] == if i < k then tas[i] else if i == k then ta else tas[i - 1];
    forall i, j | 0 <= i <= j < |r|
      ensures r[i].timeStart <= r[j].timeStart
    {
      InOrderAround(tas, ta.timeStart, k, i, j);
    }
  }

  lemma InOrderAround(tas: seq<TriggerActivity>, t: Timestamp, k: nat, i: nat, j: nat)
    requires SortedByTime(tas) && k == PlaceFrom(tas, t, 0) && i <= j <= |tas|
    ensures i < j < k ==> tas[i].timeStart <= tas[j].timeStart
    ensures i < k < j ==> tas[i].timeStart <= tas[j - 1].timeStart
    ensures i < k ==> tas[i].timeStart <= t
    ensures k < j ==> t <= tas[j - 1].timeStart
    ensures k < i ==> tas[i - 1].timeStart <= tas[j - 1].timeStart
  {
    assert k < j ==> tas[k].timeStart <= tas[j - 1].timeStart;
  }

  // ----- the aggregates

  lemma {:induction false} AllInputsAppend(a: seq<TriggerActivity>, b: seq<TriggerActivity>)
    ensures AllInputs(a + b) == AllInputs(a) + AllInputs(b) && AdcTotal(a + b) == AdcTotal(a) + AdcTotal(b)
  {
    if b == [] {
      assert a + b == a;
    } else {
      assert (a + b)[..|a + b| - 1] == a + b[..|b| - 1];
      AllInputsAppend(a, b[..|b| - 1]);
    }
  }

  lemma OneActivity(ta: TriggerActivity)
    ensures AllInputs([ta]) == ta.inputs && AdcTotal([ta]) == ta.adcIntegral
  {
    assert [ta][..0] == [];
  }

  lemma SameCounts(a: TPs, b: TPs)
    requires forall c :: Count(a, c) == Count(b, c)
    ensures Counts(a) == Counts(b) && Channels(a) == Channels(b)
  {
    hide Channels;
    forall c: Channel
      ensures c in Channels(a) <==> c in Channels(b)
    {
      CountOfChannel(a, c);
      CountOfChannel(b, c);
    }
  }

  /** Where an activity is put does not matter to the aggregates. */
  lemma InsertedAggregates(tas: seq<TriggerActivity>, ta: TriggerActivity)
    ensures Counts(AllInputs(Inserted(tas, ta))) == Counts(AllInputs(tas) + ta.inputs)
    ensures CountsFit(AllInputs(Inserted(tas, ta))) <==> CountsFit(AllInputs(tas) + ta.inputs)
    ensures AdcTotal(Inserted(tas, ta)) == AdcTotal(tas) + ta.adcIntegral
  {
    var k := PlaceFrom(tas, ta.timeStart, 0);
    var a, b := tas[..k], tas[k..];
    assert tas == a + b;
    OneActivity(ta);
    AllInputsAppend(a, b);
    AllInputsAppend(a, [ta]);
    AllInputsAppend(a + [ta], b);
    hide AllInputs, Counts, Channels;
    forall c
      ensures Count(AllInputs(a) + ta.inputs + AllInputs(b), c) == Count(AllInputs(a) + AllInputs(b) + ta.inputs, c)
    {
      CountAppend(AllInputs(a) + ta.inputs, AllInputs(b), c);
      CountAppend(AllInputs(a), ta.inputs, c);
      CountAppend(AllInputs(a) + AllInputs(b), ta.inputs, c);
      CountAppend(AllInputs(a), AllInputs(b), c);
    }
    SameCounts(AllInputs(a) + ta.inputs + AllInputs(b), AllInputs(a) + AllInputs(b) + ta.inputs);
  }

  lemma FirstActivity(tas: seq<TriggerActivity>)
    requires tas != []
    ensures AllInputs(tas) == tas[0].inputs + AllInputs(tas[1..])
    ensures AdcTotal(tas) == tas[0].adcIntegral + AdcTotal(tas[1..])
  {
    assert tas == [tas[0]] + tas[1..];
    OneActivity(tas[0]);
    AllInputsAppend([tas[0]], tas[1..]);
  }

  /** Increments the count of the channel of each primitive. */
  method CountIn(states: map<Channel, nat>, tps: TPs, ghost before: TPs) returns (r: map<Channel, nat>)
    requires states == Counts(before)
    ensures r == Counts(before + tps)
  {
    hide Counts;
    r := states;
    var i := 0;
    assert before + tps[..0] == before;
    while i < |tps|
      invariant 0 <= i <= |tps| && r == Counts(before + tps[..i])
    {
      var c := tps[i].channel;
      CountsAdd(before + tps[..i], tps[i]);
      assert before + tps[..i + 1] == before + tps[..i] + [tps[i]];
      r := r[c := if c in r then r[c] + 1 else 1];
      i := i + 1;
    }
    assert tps[..|tps|] == tps;
  }

  /** Decrements them again, and drops the channels without hits. */
  method CountOut(states: map<Channel, nat>, tps: TPs, ghost after: TPs) returns (r: map<Channel, nat>)
    requires states == Counts(tps + after)
    ensures r == Counts(after)
  {
    hide Counts;
    r := states;
    var i := 0;
    assert tps[0..] == tps;
    while i < |tps|
      invariant 0 <= i <= |tps| && r == Counts(tps[i..] + after)
    {
      var c := tps[i].channel;
      CountsRemoveFirst(tps[i..] + after);
      assert (tps[i..] + after)[1..] == tps[i + 1..] + after;
      r := r[c := r[c] - 1];
      if r[c] == 0 {
        r := r - {c};
      }
      i := i + 1;
    }
    assert tps[|tps|..] + after == after;
  }

  lemma CountsFitAfter(tps: TPs, after: TPs, more: TPs)
    requires CountsFit(tps + after + more)
    ensures CountsFit(after + more) && CountsFit(after) && CountsFit(more)
  {
    forall c: Channel
      ensures Count(after + more, c) < TWO_16 && Count(after, c) < TWO_16 && Count(more, c) < TWO_16
    {
      CountAppend(tps, after, c);
      CountAppend(tps + after, more, c);
      CountAppend(after, more, c);
    }
  }

  lemma SuffixFits(tas: seq<TriggerActivity>, k: nat, ta: TriggerActivity)
    requires k <= |tas| && SortedByTime(tas) && CountsFit(AllInputs(tas) + ta.inputs)
    ensures SortedByTime(tas[k..]) && CountsFit(AllInputs(tas[k..]))
    ensures CountsFit(AllInputs(tas[k..]) + ta.inputs) && CountsFit(ta.inputs)
    ensures Inserted([], ta) == [ta]
  {
    assert tas == tas[..k] + tas[k..];
    AllInputsAppend(tas[..k], tas[k..]);
    CountsFitAfter(AllInputs(tas[..k]), AllInputs(tas[k..]), ta.inputs);
  }

  class TAWindow {
    var timeStart: Timestamp
    var adcIntegral: nat
    var channelStates: map<Channel, nat>
    var inputs: seq<TriggerActivity>

    /** The aggregates agree with the list of activities, which is in order of time. */
    ghost predicate Valid()
      reads this
    {
      && adcIntegral == Wrap64(AdcTotal(inputs))
      && channelStates == Counts(AllInputs(inputs)) && CountsFit(AllInputs(inputs))
      && SortedByTime(inputs)
    }

    constructor ()
      ensures Valid() && inputs == []
    {
      timeStart, adcIntegral, channelStates, inputs := 0, 0, map[], [];
    }

    predicate IsEmpty()
      reads this
    {
      inputs == []
    }

    method Add(ta: TriggerActivity)
      requires Valid() && |inputs| < TWO_16 && CountsFit(AllInputs(inputs) + ta.inputs)
      modifies this
      ensures Valid() && inputs == Inserted(old(inputs), ta) && timeStart == old(timeStart)
    {
      hide Wrap64, AdcTotal, AllInputs, Counts, CountsFit, SortedByTime;
      InsertedAggregates(inputs, ta);
      InsertedIsSorted(inputs, ta);
      Wrap64Add(AdcTotal(inputs), ta.adcIntegral);
      adcIntegral := Wrap64(adcIntegral + ta.adcIntegral);
      channelStates := CountIn(channelStates, ta.inputs, AllInputs(inputs));
      var insertAt := 0;
      while insertAt < |inputs| && !(ta.timeStart < inputs[insertAt].timeStart)
        invariant 0 <= insertAt <= |inputs|
        invariant PlaceFrom(inputs, ta.timeStart, insertAt) == PlaceFrom(inputs, ta.timeStart, 0)
      {
        insertAt := insertAt + 1;
      }
      inputs := inputs[..insertAt] + [ta] + inputs[insertAt..];
    }

    method Clear()
      modifies this
      ensures Valid() && inputs == [] && timeStart == 0
    {
      inputs, channelStates, timeStart, adcIntegral := [], map[], 0, 0;
    }

    method NChannelsHit() returns (n: nat)
      requires Valid()
      ensures n == |Channels(AllInputs(inputs))| % 0x1_0000
    {
      n := |channelStates| % TWO_16;
      assert channelStates.Keys == Channels(AllInputs(inputs));
    }

    method Reset(ta: TriggerActivity)
      requires CountsFit(ta.inputs)
      modifies this
      ensures Valid() && inputs == [ta] && timeStart == ta.timeStart
    {
      OneActivity(ta);
      assert [] + ta.inputs == ta.inputs;
      channelStates, inputs := map[], [];
      timeStart := ta.timeStart;
      adcIntegral := Wrap64(ta.adcIntegral);
      channelStates := CountIn(channelStates, ta.inputs, []);
      inputs := inputs + [ta];
      assert inputs == [ta];
    }

    /** Takes the first of `rest`, the activities not yet expelled, out of the aggregates. */
    method Expel(ghost rest: seq<TriggerActivity>, ta: TriggerActivity)
      requires rest != [] && rest[0] == ta && adcIntegral == Wrap64(AdcTotal(rest))
      requires channelStates == Counts(AllInputs(rest))
      modifies this`adcIntegral, this`channelStates
      ensures adcIntegral == Wrap64(AdcTotal(rest[1..])) && channelStates == Counts(AllInputs(rest[1..]))
    {
      FirstActivity(rest);
      Wrap64Add(AdcTotal(rest), 0 - ta.adcIntegral);
      hide Wrap64, AdcTotal, AllInputs, Counts;
      adcIntegral := Wrap64(adcIntegral - ta.adcIntegral);
      channelStates := CountOut(channelStates, ta.inputs, AllInputs(rest[1..]));
    }

    /** Slides the window along to take in `ta`. */
    method Move(ta: TriggerActivity, length: Timestamp)
      requires Valid() && |inputs| < TWO_16 && CountsFit(AllInputs(inputs) + ta.inputs)
      modifies this
      ensures Valid() && inputs == MovedTo(old(inputs), ta, length)
      ensures timeStart == MovedStart(old(inputs), ta, length)
    {
      hide Wrap64, AdcTotal, AllInputs, Counts, CountsFit, SortedByTime;
      assert inputs[0..] == inputs;
      var k := 0;
      while k < |inputs| && !Within(ta.timeStart, inputs[k].timeStart, length)
        invariant 0 <= k <= |inputs| && inputs == old(inputs)
        invariant Outdated(inputs, ta.timeStart, length, k) == Outdated(inputs, ta.timeStart, length, 0)
        invariant adcIntegral == Wrap64(AdcTotal(inputs[k..])) && channelStates == Counts(AllInputs(inputs[k..]))
      {
        assert inputs[k..][1..] == inputs[k + 1..];
        Expel(inputs[k..], inputs[k]);
        k := k + 1;
      }
      SuffixFits(inputs, k, ta);
      inputs := inputs[k..];
      if inputs != [] {
        timeStart := inputs[0].timeStart;
        Add(ta);
      } else {
        Reset(ta);
      }
    }
  }
}
