/** The maker that turns a window of activities into a trigger candidate. */
module CandidateMaker {
  import opened TriggerTypes
  import opened SlidingWindows
  import opened TPWindows
  import opened TAWindows
  import opened CandidateWindows
  import opened Collections

  datatype Config = Config(
    triggerOnAdc: bool, triggerOnNChannels: bool, adcThreshold: nat, nChannelsThreshold: nat,
    windowLength: Timestamp, readoutBefore: Timestamp, readoutAfter: Timestamp)

  datatype TriggerCandidate = TriggerCandidate(
    timeStart: Timestamp, timeEnd: Timestamp, timeCandidate: Timestamp, inputs: seq<TriggerActivity>)

  /** The activities call for a candidate. */
  ghost predicate Over(cfg: Config, tas: seq<TriggerActivity>) {
    || (cfg.triggerOnAdc && Wrap64(AdcTotal(tas)) > cfg.adcThreshold)
    || (cfg.triggerOnNChannels && |Channels(AllInputs(tas))| > cfg.nChannelsThreshold)
  }

  /** They are over a threshold, sums counted in full. */
  ghost predicate IsOver(cfg: Config, tas: seq<TriggerActivity>) {
    || (cfg.triggerOnAdc && AdcTotal(tas) > cfg.adcThreshold)
    || (cfg.triggerOnNChannels && |Channels(AllInputs(tas))| > cfg.nChannelsThreshold)
  }

  /** While sums fit in 64 bits these are the same. */
  lemma OverMeans(cfg: Config, tas: seq<TriggerActivity>)
    ensures AdcTotal(tas) < 0x1_0000_0000_0000_0000 ==> (Over(cfg, tas) <==> IsOver(cfg, tas))
  {
    hide AdcTotal, Channels, AllInputs;
    if AdcTotal(tas) < 0x1_0000_0000_0000_0000 {
      Wrap64Means(AdcTotal(tas), 0);
    }
  }

  /** There is a candidate exactly when the activities are over a threshold, and while their ADC counts add up to
      less than 2^64 exactly when they are with sums counted in full. */
  ghost predicate CallsFor(cfg: Config, tas: seq<TriggerActivity>, made: bool) {
    && (made <==> Over(cfg, tas))
    && (AdcTotal(tas) < 0x1_0000_0000_0000_0000 ==> (made <==> IsOver(cfg, tas)))
  }

  lemma OverCallsFor(cfg: Config, tas: seq<TriggerActivity>)
    ensures CallsFor(cfg, tas, Over(cfg, tas))
  {
    OverMeans(cfg, tas);
  }

  lemma NothingIsNotOver(cfg: Config)
    ensures !Over(cfg, [])
  {
    assert Channels([]) == {};
  }

  /** The candidate over a window that starts at `start`. */
  function CandidateOver(cfg: Config, start: Timestamp, tas: seq<TriggerActivity>): TriggerCandidate {
    TriggerCandidate(Ticks(start, cfg.readoutBefore), (start + cfg.readoutAfter) % TWO_64, start, tas)
  }

  /** The candidate is for time `start`, and is read out from `before` ticks earlier until `after` ticks later,
      in unsigned 64-bit arithmetic. */
  ghost predicate ReadsOut(tc: TriggerCandidate, start: Timestamp, before: Timestamp, after: Timestamp) {
    var range := 0x1_0000_0000_0000_0000;
    && tc.timeCandidate == start
    && tc.timeStart == (if before <= start then start - before else start - before + range)
    && tc.timeEnd == (if start + after < range then start + after else start + after - range)
  }

  ghost predicate AllReadOut(cfg: Config, tcs: seq<TriggerCandidate>) {
    forall tc :: tc in tcs ==> ReadsOut(tc, tc.timeCandidate, cfg.readoutBefore, cfg.readoutAfter)
  }

  lemma CandidateReadsOut(cfg: Config, start: Timestamp, tas: seq<TriggerActivity>)
    ensures ReadsOut(CandidateOver(cfg, start, tas), start, cfg.readoutBefore, cfg.readoutAfter)
    ensures CandidateOver(cfg, start, tas).inputs == tas
  {
    TicksInOrder(start, cfg.readoutBefore);
  }

  function ActivitiesOf(tcs: seq<TriggerCandidate>): seq<seq<TriggerActivity>> {
    seq(|tcs|, i requires 0 <= i < |tcs| => tcs[i].inputs)
  }

  /** A window after an arrival has no activities but those before and the new one. */
  ghost predicate Follows(win: seq<TriggerActivity>, ta: TriggerActivity, win': seq<TriggerActivity>) {
    multiset(win') <= multiset(win) + multiset{ta} && |AllInputs(win')| <= |AllInputs(win)| + |ta.inputs|
  }

  /** A window over a threshold, which starts at `start`, becomes a candidate and is cleared. */
  ghost predicate Fired(cfg: Config, start: Timestamp, arrived: seq<TriggerActivity>, win: seq<TriggerActivity>,
                        tcs: seq<TriggerCandidate>) {
    if Over(cfg, arrived) then tcs == [CandidateOver(cfg, start, arrived)] && win == []
    else tcs == [] && win == arrived
  }

  lemma FiringConserves(seen: seq<TriggerActivity>, emitted: seq<TriggerCandidate>, win: seq<TriggerActivity>,
                        ta: TriggerActivity, arrived: seq<TriggerActivity>, cfg: Config, start: Timestamp,
                        win': seq<TriggerActivity>, tcs: seq<TriggerCandidate>)
    requires Conserved(seen, ActivitiesOf(emitted), win) && Follows(win, ta, arrived)
    requires Fired(cfg, start, arrived, win', tcs)
    ensures Conserved(seen + [ta], ActivitiesOf(emitted + tcs), win')
  {
    hide Over, AllInputs;
    var tc := CandidateOver(cfg, start, arrived);
    AllOfAppend(ActivitiesOf(emitted), [arrived]);
    assert [arrived][..0] == [];
    assert AllOf([arrived]) == multiset(arrived);
    assert ActivitiesOf(emitted + [tc]) == ActivitiesOf(emitted) + [arrived];
    assert emitted + [] == emitted;
    assert multiset(seen + [ta]) == multiset(seen) + multiset{ta};
  }

  lemma InsertedInputs(win: seq<TriggerActivity>, ta: TriggerActivity)
    ensures |AllInputs(Inserted(win, ta))| == |AllInputs(win)| + |ta.inputs|
  {
    var k := PlaceFrom(win, ta.timeStart, 0);
    assert win == win[..k] + win[k..];
    AllInputsAppend(win[..k], win[k..]);
    AllInputsAppend(win[..k] + [ta], win[k..]);
    AllInputsAppend(win[..k], [ta]);
    OneActivity(ta);
  }

  lemma InsertedFollows(win: seq<TriggerActivity>, ta: TriggerActivity)
    ensures Follows(win, ta, Inserted(win, ta))
  {
    InsertedHolds(win, ta);
    InsertedInputs(win, ta);
  }

  lemma MovedFollows(win: seq<TriggerActivity>, ta: TriggerActivity, length: Timestamp)
    ensures Follows(win, ta, MovedTo(win, ta, length))
  {
    var k := Outdated(win, ta.timeStart, length, 0);
    InsertedHolds(win[k..], ta);
    InsertedInputs(win[k..], ta);
    assert win == win[..k] + win[k..];
    AllInputsAppend(win[..k], win[k..]);
  }

  lemma FirstFollows(ta: TriggerActivity)
    ensures Follows([], ta, [ta])
  {
    OneActivity(ta);
  }

  /** What has arrived in range is in range in the window. */
  lemma WindowInRange(seen: seq<TriggerActivity>, emitted: seq<TriggerCandidate>, win: seq<TriggerActivity>,
                      ta: TriggerActivity, length: Timestamp)
    requires Conserved(seen, ActivitiesOf(emitted), win) && InRange(seen + [ta], length)
    ensures InRange(win + [ta], length) && InRange(seen, length)
  {
    var all := seen + [ta];
    assert all[|seen|] == ta && forall i :: 0 <= i < |seen| ==> all[i] == seen[i];
    forall i | 0 <= i < |win|
      ensures win[i].timeStart < TWO_63
    {
      assert win[i] in multiset(win);
      assert win[i] in multiset(seen);
      assert win[i] in seen;
    }
  }

  lemma RoomFits(tps: TPs, more: TPs)
    requires |tps| + |more| < TWO_16
    ensures CountsFit(tps + more) && CountsFit(more)
  {
    SmallWindowFits(tps + more);
    SmallWindowFits(more);
  }

  /** The window is that of the activities since the last candidate, if they came in order of time. */
  ghost predicate HoldsRecent(since: seq<TriggerActivity>, length: Timestamp, win: seq<TriggerActivity>) {
    if since == [] then win == []
    else SortedByTime(since) && length >= 1 ==> win == Recent(since, since[|since| - 1].timeStart, length)
  }

  lemma ArrivedHoldsRecent(since: seq<TriggerActivity>, ta: TriggerActivity, length: Timestamp,
                           win: seq<TriggerActivity>)
    requires HoldsRecent(since, length, win)
    ensures HoldsRecent(since + [ta], length, Arrived(win, ta, length))
  {
    var all := since + [ta];
    assert all[|all| - 1] == ta && all[..|since|] == since;
    if SortedByTime(all) && length >= 1 {
      assert forall i :: 0 <= i < |since| ==> all[i] == since[i];
      assert SortedByTime(since);
      if since == [] {
        assert Recent(all, ta.timeStart, length) == [ta];
      } else {
        ArrivedIsRecent(since, ta, length);
      }
    }
  }

  /** A window over a threshold becomes a candidate, and is cleared. */
  ghost predicate Outcome(cfg: Config, arrived: seq<TriggerActivity>, win: seq<TriggerActivity>,
                          tcs: seq<TriggerCandidate>)
    requires arrived != []
  {
    && Fired(cfg, arrived[0].timeStart, arrived, win, tcs)
    && forall tc :: tc in tcs ==>
         tc.inputs == arrived && ReadsOut(tc, arrived[0].timeStart, cfg.readoutBefore, cfg.readoutAfter)
  }

  lemma FiredMeans(cfg: Config, start: Timestamp, arrived: seq<TriggerActivity>, win: seq<TriggerActivity>,
                   tcs: seq<TriggerCandidate>)
    requires Fired(cfg, start, arrived, win, tcs)
    ensures CallsFor(cfg, arrived, tcs != []) && win == if tcs != [] then [] else arrived
    ensures arrived != [] && start == arrived[0].timeStart ==> Outcome(cfg, arrived, win, tcs)
    ensures AllReadOut(cfg, tcs)
  {
    OverCallsFor(cfg, arrived);
    CandidateReadsOut(cfg, start, arrived);
    assert ReadsOut(CandidateOver(cfg, start, arrived), CandidateOver(cfg, start, arrived).timeCandidate,
                    cfg.readoutBefore, cfg.readoutAfter);
    hide Over, ReadsOut, CandidateOver, CallsFor;
  }

  /** The window, which starts at `start`, is in order and holds the recent activities. */
  ghost predicate Orderly(length: Timestamp, since: seq<TriggerActivity>, win: seq<TriggerActivity>, start: Timestamp) {
    && IsWindow(win, length) && HoldsRecent(since, length, win) && (win != [] ==> start == win[0].timeStart)
  }

  lemma FollowingFits(win: seq<TriggerActivity>, ta: TriggerActivity, win': seq<TriggerActivity>)
    requires Follows(win, ta, win')
    ensures |AllInputs(win')| <= |AllInputs(win)| + |ta.inputs|
  {
  }

  /** A window that starts at `start` takes in `ta`: for all times, however differences wrap around. */
  ghost predicate TakenIn(win: seq<TriggerActivity>, start: Timestamp, ta: TriggerActivity, length: Timestamp,
                          win': seq<TriggerActivity>, start': Timestamp) {
    if win == [] then win' == [ta] && start' == ta.timeStart
    else if Within(ta.timeStart, start, length) then win' == Inserted(win, ta) && start' == start
    else win' == MovedTo(win, ta, length) && start' == MovedStart(win, ta, length)
  }

  /** It takes in `ta`, and then becomes a candidate if it is over a threshold. */
  ghost predicate Concludes(cfg: Config, win: seq<TriggerActivity>, start: Timestamp, ta: TriggerActivity,
                            win': seq<TriggerActivity>, tcs: seq<TriggerCandidate>) {
    exists arrived, start' ::
      TakenIn(win, start, ta, cfg.windowLength, arrived, start') && Fired(cfg, start', arrived, win', tcs)
  }

  /** What holds of the window that the arrival of `ta` leaves. */
  ghost predicate ArrivesSoundly(length: Timestamp, since: seq<TriggerActivity>, win: seq<TriggerActivity>,
                                 ta: TriggerActivity) {
    var arrived := Arrived(win, ta, length);
    && Orderly(length, since + [ta], arrived, arrived[0].timeStart)
    && (SortedByTime(since + [ta]) ==> arrived == Recent(since + [ta], ta.timeStart, length))
  }

  /** For times in range, the window has become a candidate or not as it should, and is in order. */
  ghost predicate StepsSoundly(cfg: Config, since: seq<TriggerActivity>, win: seq<TriggerActivity>,
                               ta: TriggerActivity, win': seq<TriggerActivity>, start': Timestamp,
                               tcs: seq<TriggerCandidate>) {
    var length := cfg.windowLength;
    && Outcome(cfg, Arrived(win, ta, length), win', tcs)
    && Orderly(length, if tcs != [] then [] else since + [ta], win', start')
    && (SortedByTime(since + [ta]) ==> CallsFor(cfg, Recent(since + [ta], ta.timeStart, length), tcs != []))
  }

  lemma StepIsSound(cfg: Config, since: seq<TriggerActivity>, win: seq<TriggerActivity>, ta: TriggerActivity,
                    start: Timestamp, win': seq<TriggerActivity>, start': Timestamp, tcs: seq<TriggerCandidate>)
    requires ArrivesSoundly(cfg.windowLength, since, win, ta)
    requires start == Arrived(win, ta, cfg.windowLength)[0].timeStart
    requires Fired(cfg, start, Arrived(win, ta, cfg.windowLength), win', tcs) && (tcs == [] ==> start' == start)
    ensures StepsSoundly(cfg, since, win, ta, win', start', tcs)
  {
    FiredMeans(cfg, start, Arrived(win, ta, cfg.windowLength), win', tcs);
    NothingIsOrderly(cfg.windowLength, start');
    hide Fired, Outcome, Orderly, CallsFor, Arrived, Recent, SortedByTime;
  }

  lemma StepIsOrderly(cfg: Config, since: seq<TriggerActivity>, win: seq<TriggerActivity>, ta: TriggerActivity,
                      win': seq<TriggerActivity>, start': Timestamp, tcs: seq<TriggerCandidate>)
    ensures StepsSoundly(cfg, since, win, ta, win', start', tcs) ==>
      Orderly(cfg.windowLength, if tcs != [] then [] else since + [ta], win', start')
  {
    hide Orderly;
  }

  lemma NothingIsOrderly(length: Timestamp, start: Timestamp)
    ensures Orderly(length, [], [], start)
  {
  }

  lemma TakenInConcludes(cfg: Config, win: seq<TriggerActivity>, start: Timestamp, ta: TriggerActivity,
                         arrived: seq<TriggerActivity>, start': Timestamp, win': seq<TriggerActivity>,
                         tcs: seq<TriggerCandidate>)
    requires TakenIn(win, start, ta, cfg.windowLength, arrived, start') && Fired(cfg, start', arrived, win', tcs)
    ensures Concludes(cfg, win, start, ta, win', tcs) && AllReadOut(cfg, tcs)
  {
    FiredMeans(cfg, start', arrived, win', tcs);
  }

  class TriggerCandidateMakerChannelAdjacency {
    const cfg: Config
    const window: TAWindow

    /** All activities that have arrived, those since the last candidate, and all candidates made. */
    ghost var seen: seq<TriggerActivity>
    ghost var since: seq<TriggerActivity>
    ghost var emitted: seq<TriggerCandidate>

    /** For times and window lengths in range, in whatever order the activities arrive, the window is in order
        of time, starts with its first activity and is no longer than its length; it is never over a threshold. */
    ghost predicate Valid()
      reads this, window
    {
      && window.Valid() && Conserved(seen, ActivitiesOf(emitted), window.inputs) && !Over(cfg, window.inputs)
      && (InRange(seen, cfg.windowLength) ==> Orderly(cfg.windowLength, since, window.inputs, window.timeStart))
    }

    constructor (cfg: Config)
      ensures Valid() && fresh(window) && this.cfg == cfg && seen == [] && since == [] && emitted == []
    {
      this.cfg := cfg;
      window := new TAWindow();
      seen, since, emitted := [], [], [];
      NothingIsNotOver(cfg);
    }

    ghost predicate RoomFor(ta: TriggerActivity)
      reads window
    {
      |window.inputs| + 1 < TWO_16 && |AllInputs(window.inputs)| + |ta.inputs| < TWO_16
    }

    /** Brings the window to where the arrival of `ta` leaves it. */
    method Take(ta: TriggerActivity)
      requires Valid() && RoomFor(ta)
      modifies window
      ensures window.Valid() && Follows(old(window.inputs), ta, window.inputs) && |AllInputs(window.inputs)| < TWO_16
      ensures TakenIn(old(window.inputs), old(window.timeStart), ta, cfg.windowLength, window.inputs, window.timeStart)
      ensures InRange(seen + [ta], cfg.windowLength) ==>
        window.inputs == Arrived(old(window.inputs), ta, cfg.windowLength)
      ensures InRange(seen + [ta], cfg.windowLength) ==> window.timeStart == window.inputs[0].timeStart
    {
      ghost var win, length := window.inputs, cfg.windowLength;
      if InRange(seen + [ta], length) {
        WindowInRange(seen, emitted, win, ta, length);
        ArrivedIsWindow(win, ta, length);
      }
      RoomFits(AllInputs(win), ta.inputs);
      hide TAWindow.Valid, IsWindow, InRange, Conserved, Over, HoldsRecent, MovedTo, MovedStart, Inserted;
      hide CountsFit, AllInputs, Follows, Channels;
      if window.IsEmpty() {
        FirstFollows(ta);
        window.Reset(ta);
      } else if Within(ta.timeStart, window.timeStart, cfg.windowLength) {
        InsertedFollows(win, ta);
        window.Add(ta);
      } else {
        MovedFollows(win, ta, length);
        window.Move(ta, cfg.windowLength);
      }
      FollowingFits(win, ta, window.inputs);
    }

    /** Where the arrival of `ta` leaves the window is a window again, and the recent activities. */
    lemma ArrivalIsSound(ta: TriggerActivity)
      requires Valid()
      ensures InRange(seen + [ta], cfg.windowLength) ==> ArrivesSoundly(cfg.windowLength, since, window.inputs, ta)
    {
      var length := cfg.windowLength;
      if InRange(seen + [ta], length) {
        WindowInRange(seen, emitted, window.inputs, ta, length);
        ArrivedIsWindow(window.inputs, ta, length);
        ArrivedHoldsRecent(since, ta, length, window.inputs);
      }
    }

    /** Makes a candidate of the window, and clears it, if it is over a threshold. */
    method Fire() returns (tcs: seq<TriggerCandidate>)
      requires window.Valid() && |AllInputs(window.inputs)| < TWO_16
      modifies window
      ensures window.Valid() && !Over(cfg, window.inputs)
      ensures Fired(cfg, old(window.timeStart), old(window.inputs), window.inputs, tcs)
      ensures tcs == [] ==> unchanged(window)
    {
      tcs := [];
      SmallWindowFits(AllInputs(window.inputs));
      NothingIsNotOver(cfg);
      var tc := CandidateOver(cfg, window.timeStart, window.inputs);
      if window.adcIntegral > cfg.adcThreshold && cfg.triggerOnAdc {
        tcs := [tc];
        window.Clear();
      } else {
        var n := window.NChannelsHit();
        if n > cfg.nChannelsThreshold && cfg.triggerOnNChannels {
          tcs := [tc];
          window.Clear();
        }
      }
    }

    /** Takes in one activity. If activities come in order of time, there is a candidate exactly when those
        since the last candidate that start within the window length of this one are over a threshold. */
    method Process(ta: TriggerActivity) returns (tcs: seq<TriggerCandidate>)
      requires Valid() && RoomFor(ta)
      modifies this, window
      ensures Valid() && seen == old(seen) + [ta] && emitted == old(emitted) + tcs
      ensures Concludes(cfg, old(window.inputs), old(window.timeStart), ta, window.inputs, tcs)
      ensures InRange(seen, cfg.windowLength) ==>
        StepsSoundly(cfg, old(since), old(window.inputs), ta, window.inputs, window.timeStart, tcs)
      ensures since == if tcs != [] then [] else old(since) + [ta]
      ensures AllReadOut(cfg, tcs)
    {
      hide TAWindow.Valid, InRange, Conserved, Over, Orderly, Arrived, AllInputs, Follows, ActivitiesOf;
      hide AllReadOut, TakenIn, Concludes, Fired, ArrivesSoundly, StepsSoundly;
      ghost var win, start0 := window.inputs, window.timeStart;
      ArrivalIsSound(ta);
      Take(ta);
      ghost var arrived, start := window.inputs, window.timeStart;
      tcs := Fire();
      if InRange(seen + [ta], cfg.windowLength) {
        StepIsSound(cfg, since, win, ta, start, window.inputs, window.timeStart, tcs);
      }
      TakenInConcludes(cfg, win, start0, ta, arrived, start, window.inputs, tcs);
      FiringConserves(seen, emitted, win, ta, arrived, cfg, start, window.inputs, tcs);
      StepIsOrderly(cfg, since, win, ta, window.inputs, window.timeStart, tcs);
      seen, emitted := seen + [ta], emitted + tcs;
      since := if tcs != [] then [] else since + [ta];
    }
  }

  /** When no two arrivals are alike, no two candidates of a run have an activity in common. */
  lemma CandidatesShareNothing(m: TriggerCandidateMakerChannelAdjacency, i: nat, j: nat, ta: TriggerActivity)
    requires m.Valid() && i < j < |m.emitted| && multiset(m.seen)[ta] <= 1
    ensures !(ta in m.emitted[i].inputs && ta in m.emitted[j].inputs)
  {
    SharedByNone(m.seen, ActivitiesOf(m.emitted), m.window.inputs, i, j, ta);
  }
}
