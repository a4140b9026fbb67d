/** The maker that turns long runs of adjacent channels in a closed window into activities. */
module ChannelAdjacency {
  import opened TriggerTypes
  import opened SlidingWindows
  import opened TPWindows
  import opened Activities
  import opened Prescales
  import opened ChannelLists
  import opened GreedyRuns
  import opened AdjacentRuns
  import opened Extraction
  import opened WindowTests
  import opened Collections

  /** The runs that the prescale keeps, when `count` were found before them. */
  ghost function Kept(runs: seq<TPs>, count: nat, prescale: nat): seq<TPs>
    requires prescale > 0
  {
    if runs == [] then []
    else
      var n := |runs| - 1;
      Kept(runs[..n], count, prescale) + if Passes(CountAfter(count, n + 1), prescale) then [runs[n]] else []
  }

  function InputsOf(tas: seq<TriggerActivity>): seq<TPs> {
    seq(|tas|, i requires 0 <= i < |tas| => tas[i].inputs)
  }

  /** An activity of this maker: over the primitives of one long run of adjacent channels, one for each. */
  ghost predicate IsTrack(ta: TriggerActivity, threshold: nat, tol: nat) {
    IsActivityOver(ta, ta.inputs, false) && |ta.inputs| > threshold && Adjacent(ChannelsOf(ta.inputs), tol)
  }

  /** The activities for the runs kept. */
  ghost predicate TracksOf(tas: seq<TriggerActivity>, runs: seq<TPs>, count: nat, prescale: nat)
    requires prescale > 0
  {
    InputsOf(tas) == Kept(runs, count, prescale) &&
    forall i :: 0 <= i < |tas| ==> IsActivityOver(tas[i], tas[i].inputs, false)
  }

  lemma TracksGrow(tas: seq<TriggerActivity>, runs: seq<TPs>, run: TPs, ta: TriggerActivity, count: nat, prescale: nat)
    requires prescale > 0 && TracksOf(tas, runs, count, prescale)
    ensures Passes(CountAfter(count, |runs| + 1), prescale) && IsActivityOver(ta, run, false) ==>
      TracksOf(tas + [ta], runs + [run], count, prescale)
    ensures !Passes(CountAfter(count, |runs| + 1), prescale) ==> TracksOf(tas, runs + [run], count, prescale)
  {
    hide IsActivityOver, InputsOf;
    assert (runs + [run])[..|runs|] == runs;
    InputsOfAppend(tas, [ta]);
    InputsOfOne(ta);
    IsActivityInputs(ta, run);
  }

  lemma InputsOfAppend(a: seq<TriggerActivity>, b: seq<TriggerActivity>)
    ensures InputsOf(a + b) == InputsOf(a) + InputsOf(b) && |InputsOf(a)| == |a|
  {
  }

  lemma InputsOfOne(ta: TriggerActivity)
    ensures InputsOf([ta]) == [ta.inputs]
  {
  }

  lemma IsActivityInputs(ta: TriggerActivity, run: TPs)
    ensures IsActivityOver(ta, run, false) ==> ta.inputs == run
  {
  }

  lemma OneMoreKept(kept: seq<TPs>, runs: seq<TPs>, run: TPs)
    requires AllOf(kept) <= AllOf(runs)
    ensures AllOf(kept) <= AllOf(runs + [run]) && AllOf(kept + [run]) <= AllOf(runs + [run])
  {
    assert (kept + [run])[..|kept|] == kept;
    assert (runs + [run])[..|runs|] == runs;
  }

  lemma {:induction false} KeptIsPart(runs: seq<TPs>, count: nat, prescale: nat)
    requires prescale > 0
    ensures AllOf(Kept(runs, count, prescale)) <= AllOf(runs)
    ensures forall run :: run in Kept(runs, count, prescale) ==> run in runs
  {
    hide CountAfter, AllOf;
    if runs == [] {
      assert Kept(runs, count, prescale) == runs;
    } else {
      var n := |runs| - 1;
      KeptIsPart(runs[..n], count, prescale);
      var kept := Kept(runs[..n], count, prescale);
      OneMoreKept(kept, runs[..n], runs[n]);
      assert runs == runs[..n] + [runs[n]];
      assert kept + [] == kept;
    }
  }

  lemma CollectingConserves(seen: TPs, emitted: seq<TriggerActivity>, win: TPs, tp: TriggerPrimitive, length: Timestamp)
    requires Conserved(seen, InputsOf(emitted), win)
    ensures Conserved(seen + [tp], InputsOf(emitted), win + [tp])
    ensures Conserved(seen + [tp], InputsOf(emitted), Moved(win, tp, length))
  {
    var k := Expired(win, tp.timeStart, length, 0);
    assert win == win[..k] + win[k..];
  }

  lemma Transfer(used: multiset<TriggerPrimitive>, win: multiset<TriggerPrimitive>, seen: multiset<TriggerPrimitive>,
                 tas: multiset<TriggerPrimitive>, runs: multiset<TriggerPrimitive>,
                 left: multiset<TriggerPrimitive>, tp: TriggerPrimitive)
    requires used + win <= seen && tas <= runs && runs + left <= win
    ensures used + tas + multiset{tp} <= seen + multiset{tp}
  {
    assert tas <= win;
  }

  lemma ExtractingConserves(seen: TPs, emitted: seq<TriggerActivity>, win: TPs, tp: TriggerPrimitive,
                            tas: seq<TriggerActivity>, runs: seq<TPs>, count: nat, prescale: nat, threshold: nat,
                            tol: nat)
    requires prescale > 0 && Conserved(seen, InputsOf(emitted), win)
    requires EachFound(win, runs, threshold, tol) && TracksOf(tas, runs, count, prescale)
    ensures Conserved(seen + [tp], InputsOf(emitted + tas), [tp])
  {
    hide EachFound, AllOf, Left, Kept, IsActivityOver, InputsOf;
    KeptIsPart(runs, count, prescale);
    ExtractionConserves(win, runs, threshold, tol);
    AllOfAppend(InputsOf(emitted), InputsOf(tas));
    InputsOfAppend(emitted, tas);
    Transfer(AllOf(InputsOf(emitted)), multiset(win), multiset(seen), AllOf(InputsOf(tas)), AllOf(runs),
             multiset(Left(win, runs)), tp);
    assert multiset(seen + [tp]) == multiset(seen) + multiset{tp};
  }

  lemma TracksAreTracks(win: TPs, tas: seq<TriggerActivity>, runs: seq<TPs>, count: nat, prescale: nat, threshold: nat,
                        tol: nat, i: nat)
    requires prescale > 0 && EachFound(win, runs, threshold, tol) && TracksOf(tas, runs, count, prescale) && i < |tas|
    ensures IsTrack(tas[i], threshold, tol)
  {
    KeptIsPart(runs, count, prescale);
    assert InputsOf(tas)[i] in runs;
    var k :| 0 <= k < |runs| && runs[k] == tas[i].inputs;
    hide EachFound, Adjacent, IsActivityOver;
    RunsAreLong(win, runs, threshold, tol, k);
  }

  ghost predicate AreTracks(tas: seq<TriggerActivity>, threshold: nat, tol: nat) {
    forall i :: 0 <= i < |tas| ==> IsTrack(tas[i], threshold, tol)
  }

  lemma AllTracks(emitted: seq<TriggerActivity>, win: TPs, tas: seq<TriggerActivity>, runs: seq<TPs>,
                  count: nat, prescale: nat, threshold: nat, tol: nat)
    requires prescale > 0 && EachFound(win, runs, threshold, tol) && TracksOf(tas, runs, count, prescale)
    requires AreTracks(emitted, threshold, tol)
    ensures AreTracks(emitted + tas, threshold, tol)
  {
    hide IsTrack, EachFound, TracksOf;
    forall i | 0 <= i < |tas|
      ensures IsTrack(tas[i], threshold, tol)
    {
      TracksAreTracks(win, tas, runs, count, prescale, threshold, tol, i);
    }
  }

  lemma ExtractionStarts(win: TPs, threshold: nat, tol: nat)
    ensures EachFound(win, [], threshold, tol) && Left(win, []) == win == Without(win, [])
  {
    WithoutNone(win);
  }

  lemma NoneCounted(count: nat, prescale: nat)
    requires prescale > 0 && count < TWO_16
    ensures TracksOf([], [], count, prescale) && count == CountAfter(count, 0)
  {
    assert InputsOf([]) == [];
  }

  lemma CountOn(count: nat, n: nat)
    ensures (CountAfter(count, n) + 1) % TWO_16 == CountAfter(count, n + 1)
  {
  }

  lemma {:induction false} KeptAppend(runs: seq<TPs>, more: seq<TPs>, prescale: nat)
    requires prescale > 0
    ensures Kept(runs + more, 0, prescale) == Kept(runs, 0, prescale) + Kept(more, |runs| % 0x1_0000, prescale)
  {
    hide Passes, CountAfter;
    if more == [] {
      assert runs + more == runs;
    } else {
      var n := |more| - 1;
      assert (runs + more)[..|runs| + n] == runs + more[..n];
      KeptAppend(runs, more[..n], prescale);
      SameCount(|runs|, n + 1);
    }
  }

  lemma SameCount(n: nat, k: nat)
    ensures CountAfter(n % 0x1_0000, k) == CountAfter(0, n + k)
  {
    CountMeans(n, k);
    CountMeans(0, n + k);
  }

  /** `run` is the `m`-th of the runs, counting from one. */
  ghost predicate IsRunNumber(runs: seq<TPs>, m: int, run: TPs) {
    0 < m <= |runs| && runs[m - 1] == run
  }

  /** `kept` are every `prescale`-th of the runs. */
  ghost predicate AreEvery(kept: seq<TPs>, runs: seq<TPs>, prescale: nat)
    requires prescale > 0
  {
    && |kept| == |runs| / prescale
    && forall j :: 0 <= j < |kept| ==> IsRunNumber(runs, (j + 1) * prescale, kept[j])
  }

  lemma {:induction false} KeptAreEvery(runs: seq<TPs>, prescale: nat)
    requires prescale > 0 && |runs| < 0x1_0000
    ensures AreEvery(Kept(runs, 0, prescale), runs, prescale)
  {
    hide AreEvery, CountAfter, Passes;
    if runs == [] {
      NoneIsEvery(prescale);
    } else {
      var n := |runs| - 1;
      KeptAreEvery(runs[..n], prescale);
      CountMeans(0, n + 1);
      var kept := Kept(runs[..n], 0, prescale);
      OneMoreIsEvery(kept, runs[..n], runs[n], prescale);
      assert runs == runs[..n] + [runs[n]] && kept + [] == kept;
    }
  }

  lemma NoneIsEvery(prescale: nat)
    requires prescale > 0
    ensures AreEvery([], [], prescale)
  {
  }

  lemma OneMoreIsEvery(kept: seq<TPs>, runs: seq<TPs>, run: TPs, prescale: nat)
    requires prescale > 0 && AreEvery(kept, runs, prescale)
    ensures AreEvery(if Passes(|runs| + 1, prescale) then kept + [run] else kept, runs + [run], prescale)
  {
    OneMorePasses(|runs|, prescale);
    var more := runs + [run];
    assert forall m, r :: IsRunNumber(runs, m, r) ==> IsRunNumber(more, m, r);
    assert IsRunNumber(more, |runs| + 1, run);
    if Passes(|runs| + 1, prescale) {
      PassesAt(|runs|, prescale);
    }
    hide Passes, IsRunNumber;
  }

  lemma PassesAt(n: nat, prescale: nat)
    requires prescale > 0 && Passes(n + 1, prescale)
    ensures (n / prescale + 1) * prescale == n + 1
  {
    OneMorePasses(n, prescale);
    assert n + 1 == (n + 1) / prescale * prescale + (n + 1) % prescale;
  }

  predicate Closes(win: TPs, tp: TriggerPrimitive, length: Timestamp) {
    win != [] && !Within(tp.timeStart, win[0].timeStart, length)
  }

  /** What a primitive does to the window: a primitive that closes it has the runs extracted from it. */
  ghost predicate WindowStep(win: TPs, tp: TriggerPrimitive, runs: seq<TPs>, win': TPs,
                             length: Timestamp, threshold: nat, tol: nat) {
    if Closes(win, tp, length) then
      Extracted(win, runs, threshold, tol) && win' == if runs != [] then [tp] else Moved(win, tp, length)
    else
      runs == [] && win' == win + [tp]
  }

  /** A window that holds a long stretch of consecutive channels when it closes has a run extracted from it. */
  lemma StepExtracts(win: TPs, tp: TriggerPrimitive, runs: seq<TPs>, win': TPs, length: Timestamp, threshold: nat,
                     tol: nat)
    requires WindowStep(win, tp, runs, win', length, threshold, tol) && win != []
    ensures Fires(win, tp, length, LongStretch(threshold)) ==> runs != []
    ensures runs != [] ==> win' == [tp]
    ensures runs == [] ==> win' == if Closes(win, tp, length) then Moved(win, tp, length) else win + [tp]
  {
    hide Extracted, HasStretch, Moved;
    if Fires(win, tp, length, LongStretch(threshold)) {
      var c: int, n: nat :| n > threshold && HasStretch(win, c, n);
      var i, x := StretchIsCaught(win, runs, threshold, tol, c, n);
    }
  }

  lemma FirstStep(tp: TriggerPrimitive, runs: seq<TPs>, win': TPs, length: Timestamp, threshold: nat, tol: nat)
    requires WindowStep([], tp, runs, win', length, threshold, tol)
    ensures runs == [] && win' == [tp]
  {
    assert [] + [tp] == [tp];
  }

  class TriggerActivityMakerChannelAdjacency {
    const adjacencyThreshold: nat
    const adjTolerance: nat
    const windowLength: Timestamp
    const prescale: nat
    const window: TPWindow
    var taCount: nat

    /** All primitives that have arrived, and all activities made. */
    ghost var seen: TPs
    ghost var emitted: seq<TriggerActivity>
    /** All runs extracted. */
    ghost var extracted: seq<TPs>
    /** The primitives since a run was last extracted, or since the first primitive. */
    ghost var since: TPs

    ghost predicate Valid()
      reads this, window
    {
      && window.Valid() && prescale > 0
      && taCount == |extracted| % 0x1_0000 && InputsOf(emitted) == Kept(extracted, 0, prescale)
      && Conserved(seen, InputsOf(emitted), window.inputs)
      && AreTracks(emitted, adjacencyThreshold, adjTolerance)
      && window.inputs == (if since == [] then [] else WindowAfter(since, windowLength))
      && Quiet(since, windowLength, LongStretch(adjacencyThreshold))
    }

    constructor (adjacencyThreshold: nat, adjTolerance: nat, windowLength: Timestamp, prescale: nat)
      requires prescale > 0
      ensures Valid() && fresh(window) && seen == [] && emitted == [] && extracted == [] && window.inputs == []
      ensures this.adjacencyThreshold == adjacencyThreshold && this.adjTolerance == adjTolerance
      ensures this.windowLength == windowLength && this.prescale == prescale
    {
      this.adjacencyThreshold, this.adjTolerance := adjacencyThreshold, adjTolerance;
      this.windowLength, this.prescale := windowLength, prescale;
      window := new TPWindow();
      taCount, seen, emitted, extracted, since := 0, [], [], [], [];
    }

    method SharesChannel(tp: TriggerPrimitive, run: TPs) returns (b: bool)
      ensures b == OnChannelOf(tp, run)
    {
      var j := 0;
      while j < |run|
        invariant 0 <= j <= |run|
        invariant forall l :: 0 <= l < j ==> run[l].channel != tp.channel
      {
        if tp.channel == run[j].channel {
          return true;
        }
        j := j + 1;
      }
      b := false;
    }

    /** Fills the window, which has been cleared, with the primitives on no channel of `run`. */
    method Refill(tps: TPs, run: TPs)
      requires window.Aggregates() && window.inputs == [] && |tps| < TWO_16
      modifies window
      ensures window.Aggregates() && window.inputs == Without(tps, run)
    {
      hide TPWindow.Aggregates, OnChannelOf;
      var i := 0;
      while i < |tps|
        invariant 0 <= i <= |tps| && window.Aggregates() && window.inputs == Without(tps[..i], run)
      {
        WithoutStep(tps, i, run);
        var shared := SharesChannel(tps[i], run);
        if !shared {
          SmallWindowFits(window.inputs + [tps[i]]);
          window.Add(tps[i]);
        }
        i := i + 1;
      }
      assert tps[..|tps|] == tps;
    }

    /** Takes the primitives on the channels of `run` out of the window, and looks for a long run in the rest. */
    method NextRun(run: TPs) returns (next: TPs)
      requires window.Aggregates() && |window.inputs| < TWO_16
      modifies window
      ensures window.Aggregates() && window.inputs == Without(old(window.inputs), run)
      ensures Found(next, window.inputs, adjacencyThreshold, adjTolerance)
    {
      var tps := window.inputs;
      window.Clear();
      Refill(tps, run);
      hide TPWindow.Aggregates, IsFirstLong, ListsChannels;
      next := CheckAdjacency(window.inputs, adjacencyThreshold, adjTolerance);
    }

    /** Counts a run, and makes an activity of it if the prescale keeps it. */
    method CountRun(run: TPs, ghost runs: seq<TPs>, ghost count: nat) returns (tas: seq<TriggerActivity>)
      requires prescale > 0 && run != [] && taCount == CountAfter(count, |runs|)
      modifies this`taCount
      ensures taCount == CountAfter(count, |runs| + 1)
      ensures forall before :: TracksOf(before, runs, count, prescale) ==>
        TracksOf(before + tas, runs + [run], count, prescale)
    {
      CountOn(count, |runs|);
      taCount := (taCount + 1) % TWO_16;
      tas := [];
      var ta := Construct(run, Wrap32(AdcSum(run)), false);
      forall before | TracksOf(before, runs, count, prescale)
        ensures TracksOf(before + (if taCount % prescale == 0 then [ta] else []), runs + [run], count, prescale)
      {
        hide Spans, Wrap32, AdcSum;
        TracksGrow(before, runs, run, ta, count, prescale);
        hide TracksOf;
        assert before + [] == before;
      }
      if taCount % prescale == 0 {
        tas := [ta];
      }
    }

    /** Takes the long runs out of the window, one by one, and makes activities of those the prescale keeps. */
    method ExtractRuns() returns (tas: seq<TriggerActivity>, adjPass: bool, ghost runs: seq<TPs>)
      requires window.Aggregates() && |window.inputs| < TWO_16 && prescale > 0 && taCount < TWO_16
      modifies window, this`taCount
      ensures Extracted(old(window.inputs), runs, adjacencyThreshold, adjTolerance)
      ensures TracksOf(tas, runs, old(taCount), prescale) && taCount == CountAfter(old(taCount), |runs|)
      ensures window.Aggregates() && window.inputs == Left(old(window.inputs), runs)
      ensures (adjPass <==> runs != []) && (!adjPass ==> tas == [])
    {
      hide TPWindow.Aggregates, EachFound, Found, Left, Without, TracksOf, CountAfter;
      ghost var win := window.inputs;
      var run: TPs, found := [], true;
      tas, adjPass, runs := [], false, [];
      ExtractionStarts(win, adjacencyThreshold, adjTolerance);
      NoneCounted(taCount, prescale);
      while found
        invariant window.Aggregates() && |window.inputs| <= |win| && taCount == CountAfter(old(taCount), |runs|)
        invariant found ==> Without(window.inputs, run) == Left(win, runs)
        invariant !found ==>
          window.inputs == Left(win, runs) && Found([], Left(win, runs), adjacencyThreshold, adjTolerance)
        invariant EachFound(win, runs, adjacencyThreshold, adjTolerance) && TracksOf(tas, runs, old(taCount), prescale)
        invariant (adjPass <==> runs != []) && (!adjPass ==> tas == [])
        decreases found, |Without(window.inputs, run)|
      {
        run := NextRun(run);
        if |run| > 0 {
          OneMoreFound(win, runs, run, adjacencyThreshold, adjTolerance);
          adjPass := true;
          var ta := CountRun(run, runs, old(taCount));
          tas, runs := tas + ta, runs + [run];
        } else {
          found := false;
        }
      }
    }

    /** Extracts the runs from a window that `tp` closes. */
    method CloseWindow(tp: TriggerPrimitive) returns (tas: seq<TriggerActivity>, ghost runs: seq<TPs>)
      requires Valid() && |window.inputs| + 1 < TWO_16 && Closes(window.inputs, tp, windowLength)
      modifies window, this`taCount
      ensures window.Valid() && taCount == CountAfter(old(taCount), |runs|)
      ensures TracksOf(tas, runs, old(taCount), prescale)
      ensures WindowStep(old(window.inputs), tp, runs, window.inputs, windowLength, adjacencyThreshold, adjTolerance)
      ensures Conserved(seen + [tp], InputsOf(emitted + tas), window.inputs)
      ensures AreTracks(emitted + tas, adjacencyThreshold, adjTolerance)
    {
      hide Quiet, WindowAfter;
      ghost var win := window.inputs;
      CollectingConserves(seen, emitted, win, tp, windowLength);
      SmallWindowFits(win + [tp]);
      hide TPWindow.Aggregates, Left, Moved, TracksOf, AreTracks, Conserved, CountsFit, CountAfter, Found, EachFound;
      var adjPass;
      tas, adjPass, runs := ExtractRuns();
      if adjPass {
        ExtractingConserves(seen, emitted, win, tp, tas, runs, old(taCount), prescale, adjacencyThreshold,
                            adjTolerance);
        AllTracks(emitted, win, tas, runs, old(taCount), prescale, adjacencyThreshold, adjTolerance);
        window.Reset(tp);
      } else {
        NothingLeft(win);
        assert emitted + tas == emitted;
        window.Move(tp, windowLength);
      }
    }

    lemma NothingLeft(win: TPs)
      ensures Left(win, []) == win
    {
    }

    /** Takes a primitive that does not close the window into it. */
    method TakeIn(tp: TriggerPrimitive) returns (taken: bool)
      requires Valid() && |window.inputs| + 1 < TWO_16
      modifies window
      ensures taken <==> !Closes(old(window.inputs), tp, windowLength)
      ensures !taken ==> unchanged(window)
      ensures taken ==> window.Valid() && Conserved(seen + [tp], InputsOf(emitted), window.inputs)
      ensures taken ==>
        WindowStep(old(window.inputs), tp, [], window.inputs, windowLength, adjacencyThreshold, adjTolerance)
    {
      hide TPWindow.Aggregates, Moved, Conserved, CountsFit, Within, Channels, Extracted, Quiet, WindowAfter, AreTracks;
      hide InputsOf;
      CollectingConserves(seen, emitted, window.inputs, tp, windowLength);
      SmallWindowFits(window.inputs + [tp]);
      if window.IsEmpty() {
        assert window.inputs + [tp] == [tp];
        window.Reset(tp);
        return true;
      }
      if Within(tp.timeStart, window.timeStart, windowLength) {
        window.Add(tp);
        return true;
      }
      taken := false;
    }

    /** Takes in one primitive. If it closes the window, the runs are extracted from the window, and the window
        starts again with the primitive if there was a run, and slides along to it if there was none. For
        primitives in time order, a run is extracted whenever some interval of the window length, starting at a
        primitive since the last run, is over and has hits on more consecutive channels than the threshold. */
    method Process(tp: TriggerPrimitive) returns (tas: seq<TriggerActivity>, ghost runs: seq<TPs>)
      requires Valid() && |window.inputs| + 1 < TWO_16
      modifies this, window
      ensures Valid() && seen == old(seen) + [tp] && emitted == old(emitted) + tas
      ensures taCount == CountAfter(old(taCount), |runs|) && TracksOf(tas, runs, old(taCount), prescale)
      ensures WindowStep(old(window.inputs), tp, runs, window.inputs, windowLength, adjacencyThreshold, adjTolerance)
      ensures extracted == old(extracted) + runs
      ensures since == if runs != [] then [tp] else old(since) + [tp]
      ensures windowLength > 0 && InTimeOrder(old(since) + [tp]) ==>
        (HeavyIntervalClosed(old(since), tp, windowLength, LongStretch(adjacencyThreshold)) ==> runs != [])
    {
      hide TPWindow.Valid, WindowStep, TracksOf, AreTracks, Conserved, CountAfter, Closes, InputsOf, Quiet, WindowAfter;
      hide HeavyIntervalClosed, InTimeOrder, Kept;
      ghost var win := window.inputs;
      NoneCounted(taCount, prescale);
      var taken := TakeIn(tp);
      if taken {
        tas, runs := [], [];
        seen := seen + [tp];
      } else {
        tas, runs := CloseWindow(tp);
        seen, emitted := seen + [tp], emitted + tas;
      }
      assert old(emitted) + tas == emitted;
      RunsAreCounted(runs, tas, old(emitted));
      extracted := extracted + runs;
      StreamGoesOn(win, tp, runs);
      since := if runs != [] then [tp] else since + [tp];
    }

    /** What the runs of one step do to the counts. */
    lemma RunsAreCounted(runs: seq<TPs>, tas: seq<TriggerActivity>, before: seq<TriggerActivity>)
      requires prescale > 0 && InputsOf(before) == Kept(extracted, 0, prescale)
      requires TracksOf(tas, runs, |extracted| % 0x1_0000, prescale)
      ensures InputsOf(before + tas) == Kept(extracted + runs, 0, prescale)
      ensures CountAfter(|extracted| % 0x1_0000, |runs|) == |extracted + runs| % 0x1_0000
    {
      KeptAppend(extracted, runs, prescale);
      CountMeans(|extracted|, |runs|);
      hide CountAfter, Kept, InputsOf;
      InputsOfAppend(before, tas);
    }

    /** Where a step of the window leaves the stream of primitives since the last run. */
    lemma StreamGoesOn(win: TPs, tp: TriggerPrimitive, runs: seq<TPs>)
      requires WindowStep(win, tp, runs, window.inputs, windowLength, adjacencyThreshold, adjTolerance)
      requires win == (if since == [] then [] else WindowAfter(since, windowLength))
      requires Quiet(since, windowLength, LongStretch(adjacencyThreshold))
      ensures var now := if runs != [] then [tp] else since + [tp];
        window.inputs == WindowAfter(now, windowLength) && Quiet(now, windowLength, LongStretch(adjacencyThreshold))
      ensures windowLength > 0 && InTimeOrder(since + [tp]) ==>
        (HeavyIntervalClosed(since, tp, windowLength, LongStretch(adjacencyThreshold)) ==> runs != [])
    {
      var length, heavy := windowLength, LongStretch(adjacencyThreshold);
      hide WindowStep, Quiet, WindowAfter, HeavyIntervalClosed, InTimeOrder;
      QuietStart(tp, length, heavy);
      if since == [] {
        FirstStep(tp, runs, window.inputs, length, adjacencyThreshold, adjTolerance);
        assert [] + [tp] == [tp];
      } else {
        StepExtracts(win, tp, runs, window.inputs, length, adjacencyThreshold, adjTolerance);
        QuietGrows(since, tp, length, heavy);
        if length > 0 && InTimeOrder(since + [tp]) {
          LongStretchIsMonotone(adjacencyThreshold);
          TriggerMissesNothing(since, tp, length, heavy);
        }
        hide Fires;
      }
    }
  }

  /** While the runs extracted since construction fit in 16 bits, every prescale-th of them has become an activity. */
  lemma EveryPrescaledRun(m: TriggerActivityMakerChannelAdjacency)
    requires m.Valid() && |m.extracted| < 0x1_0000
    ensures AreEvery(InputsOf(m.emitted), m.extracted, m.prescale)
  {
    KeptAreEvery(m.extracted, m.prescale);
  }

  /** Each activity ends where the last of its primitives starts. */
  lemma TrackEnds(m: TriggerActivityMakerChannelAdjacency, i: nat)
    requires m.Valid() && i < |m.emitted|
    ensures EndsAtLastStart(m.emitted[i], m.emitted[i].inputs)
  {
    assert IsTrack(m.emitted[i], m.adjacencyThreshold, m.adjTolerance);
    SpansEnd(m.emitted[i], m.emitted[i].inputs);
  }

  /** When no two arrivals are alike, no two activities of a run have a primitive in common. */
  lemma ActivitiesShareNothing(m: TriggerActivityMakerChannelAdjacency, i: nat, j: nat, tp: TriggerPrimitive)
    requires m.Valid() && i < j < |m.emitted| && multiset(m.seen)[tp] <= 1
    ensures !(tp in m.emitted[i].inputs && tp in m.emitted[j].inputs)
  {
    SharedByNone(m.seen, InputsOf(m.emitted), m.window.inputs, i, j, tp);
  }

  lemma SpanOfIncreasing(ta: TriggerActivity)
    requires ta.inputs != [] && Increasing(ChannelsOf(ta.inputs)) && Spans(ta, ta.inputs, false)
    ensures ta.channelStart == ta.inputs[0].channel && ta.channelEnd == ta.inputs[|ta.inputs| - 1].channel
  {
    var tps, c := ta.inputs, ChannelsOf(ta.inputs);
    var n := |tps| - 1;
    assert Covers(ta, tps[0], false) && Covers(ta, tps[n], false);
    var x :| x in tps && x.channel == ta.channelStart;
    var y :| y in tps && y.channel == ta.channelEnd;
    hide Spans;
    var i :| 0 <= i < |tps| && tps[i] == x;
    var j :| 0 <= j < |tps| && tps[j] == y;
    assert c[0] <= c[i] && c[j] <= c[n];
  }

  /** The channels that an activity spans are those of its inputs and at most three more than the tolerance. */
  lemma TrackSpan(ta: TriggerActivity, threshold: nat, tol: nat)
    requires IsTrack(ta, threshold, tol)
    ensures |ta.inputs| > threshold
    ensures ta.channelStart == ta.inputs[0].channel && ta.channelEnd == ta.inputs[|ta.inputs| - 1].channel
    ensures ta.channelEnd - ta.channelStart + 1 <= |ta.inputs| + if tol == 0 then 0 else tol + 3
  {
    SpanOfIncreasing(ta);
    hide IsActivityOver, Increasing;
  }
}
