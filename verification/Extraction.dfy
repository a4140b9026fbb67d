/** Taking long runs of adjacent channels out of a window, one after another, until there is none left. */
module Extraction {
  import opened TriggerTypes
  import opened TPWindows
  import opened GreedyRuns
  import opened ChannelLists
  import opened AdjacentRuns
  import opened Collections
  import opened WindowTests

  ghost predicate OnChannelOf(tp: TriggerPrimitive, run: TPs) {
    exists j :: 0 <= j < |run| && run[j].channel == tp.channel
  }

  /** The primitives on no channel of `run`, in order. */
  ghost function Without(tps: TPs, run: TPs): (r: TPs)
    ensures |r| <= |tps|
  {
    if tps == [] then []
    else
      var r := Without(tps[..|tps| - 1], run);
      if OnChannelOf(tps[|tps| - 1], run) then r else r + [tps[|tps| - 1]]
  }

  lemma WithoutStep(tps: TPs, i: nat, run: TPs)
    requires i < |tps|
    ensures Without(tps[..i + 1], run) ==
      if OnChannelOf(tps[i], run) then Without(tps[..i], run) else Without(tps[..i], run) + [tps[i]]
  {
    assert tps[..i + 1][..i] == tps[..i];
  }

  lemma {:induction false} WithoutNone(tps: TPs)
    ensures Without(tps, []) == tps
  {
    if tps != [] {
      WithoutNone(tps[..|tps| - 1]);
      assert tps == tps[..|tps| - 1] + [tps[|tps| - 1]];
    }
  }

  lemma {:induction false} WithoutMeans(tps: TPs, run: TPs, tp: TriggerPrimitive)
    ensures multiset(Without(tps, run))[tp] == if OnChannelOf(tp, run) then 0 else multiset(tps)[tp]
  {
    if tps != [] {
      WithoutMeans(tps[..|tps| - 1], run, tp);
      assert tps == tps[..|tps| - 1] + [tps[|tps| - 1]];
    }
  }

  /** A long run of the window `tps`, or none. */
  ghost predicate Found(run: TPs, tps: TPs, threshold: nat, tol: nat) {
    (forall d :: ListsChannels(d, tps) ==> IsFirstLong(run, d, threshold, tol)) && multiset(run) <= multiset(tps)
  }

  /** What is left of a window after taking out runs. */
  ghost function Left(tps: TPs, runs: seq<TPs>): TPs {
    if runs == [] then tps else Without(Left(tps, runs[..|runs| - 1]), runs[|runs| - 1])
  }

  /** Each run was found in what the runs before it had left. */
  ghost predicate EachFound(tps: TPs, runs: seq<TPs>, threshold: nat, tol: nat) {
    forall i :: 0 <= i < |runs| ==> runs[i] != [] && Found(runs[i], Left(tps, runs[..i]), threshold, tol)
  }

  /** The runs were taken out until there was none left. */
  ghost predicate Extracted(tps: TPs, runs: seq<TPs>, threshold: nat, tol: nat) {
    EachFound(tps, runs, threshold, tol) && Found([], Left(tps, runs), threshold, tol)
  }

  lemma OneMoreFound(tps: TPs, runs: seq<TPs>, run: TPs, threshold: nat, tol: nat)
    requires EachFound(tps, runs, threshold, tol) && run != [] && Found(run, Left(tps, runs), threshold, tol)
    ensures EachFound(tps, runs + [run], threshold, tol)
    ensures Left(tps, runs + [run]) == Without(Left(tps, runs), run) && |Left(tps, runs + [run])| < |Left(tps, runs)|
  {
    var more := runs + [run];
    assert more[..|runs|] == runs;
    assert forall i :: 0 <= i <= |runs| ==> more[..i] == runs[..i];
    RunIsRemoved(Left(tps, runs), run);
  }

  /** Taking out a run of the window makes it shorter. */
  lemma RunIsRemoved(tps: TPs, run: TPs)
    requires run != [] && multiset(run) <= multiset(tps)
    ensures |Without(tps, run)| < |tps|
  {
    assert run[0] in multiset(run);
    assert run[0] in tps;
    var i :| 0 <= i < |tps| && tps[i] == run[0];
    WithoutShorter(tps, run, i);
  }

  lemma {:induction false} WithoutShorter(tps: TPs, run: TPs, i: nat)
    requires i < |tps| && OnChannelOf(tps[i], run)
    ensures |Without(tps, run)| < |tps|
  {
    if i < |tps| - 1 {
      WithoutShorter(tps[..|tps| - 1], run, i);
    }
  }

  // ----- what extraction achieves

  ghost predicate OnChannelOfAny(tp: TriggerPrimitive, runs: seq<TPs>) {
    exists i :: 0 <= i < |runs| && OnChannelOf(tp, runs[i])
  }

  lemma OnChannelOfLast(tp: TriggerPrimitive, runs: seq<TPs>)
    requires runs != []
    ensures var n := |runs| - 1; OnChannelOfAny(tp, runs) <==> OnChannelOfAny(tp, runs[..n]) || OnChannelOf(tp, runs[n])
  {
    hide OnChannelOf;
    var n := |runs| - 1;
    assert forall i :: 0 <= i < n ==> runs[..n][i] == runs[i];
  }

  /** What is left are the primitives on no channel of any run, as often as they were in the window. */
  lemma {:induction false} LeftMeans(tps: TPs, runs: seq<TPs>, tp: TriggerPrimitive)
    ensures multiset(Left(tps, runs))[tp] == if OnChannelOfAny(tp, runs) then 0 else multiset(tps)[tp]
  {
    if runs != [] {
      var n := |runs| - 1;
      LeftMeans(tps, runs[..n], tp);
      WithoutMeans(Left(tps, runs[..n]), runs[n], tp);
      OnChannelOfLast(tp, runs);
      hide OnChannelOf, OnChannelOfAny;
    }
  }

  lemma LaterRunAvoids(tps: TPs, runs: seq<TPs>, threshold: nat, tol: nat, i: nat, j: nat, tp: TriggerPrimitive)
    requires EachFound(tps, runs, threshold, tol) && i < j < |runs| && tp in runs[j]
    ensures !OnChannelOf(tp, runs[i])
  {
    hide OnChannelOf;
    LeftMeans(tps, runs[..j], tp);
    assert tp in multiset(runs[j]);
    assert runs[..j][i] == runs[i];
  }

  /** No two runs share a channel. */
  lemma RunsAreDisjoint(tps: TPs, runs: seq<TPs>, threshold: nat, tol: nat, i: nat, j: nat)
    requires EachFound(tps, runs, threshold, tol) && i < j < |runs|
    ensures Channels(runs[i]) !! Channels(runs[j])
  {
    forall tp | tp in runs[j]
      ensures !OnChannelOf(tp, runs[i])
    {
      LaterRunAvoids(tps, runs, threshold, tol, i, j, tp);
    }
  }

  /** No primitive is lost or used twice: the runs and what is left fit in the window together. */
  lemma {:induction false} ExtractionConserves(tps: TPs, runs: seq<TPs>, threshold: nat, tol: nat)
    requires EachFound(tps, runs, threshold, tol)
    ensures AllOf(runs) + multiset(Left(tps, runs)) <= multiset(tps)
  {
    if runs != [] {
      var n := |runs| - 1;
      assert forall i :: 0 <= i <= n ==> runs[..n][..i] == runs[..i];
      assert EachFound(tps, runs[..n], threshold, tol);
      ExtractionConserves(tps, runs[..n], threshold, tol);
      var left := Left(tps, runs[..n]);
      assert multiset(runs[n]) <= multiset(left);
      TakenOnce(left, runs[n]);
    }
  }

  lemma TakenOnce(tps: TPs, run: TPs)
    requires multiset(run) <= multiset(tps)
    ensures multiset(run) + multiset(Without(tps, run)) <= multiset(tps)
  {
    forall tp: TriggerPrimitive
      ensures multiset(run)[tp] + multiset(Without(tps, run))[tp] <= multiset(tps)[tp]
    {
      WithoutMeans(tps, run, tp);
      if tp in multiset(run) {
        var j :| 0 <= j < |run| && run[j] == tp;
        assert OnChannelOf(tp, run);
      }
    }
  }

  /** Each run has more channels than the threshold, one primitive for each; they are adjacent. */
  lemma RunsAreLong(tps: TPs, runs: seq<TPs>, threshold: nat, tol: nat, i: nat)
    requires EachFound(tps, runs, threshold, tol) && i < |runs|
    ensures |runs[i]| > threshold && Adjacent(ChannelsOf(runs[i]), tol)
  {
    hide IsFirstLong, ListsChannels, Adjacent;
    var left := Left(tps, runs[..i]);
    var d := ChannelsHaveList(left);
    ListIncreases(d, left);
    FirstLongMeans(runs[i], d, threshold, tol);
  }

  lemma ListIncreases(d: seq<int>, tps: TPs)
    requires ListsChannels(d, tps)
    ensures Increasing(d)
  {
  }

  /** When no run was found, no stretch of consecutive channels with hits is longer than the threshold. */
  lemma NoStretchLeft(tps: TPs, threshold: nat, tol: nat, c: int, n: nat)
    requires Found([], tps, threshold, tol) && HasStretch(tps, c, n)
    ensures n <= threshold
  {
    if n > 0 {
      var d := ChannelsHaveList(tps);
      StretchIsListed(tps, d, c, n);
      var x := StretchInList(d, c, n);
      FirstLongMeans([], d, threshold, tol);
      assert Consecutive(d, x, x + n);
    }
  }

  lemma StretchIsListed(tps: TPs, d: seq<int>, c: int, n: nat)
    requires ListsChannels(d, tps) && HasStretch(tps, c, n)
    ensures Increasing(d) && forall v :: c <= v < c + n ==> v in d
  {
    forall v | c <= v < c + n
      ensures v in d
    {
      assert HasHit(tps, v);
    }
  }

  lemma UntouchedIsLeft(tps: TPs, runs: seq<TPs>, c: int)
    requires HasHit(tps, c) && forall i :: 0 <= i < |runs| ==> !HasHit(runs[i], c)
    ensures HasHit(Left(tps, runs), c)
  {
    var i :| 0 <= i < |tps| && tps[i].channel == c;
    var left := Left(tps, runs);
    LeftMeans(tps, runs, tps[i]);
    forall j | 0 <= j < |runs|
      ensures !OnChannelOf(tps[i], runs[j])
    {
      assert !HasHit(runs[j], c);
    }
    assert tps[i] in multiset(tps);
    assert tps[i] in multiset(left);
    assert tps[i] in left;
  }

  /** No long stretch of consecutive channels with hits escapes: some run has one of its channels. */
  lemma StretchIsCaught(tps: TPs, runs: seq<TPs>, threshold: nat, tol: nat, c: int, n: nat) returns (i: nat, x: int)
    requires Extracted(tps, runs, threshold, tol) && HasStretch(tps, c, n) && n > threshold
    ensures i < |runs| && c <= x < c + n && HasHit(runs[i], x)
  {
    hide Found, EachFound, HasHit;
    if forall j, y :: 0 <= j < |runs| && c <= y < c + n ==> !HasHit(runs[j], y) {
      forall y | c <= y < c + n
        ensures HasHit(Left(tps, runs), y)
      {
        assert HasHit(tps, y);
        UntouchedIsLeft(tps, runs, y);
      }
      NoStretchLeft(Left(tps, runs), threshold, tol, c, n);
    }
    i, x :| 0 <= i < |runs| && c <= x < c + n && HasHit(runs[i], x);
  }
}
