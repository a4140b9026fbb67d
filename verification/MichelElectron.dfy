/** The longest piece of activity in a window of the Michel electron maker. */
module MichelElectron {
  import opened TriggerTypes
  import opened GreedyRuns
  import opened ChannelLists
  import opened AdjacentRuns
  import opened Adjacency

  /** The slice c[p..q] of a sorted list does not cut a channel. */
  ghost predicate WholeChannels(c: seq<int>, p: nat, q: nat) {
    p < q <= |c| && (p > 0 ==> c[p - 1] != c[p]) && (q < |c| ==> c[q] != c[q - 1])
  }

  /** `r` is the slice s[p..q] of the sorted primitives, and its channels are number `a` to number `b` of the
      distinct ones; unless there are hits on channel 0, it has all primitives on them. */
  ghost predicate IsTrack(s: TPs, r: TPs, p: nat, q: nat, a: nat, b: nat) {
    var c := ChannelsOf(s);
    var d := Distinct(c);
    && p < q <= |s| && r == s[p..q] && a < b <= |d| && Distinct(c[p..q]) == d[a..b]
    && (c[0] != 0 ==> WholeChannels(c, p, q))
  }

  /** The track so far: the first of the longest runs before channel number `a`. While the walk is still in the
      first run, hits on channel 0 may have given it a track of one hit. */
  ghost predicate Best(s: TPs, tol: nat, a: nat, max: int, final: TPs, p: nat, q: nat) {
    var d := Distinct(ChannelsOf(s));
    && s != [] && a <= |d| && max >= 0
    && (forall t: nat :: t >= max ==> FirstLong(d, 0, t, tol, 0) == FirstLong(d, a, t, tol, 0))
    && (if max == 0 then a == 0 && final == []
        else if a == 0 then max == 1 && s[0].channel == 0 && IsTrack(s, final, p, q, 0, 1)
        else
          var r := FirstLong(d, 0, max - 1, tol, 0);
          r.Run? && r.from <= r.to && r.to - r.from == max && IsTrack(s, final, p, q, r.from, r.to))
  }

  /** What the search gives for the sorted primitives `s`: the track of the first of the longest runs; nothing
      if all hits are on one channel, unless that is channel 0. */
  ghost predicate IsLongestActivity(s: TPs, tol: nat, final: TPs, p: nat, q: nat) {
    var d := Distinct(ChannelsOf(s));
    if |d| == 1 && d[0] != 0 then final == []
    else
      var n := Longest(d, 0, tol, 0);
      n >= 1 && var r := FirstLong(d, 0, n - 1, tol, 0);
      r.Run? && r.from <= r.to && r.to - r.from == n && IsTrack(s, final, p, q, r.from, r.to)
  }

  lemma BestStarts(s: TPs, tol: nat)
    requires s != []
    ensures Best(s, tol, 0, 0, [], 0, 0)
  {
  }

  /** Closing the run from channel number `a` to `b`. */
  lemma BestCloses(s: TPs, tol: nat, a: nat, b: nat, max: int, final: TPs, p: nat, q: nat,
                   track: TPs, p': nat, q': nat)
    requires Best(s, tol, a, max, final, p, q) && IsTrack(s, track, p', q', a, b)
    requires RunEnd(Distinct(ChannelsOf(s)), a, 0, tol, 0) == b
    ensures b - a > max ==> Best(s, tol, b, b - a, track, p', q')
    ensures b - a <= max ==> Best(s, tol, b, max, final, p, q)
  {
    var d := Distinct(ChannelsOf(s));
    hide IsTrack;
    assert forall t: nat :: t >= b - a ==> FirstLong(d, a, t, tol, 0) == FirstLong(d, b, t, tol, 0);
    assert FirstLong(d, a, b - a - 1, tol, 0) == Run(a, b);
  }

  /** At the end of the list the longest of all runs is known. */
  lemma LongestBest(d: seq<int>, tol: nat, max: nat)
    requires FirstLong(d, 0, max, tol, 0) == NoRun && max >= 1
    requires FirstLong(d, 0, max - 1, tol, 0).Run?
    ensures max == Longest(d, 0, tol, 0)
  {
    hide FirstLong, Longest, RunEnd, IsRun;
    FirstLongCorrect(d, 0, max, tol, 0);
    FirstLongCorrect(d, 0, max - 1, tol, 0);
    var r := FirstLong(d, 0, max - 1, tol, 0);
    RunsAreNoLonger(d, 0, r.from, r.to, tol, 0);
  }

  lemma NothingLong(d: seq<int>, max: nat, tol: nat)
    ensures FirstLong(d, |d|, max, tol, 0) == NoRun
  {
  }

  lemma BestIsLongest(s: TPs, tol: nat, max: int, final: TPs, p: nat, q: nat)
    requires Best(s, tol, |Distinct(ChannelsOf(s))|, max, final, p, q)
    requires !(|Distinct(ChannelsOf(s))| == 1 && Distinct(ChannelsOf(s))[0] != 0)
    ensures IsLongestActivity(s, tol, final, p, q)
  {
    hide IsTrack, FirstLong, Longest, RunEnd;
    var d := Distinct(ChannelsOf(s));
    NothingLong(d, max, tol);
    assert d != [];
    LongestBest(d, tol, max);
  }

  // ----- the walk

  /** The walk is at position `i` of the channels `c`, number `k` of the distinct ones, in the run from number `a`. */
  ghost predicate InRun(c: seq<int>, d: seq<int>, tol: nat, i: nat, a: nat, k: nat, adj: int, used: int) {
    && StandsAt(c, d, i, k) && a <= k && adj == k - a + 1 && used >= 0
    && RunEnd(d, a, 0, tol, 0) == RunEnd(d, k, used, tol, 0)
  }

  lemma RunGoesOn(c: seq<int>, d: seq<int>, tol: nat, i: nat, a: nat, k: nat, adj: int, used: int)
    requires Sorted(c) && i + 1 < |c| && InRun(c, d, tol, i, a, k, adj, used) && c[i + 1] != c[i]
    ensures k + 1 < |d| && d[k + 1] == c[i + 1] && c[i] < c[i + 1]
    ensures var step := c[i + 1] - c[i];
      if Extends(step, used, tol) then InRun(c, d, tol, i + 1, a, k + 1, adj + 1, used + Cost(step, 0))
      else InRun(c, d, tol, i + 1, k + 1, k + 1, 1, 0) && RunEnd(d, a, 0, tol, 0) == k + 1
  {
    StandsAtChannel(c, d, i, k);
    StandsAtNext(c, d, i, k);
    StandsAtChannel(c, d, i + 1, k + 1);
    assert c[i] <= c[i + 1];
    hide StandsAt, Distinct;
  }

  /** Where the walk stands at position `i`: on channel number `k`, in a run that began with number `a`; `track`
      is the run's slice from `p` on, or nothing yet. */
  ghost predicate Tracking(s: TPs, tol: nat, i: nat, a: nat, k: nat, p: nat, track: TPs, adj: int, used: int) {
    var c := ChannelsOf(s);
    var d := Distinct(c);
    && InRun(c, d, tol, i, a, k, adj, used) && p <= i
    && (track == [] ==> p == i && a == k)
    && (track != [] ==> track == s[p..i + 1] && Distinct(c[p..i + 1]) == d[a..k + 1])
    && (c[0] != 0 && p > 0 ==> c[p - 1] != c[p])
    && (c[i] == 0 ==> track == [])
  }

  lemma TrackingStarts(s: TPs, tol: nat)
    requires s != []
    ensures Tracking(s, tol, 0, 0, 0, 0, [], 1, 0)
  {
    StandsAtStart(ChannelsOf(s));
  }

  lemma OneChannel(x: int)
    ensures Distinct([x]) == [x]
  {
    assert [x][..0] == [];
  }

  lemma TrackBegins(s: TPs, tol: nat, i: nat, a: nat, k: nat, p: nat, track: TPs, adj: int, used: int)
    requires i < |s| && Tracking(s, tol, i, a, k, p, track, adj, used)
    ensures var c := ChannelsOf(s); var d := Distinct(c);
      Begun(track, s[i]) == s[p..i + 1] && Distinct(c[p..i + 1]) == d[a..k + 1]
  {
    var c := ChannelsOf(s);
    var d := Distinct(c);
    if track == [] {
      StandsAtChannel(c, d, i, k);
      OneChannel(c[i]);
      assert c[i..i + 1] == [c[i]] && d[k..k + 1] == [d[k]] && s[i..i + 1] == [s[i]];
    }
  }

  lemma DistinctOneMore(c: seq<int>, p: nat, i: nat)
    requires p <= i && i + 1 < |c|
    ensures var d := Distinct(c[p..i + 1]);
      Distinct(c[p..i + 2]) == if c[i] == c[i + 1] then d else d + [c[i + 1]]
  {
    assert c[p..i + 2][..i + 1 - p] == c[p..i + 1];
    assert c[p..i + 1][i - p] == c[i];
  }

  lemma TrackSame(s: TPs, tol: nat, i: nat, a: nat, k: nat, p: nat, track: TPs, adj: int, used: int)
    requires i + 1 < |s| && Tracking(s, tol, i, a, k, p, track, adj, used) && s[i + 1].channel == s[i].channel != 0
    ensures Tracking(s, tol, i + 1, a, k, p, Begun(track, s[i]) + [s[i + 1]], adj, used)
  {
    var c := ChannelsOf(s);
    var d := Distinct(c);
    TrackBegins(s, tol, i, a, k, p, track, adj, used);
    StandsAtNext(c, d, i, k);
    DistinctOneMore(c, p, i);
    hide StandsAt, Distinct, RunEnd;
    assert s[p..i + 2] == s[p..i + 1] + [s[i + 1]];
  }

  lemma TrackGoesOn(s: TPs, tol: nat, i: nat, a: nat, k: nat, p: nat, track: TPs, adj: int, used: int)
    requires SortedByChannel(s) && i + 1 < |s| && Tracking(s, tol, i, a, k, p, track, adj, used)
    requires s[i + 1].channel != s[i].channel
    requires Extends(s[i + 1].channel - s[i].channel, used, tol)
    ensures Tracking(s, tol, i + 1, a, k + 1, p, Begun(track, s[i]) + [s[i + 1]], adj + 1,
                     used + Cost(s[i + 1].channel - s[i].channel, 0))
  {
    var c := ChannelsOf(s);
    var d := Distinct(c);
    TrackBegins(s, tol, i, a, k, p, track, adj, used);
    RunGoesOn(c, d, tol, i, a, k, adj, used);
    SliceGoesOn(s, c, d, p, i, a, k);
    hide InRun, Distinct, Extends, Cost, SortedByChannel, Begun;
  }

  lemma SliceGoesOn(s: TPs, c: seq<int>, d: seq<int>, p: nat, i: nat, a: nat, k: nat)
    requires p <= i && i + 1 < |s| == |c| && a <= k && k + 1 < |d|
    requires Distinct(c[p..i + 1]) == d[a..k + 1] && d[k + 1] == c[i + 1] != c[i]
    ensures Distinct(c[p..i + 2]) == d[a..k + 2] && s[p..i + 2] == s[p..i + 1] + [s[i + 1]]
  {
    DistinctOneMore(c, p, i);
    hide Distinct;
    assert d[a..k + 2] == d[a..k + 1] + [d[k + 1]];
  }

  /** A run that ends at position `i` leaves its track. */
  lemma TrackEnds(s: TPs, tol: nat, i: nat, a: nat, k: nat, p: nat, track: TPs, adj: int, used: int)
    requires SortedByChannel(s) && i < |s| && Tracking(s, tol, i, a, k, p, track, adj, used)
    requires i + 1 < |s| ==> s[i + 1].channel != s[i].channel && !Extends(s[i + 1].channel - s[i].channel, used, tol)
    ensures var d := Distinct(ChannelsOf(s));
      && k + 1 <= |d| && IsTrack(s, Begun(track, s[i]), p, i + 1, a, k + 1) && RunEnd(d, a, 0, tol, 0) == k + 1
      && (i + 1 == |s| ==> k + 1 == |d|)
    ensures i + 1 < |s| ==> Tracking(s, tol, i + 1, k + 1, k + 1, i + 1, [], 1, 0)
  {
    var c := ChannelsOf(s);
    var d := Distinct(c);
    TrackBegins(s, tol, i, a, k, p, track, adj, used);
    StandsAtChannel(c, d, i, k);
    if i + 1 < |s| {
      RunGoesOn(c, d, tol, i, a, k, adj, used);
    }
    hide StandsAt, Distinct, Extends;
  }

  /** Hits on channel 0 before the last of them: each has the walk close a run of one hit, and begin again. */
  lemma TrackZero(s: TPs, tol: nat, i: nat, a: nat, k: nat, p: nat, track: TPs, adj: int, used: int,
                  max: int, final: TPs, fp: nat, fq: nat)
    requires SortedByChannel(s) && i + 1 < |s| && Tracking(s, tol, i, a, k, p, track, adj, used)
    requires s[i + 1].channel == s[i].channel == 0
    requires s[0].channel >= 0 && Best(s, tol, a, max, final, fp, fq)
    ensures a == k == 0 && adj == 1 && Tracking(s, tol, i + 1, 0, 0, i + 1, [], 1, 0)
    ensures if adj > max then Best(s, tol, 0, 1, [s[i]], i, i + 1) else Best(s, tol, 0, max, final, fp, fq)
  {
    var c := ChannelsOf(s);
    var d := Distinct(c);
    assert c[0] <= c[i];
    StandsAtFirst(c, d, i, k);
    StandsAtNext(c, d, i, k);
    TrackBegins(s, tol, i, a, k, p, track, adj, used);
    hide StandsAt, Distinct;
    assert s[i..i + 1] == [s[i]];
  }

  // ----- the search

  /** What the search keeps from hit to hit. */
  datatype Search = Search(track: TPs, adj: int, max: int, used: int, final: TPs)

  /** Where the run, the channel, the track and the final track are. */
  datatype Marks = Marks(a: nat, k: nat, p: nat, fp: nat, fq: nat)

  ghost predicate Searched(s: TPs, tol: nat, i: nat, x: Search, m: Marks) {
    if i < |s| then
      Tracking(s, tol, i, m.a, m.k, m.p, x.track, x.adj, x.used) && Best(s, tol, m.a, x.max, x.final, m.fp, m.fq)
    else
      IsLongestActivity(s, tol, x.final, m.fp, m.fq)
  }

  /** The run goes on to `next`. */
  function Continued(x: Search, tp: TriggerPrimitive, next: TriggerPrimitive, step: int): Search {
    x.(track := Begun(x.track, tp) + [next], adj := (x.adj + 1) % TWO_16, used := x.used + Cost(step, 0))
  }

  /** The run ends with `tp`; the longest track is kept. */
  function Closed(x: Search, tp: TriggerPrimitive): Search {
    if x.adj > x.max then Search([], 1, x.adj, 0, Begun(x.track, tp)) else x.(track := [], adj := 1, used := 0)
  }

  /** How the search takes in the hit at position `i`. */
  ghost predicate Stepped(s: TPs, tol: nat, i: nat, x: Search, y: Search)
    requires i < |s|
  {
    var c := ChannelsOf(s);
    var step := Compared(c, i) - c[i];
    var next := s[if i + 1 == |s| then 0 else i + 1];
    y == if step == 0 then x.(track := Begun(x.track, s[i]) + [next])
         else if Extends(step, x.used, tol) then Continued(x, s[i], next, step)
         else Closed(x, s[i])
  }

  ghost predicate SomeHits(s: TPs) {
    0 < |s| < TWO_16 && SortedByChannel(s)
  }

  lemma HitsInRange(s: TPs)
    requires SomeHits(s)
    ensures ChannelRange(ChannelsOf(s))
  {
    var c := ChannelsOf(s);
    assert forall i :: 0 <= i < |c| ==> c[i] == s[i].channel;
  }

  lemma AdjFits(s: TPs, tol: nat, i: nat, a: nat, k: nat, p: nat, track: TPs, adj: int, used: int)
    requires SomeHits(s) && i + 1 < |s| && Tracking(s, tol, i, a, k, p, track, adj, used)
    requires s[i + 1].channel != s[i].channel
    ensures (adj + 1) % TWO_16 == adj + 1
  {
    hide Distinct, RunEnd, StandsAt;
    var c := ChannelsOf(s);
    RunGoesOn(c, Distinct(c), tol, i, a, k, adj, used);
    DistinctIsShort(c);
  }

  lemma SteppedCases(s: TPs, tol: nat, i: nat, x: Search, y: Search)
    requires SomeHits(s) && i < |s| && Stepped(s, tol, i, x, y)
    ensures i + 1 < |s| && s[i + 1].channel == s[i].channel != 0 ==> y == x.(track := Begun(x.track, s[i]) + [s[i + 1]])
    ensures i + 1 < |s| && s[i + 1].channel == s[i].channel == 0 ==> y == Closed(x, s[i])
    ensures i + 1 < |s| && s[i + 1].channel != s[i].channel ==>
      var step := s[i + 1].channel - s[i].channel;
      y == if Extends(step, x.used, tol) then Continued(x, s[i], s[i + 1], step) else Closed(x, s[i])
    ensures i + 1 == |s| && s[0].channel == s[i].channel != 0 ==> y.final == x.final
    ensures i + 1 == |s| && !(s[0].channel == s[i].channel != 0) ==> y == Closed(x, s[i])
  {
    HitsInRange(s);
    ComparedCases(ChannelsOf(s), i);
    hide Compared, Continued, Closed, Begun, ChannelRange;
  }

  lemma StepZero(s: TPs, tol: nat, i: nat, x: Search, m: Marks) returns (m': Marks)
    requires SomeHits(s) && i + 1 < |s| && Searched(s, tol, i, x, m) && s[i + 1].channel == s[i].channel == 0
    ensures Searched(s, tol, i + 1, Closed(x, s[i]), m')
  {
    TrackZero(s, tol, i, m.a, m.k, m.p, x.track, x.adj, x.used, x.max, x.final, m.fp, m.fq);
    TrackOfZero(s, tol, i, m.a, m.k, m.p, x.track, x.adj, x.used);
    hide Tracking, Best, IsTrack;
    m' := Marks(0, 0, i + 1, if x.adj > x.max then i else m.fp, if x.adj > x.max then i + 1 else m.fq);
  }

  lemma TrackOfZero(s: TPs, tol: nat, i: nat, a: nat, k: nat, p: nat, track: TPs, adj: int, used: int)
    requires i < |s| && Tracking(s, tol, i, a, k, p, track, adj, used) && s[i].channel == 0
    ensures Begun(track, s[i]) == [s[i]]
  {
    hide InRun;
    assert ChannelsOf(s)[i] == 0;
  }

  lemma StepContinues(s: TPs, tol: nat, i: nat, x: Search, m: Marks) returns (m': Marks)
    requires SomeHits(s) && i + 1 < |s| && Searched(s, tol, i, x, m) && s[i + 1].channel != s[i].channel
    requires Extends(s[i + 1].channel - s[i].channel, x.used, tol)
    ensures Searched(s, tol, i + 1, Continued(x, s[i], s[i + 1], s[i + 1].channel - s[i].channel), m')
  {
    hide Tracking, Best, Extends, Cost, Begun, IsLongestActivity;
    AdjFits(s, tol, i, m.a, m.k, m.p, x.track, x.adj, x.used);
    TrackGoesOn(s, tol, i, m.a, m.k, m.p, x.track, x.adj, x.used);
    m' := m.(k := m.k + 1);
  }

  lemma StepSame(s: TPs, tol: nat, i: nat, x: Search, m: Marks)
    requires SomeHits(s) && i + 1 < |s| && Searched(s, tol, i, x, m) && s[i + 1].channel == s[i].channel != 0
    ensures Searched(s, tol, i + 1, x.(track := Begun(x.track, s[i]) + [s[i + 1]]), m)
  {
    TrackSame(s, tol, i, m.a, m.k, m.p, x.track, x.adj, x.used);
    hide Tracking, Best, Begun;
  }

  lemma StepWithin(s: TPs, tol: nat, i: nat, x: Search, m: Marks, y: Search) returns (m': Marks)
    requires SomeHits(s) && i + 1 < |s| && Searched(s, tol, i, x, m) && Stepped(s, tol, i, x, y)
    ensures Searched(s, tol, i + 1, y, m')
  {
    SteppedCases(s, tol, i, x, y);
    hide Stepped, Searched, Continued, Closed, Begun, SomeHits, Extends;
    if s[i + 1].channel == s[i].channel {
      if s[i].channel == 0 {
        m' := StepZero(s, tol, i, x, m);
      } else {
        StepSame(s, tol, i, x, m);
        m' := m;
      }
    } else if Extends(s[i + 1].channel - s[i].channel, x.used, tol) {
      m' := StepContinues(s, tol, i, x, m);
    } else {
      m' := StepCloses(s, tol, i, x, m);
    }
  }

  lemma StepCloses(s: TPs, tol: nat, i: nat, x: Search, m: Marks) returns (m': Marks)
    requires SomeHits(s) && i < |s| && Searched(s, tol, i, x, m)
    requires i + 1 < |s| ==> s[i + 1].channel != s[i].channel && !Extends(s[i + 1].channel - s[i].channel, x.used, tol)
    requires i + 1 == |s| ==> !(s[0].channel == s[i].channel != 0)
    ensures Searched(s, tol, i + 1, Closed(x, s[i]), m')
  {
    hide Best, Tracking, IsTrack, Extends, Begun, IsLongestActivity, RunEnd;
    var b := m.k + 1;
    TrackEnds(s, tol, i, m.a, m.k, m.p, x.track, x.adj, x.used);
    BestCloses(s, tol, m.a, b, x.max, x.final, m.fp, m.fq, Begun(x.track, s[i]), m.p, i + 1);
    AdjIs(s, tol, i, m.a, m.k, m.p, x.track, x.adj, x.used);
    TwoChannels(s);
    m' := Marks(b, b, i + 1, if x.adj > x.max then m.p else m.fp, if x.adj > x.max then i + 1 else m.fq);
    if i + 1 == |s| {
      var y := Closed(x, s[i]);
      BestIsLongest(s, tol, y.max, y.final, m'.fp, m'.fq);
    }
  }

  lemma AdjIs(s: TPs, tol: nat, i: nat, a: nat, k: nat, p: nat, track: TPs, adj: int, used: int)
    requires Tracking(s, tol, i, a, k, p, track, adj, used)
    ensures adj == k + 1 - a
  {
  }

  /** A list that ends on another channel than it begins has more than one. */
  lemma TwoChannels(s: TPs)
    requires SomeHits(s)
    ensures var d := Distinct(ChannelsOf(s)); |d| == 1 && d[0] != 0 <==> s[0].channel == s[|s| - 1].channel != 0
  {
    var c := ChannelsOf(s);
    DistinctCorrect(c);
    StandsAtStart(c);
    StandsAtChannel(c, Distinct(c), 0, 0);
    hide StandsAt;
  }

  /** After the last hit comes the first again: on its channel, unless that is channel 0, no run is closed. */
  lemma StepLast(s: TPs, tol: nat, i: nat, x: Search, m: Marks, y: Search) returns (m': Marks)
    requires SomeHits(s) && i + 1 == |s| && Searched(s, tol, i, x, m) && Stepped(s, tol, i, x, y)
    ensures Searched(s, tol, i + 1, y, m')
  {
    SteppedCases(s, tol, i, x, y);
    if s[0].channel == s[i].channel != 0 {
      OneRun(s, tol, i, x, m);
      hide Tracking, Best, Stepped;
      m' := m;
    } else {
      hide Stepped, Searched, Closed;
      m' := StepCloses(s, tol, i, x, m);
    }
  }

  lemma OneRun(s: TPs, tol: nat, i: nat, x: Search, m: Marks)
    requires SomeHits(s) && i + 1 == |s| && Searched(s, tol, i, x, m) && s[0].channel == s[i].channel != 0
    ensures x.final == [] && IsLongestActivity(s, tol, [], m.fp, m.fq)
  {
    TwoChannels(s);
    hide IsTrack, Longest, FirstLong, RunEnd;
  }

  lemma NextPosition(s: TPs, i: nat)
    requires i < |s|
    ensures (i + 1) % |s| == if i + 1 == |s| then 0 else i + 1
    ensures var c := ChannelsOf(s); var next := s[(i + 1) % |s|].channel;
      Compared(c, i) == if next == 0 then Wrap32(s[i].channel - 1) else next
  {
    NextIndex(i, |s|);
  }

  method TakeHit(s: TPs, tol: nat, i: nat, x: Search) returns (y: Search)
    requires i < |s| && x.adj >= 0
    ensures Stepped(s, tol, i, x, y) && y.adj >= 0
  {
    NextPosition(s, i);
    hide Wrap32, Compared;
    var trackHits, adj, max, tolCount, finalHits := x.track, x.adj, x.max, x.used, x.final;
    var next := (i + 1) % |s|;
    var channel, nextChannel: int := s[i].channel, s[next].channel;
    if |trackHits| == 0 {
      trackHits := [s[i]];
    }
    if nextChannel == 0 {
      nextChannel := Wrap32(channel - 1);
    }
    if nextChannel == channel {
      trackHits := trackHits + [s[next]];
    } else if nextChannel == channel + 1 {
      trackHits := trackHits + [s[next]];
      adj := (adj + 1) % TWO_16;
    } else if channel + 2 <= nextChannel <= channel + 5 && tolCount < tol {
      trackHits := trackHits + [s[next]];
      adj := (adj + 1) % TWO_16;
      for j := 0 to nextChannel - channel
        invariant tolCount == x.used + j
      {
        tolCount := tolCount + 1;
      }
    } else {
      if adj > max {
        max := adj;
        finalHits := trackHits;
      }
      adj, tolCount, trackHits := 1, 0, [];
    }
    y := Search(trackHits, adj, max, tolCount, finalHits);
  }

  /** `r` is what the search gives for the primitives `tps` in some order by channel. */
  ghost predicate IsLongestActivityOf(tps: TPs, tol: nat, r: TPs) {
    exists s: TPs, p: nat, q: nat ::
      SortedByChannel(s) && multiset(s) == multiset(tps) && IsLongestActivity(s, tol, r, p, q)
  }

  /** The longest activity of a window: a slice of its primitives sorted by channel. */
  method LongestActivity(tps: TPs, tol: nat) returns (r: TPs)
    requires |tps| < TWO_16
    ensures if tps == [] then r == [] else IsLongestActivityOf(tps, tol, r)
  {
    hide IsLongestActivity, Stepped, SomeHits, SortedByChannel, Searched;
    var hits := SortByChannel(tps);
    SortedLength(hits, tps);
    if hits == [] {
      return [];
    }
    ghost var m := Marks(0, 0, 0, 0, 0);
    var x := Search([], 1, 0, 0, []);
    SearchStarts(hits, tol);
    var i := 0;
    while i < |hits|
      invariant 0 <= i <= |hits| && x.adj >= 0 && Searched(hits, tol, i, x, m)
    {
      var y := TakeHit(hits, tol, i, x);
      m := Step(hits, tol, i, x, m, y);
      x := y;
      i := i + 1;
    }
    SearchedAll(hits, tol, x, m);
    r := x.final;
  }

  lemma SortedLength(s: TPs, tps: TPs)
    requires multiset(s) == multiset(tps) && SortedByChannel(s) && |tps| < TWO_16
    ensures |s| == |tps| && (s != [] ==> SomeHits(s))
  {
    hide SortedByChannel;
    assert |multiset(s)| == |multiset(tps)|;
  }

  lemma SearchStarts(s: TPs, tol: nat)
    requires s != []
    ensures Searched(s, tol, 0, Search([], 1, 0, 0, []), Marks(0, 0, 0, 0, 0))
  {
    hide Tracking, Best;
    TrackingStarts(s, tol);
    BestStarts(s, tol);
  }

  lemma Step(s: TPs, tol: nat, i: nat, x: Search, m: Marks, y: Search) returns (m': Marks)
    requires SomeHits(s) && i < |s| && Searched(s, tol, i, x, m) && Stepped(s, tol, i, x, y)
    ensures Searched(s, tol, i + 1, y, m')
  {
    hide Searched, Stepped, SomeHits;
    if i + 1 < |s| {
      m' := StepWithin(s, tol, i, x, m, y);
    } else {
      m' := StepLast(s, tol, i, x, m, y);
    }
  }

  lemma SearchedAll(s: TPs, tol: nat, x: Search, m: Marks)
    requires Searched(s, tol, |s|, x, m)
    ensures IsLongestActivity(s, tol, x.final, m.fp, m.fq)
  {
  }

  // ----- what the longest activity is

  /** The longest activity is a slice of the sorted primitives whose distinct channels make up a run; no run is
      longer, and none before it is as long. */
  lemma LongestActivityMeans(s: TPs, tol: nat, r: TPs, p: nat, q: nat) returns (a: nat, b: nat)
    requires s != [] && SortedByChannel(s) && IsLongestActivity(s, tol, r, p, q) && r != []
    ensures var d := Distinct(ChannelsOf(s));
      && p < q <= |s| && r == s[p..q] && a < b <= |d| && Distinct(ChannelsOf(r)) == d[a..b]
      && IsRun(d, 0, a, b, tol, 0) && b - a == Longest(d, 0, tol, 0)
      && forall a': nat, b': nat :: IsRun(d, 0, a', b', tol, 0) && a' < a ==> b' - a' < b - a
  {
    hide FirstLong, Longest, Distinct, RunEnd, IsRun, SortedByChannel;
    var d := Distinct(ChannelsOf(s));
    var n := Longest(d, 0, tol, 0);
    FirstLongCorrect(d, 0, n - 1, tol, 0);
    a, b := FirstLong(d, 0, n - 1, tol, 0).from, FirstLong(d, 0, n - 1, tol, 0).to;
    assert ChannelsOf(s[p..q]) == ChannelsOf(s)[p..q];
  }

  /** The maker for horizontal muons would give the number of its channels as the adjacency of the window. */
  lemma LongestActivityIsAdjacency(s: TPs, tol: nat, r: TPs, p: nat, q: nat, adj: int)
    requires s != [] && SortedByChannel(s) && IsLongestActivity(s, tol, r, p, q)
    ensures IsAdjacency(adj, Distinct(ChannelsOf(s)), tol) <==> adj == |Distinct(ChannelsOf(r))|
  {
    if r != [] {
      var a, b := LongestActivityMeans(s, tol, r, p, q);
    }
    hide FirstLong, Longest;
  }

  lemma WholeHasAll(c: seq<int>, p: nat, q: nat, i: nat, j: nat)
    requires Sorted(c) && WholeChannels(c, p, q) && p <= j < q && i < |c|
    ensures c[i] == c[j] ==> p <= i < q
  {
    assert i < p ==> c[i] <= c[p - 1] && c[p - 1] <= c[p] && c[p] <= c[j];
    assert i >= q ==> c[j] <= c[q - 1] && c[q - 1] <= c[q] && c[q] <= c[i];
  }

  /** Unless there are hits on channel 0, it has every primitive on its channels. */
  lemma LongestActivityIsWhole(s: TPs, tol: nat, r: TPs, p: nat, q: nat, i: nat)
    requires s != [] && SortedByChannel(s) && IsLongestActivity(s, tol, r, p, q) && r != []
    requires s[0].channel != 0 && i < |s|
    ensures s[i].channel in ChannelsOf(r) <==> p <= i < q
  {
    var c := ChannelsOf(s);
    hide FirstLong, Longest, Distinct;
    assert WholeChannels(c, p, q);
    if p <= i < q {
      assert r[i - p] == s[i] && ChannelsOf(r)[i - p] == c[i];
    }
    if s[i].channel in ChannelsOf(r) {
      var j :| 0 <= j < |r| && r[j].channel == s[i].channel;
      assert r[j] == s[p + j];
      WholeHasAll(c, p, q, i, p + j);
    }
  }
}
