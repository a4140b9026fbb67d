/** Windows that slide over a stream of trigger primitives, and the triggers that look at a window only when
    a primitive arrives that closes it. */
module SlidingWindows {
  import opened TriggerTypes

  ghost predicate InTimeOrder(tps: TPs) {
    forall i, j :: 0 <= i <= j < |tps| ==> tps[i].timeStart <= tps[j].timeStart
  }

  predicate Within(now: Timestamp, t: Timestamp, length: Timestamp) {
    Ticks(now, t) < length
  }

  /** A time is within a length of an earlier one if it is less than that later; the later of two times is within
      a length of the earlier only where the unsigned difference has wrapped around. */
  lemma WithinMeans(now: Timestamp, t: Timestamp, length: Timestamp)
    ensures t <= now ==> (Within(now, t, length) <==> now - t < length)
    ensures now < t ==> (Within(now, t, length) <==> now - t + 0x1_0000_0000_0000_0000 < length)
  {
    TicksInOrder(now, t);
  }

  /** The number of leading primitives, from the `i`-th on, that the arrival of one at time `now` expels. */
  function Expired(tps: TPs, now: Timestamp, length: Timestamp, i: nat): (k: nat)
    requires i <= |tps|
    ensures i <= k <= |tps|
    decreases |tps| - i
  {
    if i < |tps| && !Within(now, tps[i].timeStart, length) then Expired(tps, now, length, i + 1) else i
  }

  /** The window after sliding it along to take in `tp`. */
  function Moved(tps: TPs, tp: TriggerPrimitive, length: Timestamp): (r: TPs)
    ensures r != [] && r[|r| - 1] == tp
  {
    tps[Expired(tps, tp.timeStart, length, 0)..] + [tp]
  }

  /** The window after the primitives `tps`, the first of which it was reset with, when none of them triggered. */
  function WindowAfter(tps: TPs, length: Timestamp): (w: TPs)
    requires tps != []
    ensures w != []
  {
    var n := |tps| - 1;
    if n == 0 then tps else Moved(WindowAfter(tps[..n], length), tps[n], length)
  }

  // ----- what a window holds

  /** `w` is where the window after `tps` starts. */
  ghost predicate StartsAt(tps: TPs, length: Timestamp, w: nat) {
    var last := |tps| - 1;
    && w < |tps|
    && (forall i :: 0 <= i < w ==> tps[last].timeStart - tps[i].timeStart >= length)
    && (forall i :: w <= i < last ==> tps[last].timeStart - tps[i].timeStart < length)
  }

  lemma {:induction false} ExpiredCorrect(tps: TPs, now: Timestamp, length: Timestamp, i: nat)
    requires InTimeOrder(tps) && i <= |tps| && forall j :: 0 <= j < |tps| ==> tps[j].timeStart <= now
    ensures var k := Expired(tps, now, length, i);
      && (forall j :: i <= j < k ==> now - tps[j].timeStart >= length)
      && (forall j :: k <= j < |tps| ==> now - tps[j].timeStart < length)
    decreases |tps| - i
  {
    if i < |tps| {
      TicksInOrder(now, tps[i].timeStart);
      if !Within(now, tps[i].timeStart, length) {
        ExpiredCorrect(tps, now, length, i + 1);
      }
    }
  }

  /** For primitives in time order, sliding leaves exactly those closer than the window length to the new
      one, then the new one. */
  lemma MovedKeepsTheRecent(tps: TPs, tp: TriggerPrimitive, length: Timestamp) returns (k: nat)
    requires InTimeOrder(tps + [tp])
    ensures k <= |tps| && Moved(tps, tp, length) == tps[k..] + [tp]
    ensures forall i :: 0 <= i < k ==> tp.timeStart - tps[i].timeStart >= length
    ensures forall i :: k <= i < |tps| ==> tp.timeStart - tps[i].timeStart < length
  {
    var all := tps + [tp];
    assert forall i :: 0 <= i < |tps| ==> all[i] == tps[i] && all[i].timeStart <= all[|tps|].timeStart;
    assert InTimeOrder(tps);
    ExpiredCorrect(tps, tp.timeStart, length, 0);
    k := Expired(tps, tp.timeStart, length, 0);
  }

  lemma StartsLater(tps: TPs, length: Timestamp, v: nat, k: nat)
    requires InTimeOrder(tps) && |tps| >= 2 && v < |tps| - 1 && v + k < |tps|
    requires StartsAt(tps[..|tps| - 1], length, v)
    requires forall i :: v <= i < v + k ==> tps[|tps| - 1].timeStart - tps[i].timeStart >= length
    requires forall i :: v + k <= i < |tps| - 1 ==> tps[|tps| - 1].timeStart - tps[i].timeStart < length
    ensures StartsAt(tps, length, v + k)
  {
    var n := |tps| - 1;
    var before := tps[..n];
    forall i | 0 <= i < v
      ensures tps[n].timeStart - tps[i].timeStart >= length
    {
      assert before[n - 1].timeStart - before[i].timeStart >= length;
      assert tps[n - 1].timeStart <= tps[n].timeStart;
    }
  }

  lemma SuffixOfSuffix(tps: TPs, v: nat, k: nat)
    requires v < |tps| && v + k < |tps|
    ensures var n := |tps| - 1; tps[..n][v..][k..] + [tps[n]] == tps[v + k..] && tps[..n][v..] + [tps[n]] == tps[v..]
    ensures forall i :: v <= i < |tps| - 1 ==> tps[..|tps| - 1][v..][i - v] == tps[i]
  {
  }

  lemma SuffixInOrder(tps: TPs, v: nat)
    requires InTimeOrder(tps) && v <= |tps|
    ensures InTimeOrder(tps[v..])
  {
  }

  /** With primitives in time order, the window after them is a suffix of them: all but those expelled. */
  lemma {:induction false} WindowIsSuffix(tps: TPs, length: Timestamp) returns (w: nat)
    requires tps != [] && InTimeOrder(tps)
    ensures StartsAt(tps, length, w) && WindowAfter(tps, length) == tps[w..]
  {
    hide Moved, StartsAt, InTimeOrder;
    var n := |tps| - 1;
    if n == 0 {
      w := 0;
      StartsAtOne(tps, length);
    } else {
      PrefixInOrder(tps, n);
      var v := WindowIsSuffix(tps[..n], length);
      w := SlidesOn(tps, length, v);
    }
  }

  lemma StartsAtOne(tps: TPs, length: Timestamp)
    requires |tps| == 1
    ensures StartsAt(tps, length, 0) && tps[0..] == tps
  {
  }

  lemma PrefixInOrder(tps: TPs, n: nat)
    requires InTimeOrder(tps) && n <= |tps|
    ensures InTimeOrder(tps[..n])
  {
  }

  /** The next arrival slides the start of the window on. */
  lemma SlidesOn(tps: TPs, length: Timestamp, v: nat) returns (w: nat)
    requires |tps| >= 2 && InTimeOrder(tps) && StartsAt(tps[..|tps| - 1], length, v)
    ensures StartsAt(tps, length, w) && Moved(tps[..|tps| - 1][v..], tps[|tps| - 1], length) == tps[w..]
  {
    hide Moved, InTimeOrder;
    var n := |tps| - 1;
    SuffixOfSuffix(tps, v, 0);
    SuffixInOrder(tps, v);
    var k := MovedKeepsTheRecent(tps[..n][v..], tps[n], length);
    hide StartsAt;
    w := v + k;
    SuffixOfSuffix(tps, v, k);
    StartsLater(tps, length, v, k);
  }

  // ----- triggers

  /** A test of a list of primitives that, once true, stays true when primitives are added at either end. */
  ghost predicate Monotone(heavy: TPs -> bool) {
    forall a, b, c {:trigger heavy(a + b + c)} :: heavy(b) ==> heavy(a + b + c)
  }

  /** The arrival of `x` closes the window and triggers. */
  predicate Fires(win: TPs, x: TriggerPrimitive, length: Timestamp, heavy: TPs -> bool)
    requires win != []
  {
    !Within(x.timeStart, win[0].timeStart, length) && heavy(win)
  }

  /** The primitives at times in [from, from + length). */
  function InInterval(tps: TPs, from: Timestamp, length: Timestamp): TPs {
    if tps == [] then []
    else
      var r := InInterval(tps[..|tps| - 1], from, length);
      var tp := tps[|tps| - 1];
      if from <= tp.timeStart < from + length then r + [tp] else r
  }

  /** By brute force: some interval that starts at one of `tps` is over at the time of `x`, and is heavy. */
  ghost predicate HeavyIntervalClosed(tps: TPs, x: TriggerPrimitive, length: Timestamp, heavy: TPs -> bool) {
    exists j :: 0 <= j < |tps| && tps[j].timeStart + length <= x.timeStart &&
      heavy(InInterval(tps, tps[j].timeStart, length))
  }

  /** No arrival among `tps` has triggered since the window was reset with the first of them. */
  ghost predicate Quiet(tps: TPs, length: Timestamp, heavy: TPs -> bool) {
    forall m :: 1 <= m < |tps| ==> !Fires(WindowAfter(tps[..m], length), tps[m], length, heavy)
  }

  /** tps[lo..hi] are the primitives at times in [from, from + length). */
  ghost predicate IsSlice(tps: TPs, from: Timestamp, length: Timestamp, lo: nat, hi: nat) {
    && lo <= hi <= |tps|
    && (forall i :: 0 <= i < lo ==> tps[i].timeStart < from)
    && (forall i :: lo <= i < hi ==> from <= tps[i].timeStart < from + length)
    && (forall i :: hi <= i < |tps| ==> from + length <= tps[i].timeStart)
  }

  lemma {:induction false} FirstNotBefore(tps: TPs, t: int) returns (k: nat)
    requires InTimeOrder(tps)
    ensures k <= |tps|
    ensures forall i :: 0 <= i < k ==> tps[i].timeStart < t
    ensures forall i :: k <= i < |tps| ==> t <= tps[i].timeStart
  {
    k := |tps|;
    while k > 0 && t <= tps[k - 1].timeStart
      invariant k <= |tps|
      invariant forall i :: k <= i < |tps| ==> t <= tps[i].timeStart
    {
      k := k - 1;
    }
  }

  lemma {:induction false} SliceIsInterval(tps: TPs, from: Timestamp, length: Timestamp, lo: nat, hi: nat)
    requires IsSlice(tps, from, length, lo, hi)
    ensures InInterval(tps, from, length) == tps[lo..hi]
  {
    if tps != [] {
      var n := |tps| - 1;
      var before := tps[..n];
      assert forall i :: 0 <= i < n ==> before[i] == tps[i];
      if hi <= n {
        SliceIsInterval(before, from, length, lo, hi);
        assert before[lo..hi] == tps[lo..hi];
      } else if lo <= n {
        SliceIsInterval(before, from, length, lo, n);
        assert before[lo..n] + [tps[n]] == tps[lo..hi];
      } else {
        SliceIsInterval(before, from, length, n, n);
        assert before[n..n] == tps[lo..hi];
      }
    }
  }

  lemma IntervalIsSlice(tps: TPs, from: Timestamp, length: Timestamp) returns (lo: nat, hi: nat)
    requires InTimeOrder(tps)
    ensures IsSlice(tps, from, length, lo, hi) && InInterval(tps, from, length) == tps[lo..hi]
  {
    lo := FirstNotBefore(tps, from);
    hi := FirstNotBefore(tps, from + length);
    var _ := if hi < |tps| then tps[hi].timeStart else 0;
    SliceIsInterval(tps, from, length, lo, hi);
  }

  /** The window holds exactly the primitives in the interval that starts with its first one. */
  lemma WindowIsInterval(tps: TPs, length: Timestamp, w: nat)
    requires InTimeOrder(tps) && length > 0 && StartsAt(tps, length, w)
    ensures InInterval(tps, tps[w].timeStart, length) == tps[w..]
  {
    var last := |tps| - 1;
    assert forall i :: 0 <= i < |tps| ==> tps[i].timeStart <= tps[last].timeStart;
    assert IsSlice(tps, tps[w].timeStart, length, w, |tps|);
    SliceIsInterval(tps, tps[w].timeStart, length, w, |tps|);
    assert tps[w..] == tps[w..|tps|];
  }

  lemma SliceOfWindow(tps: TPs, w: nat, lo: nat, hi: nat, heavy: TPs -> bool)
    requires w <= lo <= hi <= |tps| && Monotone(heavy) && heavy(tps[lo..hi])
    ensures heavy(tps[w..])
  {
    assert tps[w..] == tps[w..lo] + tps[lo..hi] + tps[hi..];
  }

  /** An interval that is over and was not caught when it ended still lies in the window. */
  lemma HeavyIntervalFires(tps: TPs, x: TriggerPrimitive, length: Timestamp, heavy: TPs -> bool, w: nat, j: nat)
    requires InTimeOrder(tps + [x]) && InTimeOrder(tps) && length > 0 && Monotone(heavy) && StartsAt(tps, length, w)
    requires w <= j < |tps| && tps[j].timeStart + length <= x.timeStart
    requires heavy(InInterval(tps, tps[j].timeStart, length))
    ensures Fires(tps[w..], x, length, heavy)
  {
    var lo, hi := IntervalIsSlice(tps, tps[j].timeStart, length);
    var last := |tps| - 1;
    assert tps[last].timeStart - tps[j].timeStart < length;
    assert lo <= j < hi;
    assert tps[j].timeStart <= tps[lo].timeStart;
    assert w <= lo;
    SliceOfWindow(tps, w, lo, hi, heavy);
    assert tps[w].timeStart <= tps[j].timeStart;
    TicksInOrder(x.timeStart, tps[w].timeStart);
  }

  /** The interval of an expelled primitive was over when the primitive that expelled it arrived. */
  lemma {:induction false} ExpelledWasClosed(tps: TPs, length: Timestamp, j: nat, n: nat) returns (m: nat)
    requires InTimeOrder(tps) && length > 0 && j < n < |tps| && tps[j].timeStart + length <= tps[n].timeStart
    ensures j < m <= n && tps[j].timeStart + length <= tps[m].timeStart
    ensures InInterval(tps[..m], tps[j].timeStart, length) == InInterval(tps, tps[j].timeStart, length)
  {
    var from := tps[j].timeStart;
    var lo, hi := IntervalIsSlice(tps, from, length);
    m := hi;
    assert IsSlice(tps[..m], from, length, lo, m);
    SliceIsInterval(tps[..m], from, length, lo, m);
    assert tps[..m][lo..m] == tps[lo..hi];
  }

  /** Soundness and completeness of a trigger that looks only at the window it holds: if no arrival before
      has triggered since the reset, this one does exactly when brute force over all intervals says so. */
  lemma {:induction false} TriggerMissesNothing(tps: TPs, x: TriggerPrimitive, length: Timestamp, heavy: TPs -> bool)
    requires tps != [] && InTimeOrder(tps + [x]) && length > 0 && Monotone(heavy) && Quiet(tps, length, heavy)
    ensures Fires(WindowAfter(tps, length), x, length, heavy) <==> HeavyIntervalClosed(tps, x, length, heavy)
    decreases |tps|
  {
    var all := tps + [x];
    assert forall i :: 0 <= i < |tps| ==> all[i] == tps[i] && tps[i].timeStart <= all[|tps|].timeStart;
    assert InTimeOrder(tps);
    var w := WindowIsSuffix(tps, length);
    WindowIsInterval(tps, length, w);
    TicksInOrder(x.timeStart, tps[w].timeStart);
    if HeavyIntervalClosed(tps, x, length, heavy) {
      var j :| 0 <= j < |tps| && tps[j].timeStart + length <= x.timeStart &&
        heavy(InInterval(tps, tps[j].timeStart, length));
      if j < w {
        ExpelledIsNotHeavy(tps, length, heavy, w, j);
      }
      HeavyIntervalFires(tps, x, length, heavy, w, j);
    }
  }

  /** Whatever the test, a trigger comes only with a primitive that closes a heavy interval. */
  lemma FiresSoundly(tps: TPs, x: TriggerPrimitive, length: Timestamp, heavy: TPs -> bool)
    requires tps != [] && InTimeOrder(tps + [x]) && length > 0 && Fires(WindowAfter(tps, length), x, length, heavy)
    ensures HeavyIntervalClosed(tps, x, length, heavy)
  {
    var all := tps + [x];
    assert forall i :: 0 <= i < |tps| ==> all[i] == tps[i] && tps[i].timeStart <= all[|tps|].timeStart;
    assert InTimeOrder(tps);
    var w := WindowIsSuffix(tps, length);
    WindowIsInterval(tps, length, w);
    TicksInOrder(x.timeStart, tps[w].timeStart);
  }

  ghost predicate Implies(sure: TPs -> bool, heavy: TPs -> bool) {
    forall tps :: sure(tps) ==> heavy(tps)
  }

  /** And whatever the test, it comes with every primitive that closes an interval for which a stronger test holds,
      if that stays true when primitives are added. */
  lemma SureIntervalFires(tps: TPs, x: TriggerPrimitive, length: Timestamp, sure: TPs -> bool, heavy: TPs -> bool)
    requires tps != [] && InTimeOrder(tps + [x]) && length > 0 && Quiet(tps, length, heavy)
    requires Monotone(sure) && Implies(sure, heavy) && HeavyIntervalClosed(tps, x, length, sure)
    ensures Fires(WindowAfter(tps, length), x, length, heavy)
  {
    hide WindowAfter, HeavyIntervalClosed, Monotone, InTimeOrder;
    forall m | 1 <= m < |tps|
      ensures !Fires(WindowAfter(tps[..m], length), tps[m], length, sure)
    {
      assert !Fires(WindowAfter(tps[..m], length), tps[m], length, heavy);
    }
    TriggerMissesNothing(tps, x, length, sure);
  }

  lemma {:induction false} ExpelledIsNotHeavy(tps: TPs, length: Timestamp, heavy: TPs -> bool, w: nat, j: nat)
    requires InTimeOrder(tps) && length > 0 && Monotone(heavy) && Quiet(tps, length, heavy)
    requires StartsAt(tps, length, w) && j < w
    ensures !heavy(InInterval(tps, tps[j].timeStart, length))
    decreases |tps|, 0
  {
    var m := ExpelledWasClosed(tps, length, j, |tps| - 1);
    QuietPrefix(tps, length, heavy, m);
    TriggerMissesNothing(tps[..m], tps[m], length, heavy);
    hide InInterval, Fires, Monotone, StartsAt;
    assert tps[..m][j] == tps[j];
  }

  lemma QuietPrefix(tps: TPs, length: Timestamp, heavy: TPs -> bool, m: nat)
    requires 0 < m < |tps| && Quiet(tps, length, heavy) && InTimeOrder(tps)
    ensures Quiet(tps[..m], length, heavy) && !Fires(WindowAfter(tps[..m], length), tps[m], length, heavy)
    ensures InTimeOrder(tps[..m] + [tps[m]])
  {
    hide Fires, WindowAfter;
    assert tps[..m] + [tps[m]] == tps[..m + 1];
    forall i | 1 <= i < m
      ensures !Fires(WindowAfter(tps[..m][..i], length), tps[..m][i], length, heavy)
    {
      assert tps[..m][..i] == tps[..i];
    }
  }

  /** So a run is quiet exactly when brute force finds nothing at any of its arrivals: the first trigger
      comes with the first primitive that closes a heavy interval. */
  lemma {:induction false} QuietIsNoHeavyInterval(tps: TPs, length: Timestamp, heavy: TPs -> bool)
    requires InTimeOrder(tps) && length > 0 && Monotone(heavy)
    ensures Quiet(tps, length, heavy) <==> forall m :: 1 <= m < |tps| ==>
      !HeavyIntervalClosed(tps[..m], tps[m], length, heavy)
  {
    hide Fires, HeavyIntervalClosed, WindowAfter, Monotone;
    if Quiet(tps, length, heavy) {
      forall m | 1 <= m < |tps|
        ensures !HeavyIntervalClosed(tps[..m], tps[m], length, heavy)
      {
        QuietPrefix(tps, length, heavy, m);
        TriggerMissesNothing(tps[..m], tps[m], length, heavy);
      }
    }
    if forall m :: 1 <= m < |tps| ==> !HeavyIntervalClosed(tps[..m], tps[m], length, heavy) {
      NoHeavyIntervalIsQuiet(tps, length, heavy);
    }
  }

  lemma {:induction false} NoHeavyIntervalIsQuiet(tps: TPs, length: Timestamp, heavy: TPs -> bool)
    requires InTimeOrder(tps) && length > 0 && Monotone(heavy)
    requires forall m :: 1 <= m < |tps| ==> !HeavyIntervalClosed(tps[..m], tps[m], length, heavy)
    ensures Quiet(tps, length, heavy)
  {
    hide Fires, HeavyIntervalClosed, WindowAfter, Monotone;
    if |tps| > 1 {
      var n := |tps| - 1;
      var before := tps[..n];
      assert forall m :: 1 <= m < n ==> before[..m] == tps[..m];
      NoHeavyIntervalIsQuiet(before, length, heavy);
      assert before + [tps[n]] == tps;
      TriggerMissesNothing(before, tps[n], length, heavy);
      forall m | 1 <= m < |tps|
        ensures !Fires(WindowAfter(tps[..m], length), tps[m], length, heavy)
      {
        if m < n {
          assert !Fires(WindowAfter(before[..m], length), before[m], length, heavy);
        }
      }
    }
  }

  /** What one more arrival without a trigger does to the window. */
  lemma QuietGrows(tps: TPs, tp: TriggerPrimitive, length: Timestamp, heavy: TPs -> bool)
    requires tps != []
    ensures Quiet(tps, length, heavy) && !Fires(WindowAfter(tps, length), tp, length, heavy) ==>
      Quiet(tps + [tp], length, heavy)
    ensures WindowAfter(tps + [tp], length) == Moved(WindowAfter(tps, length), tp, length)
    ensures Within(tp.timeStart, WindowAfter(tps, length)[0].timeStart, length) ==>
      WindowAfter(tps + [tp], length) == WindowAfter(tps, length) + [tp]
  {
    var all := tps + [tp];
    var win := WindowAfter(tps, length);
    assert Within(tp.timeStart, win[0].timeStart, length) ==> Moved(win, tp, length) == win + [tp] by {
      hide WindowAfter;
      assert win[0..] == win;
    }
    hide Fires, Moved;
    assert all[..|tps|] == tps && all[|tps|] == tp;
    assert forall m :: 0 <= m <= |tps| ==> all[..m] == tps[..m];
  }

  lemma QuietStart(tp: TriggerPrimitive, length: Timestamp, heavy: TPs -> bool)
    ensures WindowAfter([tp], length) == [tp] && Quiet([tp], length, heavy)
    ensures !HeavyIntervalClosed([], tp, length, heavy)
  {}
}
