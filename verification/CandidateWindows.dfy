/** What arrivals, in any order, do to the window of activities, for times and window lengths of at most 63 bits. */
module CandidateWindows {
  import opened TriggerTypes
  import opened SlidingWindows
  import opened TAWindows

  const TWO_63: int := 0x8000_0000_0000_0000

  ghost predicate InRange(tas: seq<TriggerActivity>, length: Timestamp) {
    1 <= length <= TWO_63 && forall i :: 0 <= i < |tas| ==> tas[i].timeStart < TWO_63
  }

  /** The window's activities are in order of time, and all start within its length of the first. */
  ghost predicate IsWindow(tas: seq<TriggerActivity>, length: Timestamp) {
    SortedByTime(tas) && forall i :: 0 <= i < |tas| ==> tas[i].timeStart < tas[0].timeStart + length
  }

  /** The window after `ta` arrives. */
  function Arrived(win: seq<TriggerActivity>, ta: TriggerActivity, length: Timestamp): (r: seq<TriggerActivity>)
    ensures r != []
  {
    if win == [] then [ta]
    else if Within(ta.timeStart, win[0].timeStart, length) then Inserted(win, ta)
    else MovedTo(win, ta, length)
  }

  lemma {:induction false} OutdatedSplits(tas: seq<TriggerActivity>, now: Timestamp, length: Timestamp, i: nat)
    requires SortedByTime(tas) && i <= |tas| && forall j :: 0 <= j < |tas| ==> tas[j].timeStart <= now
    ensures var k := Outdated(tas, now, length, i);
      && (forall j :: i <= j < k ==> now - tas[j].timeStart >= length)
      && (forall j :: k <= j < |tas| ==> now - tas[j].timeStart < length)
    decreases |tas| - i
  {
    if i < |tas| {
      TicksInOrder(now, tas[i].timeStart);
      if !Within(now, tas[i].timeStart, length) {
        OutdatedSplits(tas, now, length, i + 1);
      }
    }
  }

  lemma {:induction false} AllOutdated(tas: seq<TriggerActivity>, now: Timestamp, length: Timestamp, i: nat)
    requires InRange(tas, length) && i <= |tas| && forall j :: 0 <= j < |tas| ==> now < tas[j].timeStart
    ensures Outdated(tas, now, length, i) == |tas|
    decreases |tas| - i
  {
    if i < |tas| {
      TicksInOrder(now, tas[i].timeStart);
      AllOutdated(tas, now, length, i + 1);
    }
  }

  lemma PlacedAtEnd(tas: seq<TriggerActivity>, ta: TriggerActivity)
    requires forall i :: 0 <= i < |tas| ==> tas[i].timeStart <= ta.timeStart
    ensures Inserted(tas, ta) == tas + [ta]
  {
    var k := PlaceFrom(tas, ta.timeStart, 0);
    assert tas[..|tas|] == tas;
  }

  /** An activity from before the window discards it all. */
  lemma EarlyDiscards(win: seq<TriggerActivity>, ta: TriggerActivity, length: Timestamp)
    requires win != [] && IsWindow(win, length) && InRange(win, length) && ta.timeStart < win[0].timeStart
    ensures Arrived(win, ta, length) == [ta]
  {
    TicksInOrder(ta.timeStart, win[0].timeStart);
    AllOutdated(win, ta.timeStart, length, 0);
    assert Inserted([], ta) == [ta];
  }

  /** One within the window is put in its place there, after the first. */
  lemma WithinKeepsAll(win: seq<TriggerActivity>, ta: TriggerActivity, length: Timestamp)
    requires win != [] && IsWindow(win, length) && win[0].timeStart <= ta.timeStart < win[0].timeStart + length
    ensures Arrived(win, ta, length) == Inserted(win, ta) && Inserted(win, ta)[0] == win[0]
    ensures Within(ta.timeStart, win[0].timeStart, length)
  {
    TicksInOrder(ta.timeStart, win[0].timeStart);
  }

  /** One from after the window expels exactly those that start at least the window length before it. */
  lemma LateSlides(win: seq<TriggerActivity>, ta: TriggerActivity, length: Timestamp) returns (k: nat)
    requires win != [] && IsWindow(win, length) && win[0].timeStart + length <= ta.timeStart
    ensures 1 <= k <= |win| && Arrived(win, ta, length) == win[k..] + [ta]
    ensures forall i :: 0 <= i < k ==> ta.timeStart - win[i].timeStart >= length
    ensures forall i :: k <= i < |win| ==> ta.timeStart - win[i].timeStart < length
    ensures k == Outdated(win, ta.timeStart, length, 0) && !Within(ta.timeStart, win[0].timeStart, length)
  {
    TicksInOrder(ta.timeStart, win[0].timeStart);
    OutdatedSplits(win, ta.timeStart, length, 0);
    k := Outdated(win, ta.timeStart, length, 0);
    PlacedAtEnd(win[k..], ta);
  }

  /** In whatever order activities arrive, the window stays one: in order of time, starting with its first
      activity, and no longer than its length. */
  lemma ArrivedIsWindow(win: seq<TriggerActivity>, ta: TriggerActivity, length: Timestamp)
    requires IsWindow(win, length) && InRange(win + [ta], length)
    ensures IsWindow(Arrived(win, ta, length), length) && ta in Arrived(win, ta, length)
    ensures win != [] && Within(ta.timeStart, win[0].timeStart, length) ==>
      Arrived(win, ta, length)[0].timeStart == win[0].timeStart
    ensures win != [] && !Within(ta.timeStart, win[0].timeStart, length) ==>
      Arrived(win, ta, length)[0].timeStart == MovedStart(win, ta, length)
  {
    var all := win + [ta];
    assert all[|win|] == ta && forall i :: 0 <= i < |win| ==> all[i] == win[i];
    assert InRange(win, length);
    if win == [] {
    } else if ta.timeStart < win[0].timeStart {
      EarlyDiscards(win, ta, length);
      TicksInOrder(ta.timeStart, win[0].timeStart);
      EarlyStart(win, ta, length);
    } else if ta.timeStart < win[0].timeStart + length {
      WithinKeepsAll(win, ta, length);
      InsertedIsWindow(win, ta, length);
    } else {
      var k := LateSlides(win, ta, length);
      SlidIsWindow(win, ta, length, k);
    }
  }

  lemma EarlyStart(win: seq<TriggerActivity>, ta: TriggerActivity, length: Timestamp)
    requires win != [] && IsWindow(win, length) && InRange(win, length) && ta.timeStart < win[0].timeStart
    ensures MovedStart(win, ta, length) == ta.timeStart && !Within(ta.timeStart, win[0].timeStart, length)
  {
    TicksInOrder(ta.timeStart, win[0].timeStart);
    AllOutdated(win, ta.timeStart, length, 0);
  }

  lemma InsertedIsWindow(win: seq<TriggerActivity>, ta: TriggerActivity, length: Timestamp)
    requires win != [] && IsWindow(win, length) && win[0].timeStart <= ta.timeStart < win[0].timeStart + length
    ensures IsWindow(Inserted(win, ta), length) && ta in Inserted(win, ta)
  {
    InsertedIsSorted(win, ta);
    var k := PlaceFrom(win, ta.timeStart, 0);
    assert Inserted(win, ta)[k] == ta;
  }

  lemma SlidIsWindow(win: seq<TriggerActivity>, ta: TriggerActivity, length: Timestamp, k: nat)
    requires length >= 1 && k <= |win| && SortedByTime(win)
    requires forall i :: k <= i < |win| ==> ta.timeStart - length < win[i].timeStart <= ta.timeStart
    ensures IsWindow(win[k..] + [ta], length) && ta in win[k..] + [ta]
    ensures (win[k..] + [ta])[0].timeStart == if k < |win| then win[k].timeStart else ta.timeStart
  {
    var r := win[k..] + [ta];
    assert r[|r| - 1] == ta;
  }

  // ----- in order of time

  /** Those of `tas` that start less than `length` before `now`. */
  function Recent(tas: seq<TriggerActivity>, now: Timestamp, length: Timestamp): seq<TriggerActivity> {
    if tas == [] then []
    else
      var r := Recent(tas[..|tas| - 1], now, length);
      if now - tas[|tas| - 1].timeStart < length then r + [tas[|tas| - 1]] else r
  }

  ghost predicate SplitsAt(tas: seq<TriggerActivity>, now: Timestamp, length: Timestamp, k: nat) {
    && k <= |tas|
    && (forall i :: 0 <= i < k ==> now - tas[i].timeStart >= length)
    && (forall i :: k <= i < |tas| ==> now - tas[i].timeStart < length)
  }

  lemma {:induction false} RecentIsSuffix(tas: seq<TriggerActivity>, now: Timestamp, length: Timestamp, k: nat)
    requires SplitsAt(tas, now, length, k)
    ensures Recent(tas, now, length) == tas[k..]
  {
    if tas != [] {
      var n := |tas| - 1;
      if k <= n {
        RecentIsSuffix(tas[..n], now, length, k);
        assert tas[..n][k..] + [tas[n]] == tas[k..];
      } else {
        RecentIsSuffix(tas[..n], now, length, n);
      }
    }
  }

  lemma {:induction false} SortedSplits(tas: seq<TriggerActivity>, now: Timestamp, length: Timestamp) returns (k: nat)
    requires SortedByTime(tas)
    ensures SplitsAt(tas, now, length, k)
  {
    k := |tas|;
    while k > 0 && now - tas[k - 1].timeStart < length
      invariant k <= |tas| && forall i :: k <= i < |tas| ==> now - tas[i].timeStart < length
    {
      k := k - 1;
    }
  }

  /** Activities that arrive in order of time leave in the window exactly the recent ones. */
  lemma ArrivedIsRecent(tas: seq<TriggerActivity>, ta: TriggerActivity, length: Timestamp)
    requires tas != [] && SortedByTime(tas + [ta]) && length >= 1
    ensures Arrived(Recent(tas, tas[|tas| - 1].timeStart, length), ta, length) ==
            Recent(tas + [ta], ta.timeStart, length)
  {
    var n, all := |tas| - 1, tas + [ta];
    assert forall i :: 0 <= i < |tas| ==> all[i] == tas[i] && tas[i].timeStart <= all[|tas|].timeStart;
    assert SortedByTime(tas);
    var k := SortedSplits(tas, tas[n].timeStart, length);
    RecentIsSuffix(tas, tas[n].timeStart, length, k);
    var m := SlidesTo(tas, ta, length, k);
    assert SplitsAt(all, ta.timeStart, length, m);
    RecentIsSuffix(all, ta.timeStart, length, m);
    assert all[m..] == tas[m..] + [ta];
  }

  lemma SlidesTo(tas: seq<TriggerActivity>, ta: TriggerActivity, length: Timestamp, k: nat) returns (m: nat)
    requires tas != [] && SortedByTime(tas) && length >= 1 && SplitsAt(tas, tas[|tas| - 1].timeStart, length, k)
    requires forall i :: 0 <= i < |tas| ==> tas[i].timeStart <= ta.timeStart
    ensures SplitsAt(tas, ta.timeStart, length, m) && Arrived(tas[k..], ta, length) == tas[m..] + [ta]
  {
    var win := tas[k..];
    var last := tas[|tas| - 1].timeStart;
    assert IsWindow(win, length);
    if ta.timeStart < win[0].timeStart + length {
      m := k;
      WithinKeepsAll(win, ta, length);
      PlacedAtEnd(win, ta);
    } else {
      var j := LateSlides(win, ta, length);
      m := k + j;
      assert win[j..] == tas[m..];
      SplitLater(tas, ta.timeStart, length, k, j);
    }
  }

  lemma SplitLater(tas: seq<TriggerActivity>, now: Timestamp, length: Timestamp, k: nat, j: nat)
    requires tas != [] && SplitsAt(tas, tas[|tas| - 1].timeStart, length, k)
    requires tas[|tas| - 1].timeStart <= now && k + j <= |tas|
    requires forall i :: 0 <= i < j ==> now - tas[k..][i].timeStart >= length
    requires forall i :: j <= i < |tas[k..]| ==> now - tas[k..][i].timeStart < length
    ensures SplitsAt(tas, now, length, k + j)
  {
    forall i | 0 <= i < |tas|
      ensures i < k + j ==> now - tas[i].timeStart >= length
      ensures i >= k + j ==> now - tas[i].timeStart < length
    {
      assert i >= k ==> tas[k..][i - k] == tas[i];
    }
  }
}
