/** Lists of primitives sorted by channel, and the distinct channels in them. */
module ChannelLists {
  import opened TriggerTypes
  import opened GreedyRuns

  function ChannelsOf(tps: TPs): (c: seq<int>)
    ensures |c| == |tps| && forall i :: 0 <= i < |c| ==> c[i] == tps[i].channel
  {
    seq(|tps|, i requires 0 <= i < |tps| => tps[i].channel)
  }

  ghost predicate SortedByChannel(tps: TPs) {
    Sorted(ChannelsOf(tps))
  }

  /** Sorts by channel. Nothing is promised about the order of primitives on one channel. */
  method SortByChannel(tps: TPs) returns (s: TPs)
    ensures SortedByChannel(s) && multiset(s) == multiset(tps)
  {
    s := [];
    var i := 0;
    while i < |tps|
      invariant 0 <= i <= |tps|
      invariant SortedByChannel(s) && multiset(s) == multiset(tps[..i])
    {
      assert tps[..i + 1] == tps[..i] + [tps[i]];
      s := InsertByChannel(s, tps[i]);
      i := i + 1;
    }
    assert tps[..|tps|] == tps;
  }

  method InsertByChannel(s: TPs, tp: TriggerPrimitive) returns (r: TPs)
    requires SortedByChannel(s)
    ensures SortedByChannel(r) && multiset(r) == multiset(s) + multiset{tp}
  {
    var k := |s|;
    while k > 0 && s[k - 1].channel > tp.channel
      invariant 0 <= k <= |s|
      invariant forall j :: k <= j < |s| ==> s[j].channel > tp.channel
    {
      k := k - 1;
    }
    SpliceSorted(s, tp, k);
    SpliceAdds(s, tp, k);
    hide SortedByChannel;
    r := s[..k] + [tp] + s[k..];
  }

  lemma SpliceAdds(s: TPs, tp: TriggerPrimitive, k: nat)
    requires k <= |s|
    ensures multiset(s[..k] + [tp] + s[k..]) == multiset(s) + multiset{tp}
  {
    assert s == s[..k] + s[k..];
  }

  lemma SpliceSorted(s: TPs, tp: TriggerPrimitive, k: nat)
    requires SortedByChannel(s) && k <= |s|
    requires forall j :: k <= j < |s| ==> s[j].channel > tp.channel
    requires k > 0 ==> s[k - 1].channel <= tp.channel
    ensures SortedByChannel(s[..k] + [tp] + s[k..])
  {
    var r := s[..k] + [tp] + s[k..];
    var c := ChannelsOf(s);
    forall i, j | 0 <= i <= j < |r|
      ensures r[i].channel <= r[j].channel
    {
      assert i < k ==> c[i] <= c[k - 1];
      assert i < k <= j - 1 ==> c[i] <= c[j - 1];
      assert k <= i - 1 ==> c[i - 1] <= c[j - 1];
      assert j < k ==> c[i] <= c[j];
    }
  }

  // ----- distinct channels

  /** The distinct values of a sorted list, in order. */
  function Distinct(c: seq<int>): (d: seq<int>)
    ensures c != [] ==> d != [] && d[|d| - 1] == c[|c| - 1]
  {
    if c == [] then []
    else
      var d := Distinct(c[..|c| - 1]);
      if d != [] && d[|d| - 1] == c[|c| - 1] then d else d + [c[|c| - 1]]
  }

  lemma {:induction false} DistinctCorrect(c: seq<int>)
    requires Sorted(c)
    ensures Increasing(Distinct(c)) && (forall x :: x in Distinct(c) <==> x in c)
  {
    if c != [] {
      var n := |c| - 1;
      var before := c[..n];
      DistinctCorrect(before);
      assert c == before + [c[n]];
      var d := Distinct(before);
      if n > 0 {
        assert before[n - 1] == c[n - 1] <= c[n];
      }
    }
  }

  /** The distinct values of a prefix are a prefix of the distinct values. */
  lemma {:induction false} DistinctPrefix(c: seq<int>, i: nat)
    requires i <= |c|
    ensures Distinct(c[..i]) <= Distinct(c)
  {
    if i < |c| {
      DistinctPrefix(c[..|c| - 1], i);
      assert c[..|c| - 1][..i] == c[..i];
    } else {
      assert c[..i] == c;
    }
  }

  lemma DistinctStep(c: seq<int>, i: nat)
    requires i + 1 < |c|
    ensures var d := Distinct(c[..i + 1]);
      Distinct(c[..i + 2]) == if c[i] == c[i + 1] then d else d + [c[i + 1]]
  {
    assert c[..i + 2][..i + 1] == c[..i + 1];
  }

  /** An increasing list is determined by its members. */
  lemma {:induction false} IncreasingUnique(d: seq<int>, e: seq<int>)
    requires Increasing(d) && Increasing(e) && forall x :: x in d <==> x in e
    ensures d == e
  {
    if d == [] {
      assert forall i :: 0 <= i < |e| ==> e[i] in d;
    } else {
      var m, n := |d| - 1, |e| - 1;
      assert d[m] in d;
      assert e != [] && e[n] in e;
      var i :| 0 <= i < |e| && e[i] == d[m];
      var j :| 0 <= j < |d| && d[j] == e[n];
      assert d[m] == e[n];
      forall x
        ensures x in d[..m] <==> x in d && x < d[m]
        ensures x in e[..n] <==> x in e && x < e[n]
      {
        InitOfIncreasing(d, x);
        InitOfIncreasing(e, x);
      }
      IncreasingUnique(d[..m], e[..n]);
      assert d == d[..m] + [d[m]] && e == e[..n] + [e[n]];
    }
  }

  lemma InitOfIncreasing(d: seq<int>, x: int)
    requires d != [] && Increasing(d)
    ensures x in d[..|d| - 1] <==> x in d && x < d[|d| - 1]
  {
    if x in d && x < d[|d| - 1] {
      var i :| 0 <= i < |d| && d[i] == x;
      assert d[..|d| - 1][i] == x;
    }
  }

  /** `d` lists the channels of the primitives, each once, in increasing order. */
  ghost predicate ListsChannels(d: seq<int>, tps: TPs) {
    Increasing(d) && forall c :: c in d <==> exists i :: 0 <= i < |tps| && tps[i].channel == c
  }

  /** However the primitives are ordered, the distinct channels of a sorted list of them are the same list. */
  lemma DistinctListsChannels(tps: TPs, s: TPs)
    requires SortedByChannel(s) && multiset(s) == multiset(tps)
    ensures ListsChannels(Distinct(ChannelsOf(s)), tps)
    ensures forall d :: ListsChannels(d, tps) ==> d == Distinct(ChannelsOf(s))
  {
    var c := ChannelsOf(s);
    DistinctCorrect(c);
    forall x
      ensures x in c <==> exists i :: 0 <= i < |tps| && tps[i].channel == x
    {
      if x in c {
        var i :| 0 <= i < |c| && c[i] == x;
        assert s[i] in multiset(s);
        assert s[i] in tps;
      }
      if i :| 0 <= i < |tps| && tps[i].channel == x {
        assert tps[i] in multiset(tps);
        assert tps[i] in s;
        var j :| 0 <= j < |s| && s[j] == tps[i];
        assert c[j] == x;
      }
    }
    forall d | ListsChannels(d, tps)
      ensures d == Distinct(c)
    {
      IncreasingUnique(d, Distinct(c));
    }
  }

  /** Every window has its list of distinct channels. */
  lemma ChannelsHaveList(tps: TPs) returns (d: seq<int>)
    ensures ListsChannels(d, tps)
  {
    var s := Sorting(tps);
    DistinctListsChannels(tps, s);
    d := Distinct(ChannelsOf(s));
  }

  lemma {:induction false} PlaceByChannel(s: TPs, tp: TriggerPrimitive) returns (k: nat)
    ensures k <= |s| && (forall j :: k <= j < |s| ==> s[j].channel > tp.channel)
    ensures k > 0 ==> s[k - 1].channel <= tp.channel
  {
    k := 0;
    if s != [] {
      if s[|s| - 1].channel <= tp.channel {
        k := |s|;
      } else {
        k := PlaceByChannel(s[..|s| - 1], tp);
      }
    }
  }

  lemma {:induction false} Sorting(tps: TPs) returns (s: TPs)
    ensures SortedByChannel(s) && multiset(s) == multiset(tps)
  {
    s := [];
    if tps != [] {
      var n := |tps| - 1;
      s := Sorting(tps[..n]);
      var k := PlaceByChannel(s, tps[n]);
      SpliceSorted(s, tps[n], k);
      SpliceAdds(s, tps[n], k);
      hide SortedByChannel;
      assert tps == tps[..n] + [tps[n]];
      s := s[..k] + [tps[n]] + s[k..];
    }
  }

  /** The distinct channels of the primitives, in order. */
  ghost function ChannelList(tps: TPs): (d: seq<int>)
    ensures ListsChannels(d, tps)
  {
    HasChannelList(tps);
    var d :| ListsChannels(d, tps);
    d
  }

  lemma HasChannelList(tps: TPs)
    ensures exists d :: ListsChannels(d, tps)
  {
    var d := ChannelsHaveList(tps);
  }
}
