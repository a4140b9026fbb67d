/** The trigger activity maker around the clusterer: every primitive becomes a hit, every cluster handed out
    becomes a trigger activity, and old hits are dropped. */
module DbscanMaker {
  import opened Graph
  import opened TriggerTypes
  import opened Activities
  import opened SlidingWindows
  import TPWindows
  import H = Hits
  import C = Clusters
  import S = Stream
  import F = Finality
  import Components
  import opened Exactness
  import opened IncrementalDbscan

  ghost predicate HitsOfPrimitives(prims: TPs, hits: seq<HitId>) {
    forall i :: 0 <= i < |hits| ==> hits[i] < |prims|
  }

  function Inputs(prims: TPs, hits: seq<HitId>): TPs
    requires HitsOfPrimitives(prims, hits)
  {
    seq(|hits|, i requires 0 <= i < |hits| => prims[hits[i]])
  }

  /** The activity spans exactly the times and channels of its inputs, and adds up their ADC counts. */
  ghost predicate Summarises(ta: TriggerActivity, tps: TPs) {
    && ta.inputs == tps && ta.adcIntegral == AdcSum(tps)
    && if tps == [] then ta == EmptyActivity() else Spans(ta, tps, true)
  }

  /** The fields of an activity over no primitive, from which the minima and maxima start. */
  function EmptyActivity(): TriggerActivity {
    TriggerActivity(TWO_64 - 1, 0, 0x7FFF_FFFF, 0, 0, [])
  }

  function Grown(ta: TriggerActivity, tp: TriggerPrimitive): TriggerActivity {
    Extended(ta, tp, true).(adcIntegral := ta.adcIntegral + tp.adcIntegral, inputs := ta.inputs + [tp])
  }

  lemma SpanOnly(ta: TriggerActivity, ta': TriggerActivity, tps: TPs)
    requires Spans(ta, tps, true) && ta' == ta.(adcIntegral := ta'.adcIntegral, inputs := ta'.inputs)
    ensures Spans(ta', tps, true)
  {
    assert forall tp :: tp in tps && Covers(ta, tp, true) ==> Covers(ta', tp, true);
  }

  lemma FirstSpans(tp: TriggerPrimitive)
    ensures Spans(Extended(EmptyActivity(), tp, true), [tp], true)
  {
    SpansOne(Extended(EmptyActivity(), tp, true), tp, true);
  }

  lemma GrownSummarises(ta: TriggerActivity, tps: TPs, tp: TriggerPrimitive)
    requires Summarises(ta, tps)
    ensures Summarises(Grown(ta, tp), tps + [tp])
  {
    hide Spans, Extended;
    TPWindows.AdcSumLast(tps, tp);
    if tps == [] {
      FirstSpans(tp);
      assert tps + [tp] == [tp];
    } else {
      ExtendedSpans(ta, tps, tp, true);
    }
    SpanOnly(Extended(ta, tp, true), Grown(ta, tp), tps + [tp]);
  }

  lemma NothingSummarised()
    ensures Summarises(EmptyActivity(), [])
  {
  }

  method MakeActivity(prims: TPs, hits: seq<HitId>) returns (ta: TriggerActivity)
    requires HitsOfPrimitives(prims, hits)
    ensures Summarises(ta, Inputs(prims, hits))
  {
    NothingSummarised();
    hide Summarises, Grown;
    ta := EmptyActivity();
    var i := 0;
    ghost var all := Inputs(prims, hits);
    assert all[..0] == [];
    while i < |hits|
      invariant 0 <= i <= |hits|
      invariant Summarises(ta, all[..i])
    {
      GrownSummarises(ta, all[..i], prims[hits[i]]);
      assert all[..i] + [prims[hits[i]]] == all[..i + 1];
      ta := Grown(ta, prims[hits[i]]);
      i := i + 1;
    }
    assert all[..|hits|] == all;
  }

  // ----- hit times

  /** The time that the clusterer counts from: that of the first primitive with a non-zero time. */
  function Origin(prims: TPs): nat {
    if prims == [] then 0
    else
      var o := Origin(prims[..|prims| - 1]);
      if o == 0 then prims[|prims| - 1].timeStart else o
  }

  function HitTime(origin: nat, t: nat): real {
    0.01 * (t - origin) as real
  }

  /** Each hit has the channel of its primitive, and its time counted from the origin in hundreds of ticks. */
  ghost predicate HitOf(prims: TPs, pts: seq<Point>, i: nat)
    requires i < |prims| && i < |pts|
  {
    pts[i].chan == prims[i].channel &&
    pts[i].time == if prims[i].timeStart == 0 then 0.0 else HitTime(Origin(prims), prims[i].timeStart)
  }

  ghost predicate HitsOf(prims: TPs, pts: seq<Point>) {
    |pts| == |prims| && forall i :: 0 <= i < |prims| ==> HitOf(prims, pts, i)
  }

  lemma {:induction false} OriginIsEarly(prims: TPs)
    requires InTimeOrder(prims)
    ensures forall i :: 0 <= i < |prims| && prims[i].timeStart != 0 ==> 0 < Origin(prims) <= prims[i].timeStart
    ensures Origin(prims) == 0 ==> forall i :: 0 <= i < |prims| ==> prims[i].timeStart == 0
    ensures Origin(prims) != 0 ==> exists i :: 0 <= i < |prims| && prims[i].timeStart == Origin(prims)
  {
    if prims != [] {
      var n := |prims| - 1;
      OriginIsEarly(prims[..n]);
      if Origin(prims[..n]) != 0 {
        var i :| 0 <= i < n && prims[..n][i].timeStart == Origin(prims[..n]);
        assert prims[i].timeStart == Origin(prims);
      } else {
        assert prims[n].timeStart == Origin(prims);
      }
    }
  }

  lemma HitsGrow(prims: TPs, pts: seq<Point>, tp: TriggerPrimitive)
    requires InTimeOrder(prims + [tp]) && HitsOf(prims, pts) && TimeOrdered(pts)
    ensures var origin := Origin(prims + [tp]); var p := Point(HitTime(origin, tp.timeStart), tp.channel);
      && origin == (if Origin(prims) == 0 then tp.timeStart else Origin(prims)) && origin <= tp.timeStart
      && HitsOf(prims + [tp], pts + [p]) && TimeOrdered(pts + [p])
  {
    var more := prims + [tp];
    assert more[..|prims|] == prims;
    assert forall i :: 0 <= i < |prims| ==> more[i] == prims[i];
    assert InTimeOrder(prims);
    OriginIsEarly(prims);
    OriginIsEarly(more);
    var origin := Origin(more);
    var p := Point(HitTime(origin, tp.timeStart), tp.channel);
    var all := pts + [p];
    forall i | 0 <= i < |more|
      ensures HitOf(more, all, i) && all[i].time <= p.time
    {
      if i < |prims| {
        assert HitOf(prims, pts, i);
        assert more[i].timeStart <= more[|prims|].timeStart;
      }
    }
    forall i, j | 0 <= i <= j < |all|
      ensures all[i].time <= all[j].time
    {
    }
  }

  // ----- hit times in ticks

  /** `first` is the earliest time of a primitive that is not 0; if there is none, it is 0. */
  ghost predicate IsFirstTime(prims: TPs, first: nat) {
    && (forall i :: 0 <= i < |prims| && prims[i].timeStart != 0 ==> 0 < first <= prims[i].timeStart)
    && (if first == 0 then forall i :: 0 <= i < |prims| ==> prims[i].timeStart == 0
        else exists i :: 0 <= i < |prims| && prims[i].timeStart == first)
  }

  /** The ticks from the first time until `t`; time 0 counts as the first. */
  function Since(t: nat, first: nat): int {
    if t == 0 then 0 else t - first
  }

  /** A hit stands on the channel of its primitive, one hundredth of its ticks after the first. */
  lemma HitInTicks(prims: TPs, pts: seq<Point>, first: nat, i: nat)
    requires InTimeOrder(prims) && HitsOf(prims, pts) && IsFirstTime(prims, first) && i < |prims|
    ensures pts[i].chan == prims[i].channel && 100.0 * pts[i].time == Since(prims[i].timeStart, first) as real
  {
    OriginIsEarly(prims);
    assert HitOf(prims, pts, i);
    hide Origin;
  }

  /** So between two primitives with times other than 0 a hundred units of hit time are a tick. */
  lemma HitsApart(prims: TPs, pts: seq<Point>, i: nat, j: nat)
    requires HitsOf(prims, pts) && i < |prims| && j < |prims|
    requires prims[i].timeStart != 0 && prims[j].timeStart != 0
    ensures 100.0 * (pts[j].time - pts[i].time) == (prims[j].timeStart - prims[i].timeStart) as real
  {
    assert HitOf(prims, pts, i) && HitOf(prims, pts, j);
    hide Origin;
  }

  /** A channel counting as a hundred ticks, the primitives are closer than a hundred times eps. */
  ghost predicate CloseInTicks(prims: TPs, eps: real, first: nat, i: nat, j: nat)
    requires i < |prims| && j < |prims|
  {
    var dt := Since(prims[i].timeStart, first) as real - Since(prims[j].timeStart, first) as real;
    var dc := 100.0 * (prims[i].channel as real - prims[j].channel as real);
    dt * dt + dc * dc < (100.0 * eps) * (100.0 * eps)
  }

  /** The first primitive, and all of the hits `s`, are more than a hundred times eps ticks before the latest. */
  ghost predicate IsCompleteInTicks(prims: TPs, eps: real, first: nat, s: set<HitId>) {
    prims != [] &&
    var reach := Since(prims[|prims| - 1].timeStart, first) as real - 100.0 * eps;
    0.0 < reach && forall h: HitId :: h in s && h < |prims| ==> Since(prims[h].timeStart, first) as real < reach
  }

  /** Two primitives are linked exactly when they are close in ticks. */
  lemma LinkedInTicks(prims: TPs, pts: seq<Point>, eps: real, first: nat, i: nat, j: nat)
    requires InTimeOrder(prims) && HitsOf(prims, pts) && IsFirstTime(prims, first) && i < |prims| && j < |prims|
    ensures Adjacent(pts, eps, i, j) <==> i != j && CloseInTicks(prims, eps, first, i, j)
  {
    HitInTicks(prims, pts, first, i);
    HitInTicks(prims, pts, first, j);
    AdjacentMeans(pts, eps, i, j);
    hide HitsOf, Adjacent;
    Hundredfold(pts[i].time - pts[j].time, pts[i].chan as real - pts[j].chan as real, eps);
  }

  lemma Hundredfold(dt: real, dc: real, eps: real)
    ensures (100.0 * dt) * (100.0 * dt) + (100.0 * dc) * (100.0 * dc) == 10000.0 * (dt * dt + dc * dc)
    ensures (100.0 * eps) * (100.0 * eps) == 10000.0 * (eps * eps)
  {
  }

  /** And hits are complete exactly when they are in ticks. */
  lemma CompleteInTicks(prims: TPs, pts: seq<Point>, eps: real, first: nat, s: set<HitId>)
    requires InTimeOrder(prims) && HitsOf(prims, pts) && IsFirstTime(prims, first)
    ensures Components.IsComplete(pts, eps, s) <==> IsCompleteInTicks(prims, eps, first, s)
  {
    if prims != [] {
      HitInTicks(prims, pts, first, |prims| - 1);
      var reach := Since(prims[|prims| - 1].timeStart, first) as real - 100.0 * eps;
      forall h: HitId | h in s && h < |prims|
        ensures 100.0 * pts[h].time == Since(prims[h].timeStart, first) as real
      {
        HitInTicks(prims, pts, first, h);
      }
      hide HitOf, InTimeOrder;
    }
  }

  // ----- the maker

  /** The activities for clusters, in order. */
  ghost predicate ActivitiesOf(tas: seq<TriggerActivity>, prims: TPs, clusters: seq<C.Cluster>) {
    |tas| == |clusters| && forall i :: 0 <= i < |tas| ==>
      HitsOfPrimitives(prims, clusters[i].hits) && Summarises(tas[i], Inputs(prims, clusters[i].hits))
  }

  lemma InputsStay(prims: TPs, tp: TriggerPrimitive, hits: seq<HitId>)
    requires HitsOfPrimitives(prims, hits)
    ensures HitsOfPrimitives(prims + [tp], hits) && Inputs(prims + [tp], hits) == Inputs(prims, hits)
  {
  }

  lemma ActivitiesStay(tas: seq<TriggerActivity>, prims: TPs, tp: TriggerPrimitive, clusters: seq<C.Cluster>)
    requires ActivitiesOf(tas, prims, clusters)
    ensures ActivitiesOf(tas, prims + [tp], clusters)
  {
    hide Summarises, HitsOfPrimitives, Inputs;
    forall i | 0 <= i < |tas|
      ensures HitsOfPrimitives(prims + [tp], clusters[i].hits)
      ensures Summarises(tas[i], Inputs(prims + [tp], clusters[i].hits))
    {
      InputsStay(prims, tp, clusters[i].hits);
    }
  }

  lemma MoreActivities(tas: seq<TriggerActivity>, more: seq<TriggerActivity>, prims: TPs, clusters: seq<C.Cluster>,
                       further: seq<C.Cluster>)
    requires ActivitiesOf(tas, prims, clusters) && ActivitiesOf(more, prims, further)
    ensures ActivitiesOf(tas + more, prims, clusters + further)
  {
    hide Summarises, HitsOfPrimitives, Inputs;
  }

  lemma ValidInOrder(d: IncrementalDBSCAN)
    requires d.Valid()
    ensures TimeOrdered(d.arrived)
  {
  }

  lemma CompletedHitsHavePrimitives(d: IncrementalDBSCAN, prims: TPs, i: nat)
    requires d.Valid() && |prims| == |d.arrived| && i < |d.handedOut|
    ensures HitsOfPrimitives(prims, d.handedOut[i].hits)
  {
    F.CompletedAreFinished(d.arrived, d.Cfg(), i => false, i);
  }

  class TriggerActivityMakerDBSCAN {
    const dbscan: IncrementalDBSCAN
    var firstPrimTime: nat
    /** The primitives of the hits, by hit number. */
    var primitives: TPs

    /** All activities made since construction. */
    ghost var emitted: seq<TriggerActivity>

    ghost predicate HitsAreSound()
      reads this, dbscan
    {
      && dbscan.Valid() && InTimeOrder(primitives)
      && HitsOf(primitives, dbscan.arrived) && firstPrimTime == Origin(primitives)
    }

    ghost predicate Valid()
      reads this, dbscan
    {
      HitsAreSound() && ActivitiesOf(emitted, primitives, dbscan.handedOut)
    }

    constructor (eps: nat, minPts: nat)
      ensures Valid() && fresh(dbscan) && primitives == [] && emitted == []
      ensures dbscan.eps == eps as real && dbscan.minPts == minPts
      ensures dbscan.handedOut == []
    {
      dbscan := new IncrementalDBSCAN(eps as real, minPts, 0);
      firstPrimTime, primitives, emitted := 0, [], [];
    }

    method AddPrimitive(tp: TriggerPrimitive) returns (completed: seq<C.Cluster>)
      requires HitsAreSound() && InTimeOrder(primitives + [tp])
      modifies this`firstPrimTime, this`primitives, dbscan
      ensures HitsAreSound() && primitives == old(primitives) + [tp]
      ensures dbscan.handedOut == old(dbscan.handedOut) + completed
    {
      hide IncrementalDBSCAN.Valid, Origin, HitTime, HitsOf, InTimeOrder, TimeOrdered;
      ValidInOrder(dbscan);
      HitsGrow(primitives, dbscan.arrived, tp);
      if firstPrimTime == 0 {
        firstPrimTime := tp.timeStart;
      }
      var time := HitTime(firstPrimTime, tp.timeStart);
      primitives := primitives + [tp];
      completed := dbscan.AddPoint(time, tp.channel);
    }

    /** One activity for each cluster that the primitive completes, over exactly the primitives of its hits. */
    method Process(tp: TriggerPrimitive) returns (tas: seq<TriggerActivity>)
      requires Valid() && InTimeOrder(primitives + [tp])
      modifies this, dbscan
      ensures Valid() && primitives == old(primitives) + [tp] && emitted == old(emitted) + tas
      ensures old(dbscan.handedOut) <= dbscan.handedOut
      ensures forall h :: h in dbscan.hits ==> S.IsRecent(dbscan.BookOf(), dbscan.latestTime, dbscan.eps, h)
      ensures ActivitiesOf(tas, primitives, dbscan.handedOut[|old(dbscan.handedOut)|..])
    {
      hide IncrementalDBSCAN.Valid, Summarises, InTimeOrder, HitOf, Origin, ActivitiesOf, S.IsRecent;
      ghost var earlier := dbscan.handedOut;
      ActivitiesStay(emitted, primitives, tp, earlier);
      var completed := AddPrimitive(tp);
      tas := MakeActivities(completed, |earlier|);
      MoreActivities(emitted, tas, primitives, earlier, completed);
      emitted := emitted + tas;
      dbscan.TrimHits();
    }

    method MakeActivities(completed: seq<C.Cluster>, ghost first: nat) returns (tas: seq<TriggerActivity>)
      requires HitsAreSound() && first <= |dbscan.handedOut| && dbscan.handedOut[first..] == completed
      ensures ActivitiesOf(tas, primitives, completed)
    {
      hide IncrementalDBSCAN.Valid, Summarises, InTimeOrder, HitOf, Origin;
      tas := [];
      for i := 0 to |completed|
        invariant ActivitiesOf(tas, primitives, completed[..i])
      {
        CompletedHitsHavePrimitives(dbscan, primitives, first + i);
        var ta := MakeActivity(primitives, completed[i].hits);
        tas := tas + [ta];
      }
      assert completed[..|completed|] == completed;
    }
  }

  /** At any time, for minPts <= 3, the hit sets of the clusters that the maker's clusterer holds or has handed
      out are exactly the connected components of its hits with at least minPts members. */
  lemma MakerFindsComponents(m: TriggerActivityMakerDBSCAN, s: set<HitId>)
    requires m.Valid() && m.dbscan.minPts <= 3
    ensures (exists k :: k in m.dbscan.clusters && H.Members(m.dbscan.clusters[k].hits) == s)
         || (exists i :: 0 <= i < |m.dbscan.handedOut| && H.Members(m.dbscan.handedOut[i].hits) == s)
      <==> Components.IsLargeComponent(m.dbscan.arrived, m.dbscan.Cfg(), s)
  {
    var d := m.dbscan;
    Components.ClustersAreComponents(d.arrived, d.Cfg(), i => false, s);
    hide S.Run, S.Valid, Components.IsLargeComponent;
    assert d.clusters == d.BookOf().clusters;
  }

  // ----- the activities of a whole run

  /** The activity is over the primitives of exactly the hits of `s`, each once. */
  ghost predicate IsOverHits(ta: TriggerActivity, prims: TPs, s: set<HitId>) {
    exists hits ::
      H.Members(hits) == s && |hits| == |s| && HitsOfPrimitives(prims, hits) && Summarises(ta, Inputs(prims, hits))
  }

  lemma HandedOutOnce(pts: seq<Point>, cfg: S.Config, i: nat)
    requires cfg.eps >= 0.0 && TimeOrdered(pts) && i < |S.Run(pts, cfg, i => false).completed|
    ensures var hits := S.Run(pts, cfg, i => false).completed[i].hits; |H.Members(hits)| == |hits|
  {
    F.CompletedAreFinished(pts, cfg, i => false, i);
    hide S.Run;
    var o := S.Run(pts, cfg, i => false);
    HitSetSize(o.state.book.pool, o.completed[i].hits);
  }

  ghost function HitSets(clusters: seq<C.Cluster>): seq<set<HitId>> {
    seq(|clusters|, i requires 0 <= i < |clusters| => H.Members(clusters[i].hits))
  }

  /** The hit sets of the clusters handed out. */
  ghost predicate AreCompleteComponents(pts: seq<Point>, cfg: S.Config, comps: seq<set<HitId>>) {
    && (forall i, j :: 0 <= i < j < |comps| ==> comps[i] !! comps[j])
    && (forall s :: s in comps <==> Components.IsLargeComponent(pts, cfg, s) && Components.IsComplete(pts, cfg.eps, s))
  }

  lemma InHitSets(o: S.Outcome, s: set<HitId>)
    ensures s in HitSets(o.completed) <==> Components.IsHandedOut(o, s)
  {
    var comps := HitSets(o.completed);
    assert forall i :: 0 <= i < |comps| ==> comps[i] == H.Members(o.completed[i].hits);
    if i :| 0 <= i < |o.completed| && H.Members(o.completed[i].hits) == s {
      assert comps[i] == s;
    }
  }

  lemma HandedOutAreDisjoint(pts: seq<Point>, cfg: S.Config, trim: nat -> bool, i: nat, j: nat)
    requires cfg.eps >= 0.0 && cfg.minPts <= 3 && TimeOrdered(pts)
    requires i < j < |S.Run(pts, cfg, trim).completed|
    ensures var comps := HitSets(S.Run(pts, cfg, trim).completed); comps[i] !! comps[j]
  {
    var done := S.Run(pts, cfg, trim).completed;
    forall h | h in done[i].hits
      ensures h !in done[j].hits
    {
      Components.EachHitInOneCluster(pts, cfg, trim, h);
    }
  }

  lemma InHitSetsWhenComplete(pts: seq<Point>, cfg: S.Config, trim: nat -> bool, s: set<HitId>)
    requires cfg.eps >= 0.0 && cfg.minPts <= 3 && TimeOrdered(pts)
    ensures s in HitSets(S.Run(pts, cfg, trim).completed)
      <==> Components.IsLargeComponent(pts, cfg, s) && Components.IsComplete(pts, cfg.eps, s)
  {
    hide S.Run, S.Valid, Components.IsLargeComponent, Components.IsComplete, Components.IsHandedOut, HitSets;
    Components.HandedOutAreComplete(pts, cfg, trim, s);
    InHitSets(S.Run(pts, cfg, trim), s);
  }

  lemma HandedOutAreCompleteComponents(pts: seq<Point>, cfg: S.Config, trim: nat -> bool)
    requires cfg.eps >= 0.0 && cfg.minPts <= 3 && TimeOrdered(pts)
    ensures AreCompleteComponents(pts, cfg, HitSets(S.Run(pts, cfg, trim).completed))
  {
    hide S.Run, S.Valid, Components.IsLargeComponent, Components.IsComplete, H.Members;
    var done := S.Run(pts, cfg, trim).completed;
    var comps := HitSets(done);
    assert |comps| == |done|;
    hide HitSets;
    forall i, j | 0 <= i < j < |comps|
      ensures comps[i] !! comps[j]
    {
      HandedOutAreDisjoint(pts, cfg, trim, i, j);
    }
    forall s
      ensures s in comps <==> Components.IsLargeComponent(pts, cfg, s) && Components.IsComplete(pts, cfg.eps, s)
    {
      InHitSetsWhenComplete(pts, cfg, trim, s);
    }
  }

  /** For minPts <= 3, the activities that the maker has emitted over its whole life are over exactly the large
      components of its hits that are complete: one activity for each component, over each of its hits once. */
  lemma EmittedAreComponents(m: TriggerActivityMakerDBSCAN) returns (comps: seq<set<HitId>>)
    requires m.Valid() && m.dbscan.minPts <= 3
    ensures |comps| == |m.emitted|
    ensures forall i :: 0 <= i < |comps| ==> IsOverHits(m.emitted[i], m.primitives, comps[i])
    ensures forall i, j :: 0 <= i < j < |comps| ==> comps[i] !! comps[j]
    ensures var pts, cfg := m.dbscan.arrived, m.dbscan.Cfg();
      forall s :: s in comps <==> Components.IsLargeComponent(pts, cfg, s) && Components.IsComplete(pts, cfg.eps, s)
  {
    var pts, cfg := m.dbscan.arrived, m.dbscan.Cfg();
    comps := HitSets(m.dbscan.handedOut);
    HandedOutAreCompleteComponents(pts, cfg, i => false);
    hide S.Run, S.Valid, Components.IsLargeComponent, Components.IsComplete, Summarises;
    forall i | 0 <= i < |comps|
      ensures IsOverHits(m.emitted[i], m.primitives, comps[i])
    {
      HandedOutOnce(pts, cfg, i);
    }
  }

  lemma FirstTimeIsOrigin(prims: TPs)
    requires InTimeOrder(prims)
    ensures IsFirstTime(prims, Origin(prims))
  {
    OriginIsEarly(prims);
    hide Origin;
  }

  /** What the graph of the maker's hits is in ticks and channels of its primitives, and when its components are
      complete. */
  lemma GraphInTicks(m: TriggerActivityMakerDBSCAN)
    requires m.Valid()
    ensures IsFirstTime(m.primitives, m.firstPrimTime) && |m.dbscan.arrived| == |m.primitives|
    ensures forall i: HitId, j: HitId :: i < |m.primitives| && j < |m.primitives| ==>
      (Adjacent(m.dbscan.arrived, m.dbscan.eps, i, j) <==>
        i != j && CloseInTicks(m.primitives, m.dbscan.eps, m.firstPrimTime, i, j))
    ensures forall s :: Components.IsComplete(m.dbscan.arrived, m.dbscan.eps, s) <==>
      IsCompleteInTicks(m.primitives, m.dbscan.eps, m.firstPrimTime, s)
  {
    hide IncrementalDBSCAN.Valid, HitOf, InTimeOrder, Adjacent, Components.IsComplete, ActivitiesOf, CloseInTicks;
    hide IsCompleteInTicks;
    var prims, pts, eps, first := m.primitives, m.dbscan.arrived, m.dbscan.eps, m.firstPrimTime;
    FirstTimeIsOrigin(prims);
    forall i: HitId, j: HitId | i < |prims| && j < |prims|
      ensures Adjacent(pts, eps, i, j) <==> i != j && CloseInTicks(prims, eps, first, i, j)
    {
      LinkedInTicks(prims, pts, eps, first, i, j);
    }
    forall s
      ensures Components.IsComplete(pts, eps, s) <==> IsCompleteInTicks(prims, eps, first, s)
    {
      CompleteInTicks(prims, pts, eps, first, s);
    }
  }
}
