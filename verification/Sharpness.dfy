/** Clusters are the large connected components for every input only when minPts <= 3. */
module Sharpness {
  import opened Graph
  import opened Hits
  import opened Clusters
  import opened Exactness
  import opened Collections
  import opened Stream
  import opened Finality
  import opened Components

  ghost function NeighbourSet(pts: seq<Point>, eps: real, h: HitId): set<HitId> {
    set g: HitId | 0 <= g < |pts| && Adjacent(pts, eps, h, g)
  }

  /** No point has enough neighbours to be core. */
  ghost predicate CoreFree(pts: seq<Point>, eps: real, minPts: nat) {
    forall h: HitId :: h < |pts| ==> |NeighbourSet(pts, eps, h)| + 1 < minPts
  }

  lemma CoreFreePrefix(pts: seq<Point>, p: Point, eps: real, minPts: nat)
    requires CoreFree(pts + [p], eps, minPts)
    ensures CoreFree(pts, eps, minPts)
  {
    forall h: HitId | h < |pts|
      ensures |NeighbourSet(pts, eps, h)| + 1 < minPts
    {
      SubsetSize(NeighbourSet(pts, eps, h), NeighbourSet(pts + [p], eps, h));
    }
  }

  lemma CoreFreePool(pts: seq<Point>, eps: real, minPts: nat, pool: Pool, h: HitId)
    requires CoreFree(pts, eps, minPts) && Linked(pool, pts, eps) && h < |pool|
    ensures !pool[h].IsCore(minPts)
  {
    assert HitSetList(pool, h);
    HitSetSize(pool, pool[h].neighbours);
    assert Members(pool[h].neighbours) == NeighbourSet(pts, eps, h);
  }

  ghost predicate NoCluster(st: State) {
    st.book.clusters == map[] && forall h: HitId :: h < |st.book.pool| ==> st.book.pool[h].cluster == UNDEFINED_CLUSTER
  }

  lemma {:induction false} NoStartWithoutCore(b: Book, n: HitId, ns: seq<HitId>, i: nat, minPts: nat)
    requires Sane(b) && n < |b.pool| && InPool(b.pool, ns) && i <= |ns|
    requires forall h: HitId :: h < |b.pool| ==> !b.pool[h].IsCore(minPts)
    ensures StartAtNeighbours(b, n, ns, i, minPts) == b
    decreases |ns| - i
  {
    if i < |ns| {
      NoStartWithoutCore(b, n, ns, i + 1, minPts);
    }
  }

  lemma {:induction false} SweepOfNone(now: real, eps: real, j: nat)
    ensures Sweep(map[], now, eps, j) == Swept(map[], [])
  {
    if j > 0 {
      SweepOfNone(now, eps, j - 1);
    }
  }

  lemma ArriveWithoutCore(pts: seq<Point>, cfg: Config, st: State, p: Point)
    requires cfg.eps >= 0.0 && Valid(pts, cfg, st) && TimeOrdered(pts + [p])
    requires CoreFree(pts + [p], cfg.eps, cfg.minPts) && NoCluster(st)
    ensures Ready(st, p, cfg) && NoCluster(Arrive(st, p, cfg).state) && Arrive(st, p, cfg).completed == []
  {
    var n, more := |pts|, pts + [p];
    ArriveReady(pts, cfg, st, p);
    LinkCorrect(pts, cfg, st, p);
    var b := st.book.(pool := Link(st, p, cfg));
    forall h: HitId | h < |b.pool|
      ensures !b.pool[h].IsCore(cfg.minPts)
    {
      CoreFreePool(more, cfg.eps, cfg.minPts, b.pool, h);
    }
    hide Link, Linked, Valid, CoreFree;
    NoStartWithoutCore(b, n, b.pool[n].neighbours, 0, cfg.minPts);
    SweepOfNone(p.time, cfg.eps, b.next);
  }

  /** Without core hits there are no clusters, for every minPts. */
  lemma {:induction false} NoCoreNoCluster(pts: seq<Point>, cfg: Config, trim: nat -> bool)
    requires cfg.eps >= 0.0 && TimeOrdered(pts) && CoreFree(pts, cfg.eps, cfg.minPts)
    ensures NoCluster(Run(pts, cfg, trim).state) && Run(pts, cfg, trim).completed == []
  {
    if pts == [] {
      EmptyRun(cfg, trim);
    } else {
      var n := |pts| - 1;
      RunStep(pts, cfg, trim);
      CoreFreePrefix(pts[..n], pts[n], cfg.eps, cfg.minPts);
      NoCoreNoCluster(pts[..n], cfg, trim);
      hide Run, Arrive, Valid, CoreFree;
      ArriveWithoutCore(pts[..n], cfg, Run(pts[..n], cfg, trim).state, pts[n]);
    }
  }

  // ----- a chain of hits, each close only to the ones next to it

  /** Hits on one channel, half of `eps` apart. */
  function Chain(m: nat, eps: real): seq<Point> {
    seq(m, i requires 0 <= i < m => Point(i as real * (eps / 2.0), 0))
  }

  lemma ChainInOrder(m: nat, eps: real)
    requires eps >= 0.0
    ensures TimeOrdered(Chain(m, eps))
  {
    forall i: nat, j: nat | i <= j < m
      ensures Chain(m, eps)[i].time <= Chain(m, eps)[j].time
    {
      ChainTimes(m, eps, i, j);
    }
    hide Chain;
  }

  lemma ChainTimes(m: nat, eps: real, i: nat, j: nat)
    requires eps >= 0.0 && i <= j < m
    ensures Chain(m, eps)[i].time <= Chain(m, eps)[j].time
  {
    var h, x, y := eps / 2.0, i as real, j as real;
    assert Chain(m, eps)[i].time == x * h && Chain(m, eps)[j].time == y * h;
    hide Chain;
    Scaled(x, y, h);
  }

  lemma Scaled(x: real, y: real, h: real)
    requires x <= y && h >= 0.0
    ensures x * h <= y * h
  {
    assert (y - x) * h >= 0.0;
  }

  lemma SqrOfTwice(h: real)
    requires h > 0.0
    ensures Sqr(h) < Sqr(2.0 * h)
  {
    var q := h * h;
    assert q >= 0.0 && q / h == h;
    assert Sqr(2.0 * h) == 4.0 * q;
    assert Sqr(h) == q;
  }

  lemma SqrOfMultiple(k: real, h: real)
    requires h > 0.0 && k >= 2.0
    ensures Sqr(k * h) >= Sqr(2.0 * h)
  {
    Scaled(2.0, k, h);
    SqrMonotone(k * h, 2.0 * h);
  }

  lemma ChainDistance(m: nat, eps: real, a: HitId, b: HitId)
    requires eps > 0.0 && b < a < m
    ensures DistanceSqr(Chain(m, eps)[a], Chain(m, eps)[b]) < eps * eps <==> a == b + 1
  {
    var h, k := eps / 2.0, (a - b) as real;
    assert a as real * h - b as real * h == k * h;
    SqrOfTwice(h);
    assert Sqr(2.0 * h) == eps * eps;
    if k >= 2.0 {
      SqrOfMultiple(k, h);
    } else {
      assert k * h == h;
    }
  }

  lemma ChainAdjacent(m: nat, eps: real, a: HitId, b: HitId)
    requires eps > 0.0 && a < m && b < m
    ensures Adjacent(Chain(m, eps), eps, a, b) <==> a == b + 1 || b == a + 1
  {
    if b < a {
      ChainDistance(m, eps, a, b);
    } else if a < b {
      ChainDistance(m, eps, b, a);
      AdjacentSymmetric(Chain(m, eps), eps, a, b);
    }
  }

  lemma ChainCoreFree(m: nat, eps: real, minPts: nat)
    requires eps > 0.0 && minPts >= 4
    ensures CoreFree(Chain(m, eps), eps, minPts)
  {
    forall h: HitId | h < m
      ensures |NeighbourSet(Chain(m, eps), eps, h)| + 1 < minPts
    {
      forall g | g in NeighbourSet(Chain(m, eps), eps, h)
        ensures g in {h - 1, h + 1}
      {
        ChainAdjacent(m, eps, h, g);
      }
      var both: set<int> := {h - 1, h + 1};
      var s := NeighbourSet(Chain(m, eps), eps, h);
      IntSubsetSize(s, both);
    }
  }

  lemma {:induction false} IntSubsetSize(s: set<HitId>, t: set<int>)
    requires forall x :: x in s ==> x in t
    ensures |s| <= |t|
  {
    if s != {} {
      var x :| x in s;
      IntSubsetSize(s - {x}, t - {x});
    }
  }

  lemma {:induction false} ChainConnected(m: nat, eps: real, a: HitId)
    requires eps > 0.0 && a < m
    ensures Connected(Chain(m, eps), eps, 0, a)
  {
    if a == 0 {
      ConnectedReflexive(Chain(m, eps), eps, 0);
    } else {
      ChainConnected(m, eps, a - 1);
      ChainAdjacent(m, eps, a - 1, a);
      ConnectedEdge(Chain(m, eps), eps, a - 1, a);
      ConnectedTransitive(Chain(m, eps), eps, 0, a - 1, a);
    }
  }

  /** The hits numbered below `m`. */
  ghost function Below(m: nat): (s: set<HitId>)
    ensures |s| == m
    ensures forall h: HitId :: h in s <==> h < m
  {
    if m == 0 then {} else Below(m - 1) + {m - 1}
  }

  lemma ChainIsComponent(m: nat, eps: real)
    requires m > 0 && eps > 0.0
    ensures Component(Chain(m, eps), eps, 0) == Below(m)
  {
    forall a: HitId | a < m
      ensures Connected(Chain(m, eps), eps, 0, a)
    {
      ChainConnected(m, eps, a);
    }
  }

  /** For minPts >= 4 and every eps above 0, a chain of minPts hits is a large component that never becomes a
      cluster. */
  lemma ChainIsNoCluster(cfg: Config, trim: nat -> bool)
    requires cfg.minPts >= 4 && cfg.eps > 0.0
    ensures TimeOrdered(Chain(cfg.minPts, cfg.eps))
    ensures var pts, s := Chain(cfg.minPts, cfg.eps), Below(cfg.minPts);
      var o := Run(pts, cfg, trim);
      IsLargeComponent(pts, cfg, s) && !IsLive(o, s) && !IsHandedOut(o, s)
  {
    ChainInOrder(cfg.minPts, cfg.eps);
    ChainCoreFree(cfg.minPts, cfg.eps, cfg.minPts);
    NoCoreNoCluster(Chain(cfg.minPts, cfg.eps), cfg, trim);
    hide Run;
    ChainIsComponent(cfg.minPts, cfg.eps);
  }

  // ----- without reach

  lemma NothingAdjacent(pts: seq<Point>, a: HitId, b: HitId)
    ensures !Adjacent(pts, 0.0, a, b)
  {
    if a < |pts| && b < |pts| {
      SquareNotNegative(pts[a].time - pts[b].time);
      SquareNotNegative((pts[a].chan - pts[b].chan) as real);
    }
  }

  lemma AloneInComponent(pts: seq<Point>, h: HitId)
    requires h < |pts|
    ensures Component(pts, 0.0, h) == {h}
  {
    ConnectedReflexive(pts, 0.0, h);
    forall g: HitId | Connected(pts, 0.0, h, g)
      ensures g == h
    {
      forall x: HitId, y: HitId
        ensures !Adjacent(pts, 0.0, x, y)
      {
        NothingAdjacent(pts, x, y);
      }
      ClosedSetHoldsConnected(pts, 0.0, {h}, h, g);
    }
  }

  /** With eps 0 and minPts >= 4 there are no clusters and no large components. */
  lemma NothingWithoutReach(pts: seq<Point>, cfg: Config, trim: nat -> bool, s: set<HitId>)
    requires cfg.minPts >= 4 && cfg.eps == 0.0 && TimeOrdered(pts)
    ensures !IsLargeComponent(pts, cfg, s)
    ensures var o := Run(pts, cfg, trim); !IsLive(o, s) && !IsHandedOut(o, s)
  {
    forall h: HitId | h < |pts|
      ensures Component(pts, 0.0, h) == {h} && NeighbourSet(pts, 0.0, h) == {}
    {
      AloneInComponent(pts, h);
      forall g: HitId
        ensures !Adjacent(pts, 0.0, h, g)
      {
        NothingAdjacent(pts, h, g);
      }
    }
    hide Run, Component, NeighbourSet;
    NoCoreNoCluster(pts, cfg, trim);
  }

  // ----- when clusters are the large components

  /** With these settings clusters are the large components, for every input. */
  ghost predicate ClustersAreComponentsAt(minPts: nat, eps: real) {
    forall pts, cfg: Config, trim, s :: cfg.minPts == minPts && cfg.eps == eps >= 0.0 && TimeOrdered(pts) ==>
      var o := Run(pts, cfg, trim); IsLive(o, s) || IsHandedOut(o, s) <==> IsLargeComponent(pts, cfg, s)
  }

  /** The clusterer computes the large connected components exactly for minPts <= 3, or if eps is 0. */
  lemma ExactForSettings(minPts: nat, eps: real)
    requires eps >= 0.0
    ensures ClustersAreComponentsAt(minPts, eps) <==> minPts <= 3 || eps == 0.0
  {
    if minPts <= 3 || eps == 0.0 {
      ExactWhere(minPts, eps);
    } else {
      InexactWhere(minPts, eps);
    }
  }

  lemma ExactWhere(minPts: nat, eps: real)
    requires eps >= 0.0 && (minPts <= 3 || eps == 0.0)
    ensures ClustersAreComponentsAt(minPts, eps)
  {
    hide Run, IsLive, IsHandedOut, IsLargeComponent;
    forall pts, cfg: Config, trim, s | cfg.minPts == minPts && cfg.eps == eps >= 0.0 && TimeOrdered(pts)
      ensures var o := Run(pts, cfg, trim); IsLive(o, s) || IsHandedOut(o, s) <==> IsLargeComponent(pts, cfg, s)
    {
      if minPts <= 3 {
        ClustersAreComponents(pts, cfg, trim, s);
      } else {
        NothingWithoutReach(pts, cfg, trim, s);
      }
    }
  }

  lemma InexactWhere(minPts: nat, eps: real)
    requires minPts >= 4 && eps > 0.0
    ensures !ClustersAreComponentsAt(minPts, eps)
  {
    hide Run, IsLive, IsHandedOut, IsLargeComponent, Chain, TimeOrdered;
    var cfg := Config(eps, minPts, 0);
    var trim: nat -> bool := i => false;
    ChainIsNoCluster(cfg, trim);
  }

  /** So it does for every eps exactly for minPts <= 3. */
  lemma ExactUpToThree(minPts: nat)
    ensures (forall eps :: eps >= 0.0 ==> ClustersAreComponentsAt(minPts, eps)) <==> minPts <= 3
  {
    hide ClustersAreComponentsAt;
    forall eps | eps >= 0.0
      ensures ClustersAreComponentsAt(minPts, eps) <==> minPts <= 3 || eps == 0.0
    {
      ExactForSettings(minPts, eps);
    }
    assert ClustersAreComponentsAt(minPts, 1.0) <==> minPts <= 3;
  }
}
