/** Core hits, those with at least minPts - 1 neighbours, all get into a cluster exactly for minPts <= 3 or where a
    hit's neighbours are neighbours of each other. */
module CoreHits {
  import opened Graph
  import opened Hits
  import opened Clusters
  import opened ClusterGrowth
  import opened ClusterInvariant
  import opened Placement
  import opened Exactness
  import opened ExactPlacement
  import opened Stream
  import opened Finality
  import opened Components
  import opened Sharpness
  import opened Collections

  /** The hit has at least minPts - 1 neighbours. */
  ghost predicate IsCorePoint(pts: seq<Point>, eps: real, minPts: nat, h: HitId) {
    h < |pts| && |NeighbourSet(pts, eps, h)| + 1 >= minPts
  }

  lemma CoreMeans(pts: seq<Point>, eps: real, minPts: nat, pool: Pool, h: HitId)
    requires Linked(pool, pts, eps) && h < |pool|
    ensures pool[h].IsCore(minPts) <==> IsCorePoint(pts, eps, minPts, h)
  {
    assert HitSetList(pool, h);
    HitSetSize(pool, pool[h].neighbours);
    assert Members(pool[h].neighbours) == NeighbourSet(pts, eps, h);
  }

  /** After any run the core flags are those of the hits with at least minPts - 1 neighbours. */
  lemma CoreFlagMeans(pts: seq<Point>, cfg: Config, trim: nat -> bool, h: HitId)
    requires cfg.eps >= 0.0 && TimeOrdered(pts) && h < |pts|
    ensures var pool := Run(pts, cfg, trim).state.book.pool;
      h < |pool| && (pool[h].connectedness.KCore? <==> IsCorePoint(pts, cfg.eps, cfg.minPts, h))
  {
    var pool := Run(pts, cfg, trim).state.book.pool;
    assert CoreFlag(pool[h], cfg.minPts);
    hide Run;
    CoreMeans(pts, cfg.eps, cfg.minPts, pool, h);
  }

  ghost predicate CoresNumbered(pool: Pool, minPts: nat) {
    forall h: HitId :: h < |pool| && pool[h].IsCore(minPts) ==> pool[h].cluster != UNDEFINED_CLUSTER
  }

  /** Only the newest hit and its neighbours can be core and in no cluster. */
  ghost predicate NewCoresOnly(pool: Pool, n: HitId, minPts: nat)
    requires n < |pool|
  {
    forall h: HitId :: h < |pool| && pool[h].IsCore(minPts) && pool[h].cluster == UNDEFINED_CLUSTER ==>
      h == n || h in pool[n].neighbours
  }

  lemma LinkingNumbersCores(pts: seq<Point>, p: Point, eps: real, pool: Pool, pool': Pool, minPts: nat)
    requires LinkedNext(pts, p, eps, pool, pool') && CoresNumbered(pool, minPts)
    ensures |pool'| == |pts| + 1 && NewCoresOnly(pool', |pts|, minPts)
  {
    var n := |pts|;
    forall h: HitId | h < n && pool'[h].IsCore(minPts) && pool'[h].cluster == UNDEFINED_CLUSTER
      ensures h in pool'[n].neighbours
    {
      NeighbourCounts(pts, p, eps, pool, pool', h);
      assert n in pool'[h].neighbours;
      AdjacentSymmetric(pts + [p], eps, h, n);
      hide Adjacent;
    }
  }

  // ----- where a hit's neighbours are neighbours

  /** On one channel, two hits that a later hit is close to are close to each other. */
  lemma NeighboursAdjacent(pts: seq<Point>, eps: real, n: HitId, q: HitId, h: HitId)
    requires 0.0 <= eps <= 1.0 && TimeOrdered(pts) && n == |pts| - 1 && q != h
    requires Adjacent(pts, eps, n, q) && Adjacent(pts, eps, n, h)
    ensures Adjacent(pts, eps, q, h)
  {
    AdjacentByAxis(pts, eps, n, q);
    AdjacentByAxis(pts, eps, n, h);
    AdjacentByAxis(pts, eps, q, h);
    hide Adjacent;
    assert pts[q].chan == pts[n].chan == pts[h].chan;
  }

  lemma PlacingNumbersCores(pts: seq<Point>, eps: real, b: Book, r: Book, n: HitId, minPts: nat)
    requires eps <= 1.0 && TimeOrdered(pts) && n == |pts| - 1
    requires Arrived(pts, eps, b, n) && Placed(b, r, n, minPts) && NewCoresOnly(b.pool, n, minPts)
    ensures CoresNumbered(r.pool, minPts)
  {
    if a :| Joined(b, r, n, a, minPts) {
      JoiningNumbersCores(b, r, n, a, minPts);
    } else if seed, a :| StartedAt(b, r, n, seed, a, minPts) {
      StartingNumbersCores(pts, eps, b, r, n, seed, a, minPts);
    } else {
      assert Idle(b, r, n, minPts);
    }
  }

  lemma JoiningNumbersCores(b: Book, r: Book, n: HitId, a: set<HitId>, minPts: nat)
    requires Sane(b) && n < |b.pool| && Joined(b, r, n, a, minPts) && NewCoresOnly(b.pool, n, minPts)
    ensures CoresNumbered(r.pool, minPts)
  {
    var touched := Touched(b, n, minPts);
    var k := Smallest(touched);
    hide Touched, ClusterOk;
    assert 0 <= k;
    forall h: HitId | h < |r.pool| && r.pool[h].IsCore(minPts)
      ensures r.pool[h].cluster != UNDEFINED_CLUSTER
    {
      assert HitGrew(b.pool[h], r.pool[h], k, h in a, minPts);
      if b.pool[h].cluster == UNDEFINED_CLUSTER {
        assert Joins(b, n, touched - {k}, h, minPts);
      }
    }
  }

  lemma StartingNumbersCores(pts: seq<Point>, eps: real, b: Book, r: Book, n: HitId, seed: HitId, a: set<HitId>,
                             minPts: nat)
    requires eps <= 1.0 && TimeOrdered(pts) && n == |pts| - 1
    requires Arrived(pts, eps, b, n) && StartedAt(b, r, n, seed, a, minPts) && NewCoresOnly(b.pool, n, minPts)
    ensures CoresNumbered(r.pool, minPts)
  {
    var b0 := if b.pool[n].IsCore(minPts) then MarkCore(b, n) else b;
    assert AllClustered(r.pool, r.pool[seed].neighbours);
    hide Touched, ClusterOk, Closed, Reached;
    forall h: HitId | h < |r.pool| && r.pool[h].IsCore(minPts)
      ensures r.pool[h].cluster != UNDEFINED_CLUSTER
    {
      assert HitGrew(b0.pool[h], r.pool[h], b.next, h in a, minPts);
      if b.pool[h].cluster == UNDEFINED_CLUSTER && h != seed && seed != n {
        NeighboursAdjacent(pts, eps, n, seed, h);
        hide Adjacent;
      }
    }
  }

  lemma ArrivingNumbersCores(pts: seq<Point>, cfg: Config, st: State, p: Point)
    requires 0.0 <= cfg.eps <= 1.0 && Valid(pts, cfg, st) && TimeOrdered(pts + [p])
    requires CoresNumbered(st.book.pool, cfg.minPts)
    ensures Ready(st, p, cfg) && CoresNumbered(Arrive(st, p, cfg).state.book.pool, cfg.minPts)
  {
    var n, more := |pts|, pts + [p];
    var b := st.book.(pool := Link(st, p, cfg));
    ArriveReady(pts, cfg, st, p);
    LinkedIsArrived(pts, cfg, st, p);
    LinkCorrect(pts, cfg, st, p);
    PlaceCorrect(more, cfg.eps, b, n, cfg.minPts);
    hide Link, Place, Linked, CoresNumbered, NewCoresOnly, Placed, IndicesOk, ClustersOk, Sweep;
    LinkingNumbersCores(pts, p, cfg.eps, st.book.pool, b.pool, cfg.minPts);
    PlacingNumbersCores(more, cfg.eps, b, Place(b, n, cfg.minPts), n, cfg.minPts);
  }

  lemma {:induction false} RunNumbersCores(pts: seq<Point>, cfg: Config, trim: nat -> bool)
    requires 0.0 <= cfg.eps <= 1.0 && TimeOrdered(pts)
    ensures CoresNumbered(Run(pts, cfg, trim).state.book.pool, cfg.minPts)
  {
    if pts == [] {
      assert Run([], cfg, trim).state == Initial(cfg);
    } else {
      var n := |pts| - 1;
      RunStep(pts, cfg, trim);
      RunNumbersCores(pts[..n], cfg, trim);
      hide Run, Arrive, Valid, CoresNumbered;
      ArrivingNumbersCores(pts[..n], cfg, Run(pts[..n], cfg, trim).state, pts[n]);
    }
  }

  // ----- a hit between two core hits that are not close to each other

  /** All at one time: `m` hits, one next to them, the same at a distance, and last one between the two. */
  function Fork(m: nat, k: nat): seq<Point> {
    seq(2 * m + 3, i requires 0 <= i < 2 * m + 3 => Point(0.0, k * Level(m, i)))
  }

  function Level(m: nat, i: nat): nat {
    if i < m then 4 else if i == m then 3 else if i < 2 * m + 1 then 0 else if i == 2 * m + 1 then 1 else 2
  }

  lemma ForkAdjacent(m: nat, k: nat, eps: real, i: HitId, j: HitId)
    requires k as real < eps <= 2.0 * k as real && i < 2 * m + 3 && j < 2 * m + 3
    ensures Adjacent(Fork(m, k), eps, i, j) <==> i != j && -1 <= Level(m, i) - Level(m, j) <= 1
  {
    if i != j {
      AdjacentByAxis(Fork(m, k), eps, i, j);
      hide Adjacent;
      LevelsApart(k, eps, Level(m, i), Level(m, j));
    }
  }

  lemma LevelsApart(k: nat, eps: real, x: nat, y: nat)
    requires k as real < eps <= 2.0 * k as real && x <= 4 && y <= 4
    ensures -eps < (k * x) as real - (k * y) as real < eps <==> -1 <= x - y <= 1
  {
    var d := x - y;
    assert (k * x) as real - (k * y) as real == (k * d) as real;
    assert d == 0 || d == 1 || d == -1 || d == 2 || d == -2 || d == 3 || d == -3 || d == 4 || d == -4;
  }

  ghost function Range(lo: nat, hi: nat): (s: set<HitId>)
    requires lo <= hi
    ensures |s| == hi - lo && forall h: HitId :: h in s <==> lo <= h < hi
    decreases hi
  {
    if lo == hi then {} else Range(lo, hi - 1) + {hi - 1}
  }

  lemma SmallerSet(s: set<HitId>, t: set<HitId>, h: HitId)
    requires s <= t - {h} && h in t
    ensures |s| + 1 <= |t|
  {
    SubsetSize(s, t - {h});
  }

  /** Before the last hit no hit has minPts - 1 neighbours. */
  lemma ForkCoreFree(m: nat, k: nat, eps: real)
    requires k as real < eps <= 2.0 * k as real
    ensures CoreFree(Fork(m, k)[..2 * m + 2], eps, m + 2)
  {
    var all := Fork(m, k);
    var pts := all[..2 * m + 2];
    forall h: HitId | h < |pts|
      ensures |NeighbourSet(pts, eps, h)| + 1 < m + 2
    {
      var side := if h <= m then Range(0, m + 1) else Range(m + 1, 2 * m + 2);
      forall g | g in NeighbourSet(pts, eps, h)
        ensures g in side - {h}
      {
        assert Adjacent(all, eps, h, g);
        ForkAdjacent(m, k, eps, h, g);
      }
      SmallerSet(NeighbourSet(pts, eps, h), side, h);
    }
  }

  lemma ForkNeighbours(m: nat, k: nat, eps: real, h: HitId, g: HitId)
    requires k as real < eps <= 2.0 * k as real && h < 2 * m + 3
    ensures g in NeighbourSet(Fork(m, k), eps, h) <==>
      g < 2 * m + 3 && g != h && -1 <= Level(m, h) - Level(m, g) <= 1
  {
    if g < 2 * m + 3 {
      ForkAdjacent(m, k, eps, h, g);
    }
    hide Level;
  }

  lemma ForkTipIsCore(m: nat, k: nat, eps: real, h: HitId)
    requires k as real < eps <= 2.0 * k as real && (h == m || h == 2 * m + 1)
    ensures IsCorePoint(Fork(m, k), eps, m + 2, h)
  {
    var side, last := if h == m then Range(0, m) else Range(m + 1, 2 * m + 1), 2 * m + 2;
    var s := NeighbourSet(Fork(m, k), eps, h);
    forall g | g in side + {last}
      ensures g in s
    {
      ForkNeighbours(m, k, eps, h, g);
    }
    hide NeighbourSet;
    SubsetSize(side + {last}, s);
  }

  lemma ForkRestIsNot(m: nat, k: nat, eps: real, h: HitId)
    requires m >= 2 && k as real < eps <= 2.0 * k as real && h < 2 * m + 3 && h != m && h != 2 * m + 1
    ensures !IsCorePoint(Fork(m, k), eps, m + 2, h)
  {
    var s := NeighbourSet(Fork(m, k), eps, h);
    var side := if h < m then Range(0, m + 1) else Range(m + 1, 2 * m + 2);
    var tips: set<int> := {m, 2 * m + 1};
    forall g | g in s
      ensures if h == 2 * m + 2 then g in tips else g in side - {h}
    {
      ForkNeighbours(m, k, eps, h, g);
    }
    hide NeighbourSet;
    if h == 2 * m + 2 {
      IntSubsetSize(s, tips);
    } else {
      SmallerSet(s, side, h);
    }
  }

  /** After it just the two next to it do. */
  lemma ForkCores(m: nat, k: nat, eps: real, h: HitId)
    requires m >= 2 && k as real < eps <= 2.0 * k as real && h < 2 * m + 3
    ensures IsCorePoint(Fork(m, k), eps, m + 2, h) <==> h == m || h == 2 * m + 1
  {
    hide IsCorePoint;
    if h == m || h == 2 * m + 1 {
      ForkTipIsCore(m, k, eps, h);
    } else {
      ForkRestIsNot(m, k, eps, h);
    }
  }

  lemma NotReached(pool: Pool, r: Pool, k: int, a: set<HitId>, seed: HitId, minPts: nat, x: HitId, y: HitId)
    requires Renumbered(pool, r, k, a) && Reached(r, a, [seed], minPts) && x < |pool| && y < |pool|
    requires forall h: HitId :: h < |pool| && pool[h].IsCore(minPts) ==> h == x || h == y
    requires x !in pool[x].neighbours && x !in pool[y].neighbours
    ensures x != seed ==> x !in a
  {
    assert x != seed ==> x !in [seed];
    assert x in a && x != seed ==> FromCore(r, a, x, minPts);
  }

  /** A cluster that starts at one of two core hits does not reach the other, if no other hit is core. */
  lemma OneIsLeftOut(b: Book, r: Book, n: HitId, minPts: nat, x: HitId, y: HitId)
    requires Sane(b) && n < |b.pool| && x < |b.pool| && y < |b.pool| && Placed(b, r, n, minPts)
    requires forall h: HitId :: h < |b.pool| ==> b.pool[h].cluster == UNDEFINED_CLUSTER
    requires forall h: HitId :: h < |b.pool| ==> (b.pool[h].IsCore(minPts) <==> h == x || h == y)
    requires n != x && n != y && x != y
    requires x !in b.pool[x].neighbours && y !in b.pool[y].neighbours
    requires x !in b.pool[y].neighbours && y !in b.pool[x].neighbours
    ensures |r.pool| == |b.pool| && r.pool[x].neighbours == b.pool[x].neighbours
    ensures r.pool[y].neighbours == b.pool[y].neighbours
    ensures r.pool[x].cluster == UNDEFINED_CLUSTER || r.pool[y].cluster == UNDEFINED_CLUSTER
  {
    assert Touched(b, n, minPts) == {};
    if seed: HitId, a :| StartedAt(b, r, n, seed, a, minPts) {
      StartedAtRenumbered(b, r, n, seed, a, minPts);
      assert Reached(r.pool, a, [seed], minPts);
      hide StartedAt;
      NotReached(b.pool, r.pool, b.next, a, seed, minPts, x, y);
      NotReached(b.pool, r.pool, b.next, a, seed, minPts, y, x);
    }
  }

  lemma ForkLinks(m: nat, k: nat, eps: real, pool: Pool)
    requires m >= 2 && k as real < eps <= 2.0 * k as real && Linked(pool, Fork(m, k), eps)
    ensures |pool| == 2 * m + 3
    ensures forall h: HitId :: h < |pool| ==> (pool[h].IsCore(m + 2) <==> h == m || h == 2 * m + 1)
    ensures var x, y := m, 2 * m + 1;
      && x !in pool[x].neighbours && y !in pool[y].neighbours
      && x !in pool[y].neighbours && y !in pool[x].neighbours
  {
    forall h: HitId | h < |pool|
      ensures pool[h].IsCore(m + 2) <==> h == m || h == 2 * m + 1
    {
      CoreMeans(Fork(m, k), eps, m + 2, pool, h);
      ForkCores(m, k, eps, h);
    }
    ForkAdjacent(m, k, eps, m, 2 * m + 1);
    ForkAdjacent(m, k, eps, 2 * m + 1, m);
    hide Adjacent;
  }

  lemma ForkInOrder(m: nat, k: nat)
    ensures TimeOrdered(Fork(m, k)) && |Fork(m, k)| == 2 * m + 3
  {
  }

  /** One of the two core hits is in no cluster in the end. */
  lemma ForkLeavesOneOut(cfg: Config, trim: nat -> bool, k: nat) returns (h: HitId)
    requires cfg.minPts >= 4 && k as real < cfg.eps <= 2.0 * k as real
    ensures var pts := Fork(cfg.minPts - 2, k);
      && TimeOrdered(pts) && h < |pts| && IsCorePoint(pts, cfg.eps, cfg.minPts, h)
      && h < |Run(pts, cfg, trim).state.book.pool|
      && Run(pts, cfg, trim).state.book.pool[h].cluster == UNDEFINED_CLUSTER
  {
    var m := cfg.minPts - 2;
    var pts, n := Fork(m, k), 2 * m + 2;
    ForkInOrder(m, k);
    hide Fork, Run, Valid, Arrive, IsCorePoint, Ready, CoreFree, NoCluster, TimeOrdered;
    LastStep(pts, cfg, trim);
    ForkCoreFree(m, k, cfg.eps);
    NoCoreNoCluster(pts[..n], cfg, trim);
    h := ForkArrival(pts[..n], cfg, Run(pts[..n], cfg, trim).state, pts[n], k);
  }

  lemma LinkedUnclustered(pts: seq<Point>, cfg: Config, st: State, p: Point)
    requires cfg.eps >= 0.0 && Valid(pts, cfg, st) && NoCluster(st) && TimeOrdered(pts + [p])
    ensures Ready(st, p, cfg) && Sane(st.book) && |st.book.pool| == |pts|
    ensures var b, n := st.book.(pool := Link(st, p, cfg)), |pts|;
      && Sane(b) && Linked(b.pool, pts + [p], cfg.eps) && |b.pool| == n + 1
      && CoreClusters(b.pool, b.pool[n].neighbours, cfg.minPts) <= b.clusters.Keys
      && Placed(b, Place(b, n, cfg.minPts), n, cfg.minPts)
      && forall h: HitId :: h < |b.pool| ==> b.pool[h].cluster == UNDEFINED_CLUSTER
  {
    hide Valid, Link, Linked, Place, Placed, IndicesOk, ClustersOk, CoreClusters, CoreFlags;
    assert TimeOrdered(pts) by {
      assert forall i :: 0 <= i < |pts| ==> (pts + [p])[i] == pts[i];
    }
    ValidNoLaterHit(pts, cfg, st);
    ArriveReady(pts, cfg, st, p);
    var b := st.book.(pool := Link(st, p, cfg));
    LinkedIsArrived(pts, cfg, st, p);
    LinkCorrect(pts, cfg, st, p);
    PlaceCorrect(pts + [p], cfg.eps, b, |pts|, cfg.minPts);
  }

  lemma OneTipIsLeftOut(m: nat, k: nat, eps: real, b: Book, r: Book)
    requires m >= 2 && k as real < eps <= 2.0 * k as real && Sane(b) && Linked(b.pool, Fork(m, k), eps)
    requires |b.pool| == 2 * m + 3 && Placed(b, r, 2 * m + 2, m + 2)
    requires forall h: HitId :: h < |b.pool| ==> b.pool[h].cluster == UNDEFINED_CLUSTER
    ensures |r.pool| == |b.pool|
    ensures r.pool[m].cluster == UNDEFINED_CLUSTER || r.pool[2 * m + 1].cluster == UNDEFINED_CLUSTER
  {
    hide Linked, Placed, Fork, Sane;
    ForkLinks(m, k, eps, b.pool);
    OneIsLeftOut(b, r, 2 * m + 2, m + 2, m, 2 * m + 1);
  }

  lemma ArrivedPool(st: State, p: Point, cfg: Config)
    requires Ready(st, p, cfg)
    ensures var b := st.book.(pool := Link(st, p, cfg));
      && Sane(b) && |st.book.pool| < |b.pool|
      && CoreClusters(b.pool, b.pool[|st.book.pool|].neighbours, cfg.minPts) <= b.clusters.Keys
      && Arrive(st, p, cfg).state.book.pool == Place(b, |st.book.pool|, cfg.minPts).pool
  {
    hide Link, Place, Sweep;
  }

  lemma LastStep(pts: seq<Point>, cfg: Config, trim: nat -> bool)
    requires cfg.eps >= 0.0 && TimeOrdered(pts) && pts != []
    ensures var n := |pts| - 1;
      && pts == pts[..n] + [pts[n]] && TimeOrdered(pts[..n])
      && var st := Run(pts[..n], cfg, trim).state;
         && Valid(pts[..n], cfg, st) && Ready(st, pts[n], cfg)
         && Run(pts, cfg, trim).state.book.pool == Arrive(st, pts[n], cfg).state.book.pool
  {
    hide Arrive, Ready, Finished, Valid;
    RunStep(pts, cfg, trim);
    hide Run;
  }

  lemma ForkArrival(pts: seq<Point>, cfg: Config, st: State, p: Point, k: nat) returns (h: HitId)
    requires cfg.minPts >= 4 && k as real < cfg.eps <= 2.0 * k as real && pts + [p] == Fork(cfg.minPts - 2, k)
    requires Valid(pts, cfg, st) && NoCluster(st) && TimeOrdered(pts + [p])
    ensures Ready(st, p, cfg) && h < |pts| && IsCorePoint(pts + [p], cfg.eps, cfg.minPts, h)
    ensures var pool := Arrive(st, p, cfg).state.book.pool;
      h < |pool| && pool[h].cluster == UNDEFINED_CLUSTER
  {
    hide Valid, Link, Linked, Placed, Fork, IsCorePoint, NoCluster, Place, Arrive;
    var m, n := cfg.minPts - 2, |pts|;
    LinkedUnclustered(pts, cfg, st, p);
    ForkInOrder(m, k);
    ArrivedPool(st, p, cfg);
    var b := st.book.(pool := Link(st, p, cfg));
    var r := Place(b, n, cfg.minPts);
    hide CoreClusters, Ready;
    OneTipIsLeftOut(m, k, cfg.eps, b, r);
    h := if r.pool[m].cluster == UNDEFINED_CLUSTER then m else 2 * m + 1;
    ForkCores(m, k, cfg.eps, h);
  }

  // ----- when all core hits are in clusters

  /** With these settings every core hit has a cluster number, after every run. */
  ghost predicate CoresAreClusteredAt(minPts: nat, eps: real) {
    forall pts, cfg: Config, trim, h: HitId ::
      cfg.minPts == minPts && cfg.eps == eps >= 0.0 && TimeOrdered(pts) && IsCorePoint(pts, eps, minPts, h) ==>
        var pool := Run(pts, cfg, trim).state.book.pool;
        h < |pool| && pool[h].cluster != UNDEFINED_CLUSTER
  }

  lemma CoreIsClustered(pts: seq<Point>, cfg: Config, trim: nat -> bool, h: HitId)
    requires cfg.eps >= 0.0 && (cfg.minPts <= 3 || cfg.eps <= 1.0)
    requires TimeOrdered(pts) && IsCorePoint(pts, cfg.eps, cfg.minPts, h)
    ensures var pool := Run(pts, cfg, trim).state.book.pool;
      h < |pool| && pool[h].cluster != UNDEFINED_CLUSTER
  {
    var pool := Run(pts, cfg, trim).state.book.pool;
    CoreMeans(pts, cfg.eps, cfg.minPts, pool, h);
    if cfg.minPts <= 3 {
      RunExact(pts, cfg, trim);
      assert !Has(pool, h, UNDEFINED_CLUSTER);
    } else {
      RunNumbersCores(pts, cfg, trim);
    }
  }

  /** A channel distance less than eps whose double is not. */
  lemma HalfOf(eps: real) returns (k: nat)
    requires eps > 1.0
    ensures k as real < eps <= 2.0 * k as real
  {
    var f := (eps / 2.0).Floor;
    k := if f as real == eps / 2.0 then f else f + 1;
  }

  /** Every hit with at least minPts - 1 neighbours gets into a cluster, on all inputs, if and only if minPts <= 3
      or eps <= 1, where hits on different channels are never close. */
  lemma CoresClusteredExactly(minPts: nat, eps: real)
    requires eps >= 0.0
    ensures CoresAreClusteredAt(minPts, eps) <==> minPts <= 3 || eps <= 1.0
  {
    hide Run, IsCorePoint;
    if minPts <= 3 || eps <= 1.0 {
      forall pts, cfg: Config, trim, h: HitId |
        cfg.minPts == minPts && cfg.eps == eps >= 0.0 && TimeOrdered(pts) && IsCorePoint(pts, eps, minPts, h)
        ensures var pool := Run(pts, cfg, trim).state.book.pool;
          h < |pool| && pool[h].cluster != UNDEFINED_CLUSTER
      {
        CoreIsClustered(pts, cfg, trim, h);
      }
    } else {
      var k := HalfOf(eps);
      var cfg := Config(eps, minPts, 0);
      var trim: nat -> bool := i => false;
      var h := ForkLeavesOneOut(cfg, trim, k);
    }
  }
}
