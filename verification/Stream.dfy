/** The streaming clusterer as a state machine: hits arrive one at a time, clusters are handed out when
    they can no longer grow, and old hits may be dropped after any arrival. */
module Stream {
  import opened Graph
  import opened Hits
  import opened Clusters
  import opened ClusterGrowth
  import opened ClusterInvariant
  import opened Placement

  datatype State = State(book: Book, hits: seq<HitId>, latest: real)

  datatype Config = Config(eps: real, minPts: nat, firstIndex: nat)

  /** The state after the hits so far, and all clusters handed out so far, in order. */
  datatype Outcome = Outcome(state: State, completed: seq<Cluster>)

  // ----- one arrival

  function Link(st: State, p: Point, cfg: Config): (r: Pool)
    requires ListsInPool(st.book.pool) && InPool(st.book.pool, st.hits)
    ensures ListsInPool(r) && |r| == |st.book.pool| + 1
  {
    var pool := st.book.pool + [NewHit(p.time, p.chan)];
    assert forall i :: 0 <= i < |st.book.pool| ==> InPool(st.book.pool, pool[i].neighbours);
    LinkNeighbours(pool, st.hits + [|st.book.pool|], |st.hits| + 1, |st.book.pool|, cfg.eps, cfg.minPts)
  }

  /** What the lookups of clusters by index rely on. */
  ghost predicate Ready(st: State, p: Point, cfg: Config) {
    && Sane(st.book) && InPool(st.book.pool, st.hits)
    && var pool := Link(st, p, cfg);
       CoreClusters(pool, pool[|pool| - 1].neighbours, cfg.minPts) <= st.book.clusters.Keys
  }

  function Arrive(st: State, p: Point, cfg: Config): Outcome
    requires Ready(st, p, cfg)
  {
    var n := |st.book.pool|;
    var placed := Place(st.book.(pool := Link(st, p, cfg)), n, cfg.minPts);
    var swept := Sweep(placed.clusters, p.time, cfg.eps, placed.next);
    Outcome(State(placed.(clusters := swept.live), st.hits + [n], p.time), swept.completed)
  }

  // ----- dropping old hits

  /** `Unset` stands for a time later than any other. */
  datatype Earliest = Unset | Set(time: real)

  function EarlierOf(e: Earliest, t: real): Earliest {
    if e.Unset? || t < e.time then Set(t) else e
  }

  ghost predicate NoEmptyCluster(b: Book) {
    forall k :: k in b.clusters ==> b.clusters[k].hits != []
  }

  /** The earliest first hit of the clusters numbered below `j`. */
  function EarliestBelow(b: Book, j: nat): Earliest
    requires Sane(b) && NoEmptyCluster(b)
  {
    if j == 0 then Unset
    else
      var e := EarliestBelow(b, j - 1);
      if j - 1 in b.clusters then EarlierOf(e, b.pool[b.clusters[j - 1].hits[0]].time) else e
  }

  /** The first position from `i` on of a hit not before time `t`. */
  function LowerBound(pool: Pool, hits: seq<HitId>, t: real, i: nat): (r: nat)
    requires InPool(pool, hits) && i <= |hits|
    ensures i <= r <= |hits|
    decreases |hits| - i
  {
    if i < |hits| && pool[hits[i]].time < t then LowerBound(pool, hits, t, i + 1) else i
  }

  function Trim(st: State, eps: real): State
    requires Sane(st.book) && NoEmptyCluster(st.book) && InPool(st.book.pool, st.hits)
  {
    var e := EarliestBelow(st.book, st.book.next);
    var earliest := if e.Unset? then st.latest else e.time;
    st.(hits := st.hits[LowerBound(st.book.pool, st.hits, earliest - 10.0 * eps, 0)..])
  }

  // ----- the invariant

  ghost predicate LiveCluster(pts: seq<Point>, eps: real, st: State, k: int)
    requires k in st.book.clusters
  {
    var c := st.book.clusters[k];
    && c.hits != [] && c.latestTime >= st.latest - eps
    && SoundCluster(pts, eps, st.book.pool, c)
  }

  /** What holds after the hits at `pts` have arrived, for every minPts. */
  ghost predicate Valid(pts: seq<Point>, cfg: Config, st: State) {
    && Sane(st.book) && Linked(st.book.pool, pts, cfg.eps)
    && (forall h: HitId :: h < |st.book.pool| ==> CoreFlag(st.book.pool[h], cfg.minPts))
    && |st.hits| <= |pts| && st.hits == Arrivals(|pts| - |st.hits|, |pts|)
    && OutOfReach(pts, |pts| - |st.hits|, st.latest, cfg.eps)
    && (pts != [] ==> st.latest == pts[|pts| - 1].time)
    && IndicesOk(st.book, st.latest, cfg.eps)
    && (forall k :: k in st.book.clusters ==> LiveCluster(pts, cfg.eps, st, k))
  }

  function Initial(cfg: Config): State {
    State(Book([], map[], cfg.firstIndex), [], 0.0)
  }

  lemma InitialValid(cfg: Config)
    ensures Valid([], cfg, Initial(cfg))
  {
  }

  // ----- the new hit is linked

  ghost predicate ExtendsPool(pool: Pool, pool': Pool) {
    |pool| <= |pool'| &&
    forall h: HitId :: h < |pool| ==> pool'[h].At() == pool[h].At() && pool'[h].cluster == pool[h].cluster
  }

  lemma WellFormedGrows(pts: seq<Point>, more: seq<Point>, eps: real, pool: Pool, pool': Pool, c: Cluster)
    requires pts <= more && Matches(pool, pts) && Matches(pool', more) && WellFormed(pts, eps, pool, c)
    ensures WellFormed(more, eps, pool', c)
  {
    forall h: HitId | h < |pool|
      ensures pool'[h].time == pool[h].time
    {
      assert pool'[h].At() == more[h] == pts[h] == pool[h].At();
    }
    forall a, b | a in c.hits && b in c.hits
      ensures Connected(more, eps, a, b)
    {
      ConnectedGrows(pts, more, eps, a, b);
    }
  }

  lemma LinkCorrect(pts: seq<Point>, cfg: Config, st: State, p: Point)
    requires cfg.eps >= 0.0 && Valid(pts, cfg, st) && TimeOrdered(pts + [p])
    ensures var pool := Link(st, p, cfg);
      && Linked(pool, pts + [p], cfg.eps) && CoreFlags(pool, cfg.minPts) && ExtendsPool(st.book.pool, pool)
      && |pool| == |pts| + 1 && pool[|pts|].cluster == UNDEFINED_CLUSTER
  {
    hide LinkNeighbours, IndicesOk, LiveCluster, Linked, CoreFlag, CoreFlags, ListsInPool;
    var lo := |pts| - |st.hits|;
    ArrivalsGrow(pts, cfg, st, p);
    StaysOutOfReach(pts, cfg, st, p);
    ScanFindsAllNeighbours(st.book.pool, pts, p, lo, cfg.eps, cfg.minPts);
    PoolHoldsAll(pts, cfg, st);
    LinkedExtends(pts, p, cfg.eps, st.book.pool, Link(st, p, cfg));
  }

  lemma PoolHoldsAll(pts: seq<Point>, cfg: Config, st: State)
    requires Valid(pts, cfg, st)
    ensures |st.book.pool| == |pts|
  {
  }

  lemma ArrivalsGrow(pts: seq<Point>, cfg: Config, st: State, p: Point)
    requires Valid(pts, cfg, st) && TimeOrdered(pts + [p])
    ensures var lo := |pts| - |st.hits|;
      st.hits + [|pts|] == Arrivals(lo, |pts| + 1) && OutOfReach(pts + [p], lo, p.time, cfg.eps)
  {
    if pts != [] {
      var more := pts + [p];
      assert more[|pts| - 1].time <= more[|pts|].time;
    }
  }

  lemma StaysOutOfReach(pts: seq<Point>, cfg: Config, st: State, p: Point)
    requires Valid(pts, cfg, st) && TimeOrdered(pts + [p])
    ensures OutOfReach(pts, |pts| - |st.hits|, p.time, cfg.eps)
  {
    if pts != [] {
      var more := pts + [p];
      assert more[|pts| - 1].time <= more[|pts|].time;
    }
  }

  lemma LinkedExtends(pts: seq<Point>, p: Point, eps: real, pool: Pool, r: Pool)
    requires Linked(pool, pts, eps) && Linked(r, pts + [p], eps) && SameClusters(pool + [NewHit(p.time, p.chan)], r)
    ensures ExtendsPool(pool, r) && |r| == |pts| + 1 && r[|pts|].cluster == UNDEFINED_CLUSTER
  {
    var more, start := pts + [p], pool + [NewHit(p.time, p.chan)];
    hide HitSetLists;
    forall h: HitId | h < |pts|
      ensures r[h].At() == pool[h].At() && r[h].cluster == pool[h].cluster
    {
      assert r[h].At() == more[h] && pool[h].At() == pts[h];
      assert start[h].cluster == pool[h].cluster;
    }
  }

  lemma LinkedIsArrived(pts: seq<Point>, cfg: Config, st: State, p: Point)
    requires cfg.eps >= 0.0 && Valid(pts, cfg, st) && TimeOrdered(pts + [p])
    ensures Arrived(pts + [p], cfg.eps, st.book.(pool := Link(st, p, cfg)), |pts|)
  {
    var n, eps, more := |pts|, cfg.eps, pts + [p];
    var b := st.book.(pool := Link(st, p, cfg));
    LinkCorrect(pts, cfg, st, p);
    assert Matches(b.pool, more);
    hide Link;
    forall k | k in b.clusters
      ensures SoundCluster(more, eps, b.pool, b.clusters[k])
    {
      assert LiveCluster(pts, eps, st, k);
      WellFormedGrows(pts, more, eps, st.book.pool, b.pool, b.clusters[k]);
    }
    forall h: HitId | h < |b.pool|
      ensures IndexOk(b, h, p.time, eps)
    {
      if h < n {
        assert IndexOk(st.book, h, st.latest, eps);
        assert b.pool[h].At() == st.book.pool[h].At();
        assert more[n - 1].time <= more[n].time;
      }
    }
  }

  // ----- completed clusters leave

  /** The sweep keeps exactly the incomplete clusters, and hands out each complete one that holds hits
      once, in order of index. */
  ghost predicate SweptBelow(clusters: map<int, Cluster>, now: real, eps: real, j: nat, s: Swept) {
    && (forall k :: k in s.live <==> k in clusters && !(0 <= k < j && IsComplete(clusters[k], now, eps)))
    && (forall k :: k in s.live ==> s.live[k] == clusters[k])
    && (forall i :: 0 <= i < |s.completed| ==> HandedOut(clusters, now, eps, j, s.completed[i]))
    && (forall k :: 0 <= k < j && k in clusters && IsComplete(clusters[k], now, eps) && clusters[k].hits != []
          ==> clusters[k].(completeness := KComplete) in s.completed)
    && (forall i, i' :: 0 <= i < i' < |s.completed| ==> s.completed[i].index < s.completed[i'].index)
  }

  ghost predicate HandedOut(clusters: map<int, Cluster>, now: real, eps: real, j: nat, c: Cluster) {
    && 0 <= c.index < j && c.index in clusters && c == clusters[c.index].(completeness := KComplete)
    && c.hits != [] && IsComplete(clusters[c.index], now, eps)
  }

  lemma NotSwept(clusters: map<int, Cluster>, now: real, eps: real, j: nat, s: Swept)
    requires SweptBelow(clusters, now, eps, j, s) && !(j in clusters && IsComplete(clusters[j], now, eps))
    ensures SweptBelow(clusters, now, eps, j + 1, s)
  {
    hide IsComplete;
    forall i | 0 <= i < |s.completed|
      ensures HandedOut(clusters, now, eps, j + 1, s.completed[i])
    {
      assert HandedOut(clusters, now, eps, j, s.completed[i]);
    }
  }

  lemma SweptOne(clusters: map<int, Cluster>, now: real, eps: real, j: nat, s: Swept, r: Swept)
    requires SweptBelow(clusters, now, eps, j, s) && j in clusters
    requires IsComplete(clusters[j], now, eps) && clusters[j].index == j
    requires r.live == s.live - {j}
    requires r.completed ==
      if clusters[j].hits == [] then s.completed else s.completed + [clusters[j].(completeness := KComplete)]
    ensures SweptBelow(clusters, now, eps, j + 1, r)
  {
    hide IsComplete;
    forall i | 0 <= i < |r.completed|
      ensures HandedOut(clusters, now, eps, j + 1, r.completed[i])
    {
      assert i < |s.completed| ==> HandedOut(clusters, now, eps, j, s.completed[i]);
    }
  }

  lemma SweepUnfolds(clusters: map<int, Cluster>, now: real, eps: real, j: nat)
    requires SweptBelow(clusters, now, eps, j, Sweep(clusters, now, eps, j))
    ensures var s, r := Sweep(clusters, now, eps, j), Sweep(clusters, now, eps, j + 1);
      if j in clusters && IsComplete(clusters[j], now, eps) then
        && r.live == s.live - {j}
        && r.completed ==
           if clusters[j].hits == [] then s.completed else s.completed + [clusters[j].(completeness := KComplete)]
      else r == s
  {
    hide IsComplete, HandedOut;
    var s := Sweep(clusters, now, eps, j);
    assert j in s.live <==> j in clusters;
  }

  lemma {:induction false} SweepCorrect(clusters: map<int, Cluster>, now: real, eps: real, j: nat)
    requires forall k :: k in clusters ==> clusters[k].index == k
    ensures SweptBelow(clusters, now, eps, j, Sweep(clusters, now, eps, j))
  {
    hide IsComplete, SweptBelow;
    if j == 0 {
      NoneSwept(clusters, now, eps);
    } else {
      SweepCorrect(clusters, now, eps, j - 1);
      SweepUnfolds(clusters, now, eps, j - 1);
      hide Sweep;
      var s, r := Sweep(clusters, now, eps, j - 1), Sweep(clusters, now, eps, j);
      if j - 1 in clusters && IsComplete(clusters[j - 1], now, eps) {
        SweptOne(clusters, now, eps, j - 1, s, r);
      } else {
        NotSwept(clusters, now, eps, j - 1, s);
      }
    }
  }

  lemma NoneSwept(clusters: map<int, Cluster>, now: real, eps: real)
    ensures SweptBelow(clusters, now, eps, 0, Sweep(clusters, now, eps, 0))
  {
  }

  // ----- the invariant is kept

  lemma ArriveReady(pts: seq<Point>, cfg: Config, st: State, p: Point)
    requires cfg.eps >= 0.0 && Valid(pts, cfg, st) && TimeOrdered(pts + [p])
    ensures Ready(st, p, cfg)
  {
    LinkedIsArrived(pts, cfg, st, p);
    PlaceCorrect(pts + [p], cfg.eps, st.book.(pool := Link(st, p, cfg)), |pts|, cfg.minPts);
  }

  /** A cluster that has been handed out: well formed, and out of reach of all hits to come. */
  ghost predicate Finished(pts: seq<Point>, eps: real, st: State, c: Cluster) {
    && c.hits != [] && c.completeness.KComplete? && WellFormed(pts, eps, st.book.pool, c)
    && 0 <= c.index < st.book.next && c.index !in st.book.clusters
    && c.latestTime < st.latest - eps
  }

  lemma SweepFinishes(pts: seq<Point>, eps: real, b: Book, now: real, s: Swept, hits: seq<HitId>, i: nat)
    requires Placing(pts, eps, b, now) && SweptBelow(b.clusters, now, eps, b.next, s) && i < |s.completed|
    ensures Finished(pts, eps, State(b.(clusters := s.live), hits, now), s.completed[i])
  {
    var c := s.completed[i];
    assert HandedOut(b.clusters, now, eps, b.next, c);
    assert SoundCluster(pts, eps, b.pool, b.clusters[c.index]);
  }

  lemma SweepKeepsLive(pts: seq<Point>, eps: real, b: Book, now: real, s: Swept, hits: seq<HitId>)
    requires Placing(pts, eps, b, now) && SweptBelow(b.clusters, now, eps, b.next, s)
    ensures var st := State(b.(clusters := s.live), hits, now);
      && (forall k :: k in st.book.clusters ==> LiveCluster(pts, eps, st, k))
      && IndicesOk(st.book, now, eps)
  {
    var st := State(b.(clusters := s.live), hits, now);
    forall k | k in s.live
      ensures LiveCluster(pts, eps, st, k)
    {
      assert SoundCluster(pts, eps, b.pool, b.clusters[k]);
    }
    forall h: HitId | h < |b.pool|
      ensures IndexOk(st.book, h, now, eps)
    {
      assert IndexOk(b, h, now, eps);
      var k := b.pool[h].cluster;
      if k in b.clusters && k !in s.live {
        assert h in b.clusters[k].hits;
        assert SoundCluster(pts, eps, b.pool, b.clusters[k]);
      }
    }
  }

  lemma HitGrewCoreFlag(h: Hit, h': Hit, k: int, added: bool, minPts: nat)
    requires HitGrew(h, h', k, added, minPts) && CoreFlag(h, minPts)
    ensures CoreFlag(h', minPts)
  {
  }

  /** Once a hit is placed, the core flag of every hit says whether it has enough neighbours. */
  lemma PlacedCoreFlags(b: Book, r: Book, n: HitId, minPts: nat)
    requires Sane(b) && n == |b.pool| - 1 && CoreFlags(b.pool, minPts) && Placed(b, r, n, minPts)
    ensures |r.pool| == |b.pool| && forall h: HitId :: h < |r.pool| ==> CoreFlag(r.pool[h], minPts)
  {
    if Idle(b, r, n, minPts) {
    } else if exists a :: Joined(b, r, n, a, minPts) {
      var a :| Joined(b, r, n, a, minPts);
      var k := Smallest(Touched(b, n, minPts));
      hide Joins, ClusterOk;
      assert b.pool[n].neighbours != [];
      forall h: HitId | h < |r.pool|
        ensures CoreFlag(r.pool[h], minPts)
      {
        HitGrewCoreFlag(b.pool[h], r.pool[h], k, h in a, minPts);
      }
    } else {
      var seed, a :| StartedAt(b, r, n, seed, a, minPts);
      var b0 := if b.pool[n].IsCore(minPts) then MarkCore(b, n) else b;
      forall h: HitId | h < |r.pool|
        ensures CoreFlag(r.pool[h], minPts)
      {
        HitGrewCoreFlag(b0.pool[h], r.pool[h], b.next, h in a, minPts);
      }
    }
  }

  /** An arrival keeps the invariant, and every cluster it hands out is finished. */
  lemma ArriveCorrect(pts: seq<Point>, cfg: Config, st: State, p: Point)
    requires cfg.eps >= 0.0 && Valid(pts, cfg, st) && TimeOrdered(pts + [p])
    ensures Ready(st, p, cfg)
    ensures var r := Arrive(st, p, cfg);
      && Valid(pts + [p], cfg, r.state)
      && forall i :: 0 <= i < |r.completed| ==> Finished(pts + [p], cfg.eps, r.state, r.completed[i])
  {
    hide Link, Place, Sweep, Placed, IndicesOk, Linked, LiveCluster, Finished, CoreFlag, CoreFlags;
    ArriveReady(pts, cfg, st, p);
    PoolHoldsAll(pts, cfg, st);
    var n, more := |pts|, pts + [p];
    var b := st.book.(pool := Link(st, p, cfg));
    LinkedIsArrived(pts, cfg, st, p);
    LinkCorrect(pts, cfg, st, p);
    PlaceCorrect(more, cfg.eps, b, n, cfg.minPts);
    var placed := Place(b, n, cfg.minPts);
    PlacedCoreFlags(b, placed, n, cfg.minPts);
    SweepCorrect(placed.clusters, p.time, cfg.eps, placed.next);
    var s := Sweep(placed.clusters, p.time, cfg.eps, placed.next);
    var r := Arrive(st, p, cfg);
    SweepKeepsLive(more, cfg.eps, placed, p.time, s, r.state.hits);
    forall i | 0 <= i < |r.completed|
      ensures Finished(more, cfg.eps, r.state, r.completed[i])
    {
      SweepFinishes(more, cfg.eps, placed, p.time, s, r.state.hits, i);
    }
    ArrivalsGrow(pts, cfg, st, p);
  }

  // ----- dropping old hits keeps the invariant

  lemma {:induction false} LowerBoundCorrect(pool: Pool, hits: seq<HitId>, t: real, i: nat)
    requires InPool(pool, hits) && i <= |hits|
    ensures forall j :: i <= j < LowerBound(pool, hits, t, i) ==> pool[hits[j]].time < t
    decreases |hits| - i
  {
    if i < |hits| && pool[hits[i]].time < t {
      LowerBoundCorrect(pool, hits, t, i + 1);
    }
  }

  lemma {:induction false} EarliestNotLate(b: Book, latest: real, j: nat)
    requires Sane(b) && NoEmptyCluster(b) && forall h: HitId :: h < |b.pool| ==> b.pool[h].time <= latest
    ensures EarliestBelow(b, j).Set? ==> EarliestBelow(b, j).time <= latest
  {
    if j > 0 {
      EarliestNotLate(b, latest, j - 1);
    }
  }

  lemma {:induction false} UnsetWithoutClusters(b: Book, j: nat)
    requires Sane(b) && NoEmptyCluster(b)
    ensures EarliestBelow(b, j).Unset? <==> forall k :: k in b.clusters ==> k >= j
  {
    if j > 0 {
      UnsetWithoutClusters(b, j - 1);
    }
  }

  lemma {:induction false} EarliestIs(b: Book, j: nat)
    requires Sane(b) && NoEmptyCluster(b) && EarliestBelow(b, j).Set?
    ensures var t := EarliestBelow(b, j).time;
      && (forall k :: k in b.clusters && k < j ==> t <= b.pool[b.clusters[k].hits[0]].time)
      && (exists k :: k in b.clusters && k < j && t == b.pool[b.clusters[k].hits[0]].time)
  {
    if EarliestBelow(b, j - 1).Set? {
      EarliestIs(b, j - 1);
    } else {
      UnsetWithoutClusters(b, j - 1);
    }
  }

  lemma ValidNoLaterHit(pts: seq<Point>, cfg: Config, st: State)
    requires Valid(pts, cfg, st) && TimeOrdered(pts)
    ensures NoEmptyCluster(st.book) && InPool(st.book.pool, st.hits) && |st.book.pool| == |pts|
    ensures forall h: HitId :: h < |st.book.pool| ==> st.book.pool[h].time == pts[h].time <= st.latest
  {
    forall h: HitId | h < |st.book.pool|
      ensures st.book.pool[h].time == pts[h].time <= st.latest
    {
      assert st.book.pool[h].At() == pts[h];
      assert pts[h].time <= pts[|pts| - 1].time;
    }
    forall k | k in st.book.clusters
      ensures st.book.clusters[k].hits != []
    {
      assert LiveCluster(pts, cfg.eps, st, k);
    }
  }

  lemma TrimCorrect(pts: seq<Point>, cfg: Config, st: State)
    requires cfg.eps >= 0.0 && Valid(pts, cfg, st) && TimeOrdered(pts)
    ensures NoEmptyCluster(st.book) && InPool(st.book.pool, st.hits)
    ensures Valid(pts, cfg, Trim(st, cfg.eps))
  {
    ValidNoLaterHit(pts, cfg, st);
    EarliestNotLate(st.book, st.latest, st.book.next);
    var r := Trim(st, cfg.eps);
    var e := EarliestBelow(st.book, st.book.next);
    var t := (if e.Unset? then st.latest else e.time) - 10.0 * cfg.eps;
    LowerBoundCorrect(st.book.pool, st.hits, t, 0);
    var lo, lo' := |pts| - |st.hits|, |pts| - |r.hits|;
    assert r.hits == Arrivals(lo', |pts|);
    forall i | 0 <= i < lo'
      ensures pts[i].time < st.latest - cfg.eps
    {
      if i >= lo {
        assert st.hits[i - lo] == i;
      }
    }
    forall k | k in r.book.clusters
      ensures LiveCluster(pts, cfg.eps, r, k)
    {
      assert LiveCluster(pts, cfg.eps, st, k);
    }
  }

  /** The hit is at most ten times eps before the latest hit of all, if there is no live cluster, and else before
      some hit of a live cluster. */
  ghost predicate IsRecent(b: Book, latest: real, eps: real, h: HitId) {
    h < |b.pool| &&
    if b.clusters == map[] then b.pool[h].time >= latest - 10.0 * eps else IsNearCluster(b, b.pool[h].time + 10.0 * eps)
  }

  ghost predicate IsNearCluster(b: Book, t: real) {
    exists k, g :: k in b.clusters && g in b.clusters[k].hits && g < |b.pool| && b.pool[g].time <= t
  }

  /** The earliest first hit is what decides. */
  lemma NearClusterIsLate(pts: seq<Point>, cfg: Config, st: State, t: real)
    requires Valid(pts, cfg, st) && TimeOrdered(pts) && Sane(st.book) && NoEmptyCluster(st.book)
    requires EarliestBelow(st.book, st.book.next).Set?
    ensures IsNearCluster(st.book, t) <==> EarliestBelow(st.book, st.book.next).time <= t
  {
    hide Valid, EarliestBelow;
    var b, e := st.book, EarliestBelow(st.book, st.book.next);
    EarliestIs(b, b.next);
    var k :| k in b.clusters && e.time == b.pool[b.clusters[k].hits[0]].time;
    var g := b.clusters[k].hits[0];
    assert g in b.clusters[k].hits && g < |b.pool|;
    forall k, g | k in b.clusters && g in b.clusters[k].hits && g < |b.pool|
      ensures e.time <= b.pool[g].time
    {
      FirstIsEarliest(pts, cfg, st, k, g);
    }
    hide Sane, NoEmptyCluster;
  }

  lemma RecentIsLate(pts: seq<Point>, cfg: Config, st: State, h: HitId)
    requires cfg.eps >= 0.0 && Valid(pts, cfg, st) && TimeOrdered(pts) && h < |st.book.pool|
    ensures Sane(st.book) && NoEmptyCluster(st.book)
    ensures var e := EarliestBelow(st.book, st.book.next);
      IsRecent(st.book, st.latest, cfg.eps, h) <==>
        st.book.pool[h].time >= (if e.Unset? then st.latest else e.time) - 10.0 * cfg.eps
  {
    ValidNoLaterHit(pts, cfg, st);
    var b, e := st.book, EarliestBelow(st.book, st.book.next);
    assert Sane(b);
    hide Valid, EarliestBelow, IsNearCluster, NoEmptyCluster;
    UnsetWithoutClusters(b, b.next);
    if e.Set? {
      NearClusterIsLate(pts, cfg, st, b.pool[h].time + 10.0 * cfg.eps);
    } else {
      assert (forall k :: k !in b.clusters) ==> b.clusters == map[];
    }
  }

  lemma FirstIsEarliest(pts: seq<Point>, cfg: Config, st: State, k: int, g: HitId)
    requires Valid(pts, cfg, st) && k in st.book.clusters && g in st.book.clusters[k].hits
    ensures st.book.clusters[k].hits != [] && InPool(st.book.pool, st.book.clusters[k].hits)
    ensures st.book.pool[st.book.clusters[k].hits[0]].time <= st.book.pool[g].time
  {
    assert LiveCluster(pts, cfg.eps, st, k);
  }

  /** Dropping hits leaves exactly the recent ones. */
  lemma TrimKeepsRecent(pts: seq<Point>, cfg: Config, st: State)
    requires cfg.eps >= 0.0 && Valid(pts, cfg, st) && TimeOrdered(pts)
    ensures Sane(st.book) && NoEmptyCluster(st.book) && InPool(st.book.pool, st.hits)
    ensures forall h :: h in Trim(st, cfg.eps).hits <==> h in st.hits && IsRecent(st.book, st.latest, cfg.eps, h)
  {
    HitsInOrder(pts, cfg, st);
    ValidNoLaterHit(pts, cfg, st);
    assert Sane(st.book);
    hide Valid, IsRecent, EarliestBelow, LowerBound, NoEmptyCluster, Sane;
    var pool, e := st.book.pool, EarliestBelow(st.book, st.book.next);
    var t := (if e.Unset? then st.latest else e.time) - 10.0 * cfg.eps;
    LateFromLowerBound(pool, st.hits, t);
    var rest := Trim(st, cfg.eps).hits;
    assert rest == st.hits[LowerBound(pool, st.hits, t, 0)..];
    hide Trim;
    forall h
      ensures h in rest <==> h in st.hits && IsRecent(st.book, st.latest, cfg.eps, h)
    {
      if h in st.hits {
        RecentIsLate(pts, cfg, st, h);
      }
    }
  }

  lemma HitsInOrder(pts: seq<Point>, cfg: Config, st: State)
    requires Valid(pts, cfg, st) && TimeOrdered(pts)
    ensures InPool(st.book.pool, st.hits)
    ensures forall i, j :: 0 <= i <= j < |st.hits| ==> st.book.pool[st.hits[i]].time <= st.book.pool[st.hits[j]].time
  {
    ValidNoLaterHit(pts, cfg, st);
    hide Linked, LiveCluster, IndicesOk;
  }

  lemma LateFromLowerBound(pool: Pool, hits: seq<HitId>, t: real)
    requires InPool(pool, hits)
    requires forall i, j :: 0 <= i <= j < |hits| ==> pool[hits[i]].time <= pool[hits[j]].time
    ensures forall h :: h in hits[LowerBound(pool, hits, t, 0)..] <==> h in hits && pool[h].time >= t
  {
    LowerBoundCorrect(pool, hits, t, 0);
    LowerBoundStops(pool, hits, t, 0);
    var n := LowerBound(pool, hits, t, 0);
    hide LowerBound;
    forall h
      ensures h in hits[n..] <==> h in hits && pool[h].time >= t
    {
      if h in hits[n..] {
        var i :| 0 <= i < |hits[n..]| && hits[n..][i] == h;
        assert hits[n + i] == h;
      }
      if h in hits && pool[h].time >= t {
        var i :| 0 <= i < |hits| && hits[i] == h;
        assert hits[n..][i - n] == h;
      }
    }
  }

  lemma {:induction false} LowerBoundStops(pool: Pool, hits: seq<HitId>, t: real, i: nat)
    requires InPool(pool, hits) && i <= |hits|
    ensures var n := LowerBound(pool, hits, t, i); n < |hits| ==> pool[hits[n]].time >= t
    decreases |hits| - i
  {
    if i < |hits| && pool[hits[i]].time < t {
      LowerBoundStops(pool, hits, t, i + 1);
    }
  }

  // ----- runs

  lemma StepCorrect(pts: seq<Point>, cfg: Config, st: State)
    requires cfg.eps >= 0.0 && TimeOrdered(pts) && pts != [] && Valid(pts[..|pts| - 1], cfg, st)
    ensures var p := pts[|pts| - 1];
      && TimeOrdered(pts[..|pts| - 1]) && Ready(st, p, cfg)
      && var r := Arrive(st, p, cfg).state;
         && Sane(r.book) && NoEmptyCluster(r.book) && InPool(r.book.pool, r.hits)
         && Valid(pts, cfg, r) && Valid(pts, cfg, Trim(r, cfg.eps))
  {
    hide Arrive, Ready, Trim, Finished, LiveCluster;
    var n := |pts| - 1;
    assert pts == pts[..n] + [pts[n]];
    ArriveCorrect(pts[..n], cfg, st, pts[n]);
    TrimCorrect(pts, cfg, Arrive(st, pts[n], cfg).state);
  }

  /** The run over the hits at `pts`, dropping old hits after each arrival that `trim` names. */
  function Run(pts: seq<Point>, cfg: Config, trim: nat -> bool): (r: Outcome)
    requires cfg.eps >= 0.0 && TimeOrdered(pts)
    ensures Valid(pts, cfg, r.state)
  {
    if pts == [] then
      InitialValid(cfg);
      Outcome(Initial(cfg), [])
    else
      var n := |pts| - 1;
      var before := Run(pts[..n], cfg, trim);
      StepCorrect(pts, cfg, before.state);
      var arrived := Arrive(before.state, pts[n], cfg);
      Outcome(if trim(n) then Trim(arrived.state, cfg.eps) else arrived.state, before.completed + arrived.completed)
  }

  /** Two states that differ at most in the old hits they still hold take an arrival in the same way. */
  lemma ArriveIgnoresOldHits(pts: seq<Point>, cfg: Config, st: State, st': State, p: Point)
    requires cfg.eps >= 0.0 && TimeOrdered(pts + [p])
    requires Valid(pts, cfg, st) && Valid(pts, cfg, st') && st'.book == st.book && |st'.hits| <= |st.hits|
    ensures Ready(st, p, cfg) && Ready(st', p, cfg)
    ensures Arrive(st, p, cfg).completed == Arrive(st', p, cfg).completed
    ensures Arrive(st, p, cfg).state.book == Arrive(st', p, cfg).state.book
  {
    ArriveReady(pts, cfg, st, p);
    ArriveReady(pts, cfg, st', p);
    hide Valid, Ready;
    LinkIgnoresOldHits(pts, cfg, st, st', p);
    hide Link;
  }

  lemma LinkIgnoresOldHits(pts: seq<Point>, cfg: Config, st: State, st': State, p: Point)
    requires cfg.eps >= 0.0 && TimeOrdered(pts + [p])
    requires Valid(pts, cfg, st) && Valid(pts, cfg, st') && st'.book == st.book && |st'.hits| <= |st.hits|
    ensures Link(st, p, cfg) == Link(st', p, cfg)
  {
    hide LinkNeighbours, IndicesOk, LiveCluster, Linked, CoreFlag;
    var n := |pts|;
    var lo, lo' := n - |st.hits|, n - |st'.hits|;
    var pool := st.book.pool + [NewHit(p.time, p.chan)];
    OldHitsOutOfReach(pts, cfg, st, p, lo, lo');
    assert st.hits + [n] == Arrivals(lo, n + 1) && st'.hits + [n] == Arrivals(lo', n + 1);
    assert ListsInPool(pool) by {
      assert forall i :: 0 <= i < n ==> InPool(st.book.pool, pool[i].neighbours);
    }
    ScanIgnoresOutOfReach(pool, lo, lo', |st'.hits| + 1, n, cfg.eps, cfg.minPts);
  }

  lemma OldHitsOutOfReach(pts: seq<Point>, cfg: Config, st: State, p: Point, lo: nat, lo': nat)
    requires Valid(pts, cfg, st) && TimeOrdered(pts + [p]) && lo <= lo' <= |pts|
    requires OutOfReach(pts, lo', st.latest, cfg.eps)
    ensures |st.book.pool| == |pts| && forall h: HitId :: lo <= h < lo' ==> st.book.pool[h].time < p.time - cfg.eps
  {
    hide IndicesOk, LiveCluster, CoreFlag;
    var more := pts + [p];
    forall h: HitId | lo <= h < lo'
      ensures st.book.pool[h].time < p.time - cfg.eps
    {
      assert st.book.pool[h].At() == pts[h];
      assert more[|pts| - 1].time <= more[|pts|].time;
    }
  }

  lemma FewerHits(pts: seq<Point>, cfg: Config, st: State)
    requires Valid(pts, cfg, st)
    ensures |st.hits| <= |pts|
  {
  }

  /** Dropping old hits is invisible: whatever the arrivals after which hits are dropped, the same
      clusters are handed out in the same order, and the same clusters stay live. */
  lemma {:induction false} TrimmingInvisible(pts: seq<Point>, cfg: Config, trim: nat -> bool)
    requires cfg.eps >= 0.0 && TimeOrdered(pts)
    ensures Run(pts, cfg, trim).completed == Run(pts, cfg, i => false).completed
    ensures Run(pts, cfg, trim).state.book == Run(pts, cfg, i => false).state.book
  {
    hide Valid, Arrive, Ready;
    if pts != [] {
      var n := |pts| - 1;
      TrimmingInvisible(pts[..n], cfg, trim);
      assert pts == pts[..n] + [pts[n]];
      var a, a' := Run(pts[..n], cfg, i => false), Run(pts[..n], cfg, trim);
      UntrimmedHoldsAll(pts[..n], cfg);
      FewerHits(pts[..n], cfg, a'.state);
      ArriveIgnoresOldHits(pts[..n], cfg, a.state, a'.state, pts[n]);
    }
  }

  lemma {:induction false} UntrimmedHoldsAll(pts: seq<Point>, cfg: Config)
    requires cfg.eps >= 0.0 && TimeOrdered(pts)
    ensures |Run(pts, cfg, i => false).state.hits| == |pts|
  {
    if pts != [] {
      UntrimmedHoldsAll(pts[..|pts| - 1], cfg);
    }
  }
}
