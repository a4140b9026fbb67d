/** The main result about the clusterer: for minPts <= 3, after any run, its clusters are exactly the
    connected components with at least minPts hits, each in one place. */
module Components {
  import opened Graph
  import opened Hits
  import opened Clusters
  import opened ClusterInvariant
  import opened Placement
  import opened Exactness
  import opened Collections
  import opened ExactPlacement
  import opened Stream
  import opened Finality

  // ----- cluster numbers over a run

  ghost predicate HoldsNumber(pool: Pool, c: Cluster) {
    forall h: HitId :: h in c.hits <==> Has(pool, h, c.index)
  }

  ghost predicate IsCompleted(completed: seq<Cluster>, k: int) {
    exists i :: 0 <= i < |completed| && completed[i].index == k
  }

  /** What links cluster numbers to the clusters handed out so far. */
  ghost predicate Accounted(b: Book, completed: seq<Cluster>) {
    && (forall i :: 0 <= i < |completed| ==>
         HoldsNumber(b.pool, completed[i]) && 0 <= completed[i].index < b.next && completed[i].index !in b.clusters)
    && (forall i, i' :: 0 <= i < i' < |completed| ==> completed[i].index != completed[i'].index)
    && (forall h: HitId, k ::
          k != UNDEFINED_CLUSTER && Has(b.pool, h, k) ==> k in b.clusters || IsCompleted(completed, k))
  }

  ghost predicate ExactOutcome(pts: seq<Point>, cfg: Config, o: Outcome) {
    && Exact(pts, cfg.eps, o.state.book.pool, cfg.minPts) && ExactClusters(o.state.book)
    && Accounted(o.state.book, o.completed)
  }

  /** Hits of clusters that are not live keep their numbers, and no other hit gets such a number. */
  ghost predicate OldNumbersKept(b: Book, r: Book) {
    |r.pool| == |b.pool| &&
    forall h: HitId, k :: 0 <= k < b.next && k !in b.clusters ==> (Has(r.pool, h, k) <==> Has(b.pool, h, k))
  }

  lemma PlacedExact(pts: seq<Point>, eps: real, b: Book, r: Book, n: HitId, minPts: nat)
    requires Ready3(pts, eps, b, n, minPts) && Placed(b, r, n, minPts) && Placing(pts, eps, r, pts[n].time)
    ensures Exact(pts, eps, r.pool, minPts) && ExactClusters(r)
    ensures OldNumbersKept(b, r)
  {
    if a :| Joined(b, r, n, a, minPts) {
      JoinedExact(pts, eps, b, r, n, a, minPts);
      JoinedKeepsOldNumbers(pts, eps, b, r, n, a, minPts);
    } else if seed, a :| StartedAt(b, r, n, seed, a, minPts) {
      StartedAtExact(pts, eps, b, r, n, seed, a, minPts);
      StartedAtKeepsOldNumbers(b, r, n, seed, a, minPts);
    } else {
      IdleExact(pts, eps, b, n, minPts);
    }
  }

  lemma JoinedKeepsOldNumbers(pts: seq<Point>, eps: real, b: Book, r: Book, n: HitId, a: set<HitId>, minPts: nat)
    requires Ready3(pts, eps, b, n, minPts) && Joined(b, r, n, a, minPts)
    ensures OldNumbersKept(b, r)
  {
    var k := Smallest(Touched(b, n, minPts));
    JoinedIsJoinedHits(b, r, n, a, minPts);
    hide Joined, Arrived, AlmostExact;
    forall h: HitId, j | 0 <= j < b.next && j !in b.clusters
      ensures Has(r.pool, h, j) <==> Has(b.pool, h, j)
    {
      if h in a {
        JoinedFromTouched(pts, eps, b, r.pool, n, k, a, minPts, h);
      }
    }
  }

  lemma StartedAtKeepsOldNumbers(b: Book, r: Book, n: HitId, seed: HitId, a: set<HitId>, minPts: nat)
    requires Sane(b) && n < |b.pool| && StartedAt(b, r, n, seed, a, minPts)
    ensures OldNumbersKept(b, r)
  {
    StartedAtRenumbered(b, r, n, seed, a, minPts);
    hide StartedAt;
    forall h: HitId, j | 0 <= j < b.next && j !in b.clusters
      ensures Has(r.pool, h, j) <==> Has(b.pool, h, j)
    {
      if h in a {
        assert h in Unclustered(b.pool);
      }
    }
  }

  // ----- the sweep accounts for every cluster number

  lemma SweptHoldsNumber(pts: seq<Point>, eps: real, b: Book, now: real, k: int)
    requires Placing(pts, eps, b, now) && ExactClusters(b) && k in b.clusters
    requires b.clusters[k].index == k
    ensures HoldsNumber(b.pool, b.clusters[k])
  {
    forall h: HitId | Has(b.pool, h, k)
      ensures h in b.clusters[k].hits
    {
      assert IndexOk(b, h, now, eps);
    }
  }

  lemma SweepAccounts(pts: seq<Point>, eps: real, b: Book, now: real, s: Swept, done: seq<Cluster>)
    requires Placing(pts, eps, b, now) && ExactClusters(b) && SweptBelow(b.clusters, now, eps, b.next, s)
    requires Accounted(b, done)
    ensures Accounted(b.(clusters := s.live), done + s.completed)
  {
    var all := done + s.completed;
    forall i | 0 <= i < |s.completed|
      ensures HoldsNumber(b.pool, s.completed[i]) && s.completed[i].index in b.clusters
      ensures s.completed[i].index !in s.live
    {
      assert HandedOut(b.clusters, now, eps, b.next, s.completed[i]);
      SweptHoldsNumber(pts, eps, b, now, s.completed[i].index);
    }
    hide Placing, HoldsNumber, Has;
    forall i, i' | 0 <= i < i' < |all|
      ensures all[i].index != all[i'].index
    {
      if i < |done| <= i' {
        assert all[i'] == s.completed[i' - |done|];
      }
    }
    forall h: HitId, k | k != UNDEFINED_CLUSTER && Has(b.pool, h, k)
      ensures k in s.live || IsCompleted(all, k)
    {
      if k in b.clusters {
        SweepCompletes(pts, eps, b, now, s, h, k);
      }
      CompletedAppend(done, s.completed, k);
    }
  }

  lemma SweepCompletes(pts: seq<Point>, eps: real, b: Book, now: real, s: Swept, h: HitId, k: int)
    requires Placing(pts, eps, b, now) && SweptBelow(b.clusters, now, eps, b.next, s)
    requires Has(b.pool, h, k) && k in b.clusters
    ensures k in s.live || IsCompleted(s.completed, k)
  {
    assert IndexOk(b, h, now, eps);
    if k !in s.live {
      var c := b.clusters[k].(completeness := KComplete);
      assert c in s.completed;
      var i :| 0 <= i < |s.completed| && s.completed[i] == c;
      assert s.completed[i].index == k;
    }
  }

  lemma CompletedAppend(done: seq<Cluster>, more: seq<Cluster>, k: int)
    ensures IsCompleted(done + more, k) <==> IsCompleted(done, k) || IsCompleted(more, k)
  {
    if IsCompleted(done, k) {
      var i :| 0 <= i < |done| && done[i].index == k;
      assert (done + more)[i].index == k;
    }
    if IsCompleted(more, k) {
      var i :| 0 <= i < |more| && more[i].index == k;
      assert (done + more)[|done| + i].index == k;
    }
  }

  // ----- one arrival

  /** Clusters handed out earlier keep their hits. */
  lemma AccountedPlaced(pts: seq<Point>, p: Point, eps: real, b0: Book, b: Book, r: Book, n: HitId, minPts: nat,
                        done: seq<Cluster>)
    requires LinkedNext(pts, p, eps, b0.pool, b.pool) && b == b0.(pool := b.pool) && n == |pts| && |b.pool| == n + 1
    requires Accounted(b0, done) && Sane(b) && Placed(b, r, n, minPts) && OldNumbersKept(b, r)
    requires IndicesOk(r, p.time, eps)
    ensures Accounted(r, done)
  {
    PlacedIndices(b, r, n, minPts);
    forall h: HitId, k | k != UNDEFINED_CLUSTER && Has(r.pool, h, k)
      ensures k in r.clusters || (0 <= k < b.next && k !in b.clusters)
    {
      assert IndexOk(r, h, p.time, eps);
    }
    hide Placed;
    forall h: HitId, k | k != UNDEFINED_CLUSTER && k !in b.clusters && 0 <= k < b.next
      ensures Has(r.pool, h, k) <==> Has(b0.pool, h, k)
    {
      assert Has(r.pool, h, k) <==> Has(b.pool, h, k);
      assert Has(b.pool, h, k) <==> Has(b0.pool, h, k);
    }
    forall i | 0 <= i < |done|
      ensures HoldsNumber(r.pool, done[i]) && 0 <= done[i].index < r.next && done[i].index !in r.clusters
    {
      assert HoldsNumber(b0.pool, done[i]);
    }
  }

  lemma ArriveExact(pts: seq<Point>, cfg: Config, o: Outcome, p: Point)
    requires cfg.eps >= 0.0 && cfg.minPts <= 3 && TimeOrdered(pts + [p])
    requires Valid(pts, cfg, o.state) && ExactOutcome(pts, cfg, o)
    ensures Ready(o.state, p, cfg)
    ensures var r := Arrive(o.state, p, cfg); ExactOutcome(pts + [p], cfg, Outcome(r.state, o.completed + r.completed))
  {
    var n, more, eps := |pts|, pts + [p], cfg.eps;
    var b0 := o.state.book;
    var b := b0.(pool := Link(o.state, p, cfg));
    ArriveReady(pts, cfg, o.state, p);
    LinkedIsArrived(pts, cfg, o.state, p);
    LinkCorrect(pts, cfg, o.state, p);
    PlaceCorrect(more, eps, b, n, cfg.minPts);
    var placed := Place(b, n, cfg.minPts);
    hide Link, Place, IndicesOk, ClustersOk;
    LinkedIsAlmostExact(pts, p, eps, b0, b.pool, cfg.minPts);
    LinkedSymmetric(more, eps, b.pool);
    hide Linked, Exact, AlmostExact, ExactClusters, Placed, Accounted, Symmetric, OldNumbersKept;
    PlacedExact(more, eps, b, placed, n, cfg.minPts);
    AccountedPlaced(pts, p, eps, b0, b, placed, n, cfg.minPts, o.completed);
    SweepCorrect(placed.clusters, p.time, eps, placed.next);
    var s := Sweep(placed.clusters, p.time, eps, placed.next);
    hide Sweep;
    SweepAccounts(more, eps, placed, p.time, s, o.completed);
    SweepKeepsExactClusters(placed, p.time, eps, s);
  }

  lemma SweepKeepsExactClusters(b: Book, now: real, eps: real, s: Swept)
    requires Sane(b) && ExactClusters(b) && SweptBelow(b.clusters, now, eps, b.next, s)
    ensures ExactClusters(b.(clusters := s.live))
  {
  }

  lemma {:induction false} RunExact(pts: seq<Point>, cfg: Config, trim: nat -> bool)
    requires cfg.eps >= 0.0 && cfg.minPts <= 3 && TimeOrdered(pts)
    ensures ExactOutcome(pts, cfg, Run(pts, cfg, trim))
  {
    if pts == [] {
      EmptyRun(cfg, trim);
      assert Run([], cfg, trim).state == Initial(cfg);
    } else {
      var n := |pts| - 1;
      RunExact(pts[..n], cfg, trim);
      RunStep(pts, cfg, trim);
      hide Run, Valid, Arrive;
      ArriveExact(pts[..n], cfg, Run(pts[..n], cfg, trim), pts[n]);
    }
  }

  // ----- cluster numbers and components

  ghost function Numbered(pool: Pool, k: int): set<HitId> {
    set h: HitId | 0 <= h < |pool| && pool[h].cluster == k
  }

  lemma NumberIsComponent(pts: seq<Point>, eps: real, pool: Pool, minPts: nat, h: HitId)
    requires Linked(pool, pts, eps) && Exact(pts, eps, pool, minPts)
    requires h < |pool| && pool[h].cluster != UNDEFINED_CLUSTER
    ensures Numbered(pool, pool[h].cluster) == Component(pts, eps, h)
  {
    var k := pool[h].cluster;
    var s := Numbered(pool, k);
    forall x: HitId, y: HitId | x in s && Adjacent(pts, eps, x, y)
      ensures y in s
    {
      assert y in pool[x].neighbours;
      assert SameAcrossEdge(pool, x, y);
    }
    hide Adjacent;
    forall g: HitId | g < |pool|
      ensures g in s <==> Connected(pts, eps, h, g)
    {
      if Connected(pts, eps, h, g) {
        ClosedSetHoldsConnected(pts, eps, s, h, g);
      }
      if g in s {
        assert Has(pool, h, k) && Has(pool, g, k);
      }
    }
  }

  lemma NumberIsLarge(pts: seq<Point>, eps: real, pool: Pool, minPts: nat, h: HitId)
    requires Linked(pool, pts, eps) && Exact(pts, eps, pool, minPts)
    requires h < |pool| && pool[h].cluster != UNDEFINED_CLUSTER
    ensures |Numbered(pool, pool[h].cluster)| >= minPts
  {
    var k := pool[h].cluster;
    assert Has(pool, h, k);
    var c: HitId :| Has(pool, c, k) && pool[c].IsCore(minPts);
    var s := Members(pool[c].neighbours) + {c};
    forall x: HitId | x in s
      ensures x in Numbered(pool, k)
    {
      if x != c {
        assert SameAcrossEdge(pool, c, x);
      }
    }
    assert c !in pool[c].neighbours;
    assert HitSetList(pool, c);
    HitSetSize(pool, pool[c].neighbours);
    SubsetSize(s, Numbered(pool, k));
  }

  /** A hit in no cluster and its neighbours are all of its component. */
  lemma UnclusteredIsSmall(pts: seq<Point>, eps: real, pool: Pool, minPts: nat, h: HitId)
    requires minPts <= 3 && Linked(pool, pts, eps) && Exact(pts, eps, pool, minPts)
    requires h < |pool| && pool[h].cluster == -1
    ensures |Component(pts, eps, h)| < minPts
  {
    var s := Members(pool[h].neighbours) + {h};
    assert Has(pool, h, UNDEFINED_CLUSTER);
    forall x: HitId, y: HitId | x in s && Adjacent(pts, eps, x, y)
      ensures y in s
    {
      assert y in pool[x].neighbours;
      if x != h {
        assert SameAcrossEdge(pool, h, x);
        assert Has(pool, x, UNDEFINED_CLUSTER);
        AdjacentSymmetric(pts, eps, h, x);
        assert h in pool[x].neighbours;
        if y != h {
          AtLeastTwo(pool[x].neighbours, h, y);
        }
      }
    }
    hide Adjacent;
    forall g: HitId | g in Component(pts, eps, h)
      ensures g in s
    {
      ClosedSetHoldsConnected(pts, eps, s, h, g);
    }
    assert HitSetList(pool, h);
    HitSetSize(pool, pool[h].neighbours);
    SubsetSize(Component(pts, eps, h), s);
  }

  // ----- the main results

  ghost predicate IsLive(o: Outcome, s: set<HitId>) {
    exists k :: k in o.state.book.clusters && Members(o.state.book.clusters[k].hits) == s
  }

  ghost predicate IsHandedOut(o: Outcome, s: set<HitId>) {
    exists i :: 0 <= i < |o.completed| && Members(o.completed[i].hits) == s
  }

  ghost predicate IsLargeComponent(pts: seq<Point>, cfg: Config, s: set<HitId>) {
    exists h: HitId :: h < |pts| && s == Component(pts, cfg.eps, h) && |s| >= cfg.minPts
  }

  lemma HoldsNumberNumbered(pool: Pool, c: Cluster)
    requires HoldsNumber(pool, c)
    ensures Members(c.hits) == Numbered(pool, c.index)
  {
    forall h: HitId
      ensures h in Members(c.hits) <==> h in Numbered(pool, c.index)
    {
      assert h in c.hits <==> Has(pool, h, c.index);
    }
  }

  lemma ClusterIsLargeComponent(pts: seq<Point>, cfg: Config, pool: Pool, c: Cluster)
    requires Linked(pool, pts, cfg.eps) && Exact(pts, cfg.eps, pool, cfg.minPts)
    requires HoldsNumber(pool, c) && c.hits != [] && c.index != UNDEFINED_CLUSTER
    ensures IsLargeComponent(pts, cfg, Members(c.hits))
  {
    var h := c.hits[0];
    assert h in c.hits;
    assert Has(pool, h, c.index);
    HoldsNumberNumbered(pool, c);
    NumberIsComponent(pts, cfg.eps, pool, cfg.minPts, h);
    NumberIsLarge(pts, cfg.eps, pool, cfg.minPts, h);
  }

  lemma LiveHoldsNumber(pts: seq<Point>, cfg: Config, st: State, k: int)
    requires Valid(pts, cfg, st) && ExactClusters(st.book) && k in st.book.clusters
    ensures HoldsNumber(st.book.pool, st.book.clusters[k]) && st.book.clusters[k].hits != []
  {
    assert LiveCluster(pts, cfg.eps, st, k);
    forall h: HitId | Has(st.book.pool, h, k)
      ensures h in st.book.clusters[k].hits
    {
      assert IndexOk(st.book, h, st.latest, cfg.eps);
    }
  }

  /** For minPts <= 3, after any run, the hit sets of the live clusters and of those handed out are exactly
      the connected components with at least minPts hits. */
  lemma ClustersAreComponents(pts: seq<Point>, cfg: Config, trim: nat -> bool, s: set<HitId>)
    requires cfg.eps >= 0.0 && cfg.minPts <= 3 && TimeOrdered(pts)
    ensures var o := Run(pts, cfg, trim); IsLive(o, s) || IsHandedOut(o, s) <==> IsLargeComponent(pts, cfg, s)
  {
    var o := Run(pts, cfg, trim);
    RunExact(pts, cfg, trim);
    forall i | 0 <= i < |o.completed|
      ensures o.completed[i].hits != []
    {
      CompletedAreFinished(pts, cfg, trim, i);
    }
    hide Run, Valid, ExactOutcome;
    if IsLive(o, s) || IsHandedOut(o, s) {
      ClusterIsComponent(pts, cfg, o, s);
    }
    if IsLargeComponent(pts, cfg, s) {
      ComponentIsCluster(pts, cfg, o, s);
    }
  }

  lemma ClusterIsComponent(pts: seq<Point>, cfg: Config, o: Outcome, s: set<HitId>)
    requires Valid(pts, cfg, o.state) && ExactOutcome(pts, cfg, o)
    requires forall i :: 0 <= i < |o.completed| ==> o.completed[i].hits != []
    requires IsLive(o, s) || IsHandedOut(o, s)
    ensures IsLargeComponent(pts, cfg, s)
  {
    if IsLive(o, s) {
      var k :| k in o.state.book.clusters && Members(o.state.book.clusters[k].hits) == s;
      LiveHoldsNumber(pts, cfg, o.state, k);
      ClusterIsLargeComponent(pts, cfg, o.state.book.pool, o.state.book.clusters[k]);
    } else {
      var i :| 0 <= i < |o.completed| && Members(o.completed[i].hits) == s;
      ClusterIsLargeComponent(pts, cfg, o.state.book.pool, o.completed[i]);
    }
  }

  lemma ComponentIsCluster(pts: seq<Point>, cfg: Config, o: Outcome, s: set<HitId>)
    requires cfg.minPts <= 3 && Valid(pts, cfg, o.state) && ExactOutcome(pts, cfg, o) && IsLargeComponent(pts, cfg, s)
    ensures IsLive(o, s) || IsHandedOut(o, s)
  {
    var h: HitId :| h < |pts| && s == Component(pts, cfg.eps, h) && |s| >= cfg.minPts;
    var pool := o.state.book.pool;
    var k := pool[h].cluster;
    if k == UNDEFINED_CLUSTER {
      UnclusteredIsSmall(pts, cfg.eps, pool, cfg.minPts, h);
    }
    assert Has(pool, h, k);
    NumberIsComponent(pts, cfg.eps, pool, cfg.minPts, h);
    hide Linked, Exact, Component;
    if k in o.state.book.clusters {
      LiveHoldsNumber(pts, cfg, o.state, k);
      HoldsNumberNumbered(pool, o.state.book.clusters[k]);
    } else {
      var i :| 0 <= i < |o.completed| && o.completed[i].index == k;
      HoldsNumberNumbered(pool, o.completed[i]);
    }
  }

  /** For minPts <= 3 no hit is in two clusters, live or handed out. */
  lemma EachHitInOneCluster(pts: seq<Point>, cfg: Config, trim: nat -> bool, h: HitId)
    requires cfg.eps >= 0.0 && cfg.minPts <= 3 && TimeOrdered(pts)
    ensures var o := Run(pts, cfg, trim); var live := o.state.book.clusters;
      && (forall k, k' :: k in live && k' in live && h in live[k].hits && h in live[k'].hits ==> k == k')
      && (forall i, i' :: 0 <= i < i' < |o.completed| && h in o.completed[i].hits ==> h !in o.completed[i'].hits)
      && (forall k, i :: k in live && 0 <= i < |o.completed| && h in live[k].hits ==> h !in o.completed[i].hits)
  {
    var o := Run(pts, cfg, trim);
    RunExact(pts, cfg, trim);
    var live, pool := o.state.book.clusters, o.state.book.pool;
    hide Run, Valid, Exact;
    forall i | 0 <= i < |o.completed| && h in o.completed[i].hits
      ensures Has(pool, h, o.completed[i].index)
    {
      assert HoldsNumber(pool, o.completed[i]);
    }
    hide HoldsNumber;
    forall k | k in live && h in live[k].hits
      ensures Has(pool, h, k)
    {
    }
  }

  /** For minPts <= 3 a large component is handed out exactly when all its hits, and time 0, are more than
      eps before the latest hit; until then it is live. */
  lemma HandedOutWhenComplete(pts: seq<Point>, cfg: Config, trim: nat -> bool, s: set<HitId>)
    requires cfg.eps >= 0.0 && cfg.minPts <= 3 && TimeOrdered(pts) && IsLargeComponent(pts, cfg, s) && pts != []
    ensures var reach := pts[|pts| - 1].time - cfg.eps;
      IsHandedOut(Run(pts, cfg, trim), s) <==>
        0.0 < reach && forall h: HitId :: h in s && h < |pts| ==> pts[h].time < reach
  {
    var o := Run(pts, cfg, trim);
    var reach := pts[|pts| - 1].time - cfg.eps;
    if IsHandedOut(o, s) {
      var i :| 0 <= i < |o.completed| && Members(o.completed[i].hits) == s;
      CompletedAreFinished(pts, cfg, trim, i);
      hide Run, Linked;
      forall h: HitId | h in s && h < |pts|
        ensures pts[h].time < reach
      {
        assert h in o.completed[i].hits;
        assert o.state.book.pool[h].At() == pts[h];
      }
    } else {
      ClustersAreComponents(pts, cfg, trim, s);
      hide Run, Linked, IsLargeComponent, IsHandedOut;
      LiveIsWithinReach(pts, cfg, o.state, s);
    }
  }

  /** All hits of `s`, and time 0, are more than eps before the latest hit. */
  ghost predicate IsComplete(pts: seq<Point>, eps: real, s: set<HitId>) {
    pts != [] &&
    var reach := pts[|pts| - 1].time - eps;
    0.0 < reach && forall h: HitId :: h in s && h < |pts| ==> pts[h].time < reach
  }

  /** So for minPts <= 3 the clusters handed out are exactly the large components that are complete. */
  lemma HandedOutAreComplete(pts: seq<Point>, cfg: Config, trim: nat -> bool, s: set<HitId>)
    requires cfg.eps >= 0.0 && cfg.minPts <= 3 && TimeOrdered(pts)
    ensures IsHandedOut(Run(pts, cfg, trim), s) <==> IsLargeComponent(pts, cfg, s) && IsComplete(pts, cfg.eps, s)
  {
    ClustersAreComponents(pts, cfg, trim, s);
    if IsLargeComponent(pts, cfg, s) {
      HandedOutWhenComplete(pts, cfg, trim, s);
    }
  }

  lemma LiveIsWithinReach(pts: seq<Point>, cfg: Config, st: State, s: set<HitId>)
    requires pts != [] && Valid(pts, cfg, st)
    requires exists k :: k in st.book.clusters && Members(st.book.clusters[k].hits) == s
    ensures var reach := pts[|pts| - 1].time - cfg.eps;
      !(0.0 < reach) || exists h: HitId :: h in s && h < |pts| && !(pts[h].time < reach)
  {
    var k :| k in st.book.clusters && Members(st.book.clusters[k].hits) == s;
    var c := st.book.clusters[k];
    assert LiveCluster(pts, cfg.eps, st, k);
    if c.latestTime != 0.0 {
      var h: HitId :| h in c.hits && st.book.pool[h].time == c.latestTime;
      assert h in s && st.book.pool[h].At() == pts[h];
    }
  }
}
