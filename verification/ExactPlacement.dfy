/** Placing a hit makes cluster numbers exact again, in each of the three cases (minPts <= 3). */
module ExactPlacement {
  import opened Graph
  import opened Hits
  import opened Clusters
  import opened ClusterGrowth
  import opened ClusterMoves
  import opened ClusterInvariant
  import opened Placement
  import opened Exactness

  /** The hits of `a`, and no others, are renumbered to `k`. */
  ghost predicate Renumbered(pool: Pool, pool': Pool, k: int, a: set<HitId>) {
    |pool'| == |pool| && forall h: HitId :: h < |pool| ==>
      pool'[h].neighbours == pool[h].neighbours && pool'[h].cluster == if h in a then k else pool[h].cluster
  }

  lemma PoolGrewRenumbered(pool: Pool, pool': Pool, k: int, a: set<HitId>, minPts: nat)
    requires PoolGrew(pool, pool', k, a, minPts)
    ensures Renumbered(pool, pool', k, a)
  {
    forall h: HitId | h < |pool|
      ensures pool'[h].neighbours == pool[h].neighbours && pool'[h].cluster == if h in a then k else pool[h].cluster
    {
      assert HitGrew(pool[h], pool'[h], k, h in a, minPts);
    }
  }

  lemma StartedAtRenumbered(b: Book, r: Book, n: HitId, seed: HitId, a: set<HitId>, minPts: nat)
    requires Sane(b) && n < |b.pool| && StartedAt(b, r, n, seed, a, minPts)
    ensures Renumbered(b.pool, r.pool, b.next, a) && a <= Unclustered(b.pool)
  {
    var b0 := if b.pool[n].IsCore(minPts) then MarkCore(b, n) else b;
    PoolGrewRenumbered(b0.pool, r.pool, b.next, a, minPts);
  }

  ghost predicate Symmetric(pool: Pool) {
    forall x: HitId, y: HitId ::
      x < |pool| && y in pool[x].neighbours ==> y < |pool| && y != x && x in pool[y].neighbours
  }

  lemma LinkedSymmetric(pts: seq<Point>, eps: real, pool: Pool)
    requires Linked(pool, pts, eps)
    ensures Symmetric(pool)
  {
    forall x: HitId, y: HitId | x < |pool| && y in pool[x].neighbours
      ensures y < |pool| && y != x && x in pool[y].neighbours
    {
      assert Adjacent(pts, eps, x, y);
      AdjacentSymmetric(pts, eps, x, y);
    }
  }

  /** The situation in which hit `n` is placed. */
  ghost predicate Ready3(pts: seq<Point>, eps: real, b: Book, n: HitId, minPts: nat) {
    minPts <= 3 && Arrived(pts, eps, b, n) && AlmostExact(pts, eps, b, n, minPts) && Symmetric(b.pool)
  }

  // ----- nothing happens

  lemma TouchedOrUnclustered(pts: seq<Point>, eps: real, b: Book, n: HitId, minPts: nat, h: HitId)
    requires Ready3(pts, eps, b, n, minPts) && h in b.pool[n].neighbours
    ensures h < |b.pool| && (b.pool[h].cluster == UNDEFINED_CLUSTER || b.pool[h].cluster in Touched(b, n, minPts))
  {
    assert h < |b.pool| && (Has(b.pool, h, UNDEFINED_CLUSTER) || b.pool[h].IsCore(minPts));
  }

  lemma IdleExact(pts: seq<Point>, eps: real, b: Book, n: HitId, minPts: nat)
    requires Ready3(pts, eps, b, n, minPts) && Idle(b, b, n, minPts)
    ensures Exact(pts, eps, b.pool, minPts) && ExactClusters(b)
  {
    hide Arrived;
    forall x: HitId, y: HitId | x < |b.pool| && y in b.pool[x].neighbours
      ensures SameAcrossEdge(b.pool, x, y)
    {
      if x == n {
        TouchedOrUnclustered(pts, eps, b, n, minPts, y);
      } else if y == n {
        TouchedOrUnclustered(pts, eps, b, n, minPts, x);
      }
    }
    forall h: HitId | h < |b.pool| && b.pool[h].IsCore(minPts)
      ensures !Has(b.pool, h, UNDEFINED_CLUSTER)
    {
      assert h != n;
      assert Has(b.pool, h, UNDEFINED_CLUSTER) ==> FewNeighbours(b.pool, h, n, minPts);
      assert n in b.pool[h].neighbours ==> h in b.pool[n].neighbours;
    }
  }

  // ----- a cluster starts

  /** What the hits `a` of a new cluster are known to satisfy. */
  ghost predicate NewCluster(pool: Pool, r: Pool, k: int, n: HitId, seed: HitId, a: set<HitId>, minPts: nat) {
    && n < |pool| && seed < |pool| && seed in a && pool[seed].IsCore(minPts)
    && Renumbered(pool, r, k, a) && k != UNDEFINED_CLUSTER
    && (forall h: HitId :: h in a ==> Has(pool, h, UNDEFINED_CLUSTER))
    && (forall h: HitId :: !Has(pool, h, k))
    && (forall h: HitId :: h in pool[n].neighbours ==> Has(pool, h, UNDEFINED_CLUSTER))
    && (forall f: HitId, g: HitId ::
          f in a && f < |pool| && pool[f].IsCore(minPts) && g in pool[f].neighbours ==> !Has(r, g, UNDEFINED_CLUSTER))
    && (forall f: HitId {:trigger FromCore(pool, a, f, minPts)} ::
          f in a ==> f == seed || FromCore(pool, a, f, minPts))
    && (if pool[n].IsCore(minPts) then seed == n else seed in pool[n].neighbours)
  }

  /** The links among the hits of a cluster are those from before it started. */
  lemma RenumberedLinks(pool: Pool, r: Pool, k: int, a: set<HitId>, seed: HitId, minPts: nat)
    requires Renumbered(pool, r, k, a) && Closed(r, a, minPts) && Reached(r, a, [seed], minPts)
    ensures forall f: HitId, g: HitId ::
      f in a && f < |pool| && pool[f].IsCore(minPts) && g in pool[f].neighbours ==> !Has(r, g, UNDEFINED_CLUSTER)
    ensures forall f: HitId {:trigger FromCore(pool, a, f, minPts)} ::
      f in a ==> f == seed || FromCore(pool, a, f, minPts)
  {
    forall f: HitId | f in a && f != seed
      ensures FromCore(pool, a, f, minPts)
    {
      assert f !in [seed];
      assert FromCore(r, a, f, minPts);
    }
    forall f: HitId, g: HitId | f in a && f < |pool| && pool[f].IsCore(minPts) && g in pool[f].neighbours
      ensures !Has(r, g, UNDEFINED_CLUSTER)
    {
      assert AllClustered(r, r[f].neighbours);
    }
  }

  lemma NotYetNumbered(pts: seq<Point>, eps: real, b: Book, n: HitId, minPts: nat, h: HitId)
    requires Ready3(pts, eps, b, n, minPts)
    ensures !Has(b.pool, h, b.next)
  {
    if h < |b.pool| {
      assert IndexOk(b, h, pts[n].time, eps);
    }
  }

  lemma StartedAtNewCluster(pts: seq<Point>, eps: real, b: Book, r: Book, n: HitId, seed: HitId, a: set<HitId>,
                            minPts: nat)
    requires Ready3(pts, eps, b, n, minPts) && StartedAt(b, r, n, seed, a, minPts)
    ensures NewCluster(b.pool, r.pool, b.next, n, seed, a, minPts)
  {
    StartedAtRenumbered(b, r, n, seed, a, minPts);
    hide Renumbered, Closed, Reached, PoolGrew, ClusterOk, Arrived, AlmostExact, Symmetric;
    RenumberedLinks(b.pool, r.pool, b.next, a, seed, minPts);
    forall h: HitId
      ensures !Has(b.pool, h, b.next)
    {
      NotYetNumbered(pts, eps, b, n, minPts, h);
    }
    forall h: HitId | h in b.pool[n].neighbours
      ensures Has(b.pool, h, UNDEFINED_CLUSTER)
    {
      TouchedOrUnclustered(pts, eps, b, n, minPts, h);
    }
    forall f: HitId | f in a
      ensures Has(b.pool, f, UNDEFINED_CLUSTER)
    {
      assert f in Unclustered(b.pool);
    }
  }

  /** A hit of the new cluster has no neighbour outside it. */
  lemma NewClusterEdge(pts: seq<Point>, eps: real, b: Book, r: Pool, n: HitId, seed: HitId, a: set<HitId>, minPts: nat,
                       x: HitId, y: HitId)
    requires Ready3(pts, eps, b, n, minPts) && NewCluster(b.pool, r, b.next, n, seed, a, minPts)
    requires x in a && x < |b.pool| && y in b.pool[x].neighbours
    ensures y in a
  {
    var pool := b.pool;
    hide Arrived;
    assert y < |pool| && x in pool[y].neighbours;
    if pool[x].IsCore(minPts) {
      assert !Has(r, y, UNDEFINED_CLUSTER);
      assert x != n && y != n ==> SameAcrossEdge(pool, x, y);
    } else {
      assert FromCore(pool, a, x, minPts);
      var g: HitId :| g in a && g < |pool| && pool[g].IsCore(minPts) && x in pool[g].neighbours;
      assert g in pool[x].neighbours;
      if y != g {
        AtLeastTwo(pool[x].neighbours, g, y);
      }
    }
  }

  lemma NewClusterCores(pts: seq<Point>, eps: real, b: Book, r: Pool, n: HitId, seed: HitId, a: set<HitId>,
                        minPts: nat, h: HitId)
    requires Ready3(pts, eps, b, n, minPts) && NewCluster(b.pool, r, b.next, n, seed, a, minPts)
    requires h < |b.pool| && b.pool[h].IsCore(minPts) && Has(b.pool, h, UNDEFINED_CLUSTER)
    ensures h in a
  {
    var pool := b.pool;
    hide Arrived;
    if h != n {
      assert FewNeighbours(pool, h, n, minPts);
      assert h in pool[n].neighbours;
      if seed == n {
        NewClusterEdge(pts, eps, b, r, n, seed, a, minPts, n, h);
      } else if h != seed {
        AtLeastTwo(pool[n].neighbours, h, seed);
      }
    }
  }

  lemma NewClusterEdges(pts: seq<Point>, eps: real, b: Book, r: Pool, n: HitId, seed: HitId, a: set<HitId>, minPts: nat)
    requires Ready3(pts, eps, b, n, minPts) && NewCluster(b.pool, r, b.next, n, seed, a, minPts)
    ensures forall x: HitId, y: HitId :: x < |r| && y in r[x].neighbours ==> SameAcrossEdge(r, x, y)
    ensures forall h: HitId :: h < |r| && r[h].IsCore(minPts) ==> !Has(r, h, UNDEFINED_CLUSTER)
    ensures HasCore(r, b.next, minPts)
  {
    assert Has(r, seed, b.next);
    hide Ready3;
    forall x: HitId, y: HitId | x < |r| && y in r[x].neighbours
      ensures SameAcrossEdge(r, x, y)
    {
      NewClusterOutside(pts, eps, b, r, n, seed, a, minPts, x, y);
    }
    forall h: HitId | h < |r| && r[h].IsCore(minPts)
      ensures !Has(r, h, UNDEFINED_CLUSTER)
    {
      if Has(b.pool, h, UNDEFINED_CLUSTER) {
        NewClusterCores(pts, eps, b, r, n, seed, a, minPts, h);
      }
    }
  }

  /** Starting a cluster makes the numbers exact again. */
  lemma StartedAtExact(pts: seq<Point>, eps: real, b: Book, r: Book, n: HitId, seed: HitId, a: set<HitId>, minPts: nat)
    requires Ready3(pts, eps, b, n, minPts) && StartedAt(b, r, n, seed, a, minPts)
    requires Placing(pts, eps, r, pts[n].time)
    ensures Exact(pts, eps, r.pool, minPts) && ExactClusters(r)
  {
    StartedAtNewCluster(pts, eps, b, r, n, seed, a, minPts);
    StartedAtClusters(b, r, n, seed, a, minPts);
    StartedAtConnected(pts, eps, b, r, n, seed, a, minPts);
    NewClusterEdges(pts, eps, b, r.pool, n, seed, a, minPts);
    hide StartedAt, Arrived, Placing, AlmostExact, ExactClusters, Connected, FromCore, HasCore;
    OthersKept(pts, eps, b, r.pool, n, b.next, a, minPts);
  }

  lemma StartedAtConnected(pts: seq<Point>, eps: real, b: Book, r: Book, n: HitId, seed: HitId, a: set<HitId>,
                           minPts: nat)
    requires Sane(b) && n < |b.pool| && n < |pts| && StartedAt(b, r, n, seed, a, minPts)
    requires Placing(pts, eps, r, pts[n].time)
    requires NewCluster(b.pool, r.pool, b.next, n, seed, a, minPts) && ExactClusters(b)
    ensures forall x: HitId, y: HitId :: Has(r.pool, x, b.next) && Has(r.pool, y, b.next) ==> Connected(pts, eps, x, y)
  {
    StartedAtClusters(b, r, n, seed, a, minPts);
    assert SoundCluster(pts, eps, r.pool, r.clusters[b.next]);
    hide StartedAt, Placing, Connected, ClusterOk;
    forall x: HitId, y: HitId | Has(r.pool, x, b.next) && Has(r.pool, y, b.next)
      ensures Connected(pts, eps, x, y)
    {
      assert !Has(b.pool, x, b.next) && !Has(b.pool, y, b.next);
      assert x in a && y in a;
    }
  }

  /** Clusters other than `k` keep their hits, hence stay connected and keep a core hit. */
  lemma OthersKept(pts: seq<Point>, eps: real, b: Book, r: Pool, n: HitId, k: int, a: set<HitId>, minPts: nat)
    requires AlmostExact(pts, eps, b, n, minPts) && Renumbered(b.pool, r, k, a) && k != UNDEFINED_CLUSTER
    requires forall x: HitId, y: HitId :: Has(r, x, k) && Has(r, y, k) ==> Connected(pts, eps, x, y)
    requires HasCore(r, k, minPts)
    requires forall x: HitId, y: HitId, j :: x in a && y !in a && Has(b.pool, x, j) && Has(b.pool, y, j) ==>
      j == UNDEFINED_CLUSTER || j == k
    ensures forall x: HitId, y: HitId, j :: j != UNDEFINED_CLUSTER && Has(r, x, j) && Has(r, y, j) ==>
      Connected(pts, eps, x, y)
    ensures forall h: HitId, j :: j != UNDEFINED_CLUSTER && Has(r, h, j) ==> HasCore(r, j, minPts)
  {
    forall x: HitId, y: HitId, j | j != UNDEFINED_CLUSTER && Has(r, x, j) && Has(r, y, j)
      ensures Connected(pts, eps, x, y)
    {
      if j != k {
        assert Has(b.pool, x, j) && Has(b.pool, y, j);
      }
    }
    forall h: HitId, j | j != UNDEFINED_CLUSTER && Has(r, h, j)
      ensures HasCore(r, j, minPts)
    {
      if j != k {
        assert Has(b.pool, h, j);
        var c: HitId :| Has(b.pool, c, j) && b.pool[c].IsCore(minPts);
        assert Has(r, c, j);
      }
    }
  }

  /** The new cluster holds `a`; the others hold what they held. */
  lemma StartedAtClusters(b: Book, r: Book, n: HitId, seed: HitId, a: set<HitId>, minPts: nat)
    requires Sane(b) && n < |b.pool| && StartedAt(b, r, n, seed, a, minPts) && ExactClusters(b)
    ensures b.next in r.clusters && r.clusters[b.next].hits != []
    ensures forall h: HitId :: h in r.clusters[b.next].hits <==> h in a
    ensures ExactClusters(r)
  {
    StartedAtRenumbered(b, r, n, seed, a, minPts);
    assert forall h: HitId :: h in r.clusters[b.next].hits <==> h in Members(r.clusters[b.next].hits);
    forall j, h | j in r.clusters && h in r.clusters[j].hits
      ensures Has(r.pool, h, j)
    {
      if j == b.next {
        assert h in Unclustered(b.pool);
      } else {
        assert Has(b.pool, h, j);
      }
    }
  }

  lemma NewClusterOutside(pts: seq<Point>, eps: real, b: Book, r: Pool, n: HitId, seed: HitId, a: set<HitId>,
                          minPts: nat, x: HitId, y: HitId)
    requires Ready3(pts, eps, b, n, minPts) && NewCluster(b.pool, r, b.next, n, seed, a, minPts)
    requires x < |b.pool| && y in b.pool[x].neighbours
    ensures SameAcrossEdge(r, x, y)
  {
    assert y < |b.pool| && x in b.pool[y].neighbours;
    if x in a {
      NewClusterEdge(pts, eps, b, r, n, seed, a, minPts, x, y);
    } else if y in a {
      NewClusterEdge(pts, eps, b, r, n, seed, a, minPts, y, x);
    } else {
      assert x != n && y != n ==> SameAcrossEdge(b.pool, x, y);
    }
  }

  // ----- clusters are joined

  /** What the hits `a` taken into cluster `k` are known to satisfy. */
  ghost predicate JoinedHits(b: Book, r: Pool, n: HitId, k: int, a: set<HitId>, minPts: nat)
    requires Sane(b) && n < |b.pool|
  {
    var touched := Touched(b, n, minPts);
    && touched <= b.clusters.Keys && k in touched && k != UNDEFINED_CLUSTER
    && Renumbered(b.pool, r, k, a)
    && forall f: HitId :: f in a <==> Joins(b, n, touched - {k}, f, minPts)
  }

  lemma HeldIsNumbered(pts: seq<Point>, eps: real, b: Book, n: HitId, minPts: nat, f: HitId, j: int)
    requires Ready3(pts, eps, b, n, minPts) && j in b.clusters && f in b.clusters[j].hits
    ensures f < |b.pool| && b.pool[f].cluster == j
  {
    hide Arrived, Symmetric;
    assert Has(b.pool, f, j);
  }

  lemma NumberedIsHeld(pts: seq<Point>, eps: real, b: Book, n: HitId, minPts: nat, f: HitId, j: int)
    requires Ready3(pts, eps, b, n, minPts) && j in b.clusters && f < |b.pool| && b.pool[f].cluster == j
    ensures f in b.clusters[j].hits
  {
    hide AlmostExact, Symmetric;
    assert IndexOk(b, f, pts[n].time, eps);
  }

  lemma TouchedHolds(pts: seq<Point>, eps: real, b: Book, n: HitId, minPts: nat, f: HitId, s: set<int>)
    requires Ready3(pts, eps, b, n, minPts) && s <= Touched(b, n, minPts) && Touched(b, n, minPts) <= b.clusters.Keys
    ensures f in HitsOf(b, s) <==> f < |b.pool| && b.pool[f].cluster in s
  {
    hide Touched, Ready3;
    if f in HitsOf(b, s) {
      var j :| j in s && f in b.clusters[j].hits;
      HeldIsNumbered(pts, eps, b, n, minPts, f, j);
    }
    if f < |b.pool| && b.pool[f].cluster in s {
      NumberedIsHeld(pts, eps, b, n, minPts, f, b.pool[f].cluster);
    }
  }

  lemma BroughtInNew(b: Book, n: HitId, k: int, a: set<HitId>, r: Pool, minPts: nat, h: HitId)
    requires Sane(b) && n < |b.pool| && JoinedHits(b, r, n, k, a, minPts)
    requires h in b.pool[n].neighbours && h < |b.pool| && b.pool[h].cluster == UNDEFINED_CLUSTER
    ensures h in a
  {
    assert h in Unclustered(b.pool);
    assert Brings(b, b.pool[n].neighbours, h, minPts);
    assert Joins(b, n, Touched(b, n, minPts) - {k}, h, minPts);
  }

  lemma BroughtByNewCore(b: Book, n: HitId, k: int, a: set<HitId>, r: Pool, minPts: nat, q: HitId, h: HitId)
    requires Sane(b) && n < |b.pool| && JoinedHits(b, r, n, k, a, minPts)
    requires q in b.pool[n].neighbours && q < |b.pool| && |b.pool[q].neighbours| + 1 == minPts
    requires h in b.pool[q].neighbours
    ensures h in a
  {
    assert Brings(b, b.pool[n].neighbours, h, minPts);
    assert Joins(b, n, Touched(b, n, minPts) - {k}, h, minPts);
  }

  /** Only unclustered hits and hits of touched clusters change hands. */
  lemma JoinedFromTouched(pts: seq<Point>, eps: real, b: Book, r: Pool, n: HitId, k: int, a: set<HitId>, minPts: nat,
                          h: HitId)
    requires Ready3(pts, eps, b, n, minPts) && JoinedHits(b, r, n, k, a, minPts) && h in a
    ensures h < |b.pool| && (b.pool[h].cluster == UNDEFINED_CLUSTER || b.pool[h].cluster in Touched(b, n, minPts))
  {
    var ns := b.pool[n].neighbours;
    assert Joins(b, n, Touched(b, n, minPts) - {k}, h, minPts);
    if h != n && !Brings(b, ns, h, minPts) {
      TouchedHolds(pts, eps, b, n, minPts, h, Touched(b, n, minPts) - {k});
    } else if h != n && h !in Unclustered(b.pool) {
      var q: HitId :| q in ns && q < |b.pool| && |b.pool[q].neighbours| + 1 == minPts && h in b.pool[q].neighbours;
      assert q != n && q in b.pool[h].neighbours;
      TouchedOrUnclustered(pts, eps, b, n, minPts, q);
      assert SameAcrossEdge(b.pool, h, q);
    }
  }

  /** Every hit of a touched cluster ends up in cluster `k`. */
  lemma TouchedJoin(pts: seq<Point>, eps: real, b: Book, r: Pool, n: HitId, k: int, a: set<HitId>, minPts: nat,
                    h: HitId)
    requires Ready3(pts, eps, b, n, minPts) && JoinedHits(b, r, n, k, a, minPts)
    requires h < |b.pool| && b.pool[h].cluster in Touched(b, n, minPts)
    ensures Has(r, h, k)
  {
    if b.pool[h].cluster != k {
      TouchedHolds(pts, eps, b, n, minPts, h, Touched(b, n, minPts) - {k});
      assert Joins(b, n, Touched(b, n, minPts) - {k}, h, minPts);
    }
  }

  /** An unclustered hit that joins brings its unclustered neighbours along. */
  lemma UnclusteredJoinTogether(pts: seq<Point>, eps: real, b: Book, r: Pool, n: HitId, k: int, a: set<HitId>,
                                minPts: nat, x: HitId, y: HitId)
    requires Ready3(pts, eps, b, n, minPts) && JoinedHits(b, r, n, k, a, minPts)
    requires x in a && x != n && y != n && Has(b.pool, x, UNDEFINED_CLUSTER) && Has(b.pool, y, UNDEFINED_CLUSTER)
    requires y in b.pool[x].neighbours
    ensures y in a
  {
    var pool, ns := b.pool, b.pool[n].neighbours;
    assert FewNeighbours(pool, x, n, minPts);
    assert Joins(b, n, Touched(b, n, minPts) - {k}, x, minPts);
    if n in pool[x].neighbours {
      AtLeastTwo(pool[x].neighbours, n, y);
      assert x in ns;
      BroughtByNewCore(b, n, k, a, r, minPts, x, y);
    } else {
      assert x !in ns;
      TouchedHolds(pts, eps, b, n, minPts, x, Touched(b, n, minPts) - {k});
      assert Brings(b, ns, x, minPts);
      var q: HitId :| q in ns && q < |pool| && |pool[q].neighbours| + 1 == minPts && x in pool[q].neighbours;
      assert q in pool[x].neighbours;
      if q != y {
        AtLeastTwo(pool[x].neighbours, q, y);
      } else {
        BroughtInNew(b, n, k, a, r, minPts, y);
      }
    }
  }

  lemma JoinedEdge(pts: seq<Point>, eps: real, b: Book, r: Pool, n: HitId, k: int, a: set<HitId>, minPts: nat,
                   x: HitId, y: HitId)
    requires Ready3(pts, eps, b, n, minPts) && JoinedHits(b, r, n, k, a, minPts)
    requires x < |b.pool| && y in b.pool[x].neighbours && x in a && x != n
    ensures Has(r, y, k)
  {
    JoinedFromTouched(pts, eps, b, r, n, k, a, minPts, x);
    assert y < |b.pool|;
    if y == n {
      assert Joins(b, n, Touched(b, n, minPts) - {k}, n, minPts);
    } else {
      assert SameAcrossEdge(b.pool, x, y);
      if b.pool[x].cluster == UNDEFINED_CLUSTER {
        UnclusteredJoinTogether(pts, eps, b, r, n, k, a, minPts, x, y);
      } else {
        TouchedJoin(pts, eps, b, r, n, k, a, minPts, y);
      }
    }
  }

  lemma JoinedEdges(pts: seq<Point>, eps: real, b: Book, r: Pool, n: HitId, k: int, a: set<HitId>, minPts: nat)
    requires Ready3(pts, eps, b, n, minPts) && JoinedHits(b, r, n, k, a, minPts)
    ensures forall x: HitId, y: HitId :: x < |r| && y in r[x].neighbours ==> SameAcrossEdge(r, x, y)
  {
    forall x: HitId, y: HitId | x < |r| && y in r[x].neighbours
      ensures SameAcrossEdge(r, x, y)
    {
      assert y < |r| && x in r[y].neighbours;
      JoinedPair(pts, eps, b, r, n, k, a, minPts, x, y);
    }
  }

  lemma JoinedPair(pts: seq<Point>, eps: real, b: Book, r: Pool, n: HitId, k: int, a: set<HitId>, minPts: nat,
                   x: HitId, y: HitId)
    requires Ready3(pts, eps, b, n, minPts) && JoinedHits(b, r, n, k, a, minPts)
    requires x < |b.pool| && y in b.pool[x].neighbours && y < |b.pool| && x in b.pool[y].neighbours
    ensures SameAcrossEdge(r, x, y)
  {
    assert Joins(b, n, Touched(b, n, minPts) - {k}, n, minPts);
    if x == n {
      NeighbourJoins(pts, eps, b, r, n, k, a, minPts, y);
    } else if y == n {
      NeighbourJoins(pts, eps, b, r, n, k, a, minPts, x);
    } else if x in a {
      JoinedEdge(pts, eps, b, r, n, k, a, minPts, x, y);
    } else if y in a {
      JoinedEdge(pts, eps, b, r, n, k, a, minPts, y, x);
    } else {
      assert SameAcrossEdge(b.pool, x, y);
    }
  }

  lemma NeighbourJoins(pts: seq<Point>, eps: real, b: Book, r: Pool, n: HitId, k: int, a: set<HitId>, minPts: nat,
                       y: HitId)
    requires Ready3(pts, eps, b, n, minPts) && JoinedHits(b, r, n, k, a, minPts) && y in b.pool[n].neighbours
    ensures Has(r, y, k)
  {
    TouchedOrUnclustered(pts, eps, b, n, minPts, y);
    if b.pool[y].cluster == UNDEFINED_CLUSTER {
      BroughtInNew(b, n, k, a, r, minPts, y);
    } else {
      TouchedJoin(pts, eps, b, r, n, k, a, minPts, y);
    }
  }

  lemma JoinedCores(pts: seq<Point>, eps: real, b: Book, r: Pool, n: HitId, k: int, a: set<HitId>, minPts: nat,
                    h: HitId)
    requires Ready3(pts, eps, b, n, minPts) && JoinedHits(b, r, n, k, a, minPts)
    requires h < |b.pool| && b.pool[h].IsCore(minPts)
    ensures |r| == |b.pool| && !Has(r, h, UNDEFINED_CLUSTER)
  {
    assert Joins(b, n, Touched(b, n, minPts) - {k}, n, minPts);
    if h != n && b.pool[h].cluster == UNDEFINED_CLUSTER {
      assert Has(b.pool, h, UNDEFINED_CLUSTER);
      assert FewNeighbours(b.pool, h, n, minPts);
      assert h in b.pool[n].neighbours;
      BroughtInNew(b, n, k, a, r, minPts, h);
    }
  }

  lemma JoinedHasCore(b: Book, r: Pool, n: HitId, k: int, a: set<HitId>, minPts: nat)
    requires Sane(b) && n < |b.pool| && JoinedHits(b, r, n, k, a, minPts)
    ensures HasCore(r, k, minPts)
  {
    var q: HitId :| q in b.pool[n].neighbours && b.pool[q].cluster == k && b.pool[q].IsCore(minPts);
    assert Has(r, q, k) && r[q].IsCore(minPts);
  }

  lemma JoinedIsJoinedHits(b: Book, r: Book, n: HitId, a: set<HitId>, minPts: nat)
    requires Sane(b) && n < |b.pool| && Joined(b, r, n, a, minPts)
    ensures JoinedHits(b, r.pool, n, Smallest(Touched(b, n, minPts)), a, minPts)
  {
    PoolGrewRenumbered(b.pool, r.pool, Smallest(Touched(b, n, minPts)), a, minPts);
  }

  lemma TookHits(b: Book, r: Book, k: int, a: set<HitId>, gone: set<int>, minPts: nat, j: int, h: HitId)
    requires k in b.clusters && gone <= b.clusters.Keys && Took(b, r, k, a, gone, minPts)
    requires j in r.clusters && h in r.clusters[j].hits
    ensures j in b.clusters && j !in gone && (h in b.clusters[j].hits || (j == k && h in a))
  {
    hide PoolGrew, ClusterOk;
    assert h in Members(r.clusters[j].hits);
  }

  lemma JoinedHit(b: Book, r: Book, n: HitId, a: set<HitId>, minPts: nat, j: int, h: HitId)
    requires Sane(b) && n < |b.pool| && Joined(b, r, n, a, minPts) && j in r.clusters && h in r.clusters[j].hits
    ensures var touched := Touched(b, n, minPts); var k := Smallest(touched);
      j in b.clusters && (j in touched ==> j == k) && (h in b.clusters[j].hits || (j == k && h in a))
  {
    hide Took, Touched, Sane, Joins;
    var touched := Touched(b, n, minPts);
    TookHits(b, r, Smallest(touched), a, touched - {Smallest(touched)}, minPts, j, h);
  }

  lemma JoinedClusters(pts: seq<Point>, eps: real, b: Book, r: Book, n: HitId, a: set<HitId>, minPts: nat)
    requires Ready3(pts, eps, b, n, minPts) && Joined(b, r, n, a, minPts)
    ensures ExactClusters(r)
  {
    var k := Smallest(Touched(b, n, minPts));
    hide Touched, Joined, Arrived, AlmostExact, JoinedHits;
    JoinedIsJoinedHits(b, r, n, a, minPts);
    forall j, h: HitId | j in r.clusters && h in r.clusters[j].hits
      ensures Has(r.pool, h, j)
    {
      JoinedHit(b, r, n, a, minPts, j, h);
      HasItsCluster(pts, eps, b, r.pool, n, k, a, minPts, j, h);
    }
  }

  lemma HasItsCluster(pts: seq<Point>, eps: real, b: Book, r: Pool, n: HitId, k: int, a: set<HitId>, minPts: nat,
                      j: int, h: HitId)
    requires Ready3(pts, eps, b, n, minPts) && JoinedHits(b, r, n, k, a, minPts)
    requires j in b.clusters && (j in Touched(b, n, minPts) ==> j == k)
    requires h in b.clusters[j].hits || (j == k && h in a)
    ensures Has(r, h, j)
  {
    hide Touched;
    if h in b.clusters[j].hits {
      assert Has(b.pool, h, j) && j != UNDEFINED_CLUSTER;
    }
    if h in a {
      JoinedFromTouched(pts, eps, b, r, n, k, a, minPts, h);
    }
  }

  lemma JoinedConnectedHits(pts: seq<Point>, eps: real, b: Book, r: Book, n: HitId, a: set<HitId>, minPts: nat)
    requires Ready3(pts, eps, b, n, minPts) && Joined(b, r, n, a, minPts) && Placing(pts, eps, r, pts[n].time)
    ensures var k := Smallest(Touched(b, n, minPts));
      forall x: HitId, y: HitId :: Has(r.pool, x, k) && Has(r.pool, y, k) ==> Connected(pts, eps, x, y)
  {
    var k := Smallest(Touched(b, n, minPts));
    assert k in r.clusters && SoundCluster(pts, eps, r.pool, r.clusters[k]);
    hide Connected, ClusterOk, Ready3, Joined;
    forall x: HitId, y: HitId | Has(r.pool, x, k) && Has(r.pool, y, k)
      ensures Connected(pts, eps, x, y)
    {
      assert IndexOk(r, x, pts[n].time, eps) && IndexOk(r, y, pts[n].time, eps);
    }
  }

  lemma JoinedNumbers(pts: seq<Point>, eps: real, b: Book, r: Pool, n: HitId, k: int, a: set<HitId>, minPts: nat)
    requires Ready3(pts, eps, b, n, minPts) && JoinedHits(b, r, n, k, a, minPts)
    requires forall x: HitId, y: HitId :: Has(r, x, k) && Has(r, y, k) ==> Connected(pts, eps, x, y)
    ensures Exact(pts, eps, r, minPts)
  {
    assert Renumbered(b.pool, r, k, a) && k != UNDEFINED_CLUSTER;
    hide JoinedHits, Renumbered, Arrived, Connected, HasCore, AlmostExact;
    JoinedEdges(pts, eps, b, r, n, k, a, minPts);
    JoinedHasCore(b, r, n, k, a, minPts);
    JoinedOthers(pts, eps, b, r, n, k, a, minPts);
    OthersKept(pts, eps, b, r, n, k, a, minPts);
    forall h: HitId | h < |r| && r[h].IsCore(minPts)
      ensures !Has(r, h, UNDEFINED_CLUSTER)
    {
      JoinedIsCore(b, r, n, k, a, minPts, h);
      JoinedCores(pts, eps, b, r, n, k, a, minPts, h);
    }
  }

  lemma JoinedIsCore(b: Book, r: Pool, n: HitId, k: int, a: set<HitId>, minPts: nat, h: HitId)
    requires Sane(b) && n < |b.pool| && JoinedHits(b, r, n, k, a, minPts) && h < |r| && r[h].IsCore(minPts)
    ensures h < |b.pool| && b.pool[h].IsCore(minPts)
  {
    hide Touched;
  }

  /** Joining clusters makes the numbers exact again. */
  lemma JoinedExact(pts: seq<Point>, eps: real, b: Book, r: Book, n: HitId, a: set<HitId>, minPts: nat)
    requires Ready3(pts, eps, b, n, minPts) && Joined(b, r, n, a, minPts) && Placing(pts, eps, r, pts[n].time)
    ensures Exact(pts, eps, r.pool, minPts) && ExactClusters(r)
  {
    var k := Smallest(Touched(b, n, minPts));
    hide Joined, JoinedHits, Arrived, Placing, ExactClusters, Exact, Connected, AlmostExact, Touched;
    JoinedIsJoinedHits(b, r, n, a, minPts);
    JoinedClusters(pts, eps, b, r, n, a, minPts);
    JoinedConnectedHits(pts, eps, b, r, n, a, minPts);
    JoinedNumbers(pts, eps, b, r.pool, n, k, a, minPts);
  }

  lemma JoinedOthers(pts: seq<Point>, eps: real, b: Book, r: Pool, n: HitId, k: int, a: set<HitId>, minPts: nat)
    requires Ready3(pts, eps, b, n, minPts) && JoinedHits(b, r, n, k, a, minPts)
    ensures forall x: HitId, y: HitId, j :: x in a && y !in a && Has(b.pool, x, j) && Has(b.pool, y, j) ==>
      j == UNDEFINED_CLUSTER || j == k
  {
    forall x: HitId, y: HitId, j | x in a && y !in a && Has(b.pool, x, j) && Has(b.pool, y, j)
      ensures j == UNDEFINED_CLUSTER || j == k
    {
      JoinedFromTouched(pts, eps, b, r, n, k, a, minPts, x);
      if j != UNDEFINED_CLUSTER {
        TouchedJoin(pts, eps, b, r, n, k, a, minPts, y);
      }
    }
  }
}
