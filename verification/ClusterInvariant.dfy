/** The invariant of the clusterer for every minPts, and its preservation by each move. */
module ClusterInvariant {
  import opened Graph
  import opened Hits
  import opened Clusters
  import opened ClusterGrowth
  import opened ClusterMoves

  /** A cluster index of a hit is never dangling where it is used: it is that of a live cluster that
      holds the hit, or the hit is out of reach of any hit at time `now` or later. */
  ghost predicate IndexOk(b: Book, h: HitId, now: real, eps: real)
    requires h < |b.pool|
  {
    var k := b.pool[h].cluster;
    k == UNDEFINED_CLUSTER ||
    (0 <= k < b.next && if k in b.clusters then h in b.clusters[k].hits else b.pool[h].time < now - eps)
  }

  /** The hits of a cluster lie in one connected component. */
  ghost predicate OneComponent(pts: seq<Point>, eps: real, hits: seq<HitId>) {
    forall a, b :: a in hits && b in hits ==> Connected(pts, eps, a, b)
  }

  ghost predicate WellFormed(pts: seq<Point>, eps: real, pool: Pool, c: Cluster) {
    ClusterOk(pool, c) && OneComponent(pts, eps, c.hits)
  }

  /** A cluster is incomplete and well formed, or its hits have just been stolen. */
  ghost predicate SoundCluster(pts: seq<Point>, eps: real, pool: Pool, c: Cluster) {
    if c.hits == [] then c.completeness.KComplete? else c.completeness.KIncomplete? && WellFormed(pts, eps, pool, c)
  }

  ghost predicate ClustersOk(pts: seq<Point>, eps: real, b: Book) {
    forall k :: k in b.clusters ==> SoundCluster(pts, eps, b.pool, b.clusters[k])
  }

  ghost predicate IndicesOk(b: Book, now: real, eps: real) {
    forall h: HitId :: h < |b.pool| ==> IndexOk(b, h, now, eps)
  }

  /** The state in the middle of the arrival of a hit at time `now`, its neighbours linked. */
  ghost predicate Placing(pts: seq<Point>, eps: real, b: Book, now: real) {
    Sane(b) && Linked(b.pool, pts, eps) && ClustersOk(pts, eps, b) && IndicesOk(b, now, eps)
  }

  ghost predicate AllConnected(pts: seq<Point>, eps: real, x: HitId, s: set<HitId>) {
    forall f: HitId :: f in s ==> Connected(pts, eps, x, f)
  }

  lemma LinkedPoolGrew(pool: Pool, pool': Pool, k: int, a: set<HitId>, minPts: nat, pts: seq<Point>, eps: real)
    requires Linked(pool, pts, eps) && PoolGrew(pool, pool', k, a, minPts)
    ensures Linked(pool', pts, eps)
  {
    PoolGrewSamePoints(pool, pool', k, a, minPts);
    hide Adjacent;
    forall h: HitId | h < |pool|
      ensures pool'[h].neighbours == pool[h].neighbours && HitSetList(pool', h)
    {
      assert HitGrew(pool[h], pool'[h], k, h in a, minPts);
      assert HitSetList(pool, h);
      HitSetSamePoints(pool, pool', pool[h].neighbours);
    }
  }

  lemma ConnectedViaAnchor(pts: seq<Point>, eps: real, x: HitId, hits: seq<HitId>, s: set<HitId>)
    requires AllConnected(pts, eps, x, s) && forall h :: h in hits ==> h in s
    ensures OneComponent(pts, eps, hits)
  {
    forall a, b | a in hits && b in hits
      ensures Connected(pts, eps, a, b)
    {
      ConnectedSymmetric(pts, eps, x, a);
      ConnectedTransitive(pts, eps, a, x, b);
    }
  }

  lemma TookClustersOk(pts: seq<Point>, eps: real, b: Book, r: Book, k: int, a: set<HitId>, gone: set<int>,
                       minPts: nat, x: HitId)
    requires k in b.clusters && gone <= b.clusters.Keys && Took(b, r, k, a, gone, minPts)
    requires ClustersOk(pts, eps, b) && x in a && b.clusters[k].hits != []
    requires AllConnected(pts, eps, x, a + Members(b.clusters[k].hits))
    ensures ClustersOk(pts, eps, r)
  {
    PoolGrewSamePoints(b.pool, r.pool, k, a, minPts);
    forall j | j in r.clusters
      ensures SoundCluster(pts, eps, r.pool, r.clusters[j])
    {
      if j == k {
        assert forall h: HitId :: h in r.clusters[k].hits <==> h in Members(r.clusters[k].hits);
        assert x in r.clusters[k].hits;
        ConnectedViaAnchor(pts, eps, x, r.clusters[k].hits, a + Members(b.clusters[k].hits));
      } else if j !in gone {
        assert SoundCluster(pts, eps, b.pool, b.clusters[j]);
        if b.clusters[j].hits != [] {
          ClusterOkSamePoints(b.pool, r.pool, b.clusters[j]);
        }
      }
    }
  }

  lemma TookIndicesOk(b: Book, r: Book, k: int, a: set<HitId>, gone: set<int>, minPts: nat, now: real, eps: real)
    requires Sane(b) && k in b.clusters && gone <= b.clusters.Keys && Took(b, r, k, a, gone, minPts)
    requires IndicesOk(b, now, eps) && HitsOf(b, gone) <= a
    ensures IndicesOk(r, now, eps)
  {
    forall h: HitId | h < |r.pool|
      ensures IndexOk(r, h, now, eps)
    {
      assert IndexOk(b, h, now, eps);
      assert HitGrew(b.pool[h], r.pool[h], k, h in a, minPts);
      assert h in r.clusters[k].hits <==> h in Members(r.clusters[k].hits);
      hide ClusterOk;
      var j := b.pool[h].cluster;
      if j in gone && h in b.clusters[j].hits {
        assert h in HitsOf(b, gone);
      }
    }
  }

  /** Growing and merging keep the invariant when everything taken in is connected to one hit. */
  lemma TookKeepsPlacing(pts: seq<Point>, eps: real, b: Book, r: Book, k: int, a: set<HitId>, gone: set<int>,
                         minPts: nat, now: real, x: HitId)
    requires k in b.clusters && gone <= b.clusters.Keys && Took(b, r, k, a, gone, minPts) && Sane(r)
    requires Placing(pts, eps, b, now) && HitsOf(b, gone) <= a && x in a && b.clusters[k].hits != []
    requires AllConnected(pts, eps, x, a + Members(b.clusters[k].hits))
    ensures Placing(pts, eps, r, now)
  {
    LinkedPoolGrew(b.pool, r.pool, k, a, minPts, pts, eps);
    TookClustersOk(pts, eps, b, r, k, a, gone, minPts, x);
    TookIndicesOk(b, r, k, a, gone, minPts, now, eps);
  }

  lemma StartedKeepsPlacing(pts: seq<Point>, eps: real, b: Book, r: Book, seed: HitId, a: set<HitId>, minPts: nat,
                            now: real)
    requires Placing(pts, eps, b, now) && Sane(r) && Started(b, r, seed, a, minPts) && AllConnected(pts, eps, seed, a)
    ensures Placing(pts, eps, r, now)
  {
    LinkedPoolGrew(b.pool, r.pool, b.next, a, minPts, pts, eps);
    StartedClustersOk(pts, eps, b, r, seed, a, minPts);
    StartedIndicesOk(b, r, seed, a, minPts, now, eps);
  }

  lemma StartedClustersOk(pts: seq<Point>, eps: real, b: Book, r: Book, seed: HitId, a: set<HitId>, minPts: nat)
    requires ClustersOk(pts, eps, b) && Started(b, r, seed, a, minPts) && AllConnected(pts, eps, seed, a)
    ensures ClustersOk(pts, eps, r)
  {
    PoolGrewSamePoints(b.pool, r.pool, b.next, a, minPts);
    forall j | j in r.clusters
      ensures SoundCluster(pts, eps, r.pool, r.clusters[j])
    {
      if j == b.next {
        assert forall h: HitId :: h in r.clusters[j].hits <==> h in Members(r.clusters[j].hits);
        assert seed in r.clusters[j].hits;
        ConnectedViaAnchor(pts, eps, seed, r.clusters[j].hits, a);
      } else {
        assert SoundCluster(pts, eps, b.pool, b.clusters[j]);
        if b.clusters[j].hits != [] {
          ClusterOkSamePoints(b.pool, r.pool, b.clusters[j]);
        }
      }
    }
  }

  lemma StartedIndicesOk(b: Book, r: Book, seed: HitId, a: set<HitId>, minPts: nat, now: real, eps: real)
    requires Sane(b) && IndicesOk(b, now, eps) && Started(b, r, seed, a, minPts)
    ensures IndicesOk(r, now, eps)
  {
    forall h: HitId | h < |r.pool|
      ensures IndexOk(r, h, now, eps)
    {
      assert IndexOk(b, h, now, eps);
      assert HitGrew(b.pool[h], r.pool[h], b.next, h in a, minPts);
      assert h in r.clusters[b.next].hits <==> h in Members(r.clusters[b.next].hits);
      hide ClusterOk, Closed, Reached;
    }
  }

  // ----- the flood fill stays in one component

  ghost predicate AllConnectedHits(pts: seq<Point>, eps: real, x: HitId, hits: seq<HitId>) {
    forall f :: f in hits ==> Connected(pts, eps, x, f)
  }

  lemma NeighboursConnected(pts: seq<Point>, eps: real, pool: Pool, x: HitId, q: HitId)
    requires Linked(pool, pts, eps) && q < |pool| && Connected(pts, eps, x, q)
    ensures AllConnectedHits(pts, eps, x, pool[q].neighbours)
  {
    forall f | f in pool[q].neighbours
      ensures Connected(pts, eps, x, f)
    {
      ConnectedEdge(pts, eps, q, f);
      ConnectedTransitive(pts, eps, x, q, f);
    }
  }

  lemma {:induction false} FloodConnected(pts: seq<Point>, eps: real, b: Book, k: int, stack: seq<HitId>, minPts: nat,
                                          x: HitId)
    requires Sane(b) && k in b.clusters && InPool(b.pool, stack) && ClusterOk(b.pool, b.clusters[k])
    requires Linked(b.pool, pts, eps) && AllConnectedHits(pts, eps, x, stack)
    ensures AllConnected(pts, eps, x, Taken(b, Flood(b, k, stack, minPts)))
    decreases Unclustered(b.pool), |stack|
  {
    hide Grew, ClusterOk, AddHit, MarkCore, Linked, Connected;
    if stack != [] {
      var q, rest := stack[|stack| - 1], stack[..|stack| - 1];
      if b.pool[q].cluster != UNDEFINED_CLUSTER {
        FloodConnected(pts, eps, b, k, rest, minPts, x);
      } else {
        assert q in Unclustered(b.pool) && q in stack;
        AddHitShrinksUnclustered(b, k, q);
        FloodOne(b, k, q, minPts);
        var added := AddHit(b, k, q);
        var b1 := if added.pool[q].IsCore(minPts) then MarkCore(added, q) else added;
        GrewLinked(pts, eps, b, b1, k, {q}, minPts);
        NeighboursConnected(pts, eps, b.pool, x, q);
        var next := rest + Pushed(b.pool[q], minPts);
        assert rest + [] == rest;
        FloodConnected(pts, eps, b1, k, next, minPts, x);
        var r := Flood(b1, k, next, minPts);
        FloodCorrect(b1, k, next, minPts);
        TakenStep(b, b1, r, k, q, minPts);
      }
    }
  }

  lemma GrewLinked(pts: seq<Point>, eps: real, b: Book, r: Book, k: int, a: set<HitId>, minPts: nat)
    requires k in b.clusters && Grew(b, r, k, a, minPts) && Linked(b.pool, pts, eps)
    ensures Linked(r.pool, pts, eps)
  {
    LinkedPoolGrew(b.pool, r.pool, k, a, minPts, pts, eps);
  }
}
