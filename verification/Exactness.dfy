/** For minPts <= 3 every hit that is not core has at most one neighbour, and the cluster numbers of the
    hits tell connected components apart. This module keeps that fact across one arrival. */
module Exactness {
  import opened Graph
  import opened Hits
  import opened Clusters
  import opened Collections

  // ----- counting neighbours

  lemma {:induction false} HitSetSize(pool: Pool, s: seq<HitId>)
    requires IsHitSet(pool, s)
    ensures |Members(s)| == |s|
  {
    if s == [] {
      assert Members(s) == {};
    } else {
      var n := |s| - 1;
      HitSetSize(pool, s[..n]);
      MembersLast(s);
      assert s[n] !in s[..n];
    }
  }

  lemma MembersLast(s: seq<HitId>)
    requires s != []
    ensures Members(s) == Members(s[..|s| - 1]) + {s[|s| - 1]}
  {
    assert s == s[..|s| - 1] + [s[|s| - 1]];
  }

  lemma FewerHits(pool: Pool, s: seq<HitId>, t: seq<HitId>)
    requires IsHitSet(pool, s) && IsHitSet(pool, t) && Members(s) <= Members(t)
    ensures |s| <= |t|
  {
    HitSetSize(pool, s);
    HitSetSize(pool, t);
    SubsetSize(Members(s), Members(t));
  }

  lemma OneMoreHit(pool: Pool, s: seq<HitId>, t: seq<HitId>, n: HitId)
    requires IsHitSet(pool, s) && IsHitSet(pool, t) && Members(s) <= Members(t) + {n}
    ensures |s| <= |t| + 1
  {
    HitSetSize(pool, s);
    HitSetSize(pool, t);
    SubsetSize(Members(s), Members(t) + {n});
  }

  lemma AtLeastTwo(s: seq<HitId>, x: HitId, y: HitId)
    requires x in s && y in s && x != y
    ensures |s| >= 2
  {
  }

  // ----- exact cluster numbers

  ghost predicate Has(pool: Pool, h: HitId, k: int) {
    h < |pool| && pool[h].cluster == k
  }

  ghost predicate SameAcrossEdge(pool: Pool, a: HitId, b: HitId) {
    a < |pool| && b < |pool| && pool[a].cluster == pool[b].cluster
  }

  ghost predicate HasCore(pool: Pool, k: int, minPts: nat) {
    exists c: HitId :: Has(pool, c, k) && pool[c].IsCore(minPts)
  }

  /** Neighbours have the same cluster number, core hits are in clusters, the hits with one cluster
      number are connected, and one of them is core. */
  ghost predicate Exact(pts: seq<Point>, eps: real, pool: Pool, minPts: nat) {
    && (forall a: HitId, b: HitId :: a < |pool| && b in pool[a].neighbours ==> SameAcrossEdge(pool, a, b))
    && (forall h: HitId :: h < |pool| && pool[h].IsCore(minPts) ==> !Has(pool, h, UNDEFINED_CLUSTER))
    && (forall a: HitId, b: HitId, k ::
          k != UNDEFINED_CLUSTER && Has(pool, a, k) && Has(pool, b, k) ==> Connected(pts, eps, a, b))
    && (forall h: HitId, k :: k != UNDEFINED_CLUSTER && Has(pool, h, k) ==> HasCore(pool, k, minPts))
  }

  /** A live cluster holds no hit with another cluster number. */
  ghost predicate ExactClusters(b: Book) {
    forall k, h :: k in b.clusters && h in b.clusters[k].hits ==> Has(b.pool, h, k)
  }

  /** What is known when hit `n` has been linked but not placed. */
  ghost predicate AlmostExact(pts: seq<Point>, eps: real, b: Book, n: HitId, minPts: nat) {
    var pool := b.pool;
    && n < |pool| && pool[n].cluster == UNDEFINED_CLUSTER
    && (forall x: HitId, y: HitId ::
          x < |pool| && x != n && y != n && y in pool[x].neighbours ==> SameAcrossEdge(pool, x, y))
    && (forall q: HitId :: q != n && Has(pool, q, UNDEFINED_CLUSTER) ==> FewNeighbours(pool, q, n, minPts))
    && (forall h: HitId ::
          h in pool[n].neighbours && !Has(pool, h, UNDEFINED_CLUSTER) ==> h < |pool| && pool[h].IsCore(minPts))
    && (forall x: HitId, y: HitId, k ::
          k != UNDEFINED_CLUSTER && Has(pool, x, k) && Has(pool, y, k) ==> Connected(pts, eps, x, y))
    && (forall h: HitId, k :: k != UNDEFINED_CLUSTER && Has(pool, h, k) ==> HasCore(pool, k, minPts))
    && ExactClusters(b)
  }

  /** An unclustered hit was not core before `n` came. */
  ghost predicate FewNeighbours(pool: Pool, q: HitId, n: HitId, minPts: nat)
    requires q < |pool|
  {
    |pool[q].neighbours| + 1 < minPts + (if n in pool[q].neighbours then 1 else 0)
  }

  // ----- linking

  lemma NeighboursBefore(pts: seq<Point>, p: Point, eps: real, pool: Pool, pool': Pool, q: HitId)
    requires Linked(pool, pts, eps) && Linked(pool', pts + [p], eps) && q < |pts|
    ensures |pool| == |pts| && |pool'| == |pts| + 1
    ensures forall x ::
      x in pool'[q].neighbours <==> x in pool[q].neighbours || (x == |pts| && Adjacent(pts + [p], eps, q, x))
    ensures forall x :: x in pool[q].neighbours ==> x < |pts|
    ensures IsHitSet(pool', pool[q].neighbours) && IsHitSet(pool', pool'[q].neighbours)
  {
    var more := pts + [p];
    assert HitSetList(pool, q) && HitSetList(pool', q);
    forall x: HitId
      ensures x in pool'[q].neighbours <==> x in pool[q].neighbours || (x == |pts| && Adjacent(more, eps, q, x))
      ensures x in pool[q].neighbours ==> x < |pts|
    {
      assert x < |pts| ==> (Adjacent(more, eps, q, x) <==> Adjacent(pts, eps, q, x));
    }
    hide Adjacent;
    forall i: HitId | i < |pool|
      ensures pool'[i].At() == pool[i].At()
    {
      assert pool'[i].At() == more[i] && pool[i].At() == pts[i];
    }
    HitSetExtends(pool, pool', pool[q].neighbours);
  }

  lemma HitSetExtends(pool: Pool, pool': Pool, s: seq<HitId>)
    requires IsHitSet(pool, s) && |pool| <= |pool'| && forall i: HitId :: i < |pool| ==> pool'[i].At() == pool[i].At()
    ensures IsHitSet(pool', s)
  {
    forall i, j | 0 <= i < j < |s|
      ensures pool'[s[i]].time <= pool'[s[j]].time
    {
      assert pool'[s[i]].At() == pool[s[i]].At() && pool'[s[j]].At() == pool[s[j]].At();
    }
  }

  /** A hit has at most one neighbour more than before the arrival, and none less. */
  lemma NeighbourCounts(pts: seq<Point>, p: Point, eps: real, pool: Pool, pool': Pool, q: HitId)
    requires Linked(pool, pts, eps) && Linked(pool', pts + [p], eps) && q < |pts|
    ensures |pool| == |pts| && |pool'| == |pts| + 1
    ensures |pool[q].neighbours| <= |pool'[q].neighbours|
    ensures |pool'[q].neighbours| <= |pool[q].neighbours| + (if |pts| in pool'[q].neighbours then 1 else 0)
  {
    NeighboursBefore(pts, p, eps, pool, pool', q);
    FewerHits(pool', pool[q].neighbours, pool'[q].neighbours);
    if |pts| in pool'[q].neighbours {
      OneMoreHit(pool', pool'[q].neighbours, pool[q].neighbours, |pts|);
    } else {
      FewerHits(pool', pool'[q].neighbours, pool[q].neighbours);
    }
  }

  lemma FirstStep(pts: seq<Point>, eps: real, a: HitId, b: HitId) returns (x: HitId)
    requires Connected(pts, eps, a, b) && a != b
    ensures Adjacent(pts, eps, a, x)
  {
    var path :| IsPath(pts, eps, path, a, b);
    x := path[1];
    assert EdgeAt(pts, eps, path, 0);
  }

  /** A clustered hit is core once it has met a new neighbour. */
  lemma ClusteredBecomesCore(pts: seq<Point>, p: Point, eps: real, pool: Pool, pool': Pool, minPts: nat, h: HitId)
    requires minPts <= 3 && Linked(pool, pts, eps) && Linked(pool', pts + [p], eps) && Exact(pts, eps, pool, minPts)
    requires h < |pts| && h < |pool| && pool[h].cluster != UNDEFINED_CLUSTER
    requires h < |pool'| && |pts| in pool'[h].neighbours
    ensures pool'[h].IsCore(minPts)
  {
    var k := pool[h].cluster;
    assert Has(pool, h, k);
    assert HasCore(pool, k, minPts);
    var c: HitId :| Has(pool, c, k) && pool[c].IsCore(minPts);
    NeighbourCounts(pts, p, eps, pool, pool', h);
    if c != h {
      var x := FirstStep(pts, eps, h, c);
      NeighboursBefore(pts, p, eps, pool, pool', h);
      assert x in pool[h].neighbours;
      AtLeastTwo(pool'[h].neighbours, x, |pts|);
    }
  }

  /** The pools before and after linking the newest hit. */
  ghost predicate LinkedNext(pts: seq<Point>, p: Point, eps: real, pool: Pool, pool': Pool) {
    && Linked(pool, pts, eps) && Linked(pool', pts + [p], eps)
    && pool'[|pts|].cluster == UNDEFINED_CLUSTER
    && forall h: HitId :: h < |pts| ==> pool'[h].cluster == pool[h].cluster
  }

  lemma HasBefore(pts: seq<Point>, p: Point, eps: real, pool: Pool, pool': Pool, h: HitId, k: int)
    requires LinkedNext(pts, p, eps, pool, pool') && Has(pool', h, k) && (k != UNDEFINED_CLUSTER || h != |pts|)
    ensures Has(pool, h, k)
  {
  }

  lemma UnclusteredHasFew(pts: seq<Point>, p: Point, eps: real, pool: Pool, pool': Pool, minPts: nat, q: HitId)
    requires LinkedNext(pts, p, eps, pool, pool') && Exact(pts, eps, pool, minPts)
    requires q != |pts| && Has(pool', q, UNDEFINED_CLUSTER)
    ensures FewNeighbours(pool', q, |pts|, minPts)
  {
    HasBefore(pts, p, eps, pool, pool', q, UNDEFINED_CLUSTER);
    NeighbourCounts(pts, p, eps, pool, pool', q);
  }

  lemma HasCoreStays(pts: seq<Point>, p: Point, eps: real, pool: Pool, pool': Pool, minPts: nat, k: int)
    requires LinkedNext(pts, p, eps, pool, pool') && HasCore(pool, k, minPts)
    ensures HasCore(pool', k, minPts)
  {
    var c: HitId :| Has(pool, c, k) && pool[c].IsCore(minPts);
    NeighbourCounts(pts, p, eps, pool, pool', c);
    assert Has(pool', c, k);
  }

  lemma LinkedIsAlmostExact(pts: seq<Point>, p: Point, eps: real, b: Book, pool': Pool, minPts: nat)
    requires minPts <= 3 && LinkedNext(pts, p, eps, b.pool, pool')
    requires Exact(pts, eps, b.pool, minPts) && ExactClusters(b)
    ensures AlmostExact(pts + [p], eps, b.(pool := pool'), |pts|, minPts)
  {
    var n, pool, more := |pts|, b.pool, pts + [p];
    forall x: HitId, y: HitId | x < |pool'| && x != n && y != n && y in pool'[x].neighbours
      ensures SameAcrossEdge(pool', x, y)
    {
      NeighboursBefore(pts, p, eps, pool, pool', x);
      assert SameAcrossEdge(pool, x, y);
    }
    forall q: HitId | q != n && Has(pool', q, UNDEFINED_CLUSTER)
      ensures FewNeighbours(pool', q, n, minPts)
    {
      UnclusteredHasFew(pts, p, eps, pool, pool', minPts, q);
    }
    forall h: HitId | h in pool'[n].neighbours && !Has(pool', h, UNDEFINED_CLUSTER)
      ensures h < |pool'| && pool'[h].IsCore(minPts)
    {
      AdjacentSymmetric(more, eps, n, h);
      assert h < n && n in pool'[h].neighbours by {
        hide DistanceSqr;
      }
      hide Linked, Adjacent;
      ClusteredBecomesCore(pts, p, eps, pool, pool', minPts, h);
    }
    hide Linked, Adjacent;
    forall x: HitId, y: HitId, k | k != UNDEFINED_CLUSTER && Has(pool', x, k) && Has(pool', y, k)
      ensures Connected(more, eps, x, y)
    {
      HasBefore(pts, p, eps, pool, pool', x, k);
      HasBefore(pts, p, eps, pool, pool', y, k);
      ConnectedGrows(pts, more, eps, x, y);
    }
    forall h: HitId, k | k != UNDEFINED_CLUSTER && Has(pool', h, k)
      ensures HasCore(pool', k, minPts)
    {
      HasBefore(pts, p, eps, pool, pool', h, k);
      HasCoreStays(pts, p, eps, pool, pool', minPts, k);
    }
    forall k, h | k in b.clusters && h in b.clusters[k].hits
      ensures Has(pool', h, k)
    {
      assert Has(pool, h, k);
    }
  }
}
