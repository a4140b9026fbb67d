/** What growing a cluster does: exactly which hits change hands, and what stays as it was. */
module ClusterGrowth {
  import opened Graph
  import opened Hits
  import opened Clusters

  /** `latest` is the time of the latest hit, or 0 when no hit is later than that. */
  ghost predicate IsLatest(pool: Pool, hits: seq<HitId>, latest: real)
    requires InPool(pool, hits)
  {
    && latest >= 0.0
    && (forall h: HitId :: h in hits ==> pool[h].time <= latest)
    && (latest == 0.0 || exists h: HitId :: h in hits && pool[h].time == latest)
  }

  ghost predicate ClusterOk(pool: Pool, c: Cluster) {
    IsHitSet(pool, c.hits) && IsLatest(pool, c.hits, c.latestTime)
  }

  ghost predicate HitGrew(h: Hit, h': Hit, k: int, added: bool, minPts: nat) {
    && h'.At() == h.At() && h'.neighbours == h.neighbours
    && h'.cluster == (if added then k else h.cluster)
    && (h'.connectedness == h.connectedness || (h'.connectedness.KCore? && h.IsCore(minPts)))
  }

  ghost predicate PoolGrew(pool: Pool, pool': Pool, k: int, a: set<HitId>, minPts: nat) {
    |pool'| == |pool| && forall h: HitId :: h < |pool| ==> HitGrew(pool[h], pool'[h], k, h in a, minPts)
  }

  /** From `b` to `b'`, cluster `k` took in exactly the hits of `a`; nothing else changed. */
  ghost predicate Grew(b: Book, b': Book, k: int, a: set<HitId>, minPts: nat)
    requires k in b.clusters
  {
    && PoolGrew(b.pool, b'.pool, k, a, minPts)
    && b'.next == b.next && b'.clusters.Keys == b.clusters.Keys
    && (forall j :: j in b.clusters && j != k ==> b'.clusters[j] == b.clusters[j])
    && b'.clusters[k].index == k && b'.clusters[k].completeness == b.clusters[k].completeness
    && Members(b'.clusters[k].hits) == Members(b.clusters[k].hits) + a
    && ClusterOk(b'.pool, b'.clusters[k])
  }

  lemma PoolGrewSamePoints(pool: Pool, pool': Pool, k: int, a: set<HitId>, minPts: nat)
    requires PoolGrew(pool, pool', k, a, minPts)
    ensures SamePoints(pool, pool')
  {
  }

  lemma ClusterOkSamePoints(pool: Pool, pool': Pool, c: Cluster)
    requires SamePoints(pool, pool') && ClusterOk(pool, c)
    ensures ClusterOk(pool', c)
  {
    HitSetSamePoints(pool, pool', c.hits);
    assert forall h: HitId :: h in c.hits ==> pool'[h].At() == pool[h].At();
  }

  lemma GrewNothing(b: Book, k: int, minPts: nat)
    requires Sane(b) && k in b.clusters && ClusterOk(b.pool, b.clusters[k])
    ensures Grew(b, b, k, {}, minPts)
  {
  }

  lemma GrewTwice(b: Book, b': Book, b'': Book, k: int, a: set<HitId>, a': set<HitId>, minPts: nat)
    requires k in b.clusters && k in b'.clusters
    requires Grew(b, b', k, a, minPts) && Grew(b', b'', k, a', minPts)
    ensures Grew(b, b'', k, a + a', minPts)
  {
    forall h: HitId | h < |b.pool|
      ensures HitGrew(b.pool[h], b''.pool[h], k, h in a + a', minPts)
    {
      assert HitGrew(b.pool[h], b'.pool[h], k, h in a, minPts);
      assert HitGrew(b'.pool[h], b''.pool[h], k, h in a', minPts);
    }
  }

  lemma LatestAfterInsert(pool: Pool, hits: seq<HitId>, latest: real, h: HitId)
    requires InPool(pool, hits) && IsLatest(pool, hits, latest) && h < |pool|
    requires InPool(pool, Insert(pool, hits, h)) && Members(Insert(pool, hits, h)) == Members(hits) + {h}
    ensures IsLatest(pool, Insert(pool, hits, h), Later(latest, pool[h].time))
  {
    var r := Insert(pool, hits, h);
    assert forall x :: x in r <==> x in Members(r);
    assert h in r;
    if latest >= pool[h].time && latest != 0.0 {
      var w: HitId :| w in hits && pool[w].time == latest;
      assert w in r;
    }
  }

  lemma AddHitGrew(b: Book, k: int, h: HitId, minPts: nat)
    requires Sane(b) && k in b.clusters && h < |b.pool| && ClusterOk(b.pool, b.clusters[k])
    ensures Grew(b, AddHit(b, k, h), k, {h}, minPts)
  {
    var c := b.clusters[k];
    var r := AddHit(b, k, h);
    InsertCorrect(b.pool, c.hits, h);
    LatestAfterInsert(b.pool, c.hits, c.latestTime, h);
    ClusterOkSamePoints(b.pool, r.pool, r.clusters[k]);
  }

  lemma {:induction false} AddAllGrew(b: Book, k: int, hits: seq<HitId>, i: nat, minPts: nat)
    requires Sane(b) && k in b.clusters && InPool(b.pool, hits) && i <= |hits| && ClusterOk(b.pool, b.clusters[k])
    ensures Grew(b, AddAll(b, k, hits, i), k, Members(hits[i..]), minPts)
    decreases |hits| - i
  {
    hide AddHit, PoolGrew, ClusterOk, Sane;
    if i == |hits| {
      GrewNothing(b, k, minPts);
      assert Members(hits[i..]) == {};
    } else {
      var b1 := AddHit(b, k, hits[i]);
      AddHitGrew(b, k, hits[i], minPts);
      AddAllGrew(b1, k, hits, i + 1, minPts);
      GrewTwice(b, b1, AddAll(b1, k, hits, i + 1), k, {hits[i]}, Members(hits[i + 1..]), minPts);
      assert hits[i..] == [hits[i]] + hits[i + 1..];
      assert {hits[i]} + Members(hits[i + 1..]) == Members(hits[i..]);
    }
  }

  // ----- the flood fill

  /** The hits that were in no cluster in `b` and are in one in `b'`. */
  ghost function Taken(b: Book, b': Book): set<HitId> {
    Unclustered(b.pool) - Unclustered(b'.pool)
  }

  ghost predicate AllClustered(pool: Pool, hits: seq<HitId>) {
    forall h: HitId :: h in hits && h < |pool| ==> pool[h].cluster != UNDEFINED_CLUSTER
  }

  /** No core hit of `a` has a neighbour in no cluster. */
  ghost predicate Closed(pool: Pool, a: set<HitId>, minPts: nat) {
    forall f: HitId :: f in a && f < |pool| && pool[f].IsCore(minPts) ==> AllClustered(pool, pool[f].neighbours)
  }

  ghost predicate FromCore(pool: Pool, a: set<HitId>, f: HitId, minPts: nat) {
    exists g: HitId :: g in a && g < |pool| && pool[g].IsCore(minPts) && f in pool[g].neighbours
  }

  /** Each hit of `a` came from the stack, or is a neighbour of a core hit of `a`. */
  ghost predicate Reached(pool: Pool, a: set<HitId>, stack: seq<HitId>, minPts: nat) {
    forall f: HitId {:trigger FromCore(pool, a, f, minPts)} :: f in a ==> f in stack || FromCore(pool, a, f, minPts)
  }

  /** What a flood fill into `k` from `stack` must achieve. */
  ghost predicate Flooded(b: Book, r: Book, k: int, stack: seq<HitId>, minPts: nat)
    requires k in b.clusters
  {
    && Grew(b, r, k, Taken(b, r), minPts)
    && Unclustered(r.pool) <= Unclustered(b.pool)
    && AllClustered(r.pool, stack)
    && Closed(r.pool, Taken(b, r), minPts)
    && Reached(r.pool, Taken(b, r), stack, minPts)
  }

  lemma MarkCoreGrew(b: Book, k: int, q: HitId, minPts: nat)
    requires Sane(b) && k in b.clusters && q < |b.pool| && b.pool[q].IsCore(minPts) && ClusterOk(b.pool, b.clusters[k])
    ensures Grew(b, MarkCore(b, q), k, {}, minPts)
  {
    var r := MarkCore(b, q);
    ClusterOkSamePoints(b.pool, r.pool, b.clusters[k]);
  }

  lemma GrewNeighbours(b: Book, r: Book, k: int, a: set<HitId>, minPts: nat, h: HitId)
    requires k in b.clusters && Grew(b, r, k, a, minPts) && h < |b.pool|
    ensures |r.pool| == |b.pool| && r.pool[h].neighbours == b.pool[h].neighbours
    ensures r.pool[h].cluster == if h in a then k else b.pool[h].cluster
  {
    assert HitGrew(b.pool[h], r.pool[h], k, h in a, minPts);
  }

  /** The stack hit `q` is in a cluster already: it is skipped. */
  lemma FloodSkips(b: Book, r: Book, k: int, rest: seq<HitId>, q: HitId, minPts: nat)
    requires k in b.clusters && q < |b.pool| && b.pool[q].cluster != UNDEFINED_CLUSTER
    requires Flooded(b, r, k, rest, minPts)
    ensures Flooded(b, r, k, rest + [q], minPts)
  {
    hide Grew, Closed, FromCore;
    assert q !in Unclustered(r.pool) by {
      assert q !in Unclustered(b.pool);
    }
  }

  lemma TakenStep(b: Book, b1: Book, r: Book, k: int, q: HitId, minPts: nat)
    requires k in b.clusters && 0 <= k && q in Unclustered(b.pool)
    requires Grew(b, b1, k, {q}, minPts) && Unclustered(r.pool) <= Unclustered(b1.pool)
    ensures Taken(b, r) == {q} + Taken(b1, r)
    ensures Unclustered(r.pool) <= Unclustered(b.pool) && q !in Unclustered(r.pool)
  {
    forall h: HitId | h < |b.pool|
      ensures h in Unclustered(b1.pool) <==> h in Unclustered(b.pool) && h != q
    {
      GrewNeighbours(b, b1, k, {q}, minPts, h);
    }
    hide PoolGrew;
  }

  /** What is pushed when `q` has been added. */
  function Pushed(hit: Hit, minPts: nat): seq<HitId> {
    if hit.IsCore(minPts) then hit.neighbours else []
  }

  lemma ClosedStep(pool: Pool, a: set<HitId>, q: HitId, stack: seq<HitId>, minPts: nat)
    requires q < |pool| && Closed(pool, a, minPts) && AllClustered(pool, stack + Pushed(pool[q], minPts))
    ensures Closed(pool, {q} + a, minPts)
  {
  }

  lemma ReachedStep(pool: Pool, a: set<HitId>, q: HitId, rest: seq<HitId>, minPts: nat)
    requires q < |pool| && Reached(pool, a, rest + Pushed(pool[q], minPts), minPts)
    ensures Reached(pool, {q} + a, rest + [q], minPts)
  {
    forall f: HitId | f in {q} + a
      ensures f in rest + [q] || FromCore(pool, {q} + a, f, minPts)
    {
      if f in a && f !in rest {
        if f in Pushed(pool[q], minPts) {
          assert q in {q} + a;
        } else {
          assert FromCore(pool, a, f, minPts);
        }
      }
    }
  }

  /** The stack hit `q` is in no cluster: it is added, and if it is core its neighbours are pushed. */
  lemma FloodAdds(b: Book, b1: Book, r: Book, k: int, rest: seq<HitId>, q: HitId, minPts: nat)
    requires k in b.clusters && 0 <= k && q in Unclustered(b.pool)
    requires Grew(b, b1, k, {q}, minPts) && Flooded(b1, r, k, rest + Pushed(b.pool[q], minPts), minPts)
    ensures Flooded(b, r, k, rest + [q], minPts)
  {
    TakenStep(b, b1, r, k, q, minPts);
    GrewTwice(b, b1, r, k, {q}, Taken(b1, r), minPts);
    GrewNeighbours(b, r, k, Taken(b, r), minPts, q);
    ClosedStep(r.pool, Taken(b1, r), q, rest, minPts);
    ReachedStep(r.pool, Taken(b1, r), q, rest, minPts);
    hide Grew, Closed, Reached;
  }

  lemma FloodStop(b: Book, k: int, minPts: nat)
    requires Sane(b) && k in b.clusters && ClusterOk(b.pool, b.clusters[k])
    ensures Flooded(b, b, k, [], minPts)
  {
    assert Taken(b, b) == {};
    GrewNothing(b, k, minPts);
  }

  lemma FloodOne(b: Book, k: int, q: HitId, minPts: nat)
    requires Sane(b) && k in b.clusters && q < |b.pool| && ClusterOk(b.pool, b.clusters[k])
    ensures var added := AddHit(b, k, q);
      var b1 := if added.pool[q].IsCore(minPts) then MarkCore(added, q) else added;
      && Grew(b, b1, k, {q}, minPts)
      && added.pool[q].neighbours == b.pool[q].neighbours
      && ClusterOk(b1.pool, b1.clusters[k])
  {
    AddHitGrew(b, k, q, minPts);
    var added := AddHit(b, k, q);
    if added.pool[q].IsCore(minPts) {
      var b1 := MarkCore(added, q);
      MarkCoreGrew(added, k, q, minPts);
      GrewTwice(b, added, b1, k, {q}, {}, minPts);
      assert {q} + {} == {q};
    }
  }

  /** The flood fill takes in only hits that were in no cluster, each by way of the stack or of a core
      hit it took in, and leaves no neighbour of such a core hit in no cluster. */
  lemma {:induction false} FloodCorrect(b: Book, k: int, stack: seq<HitId>, minPts: nat)
    requires Sane(b) && k in b.clusters && InPool(b.pool, stack) && ClusterOk(b.pool, b.clusters[k])
    ensures Flooded(b, Flood(b, k, stack, minPts), k, stack, minPts)
    decreases Unclustered(b.pool), |stack|
  {
    hide Flooded, Grew, ClusterOk, AddHit, MarkCore;
    if stack == [] {
      FloodStop(b, k, minPts);
    } else {
      var q, rest := stack[|stack| - 1], stack[..|stack| - 1];
      assert stack == rest + [q];
      if b.pool[q].cluster != UNDEFINED_CLUSTER {
        FloodCorrect(b, k, rest, minPts);
        FloodSkips(b, Flood(b, k, rest, minPts), k, rest, q, minPts);
      } else {
        assert q in Unclustered(b.pool);
        AddHitShrinksUnclustered(b, k, q);
        FloodOne(b, k, q, minPts);
        var added := AddHit(b, k, q);
        var b1 := if added.pool[q].IsCore(minPts) then MarkCore(added, q) else added;
        var next := rest + Pushed(b.pool[q], minPts);
        FloodCorrect(b1, k, next, minPts);
        FloodAdds(b, b1, Flood(b1, k, next, minPts), k, rest, q, minPts);
        assert rest + [] == rest;
      }
    }
  }
}
