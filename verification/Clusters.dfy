/** The bookkeeping of clusters when a hit arrives whose neighbours are already linked: growing,
    merging, starting and completing clusters. */
module Clusters {
  import opened Graph
  import opened Hits

  datatype Completeness = KIncomplete | KComplete

  datatype Cluster = Cluster(index: int, completeness: Completeness, latestTime: real, hits: seq<HitId>)

  /** What the clusterer knows about clusters: the hits, the live clusters and the next free index. */
  datatype Book = Book(pool: Pool, clusters: map<int, Cluster>, next: int)

  /** What every operation needs of its arguments. */
  ghost predicate Sane(b: Book) {
    && ListsInPool(b.pool)
    && 0 <= b.next
    && forall k :: k in b.clusters ==> 0 <= k < b.next && b.clusters[k].index == k && InPool(b.pool, b.clusters[k].hits)
  }

  function Later(x: real, y: real): real {
    if x < y then y else x
  }

  function AddHit(b: Book, k: int, h: HitId): (r: Book)
    requires Sane(b) && k in b.clusters && h < |b.pool|
    ensures Sane(r) && |r.pool| == |b.pool| && r.clusters.Keys == b.clusters.Keys && r.next == b.next
  {
    var c := b.clusters[k];
    InsertBeforeInPool(b.pool, c.hits, h, |c.hits|);
    var c' := c.(hits := Insert(b.pool, c.hits, h), latestTime := Later(c.latestTime, b.pool[h].time));
    Book(b.pool[h := b.pool[h].(cluster := c.index)], b.clusters[k := c'], b.next)
  }

  /** Adds hits[i..] to cluster `k`, in order. */
  function AddAll(b: Book, k: int, hits: seq<HitId>, i: nat): (r: Book)
    requires Sane(b) && k in b.clusters && InPool(b.pool, hits) && i <= |hits|
    ensures Sane(r) && |r.pool| == |b.pool| && r.clusters.Keys == b.clusters.Keys && r.next == b.next
    decreases |hits| - i
  {
    if i == |hits| then b else AddAll(AddHit(b, k, hits[i]), k, hits, i + 1)
  }

  function StealHits(b: Book, k: int, other: int): (r: Book)
    requires Sane(b) && k in b.clusters && other in b.clusters
    ensures Sane(r) && |r.pool| == |b.pool| && r.clusters.Keys == b.clusters.Keys && r.next == b.next
  {
    var m := AddAll(b, k, b.clusters[other].hits, 0);
    m.(clusters := m.clusters[other := m.clusters[other].(hits := [], completeness := KComplete)])
  }

  ghost function Unclustered(pool: Pool): set<HitId> {
    set h: HitId | 0 <= h < |pool| && pool[h].cluster == UNDEFINED_CLUSTER
  }

  lemma AddHitShrinksUnclustered(b: Book, k: int, h: HitId)
    requires Sane(b) && k in b.clusters && h < |b.pool|
    ensures Unclustered(AddHit(b, k, h).pool) == Unclustered(b.pool) - {h}
  {
  }

  function MarkCore(b: Book, h: HitId): (r: Book)
    requires Sane(b) && h < |b.pool|
    ensures Sane(r) && |r.pool| == |b.pool| && r.clusters == b.clusters && r.next == b.next
    ensures Unclustered(r.pool) == Unclustered(b.pool)
  {
    b.(pool := b.pool[h := b.pool[h].(connectedness := KCore)])
  }

  /** The flood fill: the neighbours of a core hit that are in no cluster yet, and the neighbours of
      core hits among them, and so on. `stack` holds the hits still to be looked at. */
  function Flood(b: Book, k: int, stack: seq<HitId>, minPts: nat): (r: Book)
    requires Sane(b) && k in b.clusters && InPool(b.pool, stack)
    ensures Sane(r) && |r.pool| == |b.pool| && r.clusters.Keys == b.clusters.Keys && r.next == b.next
    decreases Unclustered(b.pool), |stack|
  {
    if stack == [] then
      b
    else
      var q, rest := stack[|stack| - 1], stack[..|stack| - 1];
      if b.pool[q].cluster != UNDEFINED_CLUSTER then
        Flood(b, k, rest, minPts)
      else
        assert q in Unclustered(b.pool);
        AddHitShrinksUnclustered(b, k, q);
        var added := AddHit(b, k, q);
        if added.pool[q].IsCore(minPts) then
          Flood(MarkCore(added, q), k, rest + added.pool[q].neighbours, minPts)
        else
          Flood(added, k, rest, minPts)
  }

  function OpenCluster(b: Book): (r: Book)
    requires Sane(b)
    ensures Sane(r) && r.pool == b.pool && r.clusters.Keys == b.clusters.Keys + {b.next} && r.next == b.next + 1
  {
    b.(clusters := b.clusters[b.next := Cluster(b.next, KIncomplete, 0.0, [])], next := b.next + 1)
  }

  /** A new cluster that starts at `seed` and takes in all that can be reached from there. */
  function StartCluster(b: Book, seed: HitId, minPts: nat): (r: Book)
    requires Sane(b) && seed < |b.pool|
    ensures Sane(r) && |r.pool| == |b.pool| && r.clusters.Keys == b.clusters.Keys + {b.next} && r.next == b.next + 1
  {
    Flood(AddHit(OpenCluster(b), b.next, seed), b.next, b.pool[seed].neighbours, minPts)
  }

  /** The clusters of the core hits among `hits`. */
  function CoreClusters(pool: Pool, hits: seq<HitId>, minPts: nat): set<int>
    requires InPool(pool, hits)
  {
    set h | h in hits && pool[h].cluster != UNDEFINED_CLUSTER && pool[h].IsCore(minPts) :: pool[h].cluster
  }

  lemma {:induction false} HasSmallest(s: set<int>)
    requires s != {}
    ensures exists m :: m in s && forall x :: x in s ==> m <= x
  {
    assert (forall x :: x !in s) ==> s == {};
    var m :| m in s;
    var rest := s - {m};
    if rest == {} {
      assert forall x :: x in s ==> x == m || x in rest;
    } else {
      HasSmallest(rest);
      var r :| r in rest && forall x :: x in rest ==> r <= x;
      assert forall x :: x in s && x != m ==> x in rest;
      SmallestOf(s, m, r);
    }
  }

  lemma SmallestOf(s: set<int>, m: int, r: int)
    requires m in s && r in s && forall x :: x in s && x != m ==> r <= x
    ensures exists y :: y in s && forall x :: x in s ==> y <= x
  {
    var y := if m < r then m else r;
    assert y in s && forall x :: x in s ==> y <= x;
  }

  function Smallest(s: set<int>): (m: int)
    requires s != {}
    ensures m in s && forall x :: x in s ==> m <= x
  {
    HasSmallest(s);
    var m :| m in s && forall x :: x in s ==> m <= x;
    m
  }

  /** Takes neighbour `q` of the new hit into cluster `k` if it is in no cluster, and, if it has just
      become core, all of its neighbours too. */
  function AbsorbNeighbour(b: Book, k: int, q: HitId, minPts: nat): (r: Book)
    requires Sane(b) && k in b.clusters && q < |b.pool|
    ensures Sane(r) && |r.pool| == |b.pool| && r.clusters.Keys == b.clusters.Keys && r.next == b.next
  {
    var b1 := if b.pool[q].cluster == UNDEFINED_CLUSTER then AddHit(b, k, q) else b;
    if |b1.pool[q].neighbours| + 1 == minPts then AddAll(b1, k, b1.pool[q].neighbours, 0) else b1
  }

  function AbsorbNeighbours(b: Book, k: int, ns: seq<HitId>, i: nat, minPts: nat): (r: Book)
    requires Sane(b) && k in b.clusters && InPool(b.pool, ns) && i <= |ns|
    ensures Sane(r) && |r.pool| == |b.pool| && r.clusters.Keys == b.clusters.Keys && r.next == b.next
    decreases |ns| - i
  {
    if i == |ns| then b else AbsorbNeighbours(AbsorbNeighbour(b, k, ns[i], minPts), k, ns, i + 1, minPts)
  }

  /** Merges the clusters of `s` from number `j` on into `k`, in increasing order. */
  function MergeFrom(b: Book, k: int, s: set<int>, j: int): (r: Book)
    requires Sane(b) && k in b.clusters && s <= b.clusters.Keys && k < j
    ensures Sane(r) && |r.pool| == |b.pool| && r.clusters.Keys == b.clusters.Keys && r.next == b.next
    decreases b.next - j
  {
    if j >= b.next then b
    else MergeFrom(if j in s then StealHits(b, k, j) else b, k, s, j + 1)
  }

  /** The new hit and what its neighbours bring go to cluster `k`, and the other touched clusters are
      merged into that one. */
  function Join(b: Book, newHit: HitId, k: int, touched: set<int>, minPts: nat): (r: Book)
    requires Sane(b) && newHit < |b.pool| && k in b.clusters && touched <= b.clusters.Keys
    ensures Sane(r) && |r.pool| == |b.pool| && r.clusters.Keys == b.clusters.Keys && r.next == b.next
  {
    MergeFrom(AbsorbNeighbours(AddHit(b, k, newHit), k, b.pool[newHit].neighbours, 0, minPts), k, touched, k + 1)
  }

  /** The last case: a neighbour that the new hit made core, both still in no cluster. */
  function StartAtNeighbours(b: Book, newHit: HitId, ns: seq<HitId>, i: nat, minPts: nat): (r: Book)
    requires Sane(b) && newHit < |b.pool| && InPool(b.pool, ns) && i <= |ns|
    ensures Sane(r) && |r.pool| == |b.pool|
    decreases |ns| - i
  {
    if i == |ns| then
      b
    else
      var b' := if b.pool[ns[i]].IsCore(minPts) && b.pool[ns[i]].cluster == UNDEFINED_CLUSTER
                   && b.pool[newHit].cluster == UNDEFINED_CLUSTER
                then StartCluster(b, ns[i], minPts) else b;
      StartAtNeighbours(b', newHit, ns, i + 1, minPts)
  }

  /** Places the new hit, whose neighbours are linked already. */
  function Place(b: Book, newHit: HitId, minPts: nat): (r: Book)
    requires Sane(b) && newHit < |b.pool|
    requires CoreClusters(b.pool, b.pool[newHit].neighbours, minPts) <= b.clusters.Keys
    ensures Sane(r) && |r.pool| == |b.pool|
  {
    var ns := b.pool[newHit].neighbours;
    var touched := CoreClusters(b.pool, ns, minPts);
    var b1 :=
      if touched == {} then
        if b.pool[newHit].IsCore(minPts) then StartCluster(MarkCore(b, newHit), newHit, minPts) else b
      else
        Join(b, newHit, Smallest(touched), touched, minPts);
    StartAtNeighbours(b1, newHit, ns, 0, minPts)
  }

  /** The clusters that remain live, and the completed ones in the order in which they are handed out. */
  datatype Swept = Swept(live: map<int, Cluster>, completed: seq<Cluster>)

  predicate IsComplete(c: Cluster, now: real, eps: real) {
    c.completeness.KComplete? || c.latestTime < now - eps
  }

  /** Deletes completed clusters with index below `j`, handing out those that hold hits. */
  function Sweep(clusters: map<int, Cluster>, now: real, eps: real, j: nat): Swept {
    if j == 0 then
      Swept(clusters, [])
    else
      var s := Sweep(clusters, now, eps, j - 1);
      var k := j - 1;
      if k in s.live && IsComplete(s.live[k], now, eps) then
        Swept(s.live - {k},
              if s.live[k].hits == [] then s.completed else s.completed + [s.live[k].(completeness := KComplete)])
      else
        s
  }
}
