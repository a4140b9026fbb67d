/** The three ways in which a new hit changes clusters: starting one, absorbing neighbours into one,
    and merging others into it. */
module ClusterMoves {
  import opened Graph
  import opened Hits
  import opened Clusters
  import opened ClusterGrowth

  // ----- starting a cluster

  /** A new cluster numbered `b.next` holds exactly the hits `a` that were in no cluster before: `seed`, and
      what can be reached from it through core hits. */
  ghost predicate Started(b: Book, r: Book, seed: HitId, a: set<HitId>, minPts: nat) {
    && PoolGrew(b.pool, r.pool, b.next, a, minPts)
    && r.next == b.next + 1 && r.clusters.Keys == b.clusters.Keys + {b.next}
    && (forall j :: j in b.clusters ==> r.clusters[j] == b.clusters[j])
    && r.clusters[b.next].index == b.next && r.clusters[b.next].completeness.KIncomplete?
    && Members(r.clusters[b.next].hits) == a && ClusterOk(r.pool, r.clusters[b.next])
    && seed in a && a <= Unclustered(b.pool)
    && Closed(r.pool, a, minPts) && Reached(r.pool, a, [seed], minPts)
  }

  lemma FloodedIsStarted(b: Book, r: Book, seed: HitId, minPts: nat)
    requires Sane(b) && seed in Unclustered(b.pool)
    requires Flooded(OpenCluster(b), r, b.next, [seed], minPts)
    ensures Started(b, r, seed, Taken(b, r), minPts)
  {
    SeedIsTaken(b, r, seed);
    hide ClusterOk, PoolGrew, Closed, Reached;
  }

  lemma OpenedIsOk(b: Book)
    requires Sane(b)
    ensures var r := OpenCluster(b); ClusterOk(r.pool, r.clusters[b.next])
  {
  }

  lemma FirstFlooded(b: Book, b1: Book, r: Book, k: int, seed: HitId, minPts: nat)
    requires k in b.clusters && 0 <= k && seed in Unclustered(b.pool) && b.pool[seed].IsCore(minPts)
    requires Grew(b, b1, k, {seed}, minPts) && Flooded(b1, r, k, b.pool[seed].neighbours, minPts)
    ensures Flooded(b, r, k, [seed], minPts)
  {
    hide Grew, Flooded;
    var none: seq<HitId> := [];
    assert none + Pushed(b.pool[seed], minPts) == b.pool[seed].neighbours && none + [seed] == [seed];
    FloodAdds(b, b1, r, k, none, seed, minPts);
  }

  lemma StartFloods(b: Book, seed: HitId, minPts: nat)
    requires Sane(b) && seed < |b.pool| && b.pool[seed].cluster == UNDEFINED_CLUSTER && b.pool[seed].IsCore(minPts)
    ensures Flooded(OpenCluster(b), StartCluster(b, seed, minPts), b.next, [seed], minPts)
  {
    var k, b0 := b.next, OpenCluster(b);
    var b1, r := AddHit(b0, k, seed), StartCluster(b, seed, minPts);
    assert seed in Unclustered(b0.pool);
    OpenedIsOk(b);
    hide OpenCluster, AddHit, PoolGrew, Flooded, Flood, ClusterOk, Unclustered;
    AddHitGrew(b0, k, seed, minPts);
    FloodCorrect(b1, k, b.pool[seed].neighbours, minPts);
    FirstFlooded(b0, b1, r, k, seed, minPts);
  }

  lemma StartClusterCorrect(b: Book, seed: HitId, minPts: nat)
    requires Sane(b) && seed < |b.pool| && b.pool[seed].cluster == UNDEFINED_CLUSTER && b.pool[seed].IsCore(minPts)
    ensures var r := StartCluster(b, seed, minPts); Started(b, r, seed, Taken(b, r), minPts)
  {
    StartFloods(b, seed, minPts);
    FloodedIsStarted(b, StartCluster(b, seed, minPts), seed, minPts);
  }

  lemma SeedIsTaken(b: Book, r: Book, seed: HitId)
    requires seed in Unclustered(b.pool) && AllClustered(r.pool, [seed]) && |r.pool| == |b.pool|
    ensures seed in Taken(b, r)
  {
    assert seed in [seed];
  }

  // ----- absorbing the neighbours of the new hit

  /** The hits `f` that the neighbours `ns` bring: those in no cluster, and the neighbours of those that
      have just become core. */
  ghost predicate Brings(b: Book, ns: seq<HitId>, f: HitId, minPts: nat) {
    || (f in ns && f in Unclustered(b.pool))
    || (exists q: HitId :: q in ns && q < |b.pool| && |b.pool[q].neighbours| + 1 == minPts && f in b.pool[q].neighbours)
  }

  ghost predicate Absorbed(b: Book, r: Book, k: int, ns: seq<HitId>, a: set<HitId>, minPts: nat)
    requires k in b.clusters
  {
    && Grew(b, r, k, a, minPts)
    && forall f: HitId :: f in a <==> Brings(b, ns, f, minPts)
  }

  lemma AddIfUnclusteredGrew(b: Book, k: int, q: HitId, minPts: nat)
    requires Sane(b) && k in b.clusters && q < |b.pool| && ClusterOk(b.pool, b.clusters[k])
    ensures var b1 := if b.pool[q].cluster == UNDEFINED_CLUSTER then AddHit(b, k, q) else b;
      && Grew(b, b1, k, if b.pool[q].cluster == UNDEFINED_CLUSTER then {q} else {}, minPts)
      && ClusterOk(b1.pool, b1.clusters[k])
      && b1.pool[q].neighbours == b.pool[q].neighbours
  {
    if b.pool[q].cluster == UNDEFINED_CLUSTER {
      AddHitGrew(b, k, q, minPts);
    } else {
      GrewNothing(b, k, minPts);
    }
  }

  lemma AddNewCoreNeighboursGrew(b: Book, k: int, q: HitId, minPts: nat)
    requires Sane(b) && k in b.clusters && q < |b.pool| && ClusterOk(b.pool, b.clusters[k])
    ensures var isNew := |b.pool[q].neighbours| + 1 == minPts;
      var r := if isNew then AddAll(b, k, b.pool[q].neighbours, 0) else b;
      Grew(b, r, k, if isNew then Members(b.pool[q].neighbours) else {}, minPts)
  {
    if |b.pool[q].neighbours| + 1 == minPts {
      AddAllGrew(b, k, b.pool[q].neighbours, 0, minPts);
    } else {
      GrewNothing(b, k, minPts);
    }
  }

  /** What neighbour `q` brings: itself, and its own neighbours. */
  ghost function BroughtBy(b: Book, q: HitId, minPts: nat): set<HitId>
    requires q < |b.pool|
  {
    (if b.pool[q].cluster == UNDEFINED_CLUSTER then {q} else {}) +
    (if |b.pool[q].neighbours| + 1 == minPts then Members(b.pool[q].neighbours) else {})
  }

  lemma AbsorbOne(b: Book, k: int, q: HitId, minPts: nat) returns (a: set<HitId>)
    requires Sane(b) && k in b.clusters && q < |b.pool| && ClusterOk(b.pool, b.clusters[k])
    ensures Absorbed(b, AbsorbNeighbour(b, k, q, minPts), k, [q], a, minPts)
  {
    hide Grew, AbsorbNeighbour, ClusterOk, Sane, Brings;
    AbsorbOneGrew(b, k, q, minPts);
    BroughtByOne(b, q, minPts);
    a := BroughtBy(b, q, minPts);
  }

  lemma AbsorbOneGrew(b: Book, k: int, q: HitId, minPts: nat)
    requires Sane(b) && k in b.clusters && q < |b.pool| && ClusterOk(b.pool, b.clusters[k])
    ensures Grew(b, AbsorbNeighbour(b, k, q, minPts), k, BroughtBy(b, q, minPts), minPts)
  {
    hide Grew, AddHit, AddAll, ClusterOk;
    var b1 := if b.pool[q].cluster == UNDEFINED_CLUSTER then AddHit(b, k, q) else b;
    var a1: set<HitId> := if b.pool[q].cluster == UNDEFINED_CLUSTER then {q} else {};
    var a2: set<HitId> := if |b.pool[q].neighbours| + 1 == minPts then Members(b.pool[q].neighbours) else {};
    AddIfUnclusteredGrew(b, k, q, minPts);
    GrewKeepsPool(b, b1, k, a1, minPts);
    AddNewCoreNeighboursGrew(b1, k, q, minPts);
    GrewTwice(b, b1, AbsorbNeighbour(b, k, q, minPts), k, a1, a2, minPts);
  }

  lemma GrewKeepsPool(b: Book, r: Book, k: int, a: set<HitId>, minPts: nat)
    requires Sane(b) && k in b.clusters && Grew(b, r, k, a, minPts)
    ensures k in r.clusters && |r.pool| == |b.pool|
  {
  }

  lemma BroughtByOne(b: Book, q: HitId, minPts: nat)
    requires q < |b.pool|
    ensures forall f: HitId :: f in BroughtBy(b, q, minPts) <==> Brings(b, [q], f, minPts)
  {
    assert q in [q];
  }

  lemma BringsLater(b: Book, b': Book, k: int, ns: seq<HitId>, a: set<HitId>, f: HitId, minPts: nat)
    requires k in b.clusters && 0 <= k && Grew(b, b', k, a, minPts) && InPool(b.pool, ns)
    ensures Brings(b', ns, f, minPts) ==> Brings(b, ns, f, minPts)
    ensures Brings(b, ns, f, minPts) ==> Brings(b', ns, f, minPts) || f in a
  {
    forall q: HitId | q < |b.pool|
      ensures b'.pool[q].neighbours == b.pool[q].neighbours
      ensures b'.pool[q].cluster == if q in a then k else b.pool[q].cluster
    {
      GrewNeighbours(b, b', k, a, minPts, q);
    }
    hide Grew;
  }

  lemma AbsorbedTwice(b: Book, b': Book, r: Book, k: int, ns: seq<HitId>, ms: seq<HitId>, a: set<HitId>,
                      a': set<HitId>, minPts: nat)
    requires k in b.clusters && k in b'.clusters && 0 <= k && InPool(b.pool, ns + ms)
    requires Absorbed(b, b', k, ns, a, minPts) && Absorbed(b', r, k, ms, a', minPts)
    ensures Absorbed(b, r, k, ns + ms, a + a', minPts)
  {
    GrewTwice(b, b', r, k, a, a', minPts);
    assert InPool(b.pool, ms) by {
      assert forall i :: 0 <= i < |ms| ==> ms[i] == (ns + ms)[|ns| + i];
    }
    hide Grew;
    forall f: HitId
      ensures f in a + a' <==> Brings(b, ns + ms, f, minPts)
    {
      BringsLater(b, b', k, ms, a, f, minPts);
      assert Brings(b, ns + ms, f, minPts) <==> Brings(b, ns, f, minPts) || Brings(b, ms, f, minPts);
    }
  }

  /** Absorbing takes in exactly what the neighbours bring. */
  lemma {:induction false} AbsorbCorrect(b: Book, k: int, ns: seq<HitId>, i: nat, minPts: nat) returns (a: set<HitId>)
    requires Sane(b) && k in b.clusters && InPool(b.pool, ns) && i <= |ns| && ClusterOk(b.pool, b.clusters[k])
    ensures Absorbed(b, AbsorbNeighbours(b, k, ns, i, minPts), k, ns[i..], a, minPts)
    decreases |ns| - i
  {
    hide AbsorbNeighbour, Absorbed, ClusterOk;
    if i == |ns| {
      a := {};
      AbsorbNone(b, k, minPts);
      assert ns[i..] == [];
    } else {
      var q := ns[i];
      var a1 := AbsorbOne(b, k, q, minPts);
      var b2 := AbsorbNeighbour(b, k, q, minPts);
      AbsorbedOk(b, b2, k, [q], a1, minPts);
      hide Sane;
      var a2 := AbsorbCorrect(b2, k, ns, i + 1, minPts);
      AbsorbedRest(b, k, ns, i);
      AbsorbedTwice(b, b2, AbsorbNeighbours(b2, k, ns, i + 1, minPts), k, [q], ns[i + 1..], a1, a2, minPts);
      a := a1 + a2;
    }
  }

  lemma AbsorbNone(b: Book, k: int, minPts: nat)
    requires Sane(b) && k in b.clusters && ClusterOk(b.pool, b.clusters[k])
    ensures Absorbed(b, b, k, [], {}, minPts)
  {
    GrewNothing(b, k, minPts);
    hide Grew;
  }

  lemma AbsorbedRest(b: Book, k: int, ns: seq<HitId>, i: nat)
    requires Sane(b) && k in b.clusters && i < |ns| && InPool(b.pool, ns)
    ensures 0 <= k && ns[i..] == [ns[i]] + ns[i + 1..] && InPool(b.pool, ns[i..])
  {
  }

  lemma AbsorbedOk(b: Book, r: Book, k: int, ns: seq<HitId>, a: set<HitId>, minPts: nat)
    requires k in b.clusters && Absorbed(b, r, k, ns, a, minPts)
    ensures k in r.clusters && ClusterOk(r.pool, r.clusters[k])
  {
  }

  // ----- merging clusters

  /** From `b` to `r`, cluster `k` took in exactly the hits of `a`, and the clusters of `gone` were emptied. */
  ghost predicate Took(b: Book, r: Book, k: int, a: set<HitId>, gone: set<int>, minPts: nat)
    requires k in b.clusters && gone <= b.clusters.Keys
  {
    && PoolGrew(b.pool, r.pool, k, a, minPts)
    && r.next == b.next && r.clusters.Keys == b.clusters.Keys && k !in gone
    && (forall j :: j in b.clusters && j != k && j !in gone ==> r.clusters[j] == b.clusters[j])
    && (forall j :: j in gone ==>
          r.clusters[j].hits == [] && r.clusters[j].completeness.KComplete? && r.clusters[j].index == j)
    && r.clusters[k].index == k && r.clusters[k].completeness == b.clusters[k].completeness
    && Members(r.clusters[k].hits) == Members(b.clusters[k].hits) + a
    && ClusterOk(r.pool, r.clusters[k])
  }

  lemma TookTwice(b: Book, b': Book, r: Book, k: int, a: set<HitId>, a': set<HitId>, gone: set<int>, gone': set<int>,
                  minPts: nat)
    requires k in b.clusters && gone <= b.clusters.Keys && k in b'.clusters
    requires gone' <= b'.clusters.Keys && gone !! gone'
    requires Took(b, b', k, a, gone, minPts) && Took(b', r, k, a', gone', minPts)
    ensures Took(b, r, k, a + a', gone + gone', minPts)
  {
    forall h: HitId | h < |b.pool|
      ensures HitGrew(b.pool[h], r.pool[h], k, h in a + a', minPts)
    {
      assert HitGrew(b.pool[h], b'.pool[h], k, h in a, minPts);
      assert HitGrew(b'.pool[h], r.pool[h], k, h in a', minPts);
    }
    hide ClusterOk, HitGrew;
  }

  lemma StealHitsTook(b: Book, k: int, other: int, minPts: nat)
    requires Sane(b) && k in b.clusters && other in b.clusters && k != other && ClusterOk(b.pool, b.clusters[k])
    ensures Took(b, StealHits(b, k, other), k, Members(b.clusters[other].hits), {other}, minPts)
  {
    var hits := b.clusters[other].hits;
    AddAllGrew(b, k, hits, 0, minPts);
    assert hits[0..] == hits;
    hide ClusterOk, PoolGrew, AddAll;
  }

  ghost function HitsOf(b: Book, s: set<int>): set<HitId>
    requires s <= b.clusters.Keys
  {
    set j, h | j in s && h in b.clusters[j].hits :: h
  }

  lemma TookKeepsOthers(b: Book, r: Book, k: int, a: set<HitId>, gone: set<int>, s: set<int>, minPts: nat)
    requires k in b.clusters && gone <= b.clusters.Keys && s <= b.clusters.Keys && k !in s && gone !! s
    requires Took(b, r, k, a, gone, minPts)
    ensures HitsOf(r, s) == HitsOf(b, s)
  {
    hide PoolGrew, ClusterOk;
  }

  lemma TookOneMore(b: Book, b1: Book, r: Book, k: int, j: int, rest: set<int>, minPts: nat)
    requires k in b.clusters && j in b.clusters && k in b1.clusters && b1.clusters.Keys == b.clusters.Keys
    requires rest <= b.clusters.Keys && j !in rest && k !in rest
    requires Took(b, b1, k, Members(b.clusters[j].hits), {j}, minPts) && Took(b1, r, k, HitsOf(b1, rest), rest, minPts)
    ensures Took(b, r, k, HitsOf(b, {j} + rest), {j} + rest, minPts)
  {
    TookKeepsOthers(b, b1, k, Members(b.clusters[j].hits), {j}, rest, minPts);
    TookTwice(b, b1, r, k, Members(b.clusters[j].hits), HitsOf(b, rest), {j}, rest, minPts);
    hide Took;
    assert HitsOf(b, {j} + rest) == Members(b.clusters[j].hits) + HitsOf(b, rest);
  }

  ghost function From(s: set<int>, j: int): set<int> {
    set i | i in s && j <= i
  }

  lemma MergeStop(b: Book, k: int, s: set<int>, j: int, minPts: nat)
    requires Sane(b) && k in b.clusters && s <= b.clusters.Keys && b.next <= j && ClusterOk(b.pool, b.clusters[k])
    ensures From(s, j) == {} && Took(b, b, k, HitsOf(b, {}), {}, minPts)
  {
    GrewNothing(b, k, minPts);
    assert HitsOf(b, {}) == {};
  }

  /** Merging takes in every hit of every cluster merged, and empties those clusters. */
  lemma {:induction false} MergeCorrect(b: Book, k: int, s: set<int>, j: int, minPts: nat)
    requires Sane(b) && k in b.clusters && s <= b.clusters.Keys && k < j && ClusterOk(b.pool, b.clusters[k])
    ensures From(s, j) <= b.clusters.Keys
    ensures Took(b, MergeFrom(b, k, s, j), k, HitsOf(b, From(s, j)), From(s, j), minPts)
    decreases b.next - j
  {
    hide StealHits, Took, ClusterOk, HitsOf, Sane;
    if j >= b.next {
      MergeStop(b, k, s, j, minPts);
    } else if j in s {
      var b1 := StealHits(b, k, j);
      StealHitsTook(b, k, j, minPts);
      TookOk(b, b1, k, Members(b.clusters[j].hits), {j}, minPts);
      MergeCorrect(b1, k, s, j + 1, minPts);
      TookOneMore(b, b1, MergeFrom(b1, k, s, j + 1), k, j, From(s, j + 1), minPts);
      assert From(s, j) == {j} + From(s, j + 1);
    } else {
      MergeCorrect(b, k, s, j + 1, minPts);
      assert From(s, j) == From(s, j + 1);
    }
  }

  lemma TookOk(b: Book, r: Book, k: int, a: set<HitId>, gone: set<int>, minPts: nat)
    requires k in b.clusters && gone <= b.clusters.Keys && Took(b, r, k, a, gone, minPts)
    ensures k in r.clusters && ClusterOk(r.pool, r.clusters[k])
  {
  }
}
