/** What placing a new hit does, whichever case applies, for every minPts. */
module Placement {
  import opened Graph
  import opened Hits
  import opened Clusters
  import opened ClusterGrowth
  import opened ClusterMoves
  import opened ClusterInvariant

  /** A state in which hit `n` has arrived, its neighbours are linked, and it is in no cluster yet. */
  ghost predicate Arrived(pts: seq<Point>, eps: real, b: Book, n: HitId) {
    && eps >= 0.0 && n < |pts|
    && Placing(pts, eps, b, pts[n].time)
    && b.pool[n].cluster == UNDEFINED_CLUSTER
  }

  ghost function Touched(b: Book, n: HitId, minPts: nat): set<int>
    requires Sane(b) && n < |b.pool|
  {
    CoreClusters(b.pool, b.pool[n].neighbours, minPts)
  }

  /** Every cluster looked up when a hit is placed is live. */
  lemma TouchedIsLive(pts: seq<Point>, eps: real, b: Book, n: HitId, minPts: nat)
    requires Arrived(pts, eps, b, n)
    ensures Touched(b, n, minPts) <= b.clusters.Keys
  {
    forall q | q in b.pool[n].neighbours && b.pool[q].cluster != UNDEFINED_CLUSTER
      ensures b.pool[q].cluster in b.clusters && q in b.clusters[b.pool[q].cluster].hits
    {
      AdjacentInTime(pts, eps, n, q);
      assert b.pool[q].At() == pts[q];
      assert IndexOk(b, q, pts[n].time, eps);
    }
  }

  /** A touched cluster lies in the component of the new hit. */
  lemma TouchedConnected(pts: seq<Point>, eps: real, b: Book, n: HitId, minPts: nat, j: int, f: HitId)
    requires Arrived(pts, eps, b, n) && j in Touched(b, n, minPts) && j in b.clusters && f in b.clusters[j].hits
    ensures Connected(pts, eps, n, f)
  {
    var q :| q in b.pool[n].neighbours && b.pool[q].cluster == j && j != UNDEFINED_CLUSTER;
    assert IndexOk(b, q, pts[n].time, eps);
    assert SoundCluster(pts, eps, b.pool, b.clusters[j]);
    ConnectedEdge(pts, eps, n, q);
    hide Adjacent, DistanceSqr;
    ConnectedTransitive(pts, eps, n, q, f);
  }

  lemma BroughtConnected(pts: seq<Point>, eps: real, b: Book, n: HitId, f: HitId, minPts: nat)
    requires Arrived(pts, eps, b, n) && Brings(b, b.pool[n].neighbours, f, minPts)
    ensures Connected(pts, eps, n, f)
  {
    if f in b.pool[n].neighbours {
      ConnectedEdge(pts, eps, n, f);
    } else {
      var q: HitId :| q in b.pool[n].neighbours && q < |b.pool| && f in b.pool[q].neighbours;
      ConnectedEdge(pts, eps, n, q);
      ConnectedEdge(pts, eps, q, f);
      ConnectedTransitive(pts, eps, n, q, f);
    }
  }

  // ----- joining clusters

  /** The hits that end up in the cluster the new hit joins: itself, what its neighbours bring, and the
      hits of the other clusters it touches. */
  ghost predicate Joins(b: Book, n: HitId, gone: set<int>, f: HitId, minPts: nat)
    requires Sane(b) && n < |b.pool| && gone <= b.clusters.Keys
  {
    f == n || Brings(b, b.pool[n].neighbours, f, minPts) || f in HitsOf(b, gone)
  }

  ghost predicate Joined(b: Book, r: Book, n: HitId, a: set<HitId>, minPts: nat)
    requires Sane(b) && n < |b.pool|
  {
    var touched := Touched(b, n, minPts);
    touched != {} && touched <= b.clusters.Keys &&
    var gone := touched - {Smallest(touched)};
    && Took(b, r, Smallest(touched), a, gone, minPts)
    && forall f: HitId :: f in a <==> Joins(b, n, gone, f, minPts)
  }

  lemma GrewTook(b: Book, b': Book, r: Book, k: int, a: set<HitId>, a': set<HitId>, gone: set<int>, minPts: nat)
    requires k in b.clusters && k in b'.clusters && gone <= b'.clusters.Keys && k !in gone
    requires Grew(b, b', k, a, minPts) && Took(b', r, k, a', gone, minPts)
    ensures gone <= b.clusters.Keys && Took(b, r, k, a + a', gone, minPts)
    ensures HitsOf(b', gone) == HitsOf(b, gone)
  {
    TookKeepsOthers(b, b', k, a, {}, gone, minPts);
    TookTwice(b, b', r, k, a, a', {}, gone, minPts);
    assert {} + gone == gone;
  }

  lemma AbsorbThenMerge(b: Book, k: int, ns: seq<HitId>, touched: set<int>, minPts: nat) returns (a: set<HitId>)
    requires Sane(b) && InPool(b.pool, ns) && touched <= b.clusters.Keys && k in b.clusters
    requires ClusterOk(b.pool, b.clusters[k]) && k !in From(touched, k + 1)
    ensures From(touched, k + 1) <= b.clusters.Keys
    ensures var r := MergeFrom(AbsorbNeighbours(b, k, ns, 0, minPts), k, touched, k + 1);
      Took(b, r, k, a + HitsOf(b, From(touched, k + 1)), From(touched, k + 1), minPts)
    ensures forall f: HitId :: f in a <==> Brings(b, ns, f, minPts)
  {
    a := AbsorbCorrect(b, k, ns, 0, minPts);
    assert ns[0..] == ns;
    var b2 := AbsorbNeighbours(b, k, ns, 0, minPts);
    AbsorbedOk(b, b2, k, ns, a, minPts);
    MergeCorrect(b2, k, touched, k + 1, minPts);
    var r := MergeFrom(b2, k, touched, k + 1);
    hide AbsorbNeighbours, MergeFrom, ClusterOk, Took, Grew;
    GrewTook(b, b2, r, k, a, HitsOf(b2, From(touched, k + 1)), From(touched, k + 1), minPts);
  }

  /** The new hit is added to cluster `k`, its neighbours are absorbed, and the others touched are merged. */
  lemma JoinTook(b: Book, n: HitId, k: int, touched: set<int>, minPts: nat) returns (a: set<HitId>)
    requires Sane(b) && n < |b.pool| && k in touched && touched <= b.clusters.Keys && ClusterOk(b.pool, b.clusters[k])
    requires From(touched, k + 1) == touched - {k}
    ensures Grew(b, AddHit(b, k, n), k, {n}, minPts)
    ensures Took(b, Join(b, n, k, touched, minPts), k, {n} + (a + HitsOf(b, touched - {k})), touched - {k}, minPts)
    ensures forall f: HitId :: f in a <==> Brings(AddHit(b, k, n), b.pool[n].neighbours, f, minPts)
  {
    hide AddHit, AbsorbNeighbours, MergeFrom, Took, Brings;
    AddHitGrew(b, k, n, minPts);
    var b1, gone := AddHit(b, k, n), touched - {k};
    GrewOk(b, b1, k, {n}, minPts);
    hide Grew, ClusterOk;
    a := AbsorbThenMerge(b1, k, b.pool[n].neighbours, touched, minPts);
    GrewTook(b, b1, Join(b, n, k, touched, minPts), k, {n}, a + HitsOf(b1, gone), gone, minPts);
  }

  lemma GrewOk(b: Book, r: Book, k: int, a: set<HitId>, minPts: nat)
    requires k in b.clusters && Grew(b, r, k, a, minPts)
    ensures k in r.clusters && ClusterOk(r.pool, r.clusters[k])
  {
  }

  lemma FromSmallest(s: set<int>)
    requires s != {}
    ensures From(s, Smallest(s) + 1) == s - {Smallest(s)}
  {
  }

  lemma JoinCorrect(b: Book, n: HitId, minPts: nat) returns (a: set<HitId>)
    requires Sane(b) && n < |b.pool| && Touched(b, n, minPts) != {} && Touched(b, n, minPts) <= b.clusters.Keys
    requires ClusterOk(b.pool, b.clusters[Smallest(Touched(b, n, minPts))])
    requires b.pool[n].cluster == UNDEFINED_CLUSTER
    ensures var touched := Touched(b, n, minPts);
      Joined(b, Join(b, n, Smallest(touched), touched, minPts), n, a, minPts)
  {
    hide AddHit, Join, ClusterOk, Took, Grew, Brings, Joins, From;
    var touched := Touched(b, n, minPts);
    var k := Smallest(touched);
    FromSmallest(touched);
    var a2 := JoinTook(b, n, k, touched, minPts);
    a := {n} + (a2 + HitsOf(b, touched - {k}));
    JoinsExactly(b, AddHit(b, k, n), n, k, a2, touched - {k}, minPts);
  }

  lemma JoinsExactly(b: Book, b1: Book, n: HitId, k: int, a2: set<HitId>, gone: set<int>, minPts: nat)
    requires Sane(b) && n < |b.pool| && k in b.clusters && gone <= b.clusters.Keys
    requires Grew(b, b1, k, {n}, minPts)
    requires forall f: HitId :: f in a2 <==> Brings(b1, b.pool[n].neighbours, f, minPts)
    ensures forall f: HitId :: f in {n} + (a2 + HitsOf(b, gone)) <==> Joins(b, n, gone, f, minPts)
  {
    forall f: HitId
      ensures f in {n} + (a2 + HitsOf(b, gone)) <==> Joins(b, n, gone, f, minPts)
    {
      BringsLater(b, b1, k, b.pool[n].neighbours, {n}, f, minPts);
    }
  }

  // ----- starting clusters

  /** No cluster is touched, and a new one starts: at the new hit if that is core, else at a neighbour
      that it has made core. */
  ghost predicate StartedAt(b: Book, r: Book, n: HitId, seed: HitId, a: set<HitId>, minPts: nat)
    requires Sane(b) && n < |b.pool|
  {
    && Touched(b, n, minPts) == {}
    && seed < |b.pool| && b.pool[seed].cluster == UNDEFINED_CLUSTER && b.pool[seed].IsCore(minPts)
    && (if b.pool[n].IsCore(minPts) then seed == n else seed in b.pool[n].neighbours)
    && Started(if b.pool[n].IsCore(minPts) then MarkCore(b, n) else b, r, seed, a, minPts)
  }

  ghost predicate NothingToStart(b: Book, hits: seq<HitId>, minPts: nat) {
    forall q: HitId :: q in hits && q < |b.pool| && b.pool[q].IsCore(minPts) ==> b.pool[q].cluster != UNDEFINED_CLUSTER
  }

  ghost predicate Idle(b: Book, r: Book, n: HitId, minPts: nat)
    requires Sane(b) && n < |b.pool|
  {
    && r == b && Touched(b, n, minPts) == {}
    && !b.pool[n].IsCore(minPts) && NothingToStart(b, b.pool[n].neighbours, minPts)
  }

  lemma {:induction false} NoStartWhenClustered(b: Book, n: HitId, ns: seq<HitId>, i: nat, minPts: nat)
    requires Sane(b) && n < |b.pool| && InPool(b.pool, ns) && i <= |ns|
    requires b.pool[n].cluster != UNDEFINED_CLUSTER
    ensures StartAtNeighbours(b, n, ns, i, minPts) == b
    decreases |ns| - i
  {
    if i < |ns| {
      NoStartWhenClustered(b, n, ns, i + 1, minPts);
    }
  }

  /** A cluster started at a neighbour of `n` takes in `n`. */
  lemma StartedTakesNeighbours(b: Book, r: Book, seed: HitId, a: set<HitId>, n: HitId, minPts: nat)
    requires Started(b, r, seed, a, minPts) && seed < |b.pool| && n < |b.pool|
    requires b.pool[seed].IsCore(minPts) && n in b.pool[seed].neighbours
    ensures |r.pool| == |b.pool| && r.pool[n].cluster != UNDEFINED_CLUSTER
  {
    assert HitGrew(b.pool[seed], r.pool[seed], b.next, seed in a, minPts);
    assert AllClustered(r.pool, r.pool[seed].neighbours);
  }

  /** The last case starts at most one cluster. */
  lemma {:induction false} StartAtNeighboursCorrect(b: Book, n: HitId, ns: seq<HitId>, i: nat, minPts: nat)
    requires Sane(b) && n < |b.pool| && InPool(b.pool, ns) && i <= |ns|
    requires forall q: HitId :: q in ns && q < |b.pool| ==> n in b.pool[q].neighbours
    requires b.pool[n].cluster == UNDEFINED_CLUSTER
    ensures var r := StartAtNeighbours(b, n, ns, i, minPts);
      || (r == b && NothingToStart(b, ns[i..], minPts))
      || (exists seed: HitId :: seed in ns && seed < |b.pool| && b.pool[seed].cluster == UNDEFINED_CLUSTER
             && b.pool[seed].IsCore(minPts) && r == StartCluster(b, seed, minPts))
    decreases |ns| - i
  {
    if i < |ns| {
      var q := ns[i];
      if b.pool[q].IsCore(minPts) && b.pool[q].cluster == UNDEFINED_CLUSTER {
        var b' := StartCluster(b, q, minPts);
        StartClusterCorrect(b, q, minPts);
        StartedTakesNeighbours(b, b', q, Taken(b, b'), n, minPts);
        hide Started, StartCluster;
        NoStartWhenClustered(b', n, ns, i + 1, minPts);
      } else {
        hide Started, StartCluster;
        StartAtNeighboursCorrect(b, n, ns, i + 1, minPts);
        assert ns[i..] == [q] + ns[i + 1..];
      }
    }
  }

  lemma StartClusterConnected(pts: seq<Point>, eps: real, b: Book, seed: HitId, minPts: nat)
    requires Sane(b) && Linked(b.pool, pts, eps)
    requires seed < |b.pool| && b.pool[seed].cluster == UNDEFINED_CLUSTER && b.pool[seed].IsCore(minPts)
    ensures AllConnected(pts, eps, seed, Taken(b, StartCluster(b, seed, minPts)))
  {
    var k, b0 := b.next, OpenCluster(b);
    var b1 := AddHit(b0, k, seed);
    var r := StartCluster(b, seed, minPts);
    assert seed in Unclustered(b0.pool);
    AddHitGrew(b0, k, seed, minPts);
    GrewLinked(pts, eps, b0, b1, k, {seed}, minPts);
    ConnectedReflexive(pts, eps, seed);
    NeighboursConnected(pts, eps, b.pool, seed, seed);
    hide AddHit, Linked, Flood, Connected, PoolGrew, Unclustered;
    FloodConnected(pts, eps, b1, k, b.pool[seed].neighbours, minPts, seed);
    FloodCorrect(b1, k, b.pool[seed].neighbours, minPts);
    TakenStep(b0, b1, r, k, seed, minPts);
  }

  // ----- the whole placement

  /** The three outcomes of placing hit `n`. */
  ghost predicate Placed(b: Book, r: Book, n: HitId, minPts: nat)
    requires Sane(b) && n < |b.pool|
  {
    || (exists a :: Joined(b, r, n, a, minPts))
    || (exists seed, a :: StartedAt(b, r, n, seed, a, minPts))
    || Idle(b, r, n, minPts)
  }

  lemma TouchedAreSound(pts: seq<Point>, eps: real, b: Book, n: HitId, minPts: nat, k: int)
    requires Arrived(pts, eps, b, n) && k in Touched(b, n, minPts) && k in b.clusters
    ensures ClusterOk(b.pool, b.clusters[k]) && b.clusters[k].hits != []
  {
    var q :| q in b.pool[n].neighbours && b.pool[q].cluster == k && k != UNDEFINED_CLUSTER;
    assert IndexOk(b, q, pts[n].time, eps);
    assert SoundCluster(pts, eps, b.pool, b.clusters[k]);
  }

  lemma JoinedConnected(pts: seq<Point>, eps: real, b: Book, r: Book, n: HitId, a: set<HitId>, minPts: nat)
    requires Arrived(pts, eps, b, n) && Joined(b, r, n, a, minPts)
    ensures AllConnected(pts, eps, n, a + Members(b.clusters[Smallest(Touched(b, n, minPts))].hits))
  {
    var touched := Touched(b, n, minPts);
    var k := Smallest(touched);
    hide Took, Brings, Arrived, Touched;
    forall f: HitId | f in a + Members(b.clusters[k].hits)
      ensures Connected(pts, eps, n, f)
    {
      if f == n {
        ConnectedReflexive(pts, eps, n);
      } else if f in a && Brings(b, b.pool[n].neighbours, f, minPts) {
        BroughtConnected(pts, eps, b, n, f, minPts);
      } else if f in a && f in HitsOf(b, touched - {k}) {
        var j :| j in touched - {k} && f in b.clusters[j].hits;
        TouchedConnected(pts, eps, b, n, minPts, j, f);
      } else {
        TouchedConnected(pts, eps, b, n, minPts, k, f);
      }
    }
  }

  lemma JoinedKeepsPlacing(pts: seq<Point>, eps: real, b: Book, r: Book, n: HitId, a: set<HitId>, minPts: nat)
    requires Arrived(pts, eps, b, n) && Sane(r) && Joined(b, r, n, a, minPts)
    ensures Placing(pts, eps, r, pts[n].time)
  {
    var touched := Touched(b, n, minPts);
    var k := Smallest(touched);
    TouchedAreSound(pts, eps, b, n, minPts, k);
    JoinedConnected(pts, eps, b, r, n, a, minPts);
    assert n in a by {
      assert Joins(b, n, touched - {k}, n, minPts);
    }
    assert HitsOf(b, touched - {k}) <= a by {
      forall f | f in HitsOf(b, touched - {k})
        ensures f in a
      {
        assert Joins(b, n, touched - {k}, f, minPts);
      }
    }
    hide Took, Placing, AllConnected, Touched, Joins;
    TookKeepsPlacing(pts, eps, b, r, k, a, touched - {k}, minPts, pts[n].time, n);
  }

  lemma MarkCoreKeepsPlacing(pts: seq<Point>, eps: real, b: Book, n: HitId, now: real)
    requires Placing(pts, eps, b, now) && n < |b.pool|
    ensures Placing(pts, eps, MarkCore(b, n), now)
  {
    var r := MarkCore(b, n);
    assert SamePoints(b.pool, r.pool);
    forall h: HitId | h < |b.pool|
      ensures HitSetList(r.pool, h) && IndexOk(r, h, now, eps)
    {
      assert HitSetList(b.pool, h) && IndexOk(b, h, now, eps);
      HitSetSamePoints(b.pool, r.pool, b.pool[h].neighbours);
    }
    forall k | k in b.clusters
      ensures SoundCluster(pts, eps, r.pool, r.clusters[k])
    {
      assert SoundCluster(pts, eps, b.pool, b.clusters[k]);
      if b.clusters[k].hits != [] {
        ClusterOkSamePoints(b.pool, r.pool, b.clusters[k]);
      }
    }
    hide Adjacent;
  }

  lemma StartClusterKeepsPlacing(pts: seq<Point>, eps: real, b: Book, seed: HitId, minPts: nat, now: real)
    requires Placing(pts, eps, b, now)
    requires seed < |b.pool| && b.pool[seed].cluster == UNDEFINED_CLUSTER && b.pool[seed].IsCore(minPts)
    ensures Placing(pts, eps, StartCluster(b, seed, minPts), now)
  {
    var r := StartCluster(b, seed, minPts);
    StartClusterCorrect(b, seed, minPts);
    StartClusterConnected(pts, eps, b, seed, minPts);
    hide Started, Placing, StartCluster;
    StartedKeepsPlacing(pts, eps, b, r, seed, Taken(b, r), minPts, now);
  }

  lemma PlaceJoins(pts: seq<Point>, eps: real, b: Book, n: HitId, minPts: nat)
    requires Arrived(pts, eps, b, n) && Touched(b, n, minPts) != {} && Touched(b, n, minPts) <= b.clusters.Keys
    ensures Placing(pts, eps, Place(b, n, minPts), pts[n].time) && Placed(b, Place(b, n, minPts), n, minPts)
  {
    var touched := Touched(b, n, minPts);
    var k := Smallest(touched);
    TouchedAreSound(pts, eps, b, n, minPts, k);
    var a := JoinCorrect(b, n, minPts);
    var r := Join(b, n, k, touched, minPts);
    JoinedKeepsPlacing(pts, eps, b, r, n, a, minPts);
    assert r.pool[n].cluster == k != UNDEFINED_CLUSTER by {
      assert Joins(b, n, touched - {k}, n, minPts);
      assert HitGrew(b.pool[n], r.pool[n], k, n in a, minPts);
    }
    hide Join, Joined, Placing;
    NoStartWhenClustered(r, n, b.pool[n].neighbours, 0, minPts);
  }

  lemma PlaceStartsHere(pts: seq<Point>, eps: real, b: Book, n: HitId, minPts: nat)
    requires Arrived(pts, eps, b, n) && Touched(b, n, minPts) == {} && b.pool[n].IsCore(minPts)
    ensures Placing(pts, eps, Place(b, n, minPts), pts[n].time) && Placed(b, Place(b, n, minPts), n, minPts)
  {
    var b0 := MarkCore(b, n);
    var r := StartCluster(b0, n, minPts);
    MarkCoreKeepsPlacing(pts, eps, b, n, pts[n].time);
    StartClusterKeepsPlacing(pts, eps, b0, n, minPts, pts[n].time);
    StartClusterCorrect(b0, n, minPts);
    assert r.pool[n].cluster != UNDEFINED_CLUSTER by {
      assert n in Taken(b0, r);
    }
    hide Started, StartCluster, Placing;
    NoStartWhenClustered(r, n, b.pool[n].neighbours, 0, minPts);
    assert StartedAt(b, r, n, n, Taken(b0, r), minPts);
  }

  lemma NeighboursMutual(pts: seq<Point>, eps: real, b: Book, n: HitId)
    requires Arrived(pts, eps, b, n)
    ensures forall q: HitId :: q in b.pool[n].neighbours && q < |b.pool| ==> n in b.pool[q].neighbours
  {
    forall q: HitId | q in b.pool[n].neighbours && q < |b.pool|
      ensures n in b.pool[q].neighbours
    {
      AdjacentSymmetric(pts, eps, n, q);
      hide Adjacent;
    }
  }

  /** What placing a hit that is not core and touches no cluster comes down to. */
  lemma PlaceIsStart(pts: seq<Point>, eps: real, b: Book, n: HitId, minPts: nat)
    requires Arrived(pts, eps, b, n) && Touched(b, n, minPts) == {} && !b.pool[n].IsCore(minPts)
    ensures Place(b, n, minPts) == StartAtNeighbours(b, n, b.pool[n].neighbours, 0, minPts)
  {
    hide StartAtNeighbours, Placing;
  }

  lemma StartedIsPlaced(pts: seq<Point>, eps: real, b: Book, n: HitId, seed: HitId, minPts: nat)
    requires Arrived(pts, eps, b, n) && Touched(b, n, minPts) == {} && !b.pool[n].IsCore(minPts)
    requires seed in b.pool[n].neighbours && seed < |b.pool| && b.pool[seed].cluster == UNDEFINED_CLUSTER
    requires b.pool[seed].IsCore(minPts)
    ensures var r := StartCluster(b, seed, minPts); Placing(pts, eps, r, pts[n].time) && Placed(b, r, n, minPts)
  {
    assert n < |b.pool|;
    hide StartCluster, Started, Linked, ClustersOk, IndicesOk, Touched;
    var r := StartCluster(b, seed, minPts);
    StartClusterKeepsPlacing(pts, eps, b, seed, minPts, pts[n].time);
    StartClusterCorrect(b, seed, minPts);
    assert StartedAt(b, r, n, seed, Taken(b, r), minPts);
  }

  lemma PlaceStartsAtNeighbour(pts: seq<Point>, eps: real, b: Book, n: HitId, minPts: nat)
    requires Arrived(pts, eps, b, n) && Touched(b, n, minPts) == {} && !b.pool[n].IsCore(minPts)
    ensures Placing(pts, eps, Place(b, n, minPts), pts[n].time) && Placed(b, Place(b, n, minPts), n, minPts)
  {
    var ns := b.pool[n].neighbours;
    NeighboursMutual(pts, eps, b, n);
    PlaceIsStart(pts, eps, b, n, minPts);
    hide StartAtNeighbours, StartCluster, Place, Linked, ClustersOk, IndicesOk, Touched, StartedAt;
    StartAtNeighboursCorrect(b, n, ns, 0, minPts);
    assert ns[0..] == ns;
    if !(StartAtNeighbours(b, n, ns, 0, minPts) == b && NothingToStart(b, ns, minPts)) {
      var seed: HitId :| seed in ns && seed < |b.pool| && b.pool[seed].cluster == UNDEFINED_CLUSTER
        && b.pool[seed].IsCore(minPts) && StartAtNeighbours(b, n, ns, 0, minPts) == StartCluster(b, seed, minPts);
      StartedIsPlaced(pts, eps, b, n, seed, minPts);
    }
  }

  /** Placing a hit keeps the invariant, and its outcome is one of the three described. */
  lemma PlaceCorrect(pts: seq<Point>, eps: real, b: Book, n: HitId, minPts: nat)
    requires Arrived(pts, eps, b, n)
    ensures CoreClusters(b.pool, b.pool[n].neighbours, minPts) <= b.clusters.Keys
    ensures Placing(pts, eps, Place(b, n, minPts), pts[n].time)
    ensures Placed(b, Place(b, n, minPts), n, minPts)
  {
    TouchedIsLive(pts, eps, b, n, minPts);
    if Touched(b, n, minPts) != {} {
      PlaceJoins(pts, eps, b, n, minPts);
    } else if b.pool[n].IsCore(minPts) {
      PlaceStartsHere(pts, eps, b, n, minPts);
    } else {
      PlaceStartsAtNeighbour(pts, eps, b, n, minPts);
    }
  }
}
