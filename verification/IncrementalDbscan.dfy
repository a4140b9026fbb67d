/** The clusterer as the object whose methods update it in place. Its hits live in a pool, and hits refer
    to each other by their place in it. Each method is proved against the corresponding function, so
    that what is proved of runs holds of the object. */
module IncrementalDbscan {
  import opened Graph
  import opened Hits
  import opened Clusters
  import opened Stream
  import opened Finality

  /** Inserts a hit in an array of unique hits sorted by time, scanning from the latest. */
  method InsertHit(pool: Pool, s: seq<HitId>, h: HitId) returns (r: seq<HitId>)
    requires InPool(pool, s) && h < |pool|
    ensures r == Insert(pool, s, h)
  {
    var i := |s|;
    while i > 0 && pool[s[i - 1]].time >= pool[h].time
      invariant 0 <= i <= |s|
      invariant InsertBefore(pool, s, h, i) == Insert(pool, s, h)
    {
      if s[i - 1] == h {
        return s;
      }
      i := i - 1;
    }
    r := if i == 0 || s[i - 1] != h then s[..i] + [h] + s[i..] else s;
  }

  lemma StartNone(b: Book, newHit: HitId, ns: seq<HitId>, minPts: nat)
    requires Sane(b) && newHit < |b.pool| && InPool(b.pool, ns)
    ensures forall r: Book :: Sane(r) && newHit < |r.pool| && InPool(r.pool, ns) ==>
      StartAtNeighbours(r, newHit, ns, |ns|, minPts) == r
  {
  }

  lemma StartNext(b: Book, newHit: HitId, ns: seq<HitId>, i: nat, minPts: nat)
    requires Sane(b) && newHit < |b.pool| && InPool(b.pool, ns) && i < |ns|
    ensures var starts := b.pool[ns[i]].IsCore(minPts) && b.pool[ns[i]].cluster == UNDEFINED_CLUSTER
                          && b.pool[newHit].cluster == UNDEFINED_CLUSTER;
      var r := if starts then StartCluster(b, ns[i], minPts) else b;
      && InPool(r.pool, ns)
      && StartAtNeighbours(b, newHit, ns, i, minPts) == StartAtNeighbours(r, newHit, ns, i + 1, minPts)
  {
    hide StartCluster;
  }

  lemma AbsorbNext(b: Book, k: int, ns: seq<HitId>, i: nat, minPts: nat)
    requires Sane(b) && k in b.clusters && InPool(b.pool, ns) && i < |ns|
    ensures var r := AbsorbNeighbour(b, k, ns[i], minPts);
      && Sane(r) && k in r.clusters && |r.pool| == |b.pool|
      && AbsorbNeighbours(b, k, ns, i, minPts) == AbsorbNeighbours(r, k, ns, i + 1, minPts)
  {
    hide AbsorbNeighbour;
  }

  lemma AbsorbEnds(b: Book, k: int, ns: seq<HitId>, minPts: nat)
    requires Sane(b) && k in b.clusters && InPool(b.pool, ns)
    ensures AbsorbNeighbours(b, k, ns, |ns|, minPts) == b
  {
  }

  lemma NeighboursInPool(b: Book, h: HitId)
    requires Sane(b) && h < |b.pool|
    ensures InPool(b.pool, b.pool[h].neighbours)
  {
  }

  lemma FloodEnds(b: Book, k: int, minPts: nat)
    requires Sane(b) && k in b.clusters
    ensures Flood(b, k, [], minPts) == b
  {
  }

  /** One step of the flood fill; hits in no cluster, or the stack, get fewer. */
  lemma FloodNext(b: Book, k: int, stack: seq<HitId>, minPts: nat)
    requires Sane(b) && k in b.clusters && InPool(b.pool, stack) && stack != []
    ensures var q, rest := stack[|stack| - 1], stack[..|stack| - 1];
      if b.pool[q].cluster != UNDEFINED_CLUSTER then
        InPool(b.pool, rest) && Flood(b, k, stack, minPts) == Flood(b, k, rest, minPts)
      else
        var added := AddHit(b, k, q);
        var r := if added.pool[q].IsCore(minPts) then MarkCore(added, q) else added;
        var more := if added.pool[q].IsCore(minPts) then rest + added.pool[q].neighbours else rest;
        && Unclustered(r.pool) < Unclustered(b.pool)
        && Sane(r) && InPool(r.pool, more) && Flood(b, k, stack, minPts) == Flood(r, k, more, minPts)
  {
    var q := stack[|stack| - 1];
    if b.pool[q].cluster == UNDEFINED_CLUSTER {
      assert q in Unclustered(b.pool);
      AddHitShrinksUnclustered(b, k, q);
    }
    hide AddHit;
  }

  class IncrementalDBSCAN {
    const eps: real
    const minPts: nat
    ghost const firstIndex: nat

    var hitPool: Pool
    var hits: seq<HitId>
    var latestTime: real
    var clusters: map<int, Cluster>
    var nextClusterIndex: nat

    /** The points of all hits added, and all clusters handed out, since construction. */
    ghost var arrived: seq<Point>
    ghost var handedOut: seq<Cluster>

    function BookOf(): Book
      reads this`hitPool, this`clusters, this`nextClusterIndex
    {
      Book(hitPool, clusters, nextClusterIndex)
    }

    function StateOf(): State
      reads this
    {
      State(BookOf(), hits, latestTime)
    }

    ghost function Cfg(): Config {
      Config(eps, minPts, firstIndex)
    }

    /** The object is where a run over the hits added has led, but for the old hits it still holds. */
    ghost predicate Valid()
      reads this
    {
      && eps >= 0.0 && TimeOrdered(arrived)
      && Stream.Valid(arrived, Cfg(), StateOf())
      && var o := Run(arrived, Cfg(), i => false);
         BookOf() == o.state.book && handedOut == o.completed
    }

    constructor (eps: real, minPts: nat, nextClusterIndex: nat)
      requires eps >= 0.0
      ensures Valid() && this.eps == eps && this.minPts == minPts && arrived == [] && handedOut == []
      ensures hitPool == [] && hits == [] && latestTime == 0.0 && clusters == map[]
      ensures this.nextClusterIndex == nextClusterIndex
    {
      this.eps, this.minPts, this.firstIndex := eps, minPts, nextClusterIndex;
      hitPool, hits, latestTime, clusters := [], [], 0.0, map[];
      this.nextClusterIndex := nextClusterIndex;
      arrived, handedOut := [], [];
      new;
      InitialValid(Cfg());
    }

    // ----- linking

    method AddNeighbourTo(a: HitId, b: HitId)
      requires ListsInPool(hitPool) && a < |hitPool| && b < |hitPool|
      modifies this`hitPool
      ensures hitPool == AddNeighbour(old(hitPool), a, b, minPts)
    {
      var ns := InsertHit(hitPool, hitPool[a].neighbours, b);
      hitPool := hitPool[a := hitPool[a].(neighbours := ns)];
      if hitPool[a].IsCore(minPts) {
        hitPool := hitPool[a := hitPool[a].(connectedness := KCore)];
      }
    }

    /** Links two hits if they are close; says whether they are. */
    method AddPotentialNeighbour(a: HitId, b: HitId) returns (close: bool)
      requires ListsInPool(hitPool) && a < |hitPool| && b < |hitPool|
      modifies this`hitPool
      ensures hitPool == Hits.AddPotentialNeighbour(old(hitPool), a, b, eps, minPts)
      ensures close <==> a != b && DistanceSqr(old(hitPool)[a].At(), old(hitPool)[b].At()) < eps * eps
    {
      close := b != a && DistanceSqr(hitPool[a].At(), hitPool[b].At()) < eps * eps;
      if close {
        AddNeighbourInPool(hitPool, a, b, minPts);
        AddNeighbourTo(a, b);
        AddNeighbourInPool(hitPool, b, a, minPts);
        AddNeighbourTo(b, a);
      }
    }

    method NeighboursSorted(q: HitId)
      requires ListsInPool(hitPool) && InPool(hitPool, hits) && q < |hitPool|
      modifies this`hitPool
      ensures hitPool == LinkNeighbours(old(hitPool), hits, |hits|, q, eps, minPts)
    {
      var i := |hits|;
      while i > 0
        invariant 0 <= i <= |hits|
        invariant ListsInPool(hitPool) && |hitPool| == |old(hitPool)|
        invariant LinkNeighbours(hitPool, hits, i, q, eps, minPts) ==
                  LinkNeighbours(old(hitPool), hits, |hits|, q, eps, minPts)
      {
        hide Hits.AddPotentialNeighbour, DistanceSqr;
        i := i - 1;
        var h := hits[i];
        if hitPool[h].time > hitPool[q].time + eps {
          continue;
        }
        if hitPool[h].time < hitPool[q].time - eps {
          break;
        }
        var _ := AddPotentialNeighbour(q, h);
      }
    }

    // ----- clusters

    method AddHitTo(k: int, h: HitId)
      requires Sane(BookOf()) && k in clusters && h < |hitPool|
      modifies this`hitPool, this`clusters
      ensures BookOf() == AddHit(old(BookOf()), k, h)
    {
      var c := clusters[k];
      var hs := InsertHit(hitPool, c.hits, h);
      clusters := clusters[k := c.(hits := hs, latestTime := Later(c.latestTime, hitPool[h].time))];
      hitPool := hitPool[h := hitPool[h].(cluster := c.index)];
    }

    method AddAllTo(k: int, hs: seq<HitId>)
      requires Sane(BookOf()) && k in clusters && InPool(hitPool, hs)
      modifies this`hitPool, this`clusters
      ensures BookOf() == AddAll(old(BookOf()), k, hs, 0)
    {
      var i := 0;
      while i < |hs|
        invariant 0 <= i <= |hs| && Sane(BookOf()) && k in clusters && |hitPool| == |old(hitPool)|
        invariant AddAll(BookOf(), k, hs, i) == AddAll(old(BookOf()), k, hs, 0)
      {
        hide AddHit, Sane;
        AddHitTo(k, hs[i]);
        i := i + 1;
      }
    }

    method StealHitsFrom(k: int, other: int)
      requires Sane(BookOf()) && k in clusters && other in clusters
      modifies this`hitPool, this`clusters
      ensures BookOf() == StealHits(old(BookOf()), k, other)
    {
      AddAllTo(k, clusters[other].hits);
      clusters := clusters[other := clusters[other].(hits := [], completeness := KComplete)];
    }

    /** Takes into cluster `k` all that can be reached from `seed`. */
    method ClusterReachable(seed: HitId, k: int)
      requires Sane(BookOf()) && k in clusters && seed < |hitPool|
      modifies this`hitPool, this`clusters
      ensures BookOf() == Flood(old(BookOf()), k, old(hitPool)[seed].neighbours, minPts)
    {
      hide Flood, AddHit, Sane;
      var stack := hitPool[seed].neighbours;
      NeighboursInPool(BookOf(), seed);
      while stack != []
        invariant Sane(BookOf()) && k in clusters && InPool(hitPool, stack)
        invariant Flood(BookOf(), k, stack, minPts) == Flood(old(BookOf()), k, old(hitPool)[seed].neighbours, minPts)
        decreases Unclustered(hitPool), |stack|
      {
        FloodNext(BookOf(), k, stack, minPts);
        var q := stack[|stack| - 1];
        stack := stack[..|stack| - 1];
        if hitPool[q].cluster != UNDEFINED_CLUSTER {
          continue;
        }
        AddHitTo(k, q);
        if hitPool[q].IsCore(minPts) {
          hitPool := hitPool[q := hitPool[q].(connectedness := KCore)];
          stack := stack + hitPool[q].neighbours;
        }
      }
      FloodEnds(BookOf(), k, minPts);
    }

    method StartClusterAt(seed: HitId)
      requires Sane(BookOf()) && seed < |hitPool|
      modifies this`hitPool, this`clusters, this`nextClusterIndex
      ensures BookOf() == StartCluster(old(BookOf()), seed, minPts)
    {
      var k := nextClusterIndex;
      clusters := clusters[k := Cluster(k, KIncomplete, 0.0, [])];
      nextClusterIndex := nextClusterIndex + 1;
      assert BookOf() == OpenCluster(old(BookOf()));
      AddHitTo(k, seed);
      ClusterReachable(seed, k);
    }

    // ----- placing a hit

    method ClustersNeighbouring(ns: seq<HitId>) returns (touched: set<int>)
      requires InPool(hitPool, ns)
      ensures touched == CoreClusters(hitPool, ns, minPts)
    {
      touched := {};
      var i := 0;
      while i < |ns|
        invariant 0 <= i <= |ns|
        invariant touched == CoreClusters(hitPool, ns[..i], minPts)
      {
        var q := ns[i];
        assert ns[..i + 1] == ns[..i] + [q];
        if hitPool[q].cluster != UNDEFINED_CLUSTER && hitPool[q].IsCore(minPts) {
          touched := touched + {hitPool[q].cluster};
        }
        i := i + 1;
      }
      assert ns[..|ns|] == ns;
    }

    method AbsorbAll(k: int, ns: seq<HitId>)
      requires Sane(BookOf()) && k in clusters && InPool(hitPool, ns)
      modifies this`hitPool, this`clusters
      ensures BookOf() == AbsorbNeighbours(old(BookOf()), k, ns, 0, minPts)
    {
      hide AddHit, AddAll, Sane, AbsorbNeighbour, AbsorbNeighbours;
      var i := 0;
      while i < |ns|
        invariant 0 <= i <= |ns| && Sane(BookOf()) && k in clusters && |hitPool| == |old(hitPool)|
        invariant AbsorbNeighbours(BookOf(), k, ns, i, minPts) == AbsorbNeighbours(old(BookOf()), k, ns, 0, minPts)
      {
        AbsorbNext(BookOf(), k, ns, i, minPts);
        AbsorbOne(k, ns[i]);
        i := i + 1;
      }
      AbsorbEnds(BookOf(), k, ns, minPts);
    }

    method AbsorbOne(k: int, q: HitId)
      requires Sane(BookOf()) && k in clusters && q < |hitPool|
      modifies this`hitPool, this`clusters
      ensures BookOf() == AbsorbNeighbour(old(BookOf()), k, q, minPts)
    {
      hide AddHit, AddAll;
      if hitPool[q].cluster == UNDEFINED_CLUSTER {
        AddHitTo(k, q);
      }
      if |hitPool[q].neighbours| + 1 == minPts {
        AddAllTo(k, hitPool[q].neighbours);
      }
    }

    method MergeInto(k: int, touched: set<int>)
      requires Sane(BookOf()) && k in clusters && touched <= clusters.Keys
      modifies this`hitPool, this`clusters
      ensures BookOf() == MergeFrom(old(BookOf()), k, touched, k + 1)
    {
      var j := k + 1;
      while j < nextClusterIndex
        invariant k < j && Sane(BookOf()) && k in clusters && clusters.Keys == old(clusters.Keys)
        invariant MergeFrom(BookOf(), k, touched, j) == MergeFrom(old(BookOf()), k, touched, k + 1)
        decreases nextClusterIndex - j
      {
        hide StealHits, Sane;
        if j in touched {
          StealHitsFrom(k, j);
        }
        j := j + 1;
      }
    }

    method StartAtOneOf(newHit: HitId, ns: seq<HitId>)
      requires Sane(BookOf()) && newHit < |hitPool| && InPool(hitPool, ns)
      modifies this`hitPool, this`clusters, this`nextClusterIndex
      ensures BookOf() == StartAtNeighbours(old(BookOf()), newHit, ns, 0, minPts)
    {
      hide StartCluster, Sane, StartAtNeighbours;
      var i := 0;
      StartNone(BookOf(), newHit, ns, minPts);
      while i < |ns|
        invariant 0 <= i <= |ns| && Sane(BookOf()) && |hitPool| == |old(hitPool)|
        invariant StartAtNeighbours(BookOf(), newHit, ns, i, minPts) ==
                  StartAtNeighbours(old(BookOf()), newHit, ns, 0, minPts)
      {
        StartNext(BookOf(), newHit, ns, i, minPts);
        if hitPool[ns[i]].IsCore(minPts) && hitPool[ns[i]].cluster == UNDEFINED_CLUSTER
           && hitPool[newHit].cluster == UNDEFINED_CLUSTER {
          StartClusterAt(ns[i]);
        }
        i := i + 1;
      }
    }

    method PlaceHit(newHit: HitId)
      requires Sane(BookOf()) && newHit < |hitPool|
      requires CoreClusters(hitPool, hitPool[newHit].neighbours, minPts) <= clusters.Keys
      modifies this`hitPool, this`clusters, this`nextClusterIndex
      ensures BookOf() == Place(old(BookOf()), newHit, minPts)
    {
      hide StartCluster, AbsorbNeighbours, MergeFrom, StartAtNeighbours, AddHit, Smallest, CoreClusters;
      var ns := hitPool[newHit].neighbours;
      var touched := ClustersNeighbouring(ns);
      if touched == {} {
        if hitPool[newHit].IsCore(minPts) {
          hitPool := hitPool[newHit := hitPool[newHit].(connectedness := KCore)];
          assert BookOf() == MarkCore(old(BookOf()), newHit);
          StartClusterAt(newHit);
        }
      } else {
        var k := Smallest(touched);
        AddHitTo(k, newHit);
        AbsorbAll(k, ns);
        MergeInto(k, touched);
      }
      StartAtOneOf(newHit, ns);
    }

    /** Deletes completed clusters, in order of index, and hands out those that hold hits. */
    method SweepCompleted() returns (completed: seq<Cluster>)
      modifies this`clusters
      ensures Swept(clusters, completed) == Sweep(old(clusters), latestTime, eps, nextClusterIndex)
    {
      completed := [];
      var k := 0;
      while k < nextClusterIndex
        invariant 0 <= k <= nextClusterIndex
        invariant Swept(clusters, completed) == Sweep(old(clusters), latestTime, eps, k)
      {
        if k in clusters && IsComplete(clusters[k], latestTime, eps) {
          if clusters[k].hits != [] {
            completed := completed + [clusters[k].(completeness := KComplete)];
          }
          clusters := clusters - {k};
        }
        k := k + 1;
      }
    }

    /** One arrival, whatever led to the present state. */
    method AddHitToState(time: real, chan: int) returns (completed: seq<Cluster>)
      requires Ready(StateOf(), Point(time, chan), Cfg())
      modifies this`hitPool, this`hits, this`latestTime, this`clusters, this`nextClusterIndex
      ensures Outcome(StateOf(), completed) == Arrive(old(StateOf()), Point(time, chan), Cfg())
    {
      var n := |hitPool|;
      assert forall i: HitId :: i < n ==> InPool(hitPool, hitPool[i].neighbours);
      hitPool := hitPool + [NewHit(time, chan)];
      hits := hits + [n];
      latestTime := time;
      hide LinkNeighbours, Place, Sweep;
      NeighboursSorted(n);
      assert hitPool == Link(old(StateOf()), Point(time, chan), Cfg());
      assert Sane(BookOf());
      PlaceHit(n);
      completed := SweepCompleted();
    }

    /** Adds a hit, whose time must not be before that of any hit added earlier, and hands out the clusters
        that this completes. */
    method AddPoint(time: real, chan: int) returns (completed: seq<Cluster>)
      requires Valid() && TimeOrdered(arrived + [Point(time, chan)])
      modifies this
      ensures Valid() && arrived == old(arrived) + [Point(time, chan)] && handedOut == old(handedOut) + completed
    {
      hide Stream.Valid, Arrive, Ready, Run;
      var p := Point(time, chan);
      ghost var st := StateOf();
      StepOfRun(arrived, Cfg(), st, p);
      completed := AddHitToState(time, chan);
      arrived, handedOut := arrived + [p], handedOut + completed;
    }

    method EarliestTime() returns (earliest: real)
      requires Sane(BookOf()) && NoEmptyCluster(BookOf())
      ensures var e := EarliestBelow(BookOf(), nextClusterIndex); earliest == if e.Unset? then latestTime else e.time
    {
      var e := Unset;
      var k := 0;
      while k < nextClusterIndex
        invariant 0 <= k <= nextClusterIndex
        invariant e == EarliestBelow(BookOf(), k)
      {
        if k in clusters {
          e := EarlierOf(e, hitPool[clusters[k].hits[0]].time);
        }
        k := k + 1;
      }
      UnsetWithoutClusters(BookOf(), nextClusterIndex);
      assert (forall k :: k !in clusters) ==> clusters == map[];
      if clusters == map[] {
        e := Set(latestTime);
      }
      earliest := e.time;
    }

    method TrimState()
      requires Sane(BookOf()) && NoEmptyCluster(BookOf()) && InPool(hitPool, hits)
      modifies this`hits
      ensures StateOf() == Trim(old(StateOf()), eps)
    {
      var earliest := EarliestTime();
      var i, t := 0, earliest - 10.0 * eps;
      while i < |hits| && hitPool[hits[i]].time < t
        invariant 0 <= i <= |hits|
        invariant LowerBound(hitPool, hits, t, i) == LowerBound(hitPool, hits, t, 0)
      {
        i := i + 1;
      }
      hits := hits[i..];
    }

    /** Drops hits that no cluster needs any more. */
    method TrimHits()
      requires Valid()
      modifies this`hits
      ensures Valid()
      ensures forall h :: h in hits <==> h in old(hits) && IsRecent(BookOf(), latestTime, eps, h)
    {
      hide Trim, IsRecent, Linked, LiveCluster, CoreFlag;
      TrimCorrect(arrived, Cfg(), StateOf());
      TrimKeepsRecent(arrived, Cfg(), StateOf());
      hide Stream.Valid, Run;
      TrimState();
      assert BookOf() == old(BookOf());
    }
  }

  /** Adding a hit to a state on a run, but for old hits still held, takes the run one step further. */
  lemma StepOfRun(pts: seq<Point>, cfg: Config, st: State, p: Point)
    requires cfg.eps >= 0.0 && TimeOrdered(pts) && TimeOrdered(pts + [p]) && Valid(pts, cfg, st)
    requires st.book == Run(pts, cfg, i => false).state.book
    ensures Ready(st, p, cfg)
    ensures var o := Run(pts, cfg, i => false); var o' := Run(pts + [p], cfg, i => false); var r := Arrive(st, p, cfg);
      r.state.book == o'.state.book && o.completed + r.completed == o'.completed && Valid(pts + [p], cfg, r.state)
  {
    var o := Run(pts, cfg, i => false);
    assert (pts + [p])[..|pts|] == pts;
    UntrimmedHoldsAll(pts, cfg);
    RunStep(pts + [p], cfg, i => false);
    ArriveIgnoresOldHits(pts, cfg, o.state, st, p);
    ArriveCorrect(pts, cfg, st, p);
    hide Run, Arrive;
  }
}
