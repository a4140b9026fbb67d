/** Hits, the time-sorted arrays of unique hits, and the linking of a new hit to its neighbours.
    A `Hit*` of the source points into the clusterer's pool; here it is an index into that pool. */
module Hits {
  import opened Graph

  datatype Connectedness = KUndefined | KCore

  /** The cluster number of a hit that is in no cluster. */
  const UNDEFINED_CLUSTER := -1

  datatype Hit = Hit(time: real, chan: int, cluster: int, connectedness: Connectedness, neighbours: seq<HitId>) {
    function At(): Point {
      Point(time, chan)
    }

    /** The size test that decides core hits. */
    predicate IsCore(minPts: nat) {
      |neighbours| + 1 >= minPts
    }
  }

  type Pool = seq<Hit>

  function NewHit(time: real, chan: int): Hit {
    Hit(time, chan, UNDEFINED_CLUSTER, KUndefined, [])
  }

  // ----- hit sets

  ghost predicate InPool(pool: Pool, s: seq<HitId>) {
    forall i :: 0 <= i < |s| ==> s[i] < |pool|
  }

  /** An array of unique hits, sorted by time. */
  ghost predicate IsHitSet(pool: Pool, s: seq<HitId>) {
    && InPool(pool, s)
    && (forall i, j :: 0 <= i < j < |s| ==> s[i] != s[j])
    && (forall i, j :: 0 <= i < j < |s| ==> pool[s[i]].time <= pool[s[j]].time)
  }

  ghost function Members(s: seq<HitId>): set<HitId> {
    set h | h in s
  }

  /** The scan of `Insert`, about to look at position `i - 1`. */
  function InsertBefore(pool: Pool, s: seq<HitId>, h: HitId, i: nat): seq<HitId>
    requires InPool(pool, s) && h < |pool| && i <= |s|
  {
    if i > 0 && pool[s[i - 1]].time >= pool[h].time then
      if s[i - 1] == h then s else InsertBefore(pool, s, h, i - 1)
    else if i == 0 || s[i - 1] != h then
      s[..i] + [h] + s[i..]
    else
      s
  }

  function Insert(pool: Pool, s: seq<HitId>, h: HitId): seq<HitId>
    requires InPool(pool, s) && h < |pool|
  {
    InsertBefore(pool, s, h, |s|)
  }

  /** Splicing a new hit in at position `i`, between the earlier hits and those not earlier. */
  lemma SpliceCorrect(pool: Pool, s: seq<HitId>, h: HitId, i: nat)
    requires IsHitSet(pool, s) && h < |pool| && i <= |s| && h !in s
    requires forall j :: i <= j < |s| ==> pool[s[j]].time >= pool[h].time
    requires i > 0 ==> pool[s[i - 1]].time < pool[h].time
    ensures var r := s[..i] + [h] + s[i..];
      IsHitSet(pool, r) && Members(r) == Members(s) + {h}
  {
    SpliceMembers(s, h, i);
    hide Members;
    var r := s[..i] + [h] + s[i..];
    forall j, k | 0 <= j < k < |r|
      ensures r[j] != r[k] && pool[r[j]].time <= pool[r[k]].time
    {
      SpliceInOrder(pool, s, h, i, j, k);
    }
  }

  lemma SpliceMembers(s: seq<HitId>, h: HitId, i: nat)
    requires i <= |s|
    ensures Members(s[..i] + [h] + s[i..]) == Members(s) + {h}
  {
    var r := s[..i] + [h] + s[i..];
    assert forall x :: x in r <==> x in s[..i] || x == h || x in s[i..];
    assert s == s[..i] + s[i..];
  }

  lemma SpliceInOrder(pool: Pool, s: seq<HitId>, h: HitId, i: nat, j: nat, k: nat)
    requires IsHitSet(pool, s) && h < |pool| && i <= |s| && h !in s && j < k <= |s|
    requires forall j :: i <= j < |s| ==> pool[s[j]].time >= pool[h].time
    requires i > 0 ==> pool[s[i - 1]].time < pool[h].time
    ensures var r := s[..i] + [h] + s[i..];
      && r[j] < |pool| && r[k] < |pool| && r[j] != r[k] && pool[r[j]].time <= pool[r[k]].time
  {
    if j < i == k {
      assert pool[s[j]].time <= pool[s[i - 1]].time;
    }
  }

  lemma {:induction false} InsertBeforeCorrect(pool: Pool, s: seq<HitId>, h: HitId, i: nat)
    requires IsHitSet(pool, s) && h < |pool| && i <= |s|
    requires forall j :: i <= j < |s| ==> pool[s[j]].time >= pool[h].time && s[j] != h
    ensures var r := InsertBefore(pool, s, h, i);
      && IsHitSet(pool, r)
      && Members(r) == Members(s) + {h}
      && |r| == if h in s then |s| else |s| + 1
  {
    if i > 0 && pool[s[i - 1]].time >= pool[h].time {
      if s[i - 1] == h {
        assert Members(s) == Members(s) + {h};
      } else {
        InsertBeforeCorrect(pool, s, h, i - 1);
      }
    } else {
      if h in s {
        assert false;
      }
      SpliceCorrect(pool, s, h, i);
    }
  }

  /** Insertion keeps an array of unique hits sorted by time, and adds exactly the given hit. */
  lemma InsertCorrect(pool: Pool, s: seq<HitId>, h: HitId)
    requires IsHitSet(pool, s) && h < |pool|
    ensures IsHitSet(pool, Insert(pool, s, h))
    ensures Members(Insert(pool, s, h)) == Members(s) + {h}
    ensures |Insert(pool, s, h)| == if h in s then |s| else |s| + 1
  {
    InsertBeforeCorrect(pool, s, h, |s|);
  }

  // ----- linking

  /** Adds `b` to the neighbours of `a`, and marks `a` core if it now has enough of them. */
  function AddNeighbour(pool: Pool, a: HitId, b: HitId, minPts: nat): Pool
    requires a < |pool| && b < |pool| && InPool(pool, pool[a].neighbours)
  {
    var ns := Insert(pool, pool[a].neighbours, b);
    var hit := pool[a].(neighbours := ns);
    pool[a := if hit.IsCore(minPts) then hit.(connectedness := KCore) else hit]
  }

  ghost predicate ListsInPool(pool: Pool) {
    forall i :: 0 <= i < |pool| ==> InPool(pool, pool[i].neighbours)
  }

  ghost predicate SamePoints(pool: Pool, pool': Pool) {
    |pool'| == |pool| && forall i :: 0 <= i < |pool| ==> pool'[i].At() == pool[i].At()
  }

  lemma AddNeighbourInPool(pool: Pool, a: HitId, b: HitId, minPts: nat)
    requires ListsInPool(pool) && a < |pool| && b < |pool|
    ensures ListsInPool(AddNeighbour(pool, a, b, minPts))
    ensures SamePoints(pool, AddNeighbour(pool, a, b, minPts))
  {
    InsertBeforeInPool(pool, pool[a].neighbours, b, |pool[a].neighbours|);
  }

  lemma InsertBeforeInPool(pool: Pool, s: seq<HitId>, h: HitId, i: nat)
    requires InPool(pool, s) && h < |pool| && i <= |s|
    ensures InPool(pool, InsertBefore(pool, s, h, i))
  {
  }

  function AddPotentialNeighbour(pool: Pool, a: HitId, b: HitId, eps: real, minPts: nat): (r: Pool)
    requires ListsInPool(pool) && a < |pool| && b < |pool|
    ensures ListsInPool(r) && SamePoints(pool, r)
  {
    if b != a && DistanceSqr(pool[a].At(), pool[b].At()) < eps * eps then
      AddNeighbourInPool(pool, a, b, minPts);
      var linked := AddNeighbour(pool, a, b, minPts);
      AddNeighbourInPool(linked, b, a, minPts);
      AddNeighbour(linked, b, a, minPts)
    else
      pool
  }

  /** The scan of the hits from the latest back, with hits[..i] still to look at. */
  function LinkNeighbours(pool: Pool, hits: seq<HitId>, i: nat, q: HitId, eps: real, minPts: nat): (r: Pool)
    requires ListsInPool(pool) && InPool(pool, hits) && i <= |hits| && q < |pool|
    ensures ListsInPool(r) && SamePoints(pool, r)
    decreases i
  {
    if i == 0 then
      pool
    else
      var h := hits[i - 1];
      if pool[h].time > pool[q].time + eps then
        LinkNeighbours(pool, hits, i - 1, q, eps, minPts)
      else if pool[h].time < pool[q].time - eps then
        pool
      else
        LinkNeighbours(AddPotentialNeighbour(pool, q, h, eps, minPts), hits, i - 1, q, eps, minPts)
  }

  // ----- the scan against the graph

  ghost predicate Matches(pool: Pool, pts: seq<Point>) {
    |pool| == |pts| && forall i :: 0 <= i < |pool| ==> pool[i].At() == pts[i]
  }

  ghost predicate HitSetList(pool: Pool, i: HitId)
    requires i < |pool|
  {
    IsHitSet(pool, pool[i].neighbours)
  }

  ghost predicate HitSetLists(pool: Pool) {
    forall i: HitId :: i < |pool| ==> HitSetList(pool, i)
  }

  /** The link of `a` to `b`, unless it is one of the newest hit `q` with a hit before `m`. */
  ghost predicate Due(pts: seq<Point>, eps: real, q: HitId, m: nat, a: HitId, b: HitId) {
    Adjacent(pts, eps, a, b) && (a == q ==> b >= m) && (b == q ==> a >= m)
  }

  /** Neighbour lists are exactly adjacency, but for the links of the newest hit to hits before `m`. */
  ghost predicate LinkedDownTo(pool: Pool, pts: seq<Point>, eps: real, m: nat) {
    && Matches(pool, pts) && HitSetLists(pool) && |pool| > 0
    && forall a: HitId, b: HitId :: a < |pool| ==> (b in pool[a].neighbours <==> Due(pts, eps, |pool| - 1, m, a, b))
  }

  ghost predicate Linked(pool: Pool, pts: seq<Point>, eps: real) {
    && Matches(pool, pts) && HitSetLists(pool)
    && forall a: HitId, b: HitId :: a < |pool| ==> (b in pool[a].neighbours <==> Adjacent(pts, eps, a, b))
  }

  ghost predicate CoreFlag(hit: Hit, minPts: nat) {
    hit.connectedness.KCore? <==> hit.IsCore(minPts)
  }

  /** The core flag is exact, but for a newest hit that nothing has been linked to yet. */
  ghost predicate CoreFlags(pool: Pool, minPts: nat) {
    && (forall a :: 0 <= a < |pool| - 1 ==> CoreFlag(pool[a], minPts))
    && (|pool| > 0 ==> var q := pool[|pool| - 1];
         if q.neighbours == [] then q.connectedness.KUndefined? else CoreFlag(q, minPts))
  }

  ghost predicate SameClusters(pool: Pool, pool': Pool) {
    |pool'| == |pool| && forall i :: 0 <= i < |pool| ==> pool'[i].cluster == pool[i].cluster
  }

  lemma HitSetSamePoints(pool: Pool, pool': Pool, s: seq<HitId>)
    requires SamePoints(pool, pool') && IsHitSet(pool, s)
    ensures IsHitSet(pool', s)
  {
    forall i, j | 0 <= i < j < |s|
      ensures pool'[s[i]].time <= pool'[s[j]].time
    {
      assert pool'[s[i]].At() == pool[s[i]].At() && pool'[s[j]].At() == pool[s[j]].At();
    }
  }

  lemma AddNeighbourCorrect(pool: Pool, a: HitId, b: HitId, minPts: nat)
    requires HitSetLists(pool) && ListsInPool(pool) && a < |pool| && b < |pool|
    ensures var r := AddNeighbour(pool, a, b, minPts);
      && SamePoints(pool, r) && SameClusters(pool, r) && ListsInPool(r) && HitSetLists(r)
      && (forall i :: 0 <= i < |pool| && i != a ==> r[i] == pool[i])
      && (forall x :: x in r[a].neighbours <==> x in pool[a].neighbours || x == b)
      && (CoreFlag(r[a], minPts) <== CoreFlag(pool[a], minPts) || pool[a].connectedness.KUndefined?)
  {
    var r := AddNeighbour(pool, a, b, minPts);
    assert HitSetList(pool, a);
    InsertCorrect(pool, pool[a].neighbours, b);
    assert forall x :: x in r[a].neighbours <==> x in Members(r[a].neighbours);
    AddNeighbourInPool(pool, a, b, minPts);
    forall i | 0 <= i < |r|
      ensures HitSetList(r, i)
    {
      assert HitSetList(pool, i);
      HitSetSamePoints(pool, r, r[i].neighbours);
    }
  }

  /** `r` is `pool` with `q` and `h` linked to each other, and nothing else touched. */
  ghost predicate LinksPair(pool: Pool, r: Pool, q: HitId, h: HitId, minPts: nat)
    requires q < |pool| && h < |pool| && |r| == |pool|
  {
    && SamePoints(pool, r) && SameClusters(pool, r) && HitSetLists(r)
    && (forall i :: 0 <= i < |pool| && i != q && i != h ==> r[i] == pool[i])
    && (forall x :: x in r[q].neighbours <==> x in pool[q].neighbours || x == h)
    && (forall x :: x in r[h].neighbours <==> x in pool[h].neighbours || x == q)
    && (CoreFlag(r[q], minPts) <== CoreFlag(pool[q], minPts) || pool[q].connectedness.KUndefined?)
    && (CoreFlag(r[h], minPts) <== CoreFlag(pool[h], minPts) || pool[h].connectedness.KUndefined?)
  }

  /** Linking is symmetric, and touches the two lists only. */
  lemma LinkPair(pool: Pool, q: HitId, h: HitId, eps: real, minPts: nat)
    requires HitSetLists(pool) && ListsInPool(pool) && q < |pool| && h < |pool| && q != h
    requires DistanceSqr(pool[q].At(), pool[h].At()) < eps * eps
    ensures LinksPair(pool, AddPotentialNeighbour(pool, q, h, eps, minPts), q, h, minPts)
  {
    var linked := AddNeighbour(pool, q, h, minPts);
    AddNeighbourCorrect(pool, q, h, minPts);
    AddNeighbourCorrect(linked, h, q, minPts);
  }

  lemma LinksPairCoreFlags(pool: Pool, r: Pool, q: HitId, h: HitId, minPts: nat)
    requires h < q == |pool| - 1 && |r| == |pool|
    requires CoreFlags(pool, minPts) && LinksPair(pool, r, q, h, minPts)
    ensures CoreFlags(r, minPts)
  {
    assert h in r[q].neighbours;
    assert CoreFlag(pool[h], minPts);
  }

  lemma LinksPairIsDue(pool: Pool, r: Pool, pts: seq<Point>, eps: real, minPts: nat, h: HitId, a: HitId, b: HitId)
    requires h < |pool| - 1 && |r| == |pool| && a < |pool|
    requires LinksPair(pool, r, |pool| - 1, h, minPts)
    requires b in pool[a].neighbours <==> Due(pts, eps, |pool| - 1, h + 1, a, b)
    requires Adjacent(pts, eps, |pool| - 1, h) && Adjacent(pts, eps, h, |pool| - 1)
    ensures b in r[a].neighbours <==> Due(pts, eps, |pool| - 1, h, a, b)
  {
    hide Adjacent;
  }

  lemma NoLinkIsDue(pts: seq<Point>, eps: real, q: HitId, h: HitId, a: HitId, b: HitId)
    requires q == h || (!Adjacent(pts, eps, q, h) && !Adjacent(pts, eps, h, q))
    ensures Due(pts, eps, q, h + 1, a, b) <==> Due(pts, eps, q, h, a, b)
  {
  }

  lemma LinkOneClose(pool: Pool, pts: seq<Point>, eps: real, minPts: nat, h: HitId)
    requires ListsInPool(pool) && h < |pool| - 1 && Adjacent(pts, eps, |pool| - 1, h)
    requires LinkedDownTo(pool, pts, eps, h + 1) && CoreFlags(pool, minPts)
    ensures var r := AddPotentialNeighbour(pool, |pool| - 1, h, eps, minPts);
      LinkedDownTo(r, pts, eps, h) && CoreFlags(r, minPts) && SameClusters(pool, r)
  {
    var q := |pool| - 1;
    var r := AddPotentialNeighbour(pool, q, h, eps, minPts);
    AdjacentSymmetric(pts, eps, q, h);
    LinkPair(pool, q, h, eps, minPts);
    hide AddPotentialNeighbour, ListsInPool;
    LinksPairCoreFlags(pool, r, q, h, minPts);
    hide Adjacent, CoreFlags;
    forall a: HitId, b: HitId | a < |r|
      ensures b in r[a].neighbours <==> Due(pts, eps, q, h, a, b)
    {
      LinksPairIsDue(pool, r, pts, eps, minPts, h, a, b);
    }
  }

  lemma LinkOneFar(pool: Pool, pts: seq<Point>, eps: real, minPts: nat, h: HitId)
    requires ListsInPool(pool) && h < |pool| && !Adjacent(pts, eps, |pool| - 1, h)
    requires LinkedDownTo(pool, pts, eps, h + 1)
    ensures AddPotentialNeighbour(pool, |pool| - 1, h, eps, minPts) == pool && LinkedDownTo(pool, pts, eps, h)
  {
    var q := |pool| - 1;
    AdjacentSymmetric(pts, eps, q, h);
    forall a: HitId, b: HitId | a < |pool|
      ensures b in pool[a].neighbours <==> Due(pts, eps, q, h, a, b)
    {
      NoLinkIsDue(pts, eps, q, h, a, b);
    }
  }

  /** One step of the scan: the newest hit meets the hit just before the part already linked. */
  lemma LinkOne(pool: Pool, pts: seq<Point>, eps: real, minPts: nat, h: HitId)
    requires ListsInPool(pool) && h < |pool|
    requires LinkedDownTo(pool, pts, eps, h + 1) && CoreFlags(pool, minPts)
    ensures var r := AddPotentialNeighbour(pool, |pool| - 1, h, eps, minPts);
      LinkedDownTo(r, pts, eps, h) && CoreFlags(r, minPts) && SameClusters(pool, r)
  {
    hide AddPotentialNeighbour, LinkedDownTo, ListsInPool, CoreFlags;
    if Adjacent(pts, eps, |pool| - 1, h) {
      LinkOneClose(pool, pts, eps, minPts, h);
    } else {
      LinkOneFar(pool, pts, eps, minPts, h);
    }
  }

  // ----- the whole scan

  /** The hits held are the latest ones, in order of arrival, from number `lo` on. */
  function Arrivals(lo: nat, hi: nat): (r: seq<HitId>)
    requires lo <= hi
    ensures |r| == hi - lo && forall i :: 0 <= i < |r| ==> r[i] == lo + i
  {
    seq(hi - lo, i requires 0 <= i < hi - lo => lo + i)
  }

  /** Every hit before `lo` is out of reach of a hit at time `now`. */
  ghost predicate OutOfReach(pts: seq<Point>, lo: nat, now: real, eps: real) {
    lo <= |pts| && forall i :: 0 <= i < lo ==> pts[i].time < now - eps
  }

  lemma NothingDueEarlier(pool: Pool, pts: seq<Point>, eps: real, m: nat)
    requires eps >= 0.0 && LinkedDownTo(pool, pts, eps, m)
    requires OutOfReach(pts, m, pts[|pts| - 1].time, eps)
    ensures Linked(pool, pts, eps)
  {
    var q := |pts| - 1;
    forall a: HitId, b: HitId | a < |pool|
      ensures b in pool[a].neighbours <==> Adjacent(pts, eps, a, b)
    {
      if Adjacent(pts, eps, a, b) {
        AdjacentInTime(pts, eps, a, b);
      }
      assert b in pool[a].neighbours <==> Due(pts, eps, q, m, a, b);
      hide Adjacent;
    }
  }

  lemma {:induction false} LinkNeighboursCorrect(pool: Pool, pts: seq<Point>, lo: nat, i: nat, eps: real, minPts: nat)
    requires eps >= 0.0 && TimeOrdered(pts) && ListsInPool(pool)
    requires |pts| > 0 && lo + i <= |pts| && OutOfReach(pts, lo, pts[|pts| - 1].time, eps)
    requires LinkedDownTo(pool, pts, eps, lo + i) && CoreFlags(pool, minPts)
    ensures var r := LinkNeighbours(pool, Arrivals(lo, |pts|), i, |pts| - 1, eps, minPts);
      Linked(r, pts, eps) && CoreFlags(r, minPts) && SameClusters(pool, r)
    decreases i
  {
    hide AddPotentialNeighbour, DistanceSqr, Adjacent, Due, HitSetLists, ListsInPool, CoreFlags;
    var q := |pts| - 1;
    if i == 0 {
      NothingDueEarlier(pool, pts, eps, lo);
    } else {
      var h := lo + i - 1;
      assert pool[h].At() == pts[h] && pool[q].At() == pts[q];
      assert pts[h].time <= pts[q].time;
      hide Linked, LinkedDownTo;
      if pool[h].time < pool[q].time - eps {
        assert OutOfReach(pts, lo + i, pts[q].time, eps);
        NothingDueEarlier(pool, pts, eps, lo + i);
      } else {
        LinkOne(pool, pts, eps, minPts, h);
        LinkNeighboursCorrect(AddPotentialNeighbour(pool, q, h, eps, minPts), pts, lo, i - 1, eps, minPts);
      }
    }
  }

  lemma NewHitUnlinked(pool: Pool, pts: seq<Point>, p: Point, eps: real, minPts: nat)
    requires Linked(pool, pts, eps) && forall i :: 0 <= i < |pool| ==> CoreFlag(pool[i], minPts)
    ensures var r := pool + [NewHit(p.time, p.chan)];
      ListsInPool(r) && LinkedDownTo(r, pts + [p], eps, |r|) && CoreFlags(r, minPts)
  {
    var r := pool + [NewHit(p.time, p.chan)];
    var all := pts + [p];
    forall i: HitId | i < |r|
      ensures HitSetList(r, i) && InPool(r, r[i].neighbours)
    {
      if i < |pool| {
        assert HitSetList(pool, i);
      }
    }
    forall a: HitId, b: HitId | a < |r|
      ensures b in r[a].neighbours <==> Due(all, eps, |pool|, |r|, a, b)
    {
      if a < |pool| {
        assert b in pool[a].neighbours <==> Adjacent(pts, eps, a, b);
      }
    }
  }

  /** The pruned backward scan links the new hit exactly as a scan of every hit ever added would:
      afterwards neighbour lists are adjacency, for every pair of hits. */
  lemma ScanFindsAllNeighbours(pool: Pool, pts: seq<Point>, p: Point, lo: nat, eps: real, minPts: nat)
    requires eps >= 0.0 && TimeOrdered(pts + [p])
    requires Linked(pool, pts, eps) && forall i :: 0 <= i < |pool| ==> CoreFlag(pool[i], minPts)
    requires OutOfReach(pts, lo, p.time, eps)
    ensures ListsInPool(pool + [NewHit(p.time, p.chan)])
    ensures var start := pool + [NewHit(p.time, p.chan)];
      var r := LinkNeighbours(start, Arrivals(lo, |start|), |start| - lo, |pool|, eps, minPts);
      Linked(r, pts + [p], eps) && CoreFlags(r, minPts) && SameClusters(start, r)
  {
    hide AddPotentialNeighbour, LinkNeighbours, ListsInPool;
    NewHitUnlinked(pool, pts, p, eps, minPts);
    LinkNeighboursCorrect(pool + [NewHit(p.time, p.chan)], pts + [p], lo, |pool| + 1 - lo, eps, minPts);
  }

  lemma TimesStay(pool: Pool, q: HitId, h: HitId, eps: real, minPts: nat)
    requires ListsInPool(pool) && q < |pool| && h < |pool|
    ensures var r := AddPotentialNeighbour(pool, q, h, eps, minPts);
      |r| == |pool| && forall k: HitId :: k < |pool| ==> r[k].time == pool[k].time
  {
    hide AddPotentialNeighbour;
    var r := AddPotentialNeighbour(pool, q, h, eps, minPts);
    forall k: HitId | k < |pool|
      ensures r[k].time == pool[k].time
    {
      assert r[k].At() == pool[k].At();
    }
  }

  /** One step of the scan. */
  lemma ScanOne(pool: Pool, lo: nat, i: nat, q: HitId, eps: real, minPts: nat)
    requires ListsInPool(pool) && 0 < i && lo + i <= |pool| && q < |pool|
    ensures var h, hits := lo + i - 1, Arrivals(lo, |pool|);
      LinkNeighbours(pool, hits, i, q, eps, minPts) ==
      if pool[h].time > pool[q].time + eps then LinkNeighbours(pool, hits, i - 1, q, eps, minPts)
      else if pool[h].time < pool[q].time - eps then pool
      else LinkNeighbours(AddPotentialNeighbour(pool, q, h, eps, minPts), hits, i - 1, q, eps, minPts)
  {
    hide AddPotentialNeighbour;
  }

  lemma ScanNone(pool: Pool, lo: nat, i: nat, q: HitId, eps: real, minPts: nat)
    requires ListsInPool(pool) && lo + i <= |pool| && q < |pool| && eps >= 0.0
    requires i > 0 ==> pool[lo + i - 1].time < pool[q].time - eps
    ensures LinkNeighbours(pool, Arrivals(lo, |pool|), i, q, eps, minPts) == pool
  {
    hide AddPotentialNeighbour;
  }

  /** Hits out of reach may be held or dropped: the scan gives the same pool. */
  lemma {:induction false} ScanIgnoresOutOfReach(pool: Pool, lo: nat, lo': nat, i: nat, q: HitId, eps: real,
                                                 minPts: nat)
    requires eps >= 0.0 && ListsInPool(pool) && lo <= lo' && lo' + i <= |pool| && q < |pool|
    requires forall h :: lo <= h < lo' ==> pool[h].time < pool[q].time - eps
    ensures LinkNeighbours(pool, Arrivals(lo, |pool|), lo' - lo + i, q, eps, minPts)
         == LinkNeighbours(pool, Arrivals(lo', |pool|), i, q, eps, minPts)
    decreases i
  {
    hide AddPotentialNeighbour, LinkNeighbours, Arrivals, ListsInPool, SamePoints;
    if i == 0 {
      ScanNone(pool, lo, lo' - lo, q, eps, minPts);
      ScanNone(pool, lo', 0, q, eps, minPts);
    } else {
      var h := lo' + i - 1;
      ScanOne(pool, lo, lo' - lo + i, q, eps, minPts);
      ScanOne(pool, lo', i, q, eps, minPts);
      if pool[h].time > pool[q].time + eps {
        ScanIgnoresOutOfReach(pool, lo, lo', i - 1, q, eps, minPts);
      } else if !(pool[h].time < pool[q].time - eps) {
        var r := AddPotentialNeighbour(pool, q, h, eps, minPts);
        TimesStay(pool, q, h, eps, minPts);
        ScanIgnoresOutOfReach(r, lo, lo', i - 1, q, eps, minPts);
      }
    }
  }
}
