/** Clusters that have been handed out are final, for every minPts. */
module Finality {
  import opened Graph
  import opened Hits
  import opened Clusters
  import opened ClusterGrowth
  import opened ClusterInvariant
  import opened Placement
  import opened Stream

  /** New clusters get new numbers. */
  lemma PlacedIndices(b: Book, r: Book, n: HitId, minPts: nat)
    requires Sane(b) && n < |b.pool| && Placed(b, r, n, minPts)
    ensures r.next >= b.next && |r.pool| == |b.pool|
    ensures forall k :: k in r.clusters ==> k in b.clusters || k >= b.next
    ensures b.clusters.Keys <= r.clusters.Keys
    ensures forall k :: b.next <= k < r.next ==> k in r.clusters
  {
    hide Joins, HitGrew, ClusterOk, Closed, Reached;
  }

  lemma FinishedStays(pts: seq<Point>, cfg: Config, st: State, p: Point, c: Cluster)
    requires cfg.eps >= 0.0 && Valid(pts, cfg, st) && TimeOrdered(pts + [p]) && pts != []
    requires Finished(pts, cfg.eps, st, c)
    ensures Ready(st, p, cfg) && Finished(pts + [p], cfg.eps, Arrive(st, p, cfg).state, c)
  {
    var n, more := |pts|, pts + [p];
    ArriveCorrect(pts, cfg, st, p);
    var b := st.book.(pool := Link(st, p, cfg));
    LinkedIsArrived(pts, cfg, st, p);
    PlaceCorrect(more, cfg.eps, b, n, cfg.minPts);
    var placed := Place(b, n, cfg.minPts);
    SweepCorrect(placed.clusters, p.time, cfg.eps, placed.next);
    var r := Arrive(st, p, cfg).state;
    assert more[n - 1].time <= more[n].time;
    PlacedIndices(b, placed, n, cfg.minPts);
    WellFormedGrows(pts, more, cfg.eps, st.book.pool, r.book.pool, c);
  }

  /** One step of a run, trimming aside. */
  lemma RunStep(pts: seq<Point>, cfg: Config, trim: nat -> bool)
    requires cfg.eps >= 0.0 && TimeOrdered(pts) && pts != []
    ensures var n := |pts| - 1;
      var before, after := Run(pts[..n], cfg, trim), Run(pts, cfg, trim);
      && pts == pts[..n] + [pts[n]]
      && Ready(before.state, pts[n], cfg)
      && var arrived := Arrive(before.state, pts[n], cfg);
         && after.completed == before.completed + arrived.completed
         && after.state.book == arrived.state.book && after.state.latest == arrived.state.latest
         && forall i :: 0 <= i < |arrived.completed| ==> Finished(pts, cfg.eps, arrived.state, arrived.completed[i])
  {
    hide Valid, Arrive, Finished, Ready, Trim;
    var n := |pts| - 1;
    var before := Run(pts[..n], cfg, trim);
    assert pts == pts[..n] + [pts[n]];
    ArriveCorrect(pts[..n], cfg, before.state, pts[n]);
    TrimKeepsBook(pts, cfg, Arrive(before.state, pts[n], cfg).state);
  }

  lemma TrimKeepsBook(pts: seq<Point>, cfg: Config, st: State)
    requires cfg.eps >= 0.0 && Valid(pts, cfg, st) && TimeOrdered(pts)
    ensures Sane(st.book) && NoEmptyCluster(st.book) && InPool(st.book.pool, st.hits)
    ensures Trim(st, cfg.eps).book == st.book && Trim(st, cfg.eps).latest == st.latest
  {
    TrimCorrect(pts, cfg, st);
    hide LiveCluster, IndicesOk, Linked;
  }

  /** Every cluster handed out in a run stays finished: its hits are sorted by time and distinct, lie in
      one connected component, and are all out of reach of the latest hit. */
  lemma {:induction false} CompletedAreFinished(pts: seq<Point>, cfg: Config, trim: nat -> bool, i: nat)
    requires cfg.eps >= 0.0 && TimeOrdered(pts) && i < |Run(pts, cfg, trim).completed|
    ensures Finished(pts, cfg.eps, Run(pts, cfg, trim).state, Run(pts, cfg, trim).completed[i])
  {
    hide Valid, Arrive, WellFormed, Ready, Trim;
    var n := |pts| - 1;
    var before := Run(pts[..n], cfg, trim);
    RunStep(pts, cfg, trim);
    hide Run;
    if i < |before.completed| {
      CompletedAreFinished(pts[..n], cfg, trim, i);
      if n == 0 {
        EmptyRun(cfg, trim);
      }
      FinishedStays(pts[..n], cfg, before.state, pts[n], before.completed[i]);
    }
  }

  lemma EmptyRun(cfg: Config, trim: nat -> bool)
    requires cfg.eps >= 0.0
    ensures Run([], cfg, trim).completed == []
  {
  }

  /** No hit of a cluster that has been handed out ever gains a neighbour, whatever hits follow. */
  lemma HandedOutIsFinal(pts: seq<Point>, more: seq<Point>, cfg: Config, trim: nat -> bool, i: nat, h: HitId, g: HitId)
    requires cfg.eps >= 0.0 && TimeOrdered(pts) && TimeOrdered(more) && pts <= more
    requires i < |Run(pts, cfg, trim).completed| && h in Run(pts, cfg, trim).completed[i].hits
    requires Adjacent(more, cfg.eps, h, g)
    ensures g < |pts| && Adjacent(pts, cfg.eps, h, g)
  {
    CompletedAreFinished(pts, cfg, trim, i);
    var o := Run(pts, cfg, trim);
    var c := o.completed[i];
    assert h < |pts| && pts[h].time <= c.latestTime by {
      assert o.state.book.pool[h].At() == pts[h];
    }
    AdjacentInTime(more, cfg.eps, h, g);
  }

  /** Clusters handed out stay handed out: a longer run only adds to the list. */
  lemma {:induction false} CompletedGrows(pts: seq<Point>, more: seq<Point>, cfg: Config, trim: nat -> bool)
    requires cfg.eps >= 0.0 && TimeOrdered(pts) && TimeOrdered(more) && pts <= more
    ensures Run(pts, cfg, trim).completed <= Run(more, cfg, trim).completed
    decreases |more|
  {
    if pts == more {
    } else {
      CompletedGrows(pts, more[..|more| - 1], cfg, trim);
      RunStep(more, cfg, trim);
      hide Run, Arrive, Valid;
    }
  }
}
