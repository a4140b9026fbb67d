/** The batch view of DBSCAN's input: points in the plane (time, channel) and the graph that joins
    two of them when they are closer than eps. Nothing here mentions the streaming algorithm. */
module Graph {

  type HitId = nat

  datatype Point = Point(time: real, chan: int)

  function Sqr(x: real): real {
    x * x
  }

  function DistanceSqr(p: Point, q: Point): real {
    Sqr(p.time - q.time) + Sqr((p.chan - q.chan) as real)
  }

  /** Two distinct positions of `pts` closer than `eps`. */
  predicate Adjacent(pts: seq<Point>, eps: real, a: HitId, b: HitId) {
    a < |pts| && b < |pts| && a != b && DistanceSqr(pts[a], pts[b]) < eps * eps
  }

  ghost predicate TimeOrdered(pts: seq<Point>) {
    forall i, j :: 0 <= i <= j < |pts| ==> pts[i].time <= pts[j].time
  }

  /** The `i`-th step of the path is an edge. */
  ghost predicate EdgeAt(pts: seq<Point>, eps: real, path: seq<HitId>, i: nat)
    requires i + 1 < |path|
  {
    Adjacent(pts, eps, path[i], path[i + 1])
  }

  ghost predicate IsPath(pts: seq<Point>, eps: real, path: seq<HitId>, a: HitId, b: HitId) {
    && |path| > 0 && path[0] == a && path[|path| - 1] == b
    && (forall i :: 0 <= i < |path| ==> path[i] < |pts|)
    && (forall i: nat :: i + 1 < |path| ==> EdgeAt(pts, eps, path, i))
  }

  ghost predicate Connected(pts: seq<Point>, eps: real, a: HitId, b: HitId) {
    exists path :: IsPath(pts, eps, path, a, b)
  }

  /** The connected component of `a`. */
  ghost function Component(pts: seq<Point>, eps: real, a: HitId): set<HitId> {
    set b: HitId | 0 <= b < |pts| && Connected(pts, eps, a, b)
  }

  // ----- distances

  lemma SqrMonotone(x: real, y: real)
    requires 0.0 <= y <= x
    ensures Sqr(y) <= Sqr(x)
  {
    assert x * x - y * y == (x - y) * (x + y);
  }

  /** Close points are close in time, which is what lets the scan of the hits be cut short. */
  lemma AdjacentInTime(pts: seq<Point>, eps: real, a: HitId, b: HitId)
    requires eps >= 0.0 && Adjacent(pts, eps, a, b)
    ensures -eps < pts[a].time - pts[b].time < eps
  {
    var d := pts[a].time - pts[b].time;
    var c := (pts[a].chan - pts[b].chan) as real;
    assert Sqr(c) >= 0.0;
    assert Sqr(-d) == Sqr(d);
    if d >= eps {
      SqrMonotone(d, eps);
    } else if -d >= eps {
      SqrMonotone(-d, eps);
    }
  }

  lemma AdjacentSymmetric(pts: seq<Point>, eps: real, a: HitId, b: HitId)
    ensures Adjacent(pts, eps, a, b) <==> Adjacent(pts, eps, b, a)
  {
    if a < |pts| && b < |pts| {
      assert Sqr(pts[a].time - pts[b].time) == Sqr(pts[b].time - pts[a].time);
      assert (pts[a].chan - pts[b].chan) as real == -((pts[b].chan - pts[a].chan) as real);
    }
  }

  /** Two distinct points are adjacent exactly when their coordinates are, by Pythagoras, closer than eps. */
  lemma AdjacentMeans(pts: seq<Point>, eps: real, a: HitId, b: HitId)
    requires a < |pts| && b < |pts|
    ensures var dt, dc := pts[a].time - pts[b].time, pts[a].chan as real - pts[b].chan as real;
      Adjacent(pts, eps, a, b) <==> a != b && dt * dt + dc * dc < eps * eps
  {
    assert (pts[a].chan - pts[b].chan) as real == pts[a].chan as real - pts[b].chan as real;
  }

  lemma SqrLess(x: real, eps: real)
    requires eps >= 0.0
    ensures x * x < eps * eps <==> -eps < x < eps
  {
    if x >= eps {
      SqrMonotone(x, eps);
    } else if -x >= eps {
      SqrMonotone(-x, eps);
    } else {
      SqrStrict(if x < 0.0 then -x else x, eps);
    }
  }

  lemma SqrStrict(x: real, eps: real)
    requires 0.0 <= x < eps
    ensures x * x < eps * eps
  {
    SqrMonotone(eps, x);
    assert eps * eps - x * x == (eps - x) * (eps + x);
    assert (eps - x) * (eps + x) / (eps + x) == eps - x;
  }

  /** So adjacent points are closer than eps in time and in channel, and points that differ in one of the two only
      are adjacent exactly when they are. */
  lemma AdjacentByAxis(pts: seq<Point>, eps: real, a: HitId, b: HitId)
    requires eps >= 0.0 && a < |pts| && b < |pts| && a != b
    ensures var dt, dc := pts[a].time - pts[b].time, pts[a].chan as real - pts[b].chan as real;
      && (Adjacent(pts, eps, a, b) ==> -eps < dt < eps && -eps < dc < eps)
      && (pts[a].chan == pts[b].chan ==> (Adjacent(pts, eps, a, b) <==> -eps < dt < eps))
      && (pts[a].time == pts[b].time ==> (Adjacent(pts, eps, a, b) <==> -eps < dc < eps))
  {
    var dt, dc := pts[a].time - pts[b].time, pts[a].chan as real - pts[b].chan as real;
    AdjacentMeans(pts, eps, a, b);
    hide Adjacent;
    SqrLess(dt, eps);
    SqrLess(dc, eps);
    SquareNotNegative(dt);
    SquareNotNegative(dc);
  }

  lemma SquareNotNegative(x: real)
    ensures x * x >= 0.0
  {
    if x < 0.0 {
      assert x * x == (-x) * (-x);
    }
  }

  // ----- connectedness is an equivalence that only grows with the points

  lemma ConnectedReflexive(pts: seq<Point>, eps: real, a: HitId)
    requires a < |pts|
    ensures Connected(pts, eps, a, a)
  {
    assert IsPath(pts, eps, [a], a, a);
  }

  lemma ConnectedEdge(pts: seq<Point>, eps: real, a: HitId, b: HitId)
    requires Adjacent(pts, eps, a, b)
    ensures Connected(pts, eps, a, b)
  {
    assert IsPath(pts, eps, [a, b], a, b);
  }

  lemma ConnectedSymmetric(pts: seq<Point>, eps: real, a: HitId, b: HitId)
    requires Connected(pts, eps, a, b)
    ensures Connected(pts, eps, b, a)
  {
    var path :| IsPath(pts, eps, path, a, b);
    var back := seq(|path|, i requires 0 <= i < |path| => path[|path| - 1 - i]);
    forall i: nat | i + 1 < |back|
      ensures EdgeAt(pts, eps, back, i)
    {
      var j := |path| - 2 - i;
      assert EdgeAt(pts, eps, path, j);
      AdjacentSymmetric(pts, eps, path[j], path[j + 1]);
    }
    assert IsPath(pts, eps, back, b, a);
  }

  lemma ConnectedTransitive(pts: seq<Point>, eps: real, a: HitId, b: HitId, c: HitId)
    requires Connected(pts, eps, a, b) && Connected(pts, eps, b, c)
    ensures Connected(pts, eps, a, c)
  {
    var p :| IsPath(pts, eps, p, a, b);
    var q :| IsPath(pts, eps, q, b, c);
    var r := p + q[1..];
    forall i: nat | i + 1 < |r|
      ensures EdgeAt(pts, eps, r, i)
    {
      if i < |p| - 1 {
        assert EdgeAt(pts, eps, p, i);
      } else {
        var j := i - (|p| - 1);
        assert r[i] == q[j];
        assert EdgeAt(pts, eps, q, j);
      }
    }
    assert IsPath(pts, eps, r, a, c);
  }

  lemma ConnectedGrows(pts: seq<Point>, more: seq<Point>, eps: real, a: HitId, b: HitId)
    requires pts <= more && Connected(pts, eps, a, b)
    ensures Connected(more, eps, a, b)
  {
    var path :| IsPath(pts, eps, path, a, b);
    forall i: nat | i + 1 < |path|
      ensures EdgeAt(more, eps, path, i)
    {
      assert EdgeAt(pts, eps, path, i);
    }
    assert IsPath(more, eps, path, a, b);
  }

  /** A set that no edge leaves holds everything connected to a member. */
  lemma ClosedSetHoldsConnected(pts: seq<Point>, eps: real, s: set<HitId>, a: HitId, b: HitId)
    requires forall x, y :: x in s && Adjacent(pts, eps, x, y) ==> y in s
    requires a in s && Connected(pts, eps, a, b)
    ensures b in s
  {
    var path :| IsPath(pts, eps, path, a, b);
    var i := 0;
    while i < |path| - 1
      invariant 0 <= i < |path|
      invariant path[i] in s
    {
      assert EdgeAt(pts, eps, path, i);
      i := i + 1;
    }
  }
}
