/**
 * `findFurthestPoints`: the double loop over pairs `i < j` that keeps the first pair whose distance
 * strictly exceeds every earlier one. Distances are compared through their squares.
 */
module Furthest {
  import opened Common
  import opened Geometry

  /** The distance measure the scan compares; the source's is `DistSq`. */
  type Measure = (Vec3, Vec3) -> real

  /** The running maximum `maxDist` and the indices of `pointA` and `pointB`, if any pair was taken. */
  datatype Best = Best(maxD: real, pair: Option<(int, int)>)

  /** Pair `(p, q)` comes before position `(i, j)` of the scan. */
  predicate Before(p: int, q: int, i: int, j: int) {
    p < i || (p == i && q < j)
  }

  predicate ValidPair(ps: seq<Vec3>, p: int, q: int) {
    0 <= p < q < |ps|
  }

  /** The scan from position `(i, j)` on, with the state `best` reached so far. */
  function Scan(dist: Measure, ps: seq<Vec3>, i: nat, j: nat, best: Best): Best
    decreases |ps| - i, |ps| - j
  {
    if i >= |ps| then best
    else if j >= |ps| then Scan(dist, ps, i + 1, i + 2, best)
    else
      var d := dist(ps[i], ps[j]);
      Scan(dist, ps, i, j + 1, if d > best.maxD then Best(d, Some((i, j))) else best)
  }

  function FurthestBy(dist: Measure, ps: seq<Vec3>): Best {
    Scan(dist, ps, 0, 1, Best(0.0, None))
  }

  /** The result of `findFurthestPoints` on `ps`, as indices: `None` when `pointA` and `pointB` stay null. */
  function FurthestPair(ps: seq<Vec3>): Best {
    FurthestBy(DistSq, ps)
  }

  /** What the scan state knows once every pair before `(i, j)` has been visited. */
  ghost predicate Summarises(dist: Measure, ps: seq<Vec3>, i: int, j: int, best: Best) {
    best.maxD >= 0.0 &&
    (forall p, q :: ValidPair(ps, p, q) && Before(p, q, i, j) ==> dist(ps[p], ps[q]) <= best.maxD) &&
    (best.pair.None? ==> best.maxD == 0.0) &&
    (best.pair.Some? ==>
       var (p, q) := best.pair.value;
       ValidPair(ps, p, q) && Before(p, q, i, j) && dist(ps[p], ps[q]) == best.maxD && best.maxD > 0.0 &&
       forall p', q' :: ValidPair(ps, p', q') && Before(p', q', p, q) ==> dist(ps[p'], ps[q']) < best.maxD)
  }

  /**
   * The result of the whole scan: the maximum over all pairs, and the first pair (in scan order)
   * reaching it, or no pair when the maximum is 0.
   */
  ghost predicate IsFurthest(dist: Measure, ps: seq<Vec3>, best: Best) {
    best.maxD >= 0.0 &&
    (forall p, q :: ValidPair(ps, p, q) ==> dist(ps[p], ps[q]) <= best.maxD) &&
    (best.pair.None? ==> best.maxD == 0.0) &&
    (best.pair.Some? ==>
       var (p, q) := best.pair.value;
       ValidPair(ps, p, q) && dist(ps[p], ps[q]) == best.maxD && best.maxD > 0.0 &&
       forall p', q' :: ValidPair(ps, p', q') && Before(p', q', p, q) ==> dist(ps[p'], ps[q']) < best.maxD)
  }

  lemma {:induction false} ScanSummarises(dist: Measure, ps: seq<Vec3>, i: nat, j: nat, best: Best)
    requires j <= |ps| ==> i < j
    requires Summarises(dist, ps, i, j, best)
    ensures IsFurthest(dist, ps, Scan(dist, ps, i, j, best))
    decreases |ps| - i, |ps| - j
  {
    if i >= |ps| {
      forall p, q | ValidPair(ps, p, q)
        ensures dist(ps[p], ps[q]) <= best.maxD
      {
        assert Before(p, q, i, j);
      }
    } else if j >= |ps| {
      forall p, q | ValidPair(ps, p, q) && Before(p, q, i + 1, i + 2)
        ensures Before(p, q, i, j)
      {
      }
      ScanSummarises(dist, ps, i + 1, i + 2, best);
    } else {
      var d := dist(ps[i], ps[j]);
      var next := if d > best.maxD then Best(d, Some((i, j))) else best;
      forall p, q | ValidPair(ps, p, q) && Before(p, q, i, j + 1)
        ensures dist(ps[p], ps[q]) <= next.maxD
      {
        if !(p == i && q == j) {
          assert Before(p, q, i, j);
        }
      }
      ScanSummarises(dist, ps, i, j + 1, next);
    }
  }

  /** The scan returns the maximal distance and the first pair that attains it. */
  lemma FurthestIsMaximal(dist: Measure, ps: seq<Vec3>)
    requires forall p, q :: dist(p, q) >= 0.0
    ensures IsFurthest(dist, ps, FurthestBy(dist, ps))
  {
    ScanSummarises(dist, ps, 0, 1, Best(0.0, None));
  }

  /**
   * For the source's measure: the pair returned has the largest distance of all pairs and is the first
   * such pair; no pair is returned exactly when all points coincide.
   */
  lemma FurthestPairCorrect(ps: seq<Vec3>)
    ensures IsFurthest(DistSq, ps, FurthestPair(ps))
    ensures FurthestPair(ps).pair.None? <==> forall p, q :: ValidPair(ps, p, q) ==> DistSq(ps[p], ps[q]) == 0.0
  {
    FurthestIsMaximal(DistSq, ps);
  }

  /** `pointA` and `pointB` are the points of the pair `best` records, and both null when it records none. */
  predicate Tracks(ps: seq<Vec3>, best: Best, pointA: Option<Vec3>, pointB: Option<Vec3>) {
    match best.pair
    case None => pointA == None && pointB == None
    case Some((p, q)) => ValidPair(ps, p, q) && pointA == Some(ps[p]) && pointB == Some(ps[q])
  }

  /** `findFurthestPoints(points)`: `pointA` and `pointB` of the first strictly largest pair, or null. */
  method FindFurthestPoints(points: seq<Vec3>) returns (pointA: Option<Vec3>, pointB: Option<Vec3>)
    ensures Tracks(points, FurthestPair(points), pointA, pointB)
  {
    FurthestPairCorrect(points);
    var maxDist := 0.0;
    pointA, pointB := None, None;
    ghost var best := Best(0.0, None);
    var i := 0;
    while i < |points|
      invariant 0 <= i <= |points|
      invariant Scan(DistSq, points, i, i + 1, best) == FurthestPair(points)
      invariant maxDist == best.maxD
      invariant Tracks(points, best, pointA, pointB)
    {
      var j := i + 1;
      while j < |points|
        invariant i + 1 <= j <= |points|
        invariant Scan(DistSq, points, i, j, best) == FurthestPair(points)
        invariant maxDist == best.maxD
        invariant Tracks(points, best, pointA, pointB)
      {
        var dist := DistSq(points[i], points[j]);
        if dist > maxDist {
          maxDist := dist;
          pointA, pointB := Some(points[i]), Some(points[j]);
          best := Best(dist, Some((i, j)));
        }
        j := j + 1;
      }
      i := i + 1;
    }
    assert Scan(DistSq, points, i, i + 1, best) == best;
  }
}
