/**
 * `removeDuplicatePoints`: `points.filter((p, i, arr) => arr.findIndex(q => distance(p, q) < 1e-6) === i)`
 * of the live and third variants, and the identity the second variant returns instead.
 */
module Dedup {
  import opened Geometry

  /**
   * The filter is stated for any closeness test `near`; the source's is `Near`, the 1e-6 tolerance. Every
   * property below needs only that a point is near itself.
   */
  type NearTest = (Vec3, Vec3) -> bool

  ghost predicate Reflexive(near: NearTest) {
    forall p :: near(p, p)
  }

  /** `arr.findIndex(q => vec3.distance(p, q) < 1e-6)`, searching from index `from`: the first near point, or -1. */
  function FindNearFrom(near: NearTest, ps: seq<Vec3>, p: Vec3, from: nat): (k: int)
    requires from <= |ps|
    ensures k == -1 || from <= k < |ps|
    ensures k >= 0 ==> near(p, ps[k]) && forall j :: from <= j < k ==> !near(p, ps[j])
    ensures k == -1 ==> forall j :: from <= j < |ps| ==> !near(p, ps[j])
    decreases |ps| - from
  {
    if from == |ps| then -1
    else if near(p, ps[from]) then from
    else FindNearFrom(near, ps, p, from + 1)
  }

  function FindNearIndex(near: NearTest, ps: seq<Vec3>, p: Vec3): int {
    FindNearFrom(near, ps, p, 0)
  }

  /** The filter's test for index `i`: the first point near `ps[i]` is `ps[i]` itself. */
  predicate Kept(near: NearTest, ps: seq<Vec3>, i: int)
    requires 0 <= i < |ps|
  {
    FindNearIndex(near, ps, ps[i]) == i
  }

  /** A point is kept exactly when no earlier point is near it. */
  lemma KeptIff(near: NearTest, ps: seq<Vec3>, i: int)
    requires Reflexive(near) && 0 <= i < |ps|
    ensures Kept(near, ps, i) <==> forall j :: 0 <= j < i ==> !near(ps[i], ps[j])
  {
    assert near(ps[i], ps[i]);
  }

  /** `filter` over the first `n` indices. */
  function FilterKept(near: NearTest, ps: seq<Vec3>, n: nat): seq<Vec3>
    requires n <= |ps|
  {
    if n == 0 then []
    else FilterKept(near, ps, n - 1) + (if Kept(near, ps, n - 1) then [ps[n - 1]] else [])
  }

  function DedupBy(near: NearTest, ps: seq<Vec3>): seq<Vec3> {
    FilterKept(near, ps, |ps|)
  }

  /** No point is near an earlier one. */
  predicate SeparatedBy(near: NearTest, ps: seq<Vec3>) {
    forall a, b :: 0 <= a < b < |ps| ==> !near(ps[b], ps[a])
  }

  /** The kept indices below `n`, in increasing order: exactly the indices the filter keeps. */
  function KeptIndices(near: NearTest, ps: seq<Vec3>, n: nat): (idx: seq<int>)
    requires n <= |ps|
    ensures forall k :: 0 <= k < |idx| ==> 0 <= idx[k] < n && Kept(near, ps, idx[k])
    ensures forall k, l :: 0 <= k < l < |idx| ==> idx[k] < idx[l]
    ensures forall i :: 0 <= i < n && Kept(near, ps, i) ==> i in idx
  {
    if n == 0 then []
    else KeptIndices(near, ps, n - 1) + (if Kept(near, ps, n - 1) then [n - 1] else [])
  }

  /** The points at the given indices. */
  function Pick(ps: seq<Vec3>, idx: seq<int>): (r: seq<Vec3>)
    requires forall k :: 0 <= k < |idx| ==> 0 <= idx[k] < |ps|
    ensures |r| == |idx| && forall k :: 0 <= k < |idx| ==> r[k] == ps[idx[k]]
  {
    if idx == [] then [] else Pick(ps, idx[..|idx| - 1]) + [ps[idx[|idx| - 1]]]
  }

  lemma PickAppend(ps: seq<Vec3>, idx: seq<int>, i: int)
    requires forall k :: 0 <= k < |idx| ==> 0 <= idx[k] < |ps|
    requires 0 <= i < |ps|
    ensures Pick(ps, idx + [i]) == Pick(ps, idx) + [ps[i]]
  {
    assert (idx + [i])[..|idx|] == idx;
  }

  /**
   * The filter's result is the subsequence of `ps` at the kept indices: order is preserved and every
   * kept point, and nothing else, is in it.
   */
  lemma {:induction false} FilterIsPick(near: NearTest, ps: seq<Vec3>, n: nat)
    requires n <= |ps|
    ensures FilterKept(near, ps, n) == Pick(ps, KeptIndices(near, ps, n))
  {
    if n > 0 {
      FilterIsPick(near, ps, n - 1);
      var idx, next := KeptIndices(near, ps, n - 1), KeptIndices(near, ps, n);
      if Kept(near, ps, n - 1) {
        assert next == idx + [n - 1];
        PickAppend(ps, idx, n - 1);
        assert FilterKept(near, ps, n) == FilterKept(near, ps, n - 1) + [ps[n - 1]];
      } else {
        assert next == idx;
        assert FilterKept(near, ps, n) == FilterKept(near, ps, n - 1);
      }
    }
  }

  /** The filter returns points of its input only. */
  lemma DedupByFromInput(near: NearTest, ps: seq<Vec3>)
    ensures forall x :: x in DedupBy(near, ps) ==> x in ps
  {
    FilterIsPick(near, ps, |ps|);
    var idx := KeptIndices(near, ps, |ps|);
    forall x | x in Pick(ps, idx)
      ensures x in ps
    {
      var k :| 0 <= k < |idx| && Pick(ps, idx)[k] == x;
      assert x == ps[idx[k]];
    }
  }

  lemma FirstKeptBy(near: NearTest, ps: seq<Vec3>)
    requires Reflexive(near) && |ps| > 0
    ensures |DedupBy(near, ps)| > 0 && DedupBy(near, ps)[0] == ps[0]
  {
    KeptIff(near, ps, 0);
    FilterIsPick(near, ps, |ps|);
    var idx := KeptIndices(near, ps, |ps|);
    assert 0 in idx;
    assert idx[0] == 0;
  }

  lemma SeparatedByResult(near: NearTest, ps: seq<Vec3>)
    requires Reflexive(near)
    ensures SeparatedBy(near, DedupBy(near, ps))
  {
    FilterIsPick(near, ps, |ps|);
    var idx := KeptIndices(near, ps, |ps|);
    var r := DedupBy(near, ps);
    forall a, b | 0 <= a < b < |r|
      ensures !near(r[b], r[a])
    {
      KeptIff(near, ps, idx[b]);
    }
  }

  lemma {:induction false} FilterOfSeparated(near: NearTest, ps: seq<Vec3>, n: nat)
    requires Reflexive(near) && n <= |ps| && SeparatedBy(near, ps)
    ensures FilterKept(near, ps, n) == ps[..n]
  {
    if n > 0 {
      FilterOfSeparated(near, ps, n - 1);
      KeptIff(near, ps, n - 1);
      assert ps[..n] == ps[..n - 1] + [ps[n - 1]];
    }
  }

  // ---------------------------------------------------------------------------------------------------
  // The source's filter, with the 1e-6 tolerance.

  lemma NearReflexive()
    ensures Reflexive(Near)
  {
    forall p: Vec3
      ensures Near(p, p)
    {
      DistSqSelf(p);
    }
  }

  /** `removeDuplicatePoints` of the live and third variants. */
  function RemoveDuplicatePoints(ps: seq<Vec3>): seq<Vec3> {
    DedupBy(Near, ps)
  }

  /** `removeDuplicatePoints` of the second variant, whose filter is commented out: the identity. */
  function RemoveDuplicatePointsV2(ps: seq<Vec3>): seq<Vec3> {
    ps
  }

  /** No point lies within the tolerance of an earlier one. */
  predicate Separated(ps: seq<Vec3>) {
    SeparatedBy(Near, ps)
  }

  /** A point survives exactly when no earlier point lies within the tolerance. */
  lemma KeptIffNoEarlierNear(ps: seq<Vec3>, i: int)
    requires 0 <= i < |ps|
    ensures Kept(Near, ps, i) <==> forall j :: 0 <= j < i ==> !Near(ps[i], ps[j])
  {
    NearReflexive();
    KeptIff(Near, ps, i);
  }

  /** The result is the subsequence of `ps` at the surviving indices, in their original order. */
  lemma RemoveDuplicatePointsIsSubsequence(ps: seq<Vec3>)
    ensures RemoveDuplicatePoints(ps) == Pick(ps, KeptIndices(Near, ps, |ps|))
  {
    FilterIsPick(Near, ps, |ps|);
  }

  /** Every point of the result is a point of the input. */
  lemma RemoveDuplicatePointsFromInput(ps: seq<Vec3>)
    ensures forall x :: x in RemoveDuplicatePoints(ps) ==> x in ps
  {
    DedupByFromInput(Near, ps);
  }

  /** The first point always survives. */
  lemma FirstPointKept(ps: seq<Vec3>)
    requires |ps| > 0
    ensures |RemoveDuplicatePoints(ps)| > 0 && RemoveDuplicatePoints(ps)[0] == ps[0]
  {
    NearReflexive();
    FirstKeptBy(Near, ps);
  }

  /** The deduplicated points are pairwise separated. */
  lemma ResultSeparated(ps: seq<Vec3>)
    ensures Separated(RemoveDuplicatePoints(ps))
  {
    NearReflexive();
    SeparatedByResult(Near, ps);
  }

  /** A separated input is returned unchanged. */
  lemma SeparatedUnchanged(ps: seq<Vec3>)
    requires Separated(ps)
    ensures RemoveDuplicatePoints(ps) == ps
  {
    NearReflexive();
    FilterOfSeparated(Near, ps, |ps|);
    assert ps[..|ps|] == ps;
  }

  /** Deduplicating twice is deduplicating once. */
  lemma RemoveDuplicatePointsIdempotent(ps: seq<Vec3>)
    ensures RemoveDuplicatePoints(RemoveDuplicatePoints(ps)) == RemoveDuplicatePoints(ps)
  {
    ResultSeparated(ps);
    SeparatedUnchanged(RemoveDuplicatePoints(ps));
  }

  /** The second variant agrees with the others on separated input ... */
  lemma V2AgreesOnSeparated(ps: seq<Vec3>)
    requires Separated(ps)
    ensures RemoveDuplicatePointsV2(ps) == RemoveDuplicatePoints(ps)
  {
    SeparatedUnchanged(ps);
  }

  lemma RepeatCollapsesBy(near: NearTest, ps: seq<Vec3>)
    requires Reflexive(near) && |ps| == 2 && ps[0] == ps[1]
    ensures DedupBy(near, ps) == [ps[0]]
  {
    assert FindNearIndex(near, ps, ps[0]) == 0;
    assert FindNearIndex(near, ps, ps[1]) == 0;
    assert FilterKept(near, ps, 1) == [ps[0]];
  }

  /** `ps` with a copy of `ps[i]` inserted at position `j`. */
  function WithCopy(ps: seq<Vec3>, i: nat, j: nat): (qs: seq<Vec3>)
    requires i < j <= |ps|
    ensures |qs| == |ps| + 1 && qs[j] == ps[i]
    ensures forall k :: 0 <= k < j ==> qs[k] == ps[k]
    ensures forall k :: j < k < |qs| ==> qs[k] == ps[k - 1]
  {
    ps[..j] + [ps[i]] + ps[j..]
  }

  /** In a separated list with a copy inserted, exactly the copy fails the filter's test. */
  lemma KeptWithCopy(near: NearTest, ps: seq<Vec3>, i: nat, j: nat, m: nat)
    requires Reflexive(near) && SeparatedBy(near, ps) && i < j <= |ps| && m < |ps| + 1
    ensures Kept(near, WithCopy(ps, i, j), m) <==> m != j
  {
    var qs := WithCopy(ps, i, j);
    KeptIff(near, qs, m);
    if m == j {
      assert near(qs[m], qs[i]);
    } else {
      forall k | 0 <= k < m
        ensures !near(qs[m], qs[k])
      {
        var pm := if m < j then m else m - 1;
        var pk := if k < j then k else if k == j then i else k - 1;
        assert qs[m] == ps[pm] && qs[k] == ps[pk] && pk < pm;
      }
    }
  }

  /**
   * Filtering a separated list with a copy of `ps[i]` inserted at position `j > i`: the first `n`
   * indices keep `ps[..n]` up to the copy, and the copy itself is dropped.
   */
  lemma {:induction false} FilterWithCopy(near: NearTest, ps: seq<Vec3>, i: nat, j: nat, n: nat)
    requires Reflexive(near) && SeparatedBy(near, ps) && i < j <= |ps| && n <= |ps| + 1
    ensures FilterKept(near, WithCopy(ps, i, j), n) == if n <= j then ps[..n] else ps[..n - 1]
  {
    var qs := WithCopy(ps, i, j);
    if n > 0 {
      FilterWithCopy(near, ps, i, j, n - 1);
      KeptWithCopy(near, ps, i, j, n - 1);
      if n - 1 < j {
        assert qs[n - 1] == ps[n - 1];
        assert ps[..n] == ps[..n - 1] + [ps[n - 1]];
      } else if n - 1 > j {
        assert qs[n - 1] == ps[n - 2];
        assert ps[..n - 1] == ps[..n - 2] + [ps[n - 2]];
      }
    }
  }

  /** Inserting an exact copy of one of its points after that point leaves a separated list's result unchanged. */
  lemma DuplicateDroppedBy(near: NearTest, ps: seq<Vec3>, i: nat, j: nat)
    requires Reflexive(near) && SeparatedBy(near, ps) && i < j <= |ps|
    ensures DedupBy(near, WithCopy(ps, i, j)) == ps
  {
    FilterWithCopy(near, ps, i, j, |ps| + 1);
    assert ps[..|ps|] == ps;
  }

  /**
   * A list with an exact duplicate gives one element fewer: a copy of `ps[i]` inserted anywhere after
   * it in a separated list is removed, and nothing else is.
   */
  lemma ExactDuplicateDropped(ps: seq<Vec3>, i: nat, j: nat)
    requires Separated(ps) && i < j <= |ps|
    ensures RemoveDuplicatePoints(ps[..j] + [ps[i]] + ps[j..]) == ps
    ensures |RemoveDuplicatePoints(ps[..j] + [ps[i]] + ps[j..])| == |ps| == |ps[..j] + [ps[i]] + ps[j..]| - 1
  {
    NearReflexive();
    DuplicateDroppedBy(Near, ps, i, j);
  }

  /**
   * ... and differs from them on a repeated point: the filter collapses `[p, p]` to `[p]`, while the
   * identity keeps both copies.
   */
  lemma RepeatedPointCollapses(ps: seq<Vec3>)
    requires |ps| == 2 && ps[0] == ps[1]
    ensures RemoveDuplicatePoints(ps) == [ps[0]]
  {
    NearReflexive();
    RepeatCollapsesBy(Near, ps);
  }
}
