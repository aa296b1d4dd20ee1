/**
 * Tolerance comparison of k-points and de-duplication of a k-point list
 * (`is_zero`, `member` and `unique` of pyscf/pbc/lib/kpts_helper.py).
 */
module KptDedup {

  /** A k-point: a vector of three real components. */
  datatype KPoint = KPoint(x: real, y: real, z: real)

  /** KPT_DIFF_TOL, at its default value. */
  const KptDiffTol: real := 0.000001

  function Abs(v: real): real { if v < 0.0 then -v else v }

  function Sub(a: KPoint, b: KPoint): KPoint {
    KPoint(a.x - b.x, a.y - b.y, a.z - b.z)
  }

  /** `is_zero`: the sum of the absolute components is below the tolerance. */
  predicate IsZero(k: KPoint) {
    Abs(k.x) + Abs(k.y) + Abs(k.z) < KptDiffTol
  }

  /** The closeness test of `member` and `unique`: the L1 distance is below the tolerance. */
  predicate Close(a: KPoint, b: KPoint) {
    IsZero(Sub(a, b))
  }

  /** Every k-point is close to itself (the tolerance is positive). */
  lemma {:induction false} CloseReflexive(a: KPoint)
    ensures Close(a, a)
  {
  }

  /** Closeness does not depend on the order of its arguments. */
  lemma {:induction false} CloseSymmetric(a: KPoint, b: KPoint)
    ensures Close(a, b) == Close(b, a)
  {
  }

  /**
   * `member(kpt, kpts)`: the indices of the candidates close to `k`, in
   * increasing order; all of them, and only them.
   */
  function Member(k: KPoint, kpts: seq<KPoint>): (r: seq<nat>)
    ensures forall j :: 0 <= j < |r| ==> r[j] < |kpts| && Close(kpts[r[j]], k)
    ensures forall i :: 0 <= i < |kpts| && Close(kpts[i], k) ==> i in r
    ensures forall j, j' :: 0 <= j < j' < |r| ==> r[j] < r[j']
  {
    if kpts == [] then []
    else
      var n := |kpts| - 1;
      Member(k, kpts[..n]) + (if Close(kpts[n], k) then [n] else [])
  }

  /** The masked assignment `a[idx] = v` where `idx` marks the points close to `kpt`. */
  function MaskAssign<V>(a: seq<V>, kpts: seq<KPoint>, kpt: KPoint, v: V): (r: seq<V>)
    requires |a| == |kpts|
    ensures |r| == |a|
    ensures forall j :: 0 <= j < |a| ==> r[j] == if j in Member(kpt, kpts) then v else a[j]
  {
    MaskIsMember(kpts, kpt);
    seq(|a|, j requires 0 <= j < |a| => if Close(kpt, kpts[j]) then v else a[j])
  }

  /** The mask `abs(kpt - kpts).sum(axis=1) < KPT_DIFF_TOL` marks exactly the indices `member(kpt, kpts)` returns. */
  lemma {:induction false} MaskIsMember(kpts: seq<KPoint>, kpt: KPoint)
    ensures forall j :: 0 <= j < |kpts| ==> (Close(kpt, kpts[j]) <==> j in Member(kpt, kpts))
  {
    forall j | 0 <= j < |kpts|
      ensures Close(kpt, kpts[j]) <==> j in Member(kpt, kpts)
    {
      CloseSymmetric(kpt, kpts[j]);
    }
  }

  /** The groups found so far: representatives in increasing index order, pairwise apart. */
  ghost predicate GroupsSoFar(kpts: seq<KPoint>, i: nat, reps: seq<KPoint>, repIndex: seq<nat>)
  {
    && |reps| == |repIndex|
    && (forall m :: 0 <= m < |repIndex| ==> repIndex[m] < i && repIndex[m] < |kpts| && reps[m] == kpts[repIndex[m]])
    && (forall m, m' :: 0 <= m < m' < |repIndex| ==> repIndex[m] < repIndex[m'])
    && (forall m, m' :: 0 <= m < m' < |reps| ==> !Close(reps[m], reps[m']))
  }

  /** What `seen` and `uniq_inverse` record about the groups found so far. */
  ghost predicate MarksSoFar(kpts: seq<KPoint>, i: nat, reps: seq<KPoint>, repIndex: seq<nat>, inverse: seq<nat>, seen: seq<bool>)
    requires GroupsSoFar(kpts, i, reps, repIndex)
  {
    && |inverse| == |seen| == |kpts|
    && (forall j :: 0 <= j < i && j < |kpts| ==> seen[j])
    && (forall j :: 0 <= j < |kpts| && seen[j] ==> inverse[j] < |reps| && Close(reps[inverse[j]], kpts[j]))
    && (forall j, m :: 0 <= j < |kpts| && seen[j] && inverse[j] < m < |reps| ==> !Close(reps[m], kpts[j]))
    && (forall j, m :: 0 <= j < |kpts| && !seen[j] && 0 <= m < |reps| ==> !Close(reps[m], kpts[j]))
    && (forall m :: 0 <= m < |repIndex| ==> inverse[repIndex[m]] == m)
  }

  /** Which of the indices scanned so far are representatives. */
  ghost predicate RepresentativesSoFar(kpts: seq<KPoint>, i: nat, reps: seq<KPoint>, repIndex: seq<nat>)
    requires GroupsSoFar(kpts, i, reps, repIndex)
  {
    forall j :: 0 <= j < i && j < |kpts| ==>
      (j in repIndex <==> forall m :: 0 <= m < |repIndex| && repIndex[m] < j ==> !Close(reps[m], kpts[j]))
  }

  ghost predicate Scanned(kpts: seq<KPoint>, i: nat, reps: seq<KPoint>, repIndex: seq<nat>, inverse: seq<nat>, seen: seq<bool>)
  {
    && GroupsSoFar(kpts, i, reps, repIndex)
    && MarksSoFar(kpts, i, reps, repIndex, inverse, seen)
    && RepresentativesSoFar(kpts, i, reps, repIndex)
  }

  /** Reaching an index that is already seen changes nothing. */
  lemma {:induction false} ScanSeen(kpts: seq<KPoint>, i: nat, reps: seq<KPoint>, repIndex: seq<nat>, inverse: seq<nat>, seen: seq<bool>)
    requires i < |kpts| && Scanned(kpts, i, reps, repIndex, inverse, seen) && seen[i]
    ensures Scanned(kpts, i + 1, reps, repIndex, inverse, seen)
  {
    assert repIndex[inverse[i]] < i;
  }

  /** The index reached, when not seen, is not close to any representative so far. */
  lemma {:induction false} NotSeenIsApart(kpts: seq<KPoint>, i: nat, reps: seq<KPoint>, repIndex: seq<nat>, inverse: seq<nat>, seen: seq<bool>)
    requires i < |kpts| && Scanned(kpts, i, reps, repIndex, inverse, seen) && !seen[i]
    ensures forall m :: 0 <= m < |reps| ==> !Close(reps[m], kpts[i]) && !Close(kpts[i], reps[m])
  {
    forall m | 0 <= m < |reps|
      ensures !Close(kpts[i], reps[m])
    {
      CloseSymmetric(kpts[i], reps[m]);
    }
  }

  /** Reaching an index that is not seen opens a new group, represented by it. */
  lemma {:induction false} ScanNewGroup(kpts: seq<KPoint>, i: nat, reps: seq<KPoint>, repIndex: seq<nat>, inverse: seq<nat>, seen: seq<bool>,
                     reps': seq<KPoint>, repIndex': seq<nat>, inverse': seq<nat>, seen': seq<bool>)
    requires i < |kpts| && Scanned(kpts, i, reps, repIndex, inverse, seen) && !seen[i]
    requires reps' == reps + [kpts[i]] && repIndex' == repIndex + [i]
    requires inverse' == MaskAssign(inverse, kpts, kpts[i], |reps|) && seen' == MaskAssign(seen, kpts, kpts[i], true)
    ensures Scanned(kpts, i + 1, reps', repIndex', inverse', seen')
  {
    NotSeenIsApart(kpts, i, reps, repIndex, inverse, seen);
    NewGroupKeepsGroups(kpts, i, reps, repIndex);
    NewGroupKeepsMarks(kpts, i, reps, repIndex, inverse, seen);
    NewGroupKeepsRepresentatives(kpts, i, reps, repIndex);
  }

  lemma {:induction false} NewGroupKeepsGroups(kpts: seq<KPoint>, i: nat, reps: seq<KPoint>, repIndex: seq<nat>)
    requires i < |kpts| && GroupsSoFar(kpts, i, reps, repIndex)
    requires forall m :: 0 <= m < |reps| ==> !Close(reps[m], kpts[i])
    ensures GroupsSoFar(kpts, i + 1, reps + [kpts[i]], repIndex + [i])
  {
  }

  lemma {:induction false} NewGroupKeepsMarks(kpts: seq<KPoint>, i: nat, reps: seq<KPoint>, repIndex: seq<nat>, inverse: seq<nat>, seen: seq<bool>)
    requires i < |kpts| && GroupsSoFar(kpts, i, reps, repIndex) && MarksSoFar(kpts, i, reps, repIndex, inverse, seen)
    requires GroupsSoFar(kpts, i + 1, reps + [kpts[i]], repIndex + [i])
    requires forall m :: 0 <= m < |reps| ==> !Close(kpts[i], reps[m])
    ensures MarksSoFar(kpts, i + 1, reps + [kpts[i]], repIndex + [i],
                       MaskAssign(inverse, kpts, kpts[i], |reps|), MaskAssign(seen, kpts, kpts[i], true))
  {
    CloseReflexive(kpts[i]);
  }

  lemma {:induction false} NewGroupKeepsRepresentatives(kpts: seq<KPoint>, i: nat, reps: seq<KPoint>, repIndex: seq<nat>)
    requires i < |kpts| && GroupsSoFar(kpts, i, reps, repIndex) && RepresentativesSoFar(kpts, i, reps, repIndex)
    requires GroupsSoFar(kpts, i + 1, reps + [kpts[i]], repIndex + [i])
    requires forall m :: 0 <= m < |reps| ==> !Close(reps[m], kpts[i])
    ensures RepresentativesSoFar(kpts, i + 1, reps + [kpts[i]], repIndex + [i])
  {
    var reps', repIndex' := reps + [kpts[i]], repIndex + [i];
    forall j | 0 <= j < i + 1
      ensures j in repIndex' <==> forall m :: 0 <= m < |repIndex'| && repIndex'[m] < j ==> !Close(reps'[m], kpts[j])
    {
      if j < i {
        assert j in repIndex' <==> j in repIndex;
        if forall m :: 0 <= m < |repIndex| && repIndex[m] < j ==> !Close(reps[m], kpts[j]) {
          forall m | 0 <= m < |repIndex'| && repIndex'[m] < j
            ensures !Close(reps'[m], kpts[j])
          {
            assert m < |repIndex|;
          }
        }
        if forall m :: 0 <= m < |repIndex'| && repIndex'[m] < j ==> !Close(reps'[m], kpts[j]) {
          forall m | 0 <= m < |repIndex| && repIndex[m] < j
            ensures !Close(reps[m], kpts[j])
          {
            assert repIndex'[m] == repIndex[m] && reps'[m] == reps[m];
          }
        }
      } else {
        assert j in repIndex' by { assert repIndex'[|repIndex|] == j; }
        forall m | 0 <= m < |repIndex'| && repIndex'[m] < j
          ensures !Close(reps'[m], kpts[j])
        {
          assert m < |reps|;
        }
      }
    }
  }

  /**
   * `unique(kpts)`: a left-to-right scan. An index not yet seen becomes the
   * representative of a new group `n`; every index close to it is then
   * marked seen and its inverse entry is overwritten with `n`.
   *
   * The results: the representatives are exactly the indices that are not
   * close to an earlier representative, in increasing order; they are
   * pairwise not close; each representative is in its own group; and each
   * index belongs to the LAST group whose representative is close to it.
   */
  method Unique(kpts: seq<KPoint>) returns (uniqKpts: seq<KPoint>, uniqIndex: seq<nat>, uniqInverse: seq<nat>)
    ensures |uniqKpts| == |uniqIndex|
    ensures forall m :: 0 <= m < |uniqIndex| ==> uniqIndex[m] < |kpts| && uniqKpts[m] == kpts[uniqIndex[m]]
    ensures forall m, m' :: 0 <= m < m' < |uniqIndex| ==> uniqIndex[m] < uniqIndex[m']
    ensures forall i :: 0 <= i < |kpts| ==>
      (i in uniqIndex <==> forall m :: 0 <= m < |uniqIndex| && uniqIndex[m] < i ==> !Close(uniqKpts[m], kpts[i]))
    ensures forall m, m' :: 0 <= m < m' < |uniqKpts| ==> !Close(uniqKpts[m], uniqKpts[m'])
    ensures |uniqInverse| == |kpts|
    ensures forall i :: 0 <= i < |kpts| ==> uniqInverse[i] < |uniqKpts| && Close(uniqKpts[uniqInverse[i]], kpts[i])
    ensures forall i, m :: 0 <= i < |kpts| && uniqInverse[i] < m < |uniqKpts| ==> !Close(uniqKpts[m], kpts[i])
    ensures forall m :: 0 <= m < |uniqIndex| ==> uniqInverse[uniqIndex[m]] == m
  {
    var nkpts := |kpts|;
    uniqKpts, uniqIndex := [], [];
    var inverse := new nat[nkpts](_ => 0);
    var seen := new bool[nkpts](_ => false);
    var n := 0;
    for i := 0 to nkpts
      invariant n == |uniqKpts|
      invariant Scanned(kpts, i, uniqKpts, uniqIndex, inverse[..], seen[..])
    {
      if !seen[i] {
        ghost var reps, repIndex, inverse0, seen0 := uniqKpts, uniqIndex, inverse[..], seen[..];
        var kpt := kpts[i];
        uniqKpts := uniqKpts + [kpt];
        uniqIndex := uniqIndex + [i];
        MarkGroup(kpts, kpt, n, inverse, seen);
        ScanNewGroup(kpts, i, reps, repIndex, inverse0, seen0, uniqKpts, uniqIndex, inverse[..], seen[..]);
        n := n + 1;
      } else {
        ScanSeen(kpts, i, uniqKpts, uniqIndex, inverse[..], seen[..]);
      }
    }
    uniqInverse := inverse[..];
  }

  /** Lines 52-54: the masked writes `uniq_inverse[idx] = n` and `seen[idx] = True`. */
  method MarkGroup(kpts: seq<KPoint>, kpt: KPoint, n: nat, inverse: array<nat>, seen: array<bool>)
    requires inverse.Length == seen.Length == |kpts|
    modifies inverse, seen
    ensures inverse[..] == MaskAssign(old(inverse[..]), kpts, kpt, n)
    ensures seen[..] == MaskAssign(old(seen[..]), kpts, kpt, true)
  {
    forall j | 0 <= j < |kpts| && Close(kpt, kpts[j]) {
      inverse[j] := n;
    }
    forall j | 0 <= j < |kpts| && Close(kpt, kpts[j]) {
      seen[j] := true;
    }
  }
}
