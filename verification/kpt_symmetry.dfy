/**
 * The k-point triple enumeration `loop_kkk`, the symmetry-orbit builder
 * `KptsHelper.__init__` and the tensor transformer `KptsHelper.transform_symm`
 * (pyscf/pbc/lib/kpts_helper.py).
 */
module KptSymmetry {

  import opened EriTensor

  /** An ordered triple of k-point indices (p, q, r). */
  datatype Triple = Triple(p: nat, q: nat, r: nat)

  predicate InRange(n: nat, t: Triple) {
    t.p < n && t.q < n && t.r < n
  }

  /** Strict lexicographic order on triples. */
  predicate Lex(a: Triple, b: Triple) {
    a.p < b.p || (a.p == b.p && (a.q < b.q || (a.q == b.q && a.r < b.r)))
  }

  /**
   * The triples of `range(n)³` from (p, q, r) on, in the order
   * `itertools.product` yields them; q == n or r == n stands for a carry.
   */
  function ProductFrom(n: nat, p: nat, q: nat, r: nat): (ts: seq<Triple>)
    requires p <= n && q <= n && r <= n
    ensures forall t :: t in ts <==> InRange(n, t) && !Lex(t, Triple(p, q, r))
    ensures forall i, j :: 0 <= i < j < |ts| ==> Lex(ts[i], ts[j])
    decreases n - p, n - q, n - r
  {
    if p == n then []
    else if q == n then ProductFrom(n, p + 1, 0, 0)
    else if r == n then ProductFrom(n, p, q + 1, 0)
    else
      var rest := ProductFrom(n, p, q, r + 1);
      assert forall t :: t in rest ==> Lex(Triple(p, q, r), t);
      [Triple(p, q, r)] + rest
  }

  /**
   * `loop_kkk(nkpts)`: every triple of `range(nkpts)³` exactly once, in
   * strictly increasing lexicographic order.
   */
  function LoopKKK(nkpts: nat): (ts: seq<Triple>)
    ensures forall t :: t in ts <==> InRange(nkpts, t)
    ensures forall i, j :: 0 <= i < j < |ts| ==> Lex(ts[i], ts[j])
  {
    ProductFrom(nkpts, 0, 0, 0)
  }

  /**
   * A momentum-conservation table, `kconserv[p][q][r]`; it is only read here,
   * so it is held as a value.
   */
  type Conserv = seq<seq<seq<int>>>

  /** A table for `n` k-points: n×n×n entries, each an index below n. */
  ghost predicate ConservTable(n: nat, kconserv: Conserv) {
    && |kconserv| == n
    && (forall p :: 0 <= p < n ==> |kconserv[p]| == n)
    && (forall p, q :: 0 <= p < n && 0 <= q < n ==> |kconserv[p][q]| == n)
    && (forall p, q, r :: 0 <= p < n && 0 <= q < n && 0 <= r < n ==> 0 <= kconserv[p][q][r] < n)
  }

  /**
   * The four triples the builder records for (p, q, r), with s = kconserv[p, q, r]:
   * operation 0 on (p, q, r), 1 on (r, s, p), 2 on (q, p, s), 3 on (s, r, q).
   */
  function Orbit(kconserv: Conserv, t: Triple): (o: seq<Triple>)
    requires ConservTable(|kconserv|, kconserv) && InRange(|kconserv|, t)
  {
    var s := kconserv[t.p][t.q][t.r] as nat;
    [t, Triple(t.r, s, t.p), Triple(t.q, t.p, s), Triple(s, t.r, t.q)]
  }

  /** The operation code of `t` after codes `0 .. m-1` were written to `o[0] .. o[m-1]` over `prev`. */
  function Stamped(o: seq<Triple>, m: nat, t: Triple, prev: nat): (c: nat)
    requires m <= |o|
    ensures (exists j :: 0 <= j < m && o[j] == t) ==>
      0 <= c < m && o[c] == t && forall j :: c < j < m ==> o[j] != t
    ensures (forall j :: 0 <= j < m ==> o[j] != t) ==> c == prev
  {
    if m == 0 then prev
    else if o[m - 1] == t then m - 1
    else Stamped(o, m - 1, t, prev)
  }

  /**
   * The operation code left at `t` after the orbits of `keys` were written in
   * order: the position of `t` in the last orbit that holds it, 0 if none.
   */
  function LastOp(kconserv: Conserv, keys: seq<Triple>, t: Triple): (op: nat)
    requires ConservTable(|kconserv|, kconserv)
    requires forall k :: k in keys ==> InRange(|kconserv|, k)
    ensures op < 4
  {
    if keys == [] then 0
    else Stamped(Orbit(kconserv, keys[|keys| - 1]), 4, t, LastOp(kconserv, keys[..|keys| - 1], t))
  }

  /** `t` belongs to the orbit of one of `keys`. */
  ghost predicate Covered(kconserv: Conserv, keys: seq<Triple>, t: Triple)
    requires ConservTable(|kconserv|, kconserv)
    requires forall k :: k in keys ==> InRange(|kconserv|, k)
  {
    exists j :: 0 <= j < |keys| && t in Orbit(kconserv, keys[j])
  }

  /** Extending the keys by one orbit: what is covered, and which code is left where. */
  lemma {:induction false} ExtendKeys(kconserv: Conserv, keys: seq<Triple>, k: Triple, t: Triple)
    requires ConservTable(|kconserv|, kconserv)
    requires forall k' :: k' in keys ==> InRange(|kconserv|, k')
    requires InRange(|kconserv|, k)
    ensures Covered(kconserv, keys + [k], t) == (Covered(kconserv, keys, t) || t in Orbit(kconserv, k))
    ensures LastOp(kconserv, keys + [k], t) == Stamped(Orbit(kconserv, k), 4, t, LastOp(kconserv, keys, t))
  {
    var keys' := keys + [k];
    assert keys'[..|keys|] == keys;
    if Covered(kconserv, keys', t) && !(t in Orbit(kconserv, k)) {
      var j :| 0 <= j < |keys'| && t in Orbit(kconserv, keys'[j]);
      assert j < |keys| && keys[j] == keys'[j];
    }
    if Covered(kconserv, keys, t) {
      var j :| 0 <= j < |keys| && t in Orbit(kconserv, keys[j]);
      assert keys'[j] == keys[j];
    }
    if t in Orbit(kconserv, k) {
      assert keys'[|keys|] == k;
    }
  }

  /** The `completed` and `_operation` arrays after the orbits of `keys` were written. */
  ghost predicate Marks(n: nat, kconserv: Conserv, keys: seq<Triple>, completed: array3<bool>, op: array3<int>)
    reads completed, op
  {
    && ConservTable(n, kconserv)
    && (forall k :: k in keys ==> InRange(n, k))
    && completed.Length0 == n && completed.Length1 == n && completed.Length2 == n
    && op.Length0 == n && op.Length1 == n && op.Length2 == n
    && (forall p, q, r :: 0 <= p < n && 0 <= q < n && 0 <= r < n ==>
          completed[p, q, r] == Covered(kconserv, keys, Triple(p, q, r)))
    && (forall p, q, r :: 0 <= p < n && 0 <= q < n && 0 <= r < n ==>
          op[p, q, r] == LastOp(kconserv, keys, Triple(p, q, r)))
  }

  /**
   * The arrays while the orbit `o` of a new key is being written, after its
   * first `m` members, over what the earlier keys left: `covered` tells which
   * triples were completed, `last` which code each one holds.
   */
  ghost predicate PartialMarks(n: nat, o: seq<Triple>, m: nat, completed: array3<bool>, op: array3<int>,
                               covered: Triple -> bool, last: Triple -> nat)
    reads completed, op
  {
    && m <= |o|
    && completed.Length0 == n && completed.Length1 == n && completed.Length2 == n
    && op.Length0 == n && op.Length1 == n && op.Length2 == n
    && (forall p, q, r :: 0 <= p < n && 0 <= q < n && 0 <= r < n ==>
          completed[p, q, r] == (covered(Triple(p, q, r)) || Triple(p, q, r) in o[..m]))
    && (forall p, q, r :: 0 <= p < n && 0 <= q < n && 0 <= r < n ==>
          op[p, q, r] == Stamped(o, m, Triple(p, q, r), last(Triple(p, q, r))))
  }

  /**
   * The writes `completed[t] = True; _operation[t] = m` and the append of
   * `t` to the orbit's list, for the member `t = o[m]`.
   */
  method Stamp(n: nat, o: seq<Triple>, m: nat, completed: array3<bool>, op: array3<int>,
               ghost covered: Triple -> bool, ghost last: Triple -> nat, members: seq<Triple>)
    returns (members': seq<Triple>)
    requires PartialMarks(n, o, m, completed, op, covered, last)
    requires m < |o| && InRange(n, o[m]) && members == o[..m]
    modifies completed, op
    ensures PartialMarks(n, o, m + 1, completed, op, covered, last)
    ensures members' == o[..m + 1]
  {
    var Triple(p, q, r) := o[m];
    assert o[..m + 1] == o[..m] + [o[m]];
    completed[p, q, r] := true;
    op[p, q, r] := m;
    members' := members + [Triple(p, q, r)];
  }

  /** The four members of an orbit are triples of k-point indices. */
  lemma {:induction false} OrbitInRange(kconserv: Conserv, t: Triple)
    requires ConservTable(|kconserv|, kconserv) && InRange(|kconserv|, t)
    ensures var o := Orbit(kconserv, t);
      |o| == 4 && InRange(|kconserv|, o[0]) && InRange(|kconserv|, o[1]) &&
      InRange(|kconserv|, o[2]) && InRange(|kconserv|, o[3])
  {
  }

  /** Lines 427-444: mark the orbit of `kpt` completed and write its operation codes. */
  method RecordOrbit(n: nat, kconserv: Conserv, keys: seq<Triple>, kpt: Triple,
                     completed: array3<bool>, op: array3<int>) returns (members: seq<Triple>)
    requires Marks(n, kconserv, keys, completed, op) && InRange(n, kpt)
    modifies completed, op
    ensures Marks(n, kconserv, keys + [kpt], completed, op)
    ensures members == Orbit(kconserv, kpt)
  {
    var o := Orbit(kconserv, kpt);
    OrbitInRange(kconserv, kpt);
    ghost var covered := t => Covered(kconserv, keys, t);
    ghost var last := t => LastOp(kconserv, keys, t);
    MarksBeforeOrbit(n, kconserv, keys, o, completed, op, covered, last);
    members := WriteOrbit(n, o, completed, op, covered, last);
    MarksAfterOrbit(n, kconserv, keys, kpt, completed, op, covered, last);
  }

  /** Before the first write, the arrays describe the earlier keys and nothing of the new orbit. */
  lemma {:induction false} MarksBeforeOrbit(n: nat, kconserv: Conserv, keys: seq<Triple>, o: seq<Triple>,
                         completed: array3<bool>, op: array3<int>, covered: Triple -> bool, last: Triple -> nat)
    requires Marks(n, kconserv, keys, completed, op)
    requires forall t :: covered(t) == Covered(kconserv, keys, t)
    requires forall t :: last(t) == LastOp(kconserv, keys, t)
    ensures PartialMarks(n, o, 0, completed, op, covered, last)
  {
    assert o[..0] == [];
    forall p, q, r | 0 <= p < n && 0 <= q < n && 0 <= r < n
      ensures completed[p, q, r] == (covered(Triple(p, q, r)) || Triple(p, q, r) in o[..0])
      ensures op[p, q, r] == Stamped(o, 0, Triple(p, q, r), last(Triple(p, q, r)))
    {
    }
  }

  /** Lines 430-443: the four members of the orbit `o`, written in order with codes 0, 1, 2, 3. */
  method WriteOrbit(n: nat, o: seq<Triple>, completed: array3<bool>, op: array3<int>,
                    ghost covered: Triple -> bool, ghost last: Triple -> nat) returns (members: seq<Triple>)
    requires PartialMarks(n, o, 0, completed, op, covered, last)
    requires |o| == 4 && forall j :: 0 <= j < 4 ==> InRange(n, o[j])
    modifies completed, op
    ensures PartialMarks(n, o, 4, completed, op, covered, last)
    ensures members == o
  {
    members := [];
    for m := 0 to 4
      invariant PartialMarks(n, o, m, completed, op, covered, last) && members == o[..m]
    {
      members := Stamp(n, o, m, completed, op, covered, last, members);
    }
    assert o[..4] == o;
  }

  /** Once the whole orbit of `kpt` is written, the arrays describe the keys extended by `kpt`. */
  lemma {:induction false} MarksAfterOrbit(n: nat, kconserv: Conserv, keys: seq<Triple>, kpt: Triple,
                        completed: array3<bool>, op: array3<int>, covered: Triple -> bool, last: Triple -> nat)
    requires ConservTable(n, kconserv) && InRange(n, kpt) && (forall k :: k in keys ==> InRange(n, k))
    requires forall t :: covered(t) == Covered(kconserv, keys, t)
    requires forall t :: last(t) == LastOp(kconserv, keys, t)
    requires PartialMarks(n, Orbit(kconserv, kpt), 4, completed, op, covered, last)
    ensures Marks(n, kconserv, keys + [kpt], completed, op)
  {
    var o := Orbit(kconserv, kpt);
    assert o[..4] == o;
    forall p, q, r | 0 <= p < n && 0 <= q < n && 0 <= r < n
      ensures completed[p, q, r] == Covered(kconserv, keys + [kpt], Triple(p, q, r))
      ensures op[p, q, r] == LastOp(kconserv, keys + [kpt], Triple(p, q, r))
    {
      ExtendKeys(kconserv, keys, kpt, Triple(p, q, r));
    }
  }

  /** The keys chosen so far, in order, each mapped to its orbit. */
  ghost predicate KeyTable(kconserv: Conserv, keys: seq<Triple>, smap: map<Triple, seq<Triple>>) {
    && ConservTable(|kconserv|, kconserv)
    && (forall k :: k in smap <==> k in keys)
    && (forall k :: k in keys ==> InRange(|kconserv|, k))
    && (forall a, b :: 0 <= a < b < |keys| ==> Lex(keys[a], keys[b]))
    && (forall k :: k in smap ==> smap[k] == Orbit(kconserv, k))
  }

  /** Every key precedes the triples from `kptlist[i]` on. */
  ghost predicate KeysBefore(keys: seq<Triple>, kptlist: seq<Triple>, i: nat) {
    forall k, b :: k in keys && i <= b < |kptlist| ==> Lex(k, kptlist[b])
  }

  /** `t` is a key exactly when no earlier key's orbit holds it. */
  ghost predicate FirstOfOrbit(smap: map<Triple, seq<Triple>>, t: Triple) {
    t in smap <==> forall k :: k in smap && Lex(k, t) ==> t !in smap[k]
  }

  /** The keys chosen while sweeping `kptlist[..i]`. */
  ghost predicate KeysSoFar(kconserv: Conserv, kptlist: seq<Triple>, i: nat, keys: seq<Triple>, smap: map<Triple, seq<Triple>>)
    requires i <= |kptlist|
  {
    && KeyTable(kconserv, keys, smap)
    && KeysBefore(keys, kptlist, i)
    && (forall a :: 0 <= a < i ==> Covered(kconserv, keys, kptlist[a]))
    && (forall a :: 0 <= a < i ==> FirstOfOrbit(smap, kptlist[a]))
  }

  /** A swept triple already completed is not a key. */
  lemma {:induction false} SweepCompleted(kconserv: Conserv, kptlist: seq<Triple>, i: nat, keys: seq<Triple>, smap: map<Triple, seq<Triple>>)
    requires i < |kptlist| && KeysSoFar(kconserv, kptlist, i, keys, smap)
    requires forall a, b :: 0 <= a < b < |kptlist| ==> Lex(kptlist[a], kptlist[b])
    requires Covered(kconserv, keys, kptlist[i])
    ensures KeysSoFar(kconserv, kptlist, i + 1, keys, smap)
  {
    var t := kptlist[i];
    var j :| 0 <= j < |keys| && t in Orbit(kconserv, keys[j]);
    assert keys[j] in smap && Lex(keys[j], t) && t in smap[keys[j]];
    NotYetAKey(keys, kptlist, i);
    assert FirstOfOrbit(smap, t);
  }

  /** Every key precedes the triples still to be swept, so none of them is a key yet. */
  lemma {:induction false} NotYetAKey(keys: seq<Triple>, kptlist: seq<Triple>, i: nat)
    requires i < |kptlist| && KeysBefore(keys, kptlist, i)
    ensures kptlist[i] !in keys
  {
  }

  /** A swept triple not yet completed becomes the next key. */
  lemma {:induction false} SweepNewKey(kconserv: Conserv, kptlist: seq<Triple>, i: nat, keys: seq<Triple>, smap: map<Triple, seq<Triple>>)
    requires i < |kptlist| && KeysSoFar(kconserv, kptlist, i, keys, smap)
    requires forall a, b :: 0 <= a < b < |kptlist| ==> Lex(kptlist[a], kptlist[b])
    requires InRange(|kconserv|, kptlist[i]) && !Covered(kconserv, keys, kptlist[i])
    ensures var t := kptlist[i];
      KeysSoFar(kconserv, kptlist, i + 1, keys + [t], smap[t := Orbit(kconserv, t)])
  {
    var t := kptlist[i];
    var keys', smap' := keys + [t], smap[t := Orbit(kconserv, t)];
    NotYetAKey(keys, kptlist, i);
    NewKeySorted(kconserv, kptlist, i, keys, smap);
    assert KeyTable(kconserv, keys', smap');
    assert KeysBefore(keys', kptlist, i + 1);
    NewKeyCovers(kconserv, kptlist, i, keys);
    NewKeyIsFirst(kconserv, kptlist, i, keys, smap);
    forall a | 0 <= a < i + 1
      ensures FirstOfOrbit(smap', kptlist[a])
    {
      if a < i {
        FirstKept(smap, t, Orbit(kconserv, t), kptlist[a]);
      }
    }
  }

  /** Adding a key after `u` changes nothing about whether `u` is first in its orbit. */
  lemma {:induction false} FirstKept(smap: map<Triple, seq<Triple>>, t: Triple, orbit: seq<Triple>, u: Triple)
    requires Lex(u, t) && FirstOfOrbit(smap, u)
    ensures FirstOfOrbit(smap[t := orbit], u)
  {
  }

  lemma {:induction false} NewKeyCovers(kconserv: Conserv, kptlist: seq<Triple>, i: nat, keys: seq<Triple>)
    requires ConservTable(|kconserv|, kconserv) && i < |kptlist|
    requires forall k :: k in keys ==> InRange(|kconserv|, k)
    requires InRange(|kconserv|, kptlist[i])
    requires forall a :: 0 <= a < i ==> Covered(kconserv, keys, kptlist[a])
    ensures forall a :: 0 <= a < i + 1 ==> Covered(kconserv, keys + [kptlist[i]], kptlist[a])
  {
    forall a | 0 <= a < i + 1
      ensures Covered(kconserv, keys + [kptlist[i]], kptlist[a])
    {
      ExtendKeys(kconserv, keys, kptlist[i], kptlist[a]);
    }
  }

  lemma {:induction false} NewKeySorted(kconserv: Conserv, kptlist: seq<Triple>, i: nat, keys: seq<Triple>, smap: map<Triple, seq<Triple>>)
    requires i < |kptlist| && KeysSoFar(kconserv, kptlist, i, keys, smap)
    ensures forall a, b :: 0 <= a < b < |keys| + 1 ==> Lex((keys + [kptlist[i]])[a], (keys + [kptlist[i]])[b])
  {
    var keys' := keys + [kptlist[i]];
    forall a, b | 0 <= a < b < |keys'|
      ensures Lex(keys'[a], keys'[b])
    {
      if b == |keys| {
        assert keys'[a] == keys[a] && keys[a] in keys;
      }
    }
  }

  lemma {:induction false} NewKeyIsFirst(kconserv: Conserv, kptlist: seq<Triple>, i: nat, keys: seq<Triple>, smap: map<Triple, seq<Triple>>)
    requires i < |kptlist| && KeysSoFar(kconserv, kptlist, i, keys, smap)
    requires !Covered(kconserv, keys, kptlist[i])
    ensures forall k :: k in smap && Lex(k, kptlist[i]) ==> kptlist[i] !in smap[k]
  {
    forall k | k in smap && Lex(k, kptlist[i])
      ensures kptlist[i] !in smap[k]
    {
      var j :| 0 <= j < |keys| && keys[j] == k;
    }
  }

  /**
   * One turn of the sweep in `KptsHelper.__init__` (lines 423-444): a triple
   * not yet completed becomes a key and its orbit is recorded.
   */
  method Visit(n: nat, kconserv: Conserv, kptlist: seq<Triple>, i: nat, keys: seq<Triple>,
               smap: map<Triple, seq<Triple>>, completed: array3<bool>, op: array3<int>)
    returns (keys': seq<Triple>, smap': map<Triple, seq<Triple>>)
    requires kptlist == LoopKKK(n) && i < |kptlist|
    requires Marks(n, kconserv, keys, completed, op) && KeysSoFar(kconserv, kptlist, i, keys, smap)
    modifies completed, op
    ensures Marks(n, kconserv, keys', completed, op) && KeysSoFar(kconserv, kptlist, i + 1, keys', smap')
  {
    var kpt := kptlist[i];
    assert kpt in kptlist;
    var Triple(kp, kq, kr) := kpt;
    if !completed[kp, kq, kr] {
      SweepNewKey(kconserv, kptlist, i, keys, smap);
      var members := RecordOrbit(n, kconserv, keys, kpt, completed, op);
      keys', smap' := keys + [kpt], smap[kpt := members];
    } else {
      SweepCompleted(kconserv, kptlist, i, keys, smap);
      keys', smap' := keys, smap;
    }
  }

  /** After the whole sweep every triple is covered, and the keys are the triples no earlier key reaches. */
  lemma {:induction false} SweepDone(n: nat, kconserv: Conserv, kptlist: seq<Triple>, keys: seq<Triple>, smap: map<Triple, seq<Triple>>)
    requires kptlist == LoopKKK(n) && KeysSoFar(kconserv, kptlist, |kptlist|, keys, smap)
    ensures forall t :: InRange(n, t) ==> Covered(kconserv, keys, t)
    ensures forall t :: InRange(n, t) ==> (t in smap <==> forall k :: k in smap && Lex(k, t) ==> t !in smap[k])
  {
    forall t | InRange(n, t)
      ensures Covered(kconserv, keys, t) && (t in smap <==> forall k :: k in smap && Lex(k, t) ==> t !in smap[k])
    {
      var a :| 0 <= a < |kptlist| && kptlist[a] == t;
    }
  }

  class KptsHelper {
    const nkpts: nat
    /** The conservation table; computing it (`get_kconserv`) is not part of this model. */
    const kconserv: Conserv
    /** `_operation`: the operation code of every triple. */
    const operation: array3<int>
    /** `symm_map`: canonical triple -> its four related triples. */
    const symmMap: map<Triple, seq<Triple>>
    /** The insertion order of `symm_map`'s keys. */
    const symmKeys: seq<Triple>

    ghost predicate Valid()
      reads this, operation
    {
      && ConservTable(nkpts, kconserv)
      && operation.Length0 == nkpts && operation.Length1 == nkpts && operation.Length2 == nkpts
      && (forall k :: k in symmMap <==> k in symmKeys)
      && (forall k :: k in symmKeys ==> InRange(nkpts, k))
      && (forall i, j :: 0 <= i < j < |symmKeys| ==> Lex(symmKeys[i], symmKeys[j]))
      && (forall k :: k in symmMap ==> symmMap[k] == Orbit(kconserv, k))
      && (forall t :: InRange(nkpts, t) ==>
            (t in symmMap <==> forall k :: k in symmMap && Lex(k, t) ==> t !in symmMap[k]))
      && (forall p, q, r :: 0 <= p < nkpts && 0 <= q < nkpts && 0 <= r < nkpts ==>
            operation[p, q, r] == LastOp(kconserv, symmKeys, Triple(p, q, r)))
    }

    /**
     * `KptsHelper.__init__`: sweeps the triples in lexicographic order; a
     * triple not yet completed becomes a key of `symm_map`, and it and its
     * three images are marked completed and given operations 0, 1, 2, 3 in
     * that order, so a later write to the same triple wins.
     */
    constructor (nkpts: nat, kconserv: Conserv)
      requires ConservTable(nkpts, kconserv)
      ensures this.nkpts == nkpts && this.kconserv == kconserv && fresh(operation)
      ensures Valid()
      ensures forall t :: InRange(nkpts, t) ==> Covered(kconserv, symmKeys, t)
    {
      var n := nkpts;
      var kptlist := LoopKKK(n);
      var completed := new bool[n, n, n]((p, q, r) => false);
      var op := new int[n, n, n]((p, q, r) => 0);
      var smap: map<Triple, seq<Triple>> := map[];
      var keys: seq<Triple> := [];
      for i := 0 to |kptlist|
        invariant Marks(n, kconserv, keys, completed, op)
        invariant KeysSoFar(kconserv, kptlist, i, keys, smap)
      {
        keys, smap := Visit(n, kconserv, kptlist, i, keys, smap, completed, op);
      }
      SweepDone(n, kconserv, kptlist, keys, smap);
      this.nkpts := n;
      this.kconserv := kconserv;
      this.operation := op;
      this.symmMap := smap;
      this.symmKeys := keys;
    }

    /**
     * `transform_symm(eri_kpt, kp, kq, kr)`: the operation code recorded for
     * (kp, kq, kr) selects which symmetry operation is applied to `eri_kpt`.
     */
    function TransformSymm(eri: Tensor4, kp: nat, kq: nat, kr: nat): (r: Tensor4)
      reads this, operation
      requires Valid() && kp < nkpts && kq < nkpts && kr < nkpts
      ensures Same(r, ApplyOp(LastOp(kconserv, symmKeys, Triple(kp, kq, kr)), eri))
    {
      var op := operation[kp, kq, kr];
      TransformByCode(op as nat, eri)
    }
  }

  /**
   * A conservation table that is symmetric under the four operations: the
   * fourth index of each image of (p, q, r, s) is the one that image names.
   * The table momentum conservation gives has this property.
   */
  ghost predicate Consistent(kconserv: Conserv)
    requires ConservTable(|kconserv|, kconserv)
  {
    forall p, q, r :: 0 <= p < |kconserv| && 0 <= q < |kconserv| && 0 <= r < |kconserv| ==>
      var s := kconserv[p][q][r];
      kconserv[r][s][p] == q && kconserv[q][p][s] == r && kconserv[s][r][q] == p
  }

  /** With a consistent table, every member of an orbit has the same orbit, as a set. */
  lemma {:induction false} OrbitClosed(kconserv: Conserv, k: Triple, t: Triple)
    requires ConservTable(|kconserv|, kconserv) && Consistent(kconserv)
    requires InRange(|kconserv|, k) && t in Orbit(kconserv, k)
    ensures InRange(|kconserv|, t)
    ensures forall u :: u in Orbit(kconserv, t) <==> u in Orbit(kconserv, k)
  {
  }

  /** The orbits of the keys are pairwise disjoint when no key lies in an earlier key's orbit. */
  lemma {:induction false} OrbitsDisjoint(kconserv: Conserv, k: Triple, k': Triple, t: Triple)
    requires ConservTable(|kconserv|, kconserv) && Consistent(kconserv)
    requires InRange(|kconserv|, k) && InRange(|kconserv|, k')
    requires k' !in Orbit(kconserv, k)
    ensures !(t in Orbit(kconserv, k) && t in Orbit(kconserv, k'))
  {
    if t in Orbit(kconserv, k) && t in Orbit(kconserv, k') {
      OrbitClosed(kconserv, k, t);
      OrbitClosed(kconserv, k', t);
    }
  }

  /** No key lies in the orbit of an earlier key. */
  ghost predicate Separated(kconserv: Conserv, keys: seq<Triple>)
    requires ConservTable(|kconserv|, kconserv)
    requires forall k :: k in keys ==> InRange(|kconserv|, k)
  {
    forall a, b :: 0 <= a < b < |keys| ==> keys[b] !in Orbit(kconserv, keys[a])
  }

  /**
   * With a consistent table and separated keys, the operation code left at a
   * member `t` of a key's orbit is a position of `t` in THAT orbit (the last one).
   */
  lemma {:induction false} LastOpInOwnOrbit(kconserv: Conserv, keys: seq<Triple>, j: nat, t: Triple)
    requires ConservTable(|kconserv|, kconserv) && Consistent(kconserv)
    requires forall k :: k in keys ==> InRange(|kconserv|, k)
    requires Separated(kconserv, keys)
    requires j < |keys| && t in Orbit(kconserv, keys[j])
    ensures Orbit(kconserv, keys[j])[LastOp(kconserv, keys, t)] == t
    ensures forall m :: LastOp(kconserv, keys, t) < m < 4 ==> Orbit(kconserv, keys[j])[m] != t
    decreases |keys|
  {
    var last := |keys| - 1;
    var o := Orbit(kconserv, keys[last]);
    if j == last {
      assert o[0] == t || o[1] == t || o[2] == t || o[3] == t;
    } else {
      OrbitsDisjoint(kconserv, keys[j], keys[last], t);
      var prefix := keys[..last];
      assert keys[j] == prefix[j];
      LastOpInOwnOrbit(kconserv, prefix, j, t);
    }
  }

  /** The keys of a constructed helper are separated. */
  lemma {:induction false} HelperSeparated(h: KptsHelper)
    requires h.Valid()
    ensures Separated(h.kconserv, h.symmKeys)
  {
    forall a, b | 0 <= a < b < |h.symmKeys|
      ensures h.symmKeys[b] !in Orbit(h.kconserv, h.symmKeys[a])
    {
      var ka, kb := h.symmKeys[a], h.symmKeys[b];
      assert ka in h.symmKeys && kb in h.symmKeys && Lex(ka, kb);
    }
  }

  /**
   * An ERI family with the symmetry the transformer relies on: the block at
   * the `m`-th image of a triple is operation `m` applied to the block at it.
   */
  ghost predicate SymmetricEri(kconserv: Conserv, eri: Triple -> Tensor4)
    requires ConservTable(|kconserv|, kconserv)
  {
    forall k, m :: InRange(|kconserv|, k) && 0 <= m < 4 ==>
      Same(eri(Orbit(kconserv, k)[m]), ApplyOp(m, eri(k)))
  }

  /**
   * The use `symm_map` and `transform_symm` are built for: for every key and
   * every triple listed under it, transforming the key's block gives the
   * triple's block.
   */
  lemma {:induction false} TransformRecovers(h: KptsHelper, eri: Triple -> Tensor4, k: Triple, t: Triple)
    requires h.Valid() && Consistent(h.kconserv) && SymmetricEri(h.kconserv, eri)
    requires k in h.symmMap && t in h.symmMap[k]
    ensures InRange(h.nkpts, t)
    ensures Same(h.TransformSymm(eri(k), t.p, t.q, t.r), eri(t))
  {
    var j :| 0 <= j < |h.symmKeys| && h.symmKeys[j] == k;
    OrbitClosed(h.kconserv, k, t);
    HelperSeparated(h);
    LastOpInOwnOrbit(h.kconserv, h.symmKeys, j, t);
    var op := LastOp(h.kconserv, h.symmKeys, t);
    assert Same(eri(Orbit(h.kconserv, k)[op]), ApplyOp(op, eri(k)));
  }

  /** With one k-point the only triple is (0, 0, 0), and it is the only key. */
  lemma {:induction false} SingleKey(h: KptsHelper)
    requires h.Valid() && h.nkpts == 1 && Covered(h.kconserv, h.symmKeys, Triple(0, 0, 0))
    ensures h.symmKeys == [Triple(0, 0, 0)]
  {
    var g := Triple(0, 0, 0);
    assert forall k :: k in h.symmKeys ==> k == g;
    assert |h.symmKeys| > 0;
    assert forall a :: 0 <= a < |h.symmKeys| ==> h.symmKeys[a] == g by {
      forall a | 0 <= a < |h.symmKeys|
        ensures h.symmKeys[a] == g
      {
        assert h.symmKeys[a] in h.symmKeys;
      }
    }
    assert h.symmKeys[0] in h.symmKeys;
  }

  /**
   * With a single k-point (the Gamma point, kconserv = [[[0]]]) the only key
   * is (0, 0, 0), its four images are all (0, 0, 0), and the code left there
   * is 3, not 0: the key of an orbit does not always carry operation 0.
   */
  method GammaPointKeyOperation() returns (op: int)
    ensures op == 3
  {
    var kc: Conserv := [[[0]]];
    var h := new KptsHelper(1, kc);
    SingleKey(h);
    assert h.symmKeys[..0] == [];
    op := h.operation[0, 0, 0];
  }
}
