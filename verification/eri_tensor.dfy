/**
 * Four-index complex tensors (an electron-repulsion integral block indexed by
 * four orbitals) and the four symmetry operations `KptsHelper.transform_symm`
 * applies to them (pyscf/pbc/lib/kpts_helper.py).
 */
module EriTensor {

  /** A complex number as a pair of reals; `np.conj` flips the imaginary part. */
  datatype Complex = Complex(re: real, im: real)

  /** `z * conj(z)` is the real number `|z|^2`, and conjugation keeps the modulus. */
  function Conj(z: Complex): (w: Complex)
    ensures z.re * w.re - z.im * w.im == z.re * z.re + z.im * z.im
    ensures z.re * w.im + z.im * w.re == 0.0
    ensures w.re * w.re + w.im * w.im == z.re * z.re + z.im * z.im
  {
    Complex(z.re, -z.im)
  }

  /** Conjugation is an involution. */
  lemma {:induction false} ConjInvolution(z: Complex)
    ensures Conj(Conj(z)) == z
  {
  }

  /** An index, or a shape, of a four-index tensor: one entry per axis. */
  datatype Index4 = Index4(a: nat, b: nat, c: nat, d: nat)
  {
    /** The entry on axis `k`. */
    function Get(k: nat): nat
      requires k < 4
    {
      if k == 0 then a else if k == 1 then b else if k == 2 then c else d
    }
  }

  /** `i` addresses an element of a tensor of shape `s`. */
  predicate InBox(i: Index4, s: Index4) {
    i.a < s.a && i.b < s.b && i.c < s.c && i.d < s.d
  }

  /**
   * A tensor: its shape and its elements; only the elements at indices inside
   * the shape are read. A transposed or conjugated tensor reads its source, as
   * a NumPy view does.
   */
  datatype Tensor4 = Tensor4(shape: Index4, at: Index4 -> Complex)

  /** Elementwise equality: the same shape and the same element at every index inside it. */
  ghost predicate Same(t: Tensor4, u: Tensor4) {
    t.shape == u.shape && forall i :: InBox(i, t.shape) ==> t.at(i) == u.at(i)
  }

  /** The axis orders `(a, b, c, d)` can be transposed by: permutations of 0..3. */
  predicate IsAxes(axes: seq<nat>) {
    && |axes| == 4
    && (forall k :: 0 <= k < 4 ==> axes[k] < 4)
    && (forall m :: 0 <= m < 4 ==> m in axes)
  }

  /** The position of axis `m` in `axes`. */
  function Pos(axes: seq<nat>, m: nat): (k: nat)
    requires IsAxes(axes) && m < 4
    ensures k < 4 && axes[k] == m
  {
    assert m in axes;
    if axes[0] == m then 0 else if axes[1] == m then 1 else if axes[2] == m then 2 else 3
  }

  /** The source index read by `transpose(axes)` at index `i`: its axis `axes[k]` holds `i`'s axis `k`. */
  function SourceIndex(axes: seq<nat>, i: Index4): (j: Index4)
    requires IsAxes(axes)
    ensures forall k :: 0 <= k < 4 ==> j.Get(axes[k]) == i.Get(k)
  {
    Index4(i.Get(Pos(axes, 0)), i.Get(Pos(axes, 1)), i.Get(Pos(axes, 2)), i.Get(Pos(axes, 3)))
  }

  /** The shape `transpose(axes)` produces: axis `k` has the length of the input's axis `axes[k]`. */
  function TransposedShape(axes: seq<nat>, s: Index4): (s': Index4)
    requires IsAxes(axes)
  {
    Index4(s.Get(axes[0]), s.Get(axes[1]), s.Get(axes[2]), s.Get(axes[3]))
  }

  /** `ndarray.transpose(axes)` on a four-index tensor. */
  function Transpose(t: Tensor4, axes: seq<nat>): (r: Tensor4)
    requires IsAxes(axes)
  {
    Tensor4(TransposedShape(axes, t.shape), i => t.at(SourceIndex(axes, i)))
  }

  /**
   * The element law of `transpose(axes)`: the element at `i` is the input's
   * element at the index whose axis `axes[k]` holds `i`'s axis `k`.
   */
  lemma {:induction false} TransposeElement(t: Tensor4, axes: seq<nat>, i: Index4, j: Index4)
    requires IsAxes(axes) && InBox(i, Transpose(t, axes).shape)
    requires forall k :: 0 <= k < 4 ==> j.Get(axes[k]) == i.Get(k)
    ensures InBox(j, t.shape)
    ensures Transpose(t, axes).at(i) == t.at(j)
  {
    var j' := SourceIndex(axes, i);
    forall m | 0 <= m < 4
      ensures j.Get(m) == j'.Get(m)
    {
      var k := Pos(axes, m);
    }
    assert j == j';
    TransposeInBox(axes, t.shape, i);
  }

  /** Every index inside the transposed shape reads an index inside the original shape. */
  lemma {:induction false} TransposeInBox(axes: seq<nat>, s: Index4, i: Index4)
    requires IsAxes(axes) && InBox(i, TransposedShape(axes, s))
    ensures InBox(SourceIndex(axes, i), s)
  {
    var s', j := TransposedShape(axes, s), SourceIndex(axes, i);
    forall m | 0 <= m < 4
      ensures j.Get(m) < s.Get(m)
    {
      var k := Pos(axes, m);
      assert j.Get(axes[k]) == i.Get(k) && i.Get(k) < s'.Get(k);
    }
    assert j.Get(0) < s.Get(0) && j.Get(1) < s.Get(1) && j.Get(2) < s.Get(2) && j.Get(3) < s.Get(3);
  }

  /** `np.conj` applied elementwise. */
  function ConjAll(t: Tensor4): (r: Tensor4)
  {
    Tensor4(t.shape, i => Conj(t.at(i)))
  }

  /** Conjugating every element twice gives the tensor back. */
  lemma {:induction false} ConjAllInvolution(t: Tensor4)
    ensures Same(ConjAll(ConjAll(t)), t)
  {
    forall i | InBox(i, t.shape)
      ensures ConjAll(ConjAll(t)).at(i) == t.at(i)
    {
      ConjInvolution(t.at(i));
    }
  }

  /**
   * The index map of operation `op`, as the transformer's documentation
   * states it: op 0 is the identity, op 1 reads `[c, d, a, b]`, op 2 reads
   * `[b, a, d, c]` and op 3 reads `[d, c, b, a]`.
   */
  function Permute(op: nat, i: Index4): Index4
    requires op < 4
  {
    if op == 0 then i
    else if op == 1 then Index4(i.c, i.d, i.a, i.b)
    else if op == 2 then Index4(i.b, i.a, i.d, i.c)
    else Index4(i.d, i.c, i.b, i.a)
  }

  /** Operations 2 and 3 also conjugate. */
  predicate Conjugates(op: nat) {
    op >= 2
  }

  function ConjIf(flag: bool, z: Complex): Complex {
    if flag then Conj(z) else z
  }

  /**
   * Operation `op` in index form:
   * `out[a, b, c, d] = in[Permute(op, (a, b, c, d))]`, conjugated for ops 2 and 3.
   */
  function ApplyOp(op: nat, t: Tensor4): (r: Tensor4)
    requires op < 4
    ensures r.shape == Permute(op, t.shape)
    ensures forall i :: InBox(i, r.shape) ==> InBox(Permute(op, i), t.shape)
  {
    PermuteInBox(op, t.shape);
    Tensor4(Permute(op, t.shape), i => ConjIf(Conjugates(op), t.at(Permute(op, i))))
  }

  /** Each index map sends the box of the permuted shape onto the box of the shape. */
  lemma {:induction false} PermuteInBox(op: nat, s: Index4)
    requires op < 4
    ensures forall i :: InBox(i, Permute(op, s)) <==> InBox(Permute(op, i), s)
  {
  }

  /** The composition of two operations: the group of the four operations is the Klein four-group. */
  function Compose(x: nat, y: nat): (z: nat)
    requires x < 4 && y < 4
    ensures z < 4
  {
    (if x % 2 == y % 2 then 0 else 1) + (if x / 2 == y / 2 then 0 else 2)
  }

  /** The index maps compose as the group law says. */
  lemma {:induction false} PermuteCompose(x: nat, y: nat, i: Index4)
    requires x < 4 && y < 4
    ensures Permute(x, Permute(y, i)) == Permute(Compose(x, y), i)
  {
  }

  /**
   * Applying `x` and then `y` is applying their composition; in particular
   * every operation undoes itself, `Compose(x, x) == 0`.
   */
  lemma {:induction false} ApplyOpCompose(x: nat, y: nat, t: Tensor4)
    requires x < 4 && y < 4
    ensures Same(ApplyOp(y, ApplyOp(x, t)), ApplyOp(Compose(x, y), t))
  {
    var lhs, rhs := ApplyOp(y, ApplyOp(x, t)), ApplyOp(Compose(x, y), t);
    assert lhs.shape == rhs.shape by {
      PermuteCompose(y, x, t.shape);
    }
    forall i | InBox(i, lhs.shape)
      ensures lhs.at(i) == rhs.at(i)
    {
      PermuteCompose(x, y, i);
      ConjInvolution(ApplyOp(x, t).at(Permute(y, i)));
      ConjInvolution(t.at(Permute(Compose(x, y), i)));
    }
  }

  /** Each operation is an involution. */
  lemma {:induction false} ApplyOpInvolution(op: nat, t: Tensor4)
    requires op < 4
    ensures Same(ApplyOp(op, ApplyOp(op, t)), t)
  {
    ApplyOpCompose(op, op, t);
  }

  /**
   * `transform_symm` once the operation code is read: op 0 returns the
   * tensor, op 1 `transpose(2,3,0,1)`, op 2 `conj(transpose(1,0,3,2))`,
   * op 3 `conj(transpose(3,2,1,0))`. Elementwise it is the index form `ApplyOp`.
   */
  function TransformByCode(op: nat, eri: Tensor4): (r: Tensor4)
    requires op < 4
    ensures Same(r, ApplyOp(op, eri))
  {
    if op == 0 then eri
    else if op == 1 then
      TransposeIsPermute(1, [2, 3, 0, 1], eri);
      Transpose(eri, [2, 3, 0, 1])
    else if op == 2 then
      TransposeIsPermute(2, [1, 0, 3, 2], eri);
      ConjAll(Transpose(eri, [1, 0, 3, 2]))
    else
      TransposeIsPermute(3, [3, 2, 1, 0], eri);
      ConjAll(Transpose(eri, [3, 2, 1, 0]))
  }

  /** The axis orders the transformer passes to `transpose` are the index maps of ops 1, 2 and 3. */
  lemma {:induction false} TransposeIsPermute(op: nat, axes: seq<nat>, t: Tensor4)
    requires 1 <= op < 4
    requires axes == if op == 1 then [2, 3, 0, 1] else if op == 2 then [1, 0, 3, 2] else [3, 2, 1, 0]
    ensures IsAxes(axes)
    ensures Transpose(t, axes).shape == Permute(op, t.shape)
    ensures forall i :: Transpose(t, axes).at(i) == t.at(Permute(op, i))
  {
    assert axes[0] in axes && axes[1] in axes && axes[2] in axes && axes[3] in axes;
    forall i
      ensures SourceIndex(axes, i) == Permute(op, i)
    {
    }
  }
}
