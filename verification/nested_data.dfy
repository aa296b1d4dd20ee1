/**
 * The values the nested-array codec of pyscf/pbc/lib/kpts_helper.py works
 * on: NumPy arrays, nests of lists/tuples of them, and the structure
 * descriptors (`struct`) that `describe_nested` produces and
 * `vector_to_nested` reads.
 */
module NestedData {

  /** A NumPy dtype, by name. */
  datatype DType = DType(name: string)

  /** The dtype `np.empty` uses when it is given `dtype=None`. */
  const DefaultDType := DType("float64")

  /**
   * `a * b` on naturals, as `a` rows of `b`; defined by repeated addition so
   * that facts about element counts stay linear.
   */
  function Mul(a: nat, b: nat): nat {
    if a == 0 then 0 else Mul(a - 1, b) + b
  }

  /** `Mul` is multiplication. */
  lemma {:induction false} MulIsProduct(a: nat, b: nat)
    ensures Mul(a, b) == a * b
  {
    if a > 0 {
      MulIsProduct(a - 1, b);
    }
  }

  /** More rows hold more elements. */
  lemma {:induction false} MulMonotonic(a: nat, c: nat, b: nat)
    requires a <= c
    ensures Mul(a, b) <= Mul(c, b)
    decreases c
  {
    if a < c {
      MulMonotonic(a, c - 1, b);
    }
  }

  /** The product of the entries of a shape: the element count of an array of that shape. */
  function Prod(shape: seq<nat>): nat {
    if shape == [] then 1 else Mul(shape[0], Prod(shape[1..]))
  }

  /** An `ndarray`: its shape, its dtype and its elements in row-major (C) order. */
  datatype NdArray = NdArray(shape: seq<nat>, dtype: DType, elems: seq<real>)
  {
    /** `ndarray.size`. */
    function Size(): nat {
      Prod(shape)
    }

    /** A real array holds exactly as many elements as its shape says. */
    predicate Valid() {
      |elems| == Prod(shape)
    }
  }

  /** `np.zeros(shape, dtype)`. */
  function Zeros(shape: seq<nat>, dtype: DType): (a: NdArray)
    ensures a.Valid() && a.shape == shape && a.dtype == dtype
    ensures forall j :: 0 <= j < |a.elems| ==> a.elems[j] == 0.0
  {
    NdArray(shape, dtype, seq(Prod(shape), _ => 0.0))
  }

  /**
   * The data a caller hands to the codec: an array, a list or tuple of
   * nested data (lists and tuples are not told apart), or anything else.
   */
  datatype Nested = Arr(arr: NdArray) | Items(items: seq<Nested>) | Other

  /** A `"type"` entry the codec does not recognise: the two it dispatches on are excluded. */
  type UnknownTag = tag: string | tag != "array" && tag != "composite" witness "unknown"

  /**
   * A structure descriptor:
   * `{"type": "array", "shape": shape}`,
   * `{"type": "composite", "shape": shape, "dtype": dtype, "data": data}`,
   * a dict whose `"type"` is neither of those, a dict without `"type"`,
   * a list or tuple of descriptors, or anything else.
   */
  datatype Desc =
    | ArrayDesc(shape: seq<nat>)
    | CompositeDesc(shape: seq<nat>, dtype: DType, data: Desc)
    | UnknownTypeDesc(tag: UnknownTag)
    | UntypedDesc
    | ListDesc(items: seq<Desc>)
    | OtherDesc

  /** The exceptions the codec raises. */
  datatype CodecError =
    | MixedDTypes(first: DType, second: DType)   // describe_nested: two different dtypes
    | UnknownObject                               // neither an array nor a list or tuple
    | BroadcastError                              // a slice of the destination too short for a leaf
    | NotAVector                                  // the vector is not one-dimensional
    | MissingType                                 // a dict descriptor without "type"
    | UnknownType                                 // a dict descriptor of an unknown "type"
    | SizeMismatch                                // the vector does not hold exactly one leaf
    | TooShort                                    // the vector is shorter than the leaf
    | ShapeMismatch                               // the destination block has another shape
    | DTypeMismatch                               // the destination has another dtype
    | IndexError                                  // a destination index out of range
    | NestedLengthMismatch                        // a list descriptor of the wrong length
    | ExtraElements                               // vector elements left over
    | SliceTypeError                              // slicing with the float `np.prod(())`
    | OffsetTypeError                             // adding a (destination, size) pair to an int

  /**
   * Which reading of the codec: the code as written, or with the three
   * corrections listed as findings (dtype carried over an empty sibling,
   * the element count of a 0-d leaf taken as the integer 1, and the consumed
   * size, not the returned pair, added to the offset).
   */
  datatype Reading = AsWritten | Intended

  /** The arrays of `d`, depth first, left to right. */
  function Leaves(d: Nested): seq<NdArray>
    decreases d
  {
    match d
    case Arr(a) => [a]
    case Items(items) => LeavesOf(items, |items|)
    case Other => []
  }

  /** The arrays of `items[..n]`, in order. */
  function LeavesOf(items: seq<Nested>, n: nat): seq<NdArray>
    requires n <= |items|
    decreases items, n
  {
    if n == 0 then [] else LeavesOf(items, n - 1) + Leaves(items[n - 1])
  }

  /** `d` contains nothing but arrays and lists/tuples. */
  predicate NoOther(d: Nested)
    decreases d
  {
    match d
    case Arr(_) => true
    case Items(items) => NoOtherIn(items, |items|)
    case Other => false
  }

  predicate NoOtherIn(items: seq<Nested>, n: nat)
    requires n <= |items|
    decreases items, n
  {
    n == 0 || (NoOtherIn(items, n - 1) && NoOther(items[n - 1]))
  }

  /** The elements of a run of arrays, one after the other. */
  function Elems(leaves: seq<NdArray>): seq<real> {
    if leaves == [] then [] else Elems(leaves[..|leaves| - 1]) + leaves[|leaves| - 1].elems
  }

  /** The flat buffer of `d`: every leaf raveled, depth first, left to right. */
  function Flatten(d: Nested): seq<real> {
    Elems(Leaves(d))
  }

  /** Every array is valid. */
  predicate AllValid(leaves: seq<NdArray>) {
    forall j :: 0 <= j < |leaves| ==> leaves[j].Valid()
  }

  /** The descriptor `describe_nested` gives for `d`: each array replaced by its shape. */
  function Mirror(d: Nested): Desc
    decreases d
  {
    match d
    case Arr(a) => ArrayDesc(a.shape)
    case Items(items) => ListDesc(MirrorOf(items, |items|))
    case Other => OtherDesc
  }

  function MirrorOf(items: seq<Nested>, n: nat): (r: seq<Desc>)
    requires n <= |items|
    ensures |r| == n && forall j :: 0 <= j < n ==> r[j] == Mirror(items[j])
    decreases items, n
  {
    if n == 0 then [] else MirrorOf(items, n - 1) + [Mirror(items[n - 1])]
  }

  /** `d` with every array's dtype replaced by `dt`. */
  function WithDType(d: Nested, dt: DType): Nested
    decreases d
  {
    match d
    case Arr(a) => Arr(NdArray(a.shape, dt, a.elems))
    case Items(items) => Items(WithDTypeOf(items, |items|, dt))
    case Other => Other
  }

  function WithDTypeOf(items: seq<Nested>, n: nat, dt: DType): (r: seq<Nested>)
    requires n <= |items|
    ensures |r| == n && forall j :: 0 <= j < n ==> r[j] == WithDType(items[j], dt)
    decreases items, n
  {
    if n == 0 then [] else WithDTypeOf(items, n - 1, dt) + [WithDType(items[n - 1], dt)]
  }

  /** Every array of `d` has dtype `dt`. */
  predicate AllDType(leaves: seq<NdArray>, dt: DType) {
    forall j :: 0 <= j < |leaves| ==> leaves[j].dtype == dt
  }

  /** Giving every array the dtype it already has changes nothing. */
  lemma {:induction false} WithOwnDType(d: Nested, dt: DType)
    requires AllDType(Leaves(d), dt)
    ensures WithDType(d, dt) == d
    decreases d
  {
    match d
    case Arr(a) =>
      assert Leaves(d)[0] == a;
    case Items(items) =>
      forall j | 0 <= j < |items|
        ensures WithDType(items[j], dt) == items[j]
      {
        LeavesOfItem(items, j);
        var before, after :| LeavesOf(items, |items|) == before + Leaves(items[j]) + after;
        var mine := Leaves(items[j]);
        assert forall k :: 0 <= k < |mine| ==> mine[k] == LeavesOf(items, |items|)[|before| + k];
        WithOwnDType(items[j], dt);
      }
      assert WithDTypeOf(items, |items|, dt) == items;
    case Other =>
  }

  /** The arrays of one item are a consecutive part of the arrays of the list. */
  lemma {:induction false} LeavesOfItem(items: seq<Nested>, j: nat)
    requires j < |items|
    ensures exists before, after ::
      LeavesOf(items, |items|) == before + Leaves(items[j]) + after
  {
    LeavesOfPrefix(items, j + 1, |items|);
    var mid := LeavesOf(items, j + 1);
    var after :| LeavesOf(items, |items|) == mid + after;
    assert mid == LeavesOf(items, j) + Leaves(items[j]);
    assert LeavesOf(items, |items|) == LeavesOf(items, j) + Leaves(items[j]) + after;
  }

  /** The arrays of a shorter prefix come first. */
  lemma {:induction false} LeavesOfPrefix(items: seq<Nested>, m: nat, n: nat)
    requires m <= n <= |items|
    ensures exists after :: LeavesOf(items, n) == LeavesOf(items, m) + after
    decreases n - m
  {
    if m == n {
      assert LeavesOf(items, n) == LeavesOf(items, m) + [];
    } else {
      LeavesOfPrefix(items, m, n - 1);
      var after :| LeavesOf(items, n - 1) == LeavesOf(items, m) + after;
      assert LeavesOf(items, n) == LeavesOf(items, m) + (after + Leaves(items[n - 1]));
    }
  }

  /** Concatenating runs of arrays concatenates their elements. */
  lemma {:induction false} ElemsAppend(xs: seq<NdArray>, ys: seq<NdArray>)
    ensures Elems(xs + ys) == Elems(xs) + Elems(ys)
    decreases |ys|
  {
    if ys == [] {
      assert xs + ys == xs;
    } else {
      var zs := xs + ys;
      var ys' := ys[..|ys| - 1];
      assert zs[..|zs| - 1] == xs + ys';
      ElemsAppend(xs, ys');
    }
  }

  /** The size of a run of valid arrays is the sum of their sizes. */
  function TotalSize(leaves: seq<NdArray>): nat {
    if leaves == [] then 0 else TotalSize(leaves[..|leaves| - 1]) + leaves[|leaves| - 1].Size()
  }

  lemma {:induction false} ElemsLength(leaves: seq<NdArray>)
    requires AllValid(leaves)
    ensures |Elems(leaves)| == TotalSize(leaves)
    decreases |leaves|
  {
    if leaves != [] {
      ElemsLength(leaves[..|leaves| - 1]);
    }
  }

  /**
   * `after` is `buf` after `buf[off:off + len(xs)] = xs`, where the part of
   * the slice past the end of `buf` is cut off, as NumPy slicing does.
   */
  predicate Spliced(buf: seq<real>, off: nat, xs: seq<real>, after: seq<real>) {
    && |after| == |buf|
    && (forall i :: 0 <= i < |buf| && off <= i < off + |xs| ==> after[i] == xs[i - off])
    && (forall i :: 0 <= i < |buf| && !(off <= i < off + |xs|) ==> after[i] == buf[i])
  }

  /** Two adjacent slice writes are one write of the concatenation. */
  lemma {:induction false} SplicedTwice(buf: seq<real>, off: nat, xs: seq<real>, ys: seq<real>, mid: seq<real>, after: seq<real>)
    requires Spliced(buf, off, xs, mid) && Spliced(mid, off + |xs|, ys, after)
    ensures Spliced(buf, off, xs + ys, after)
  {
    var zs := xs + ys;
    forall i | 0 <= i < |buf| && off <= i < off + |zs|
      ensures after[i] == zs[i - off]
    {
      if i < off + |xs| {
        assert after[i] == mid[i] == xs[i - off];
      } else {
        assert after[i] == ys[i - off - |xs|];
      }
    }
  }

  /** The buffer `Spliced` describes: `buf` with the part of it from `off` on replaced by `xs`, cut off at its end. */
  function Overwrite(buf: seq<real>, off: nat, xs: seq<real>): (r: seq<real>)
    ensures |r| == |buf|
  {
    if off >= |buf| then buf
    else
      var m := if off + |xs| <= |buf| then |xs| else |buf| - off;
      buf[..off] + xs[..m] + buf[off + m..]
  }

  lemma {:induction false} OverwriteSpliced(buf: seq<real>, off: nat, xs: seq<real>)
    ensures Spliced(buf, off, xs, Overwrite(buf, off, xs))
  {
    var r := Overwrite(buf, off, xs);
    if off < |buf| {
      var m := if off + |xs| <= |buf| then |xs| else |buf| - off;
      forall i | 0 <= i < |buf|
        ensures r[i] == if off <= i < off + |xs| then xs[i - off] else buf[i]
      {
        if i < off {
          assert r[i] == buf[..off][i];
        } else if i < off + m {
          assert r[i] == xs[..m][i - off];
        } else {
          assert r[i] == buf[off + m..][i - off - m];
        }
      }
    }
  }

  /** A slice write leaves one possible buffer. */
  lemma {:induction false} SplicedUnique(buf: seq<real>, off: nat, xs: seq<real>, after: seq<real>)
    requires Spliced(buf, off, xs, after)
    ensures after == Overwrite(buf, off, xs)
  {
    OverwriteSpliced(buf, off, xs);
    var r := Overwrite(buf, off, xs);
    forall i | 0 <= i < |buf|
      ensures after[i] == r[i]
    {
    }
  }

  /** Two adjacent slice writes, `xs` at `off` and then `ys` right after it, are one write of `zs == xs + ys`. */
  lemma {:induction false} OverwriteTwice(buf: seq<real>, off: nat, xs: seq<real>, mid: seq<real>,
                       off': nat, ys: seq<real>, after: seq<real>, zs: seq<real>)
    requires mid == Overwrite(buf, off, xs) && off' == off + |xs| && after == Overwrite(mid, off', ys)
    requires zs == xs + ys
    ensures after == Overwrite(buf, off, zs)
  {
    OverwriteSpliced(buf, off, xs);
    OverwriteSpliced(mid, off', ys);
    SplicedTwice(buf, off, xs, ys, mid, after);
    SplicedUnique(buf, off, zs, after);
  }

  /** Writing nothing changes nothing. */
  lemma {:induction false} OverwriteNothing(buf: seq<real>, off: nat, xs: seq<real>)
    requires xs == []
    ensures Overwrite(buf, off, xs) == buf
  {
  }
}
