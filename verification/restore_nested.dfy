/**
 * `vector_to_nested` (pyscf/pbc/lib/kpts_helper.py): nested data rebuilt
 * from a flat vector and a structure descriptor, consuming the vector front
 * to back. Without a destination the arrays are fresh; with one (a composite
 * descriptor, or a caller's array) every array descriptor writes its run of
 * the vector into the block of the destination at the leading indexes
 * reached so far.
 */
module RestoreNested {
  import opened Wrappers
  import opened NestedData

  /** `shape[k:]` in Python: empty once `k` passes the end. */
  function PySlice(shape: seq<nat>, k: nat): seq<nat> {
    if k <= |shape| then shape[k..] else []
  }

  /** `shape[k:]` has the entries left after the first `k`, and completes `shape[:k]` to the whole shape. */
  lemma {:induction false} PySliceCompletes(shape: seq<nat>, k: nat)
    ensures |PySlice(shape, k)| == if k <= |shape| then |shape| - k else 0
    ensures k <= |shape| ==> shape[..k] + PySlice(shape, k) == shape
  {
  }

  /** `destination[np.ix_(*indexes)]` addresses existing elements: one index per leading axis, each in range. */
  predicate IndexesOk(idx: seq<nat>, shape: seq<nat>) {
    |idx| <= |shape| && forall k :: 0 <= k < |idx| ==> idx[k] < shape[k]
  }

  /** The row-major position of the first element of the block at leading indexes `idx`. */
  function Start(idx: seq<nat>, shape: seq<nat>): nat
    requires |idx| <= |shape|
  {
    if idx == [] then 0
    else Start(idx[..|idx| - 1], shape) + Mul(idx[|idx| - 1], Prod(shape[|idx|..]))
  }

  /** Peeling off the leading axis of a shape. */
  lemma {:induction false} ProdFrom(shape: seq<nat>, k: nat)
    requires k < |shape|
    ensures Prod(shape[k..]) == Mul(shape[k], Prod(shape[k + 1..]))
  {
    assert shape[k..][1..] == shape[k + 1..];
  }

  /** Row `a` of `n` rows of `p` elements ends within the `n * p` elements. */
  lemma {:induction false} RowBound(a: nat, n: nat, p: nat)
    requires a < n
    ensures Mul(a, p) + p <= Mul(n, p)
  {
    MulMonotonic(a + 1, n, p);
  }

  /** The block at in-range leading indexes lies inside the array. */
  lemma {:induction false} BlockInside(idx: seq<nat>, shape: seq<nat>)
    requires IndexesOk(idx, shape)
    ensures Start(idx, shape) + Prod(shape[|idx|..]) <= Prod(shape)
    decreases |idx|
  {
    if idx == [] {
      assert shape[0..] == shape;
    } else {
      var k := |idx|;
      var front, a, p := idx[..k - 1], idx[k - 1], Prod(shape[k..]);
      assert IndexesOk(front, shape);
      BlockInside(front, shape);
      ProdFrom(shape, k - 1);
      RowBound(a, shape[k - 1], p);
      assert Start(idx, shape) == Start(front, shape) + Mul(a, p);
    }
  }

  /** The block of the next index along axis `|idx|` follows the block of the previous one. */
  lemma {:induction false} StartNext(idx: seq<nat>, i: nat, shape: seq<nat>)
    requires |idx| < |shape|
    ensures Start(idx + [i], shape) == Start(idx, shape) + Mul(i, Prod(shape[|idx| + 1..]))
  {
    assert (idx + [i])[..|idx|] == idx;
  }

  /** What a restore without a destination gives: the data and the number of vector elements consumed. */
  datatype Restored = Restored(data: Nested, used: nat)

  /** The items restored so far from a list descriptor and the elements they consumed. */
  datatype RestoredList = RestoredList(items: seq<Nested>, used: nat)

  /** What a restore into a destination gives: the destination after the writes and the elements consumed. */
  datatype Filled = Filled(dest: NdArray, used: nat)

  /** `vector[offset:]`. */
  function Tail(w: NdArray, off: nat): (t: NdArray)
    requires off <= |w.elems|
  {
    NdArray([|w.elems| - off], w.dtype, w.elems[off..])
  }

  /** Slicing `[a:]` and then `[b:]` is slicing `[a + b:]`: the offsets of the list loop add up. */
  lemma {:induction false} TailTail(w: NdArray, a: nat, b: nat)
    requires a + b <= |w.elems|
    ensures Tail(Tail(w, a), b) == Tail(w, a + b)
  {
    assert w.elems[a..][b..] == w.elems[a + b..];
  }

  /**
   * `vector_to_nested(vector, struct, ensure_size_matches=esm)` without a
   * destination: the restored data and the number of vector elements
   * consumed (returned alongside the data when `esm` is false). The number
   * consumed never exceeds the vector, and with `esm` it is the whole vector.
   */
  function Restore(rd: Reading, w: NdArray, s: Desc, esm: bool): (r: Result<Restored, CodecError>)
    ensures r.Ok? ==> r.value.used <= |w.elems|
    ensures r.Ok? && esm ==> r.value.used == |w.elems|
    decreases s
  {
    if |w.shape| != 1 then Err(NotAVector)
    else
      match s
      case UntypedDesc => Err(MissingType)
      case UnknownTypeDesc(_) => Err(UnknownType)
      case OtherDesc => Err(UnknownObject)
      case ArrayDesc(shape) =>
        var expected := Prod(shape);
        if esm && |w.elems| != expected then Err(SizeMismatch)
        else if |w.elems| < expected then Err(TooShort)
        else if rd.AsWritten? && shape == [] then Err(SliceTypeError)
        else Ok(Restored(Arr(NdArray(shape, w.dtype, w.elems[..expected])), expected))
      case CompositeDesc(shape, dtype, data) =>
        var zeros := Zeros(shape, dtype);
        (match RestoreInto(rd, w, data, esm, zeros, [])
         case Err(e) => Err(e)
         case Ok(filled) => Ok(Restored(Arr(filled.dest), filled.used)))
      case ListDesc(items) =>
        match RestoreItems(rd, w, items, |items|)
        case Err(e) => Err(e)
        case Ok(res) =>
          if esm && |w.elems| != res.used then Err(ExtraElements)
          else Ok(Restored(Items(res.items), res.used))
  }

  /** The loop over a list descriptor without a destination, after its first `n` items. */
  function RestoreItems(rd: Reading, w: NdArray, items: seq<Desc>, n: nat): (r: Result<RestoredList, CodecError>)
    requires n <= |items|
    ensures r.Ok? ==> |r.value.items| == n && r.value.used <= |w.elems|
    decreases items, n
  {
    if n == 0 then Ok(RestoredList([], 0))
    else
      match RestoreItems(rd, w, items, n - 1)
      case Err(e) => Err(e)
      case Ok(acc) =>
        (match Restore(rd, Tail(w, acc.used), items[n - 1], false)
         case Err(e) => Err(e)
         case Ok(x) => Ok(RestoredList(acc.items + [x.data], acc.used + x.used)))
  }

  /**
   * `vector_to_nested(vector, struct, ensure_size_matches=esm,
   * destination=D, destination_indexes=idx)`: the destination after the
   * writes and the number of vector elements consumed. The destination keeps
   * its shape and dtype.
   */
  function RestoreInto(rd: Reading, w: NdArray, s: Desc, esm: bool, D: NdArray, idx: seq<nat>): (r: Result<Filled, CodecError>)
    ensures r.Ok? ==> r.value.dest.shape == D.shape && r.value.dest.dtype == D.dtype
    ensures r.Ok? ==> |r.value.dest.elems| == |D.elems|
    ensures r.Ok? ==> r.value.used <= |w.elems|
    ensures r.Ok? && esm ==> r.value.used == |w.elems|
    decreases s
  {
    if |w.shape| != 1 then Err(NotAVector)
    else
      match s
      case UntypedDesc => Err(MissingType)
      case UnknownTypeDesc(_) => Err(UnknownType)
      case OtherDesc => Err(UnknownObject)
      case ArrayDesc(shape) =>
        var expected := Prod(shape);
        if esm && |w.elems| != expected then Err(SizeMismatch)
        else if |w.elems| < expected then Err(TooShort)
        else if shape != PySlice(D.shape, |idx|) then Err(ShapeMismatch)
        else if rd.AsWritten? && shape == [] then Err(SliceTypeError)
        else if !IndexesOk(idx, D.shape) then Err(IndexError)
        else Ok(Filled(NdArray(D.shape, D.dtype, Overwrite(D.elems, Start(idx, D.shape), w.elems[..expected])), expected))
      case CompositeDesc(shape, dtype, data) =>
        if shape != PySlice(D.shape, |idx|) then Err(ShapeMismatch)
        else if dtype != D.dtype then Err(DTypeMismatch)
        else RestoreInto(rd, w, data, esm, D, idx)
      case ListDesc(items) =>
        if |idx| >= |D.shape| then Err(IndexError)
        else if |items| != D.shape[|idx|] then Err(NestedLengthMismatch)
        else
          match RestoreIntoItems(rd, w, items, |items|, D, idx)
          case Err(e) => Err(e)
          case Ok(res) =>
            if esm && |w.elems| != res.used then Err(ExtraElements)
            else Ok(res)
  }

  /**
   * The loop over a list descriptor with a destination, after its first `n`
   * items: item `i` is restored at indexes `idx + [i]`. As written the
   * returned `(destination, size)` pair is added to the integer offset, which
   * raises as soon as one item has been restored.
   */
  function RestoreIntoItems(rd: Reading, w: NdArray, items: seq<Desc>, n: nat, D: NdArray, idx: seq<nat>): (r: Result<Filled, CodecError>)
    requires n <= |items|
    ensures r.Ok? ==> r.value.dest.shape == D.shape && r.value.dest.dtype == D.dtype
    ensures r.Ok? ==> |r.value.dest.elems| == |D.elems|
    ensures r.Ok? ==> r.value.used <= |w.elems|
    ensures r.Ok? && rd.AsWritten? ==> n == 0
    decreases items, n
  {
    if n == 0 then Ok(Filled(D, 0))
    else
      match RestoreIntoItems(rd, w, items, n - 1, D, idx)
      case Err(e) => Err(e)
      case Ok(acc) =>
        (match RestoreInto(rd, Tail(w, acc.used), items[n - 1], false, acc.dest, idx + [n - 1])
         case Err(e) => Err(e)
         case Ok(x) =>
           if rd.AsWritten? then Err(OffsetTypeError)
           else Ok(Filled(x.dest, acc.used + x.used)))
  }

  lemma {:induction false} RestoreItemsErrSticky(rd: Reading, w: NdArray, items: seq<Desc>, i: nat, n: nat)
    requires i <= n <= |items| && RestoreItems(rd, w, items, i).Err?
    ensures RestoreItems(rd, w, items, n) == RestoreItems(rd, w, items, i)
    decreases n - i
  {
    if i < n {
      RestoreItemsErrSticky(rd, w, items, i, n - 1);
    }
  }

  lemma {:induction false} RestoreIntoItemsErrSticky(rd: Reading, w: NdArray, items: seq<Desc>, i: nat, n: nat, D: NdArray, idx: seq<nat>)
    requires i <= n <= |items| && RestoreIntoItems(rd, w, items, i, D, idx).Err?
    ensures RestoreIntoItems(rd, w, items, n, D, idx) == RestoreIntoItems(rd, w, items, i, D, idx)
    decreases n - i
  {
    if i < n {
      RestoreIntoItemsErrSticky(rd, w, items, i, n - 1, D, idx);
    }
  }

  /** A successful restore into a destination consumes as many elements as the block at `idx` holds. */
  lemma {:induction false} BlockCount(rd: Reading, w: NdArray, s: Desc, esm: bool, D: NdArray, idx: seq<nat>)
    requires RestoreInto(rd, w, s, esm, D, idx).Ok?
    ensures |idx| <= |D.shape|
    ensures RestoreInto(rd, w, s, esm, D, idx).value.used == Prod(D.shape[|idx|..])
    decreases s
  {
    match s
    case CompositeDesc(_, _, data) =>
      BlockCount(rd, w, data, esm, D, idx);
    case ListDesc(items) =>
      RowsCount(rd, w, items, |items|, D, idx);
      ProdFrom(D.shape, |idx|);
    case _ =>
  }

  lemma {:induction false} RowsCount(rd: Reading, w: NdArray, items: seq<Desc>, n: nat, D: NdArray, idx: seq<nat>)
    requires n <= |items| && |idx| < |D.shape|
    requires RestoreIntoItems(rd, w, items, n, D, idx).Ok?
    ensures RestoreIntoItems(rd, w, items, n, D, idx).value.used == Mul(n, Prod(D.shape[|idx| + 1..]))
    decreases items, n
  {
    if n > 0 {
      var row := Prod(D.shape[|idx| + 1..]);
      RowsCount(rd, w, items, n - 1, D, idx);
      var acc := RestoreIntoItems(rd, w, items, n - 1, D, idx).value;
      BlockCount(rd, Tail(w, acc.used), items[n - 1], false, acc.dest, idx + [n - 1]);
    }
  }

  /**
   * A successful restore into a destination fills exactly the block at the
   * leading indexes `idx`: it writes the elements it consumes there in order,
   * and every other element is left as it was.
   */
  lemma {:induction false} FillsBlock(rd: Reading, w: NdArray, s: Desc, esm: bool, D: NdArray, idx: seq<nat>)
    requires RestoreInto(rd, w, s, esm, D, idx).Ok?
    ensures |idx| <= |D.shape|
    ensures var res := RestoreInto(rd, w, s, esm, D, idx).value;
      res.dest.elems == Overwrite(D.elems, Start(idx, D.shape), w.elems[..res.used])
    decreases s
  {
    match s
    case CompositeDesc(_, _, data) =>
      FillsBlock(rd, w, data, esm, D, idx);
    case ListDesc(items) =>
      FillsRows(rd, w, items, |items|, D, idx);
    case _ =>
  }

  /** After `n` items of a list at indexes `idx`, its first `n` rows are filled. */
  lemma {:induction false} FillsRows(rd: Reading, w: NdArray, items: seq<Desc>, n: nat, D: NdArray, idx: seq<nat>)
    requires n <= |items| && |idx| < |D.shape|
    requires RestoreIntoItems(rd, w, items, n, D, idx).Ok?
    ensures var res := RestoreIntoItems(rd, w, items, n, D, idx).value;
      res.dest.elems == Overwrite(D.elems, Start(idx, D.shape), w.elems[..res.used])
    decreases items, n
  {
    if n == 0 {
      OverwriteNothing(D.elems, Start(idx, D.shape), w.elems[..0]);
    } else {
      var acc, x := ItemStep(rd, w, items, n, D, idx);
      FillsRows(rd, w, items, n - 1, D, idx);
      RowsCount(rd, w, items, n - 1, D, idx);
      FillsBlock(rd, Tail(w, acc.used), items[n - 1], false, acc.dest, idx + [n - 1]);
      FillsNextRow(w, n, D, idx, acc, x, RestoreIntoItems(rd, w, items, n, D, idx).value);
    }
  }

  /**
   * Row `n - 1` of the block at `idx`, written right after the rows before
   * it: `acc` is the loop's state after `n - 1` rows and `x` the restore of
   * row `n - 1` at indexes `idx + [n - 1]` from the vector past them.
   */
  lemma {:induction false} FillsNextRow(w: NdArray, n: nat, D: NdArray, idx: seq<nat>, acc: Filled, x: Filled, res: Filled)
    requires 1 <= n && |idx| < |D.shape|
    requires acc.used <= |w.elems| && acc.dest.shape == D.shape
    requires acc.used == Mul(n - 1, Prod(D.shape[|idx| + 1..]))
    requires acc.dest.elems == Overwrite(D.elems, Start(idx, D.shape), w.elems[..acc.used])
    requires x.used <= |w.elems| - acc.used
    requires x.dest.elems == Overwrite(acc.dest.elems, Start(idx + [n - 1], acc.dest.shape), Tail(w, acc.used).elems[..x.used])
    requires res == Filled(x.dest, acc.used + x.used)
    ensures res.used <= |w.elems|
    ensures res.dest.elems == Overwrite(D.elems, Start(idx, D.shape), w.elems[..res.used])
  {
    var rest := Tail(w, acc.used).elems;
    assert rest == w.elems[acc.used..];
    StartNext(idx, n - 1, D.shape);
    RowsStep(D.elems, Start(idx, D.shape), w.elems, acc.used, acc.dest.elems,
             Start(idx + [n - 1], D.shape), rest, x.used, x.dest.elems);
  }

  /** The restores that make up a successful step of the loop over a list with a destination. */
  lemma {:induction false} ItemStep(rd: Reading, w: NdArray, items: seq<Desc>, n: nat, D: NdArray, idx: seq<nat>)
    returns (acc: Filled, x: Filled)
    requires 1 <= n <= |items| && RestoreIntoItems(rd, w, items, n, D, idx).Ok?
    ensures acc.used <= |w.elems| && x.used <= |w.elems| - acc.used
    ensures acc.dest.shape == D.shape && acc.dest.dtype == D.dtype && |acc.dest.elems| == |D.elems|
    ensures RestoreIntoItems(rd, w, items, n - 1, D, idx) == Ok(acc)
    ensures RestoreInto(rd, Tail(w, acc.used), items[n - 1], false, acc.dest, idx + [n - 1]) == Ok(x)
    ensures RestoreIntoItems(rd, w, items, n, D, idx) == Ok(Filled(x.dest, acc.used + x.used))
  {
    acc := RestoreIntoItems(rd, w, items, n - 1, D, idx).value;
    x := RestoreInto(rd, Tail(w, acc.used), items[n - 1], false, acc.dest, idx + [n - 1]).value;
  }

  /**
   * One more row, written right after the rows already written: `mid` has
   * the first `off` elements of `xs` at `start`, and `after` writes the
   * next `row` of them at `start + off`.
   */
  lemma {:induction false} RowsStep(buf: seq<real>, start: nat, xs: seq<real>, off: nat, mid: seq<real>,
                 next: nat, rest: seq<real>, row: nat, after: seq<real>)
    requires off <= |xs| && rest == xs[off..] && row <= |rest| && next == start + off
    requires mid == Overwrite(buf, start, xs[..off])
    requires after == Overwrite(mid, next, rest[..row])
    ensures after == Overwrite(buf, start, xs[..off + row])
  {
    assert xs[..off] + rest[..row] == xs[..off + row];
    OverwriteTwice(buf, start, xs[..off], mid, next, rest[..row], after, xs[..off + row]);
  }

  /**
   * A composite descriptor is restored as the consumed run of the vector,
   * reshaped to the composite's shape and given its dtype.
   */
  lemma {:induction false} CompositeIsPrefix(rd: Reading, w: NdArray, shape: seq<nat>, dtype: DType, data: Desc, esm: bool)
    requires Restore(rd, w, CompositeDesc(shape, dtype, data), esm).Ok?
    ensures var res := Restore(rd, w, CompositeDesc(shape, dtype, data), esm).value;
      && res.used == Prod(shape)
      && res.data == Arr(NdArray(shape, dtype, w.elems[..res.used]))
  {
    var zeros := Zeros(shape, dtype);
    FillsBlock(rd, w, data, esm, zeros, []);
    BlockCount(rd, w, data, esm, zeros, []);
    assert shape[0..] == shape;
  }

  /**
   * `ensure_size_matches=True` accepts exactly the restores that consume the
   * whole vector, with the same result.
   */
  lemma {:induction false} StrictRestore(rd: Reading, w: NdArray, s: Desc)
    ensures Restore(rd, w, s, true).Ok? <==>
      Restore(rd, w, s, false).Ok? && Restore(rd, w, s, false).value.used == |w.elems|
    ensures Restore(rd, w, s, true).Ok? ==> Restore(rd, w, s, true).value == Restore(rd, w, s, false).value
  {
    if s.CompositeDesc? && |w.shape| == 1 {
      StrictRestoreInto(rd, w, s.data, Zeros(s.shape, s.dtype), []);
    }
  }

  lemma {:induction false} StrictRestoreInto(rd: Reading, w: NdArray, s: Desc, D: NdArray, idx: seq<nat>)
    ensures RestoreInto(rd, w, s, true, D, idx).Ok? <==>
      RestoreInto(rd, w, s, false, D, idx).Ok? && RestoreInto(rd, w, s, false, D, idx).value.used == |w.elems|
    ensures RestoreInto(rd, w, s, true, D, idx).Ok? ==>
      RestoreInto(rd, w, s, true, D, idx).value == RestoreInto(rd, w, s, false, D, idx).value
    decreases s
  {
    if s.CompositeDesc? && |w.shape| == 1 {
      StrictRestoreInto(rd, w, s.data, D, idx);
    }
  }

  /**
   * The number of vector elements a descriptor stands for: `prod(shape)` for
   * an array or a composite, the sum over the items for a list.
   */
  function DescSize(s: Desc): nat
    decreases s
  {
    match s
    case ArrayDesc(shape) => Prod(shape)
    case CompositeDesc(shape, _, _) => Prod(shape)
    case ListDesc(items) => DescSizeOf(items, |items|)
    case _ => 0
  }

  function DescSizeOf(items: seq<Desc>, n: nat): nat
    requires n <= |items|
    decreases items, n
  {
    if n == 0 then 0 else DescSizeOf(items, n - 1) + DescSize(items[n - 1])
  }

  /**
   * Without a destination a restore consumes exactly the size of the
   * descriptor; so it fails whenever the vector is shorter than that, and,
   * with `ensure_size_matches`, whenever the two differ.
   */
  lemma {:induction false} RestoreConsumes(rd: Reading, w: NdArray, s: Desc, esm: bool)
    ensures Restore(rd, w, s, esm).Ok? ==> Restore(rd, w, s, esm).value.used == DescSize(s)
    ensures DescSize(s) > |w.elems| ==> Restore(rd, w, s, esm).Err?
    ensures esm && DescSize(s) != |w.elems| ==> Restore(rd, w, s, esm).Err?
    decreases s
  {
    match s
    case CompositeDesc(shape, dtype, data) =>
      if Restore(rd, w, s, esm).Ok? {
        CompositeIsPrefix(rd, w, shape, dtype, data, esm);
      }
    case ListDesc(items) =>
      RestoreItemsConsume(rd, w, items, |items|);
    case _ =>
  }

  lemma {:induction false} RestoreItemsConsume(rd: Reading, w: NdArray, items: seq<Desc>, n: nat)
    requires n <= |items|
    ensures RestoreItems(rd, w, items, n).Ok? ==> RestoreItems(rd, w, items, n).value.used == DescSizeOf(items, n)
    decreases items, n
  {
    if n > 0 && RestoreItems(rd, w, items, n).Ok? {
      RestoreItemsConsume(rd, w, items, n - 1);
      var acc := RestoreItems(rd, w, items, n - 1).value;
      RestoreConsumes(rd, Tail(w, acc.used), items[n - 1], false);
    }
  }

  /**
   * `destination[np.ix_(*idx)] = xs.reshape(...)`: the block at leading
   * indexes `idx` of an array of shape `shape` overwritten by `xs`.
   */
  method WriteBlock(xs: seq<real>, shape: seq<nat>, destination: array<real>, idx: seq<nat>)
    requires destination.Length == Prod(shape)
    requires IndexesOk(idx, shape) && |xs| == Prod(shape[|idx|..])
    modifies destination
    ensures destination[..] == Overwrite(old(destination[..]), Start(idx, shape), xs)
  {
    var start := Start(idx, shape);
    BlockInside(idx, shape);
    forall k | 0 <= k < |xs| {
      destination[start + k] := xs[k];
    }
    SplicedUnique(old(destination[..]), start, xs, destination[..]);
  }

  /**
   * `vector_to_nested` with a destination, writing in place into
   * `destination`, the elements of an array of shape `shape` and dtype
   * `dtype` in row-major order. It returns the number of vector elements
   * consumed; the new destination and the result are those of `RestoreInto`.
   */
  method VectorToNestedInto(rd: Reading, vector: NdArray, struct: Desc, esm: bool,
                            shape: seq<nat>, dtype: DType, destination: array<real>, idx: seq<nat>)
    returns (r: Result<nat, CodecError>)
    requires destination.Length == Prod(shape)
    modifies destination
    ensures var spec := RestoreInto(rd, vector, struct, esm, NdArray(shape, dtype, old(destination[..])), idx);
      && (r.Ok? <==> spec.Ok?)
      && (r.Ok? ==> r.value == spec.value.used && destination[..] == spec.value.dest.elems)
      && (r.Err? ==> r.error == spec.error)
    decreases struct
  {
    ghost var D := NdArray(shape, dtype, destination[..]);
    if |vector.shape| != 1 {
      return Err(NotAVector);
    }
    match struct {
      case UntypedDesc =>
        r := Err(MissingType);
      case UnknownTypeDesc(_) =>
        r := Err(UnknownType);
      case OtherDesc =>
        r := Err(UnknownObject);
      case ArrayDesc(leafShape) =>
        var expected := Prod(leafShape);
        if esm && |vector.elems| != expected {
          return Err(SizeMismatch);
        }
        if |vector.elems| < expected {
          return Err(TooShort);
        }
        if leafShape != PySlice(shape, |idx|) {
          return Err(ShapeMismatch);
        }
        if rd.AsWritten? && leafShape == [] {
          return Err(SliceTypeError);
        }
        if !IndexesOk(idx, shape) {
          return Err(IndexError);
        }
        WriteBlock(vector.elems[..expected], shape, destination, idx);
        r := Ok(expected);
      case CompositeDesc(compositeShape, compositeDType, data) =>
        if compositeShape != PySlice(shape, |idx|) {
          return Err(ShapeMismatch);
        }
        if compositeDType != dtype {
          return Err(DTypeMismatch);
        }
        r := VectorToNestedInto(rd, vector, data, esm, shape, dtype, destination, idx);
      case ListDesc(items) =>
        if |idx| >= |shape| {
          return Err(IndexError);
        }
        if |items| != shape[|idx|] {
          return Err(NestedLengthMismatch);
        }
        var rows := FillRowsInto(rd, vector, items, shape, dtype, destination, idx);
        if rows.Err? {
          return Err(rows.error);
        }
        var offset := rows.value;
        if esm && |vector.elems| != offset {
          return Err(ExtraElements);
        }
        r := Ok(offset);
    }
  }

  /**
   * `vector_to_nested` without a destination: an array descriptor takes the
   * next `prod(shape)` elements, a composite one fills a fresh zero array of
   * its shape and dtype, a list one restores its items one after the other,
   * each from the vector past what the previous ones consumed.
   */
  method VectorToNested(rd: Reading, vector: NdArray, struct: Desc, esm: bool)
    returns (r: Result<Restored, CodecError>)
    ensures r == Restore(rd, vector, struct, esm)
    decreases struct
  {
    if |vector.shape| != 1 {
      return Err(NotAVector);
    }
    match struct {
      case UntypedDesc =>
        r := Err(MissingType);
      case UnknownTypeDesc(_) =>
        r := Err(UnknownType);
      case OtherDesc =>
        r := Err(UnknownObject);
      case ArrayDesc(shape) =>
        var expected := Prod(shape);
        if esm && |vector.elems| != expected {
          return Err(SizeMismatch);
        }
        if |vector.elems| < expected {
          return Err(TooShort);
        }
        if rd.AsWritten? && shape == [] {
          return Err(SliceTypeError);
        }
        r := Ok(Restored(Arr(NdArray(shape, vector.dtype, vector.elems[..expected])), expected));
      case CompositeDesc(shape, dtype, data) =>
        var destination := new real[Prod(shape)](_ => 0.0);
        assert destination[..] == Zeros(shape, dtype).elems;
        var res := VectorToNestedInto(rd, vector, data, esm, shape, dtype, destination, []);
        if res.Err? {
          return Err(res.error);
        }
        r := Ok(Restored(Arr(NdArray(shape, dtype, destination[..])), res.value));
      case ListDesc(items) =>
        var list := RestoreList(rd, vector, items);
        if list.Err? {
          return Err(list.error);
        }
        var offset, result := list.value.used, list.value.items;
        if esm && |vector.elems| != offset {
          return Err(ExtraElements);
        }
        r := Ok(Restored(Items(result), offset));
    }
  }

  /**
   * The loop of `vector_to_nested` over a list descriptor with a
   * destination: item `i` restored at indexes `idx + [i]` from the vector
   * past what the items before it consumed.
   */
  method FillRowsInto(rd: Reading, vector: NdArray, items: seq<Desc>,
                      shape: seq<nat>, dtype: DType, destination: array<real>, idx: seq<nat>)
    returns (r: Result<nat, CodecError>)
    requires destination.Length == Prod(shape)
    modifies destination
    ensures var spec := RestoreIntoItems(rd, vector, items, |items|, NdArray(shape, dtype, old(destination[..])), idx);
      && (r.Ok? <==> spec.Ok?)
      && (r.Ok? ==> r.value == spec.value.used && destination[..] == spec.value.dest.elems)
      && (r.Err? ==> r.error == spec.error)
    decreases items
  {
    ghost var D := NdArray(shape, dtype, destination[..]);
    var offset: nat := 0;
    for i := 0 to |items|
      invariant RestoreIntoItems(rd, vector, items, i, D, idx) == Ok(Filled(NdArray(shape, dtype, destination[..]), offset))
    {
      var res := VectorToNestedInto(rd, Tail(vector, offset), items[i], false, shape, dtype, destination, idx + [i]);
      if res.Err? {
        RestoreIntoItemsErrSticky(rd, vector, items, i + 1, |items|, D, idx);
        return Err(res.error);
      }
      if rd.AsWritten? {
        RestoreIntoItemsErrSticky(rd, vector, items, i + 1, |items|, D, idx);
        return Err(OffsetTypeError);
      }
      offset := offset + res.value;
    }
    r := Ok(offset);
  }

  /**
   * The loop of `vector_to_nested` over a list descriptor without a
   * destination: the items restored one after the other.
   */
  method RestoreList(rd: Reading, vector: NdArray, items: seq<Desc>) returns (r: Result<RestoredList, CodecError>)
    ensures r == RestoreItems(rd, vector, items, |items|)
    decreases items
  {
    var offset: nat := 0;
    var result: seq<Nested> := [];
    for i := 0 to |items|
      invariant RestoreItems(rd, vector, items, i) == Ok(RestoredList(result, offset))
    {
      var res := VectorToNested(rd, Tail(vector, offset), items[i], false);
      if res.Err? {
        RestoreItemsErrSticky(rd, vector, items, i + 1, |items|);
        return Err(res.error);
      }
      offset := offset + res.value.used;
      result := result + [res.value.data];
    }
    r := Ok(RestoredList(result, offset));
  }
}
