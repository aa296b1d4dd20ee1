/**
 * `nested_to_vector` (pyscf/pbc/lib/kpts_helper.py): every array of nested
 * data raveled into one flat buffer, depth first, at a moving offset.
 */
module PackNested {
  import opened Wrappers
  import opened NestedData
  import opened DescribeNested

  /**
   * `destination[o:o + s] = a.ravel()` succeeds: the slice, cut off at the end
   * of a buffer of length `len`, has `s` elements, or `s` is 1 and broadcasts.
   */
  predicate LeafFits(a: NdArray, o: nat, len: nat) {
    |a.elems| < 2 || o + |a.elems| <= len
  }

  /** Every array of the run fits where it is written, the first one at `o`. */
  predicate FitsRun(leaves: seq<NdArray>, o: nat, len: nat) {
    leaves == [] ||
    (FitsRun(leaves[..|leaves| - 1], o, len) &&
     LeafFits(leaves[|leaves| - 1], o + |Elems(leaves[..|leaves| - 1])|, len))
  }

  lemma {:induction false} FitsRunAppend(xs: seq<NdArray>, ys: seq<NdArray>, o: nat, len: nat)
    ensures FitsRun(xs + ys, o, len) <==> FitsRun(xs, o, len) && FitsRun(ys, o + |Elems(xs)|, len)
    decreases |ys|
  {
    if ys == [] {
      assert xs + ys == xs;
    } else {
      var zs, ys' := xs + ys, ys[..|ys| - 1];
      assert zs[..|zs| - 1] == xs + ys';
      FitsRunAppend(xs, ys', o, len);
      ElemsAppend(xs, ys');
    }
  }

  /** A run that ends inside the buffer fits. */
  lemma {:induction false} FitsWithin(leaves: seq<NdArray>, o: nat, len: nat)
    requires o + |Elems(leaves)| <= len
    ensures FitsRun(leaves, o, len)
    decreases |leaves|
  {
    if leaves != [] {
      FitsWithin(leaves[..|leaves| - 1], o, len);
    }
  }

  /** The list items written so far are a prefix of the whole list. */
  lemma {:induction false} PrefixOfItems(items: seq<Nested>, i: nat, o: nat, len: nat)
    requires i <= |items|
    requires NoOtherIn(items, |items|) && FitsRun(LeavesOf(items, |items|), o, len)
    ensures NoOtherIn(items, i) && FitsRun(LeavesOf(items, i), o, len)
    decreases |items| - i
  {
    if i < |items| {
      PrefixOfItems(items, i + 1, o, len);
      FitsRunAppend(LeavesOf(items, i), Leaves(items[i]), o, len);
    }
  }

  /** One more item of a list written right after the items before it. */
  lemma {:induction false} ItemWritten(items: seq<Nested>, i: nat, offset: nat, len: nat, start: seq<real>,
                                       before: seq<real>, after: seq<real>, off: nat, next: nat)
    requires i < |items|
    requires NoOtherIn(items, i) && FitsRun(LeavesOf(items, i), offset, len)
    requires off == offset + |Elems(LeavesOf(items, i))|
    requires before == Overwrite(start, offset, Elems(LeavesOf(items, i)))
    requires NoOther(items[i]) && FitsRun(Leaves(items[i]), off, len)
    requires next == off + |Flatten(items[i])|
    requires after == Overwrite(before, off, Flatten(items[i]))
    ensures NoOtherIn(items, i + 1) && FitsRun(LeavesOf(items, i + 1), offset, len)
    ensures next == offset + |Elems(LeavesOf(items, i + 1))|
    ensures after == Overwrite(start, offset, Elems(LeavesOf(items, i + 1)))
  {
    var done, all := LeavesOf(items, i), LeavesOf(items, i + 1);
    assert all == done + Leaves(items[i]);
    FitsRunJoin(done, Leaves(items[i]), all, offset, off, len);
    ElemsAppend(done, Leaves(items[i]));
    OverwriteTwice(start, offset, Elems(done), before, off, Flatten(items[i]), after, Elems(all));
  }

  /** `FitsRunAppend` for a run `zs` made of `xs` followed by `ys`, the latter written from `o'`. */
  lemma {:induction false} FitsRunJoin(xs: seq<NdArray>, ys: seq<NdArray>, zs: seq<NdArray>, o: nat, o': nat, len: nat)
    requires zs == xs + ys && o' == o + |Elems(xs)|
    ensures FitsRun(zs, o, len) <==> FitsRun(xs, o, len) && FitsRun(ys, o', len)
  {
    FitsRunAppend(xs, ys, o, len);
    assert FitsRun(ys, o', len) == FitsRun(ys, o + |Elems(xs)|, len);
    assert FitsRun(zs, o, len) == FitsRun(xs + ys, o, len);
  }

  /** When one item fails, the whole list does. */
  lemma {:induction false} ItemFails(items: seq<Nested>, i: nat, offset: nat, len: nat)
    requires i < |items|
    requires !(NoOther(items[i]) && FitsRun(Leaves(items[i]), offset + |Elems(LeavesOf(items, i))|, len))
    ensures !(NoOtherIn(items, |items|) && FitsRun(LeavesOf(items, |items|), offset, len))
  {
    if NoOtherIn(items, |items|) && FitsRun(LeavesOf(items, |items|), offset, len) {
      ItemFits(items, i, offset, len);
    }
  }

  /** When the whole list is written, so is each item, at the offset after the items before it. */
  lemma {:induction false} ItemFits(items: seq<Nested>, i: nat, offset: nat, len: nat)
    requires i < |items|
    requires NoOtherIn(items, |items|) && FitsRun(LeavesOf(items, |items|), offset, len)
    ensures NoOther(items[i]) && FitsRun(Leaves(items[i]), offset + |Elems(LeavesOf(items, i))|, len)
  {
    var done, mine, next := LeavesOf(items, i), Leaves(items[i]), LeavesOf(items, i + 1);
    PrefixOfItems(items, i + 1, offset, len);
    assert next == done + mine;
    FitsRunJoin(done, mine, next, offset, offset + |Elems(done)|, len);
  }

  /**
   * `destination[offset:offset + size] = a.ravel()`, NumPy's slice assignment:
   * the slice is cut off at the end of the buffer, and a single element is
   * broadcast over it.
   */
  method WriteLeaf(a: NdArray, destination: array<real>, offset: nat) returns (r: Result<nat, CodecError>)
    modifies destination
    ensures r.Ok? <==> LeafFits(a, offset, destination.Length)
    ensures r.Ok? ==> r.value == offset + |a.elems|
    ensures r.Ok? ==> destination[..] == Overwrite(old(destination[..]), offset, a.elems)
    ensures r.Err? ==> r.error == BroadcastError
  {
    var size := |a.elems|;
    var len := destination.Length;
    var slice := if offset >= len then 0 else if offset + size <= len then size else len - offset;
    if slice != size && size != 1 {
      return Err(BroadcastError);
    }
    forall k | 0 <= k < slice {
      destination[offset + k] := a.elems[k];
    }
    SplicedUnique(old(destination[..]), offset, a.elems, destination[..]);
    r := Ok(offset + size);
  }

  /**
   * `nested_to_vector(data, destination, offset)`: an array is raveled into
   * `destination[offset:offset + size]`; a list or tuple is written item by
   * item, each at the offset the previous one returned. It returns the new
   * offset. The buffer then holds the flattened data at `offset` (cut off at
   * its end); it fails when some item is neither an array nor a list or
   * tuple, or some array of two or more elements overruns the buffer.
   */
  method NestedToVectorInto(d: Nested, destination: array<real>, offset: nat) returns (r: Result<nat, CodecError>)
    modifies destination
    ensures r.Ok? <==> NoOther(d) && FitsRun(Leaves(d), offset, destination.Length)
    ensures r.Ok? ==> r.value == offset + |Flatten(d)|
    ensures r.Ok? ==> destination[..] == Overwrite(old(destination[..]), offset, Flatten(d))
    decreases d
  {
    match d {
      case Arr(a) =>
        assert Leaves(d) == [a] && [a][..0] == [];
        r := WriteLeaf(a, destination, offset);
      case Items(items) =>
        r := WriteItems(items, destination, offset);
        assert Leaves(d) == LeavesOf(items, |items|);
      case Other =>
        r := Err(UnknownObject);
    }
  }

  /** The loop of `nested_to_vector` over a list or tuple: each item written at the offset the previous one returned. */
  method WriteItems(items: seq<Nested>, destination: array<real>, offset: nat) returns (r: Result<nat, CodecError>)
    modifies destination
    ensures r.Ok? <==> NoOtherIn(items, |items|) && FitsRun(LeavesOf(items, |items|), offset, destination.Length)
    ensures r.Ok? ==> r.value == offset + |Elems(LeavesOf(items, |items|))|
    ensures r.Ok? ==> destination[..] == Overwrite(old(destination[..]), offset, Elems(LeavesOf(items, |items|)))
    decreases items
  {
    var off := offset;
    ghost var start := destination[..];
    OverwriteNothing(start, offset, Elems(LeavesOf(items, 0)));
    for i := 0 to |items|
      invariant NoOtherIn(items, i) && FitsRun(LeavesOf(items, i), offset, destination.Length)
      invariant off == offset + |Elems(LeavesOf(items, i))|
      invariant destination[..] == Overwrite(start, offset, Elems(LeavesOf(items, i)))
    {
      ghost var before := destination[..];
      var res := NestedToVectorInto(items[i], destination, off);
      if res.Err? {
        ItemFails(items, i, offset, destination.Length);
        return Err(res.error);
      }
      ItemWritten(items, i, offset, destination.Length, start, before, destination[..], off, res.value);
      off := res.value;
    }
    r := Ok(off);
  }

  /** The dtype of the buffer `np.empty(total_size, dtype=dtype)` allocates. */
  function VectorDType(dtype: Option<DType>): DType {
    if dtype.None? then DefaultDType else dtype.value
  }

  /** What `nested_to_vector(data)` returns: the flat vector and the descriptor. */
  datatype Packing = Packing(vector: NdArray, struct: Desc)

  /** The result of `nested_to_vector(data)` from offset 0. */
  function Packed(rd: Reading, d: Nested): Result<Packing, CodecError> {
    match Describe(rd, d)
    case Err(e) => Err(e)
    case Ok(x) => Ok(Packing(NdArray([x.size], VectorDType(x.dtype), Flatten(d)), x.struct))
  }

  /**
   * `nested_to_vector(data, offset=offset)` without a destination: the data
   * is described, a buffer of the total size and the common dtype (float64
   * when there is none) is allocated, and the data written into it. Its
   * elements before `offset` are left as allocated. From offset 0 the result
   * is the flattened data and the mirroring descriptor.
   */
  method NestedToVectorNew(rd: Reading, d: Nested, offset: nat) returns (r: Result<Packing, CodecError>)
    requires AllValid(Leaves(d))
    ensures r.Ok? <==> Describe(rd, d).Ok? && FitsRun(Leaves(d), offset, |Flatten(d)|)
    ensures r.Ok? ==> r.value.struct == Mirror(d) && r.value.vector.shape == [|Flatten(d)|]
    ensures r.Ok? ==> r.value.vector.Valid() && r.value.vector.dtype == VectorDType(Describe(rd, d).value.dtype)
    ensures r.Ok? ==> |r.value.vector.elems| == |Flatten(d)|
    ensures r.Ok? ==> forall i :: offset <= i < |Flatten(d)| ==> r.value.vector.elems[i] == Flatten(d)[i - offset]
    ensures offset == 0 ==> r == Packed(rd, d)
  {
    var described := DescribeNestedData(rd, d);
    if described.Err? {
      return Err(described.error);
    }
    DescribeMirrors(rd, d);
    ElemsLength(Leaves(d));
    var total := described.value.size;
    ghost var flat := Flatten(d);
    assert total == |flat|;
    var destination := new real[total];
    ghost var initial := destination[..];
    var res := NestedToVectorInto(d, destination, offset);
    if offset == 0 {
      FitsWithin(Leaves(d), 0, total);
    }
    if res.Err? {
      return Err(res.error);
    }
    FreshBufferFilled(initial, offset, flat, destination[..]);
    var vector := NdArray([total], VectorDType(described.value.dtype), destination[..]);
    assert Prod([total]) == Mul(total, Prod([])) == total by { MulIsProduct(total, 1); }
    r := Ok(Packing(vector, described.value.struct));
  }

  /** A buffer the size of the data, written from `offset`, holds the data from there on; from 0 it is the data. */
  lemma {:induction false} FreshBufferFilled(initial: seq<real>, offset: nat, flat: seq<real>, final: seq<real>)
    requires |initial| == |flat| && final == Overwrite(initial, offset, flat)
    ensures |final| == |flat|
    ensures forall i :: offset <= i < |flat| ==> final[i] == flat[i - offset]
    ensures offset == 0 ==> final == flat
  {
    OverwriteSpliced(initial, offset, flat);
  }
}
