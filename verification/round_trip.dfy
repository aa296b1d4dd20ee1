/**
 * What `nested_to_vector` and `vector_to_nested` of
 * pyscf/pbc/lib/kpts_helper.py promise together: the vector and the
 * descriptor made from some data give that data back.
 */
module CodecRoundTrip {
  import opened Wrappers
  import opened NestedData
  import opened DescribeNested
  import opened PackNested
  import opened RestoreNested

  /** Every array holds as many elements as its shape says and, as written, none is 0-d. */
  predicate Restorable(rd: Reading, leaves: seq<NdArray>) {
    forall j :: 0 <= j < |leaves| ==> leaves[j].Valid() && (rd.AsWritten? ==> leaves[j].shape != [])
  }

  lemma {:induction false} RestorableSplit(rd: Reading, xs: seq<NdArray>, ys: seq<NdArray>)
    requires Restorable(rd, xs + ys)
    ensures Restorable(rd, xs) && Restorable(rd, ys)
  {
    forall j | 0 <= j < |xs|
      ensures xs[j].Valid() && (rd.AsWritten? ==> xs[j].shape != [])
    {
      assert xs[j] == (xs + ys)[j];
    }
    forall j | 0 <= j < |ys|
      ensures ys[j].Valid() && (rd.AsWritten? ==> ys[j].shape != [])
    {
      assert ys[j] == (xs + ys)[|xs| + j];
    }
  }

  lemma {:induction false} ElemsSingle(a: NdArray)
    ensures Elems([a]) == a.elems
  {
    assert [a][..0] == [];
  }

  /**
   * A vector that starts with the flattened data, read with the descriptor
   * that mirrors the data, gives the data back (in the vector's dtype) and
   * consumes exactly its elements.
   */
  lemma {:induction false} RestoresMirror(rd: Reading, w: NdArray, d: Nested)
    requires |w.shape| == 1 && NoOther(d) && Restorable(rd, Leaves(d))
    requires |Flatten(d)| <= |w.elems| && w.elems[..|Flatten(d)|] == Flatten(d)
    ensures Restore(rd, w, Mirror(d), false) == Ok(Restored(WithDType(d, w.dtype), |Flatten(d)|))
    decreases d
  {
    match d
    case Arr(a) =>
      assert Leaves(d) == [a];
      ElemsSingle(a);
      assert Leaves(d)[0].Valid() && (rd.AsWritten? ==> a.shape != []);
      assert w.elems[..Prod(a.shape)] == a.elems;
      assert Mirror(d) == ArrayDesc(a.shape);
    case Items(items) =>
      RestoresMirrorItems(rd, w, items, |items|);
      assert Mirror(d) == ListDesc(MirrorOf(items, |items|));
      assert Flatten(d) == Elems(LeavesOf(items, |items|));
      assert WithDType(d, w.dtype) == Items(WithDTypeOf(items, |items|, w.dtype));
  }

  lemma {:induction false} RestoresMirrorItems(rd: Reading, w: NdArray, items: seq<Nested>, n: nat)
    requires n <= |items| && |w.shape| == 1
    requires NoOtherIn(items, n) && Restorable(rd, LeavesOf(items, n))
    requires |Elems(LeavesOf(items, n))| <= |w.elems|
    requires w.elems[..|Elems(LeavesOf(items, n))|] == Elems(LeavesOf(items, n))
    ensures RestoreItems(rd, w, MirrorOf(items, |items|), n) ==
      Ok(RestoredList(WithDTypeOf(items, n, w.dtype), |Elems(LeavesOf(items, n))|))
    decreases items, n
  {
    if n > 0 {
      var done, mine := LeavesOf(items, n - 1), Leaves(items[n - 1]);
      var front, back := Elems(done), Flatten(items[n - 1]);
      assert LeavesOf(items, n) == done + mine;
      ElemsAppend(done, mine);
      RestorableSplit(rd, done, mine);
      var all := Elems(LeavesOf(items, n));
      assert all == front + back;
      PrefixSplit(w.elems, front, back, all);
      RestoresMirrorItems(rd, w, items, n - 1);
      var t := Tail(w, |front|);
      RestoresMirror(rd, t, items[n - 1]);
      var ds := MirrorOf(items, |items|);
      var acc := RestoredList(WithDTypeOf(items, n - 1, w.dtype), |front|);
      var x := Restored(WithDType(items[n - 1], w.dtype), |back|);
      assert ds[n - 1] == Mirror(items[n - 1]);
      RestoreItemsStep(rd, w, ds, n, acc, x);
      assert WithDTypeOf(items, n, w.dtype) == acc.items + [x.data];
      assert |Elems(LeavesOf(items, n))| == acc.used + x.used;
    }
  }

  /** A buffer that starts with `xs + ys` starts with `xs`, and the rest of it with `ys`. */
  lemma {:induction false} PrefixSplit(buf: seq<real>, xs: seq<real>, ys: seq<real>, zs: seq<real>)
    requires zs == xs + ys && |zs| <= |buf| && buf[..|zs|] == zs
    ensures |xs| <= |buf| && |ys| <= |buf| - |xs|
    ensures buf[..|xs|] == xs && buf[|xs|..][..|ys|] == ys
  {
    assert buf[..|xs|] == zs[..|xs|];
    assert buf[|xs|..][..|ys|] == zs[|xs|..];
  }

  /** One more item of a list descriptor restored after the earlier ones. */
  lemma {:induction false} RestoreItemsStep(rd: Reading, w: NdArray, ds: seq<Desc>, n: nat, acc: RestoredList, x: Restored)
    requires 1 <= n <= |ds| && acc.used <= |w.elems|
    requires RestoreItems(rd, w, ds, n - 1) == Ok(acc)
    requires Restore(rd, Tail(w, acc.used), ds[n - 1], false) == Ok(x)
    ensures RestoreItems(rd, w, ds, n) == Ok(RestoredList(acc.items + [x.data], acc.used + x.used))
  {
  }

  /**
   * `vector_to_nested(*nested_to_vector(data))` gives back exactly `data`
   * and consumes the whole vector, for packed data whose arrays all have
   * the vector's dtype and (as written) are not 0-d.
   */
  lemma {:induction false} RoundTrip(rd: Reading, d: Nested)
    requires Packed(rd, d).Ok?
    ensures var p := Packed(rd, d).value;
      Restorable(rd, Leaves(d)) && AllDType(Leaves(d), p.vector.dtype) ==>
        Restore(rd, p.vector, p.struct, true) == Ok(Restored(d, |p.vector.elems|))
  {
    var p := Packed(rd, d).value;
    if Restorable(rd, Leaves(d)) && AllDType(Leaves(d), p.vector.dtype) {
      RestoresPacked(rd, d);
      WithOwnDType(d, p.vector.dtype);
    }
  }

  /** Restoring the packed vector reads the flattened data back, relabelled with the vector's dtype. */
  lemma {:induction false} RestoresPacked(rd: Reading, d: Nested)
    requires Packed(rd, d).Ok? && Restorable(rd, Leaves(d))
    ensures var p := Packed(rd, d).value;
      Restore(rd, p.vector, p.struct, true) == Ok(Restored(WithDType(d, p.vector.dtype), |p.vector.elems|))
  {
    var p := Packed(rd, d).value;
    DescribeMirrors(rd, d);
    assert p.vector.elems[..|Flatten(d)|] == Flatten(d);
    RestoresMirror(rd, p.vector, d);
    StrictRestore(rd, p.vector, p.struct);
  }

  /**
   * The code as written packs every nest of arrays sharing one dtype, and
   * when `describe_nested` reports that dtype (no trailing item without
   * arrays) the round trip gives back exactly the data.
   */
  lemma {:induction false} RoundTripAsWritten(d: Nested)
    requires NoOther(d) && Uniform(Leaves(d)) && Restorable(AsWritten, Leaves(d))
    ensures Packed(AsWritten, d).Ok?
    ensures var p := Packed(AsWritten, d).value;
      Describe(AsWritten, d).value.dtype.Some? ==>
        && AllDType(Leaves(d), p.vector.dtype)
        && Restore(AsWritten, p.vector, p.struct, true) == Ok(Restored(d, |Flatten(d)|))
  {
    AcceptsUniform(AsWritten, d);
    var p := Packed(AsWritten, d).value;
    var leaves := Leaves(d);
    if Describe(AsWritten, d).value.dtype.Some? {
      assert leaves != [] && p.vector.dtype == leaves[0].dtype;
      assert AllDType(leaves, p.vector.dtype) by {
        forall j | 0 <= j < |leaves|
          ensures leaves[j].dtype == leaves[0].dtype
        {
        }
      }
      RoundTrip(AsWritten, d);
    }
  }

  /**
   * With the three corrections, data of valid arrays that share one dtype
   * is packed, and the vector and descriptor give back exactly that data.
   */
  lemma {:induction false} RoundTripIntended(d: Nested)
    requires AllValid(Leaves(d)) && NoOther(d) && Uniform(Leaves(d))
    ensures Packed(Intended, d).Ok?
    ensures var p := Packed(Intended, d).value;
      Restore(Intended, p.vector, p.struct, true) == Ok(Restored(d, |Flatten(d)|))
  {
    IntendedDescribeChecksDTypes(d);
    var p := Packed(Intended, d).value;
    RoundTrip(Intended, d);
    var leaves := Leaves(d);
    assert Restorable(Intended, leaves) by {
      forall j | 0 <= j < |leaves|
        ensures leaves[j].Valid()
      {
      }
    }
    if leaves != [] {
      assert AllDType(leaves, p.vector.dtype) by {
        forall j | 0 <= j < |leaves|
          ensures leaves[j].dtype == leaves[0].dtype
        {
        }
      }
    }
  }

  /**
   * As written, an int64 array followed by an empty list is packed into a
   * float64 vector, so the round trip changes the array's dtype.
   */
  lemma {:induction false} DTypeLostAsWritten()
    ensures var a := NdArray([1], DType("int64"), [1.0]);
      var d := Items([Arr(a), Items([])]);
      && Packed(AsWritten, d).Ok?
      && Packed(AsWritten, d).value.vector.dtype == DType("float64")
      && Restore(AsWritten, Packed(AsWritten, d).value.vector, Packed(AsWritten, d).value.struct, true)
         == Ok(Restored(Items([Arr(NdArray([1], DType("float64"), [1.0])), Items([])]), 1))
  {
    var a := NdArray([1], DType("int64"), [1.0]);
    var items := [Arr(a), Items([])];
    var d := Items(items);
    assert Prod([1]) == 1;
    assert Describe(AsWritten, Arr(a)) == Ok(Described(ArrayDesc([1]), 1, Some(a.dtype)));
    assert [] + [ArrayDesc([1])] == [ArrayDesc([1])];
    assert [ArrayDesc([1])] + [ListDesc([])] == [ArrayDesc([1]), ListDesc([])];
    assert DescribeItems(AsWritten, items, 1) == Ok(Described(ListDesc([ArrayDesc([1])]), 1, Some(a.dtype)));
    assert Describe(AsWritten, Items([])) == Ok(Described(ListDesc([]), 0, None));
    assert DescribeItems(AsWritten, items, 2) == Ok(Described(ListDesc([ArrayDesc([1]), ListDesc([])]), 1, None));
    assert Leaves(Arr(a)) == [a] && Leaves(Items([])) == [];
    assert LeavesOf(items, 1) == [a];
    assert Leaves(d) == [a];
    RestoresPacked(AsWritten, d);
    assert WithDType(d, DType("float64")) == Items([Arr(NdArray([1], DType("float64"), [1.0])), Items([])]);
  }

  /**
   * As written, a 0-d array is packed but cannot be restored: its element
   * count `np.prod(())` is the float 1.0, which cannot slice the vector.
   */
  lemma {:induction false} ScalarLeafAsWritten(x: real)
    ensures var d := Arr(NdArray([], DefaultDType, [x]));
      && Packed(AsWritten, d).Ok?
      && Restore(AsWritten, Packed(AsWritten, d).value.vector, Packed(AsWritten, d).value.struct, true)
         == Err(SliceTypeError)
  {
    var d := Arr(NdArray([], DefaultDType, [x]));
    assert Leaves(d) == [d.arr];
    ElemsSingle(d.arr);
    assert Prod([1]) == 1;
  }

  /** With the integer count, the same 0-d array comes back. */
  lemma {:induction false} ScalarLeafIntended(x: real)
    ensures var d := Arr(NdArray([], DefaultDType, [x]));
      && Packed(Intended, d).Ok?
      && Restore(Intended, Packed(Intended, d).value.vector, Packed(Intended, d).value.struct, true)
         == Ok(Restored(d, 1))
  {
    var d := Arr(NdArray([], DefaultDType, [x]));
    assert Leaves(d) == [d.arr] && [d.arr][..0] == [];
    RoundTripIntended(d);
  }

  /** A list descriptor of one `{"type": "array"}` per row of `shape`. */
  predicate RowsOf(rows: seq<Desc>, shape: seq<nat>) {
    |shape| >= 1 && |rows| == shape[0] && forall j :: 0 <= j < |rows| ==> rows[j] == ArrayDesc(shape[1..])
  }

  /**
   * As written, a composite descriptor whose data lists its rows fails as
   * soon as the first row is restored: the `(destination, size)` pair that
   * row returns is added to the integer offset.
   */
  lemma {:induction false} CompositeRowsAsWritten(w: NdArray, shape: seq<nat>, dt: DType, rows: seq<Desc>)
    requires |w.shape| == 1 && RowsOf(rows, shape) && |shape| >= 2 && |rows| >= 1
    requires Prod(shape) <= |w.elems|
    ensures Restore(AsWritten, w, CompositeDesc(shape, dt, ListDesc(rows)), false) == Err(OffsetTypeError)
  {
    var D := Zeros(shape, dt);
    var acc := Filled(D, 0);
    assert RestoreIntoItems(AsWritten, w, rows, 0, D, []) == Ok(acc);
    RowRestored(AsWritten, w, D, 1, acc);
    assert rows[0] == ArrayDesc(shape[1..]) && [] + [0] == [0];
    assert RestoreIntoItems(AsWritten, w, rows, 1, D, []) == Err(OffsetTypeError);
    RestoreIntoItemsErrSticky(AsWritten, w, rows, 1, |rows|, D, []);
  }

  /**
   * Read with the offset advanced by the consumed size, the same descriptor
   * restores the vector's first `prod(shape)` elements as one array of that
   * shape and dtype.
   */
  lemma {:induction false} CompositeRowsIntended(w: NdArray, shape: seq<nat>, dt: DType, rows: seq<Desc>)
    requires |w.shape| == 1 && RowsOf(rows, shape)
    requires Prod(shape) <= |w.elems|
    ensures Restore(Intended, w, CompositeDesc(shape, dt, ListDesc(rows)), false) ==
      Ok(Restored(Arr(NdArray(shape, dt, w.elems[..Prod(shape)])), Prod(shape)))
  {
    var D := Zeros(shape, dt);
    RowsRestored(w, rows, |rows|, D);
    CompositeIsPrefix(Intended, w, shape, dt, ListDesc(rows), false);
  }

  lemma {:induction false} RowsRestored(w: NdArray, rows: seq<Desc>, k: nat, D: NdArray)
    requires |w.shape| == 1 && RowsOf(rows, D.shape) && k <= |rows|
    requires Prod(D.shape) <= |w.elems|
    ensures RestoreIntoItems(Intended, w, rows, k, D, []).Ok?
    decreases k
  {
    if k > 0 {
      RowsRestored(w, rows, k - 1, D);
      var acc := RestoreIntoItems(Intended, w, rows, k - 1, D, []).value;
      RowsCount(Intended, w, rows, k - 1, D, []);
      RowRestored(Intended, w, D, k, acc);
      assert rows[k - 1] == ArrayDesc(D.shape[1..]) && [] + [k - 1] == [k - 1];
      var x := RestoreInto(Intended, Tail(w, acc.used), rows[k - 1], false, acc.dest, [] + [k - 1]).value;
      IntoItemsStep(w, rows, k, D, acc, x);
    }
  }

  /** Row `k - 1` of `D` fits in what is left of the vector after the rows before it. */
  lemma {:induction false} RowRestored(rd: Reading, w: NdArray, D: NdArray, k: nat, acc: Filled)
    requires |w.shape| == 1 && |D.shape| >= 1 && 1 <= k <= D.shape[0]
    requires rd.AsWritten? ==> |D.shape| >= 2
    requires acc.dest.shape == D.shape && acc.used == Mul(k - 1, Prod(D.shape[1..]))
    requires Prod(D.shape) <= |w.elems|
    ensures acc.used <= |w.elems|
    ensures RestoreInto(rd, Tail(w, acc.used), ArrayDesc(D.shape[1..]), false, acc.dest, [k - 1]).Ok?
  {
    assert D.shape[0..] == D.shape;
    ProdFrom(D.shape, 0);
    RowBound(k - 1, D.shape[0], Prod(D.shape[1..]));
    assert IndexesOk([k - 1], acc.dest.shape);
  }

  /** One more row restored after the earlier ones. */
  lemma {:induction false} IntoItemsStep(w: NdArray, rows: seq<Desc>, k: nat, D: NdArray, acc: Filled, x: Filled)
    requires 1 <= k <= |rows| && acc.used <= |w.elems|
    requires RestoreIntoItems(Intended, w, rows, k - 1, D, []) == Ok(acc)
    requires RestoreInto(Intended, Tail(w, acc.used), rows[k - 1], false, acc.dest, [] + [k - 1]) == Ok(x)
    ensures RestoreIntoItems(Intended, w, rows, k, D, []) == Ok(Filled(x.dest, acc.used + x.used))
  {
  }

  /** The data of `test_1` in pyscf/pbc/lib/test/test_kpts.py: ((a, b), (c,)) with `a`, `b`, `c` of shapes (3, 1, 4), (5,) and (9,). */
  function Test1Data(x: seq<real>, y: seq<real>, z: seq<real>): Nested {
    Items([Items([Arr(NdArray([3, 1, 4], DefaultDType, x)), Arr(NdArray([5], DefaultDType, y))]),
           Items([Arr(NdArray([9], DefaultDType, z))])])
  }

  /** The descriptor `test_1` expects: the shapes, nested as the data is. */
  const Test1Desc := ListDesc([ListDesc([ArrayDesc([3, 1, 4]), ArrayDesc([5])]), ListDesc([ArrayDesc([9])])])

  lemma {:induction false} Test1Described(x: seq<real>, y: seq<real>, z: seq<real>)
    requires |x| == 12 && |y| == 5 && |z| == 9
    ensures Describe(AsWritten, Test1Data(x, y, z)) == Ok(Described(Test1Desc, 26, Some(DefaultDType)))
  {
    var f := DefaultDType;
    var a, b, c := NdArray([3, 1, 4], f, x), NdArray([5], f, y), NdArray([9], f, z);
    var first, second := [Arr(a), Arr(b)], [Arr(c)];
    var outer := [Items(first), Items(second)];
    assert Prod([4]) == 4 && Prod([1, 4]) == 4 && Prod([3, 1, 4]) == 12;
    assert Prod([5]) == 5 && Prod([9]) == 9;
    var da, db, dc := ArrayDesc([3, 1, 4]), ArrayDesc([5]), ArrayDesc([9]);
    assert Describe(AsWritten, Arr(a)) == Ok(Described(da, 12, Some(f)));
    assert Describe(AsWritten, Arr(b)) == Ok(Described(db, 5, Some(f)));
    assert Describe(AsWritten, Arr(c)) == Ok(Described(dc, 9, Some(f)));
    assert [] + [da] == [da] && [da] + [db] == [da, db] && [] + [dc] == [dc];
    assert DescribeItems(AsWritten, first, 1) == Ok(Described(ListDesc([da]), 12, Some(f)));
    assert DescribeItems(AsWritten, first, 2) == Ok(Described(ListDesc([da, db]), 17, Some(f)));
    assert DescribeItems(AsWritten, second, 1) == Ok(Described(ListDesc([dc]), 9, Some(f)));
    assert [] + [ListDesc([da, db])] == [ListDesc([da, db])];
    assert [ListDesc([da, db])] + [ListDesc([dc])] == [ListDesc([da, db]), ListDesc([dc])];
    assert DescribeItems(AsWritten, outer, 1) == Ok(Described(ListDesc([ListDesc([da, db])]), 17, Some(f)));
    assert DescribeItems(AsWritten, outer, 2) ==
      Ok(Described(ListDesc([ListDesc([da, db]), ListDesc([dc])]), 26, Some(f)));
  }

  lemma {:induction false} Test1Leaves(x: seq<real>, y: seq<real>, z: seq<real>)
    requires |x| == 12 && |y| == 5 && |z| == 9
    ensures var f := DefaultDType;
      Leaves(Test1Data(x, y, z)) == [NdArray([3, 1, 4], f, x), NdArray([5], f, y), NdArray([9], f, z)]
    ensures Flatten(Test1Data(x, y, z)) == x + y + z
  {
    var f := DefaultDType;
    var a, b, c := NdArray([3, 1, 4], f, x), NdArray([5], f, y), NdArray([9], f, z);
    var first, second := [Arr(a), Arr(b)], [Arr(c)];
    var outer := [Items(first), Items(second)];
    assert Leaves(Arr(a)) == [a] && Leaves(Arr(b)) == [b] && Leaves(Arr(c)) == [c];
    assert LeavesOf(first, 1) == [a];
    assert Leaves(Items(first)) == LeavesOf(first, 2) == [a, b];
    assert LeavesOf(second, 1) == [c];
    assert Leaves(Items(second)) == [c];
    assert LeavesOf(outer, 1) == [a, b];
    assert Leaves(Items(outer)) == LeavesOf(outer, 2) == [a, b, c];
    ElemsSingle(a);
    assert [a, b][..1] == [a] && [a, b, c][..2] == [a, b];
    assert Elems([a, b]) == x + y;
  }

  /**
   * `test_1` of pyscf/pbc/lib/test/test_kpts.py: the data gives a vector of
   * 26 elements and the mirroring descriptor, and comes back unchanged.
   */
  lemma {:induction false} PackRestoreExample(x: seq<real>, y: seq<real>, z: seq<real>)
    requires |x| == 12 && |y| == 5 && |z| == 9
    ensures Packed(AsWritten, Test1Data(x, y, z)) == Ok(Packing(NdArray([26], DefaultDType, x + y + z), Test1Desc))
    ensures Restore(AsWritten, NdArray([26], DefaultDType, x + y + z), Test1Desc, true) ==
      Ok(Restored(Test1Data(x, y, z), 26))
  {
    var d := Test1Data(x, y, z);
    Test1Described(x, y, z);
    Test1Leaves(x, y, z);
    assert Prod([4]) == 4 && Prod([1, 4]) == 4 && Prod([3, 1, 4]) == 12;
    assert Prod([5]) == 5 && Prod([9]) == 9;
    assert AllDType(Leaves(d), DefaultDType);
    RoundTrip(AsWritten, d);
  }
}
