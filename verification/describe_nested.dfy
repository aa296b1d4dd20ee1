/**
 * `describe_nested` (pyscf/pbc/lib/kpts_helper.py): the descriptor, the
 * total element count and the common dtype of nested data.
 */
module DescribeNested {
  import opened Wrappers
  import opened NestedData

  /** What `describe_nested` returns: `(struct, total_size, dtype)`; `None` stands for Python's None. */
  datatype Described = Described(struct: Desc, size: nat, dtype: Option<DType>)

  /**
   * The dtype carried to the next sibling. As written the last item's dtype
   * replaces it even when that is None (an item without arrays); the
   * intended reading keeps the dtype seen so far in that case.
   */
  function Carry(rd: Reading, carried: Option<DType>, item: Option<DType>): (c: Option<DType>)
    ensures c == item || c == carried
    ensures item.Some? ==> c == item
    ensures rd.Intended? && carried.Some? ==> c.Some?
  {
    if rd.Intended? && item.None? then carried else item
  }

  /** The result of `describe_nested(d)`; an exception is an `Err`. */
  function Describe(rd: Reading, d: Nested): (r: Result<Described, CodecError>)
    ensures r.Ok? && d.Items? ==> r.value.struct.ListDesc?
    decreases d
  {
    match d
    case Arr(a) => Ok(Described(ArrayDesc(a.shape), a.Size(), Some(a.dtype)))
    case Items(items) => DescribeItems(rd, items, |items|)
    case Other => Err(UnknownObject)
  }

  /** The loop of `describe_nested` over a list, after its first `n` items. */
  function DescribeItems(rd: Reading, items: seq<Nested>, n: nat): (r: Result<Described, CodecError>)
    requires n <= |items|
    ensures r.Ok? ==> r.value.struct.ListDesc? && |r.value.struct.items| == n
    decreases items, n
  {
    if n == 0 then Ok(Described(ListDesc([]), 0, None))
    else
      match DescribeItems(rd, items, n - 1)
      case Err(e) => Err(e)
      case Ok(acc) =>
        match Describe(rd, items[n - 1])
        case Err(e) => Err(e)
        case Ok(x) =>
          if acc.dtype.Some? && x.dtype.Some? && x.dtype != acc.dtype then
            Err(MixedDTypes(acc.dtype.value, x.dtype.value))
          else
            Ok(Described(ListDesc(acc.struct.items + [x.struct]), acc.size + x.size, Carry(rd, acc.dtype, x.dtype)))
  }

  /** Once the loop has raised, it stays raised. */
  lemma {:induction false} DescribeItemsErrSticky(rd: Reading, items: seq<Nested>, i: nat, n: nat)
    requires i <= n <= |items| && DescribeItems(rd, items, i).Err?
    ensures DescribeItems(rd, items, n) == DescribeItems(rd, items, i)
    decreases n - i
  {
    if i < n {
      DescribeItemsErrSticky(rd, items, i, n - 1);
    }
  }

  /**
   * `describe_nested(data)`: an array gives its shape, size and dtype; a list
   * or tuple is described item by item, the sizes added up and the dtypes
   * compared with the one carried from the previous item.
   */
  method DescribeNestedData(rd: Reading, d: Nested) returns (r: Result<Described, CodecError>)
    ensures r == Describe(rd, d)
    decreases d
  {
    match d {
      case Arr(a) =>
        r := Ok(Described(ArrayDesc(a.shape), a.Size(), Some(a.dtype)));
      case Items(items) =>
        var totalSize: nat := 0;
        var struct: seq<Desc> := [];
        var dtype: Option<DType> := None;
        for i := 0 to |items|
          invariant DescribeItems(rd, items, i) == Ok(Described(ListDesc(struct), totalSize, dtype))
        {
          var x := DescribeNestedData(rd, items[i]);
          if x.Err? {
            DescribeItemsErrSticky(rd, items, i + 1, |items|);
            return Err(x.error);
          }
          struct := struct + [x.value.struct];
          totalSize := totalSize + x.value.size;
          if dtype.Some? && x.value.dtype.Some? && x.value.dtype != dtype {
            DescribeItemsErrSticky(rd, items, i + 1, |items|);
            return Err(MixedDTypes(dtype.value, x.value.dtype.value));
          }
          dtype := Carry(rd, dtype, x.value.dtype);
        }
        r := Ok(Described(ListDesc(struct), totalSize, dtype));
      case Other =>
        r := Err(UnknownObject);
    }
  }

  /**
   * A successful description mirrors the data: the descriptor is `d` with
   * every array replaced by `{"type": "array", "shape": ...}`, and the size is
   * the sum of the arrays' sizes. Anything that is neither an array nor a
   * list/tuple makes it fail.
   */
  lemma {:induction false} DescribeMirrors(rd: Reading, d: Nested)
    requires Describe(rd, d).Ok?
    ensures NoOther(d)
    ensures Describe(rd, d).value.struct == Mirror(d)
    ensures Describe(rd, d).value.size == TotalSize(Leaves(d))
    decreases d
  {
    match d
    case Arr(a) =>
      assert Leaves(d) == [a];
      assert [a][..0] == [];
    case Items(items) =>
      DescribeItemsMirror(rd, items, |items|);
    case Other =>
  }

  lemma {:induction false} DescribeItemsMirror(rd: Reading, items: seq<Nested>, n: nat)
    requires n <= |items| && DescribeItems(rd, items, n).Ok?
    ensures NoOtherIn(items, n)
    ensures DescribeItems(rd, items, n).value.struct == ListDesc(MirrorOf(items, n))
    ensures DescribeItems(rd, items, n).value.size == TotalSize(LeavesOf(items, n))
    decreases items, n
  {
    if n > 0 {
      DescribeItemsMirror(rd, items, n - 1);
      DescribeMirrors(rd, items[n - 1]);
      TotalSizeAppend(LeavesOf(items, n - 1), Leaves(items[n - 1]));
    }
  }

  lemma {:induction false} TotalSizeAppend(xs: seq<NdArray>, ys: seq<NdArray>)
    ensures TotalSize(xs + ys) == TotalSize(xs) + TotalSize(ys)
    decreases |ys|
  {
    if ys == [] {
      assert xs + ys == xs;
    } else {
      var zs := xs + ys;
      assert zs[..|zs| - 1] == xs + ys[..|ys| - 1];
      TotalSizeAppend(xs, ys[..|ys| - 1]);
    }
  }

  /** All arrays share one dtype. */
  predicate Uniform(leaves: seq<NdArray>) {
    forall j, k :: 0 <= j < |leaves| && 0 <= k < |leaves| ==> leaves[j].dtype == leaves[k].dtype
  }

  /** The common dtype of a run of arrays: that of its first array, None for no arrays. */
  function CommonDType(leaves: seq<NdArray>): Option<DType> {
    if leaves == [] then None else Some(leaves[0].dtype)
  }

  /**
   * With the dtype carried over items without arrays, `describe_nested`
   * succeeds exactly on data made of arrays and lists/tuples whose arrays
   * all share one dtype, and that dtype is the one it returns.
   */
  lemma {:induction false} IntendedDescribeChecksDTypes(d: Nested)
    ensures Describe(Intended, d).Ok? <==> NoOther(d) && Uniform(Leaves(d))
    ensures Describe(Intended, d).Ok? ==> Describe(Intended, d).value.dtype == CommonDType(Leaves(d))
    decreases d
  {
    match d
    case Arr(a) =>
      assert Leaves(d) == [a];
    case Items(items) =>
      IntendedItemsCheckDTypes(items, |items|);
    case Other =>
  }

  lemma {:induction false} IntendedItemsCheckDTypes(items: seq<Nested>, n: nat)
    requires n <= |items|
    ensures DescribeItems(Intended, items, n).Ok? <==> NoOtherIn(items, n) && Uniform(LeavesOf(items, n))
    ensures DescribeItems(Intended, items, n).Ok? ==>
      DescribeItems(Intended, items, n).value.dtype == CommonDType(LeavesOf(items, n))
    decreases items, n
  {
    if n > 0 {
      IntendedItemsCheckDTypes(items, n - 1);
      IntendedDescribeChecksDTypes(items[n - 1]);
      UniformAppend(LeavesOf(items, n - 1), Leaves(items[n - 1]));
    }
  }

  /**
   * In either reading, data of arrays and lists/tuples whose arrays share
   * one dtype is described without error: the comparison of lines 231-233
   * only ever meets that dtype. The dtype returned, when there is one, is
   * the common one; as written it can be None though arrays exist.
   */
  lemma {:induction false} AcceptsUniform(rd: Reading, d: Nested)
    requires NoOther(d) && Uniform(Leaves(d))
    ensures Describe(rd, d).Ok?
    ensures Describe(rd, d).value.dtype.Some? ==> Describe(rd, d).value.dtype == CommonDType(Leaves(d))
    decreases d
  {
    match d
    case Arr(a) =>
      assert Leaves(d) == [a];
    case Items(items) =>
      AcceptsUniformItems(rd, items, |items|);
  }

  lemma {:induction false} AcceptsUniformItems(rd: Reading, items: seq<Nested>, n: nat)
    requires n <= |items| && NoOtherIn(items, n) && Uniform(LeavesOf(items, n))
    ensures DescribeItems(rd, items, n).Ok?
    ensures DescribeItems(rd, items, n).value.dtype.Some? ==>
      DescribeItems(rd, items, n).value.dtype == CommonDType(LeavesOf(items, n))
    decreases items, n
  {
    if n > 0 {
      var done, mine := LeavesOf(items, n - 1), Leaves(items[n - 1]);
      assert LeavesOf(items, n) == done + mine;
      UniformAppend(done, mine);
      AcceptsUniformItems(rd, items, n - 1);
      AcceptsUniform(rd, items[n - 1]);
    }
  }

  /** Two runs together are uniform when each is and their first dtypes agree. */
  lemma {:induction false} UniformAppend(xs: seq<NdArray>, ys: seq<NdArray>)
    ensures Uniform(xs + ys) <==>
      Uniform(xs) && Uniform(ys) && (xs == [] || ys == [] || xs[0].dtype == ys[0].dtype)
    ensures CommonDType(xs + ys) == if xs == [] then CommonDType(ys) else CommonDType(xs)
  {
    var zs := xs + ys;
    if Uniform(xs) && Uniform(ys) && (xs == [] || ys == [] || xs[0].dtype == ys[0].dtype) {
      forall j, k | 0 <= j < |zs| && 0 <= k < |zs|
        ensures zs[j].dtype == zs[k].dtype
      {
        if xs != [] && ys != [] {
          assert zs[j].dtype == xs[0].dtype by {
            if j < |xs| { assert zs[j] == xs[j]; } else { assert zs[j] == ys[j - |xs|]; }
          }
          assert zs[k].dtype == xs[0].dtype by {
            if k < |xs| { assert zs[k] == xs[k]; } else { assert zs[k] == ys[k - |xs|]; }
          }
        } else if xs == [] {
          assert zs == ys;
        } else {
          assert zs == xs;
        }
      }
    }
    if Uniform(zs) {
      forall j, k | 0 <= j < |xs| && 0 <= k < |xs|
        ensures xs[j].dtype == xs[k].dtype
      {
        assert xs[j] == zs[j] && xs[k] == zs[k];
      }
      forall j, k | 0 <= j < |ys| && 0 <= k < |ys|
        ensures ys[j].dtype == ys[k].dtype
      {
        assert ys[j] == zs[|xs| + j] && ys[k] == zs[|xs| + k];
      }
      if xs != [] && ys != [] {
        assert ys[0] == zs[|xs|] && xs[0] == zs[0];
      }
    }
  }

  /**
   * As written, an item without arrays resets the carried dtype, so a list
   * holding an int64 array, an empty list and a float64 array is described
   * without error although its arrays have two different dtypes; the
   * intended reading raises.
   */
  lemma {:induction false} MixedDTypesSlipThrough()
    ensures var d := Items([Arr(NdArray([1], DType("int64"), [1.0])), Items([]),
                            Arr(NdArray([1], DType("float64"), [2.0]))]);
      && Describe(AsWritten, d).Ok?
      && Describe(AsWritten, d).value.dtype == Some(DType("float64"))
      && !Uniform(Leaves(d))
      && Describe(Intended, d) == Err(MixedDTypes(DType("int64"), DType("float64")))
  {
    var x := NdArray([1], DType("int64"), [1.0]);
    var y := NdArray([1], DType("float64"), [2.0]);
    var items := [Arr(x), Items([]), Arr(y)];
    LeavesAroundEmpty(x, y);
    DescribedBeforeLast(AsWritten, x, y);
    DescribedBeforeLast(Intended, x, y);
    assert items[2] == Arr(y);
    assert DType("int64") != DType("float64") by { assert "int64"[0] != "float64"[0]; }
    assert Leaves(Items(items))[0].dtype != Leaves(Items(items))[1].dtype;
  }

  /** The arrays of `[x, [], y]` are `x` and `y`. */
  lemma {:induction false} LeavesAroundEmpty(x: NdArray, y: NdArray)
    ensures Leaves(Items([Arr(x), Items([]), Arr(y)])) == [x, y]
  {
    var items := [Arr(x), Items([]), Arr(y)];
    assert LeavesOf(items, 1) == [x];
    assert LeavesOf(items, 2) == [x];
    assert LeavesOf(items, 3) == [x, y];
  }

  /** After `x` and `[]`, the carried dtype is lost as written and kept in the intended reading. */
  lemma {:induction false} DescribedBeforeLast(rd: Reading, x: NdArray, y: NdArray)
    ensures var r := DescribeItems(rd, [Arr(x), Items([]), Arr(y)], 2);
      r.Ok? && r.value.dtype == if rd.AsWritten? then None else Some(x.dtype)
  {
    var items := [Arr(x), Items([]), Arr(y)];
    assert items[0] == Arr(x) && items[1] == Items([]);
    assert DescribeItems(rd, items, 0) == Ok(Described(ListDesc([]), 0, None));
    assert DescribeItems(rd, items, 1).Ok? && DescribeItems(rd, items, 1).value.dtype == Some(x.dtype);
  }
}
