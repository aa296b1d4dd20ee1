# k-point helpers of PySCF's periodic-boundary library, in Dafny

This project models the logic of `pyscf/pbc/lib/kpts_helper.py` and proves
properties of that model. The file has three parts:

- **The nested-array codec.** `describe_nested` describes nested lists and
  tuples of NumPy arrays: their shapes, total size and common dtype.
  `nested_to_vector` ravels every array, depth first, into one flat buffer,
  each at a moving offset. `vector_to_nested` rebuilds the nest from the
  buffer and a structure descriptor. It can also write the arrays into a
  caller's array ("composite" descriptors, `destination`).
- **The symmetry-orbit builder and transformer.** `loop_kkk` enumerates the
  k-point triples. `KptsHelper.__init__` sweeps them in lexicographic order.
  Each triple not yet `completed` becomes a key of `symm_map`, and the
  builder records its four symmetry images (its orbit) with operation codes
  0 to 3 in `_operation`. `KptsHelper.transform_symm` applies the recorded
  operation to an electron-repulsion-integral block: a transpose, and a
  complex conjugation for codes 2 and 3.
- **k-point de-duplication.** `member` lists the k-points close to a given
  one. `unique` groups a k-point list by closeness: representatives,
  their indices, and the group of every point.

Modules, one per concern:

| file | module | models |
|---|---|---|
| wrappers.dfy | Wrappers | `Option` and `Result` (an exception is an `Err`) |
| nested_data.dfy | NestedData | arrays (shape, dtype, row-major elements), nested data, descriptors, codec errors, the flattened buffer, slice writes |
| describe_nested.dfy | DescribeNested | `describe_nested` |
| pack_nested.dfy | PackNested | `nested_to_vector`, writing into an `array<real>` |
| restore_nested.dfy | RestoreNested | `vector_to_nested`, with and without a destination `array<real>` |
| round_trip.dfy | CodecRoundTrip | the round trip, the findings, `test_1` |
| eri_tensor.dfy | EriTensor | four-index complex tensors and the four operations |
| kpt_symmetry.dfy | KptSymmetry | `loop_kkk`, `KptsHelper` (a class with the `_operation` array) and `transform_symm` |
| kpt_dedup.dfy | KptDedup | `is_zero` as the closeness test, `member`, `unique` |

The codec is modelled in two readings, `AsWritten` and `Intended`:

- `AsWritten` is the code as it stands.
- `Intended` applies the three corrections listed under "## Findings".

The round-trip theorems are proved for both readings. That every nest of
arrays sharing one dtype comes back unchanged is proved only in the
`Intended` reading. As written, it holds when no array is 0-d and
`describe_nested` reports a dtype (RoundTripAsWritten), and for packed data
without 0-d arrays whose arrays already have the vector's dtype (RoundTrip;
`test_1` among them).

Each method that updates state is proved against a specification function:

- `DescribeNestedData` against `Describe`;
- `NestedToVectorInto` against `Flatten` and `Overwrite`;
- `VectorToNested` against `Restore`, and `VectorToNestedInto` against `RestoreInto`;
- `Unique` against the group invariants in `Scanned`;
- the `KptsHelper` constructor against `LastOp` and `Covered`.

The properties are then proved about those functions.

## Model

| member | source | states |
|---|---|---|
| NestedData.Zeros | pyscf/pbc/lib/kpts_helper.py:345 | `np.zeros(shape, dtype)` is an array of that shape and dtype holding `prod(shape)` elements, every one 0.0 |
| NestedData.ElemsLength | pyscf/pbc/lib/kpts_helper.py:224-235 | the flattened buffer of valid arrays is as long as the sum of their sizes, the `total_size` of `describe_nested` |
| NestedData.WithOwnDType | pyscf/pbc/lib/kpts_helper.py:252-253 | data whose arrays all have the buffer's dtype is unchanged by casting to that dtype |
| NestedData.OverwriteTwice | pyscf/pbc/lib/kpts_helper.py:262-264 | writing `xs` at an offset and then `ys` right after it is one write of `xs + ys`: the offset threading of the list loop |
| DescribeNested.Carry | pyscf/pbc/lib/kpts_helper.py:234 | the dtype carried past an item is the item's own or the one carried before, and an item's own dtype always wins; in the intended reading a dtype once seen is never lost (as written it is: MixedDTypesSlipThrough) |
| DescribeNested.Describe | pyscf/pbc/lib/kpts_helper.py:218-237 | a successful description of a list or tuple is a list descriptor |
| DescribeNested.DescribeItems | pyscf/pbc/lib/kpts_helper.py:223-235 | after `n` items the descriptor lists exactly `n` entries |
| DescribeNested.DescribeNestedData | pyscf/pbc/lib/kpts_helper.py:207-237 | the recursive procedure with its loop returns exactly the specification `Describe`, error included |
| DescribeNested.DescribeMirrors | pyscf/pbc/lib/kpts_helper.py:218-237 | success implies the data holds only arrays and lists/tuples; the descriptor is the data with each array replaced by `{"type": "array", "shape": ...}`; the size is the sum of the array sizes |
| DescribeNested.DescribeItemsMirror | pyscf/pbc/lib/kpts_helper.py:226-235 | the same, item by item, for the first `n` items of a list |
| DescribeNested.IntendedDescribeChecksDTypes | pyscf/pbc/lib/kpts_helper.py:227-234 | with the carried dtype kept over empty items, description succeeds if and only if the data holds only arrays and lists and all arrays share one dtype; the returned dtype is that dtype |
| DescribeNested.AcceptsUniform | pyscf/pbc/lib/kpts_helper.py:227-234 | in either reading, data of arrays and lists/tuples whose arrays share one dtype is described without error; a dtype returned is that common one |
| DescribeNested.AcceptsUniformItems | pyscf/pbc/lib/kpts_helper.py:227-234 | the same for the first `n` items of a list |
| DescribeNested.MixedDTypesSlipThrough | pyscf/pbc/lib/kpts_helper.py:227-234 | as written, [int64 array, [], float64 array] is described without error and with dtype float64, though its dtypes differ; the intended reading raises |
| PackNested.FitsWithin | pyscf/pbc/lib/kpts_helper.py:259-264 | writing a run of arrays never fails when the buffer reaches past its end |
| PackNested.WriteLeaf | pyscf/pbc/lib/kpts_helper.py:259-261 | `destination[offset:offset+size] = a.ravel()` succeeds exactly when the cut-off slice has room or `a` has at most one element; on success it returns `offset + size`, and the buffer is the old one with `a`'s elements written at `offset` |
| PackNested.NestedToVectorInto | pyscf/pbc/lib/kpts_helper.py:256-266 | succeeds exactly when the data holds only arrays and lists and each array fits at its offset; then it returns `offset + len(flattened data)`, and the buffer is the old one with the flattened data, depth first and left to right, written at `offset` |
| PackNested.WriteItems | pyscf/pbc/lib/kpts_helper.py:262-264 | the loop over a list: the same for the concatenated items |
| PackNested.NestedToVectorNew | pyscf/pbc/lib/kpts_helper.py:250-271 | without a destination: fails exactly when `describe_nested` fails or an array overruns; the vector has `total_size` elements and the common dtype (float64 when there is none); from the offset on it holds the flattened data; from offset 0 the result is the flattened data with the mirroring descriptor |
| RestoreNested.PySliceCompletes | pyscf/pbc/lib/kpts_helper.py:323 | `shape[k:]` has `len(shape) - k` entries (none past the end) and completes `shape[:k]` to the whole shape |
| RestoreNested.BlockInside | pyscf/pbc/lib/kpts_helper.py:326 | the block of a destination at in-range leading indexes lies inside the destination |
| RestoreNested.TailTail | pyscf/pbc/lib/kpts_helper.py:364 | `vector[a:][b:]` is `vector[a + b:]`, so the per-item slices of the list loop address the vector at the running offset |
| RestoreNested.Restore | pyscf/pbc/lib/kpts_helper.py:288-398 | a restore without a destination consumes no more than the vector, and with `ensure_size_matches` all of it |
| RestoreNested.RestoreItems | pyscf/pbc/lib/kpts_helper.py:360-373 | after `n` items of a list descriptor there are `n` restored items, within the vector |
| RestoreNested.RestoreInto | pyscf/pbc/lib/kpts_helper.py:322-395 | a restore into a destination keeps its shape, dtype and size, and consumes no more than the vector (all of it with `ensure_size_matches`) |
| RestoreNested.RestoreIntoItems | pyscf/pbc/lib/kpts_helper.py:380-388 | as written, the loop over a list with a destination succeeds only for zero items, because `offset +=` receives a pair |
| RestoreNested.BlockCount | pyscf/pbc/lib/kpts_helper.py:322-395 | a successful restore into a destination at indexes `idx` consumes `prod(shape[len(idx):])` elements |
| RestoreNested.RowsCount | pyscf/pbc/lib/kpts_helper.py:380-388 | after `n` rows it has consumed `n` rows' worth of elements |
| RestoreNested.FillsBlock | pyscf/pbc/lib/kpts_helper.py:322-395 | a successful restore into a destination writes the elements it consumes, in order, into the block at indexes `idx`, and leaves every other element as it was |
| RestoreNested.FillsRows | pyscf/pbc/lib/kpts_helper.py:380-388 | after `n` rows the block at `idx` holds, from its start, the elements consumed so far, and the rest of the destination is unchanged |
| RestoreNested.CompositeIsPrefix | pyscf/pbc/lib/kpts_helper.py:333-352 | a composite descriptor restores as the consumed run of the vector, `prod(shape)` elements, reshaped to its shape and given its dtype |
| RestoreNested.StrictRestore | pyscf/pbc/lib/kpts_helper.py:304-371 | `ensure_size_matches=True` succeeds exactly when the non-strict restore succeeds and consumes the whole vector, with the same data |
| RestoreNested.StrictRestoreInto | pyscf/pbc/lib/kpts_helper.py:304-393 | the same with a destination |
| RestoreNested.RestoreConsumes | pyscf/pbc/lib/kpts_helper.py:303-373 | without a destination the consumed count is the sum of `prod(shape)` over the descriptor's arrays and composites; a vector shorter than that always fails, and with `ensure_size_matches` so does one of another length |
| RestoreNested.WriteBlock | pyscf/pbc/lib/kpts_helper.py:326 | `destination[np.ix_(*idx)] = xs` overwrites exactly the block at `idx`, in row-major order |
| RestoreNested.VectorToNestedInto | pyscf/pbc/lib/kpts_helper.py:288-398 | the in-place restore into a destination array succeeds, fails, consumes and leaves the array exactly as `RestoreInto` says |
| RestoreNested.FillRowsInto | pyscf/pbc/lib/kpts_helper.py:375-395 | the loop over a list descriptor with a destination, against `RestoreIntoItems` |
| RestoreNested.VectorToNested | pyscf/pbc/lib/kpts_helper.py:288-398 | the restore without a destination returns exactly `Restore`, error included |
| RestoreNested.RestoreList | pyscf/pbc/lib/kpts_helper.py:360-366 | the loop over a list descriptor without a destination, against `RestoreItems` |
| CodecRoundTrip.RestoresMirror | pyscf/pbc/lib/kpts_helper.py:300-373 | a vector that starts with the flattened data, read with the mirroring descriptor, gives back the data (arrays in the vector's dtype) and consumes exactly the flattened elements |
| CodecRoundTrip.RestoresMirrorItems | pyscf/pbc/lib/kpts_helper.py:360-373 | the same for the first `n` items of a list |
| CodecRoundTrip.RoundTrip | pyscf/pbc/lib/kpts_helper.py:240-398 | in either reading, `vector_to_nested(*nested_to_vector(d))` gives back exactly `d` and consumes the whole vector, whenever `d` is packed, all its arrays have the vector's dtype and (as written) none is 0-d |
| CodecRoundTrip.RoundTripAsWritten | pyscf/pbc/lib/kpts_helper.py:240-398 | as written, every nest of arrays sharing one dtype, none 0-d, is packed; when `describe_nested` reports that dtype, the vector has it and the round trip gives back exactly the data |
| CodecRoundTrip.RoundTripIntended | pyscf/pbc/lib/kpts_helper.py:240-398 | in the intended reading, data of valid arrays sharing one dtype is packed, and restoring gives back exactly `d` |
| CodecRoundTrip.DTypeLostAsWritten | pyscf/pbc/lib/kpts_helper.py:234-253 | as written, [int64 array, []] packs into a float64 vector and comes back as a float64 array |
| CodecRoundTrip.ScalarLeafAsWritten | pyscf/pbc/lib/kpts_helper.py:303-314 | as written, a 0-d array is packed, but restoring it raises |
| CodecRoundTrip.ScalarLeafIntended | pyscf/pbc/lib/kpts_helper.py:303-314 | with an integer element count, the 0-d array comes back |
| CodecRoundTrip.CompositeRowsAsWritten | pyscf/pbc/lib/kpts_helper.py:380-388 | as written, a composite descriptor whose data lists its rows fails with the offset type error as soon as one row is restored |
| CodecRoundTrip.CompositeRowsIntended | pyscf/pbc/lib/kpts_helper.py:333-388 | with the offset advanced by the consumed size, that descriptor restores the first `prod(shape)` vector elements as one array of its shape and dtype |
| CodecRoundTrip.PackRestoreExample | pyscf/pbc/lib/test/test_kpts.py:52-69 | `test_1`: ((3×1×4, 5), (9,)) float64 data packs into a 26-element vector with the expected descriptor and comes back unchanged |
| EriTensor.Conj | pyscf/pbc/lib/kpts_helper.py:462 | `z * np.conj(z)` is the real number `|z|^2`, and conjugation keeps the modulus |
| EriTensor.ConjInvolution | pyscf/pbc/lib/kpts_helper.py:462-464 | conjugating twice gives the number back |
| EriTensor.ConjAllInvolution | pyscf/pbc/lib/kpts_helper.py:462-464 | `np.conj` applied to a whole tensor twice gives the tensor back, element by element |
| EriTensor.TransposeElement | pyscf/pbc/lib/kpts_helper.py:460 | the element law of `transpose(axes)`: the element at `i` is the input's element at the index `j` with `j[axes[k]] == i[k]`, and that `j` lies inside the input |
| EriTensor.TransposeInBox | pyscf/pbc/lib/kpts_helper.py:460 | every index inside a transposed tensor reads an index inside the original |
| EriTensor.ApplyOp | pyscf/pbc/lib/kpts_helper.py:456-464 | operation `op` in index form: the permuted shape, and every index in it reads inside the input |
| EriTensor.Compose | pyscf/pbc/lib/kpts_helper.py:456-464 | the composition law of the four operation codes |
| EriTensor.PermuteCompose | pyscf/pbc/lib/kpts_helper.py:456-464 | the index maps of the operations compose by that law |
| EriTensor.ApplyOpCompose | pyscf/pbc/lib/kpts_helper.py:456-464 | applying operation `x` then `y` equals applying their composition, elementwise |
| EriTensor.ApplyOpInvolution | pyscf/pbc/lib/kpts_helper.py:456-464 | each of the four operations undoes itself |
| EriTensor.TransformByCode | pyscf/pbc/lib/kpts_helper.py:456-464 | the transpose-and-conjugate of each code equals, elementwise, op 0 identity, op 1 `in[c,d,a,b]`, op 2 `conj(in[b,a,d,c])`, op 3 `conj(in[d,c,b,a])` |
| EriTensor.TransposeIsPermute | pyscf/pbc/lib/kpts_helper.py:460-464 | the axis orders (2,3,0,1), (1,0,3,2), (3,2,1,0) are the index maps of ops 1, 2, 3 |
| KptSymmetry.ProductFrom | pyscf/pbc/lib/kpts_helper.py:58-60 | the product enumeration from a triple on holds exactly the in-range triples not before it, in strictly increasing lexicographic order |
| KptSymmetry.LoopKKK | pyscf/pbc/lib/kpts_helper.py:58-60 | `loop_kkk(n)` yields every triple of `range(n)³` exactly once, in strictly increasing lexicographic order |
| KptSymmetry.Stamped | pyscf/pbc/lib/kpts_helper.py:430-443 | after codes `0..m-1` are written to the orbit's members, a triple holds the position of its last occurrence, or its earlier code if it is not among them |
| KptSymmetry.LastOp | pyscf/pbc/lib/kpts_helper.py:423-444 | the code left at a triple after the orbits of the keys were written is in {0, 1, 2, 3} |
| KptSymmetry.ExtendKeys | pyscf/pbc/lib/kpts_helper.py:423-444 | one more key covers its orbit in addition, and the codes it writes are stamped over the earlier ones |
| KptSymmetry.Stamp | pyscf/pbc/lib/kpts_helper.py:430-432 | one `completed[t] = True; _operation[t] = m` write and the append of `t` to the key's list keep the arrays in step with the orbit written so far |
| KptSymmetry.RecordOrbit | pyscf/pbc/lib/kpts_helper.py:427-444 | recording a new key's orbit leaves `completed` and `_operation` describing the keys extended by it, and the key's list is `[(p,q,r), (r,s,p), (q,p,s), (s,r,q)]` with `s = kconserv[p,q,r]` |
| KptSymmetry.WriteOrbit | pyscf/pbc/lib/kpts_helper.py:430-443 | the four writes of an orbit, in order, leave each member completed and holding the code of its last position in the orbit; other triples keep their marks; the key's list is the orbit |
| KptSymmetry.MarksAfterOrbit | pyscf/pbc/lib/kpts_helper.py:427-444 | after the four writes the arrays describe the extended keys |
| KptSymmetry.SweepCompleted | pyscf/pbc/lib/kpts_helper.py:426 | a triple already completed when reached does not become a key |
| KptSymmetry.SweepNewKey | pyscf/pbc/lib/kpts_helper.py:426-428 | a triple not yet completed becomes the next key, after all earlier keys in lexicographic order |
| KptSymmetry.Visit | pyscf/pbc/lib/kpts_helper.py:423-444 | one turn of the sweep keeps the arrays and `symm_map` in step with the keys chosen so far |
| KptSymmetry.SweepDone | pyscf/pbc/lib/kpts_helper.py:423-444 | after the sweep every triple is covered, and the keys are exactly the triples not in the orbit of an earlier key |
| KptSymmetry.KptsHelper.constructor | pyscf/pbc/lib/kpts_helper.py:402-444 | every triple lies in some key's orbit, so it ends completed; `symm_map`'s keys are in lexicographic order and are exactly the triples no earlier key's orbit reaches; each key lists its orbit; every `_operation` entry is the last code written there |
| KptSymmetry.KptsHelper.TransformSymm | pyscf/pbc/lib/kpts_helper.py:447-464 | `transform_symm` applies, elementwise, the operation last recorded for (kp, kq, kr) |
| KptSymmetry.OrbitClosed | pyscf/pbc/lib/kpts_helper.py:427-444 | with a momentum-consistent `kconserv`, every member of an orbit has the same orbit |
| KptSymmetry.OrbitsDisjoint | pyscf/pbc/lib/kpts_helper.py:423-444 | orbits of keys that do not reach each other are disjoint |
| KptSymmetry.LastOpInOwnOrbit | pyscf/pbc/lib/kpts_helper.py:423-444 | the code left at a member of a key's orbit is its last position in that orbit |
| KptSymmetry.HelperSeparated | pyscf/pbc/lib/kpts_helper.py:423-444 | no key of a constructed helper lies in an earlier key's orbit |
| KptSymmetry.TransformRecovers | pyscf/pbc/lib/kpts_helper.py:447-464 | for an ERI family with the four symmetries, transforming a key's block gives the block of every triple listed under the key |
| KptSymmetry.SingleKey | pyscf/pbc/lib/kpts_helper.py:423-444 | with one k-point, (0, 0, 0) is the only key |
| KptSymmetry.GammaPointKeyOperation | pyscf/pbc/lib/kpts_helper.py:430-443 | with one k-point the code left at the key (0, 0, 0) is 3, not 0, so a key does not always carry operation 0 |
| KptDedup.CloseReflexive | pyscf/pbc/lib/kpts_helper.py:53 | every k-point is close to itself |
| KptDedup.CloseSymmetric | pyscf/pbc/lib/kpts_helper.py:53 | closeness does not depend on argument order |
| KptDedup.Member | pyscf/pbc/lib/kpts_helper.py:35-38 | `member` returns the indices of exactly the k-points close to `kpt`, in increasing order |
| KptDedup.MaskAssign | pyscf/pbc/lib/kpts_helper.py:52-54 | `a[idx] = v` with the mask `idx` changes exactly the entries at the indices `member(kpt, kpts)` returns, to `v`, and keeps the length |
| KptDedup.MaskIsMember | pyscf/pbc/lib/kpts_helper.py:52 | the mask `abs(kpt - kpts).sum(axis=1) < KPT_DIFF_TOL` of `unique` is true exactly at the indices `member(kpt, kpts)` (lines 35-38) returns |
| KptDedup.ScanSeen | pyscf/pbc/lib/kpts_helper.py:49 | reaching an index already seen changes nothing |
| KptDedup.ScanNewGroup | pyscf/pbc/lib/kpts_helper.py:49-55 | reaching an unseen index opens a new group, represented by it, and keeps the group invariants |
| KptDedup.Unique | pyscf/pbc/lib/kpts_helper.py:40-56 | `uniq_index` is strictly increasing and as long as `uniq_kpts`, which are the points at those indices; the representatives are exactly the indices not close to an earlier representative, and are pairwise not close; `uniq_inverse[uniq_index[m]] == m`; every point is close to its group's representative, and no later representative is close to it |
| KptDedup.MarkGroup | pyscf/pbc/lib/kpts_helper.py:52-54 | the two in-place mask writes set `uniq_inverse` to `n` and `seen` to True exactly at the points close to `kpt` |

## Left out

- PackNested.NestedToVectorNew: the vector holds the arrays' elements uncast. The cast to the vector's dtype by the slice assignment at line 260 is not modelled. For data with an array of another dtype, the model's vector therefore differs from the source's: as written, `[float64 [1.5], [], int64 [2]]` packs into an int64 vector, and the 1.5 becomes 1.
- CodecRoundTrip.RoundTrip: states nothing when an array's dtype differs from the vector's, because the values such a cast changes are not modelled (see the line above).
- PackNested.NestedToVectorNew: the offset is a natural number. The negative offsets Python slicing accepts at line 260 are not modelled; the callers pass 0 or a running total.
- PackNested.NestedToVectorInto: the same restriction to natural offsets, for the same reason.
- KptSymmetry.KptsHelper.TransformSymm: the k-point indexes must be below `nkpts`. Two source behaviours for other indexes are not modelled: the `IndexError` that `self._operation[kp, kq, kr]` (line 456) raises for larger ones, and NumPy's wrap-around for negative ones. Callers pass in-range k-point indexes.
- `get_kconserv` and `get_kconserv3` (lines 62-85, 173-204) compute the conservation table with floating-point lattice arithmetic and a foreign `cell.lattice_vectors()`. The table is a constructor parameter: an `n×n×n` table of indices below `n`.
- `is_zero` and `gamma_point` (lines 31-33) use a float sum. They are modelled on exact reals, without rounding: the sum of absolute differences below `KPT_DIFF_TOL`. Line 28 reads that tolerance from the configuration; the model fixes it at its default, 1e-6.
- `check_kpt_antiperm_symmetry` (lines 107-170) is a floating-point norm comparison and is not modelled.
- The fragment at lines 88-104 is unreachable after the `return` at line 85 and is not modelled.
- k-points are modelled as vectors of three components. `member`'s reshape to any component count is not modelled.
- `lib.cartesian_prod` is taken to enumerate the triples in the order `loop_kkk` does.
- `lib.StreamObject`, the `cell` argument and `KptsHelper.kconserv` as a NumPy array are left out. The table is held as a value, since it is only read.
- NumPy views versus copies are not modelled: the `copy` flag (lines 315-316), and the view that `transform_symm` returns, which is modelled as a tensor reading its source.
- dtypes are names only. Casting elements to the buffer's dtype and representability are not modelled; elements are reals.
- A complex ERI block is modelled as a pair of reals per element. The nested-codec buffer holds reals.
- Lists and tuples are not told apart.
- With `ensure_size_matches=True` the source returns the data alone. Otherwise it returns a pair. The model always returns the data with the consumed count.
- `np.empty` leaves the buffer's contents unspecified. The model allocates the buffer without an initializer, so the proof treats its contents as arbitrary, and `NestedToVectorNew` states nothing about the elements before `offset`.
- On an error, the elements a partial write already changed in a destination are not described. Only success states the new contents.
- `np.ix_` is modelled only as "the block at these leading indexes". Its broadcasting of other index forms is not modelled.
- A descriptor's `"shape"` is taken as a sequence of naturals, and a composite's `"dtype"` as a dtype.
- A missing `"shape"`, `"dtype"` or `"data"` key, and `KeyError`s in general, are not modelled.
- `transform_symm` returns None for a code outside 0-3. That cannot happen, because every code written is 0 to 3.
- The fingerprint assertions of test_kpts.py (lines 35 and 48) check float hashes of cell-dependent results and are not modelled.
- KptSymmetry.WriteOrbit: the source writes the four members of an orbit in straight-line code. The model writes them with a loop over positions 0 to 3, with the same writes in the same order.

## Findings

| source | as written | input that shows it | evidently intended | confidence | as-written member | corrected member |
|---|---|---|---|---|---|---|
| pyscf/pbc/lib/kpts_helper.py:382-388 | the loop over a list descriptor with a destination adds the callee's `(destination, size)` pair to the integer `offset`, which raises `TypeError` as soon as one item was restored | the composite descriptor of test_kpts.py:84-93: shape (3, 1, 4), data three `{"type": "array", "shape": (1, 4)}`, with the 26-element vector of that test | add the consumed size, the pair's second element | high; not executed | CodecRoundTrip.CompositeRowsAsWritten | CodecRoundTrip.CompositeRowsIntended |
| pyscf/pbc/lib/kpts_helper.py:234 | `dtype = i_dtype` replaces the carried dtype by None after an item without arrays, so the next item's dtype is not compared | `[int64 array, [], float64 array]` is described without error; `[float64 [1.5], [], int64 [2]]` is then packed into an int64 vector, and line 260 truncates the 1.5 to 1 | keep the carried dtype when the item has none, and raise for mixed dtypes | medium; not executed | DescribeNested.MixedDTypesSlipThrough | DescribeNested.IntendedDescribeChecksDTypes |
| pyscf/pbc/lib/kpts_helper.py:234 | the same reset, at the end of a list, makes `describe_nested` return dtype None, and `np.empty(total_size, dtype=None)` (line 253) allocates float64 | `[int64 array [1.0], []]` comes back as a float64 array | the vector keeps the data's dtype, and the round trip gives back the data exactly | medium; not executed | CodecRoundTrip.DTypeLostAsWritten | CodecRoundTrip.RoundTripIntended |
| pyscf/pbc/lib/kpts_helper.py:303 | `np.prod(())` is the float 1.0 for a 0-d array, and `vector[:1.0]` (lines 314, 326) raises `TypeError` | a 0-d float64 array, packed and restored | the integer element count 1 | medium; not executed | CodecRoundTrip.ScalarLeafAsWritten | CodecRoundTrip.ScalarLeafIntended |
