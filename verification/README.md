# nntile task orchestration — a Dafny model

nntile runs neural-network layers as StarPU tasks over tiled tensors. The numbers are computed by external kernels, and the runtime (StarPU with MPI) decides when each task runs. Between them sits deterministic logic that decides *what* is submitted:

- which tiles an operation touches, and how their grid indices are derived;
- which access mode each buffer is declared with;
- how the scalar arguments are packed for the CPU function that unpacks them;
- which checks reject an argument, and with which message;
- in what order the runtime calls are issued.

This project models that logic and proves what it guarantees.

- **Shapes and grids** (`Shapes`, `Tiles`).
  - The first-axis-fastest numbering of multi-indices and its inverse, with the bijection proved.
  - Contiguous strides.
  - Removing and inserting an axis.
  - The `(m, n, k)` view of a tile around one axis.
  - How a tensor is cut into base tiles.
- **The odometer copy** (`Subcopy`, `CopyTask`). This kernel copies a strided sub-box of one buffer into another. It appears three times in the sources; all three are modelled once and proved:
  - every box element lands on its counterpart;
  - nothing else in the destination is written;
  - the scratch buffer holds both running indices, and ends at the far corners.

  The StarPU CPU function around it unpacks its arguments in packing order.
- **Tile intersection copy** (`TileCopy`).
  - The planner: a whole-buffer copy, nothing, or a box copy.
  - The choice of W or RW for the destination.
  - The mapping from mode to codelet, and task insertion.
  - The proof that the runtime calls copy exactly the intersection of the two tiles.
- **Tensor-level orchestration**, each operation as the log of runtime calls it issues:
  - `TensorBias`: bias along a floating axis.
  - `TensorBiasOuter`: outer bias, owner-computes.
  - `TileSumSlice`: the slice sum on tiles.
  - `FlashBackward`: the two sweeps of the flash-attention backward pass.
- **Task submission** for several codelet families (`Hypot`, `EmbeddingBackward`, `Accumulate`, `Fp16ToFp32`, `NormFiberInplace`, `TypeDispatch`):
  - access mode from `beta` or `redux`;
  - argument records;
  - flop counts;
  - footprints;
  - codelet tables;
  - type dispatch, which the fiber norm and forward ReLU families share (`TypeDispatch.Dispatch`);
  - restriction of backends. Every family's `restrict_where` and `restore_where` apply `Runtime.RestrictWhere` and `Runtime.RestoreWhere` to the family's set of codelet names (hypot, embedding_backward, accumulate, fp16_to_fp32).
- **Element-wise kernels**: `Drelu`, `Maximum`, and the add inside `Accumulate`, all over reals.
- **Python layers**:
  - `LinearLayer`: shape derivation and flag normalisation.
  - `DeepLinear`: validation and the chain of layers.
- **The reference check of the tile bias test** (`BiasTest`): its own odometer and its axis-skipping bias offset.

Floating values are `real`, so NaN does not arise. Every call into the runtime is an `Action` in a log. A non-zero return code of task insertion is a parameter `ret` of the submit function.

In two places the code behaves differently from what its documentation suggests. The model follows the code:

- The tile-level slice sum has a "scalar input" check that can never fire. `TileSumSlice.SumSliceAsync` keeps it, and proves it unreachable.
- `generate_simple_mpiroot` does not check `side`, so any side other than "L" takes the "R" branch. `LinearLayer.Derive` does the same.

## Model

| member | source | states |
|---|---|---|
| Shapes.LinearToIndex | tests/tile/bias.cc:20-29 | decoding tile number `i` gives an in-box multi-index whose number is `i` again |
| Shapes.IndexToLinearInBox | tests/tile/bias.cc:20-29 | every in-box multi-index has a number below the element count, and decoding it gives the index back |
| Shapes.IndexToLinearInjective | src/tensor/bias.cc:48-50 | distinct in-box grid indices have distinct tile numbers, so `index_to_linear` names one tile |
| Shapes.LinearToIndexInjective | src/tensor/bias.cc:26-33 | distinct tile numbers decode to distinct grid indices |
| Shapes.FirstIndex | src/kernel/subcopy/cpu.cc:59-65 | number 0 is the all-zero index, where the odometer starts |
| Shapes.LastIndex | src/kernel/subcopy/cpu.cc:79-107 | the last number is the corner `shape - 1`, where the odometer stops |
| Shapes.OdometerCarry | src/kernel/subcopy/cpu.cc:86-101 | from number `i-1` to `i` the index changes by one carry: the axes before some `j` wrap from their last value to 0, and axis `j` goes up by one |
| Shapes.IncStep | tests/tile/bias.cc:22-29 | one increment with carry of any index but the last stays in the box and adds one to its number |
| Shapes.StridesOffset | src/kernel/subcopy/cpu.cc:67-73 | under a tile's contiguous strides, the offset of an index is its element number |
| Shapes.RemoveAxis | src/tile/sum_slice.cc:47-58 | dropping axis `axis` keeps the axes before it and shifts those after it down by one |
| Shapes.InsertAxis | src/tensor/bias.cc:33-41 | the inserted coordinate sits at `axis`, the earlier ones are unchanged, and the later ones are shifted up by one |
| Shapes.InsertRemove | src/tensor/bias.cc:33-41 | dropping an axis and inserting its value back restores the index |
| Shapes.RemoveInsert | src/tensor/bias.cc:33-41 | inserting an axis and dropping it restores the source index |
| Shapes.ProductRemoveAxis | src/tensor/bias.cc:26-47 | the tiles of the smaller grid times the extent along `axis` is the tile count of the larger grid |
| Tiles.AroundAxis | src/tile/sum_slice.cc:60-63 | `m` is the stride of the axis and `k` its extent, and `m*k*n` is the tile's element count |
| Tiles.TileExtent | src/tensor/bias_outer.cc:67-79 | every tile of a grid holds between 1 and base-extent elements along an axis |
| Tiles.SameCut | src/tensor/bias_outer.cc:43-51 | tensors that agree on an axis' length and base extent have the same tiles along it, so the `k` of a destination tile is the length of its source tile |
| Runtime.Insert | src/starpu/hypot.cc:141-150 | the task is accepted exactly when the return code is zero; otherwise the routine's own message is raised |
| Runtime.RestrictWhere | src/starpu/hypot.cc:85-89 | every codelet of the family may only run where the mask allows; every other codelet keeps its restriction |
| Runtime.RestoreWhere | src/starpu/hypot.cc:91-95 | every codelet of the family may run on all its backends again; every other codelet keeps its restriction |
| Runtime.RestoreUndoesRestrict | src/starpu/hypot.cc:85-95 | `restore_where` after `restrict_where` leaves every touched codelet unrestricted, as if never restricted |
| Runtime.FlushedConcat | src/tensor/bias_outer.cc:60-86 | the handles flushed by two logs in sequence are those of the first, then those of the second |
| Subcopy.ApplyUntouched | src/kernel/subcopy/cpu.cc:75-107 | a destination offset that no assignment targets keeps its value |
| Subcopy.ApplyLastWriter | src/kernel/subcopy/cpu.cc:75-107 | an offset holds the source value of the last assignment targeting it |
| Subcopy.BoxMoves | src/kernel/subcopy/cpu.cc:59-65 | the kernel makes exactly `product(copy_shape)` assignments |
| Subcopy.OdometerCopy | src/kernel/subcopy/cpu.cc:25-108 | performs box element `t`'s assignment as step `t`; outside the box nothing is written; with an injective destination layout every box element `dst[start_d + r]` becomes `src[start_s + r]`; the scratch ends holding both far corners |
| Subcopy.CopyFirst | src/kernel/subcopy/cpu.cc:54-75 | after the set-up loops and the first copy, the state invariant holds with one element copied |
| Subcopy.CopyLoop | src/kernel/subcopy/cpu.cc:79-107 | the main loop keeps the invariant up to the last box element: assignments in box order, scratch holding the current source and destination indices, offsets one past the current element |
| Subcopy.CopyStep | src/kernel/subcopy/cpu.cc:80-106 | one iteration advances the invariant from `n` to `n+1` copied elements |
| Subcopy.AdvanceIndices | src/kernel/subcopy/cpu.cc:82-101 | source and destination indices advance in lockstep to the next box element, and both running offsets equal its stride dot product |
| Subcopy.CountAndStart | src/kernel/subcopy/cpu.cc:54-65 | counts `product(copy_shape)` elements; the scratch holds the source start in `[0, ndim)` and the destination start in `[ndim, 2*ndim)` |
| Subcopy.StartOffsets | src/kernel/subcopy/cpu.cc:67-73 | the first offsets are `src_start[0] + Σ src_start[i]*src_stride[i]`, and likewise for the destination |
| Subcopy.CarryAxes | src/kernel/subcopy/cpu.cc:86-92 | the carry pass turns the bumped index into the next box element's index and adjusts the offset by `stride[j] - shape[j-1]*stride[j-1]` per carry, ending at its dot product |
| Subcopy.CarryOffset | src/kernel/subcopy/cpu.cc:88-91 | one carry from axis `j` into `j+1` changes the offset by `stride[j+1] - extent*stride[j]` |
| Subcopy.FirstBoxElement | src/kernel/subcopy/cpu.cc:67-75 | the first assignment copies the start corner of the source box to the start corner of the destination box |
| Subcopy.FinalScratch | src/kernel/subcopy/cpu.cc:50-56 | after the loop the scratch holds `start + copy_shape - 1` for both indices |
| Subcopy.UntouchedOutsideBox | src/kernel/subcopy/cpu.cc:26-28 | a destination offset outside the image of the box keeps its value |
| Subcopy.InjectiveBoxCopied | src/kernel/subcopy/cpu.cc:30-35 | with an injective destination layout every box element holds its source counterpart |
| CopyTask.PackArgs | src/tile/copy.cc:162-168 | the packed values unpack to the same arguments, in the order ndim, src_start, src_stride, copy_shape, dst_start, dst_stride |
| CopyTask.UnpackThenPack | src/kernel/cpu/copy.cc:101-105 | an argument list that unpacks is exactly the packing of what it unpacks to |
| CopyTask.CopyStarpuCpu | src/kernel/cpu/copy.cc:96-114 | buffer 0 is the source, buffer 1 the destination, and the first `2*ndim` scratch entries are the indices; the destination is the box copy of the unpacked arguments, and the rest of the scratch is untouched |
| CopyTask.CopyNdim0 | src/tile/copy.cc:20-28 | the zero-dimensional codelet copies the single source element into the destination |
| TileCopy.PlanCopy | src/tile/copy.cc:196-247 | equal offsets and shapes give a whole copy; a disjoint axis gives nothing; otherwise the cuts are per-axis intersections with every extent at least 1, and the mode is W iff the box equals the destination shape |
| TileCopy.CopyCodelet | src/tile/copy.cc:126-158 | W, RW and RW_COMMUTE each select a codelet whose buffers are (R, mode, SCRATCH); any other mode raises "Unsupported mode" |
| TileCopy.CopyIntersectionWork | src/tile/copy.cc:159-177 | the task's buffer modes match its codelet, its handles are bound in order source, destination, scratch, its packed arguments unpack to the box, and it declares zero flops |
| TileCopy.CopyIntersectionWorkNdim0 | src/tile/copy.cc:30-49 | the zero-dimensional task reads the source and writes the destination, matching its codelet; a failed insertion raises "ret != 0" |
| TileCopy.CopyIntersection | src/tile/copy.cc:196-247 | coinciding tiles give one whole-buffer copy, disjoint ones no call, otherwise one task whose destination mode is W exactly when the intersection covers the destination tile |
| TileCopy.CoverIffFullBox | src/tile/copy.cc:238-242 | the planner's box equals the destination shape exactly when the source covers the destination on every axis |
| TileCopy.RunCopyIntersection | src/tile/copy.cc:196-247 | after the runtime calls, every destination element that lies inside the source tile holds the source's value there, and every other element is unchanged |
| TileCopy.SmartArgsValid | src/tile/copy.cc:217-237 | the planner's arguments meet every assumption of the kernel: extents at least 1, box inside both tiles, injective destination layout |
| TileCopy.BoxOffsetsAreTileOffsets | src/tile/copy.cc:164-168 | with the tiles' own strides, the kernel's offsets are the tiles' element numbers |
| TileCopy.BoxPreimage | src/tile/copy.cc:223-237 | a destination element inside the source tile is the image of exactly the box element at its relative position |
| TileCopy.SmartCopyCorrect | src/tile/copy.cc:245-246 | the box copy with the planner's arguments copies exactly the intersection |
| TileCopy.WholeCopyCorrect | src/tile/copy.cc:205-209 | for coinciding tiles the whole-buffer copy is the intersection copy |
| TileCopy.ApartUntouched | src/tile/copy.cc:217-221 | for disjoint tiles doing nothing is the intersection copy |
| TensorBias.Row | src/tensor/bias.cc:43-53 | each source tile makes exactly `dst.grid.shape[axis]` calls |
| TensorBias.Visits | src/tensor/bias.cc:26-54 | the first `n` source tiles make `n * dst.grid.shape[axis]` calls |
| TensorBias.VisitsAt | src/tensor/bias.cc:26-53 | step `j` of source tile `i` is call `i*k + j` and targets the tile numbered by the source index with `j` inserted at `axis` |
| TensorBias.BiasWork | src/tensor/bias.cc:22-55 | the loop visits every source tile once, and for each one every destination coordinate along `axis`; when the source grid is the destination grid without `axis`, every destination tile receives exactly one call |
| TensorBias.BiasCoversEachTileOnce | src/tensor/bias.cc:26-54 | with matching grids the calls reach every destination tile and never the same tile twice |
| TensorBias.DstTileInGrid | src/tensor/bias.cc:33-50 | every derived destination index lies in the destination grid |
| TensorBias.DstTileInjective | src/tensor/bias.cc:33-50 | different (source tile, coordinate) pairs reach different destination tiles |
| TensorBias.DstTileOnto | src/tensor/bias.cc:33-50 | each destination tile is reached from the source tile numbered by its own index without `axis` |
| TensorBiasOuter.TileStepActions | src/tensor/bias_outer.cc:60-86 | the source tile is `dst_tile_index[axis]`; it is transferred to the owner first; only the owner submits, with `m` the destination tile's `stride[axis]`, `n` the extent of its axes after `axis`, `k` its extent along `axis` (equal to the source tile's length), and `m*k*n` its element count; the destination tile is flushed last |
| TensorBiasOuter.ComputedConcat | src/tensor/bias_outer.cc:60-86 | the tiles computed by two logs in sequence are those of the first, then those of the second |
| TensorBiasOuter.BiasOuterTilesViews | src/tensor/bias_outer.cc:60-86 | every destination tile is flushed in order, and exactly the tiles owned by this rank get a task |
| TensorBiasOuter.StepViews | src/tensor/bias_outer.cc:73-85 | one tile step flushes its tile, and computes it only on the owning rank |
| TensorBiasOuter.ExtendViews | src/tensor/bias_outer.cc:60-86 | appending one tile's actions extends the flushed tiles by that tile and the computed tiles by it exactly when this rank owns it |
| TensorBiasOuter.BiasOuterAsync | src/tensor/bias_outer.cc:28-86 | the checks fire in source order with their messages; `alpha == 0` issues nothing; otherwise every tile is flushed and the owned ones are computed |
| TensorBiasOuter.BiasOuter | src/tensor/bias_outer.cc:89-97 | the synchronous form is the asynchronous log followed by the task and MPI drains, and fails exactly when it fails |
| TileSumSlice.ShapesMatch | src/tile/sum_slice.cc:47-58 | the two-pointer walk accepts exactly when the source shape without `axis` is the destination shape |
| TileSumSlice.SumSliceAsync | src/tile/sum_slice.cc:26-66 | the checks fire in order with their messages, and "Scalar input makes no sense" never does; on success exactly one task, with `m = stride[axis]`, `n` the extent of the axes after `axis`, `k = shape[axis]`, so `m*k*n` is the source size and `m*n` the destination size |
| TileSumSlice.SumSlice | src/tile/sum_slice.cc:68-75 | a failed check returns the asynchronous call's error; on success the log is the asynchronous call's task, then a drain |
| FlashBackward.FusedArgs | src/tensor/flash_softmax_gemm_backward.cc:86-103 | tasks receive `n_seq_tile` and `head_size`, and `n_batch_tile` times `basetile[3]` (4 axes) or `basetile[3]*basetile[4]` (5 axes); the reduction flag is 0 |
| FlashBackward.TmpIndex | src/tensor/flash_softmax_gemm_backward.cc:112-137 | the tmp and tmp_grad index is the dV index with `[0] := dV[1]` and `[1] := j` |
| FlashBackward.SeqIndex | src/tensor/flash_softmax_gemm_backward.cc:138-141 | the q, dst_grad, maxsumexp (and dQ) index is the dV index with `[1] := j` |
| FlashBackward.SliceIndex | src/tensor/flash_softmax_gemm_backward.cc:116-142 | the tmp_sumprod_slice index has `ndim-1` axes, `j` first, then `dV[k+1]` at axis `k` |
| FlashBackward.FillSliceIndex | src/tensor/flash_softmax_gemm_backward.cc:123-126 | the filling loop builds exactly that index |
| FlashBackward.Sweep1Kinds | src/tensor/flash_softmax_gemm_backward.cc:105-162 | the first sweep issues `n*(3+g1)` steps, only clears and sumprod tasks, with tile numbers in range |
| FlashBackward.Sweep1ClearsDK | src/tensor/flash_softmax_gemm_backward.cc:129-131 | the first sweep clears the dK tile of every dV tile it visits |
| FlashBackward.Sweep1ClearsDQ | src/tensor/flash_softmax_gemm_backward.cc:105-130 | the first sweep clears the dQ tile of every number below `dV.grid.nelems` |
| FlashBackward.Sweep1ClearedBefore | src/tensor/flash_softmax_gemm_backward.cc:129-160 | every sumprod task comes after the clear of its dV tile |
| FlashBackward.Sweep2Facts | src/tensor/flash_softmax_gemm_backward.cc:164-215 | the second sweep issues `n*g2` dq_dk tasks and nothing else |
| FlashBackward.SumprodAfterClear | src/tensor/flash_softmax_gemm_backward.cc:129-161 | in both sweeps together, every sumprod task comes after the clear of its dV tile |
| FlashBackward.DqDkAfterClear | src/tensor/flash_softmax_gemm_backward.cc:129-213 | in both sweeps together, every dq_dk task comes after the clear of its dK tile |
| FlashBackward.DqDkAfterClearDQ | src/tensor/flash_softmax_gemm_backward.cc:105-213 | every dq_dk task comes after the clears of all dQ tiles numbered below `dV.grid.nelems` |
| FlashBackward.NoClearAfterDqDk | src/tensor/flash_softmax_gemm_backward.cc:129-213 | no clear is issued after any dq_dk task |
| FlashBackward.ScheduleOrder | src/tensor/flash_softmax_gemm_backward.cc:105-215 | no clear follows any dq_dk task; each sumprod task follows its dV clear; each dq_dk task follows its dK clear |
| FlashBackward.RenderFacts | src/tensor/flash_softmax_gemm_backward.cc:129-213 | clears render to clear calls; fused steps carry the fused arguments; the dV (sumprod) and dK (dq_dk) handles are the ones the matching clear names; the dQ tile of a dq_dk task is numbered in dQ's grid from the dV index with `[1] := j` |
| FlashBackward.FlashBackwardAsync | src/tensor/flash_softmax_gemm_backward.cc:105-215 | one call per step of the two sweeps, `j` running over `Q.grid.shape[1]` and then `dQ.grid.shape[1]` |
| FlashBackward.ClearsComeFirst | src/tensor/flash_softmax_gemm_backward.cc:129-213 | on the issued log, every clear precedes every dq_dk task; each sumprod task's dV tile and each dq_dk task's dK tile were cleared earlier |
| FlashBackward.DQClearedBefore | src/tensor/flash_softmax_gemm_backward.cc:107-196 | when dQ and dV share one grid, the dQ tile each dq_dk task accumulates into was cleared earlier in the log |
| FlashBackward.ReduxIgnored | src/tensor/flash_softmax_gemm_backward.cc:160-213 | the log does not depend on the caller's `redux`, and every fused task passes 0 |
| FlashBackward.FlashBackward | src/tensor/flash_softmax_gemm_backward.cc:218-230 | the synchronous form is the asynchronous log followed by the task and MPI drains |
| Hypot.CodeletOf | src/starpu/hypot.cc:61-83 | both codelets carry their modes per task; each has one CPU variant, and a CUDA variant only in a CUDA build |
| Hypot.CodeletsDistinct | src/starpu/hypot.cc:85-95 | fp32 and fp64 are two distinct codelets, and the only two that `restrict_where` touches |
| Hypot.DstMode | src/starpu/hypot.cc:122-134 | `beta == 1` gives RW_COMMUTE, `beta == 0` gives W, otherwise RW; the old `dst` is read exactly when `beta != 0` |
| Hypot.CommuteWhenBetaOne | src/starpu/hypot.cc:123-126 | with `beta == 1` two updates commute under the squared-magnitude reading of the kernel, which is why RW_COMMUTE is declared |
| Hypot.WriteOnlyWhenBetaZero | src/starpu/hypot.cc:127-130 | with `beta == 0` the result ignores the old `dst` under the same reading, which is why W is declared |
| Hypot.Pack | src/starpu/hypot.cc:136-139 | the record of `nelems`, `alpha` and `beta` reads back unchanged |
| Hypot.Submit | src/starpu/hypot.cc:97-151 | `src` is bound R first and `dst` second with the beta-chosen mode; the record round-trips; a non-zero return code raises the hypot message |
| EmbeddingBackward.VocabMode | src/starpu/embedding_backward.cc:127-137 | a non-zero `redux` gives REDUX and zero gives RW_COMMUTE; either way `vocab` is read and written |
| EmbeddingBackward.Pack | src/starpu/embedding_backward.cc:119-125 | the record of m, n, k, k_start and k_size reads back unchanged |
| EmbeddingBackward.Submit | src/starpu/embedding_backward.cc:110-152 | index and embed are bound R, then vocab in the redux-chosen mode; the record round-trips; the flops are `m*n*k_size`; a non-zero return code raises |
| EmbeddingBackward.Footprint | src/starpu/embedding_backward.cc:59-72 | the footprint is the hash chain from 0 over m, n, k and k_size of the task's record |
| EmbeddingBackward.ChainOfFour | src/starpu/embedding_backward.cc:66-70 | folding the hash over four fields is four nested hash steps in order |
| EmbeddingBackward.FootprintIgnoresKStart | src/starpu/embedding_backward.cc:65-71 | submissions differing in k_start, codelet, handles or redux share one footprint |
| Accumulate.CodeletOf | src/starpu/accumulate.cc:55-87 | each codelet declares two buffers, buffer 0 RW and buffer 1 R |
| Accumulate.Submit | src/starpu/accumulate.cc:101-121 | `dst` is bound first and `src` second, matching the codelet's modes in either build; a non-zero return code raises |
| Accumulate.ElemCount | src/starpu/accumulate.cc:30 | `nelems` is the number of whole elements in buffer 0's byte size |
| Accumulate.Cpu | src/starpu/accumulate.cc:24-35 | the first `nelems` elements of `dst` become `src + dst`, and the rest are unchanged |
| Accumulate.AccumulationsCommute | src/starpu/accumulate.cc:31-34 | two accumulations into the same buffer give the same result in either order |
| Fp16ToFp32.CodeletOf | src/starpu/fp16_to_fp32.cc:53-67 | without CUDA both backend lists are empty; with CUDA there is one of each |
| Fp16ToFp32.Submit | src/starpu/fp16_to_fp32.cc:79-94 | `src` is bound R and `dst` W, in that order; the count travels by value and reads back; a non-zero return code raises |
| Fp16ToFp32.ConvertAsync | src/tile/fp16_to_fp32.cc:21-30 | a shape mismatch raises before anything is submitted; otherwise one task over all of the tile's elements |
| Fp16ToFp32.Convert | src/tile/fp16_to_fp32.cc:32-36 | the synchronous form is the asynchronous log followed by a drain |
| TypeDispatch.Dispatch | include/nntile/starpu/norm_fiber_inplace.hh:41-70 | fp32, bf16, fp32_fast_tf32 and fp64 each select the codelet serving them; any other type raises "Non-supported type" |
| TypeDispatch.DispatchOnto | include/nntile/starpu/relu_forward.hh:43-66 | every codelet object is selected, by exactly the type it serves |
| NormFiberInplace.Pack | include/nntile/starpu/norm_fiber_inplace.hh:24-32 | the record (m, n, k, batch, alpha, beta) reads back unchanged |
| NormFiberInplace.Submit | include/nntile/starpu/norm_fiber_inplace.hh:78-80 | the call carries src and dst, the record, and the `redux` flag |
| NormFiberInplace.ReduxDefaultsToZero | include/nntile/starpu/norm_fiber_inplace.hh:79-80 | leaving out `redux` passes 0 |
| ElementCount.Visited | src/kernel/drelu/cpu.cc:30 | the loop visits `nelems` elements, and none when `nelems` is not positive |
| Drelu.Step | src/kernel/drelu/cpu.cc:33-40 | the output is 0 or 1, and it is 1 exactly when the input is positive |
| Drelu.Cpu | src/kernel/drelu/cpu.cc:21-42 | element `i < nelems` becomes 1 iff it was positive, otherwise 0, and later elements are untouched |
| Drelu.Idempotent | src/kernel/drelu/cpu.cc:30-41 | applying the kernel twice is applying it once |
| Maximum.Max | src/kernel/maximum/cpu.cc:35 | the result is at least both inputs, and is one of them |
| Maximum.Cpu | src/kernel/maximum/cpu.cc:21-37 | `dst[i] = max(src[i], dst[i])` for `i < nelems`, and later elements are untouched |
| Maximum.Idempotent | src/kernel/maximum/cpu.cc:33-36 | repeating with the same source changes nothing |
| PyList.Pos | wrappers/python/nntile/layer/linear.py:78-97 | a slice bound denotes a position in the list, counting from the end when negative and clamped at both ends |
| LinearLayer.New | wrappers/python/nntile/layer/linear.py:38-67 | a bad side raises first, then `ndim <= 0`; otherwise the layer holds the given tensors |
| LinearLayer.DeriveFitsGemm | wrappers/python/nntile/layer/linear.py:76-97 | for each side and transposition, the derived shapes and base tiles of W and Y are those `gemm` accepts with op(X) contracting `ndim` axes |
| LinearLayer.NormalizeFlags | wrappers/python/nntile/layer/linear.py:123-127 | both flags are off unless X is fp32; the conversion flag is off when the fast flag is on; so never both |
| LinearLayer.OnRankZeroDistribution | wrappers/python/nntile/layer/linear.py:99-112 | the distribution has one entry per tile of the grid, and every entry is 0 |
| LinearLayer.DeriveTraits | wrappers/python/nntile/layer/linear.py:75-110 | the traits built for W and Y are valid exactly when the added shape and base tile are: same length, every base tile extent positive |
| LinearLayer.Generate | wrappers/python/nntile/layer/linear.py:71-130 | an invalid added shape or base tile raises from the traits constructor before anything else is checked; then the fp16 branch raises NameError; then side and `ndim` are validated; the layer holds X and normalised flags |
| LinearLayer.GenerateShapes | wrappers/python/nntile/layer/linear.py:75-119 | the generated W and Y have the derived shapes and base tiles |
| LinearLayer.GenerateOnRankZero | wrappers/python/nntile/layer/linear.py:99-119 | W and Y are valid tensors with every tile on rank 0 |
| DeepLinear.Validate | wrappers/python/nntile/model/deep_linear.py:26-34 | a bad side, then `nlayers < 2`, then `ndim <= 0`, each with its message |
| DeepLinear.Step | wrappers/python/nntile/model/deep_linear.py:39-40 | a generated layer fails exactly when the added traits are invalid; otherwise it is notrans on the given side, reads `prev`, and has the derived shapes |
| DeepLinear.FirstStepShape | wrappers/python/nntile/model/deep_linear.py:39-40 | the first layer contracts `ndim` axes of X into the added axis |
| DeepLinear.InternalStepKeepsShape | wrappers/python/nntile/model/deep_linear.py:44-47 | an internal layer keeps shape and base tile |
| DeepLinear.FinalStepShape | wrappers/python/nntile/model/deep_linear.py:51-58 | the final layer replaces the carried axis with the added shape it is given |
| DeepLinear.Internal | wrappers/python/nntile/model/deep_linear.py:43-49 | the first layer and the `nlayers - 2` internal ones, chained, every one with the first layer's output shape and base tile |
| DeepLinear.Build | wrappers/python/nntile/model/deep_linear.py:24-60 | the checks' errors first, then a base tile of 0 or an invalid final added shape raises from the traits constructor; otherwise exactly `nlayers` notrans layers; the first reads X and contracts `ndim` axes; each later one contracts 1 and reads the previous output; every layer but the last outputs the internal shape (X's kept axes and the added axis); the final output shape follows from the final added shape |
| DeepLinear.CorrectedRestoresInput | wrappers/python/nntile/model/deep_linear.py:50-58 | adding back the contracted axes restores X's shape |
| DeepLinear.AsWrittenRestoresOnlyWhen | wrappers/python/nntile/model/deep_linear.py:51-58 | as written, X's shape is restored exactly when the sliced axes happen to equal the contracted ones |
| DeepLinear.AsWrittenLosesInputShape | wrappers/python/nntile/model/deep_linear.py:51-58 | as written, a `[2, 3]` input with `ndim == 1` on side "L" comes out `[2, 2]` |
| DeepLinear.AsWritten | wrappers/python/nntile/model/deep_linear.py:24-60 | the constructor as written: fails on the checks or a base tile of 0; the final shape is built from `x.shape[:ndim]` (side "L") or `x.shape[-ndim:]` (side "R") |
| DeepLinear.Corrected | wrappers/python/nntile/model/deep_linear.py:24-60 | fails on the checks or a base tile of 0; with the contracted axes added back, the final output has X's shape and base tile |
| BiasTest.OdometerCounts | tests/tile/bias.cc:20-29 | the test's odometer stays in the box and holds the index numbered `i` at element `i` |
| BiasTest.OdometerIsLinearToIndex | tests/tile/bias.cc:20-29 | the odometer enumerates indices in the grid's first-axis-fastest order |
| BiasTest.BiasIndex | tests/tile/bias.cc:30-38 | the bias element of element `i` lies inside `b` |
| BiasTest.FirstBiasIndex | tests/tile/bias.cc:16-19 | element 0 receives bias element 0 |
| BiasTest.SameBiasIndex | tests/tile/bias.cc:30-38 | two elements receive the same bias element exactly when their indices agree off the batch axis |
| BiasTest.Offset | tests/tile/bias.cc:30-38 | the two offset loops compute the stride dot product of the index with the batch axis dropped |
| BiasTest.Advance | tests/tile/bias.cc:22-29 | one step of the test's carry loop is the odometer increment |
| BiasTest.ElementOk | tests/tile/bias.cc:30-42 | element `i` passes exactly when `B[i] == A[i] + b[offset(i)]` |
| BiasTest.AgreesUpToMeans | tests/tile/bias.cc:20-43 | passing the first `n` comparisons is agreeing with the expected result on the first `n` elements |
| BiasTest.FirstMismatch | tests/tile/bias.cc:16-43 | reports the first element that disagrees, or none |
| BiasTest.Check | tests/tile/bias.cc:7-44 | no error exactly when B is A plus the broadcast bias; the first-element message when element 0 disagrees, otherwise the general one |
| BiasTest.ExampleShapes | tests/tile/bias.cc:49-59 | the test's bias for batch axis 0 has shape (4, 5, 6), 120 of A's 360 elements |

## Left out

- The StarPU and MPI runtime: dependency inference, scheduling, transfers, flushes and drains are only logged as actions, and nothing is claimed about when tasks run.
- CUDA paths: `withCuda` only records whether a codelet lists a CUDA variant.
- Submission failures of the routines modelled as `Call` actions (sum_slice, bias_outer, clear and the two fused flash-attention tasks) are not modelled: their non-zero return codes are dropped, and only the submit routines modelled as `Task`s (hypot, embedding_backward, accumulate, fp16_to_fp32, the copy codelets) carry `ret`.
- Hypot.CommuteWhenBetaOne, Hypot.WriteOnlyWhenBetaZero: these rest on `Hypot.SquaredUpdate`, an assumed reading of the kernel `dst = hypot(alpha*src, beta*dst)` on squared magnitudes (`hypot(a, b)^2 == a^2 + b^2`). The hypot kernel itself is not part of this model, so the soundness of RW_COMMUTE and W follows from that formula, not from kernel code.
- Floating-point numerics, including NaN: values are reals. The hypot, fp16 conversion, gemm, flash-attention, bias and sum-slice kernels are not modelled; their submissions appear as `Call` actions.
- The CRC32C hash of the embedding-backward footprint is a parameter `HashStep`.
- 64-bit `Index` overflow: flop counts, offsets and products are unbounded integers.
- Codelet names given to `Call` actions of unmodelled submit routines are descriptive, not taken from the sources.
- TensorBias: `TileCall` records only tile numbers; the per-tile bias call is not looked inside.
- `TensorTraits` validation of the tensors a routine receives is assumed (`Tiled`, `Valid` requirements): those tensors were built from traits the constructor already accepted. The traits that `generate_simple_mpiroot` builds itself for W and Y (linear.py:99, :110) are checked in the model (`LinearLayer.ValidTraits`, raising `InvalidTraits`).
- TensorBiasOuter.BiasOuterAsync: requires both tensors to be valid tiled tensors; the C++ receives them already validated.
- FlashBackward.FlashBackwardAsync: requires `Q` to have at least 4 axes, and `dV` and `dQ` the same number; the source reads `basetile_shape[3]` unconditionally, indexes `dV_tile_index[j+1]` for `j < Q.ndim-1`, and looks up dQ tiles by an index copied from a dV index.
- FlashBackward.DQClearedBefore: proved only when dQ and dV have the same grid. The clear loop numbers dQ tiles `0 .. dV.grid.nelems-1`, while the dq_dk tasks address dQ by the dV index with axis 1 replaced by `j < dQ.grid.shape[1]`. With different grids, for example when Q has more sequence tiles than K, the tiles cleared and the tiles accumulated into differ. Whether callers always pass equal grids is outside the routine, so this is not claimed as a defect.
- FlashBackward.FlashBackwardAsync: the handles of K, V, mask, maxsumexp, dst_grad, tmp and tmp_grad are named by their derived indices, but whether those tiles exist in each tensor's grid is not checked.
- TileCopy.PlanCopy: on tiles with an empty axis the cuts are not stated; such tiles never reach the planner.
- TileCopy.RunCopyIntersection: requires non-empty tiles for the same reason; the one-element scratch buffer for `ndim` 0 is not modelled separately (`CopyTask.CopyNdim0` covers that codelet).
- Subcopy.OdometerCopy: requires `ndim >= 1` and every `copy_shape[i] >= 1`, because the kernel copies the first element unconditionally, and `src_stride[0] == dst_stride[0] == 1`, because the kernel takes the first-axis offset to be `start[0]` and steps it by one element, which is right only for unit first strides; without injectivity of the destination layout only "last writer wins" is stated.
- Accumulate.Cpu: takes the byte size as a number; `elemsize` of a StarPU interface is not modelled.
- BiasTest.Check: requires `b` to have A's shape without the batch axis and A to be non-empty, as the test's tiles do; the copy of A into B and the bias kernel itself are not modelled, so B is an input.
- DeepLinear.Step: the link to `LinearLayer.Generate` is stated through its derived shapes only, not as equality of the whole layer record.
- LinearLayer.New: the constructor signature puts non-default parameters after defaulted ones, which Python rejects at import; the model treats the fp16 tensors as absent.
- LinearLayer.Generate: the fp16 branch refers to undefined names; it is modelled as raising NameError, and the fp16 tensors are not built. The `TensorTraits` constructor is not part of this model: `InvalidTraits` stands for its exception, taken to be raised for a shape and base tile of different lengths or a base tile extent that is not positive, and its message is not modelled; added shapes are lists of naturals, so a negative extent is not modelled either.
- DeepLinear.Build: a base tile of 0 (or an invalid final added shape) ends in `InvalidTraits` from the traits constructor, with the same limits as for `LinearLayer.Generate`.
- `next_tag` bookkeeping of the Python layers is left out: it only numbers MPI tags.
- Forward and backward passes of the Python layers are gemm dispatch and are left out.

## Findings

| source | as written | input that shows it | evidently intended | confidence | as-written member | corrected member |
|---|---|---|---|---|---|---|
| wrappers/python/nntile/model/deep_linear.py:51-58 | the final layer adds `x.shape[:ndim]` on side "L" and `x.shape[-ndim:]` on side "R" | `x.shape == [2, 3]`, `ndim == 1`, side "L": the output shape is `[2, 2]` | add back the axes the first layer contracted (`x.shape[-ndim:]` on "L", `x.shape[:ndim]` on "R"), so the output has X's shape, as the comment "converts result back to proper shape" says | medium, not executed | DeepLinear.AsWrittenLosesInputShape | DeepLinear.CorrectedRestoresInput |
