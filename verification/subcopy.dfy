/** The odometer copy of a strided sub-box from one buffer into another.

    The same kernel appears three times in nntile (the `subcopy` CPU
    kernel, `copy_kernel_cpu`, and the CPU function of the tile intersection
    copy); they are one algorithm, modelled once here. It walks the box of
    extents `copyShape` with one flat counter, keeps the current source and
    destination multi-indices in a scratch array of `2*ndim` entries (source
    index first), and moves the flat offsets by `stride[j] - shape[j-1]*stride[j-1]`
    on every carry instead of recomputing them. */
module Subcopy {
  import opened Shapes

  /** The scalar arguments of the kernel, in the order they are packed. */
  datatype CopyArgs = CopyArgs(
    ndim: int,
    srcStart: seq<int>,
    srcStride: seq<int>,
    copyShape: seq<nat>,
    dstStart: seq<int>,
    dstStride: seq<int>)

  /** What the kernel assumes of its arguments: at least one axis, one entry
      per axis in every vector, a non-empty box (the first element is copied
      unconditionally), and unit stride on axis 0 (offsets advance by one
      between consecutive elements of a row). */
  predicate WellFormed(a: CopyArgs)
  {
    && a.ndim >= 1
    && |a.srcStart| == a.ndim && |a.srcStride| == a.ndim && |a.copyShape| == a.ndim
    && |a.dstStart| == a.ndim && |a.dstStride| == a.ndim
    && (forall k :: 0 <= k < a.ndim ==> a.copyShape[k] >= 1)
    && a.srcStride[0] == 1 && a.dstStride[0] == 1
  }

  /** Offset, under `stride`, of box element `r` of a box anchored at `start`. */
  function BoxOffset(start: seq<int>, stride: seq<int>, r: seq<int>): int
    requires |start| == |stride| == |r|
  {
    Dot(stride, Shift(start, r))
  }

  function SrcOffset(a: CopyArgs, r: seq<int>): int
    requires WellFormed(a) && |r| == a.ndim
  {
    BoxOffset(a.srcStart, a.srcStride, r)
  }

  function DstOffset(a: CopyArgs, r: seq<int>): int
    requires WellFormed(a) && |r| == a.ndim
  {
    BoxOffset(a.dstStart, a.dstStride, r)
  }

  /** Every element of the box lies inside both buffers. */
  ghost predicate BoxInBounds(a: CopyArgs, srcLen: nat, dstLen: nat)
    requires WellFormed(a)
  {
    forall r :: InBox(a.copyShape, r) ==>
      0 <= SrcOffset(a, r) < srcLen && 0 <= DstOffset(a, r) < dstLen
  }

  /** Distinct box elements land on distinct destination offsets. */
  ghost predicate DstInjective(a: CopyArgs)
    requires WellFormed(a)
  {
    forall r1, r2 :: InBox(a.copyShape, r1) && InBox(a.copyShape, r2) && DstOffset(a, r1) == DstOffset(a, r2) ==> r1 == r2
  }

  /** One element assignment `dst[to] = src[from]`. */
  datatype Move = Move(from: int, to: int)

  predicate MovesFit(moves: seq<Move>, srcLen: nat, dstLen: nat)
  {
    forall t :: 0 <= t < |moves| ==> 0 <= moves[t].from < srcLen && 0 <= moves[t].to < dstLen
  }

  /** The destination after performing `moves` in order (a later assignment
      to the same offset wins). */
  function Apply<T>(dst: seq<T>, src: seq<T>, moves: seq<Move>): (r: seq<T>)
    requires MovesFit(moves, |src|, |dst|)
    ensures |r| == |dst|
  {
    if |moves| == 0 then dst
    else
      var m := moves[|moves| - 1];
      Apply(dst, src, moves[..|moves| - 1])[m.to := src[m.from]]
  }

  /** The `t`-th assignment of the kernel: box element number `t`, counted
      with axis 0 fastest, from its source offset to its destination offset. */
  function BoxMove(a: CopyArgs, t: nat): Move
    requires WellFormed(a) && t < Product(a.copyShape)
  {
    var r := LinearToIndex(a.copyShape, t);
    Move(SrcOffset(a, r), DstOffset(a, r))
  }

  /** An offset no assignment targets keeps its old value. */
  lemma {:induction false} ApplyUntouched<T>(dst: seq<T>, src: seq<T>, moves: seq<Move>, p: int)
    requires MovesFit(moves, |src|, |dst|) && 0 <= p < |dst|
    requires forall t :: 0 <= t < |moves| ==> moves[t].to != p
    ensures Apply(dst, src, moves)[p] == dst[p]
  {
    if |moves| > 0 {
      ApplyUntouched(dst, src, moves[..|moves| - 1], p);
    }
  }

  /** An offset takes the value of the last assignment that targets it. */
  lemma {:induction false} ApplyLastWriter<T>(dst: seq<T>, src: seq<T>, moves: seq<Move>, t: nat)
    requires MovesFit(moves, |src|, |dst|) && t < |moves|
    requires forall u :: t < u < |moves| ==> moves[u].to != moves[t].to
    ensures Apply(dst, src, moves)[moves[t].to] == src[moves[t].from]
  {
    if t < |moves| - 1 {
      ApplyLastWriter(dst, src, moves[..|moves| - 1], t);
    }
  }

  /** All assignments of the kernel, in the order it performs them. */
  function BoxMoves(a: CopyArgs): (moves: seq<Move>)
    requires WellFormed(a)
    ensures |moves| == Product(a.copyShape)
  {
    seq(Product(a.copyShape), t requires 0 <= t < Product(a.copyShape) => BoxMove(a, t))
  }

  /** The odometer copy. `out` is the destination buffer afterwards and
      `tmpIndex` the scratch buffer afterwards. */
  method OdometerCopy<T>(a: CopyArgs, src: seq<T>, dst: seq<T>) returns (out: seq<T>, tmpIndex: seq<int>)
    requires WellFormed(a)
    requires BoxInBounds(a, |src|, |dst|)
    // one assignment per box element, in first-axis-fastest order
    ensures MovesFit(BoxMoves(a), |src|, |dst|) && out == Apply(dst, src, BoxMoves(a))
    // nothing outside the box is written
    ensures |out| == |dst|
    ensures forall p :: 0 <= p < |dst| && (forall r :: InBox(a.copyShape, r) ==> DstOffset(a, r) != p) ==> out[p] == dst[p]
    // every box element is copied to its counterpart
    ensures DstInjective(a) ==> forall r :: InBox(a.copyShape, r) ==> out[DstOffset(a, r)] == src[SrcOffset(a, r)]
    // the scratch buffer ends holding the last source and destination indices
    ensures |tmpIndex| == 2 * a.ndim
    ensures forall k :: 0 <= k < a.ndim ==>
              tmpIndex[k] == a.srcStart[k] + a.copyShape[k] - 1 && tmpIndex[a.ndim + k] == a.dstStart[k] + a.copyShape[k] - 1
  {
    var srcOffset, dstOffset;
    ghost var moves;
    tmpIndex, out, moves, srcOffset, dstOffset := CopyFirst(a, src, dst);
    tmpIndex, out, moves, srcOffset, dstOffset := CopyLoop(a, src, dst, tmpIndex, out, moves, srcOffset, dstOffset);
    assert moves == BoxMoves(a);
    FinalScratch(a, tmpIndex);
    UntouchedOutsideBox(a, src, dst);
    if DstInjective(a) {
      InjectiveBoxCopied(a, src, dst);
    }
  }

  /** The kernel up to its main loop: count the elements, set the scratch
      indices and offsets to the start corners, and copy the first element. */
  method CopyFirst<T>(a: CopyArgs, src: seq<T>, dst: seq<T>)
    returns (tmpIndex: seq<int>, out: seq<T>, ghost moves: seq<Move>, srcOffset: int, dstOffset: int)
    requires WellFormed(a) && BoxInBounds(a, |src|, |dst|)
    ensures CopyState(a, src, dst, 1, tmpIndex, out, moves, srcOffset, dstOffset)
  {
    var nelems;
    tmpIndex, nelems := CountAndStart(a);
    ProductPositive(a.copyShape);
    srcOffset, dstOffset := StartOffsets(a);
    FirstBoxElement(a);
    out := dst[dstOffset := src[srcOffset]];
    moves := [BoxMove(a, 0)];
    assert out == Apply(dst, src, moves);
    srcOffset := srcOffset + 1;
    dstOffset := dstOffset + 1;
  }

  /** After the last element the scratch buffer holds the far corners. */
  lemma FinalScratch(a: CopyArgs, tmp: seq<int>)
    requires WellFormed(a) && Product(a.copyShape) >= 1
    requires ScratchHolds(a, tmp, LinearToIndex(a.copyShape, Product(a.copyShape) - 1))
    ensures |tmp| == 2 * a.ndim
    ensures forall k :: 0 <= k < a.ndim ==>
              tmp[k] == a.srcStart[k] + a.copyShape[k] - 1 && tmp[a.ndim + k] == a.dstStart[k] + a.copyShape[k] - 1
  {
    LastIndex(a.copyShape);
    var last := LinearToIndex(a.copyShape, Product(a.copyShape) - 1);
    forall k | 0 <= k < a.ndim
      ensures tmp[a.ndim + k] == a.dstStart[k] + a.copyShape[k] - 1
    {
      assert tmp[a.ndim + k] == Shift(a.dstStart, last)[k];
    }
  }

  /** The scratch buffer holds box element `r` placed at the source start
      corner (first half) and at the destination start corner (second half). */
  ghost predicate ScratchHolds(a: CopyArgs, tmp: seq<int>, r: seq<int>)
    requires WellFormed(a) && |r| == a.ndim
  {
    tmp == Shift(a.srcStart, r) + Shift(a.dstStart, r)
  }

  /** The state of the kernel after copying the first `n` box elements:
      `moves` are those `n` assignments, `out` their effect, the scratch
      buffer holds box element `n - 1`, and each running offset points one
      past that element. */
  ghost predicate CopyState<T>(a: CopyArgs, src: seq<T>, dst: seq<T>, n: nat,
                               tmp: seq<int>, out: seq<T>, moves: seq<Move>, srcOffset: int, dstOffset: int)
    requires WellFormed(a)
  {
    && 1 <= n <= Product(a.copyShape)
    && |moves| == n && (forall t :: 0 <= t < n ==> moves[t] == BoxMove(a, t))
    && MovesFit(moves, |src|, |dst|) && out == Apply(dst, src, moves)
    && var prev := LinearToIndex(a.copyShape, n - 1);
    && ScratchHolds(a, tmp, prev)
    && srcOffset == SrcOffset(a, prev) + 1
    && dstOffset == DstOffset(a, prev) + 1
  }

  /** The main loop of the kernel, from the second box element on. */
  method CopyLoop<T>(a: CopyArgs, src: seq<T>, dst: seq<T>, tmp0: seq<int>, out0: seq<T>,
                     ghost moves0: seq<Move>, srcOffset0: int, dstOffset0: int)
    returns (tmpIndex: seq<int>, out: seq<T>, ghost moves: seq<Move>, srcOffset: int, dstOffset: int)
    requires WellFormed(a) && BoxInBounds(a, |src|, |dst|)
    requires CopyState(a, src, dst, 1, tmp0, out0, moves0, srcOffset0, dstOffset0)
    ensures CopyState(a, src, dst, Product(a.copyShape), tmpIndex, out, moves, srcOffset, dstOffset)
  {
    var nelems := Product(a.copyShape);
    tmpIndex, out, moves := tmp0, out0, moves0;
    srcOffset, dstOffset := srcOffset0, dstOffset0;
    var n := 1;
    while n < nelems
      invariant CopyState(a, src, dst, n, tmpIndex, out, moves, srcOffset, dstOffset)
      decreases nelems - n
    {
      tmpIndex, out, moves, srcOffset, dstOffset := CopyStep(a, src, dst, n, tmpIndex, out, moves, srcOffset, dstOffset);
      n := n + 1;
    }
  }

  /** One iteration of the main loop: advance the indices to box element
      `n` and copy it. */
  method CopyStep<T>(a: CopyArgs, src: seq<T>, dst: seq<T>, n: nat, tmp: seq<int>, out: seq<T>,
                     ghost moves: seq<Move>, srcOffset: int, dstOffset: int)
    returns (tmp': seq<int>, out': seq<T>, ghost moves': seq<Move>, srcOffset': int, dstOffset': int)
    requires WellFormed(a) && BoxInBounds(a, |src|, |dst|)
    requires CopyState(a, src, dst, n, tmp, out, moves, srcOffset, dstOffset) && n < Product(a.copyShape)
    ensures CopyState(a, src, dst, n + 1, tmp', out', moves', srcOffset', dstOffset')
  {
    ghost var prev := LinearToIndex(a.copyShape, n - 1);
    ghost var next := LinearToIndex(a.copyShape, n);
    ghost var j0 := OdometerCarry(a.copyShape, n);
    tmp', srcOffset', dstOffset' := AdvanceIndices(a, tmp, srcOffset, dstOffset, prev, next, j0);
    ghost var m := BoxMove(a, n);
    assert m == Move(srcOffset', dstOffset');
    out' := out[dstOffset' := src[srcOffset']];
    moves' := moves + [m];
    assert moves'[..n] == moves;
    srcOffset' := srcOffset' + 1;
    dstOffset' := dstOffset' + 1;
  }

  /** Bump both scratch indices along axis 0 and carry each, moving the
      running offsets with them, from box element `prev` to the next box
      element `next`; the carry stops at axis `j0`. The source index is the
      first half of the scratch buffer and the destination index the second. */
  method AdvanceIndices(a: CopyArgs, tmp: seq<int>, srcOffset: int, dstOffset: int,
                        ghost prev: seq<int>, ghost next: seq<int>, ghost j0: nat)
    returns (tmp': seq<int>, srcOffset': int, dstOffset': int)
    requires WellFormed(a) && |prev| == |next| == a.ndim
    requires InBox(a.copyShape, next) && CarryAt(a.copyShape, prev, next, j0)
    requires ScratchHolds(a, tmp, prev)
    requires srcOffset == SrcOffset(a, prev) + 1 && dstOffset == DstOffset(a, prev) + 1
    ensures ScratchHolds(a, tmp', next)
    ensures srcOffset' == SrcOffset(a, next) && dstOffset' == DstOffset(a, next)
  {
    var ndim: nat := a.ndim;
    var srcIndex, dstIndex := tmp[..ndim], tmp[ndim..];
    assert srcIndex == Shift(a.srcStart, prev) && dstIndex == Shift(a.dstStart, prev);
    srcIndex := srcIndex[0 := srcIndex[0] + 1];
    dstIndex := dstIndex[0 := dstIndex[0] + 1];
    srcIndex, srcOffset' := CarryAxes(srcIndex, a.srcStart, a.srcStride, a.copyShape, srcOffset, prev, next, j0);
    dstIndex, dstOffset' := CarryAxes(dstIndex, a.dstStart, a.dstStride, a.copyShape, dstOffset, prev, next, j0);
    tmp' := srcIndex + dstIndex;
  }

  /** The first loop of the kernel: the number of box elements, and the
      scratch buffer initialised to the two start corners. */
  method CountAndStart(a: CopyArgs) returns (tmp: seq<int>, nelems: nat)
    requires WellFormed(a)
    ensures |tmp| == 2 * a.ndim
    ensures nelems == Product(a.copyShape)
    ensures tmp == a.srcStart + a.dstStart
  {
    var ndim: nat := a.ndim;
    tmp := seq(2 * ndim, _ => 0);
    nelems := 1;
    var i := 0;
    while i < ndim
      invariant 0 <= i <= ndim
      invariant |tmp| == 2 * ndim
      invariant nelems == Product(a.copyShape[..i])
      invariant forall k :: 0 <= k < i ==> tmp[k] == a.srcStart[k]
      invariant forall k :: ndim <= k < ndim + i ==> tmp[k] == a.dstStart[k - ndim]
    {
      ProductPrefixStep(a.copyShape, i);
      nelems := nelems * a.copyShape[i];
      tmp := tmp[i := a.srcStart[i]][ndim + i := a.dstStart[i]];
      i := i + 1;
    }
    assert a.copyShape[..ndim] == a.copyShape;
    assert tmp == a.srcStart + a.dstStart;
  }

  /** The second loop of the kernel: flat offsets of the two start corners,
      with axis 0 taken at unit stride. */
  method StartOffsets(a: CopyArgs) returns (srcOffset: int, dstOffset: int)
    requires WellFormed(a)
    ensures srcOffset == Dot(a.srcStride, a.srcStart)
    ensures dstOffset == Dot(a.dstStride, a.dstStart)
  {
    var ndim: nat := a.ndim;
    srcOffset := a.srcStart[0];
    dstOffset := a.dstStart[0];
    var i := 1;
    while i < ndim
      invariant 1 <= i <= ndim
      invariant srcOffset == Dot(a.srcStride[..i], a.srcStart[..i])
      invariant dstOffset == Dot(a.dstStride[..i], a.dstStart[..i])
    {
      DotPrefixStep(a.srcStride, a.srcStart, i);
      DotPrefixStep(a.dstStride, a.dstStart, i);
      srcOffset := srcOffset + a.srcStart[i] * a.srcStride[i];
      dstOffset := dstOffset + a.dstStart[i] * a.dstStride[i];
      i := i + 1;
    }
    assert a.srcStride[..ndim] == a.srcStride && a.srcStart[..ndim] == a.srcStart;
    assert a.dstStride[..ndim] == a.dstStride && a.dstStart[..ndim] == a.dstStart;
  }

  /** One carry pass over one index of the scratch buffer, after its
      axis-0 entry has been bumped: reset every axis that reached the end of
      the box, bump the next one, and keep `offset` equal to the offset of
      the index. `prev` and `next` are consecutive box elements and `j0` the
      axis the carry stops at. */
  method CarryAxes(index: seq<int>, start: seq<int>, stride: seq<int>, copyShape: seq<nat>,
                   offset: int, ghost prev: seq<int>, ghost next: seq<int>, ghost j0: nat)
    returns (index': seq<int>, offset': int)
    requires |start| == |stride| == |copyShape| == |prev| == |next| >= 1 && stride[0] == 1
    requires InBox(copyShape, next) && CarryAt(copyShape, prev, next, j0)
    requires index == Shift(start, prev)[0 := start[0] + prev[0] + 1]
    requires offset == BoxOffset(start, stride, prev) + 1
    ensures index' == Shift(start, next)
    ensures offset' == BoxOffset(start, stride, next)
  {
    var ndim := |start|;
    DotUpdate(stride, Shift(start, prev), 0, start[0] + prev[0] + 1);
    index' := index;
    offset' := offset;
    var j := 0;
    while index'[j] == start[j] + copyShape[j]
      invariant 0 <= j <= j0
      invariant |index'| == ndim
      invariant forall k :: 0 <= k < j ==> index'[k] == start[k] + next[k]
      invariant index'[j] == start[j] + prev[j] + 1
      invariant forall k :: j < k < ndim ==> index'[k] == start[k] + prev[k]
      invariant offset' == Dot(stride, index')
      decreases ndim - j
    {
      assert j < j0;
      CarryOffset(stride, index', j, start[j], copyShape[j]);
      offset' := offset' + stride[j + 1] - copyShape[j] * stride[j];
      index' := index'[j := start[j]][j + 1 := index'[j + 1] + 1];
      j := j + 1;
    }
    assert j == j0;
    forall k | 0 <= k < ndim
      ensures index'[k] == Shift(start, next)[k]
    {
    }
  }

  /** How one carry from axis `j` into axis `j + 1` moves a flat offset. */
  lemma CarryOffset(stride: seq<int>, pos: seq<int>, j: nat, start: int, extent: int)
    requires |stride| == |pos| && j + 1 < |pos| && pos[j] == start + extent
    ensures Dot(stride, pos[j := start][j + 1 := pos[j + 1] + 1]) == Dot(stride, pos) + stride[j + 1] - extent * stride[j]
  {
    DotUpdate(stride, pos, j, start);
    DotUpdate(stride, pos[j := start], j + 1, pos[j + 1] + 1);
  }

  /** Box element 0 is the box's start corner. */
  lemma FirstBoxElement(a: CopyArgs)
    requires WellFormed(a) && Product(a.copyShape) > 0
    ensures LinearToIndex(a.copyShape, 0) == seq(a.ndim, k => 0)
    ensures Shift(a.srcStart, LinearToIndex(a.copyShape, 0)) == a.srcStart
    ensures Shift(a.dstStart, LinearToIndex(a.copyShape, 0)) == a.dstStart
    ensures BoxMove(a, 0) == Move(Dot(a.srcStride, a.srcStart), Dot(a.dstStride, a.dstStart))
  {
    FirstIndex(a.copyShape);
    var z := LinearToIndex(a.copyShape, 0);
    assert Shift(a.srcStart, z) == a.srcStart;
    assert Shift(a.dstStart, z) == a.dstStart;
  }

  /** Offsets that are the destination of no box element keep their value. */
  lemma UntouchedOutsideBox<T>(a: CopyArgs, src: seq<T>, dst: seq<T>)
    requires WellFormed(a) && BoxInBounds(a, |src|, |dst|)
    ensures MovesFit(BoxMoves(a), |src|, |dst|)
    ensures forall p :: 0 <= p < |dst| && (forall r :: InBox(a.copyShape, r) ==> DstOffset(a, r) != p) ==>
              Apply(dst, src, BoxMoves(a))[p] == dst[p]
  {
    var moves := BoxMoves(a);
    forall p | 0 <= p < |dst| && (forall r :: InBox(a.copyShape, r) ==> DstOffset(a, r) != p)
      ensures Apply(dst, src, moves)[p] == dst[p]
    {
      forall t | 0 <= t < |moves|
        ensures moves[t].to != p
      {
        assert InBox(a.copyShape, LinearToIndex(a.copyShape, t));
      }
      ApplyUntouched(dst, src, moves, p);
    }
  }

  /** With an injective destination layout, every box element ends up copied:
      its assignment is the last one to target its destination offset. */
  lemma InjectiveBoxCopied<T>(a: CopyArgs, src: seq<T>, dst: seq<T>)
    requires WellFormed(a) && DstInjective(a) && BoxInBounds(a, |src|, |dst|)
    ensures MovesFit(BoxMoves(a), |src|, |dst|)
    ensures forall r :: InBox(a.copyShape, r) ==>
              Apply(dst, src, BoxMoves(a))[DstOffset(a, r)] == src[SrcOffset(a, r)]
  {
    var moves := BoxMoves(a);
    forall r | InBox(a.copyShape, r)
      ensures Apply(dst, src, moves)[DstOffset(a, r)] == src[SrcOffset(a, r)]
    {
      var t := IndexToLinear(a.copyShape, r);
      IndexToLinearInBox(a.copyShape, r);
      assert moves[t] == Move(SrcOffset(a, r), DstOffset(a, r));
      forall u | t < u < |moves|
        ensures moves[u].to != moves[t].to
      {
        LinearToIndexInjective(a.copyShape, u, t);
      }
      ApplyLastWriter(dst, src, moves, t);
    }
  }
}
