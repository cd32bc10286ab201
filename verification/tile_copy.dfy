/** Copying the intersection of two tiles that sit at given offsets of the
    same index space (`copy_intersection_work` on tiles).

    The planner picks one of three outcomes: a plain whole-buffer copy when
    the two tiles coincide, nothing when they do not meet, and otherwise an
    odometer copy of the intersecting box, submitted as one task whose
    destination mode is write-only when the box covers the whole destination
    tile and read-write otherwise. */
module TileCopy {
  import opened Outcome
  import opened Runtime
  import opened Shapes
  import opened Subcopy
  import opened CopyTask
  import opened Tiles

  function Min(a: int, b: int): int { if a <= b then a else b }

  function Max(a: int, b: int): int { if a >= b then a else b }

  /** The common part of two tiles along one axis, with its start relative to
      each tile and its extent. */
  datatype AxisCut = AxisCut(srcStart: int, dstStart: int, extent: int)

  /** Reference definition of the common part along one axis: the
      intersection `[lo, hi)` of the intervals `[srcOffset, srcOffset+srcLen)`
      and `[dstOffset, dstOffset+dstLen)`, or `None` when it is empty. */
  function Overlap(srcOffset: int, srcLen: int, dstOffset: int, dstLen: int): Option<AxisCut>
  {
    var lo := Max(srcOffset, dstOffset);
    var hi := Min(srcOffset + srcLen, dstOffset + dstLen);
    if hi <= lo then None else Some(AxisCut(lo - srcOffset, lo - dstOffset, hi - lo))
  }

  /** The two tiles coincide: same offset and same shape. */
  predicate Coincide(srcShape: seq<nat>, srcOffset: seq<int>, dstShape: seq<nat>, dstOffset: seq<int>)
  {
    srcOffset == dstOffset && srcShape == dstShape
  }

  /** Some axis has an empty common part, so the tiles do not meet. */
  predicate Apart(srcShape: seq<nat>, srcOffset: seq<int>, dstShape: seq<nat>, dstOffset: seq<int>)
    requires |srcShape| == |srcOffset| == |dstShape| == |dstOffset|
  {
    exists i :: 0 <= i < |srcShape| && Overlap(srcOffset[i], srcShape[i], dstOffset[i], dstShape[i]).None?
  }

  /** `srcStart`, `dstStart` and `copyShape` describe the common box axis by axis. */
  predicate CutsAre(srcShape: seq<nat>, srcOffset: seq<int>, dstShape: seq<nat>, dstOffset: seq<int>,
                    srcStart: seq<int>, dstStart: seq<int>, copyShape: seq<nat>)
    requires |srcShape| == |srcOffset| == |dstShape| == |dstOffset|
  {
    && |srcStart| == |dstStart| == |copyShape| == |srcShape|
    && forall i :: 0 <= i < |srcShape| ==>
         Overlap(srcOffset[i], srcShape[i], dstOffset[i], dstShape[i]) == Some(AxisCut(srcStart[i], dstStart[i], copyShape[i]))
  }

  /** What the planner decides. */
  datatype Plan =
    | WholeCopy
    | NoIntersection
    | Smart(srcStart: seq<int>, dstStart: seq<int>, copyShape: seq<nat>, mode: AccessMode)

  /** Every extent is positive: the tile holds at least one element. */
  predicate NonEmpty(shape: seq<nat>)
  {
    forall k :: 0 <= k < |shape| ==> shape[k] > 0
  }

  /** The planning part of `copy_intersection_work`. For tiles holding at
      least one element the plan agrees with the interval intersection. */
  method PlanCopy(srcShape: seq<nat>, srcOffset: seq<int>, dstShape: seq<nat>, dstOffset: seq<int>) returns (p: Plan)
    requires |srcShape| == |srcOffset| == |dstShape| == |dstOffset|
    ensures p.WholeCopy? <==> Coincide(srcShape, srcOffset, dstShape, dstOffset)
    ensures NonEmpty(srcShape) && NonEmpty(dstShape) ==>
              (p.NoIntersection? <==> !Coincide(srcShape, srcOffset, dstShape, dstOffset) && Apart(srcShape, srcOffset, dstShape, dstOffset))
    ensures p.Smart? && NonEmpty(srcShape) && NonEmpty(dstShape) ==>
              CutsAre(srcShape, srcOffset, dstShape, dstOffset, p.srcStart, p.dstStart, p.copyShape)
    ensures p.Smart? ==> |p.copyShape| == |dstShape| && (p.mode == W <==> p.copyShape == dstShape) && (p.mode == W || p.mode == RW)
  {
    var ndim := |srcShape|;
    if srcOffset == dstOffset && srcShape == dstShape {
      return WholeCopy;
    }
    var srcStart: seq<int> := seq(ndim, _ => 0);
    var dstStart: seq<int> := seq(ndim, _ => 0);
    var copyShape: seq<nat> := seq(ndim, _ => 0);
    var mode := W;
    var i := 0;
    while i < ndim
      invariant 0 <= i <= ndim
      invariant |srcStart| == |dstStart| == |copyShape| == ndim
      invariant NonEmpty(srcShape) && NonEmpty(dstShape) ==> forall k :: 0 <= k < i ==>
                  Overlap(srcOffset[k], srcShape[k], dstOffset[k], dstShape[k]) == Some(AxisCut(srcStart[k], dstStart[k], copyShape[k]))
      invariant (mode == W <==> copyShape[..i] == dstShape[..i]) && (mode == W || mode == RW)
    {
      if srcOffset[i] + srcShape[i] <= dstOffset[i] || dstOffset[i] + dstShape[i] <= srcOffset[i] {
        assert Overlap(srcOffset[i], srcShape[i], dstOffset[i], dstShape[i]).None?;
        return NoIntersection;
      }
      if srcOffset[i] < dstOffset[i] {
        dstStart := dstStart[i := 0];
        srcStart := srcStart[i := dstOffset[i] - srcOffset[i]];
        copyShape := copyShape[i := Min(srcShape[i] - srcStart[i], dstShape[i])];
      } else {
        dstStart := dstStart[i := srcOffset[i] - dstOffset[i]];
        srcStart := srcStart[i := 0];
        copyShape := copyShape[i := Min(dstShape[i] - dstStart[i], srcShape[i])];
      }
      if copyShape[i] != dstShape[i] {
        mode := RW;
      }
      assert copyShape[..i + 1] == copyShape[..i] + [copyShape[i]];
      assert dstShape[..i + 1] == dstShape[..i] + [dstShape[i]];
      i := i + 1;
    }
    assert copyShape[..ndim] == copyShape && dstShape[..ndim] == dstShape;
    return Smart(srcStart, dstStart, copyShape, mode);
  }

  /** The three codelets of the intersection copy, one per destination mode;
      any other mode is refused. */
  function CopyCodelet(mode: AccessMode): (r: Result<Codelet>)
    ensures r.Ok? <==> mode in {W, RW, RWCommute}
    ensures r.Ok? ==> r.value.modes == [R, mode, Scratch] && r.value.cpu == ["cpu_copy_intersection"] && r.value.cuda == []
    ensures r.Err? ==> r.error == RuntimeError("Unsupported mode")
  {
    match mode
    case W => Ok(Codelet("codelet_copy_w", [R, W, Scratch], ["cpu_copy_intersection"], []))
    case RW => Ok(Codelet("codelet_copy_rw", [R, RW, Scratch], ["cpu_copy_intersection"], []))
    case RWCommute => Ok(Codelet("codelet_copy_rw_commute", [R, RWCommute, Scratch], ["cpu_copy_intersection"], []))
    case _ => Err(RuntimeError("Unsupported mode"))
  }

  /** The kernel arguments the task carries for a given box. */
  function BoxArgs(src: Tile, srcStart: seq<int>, dst: Tile, dstStart: seq<int>, copyShape: seq<nat>): CopyArgs
  {
    CopyArgs(|src.shape|, srcStart, Strides(src.shape), copyShape, dstStart, Strides(dst.shape))
  }

  /** The launching part of `copy_intersection_work`: pick the codelet for
      `mode`, then submit a task reading the source, accessing the destination
      in `mode`, using `scratch` as scratch, with zero flops; `ret` is the
      runtime's return code. */
  function CopyIntersectionWork(src: Tile, srcStart: seq<int>, dst: Tile, dstStart: seq<int>,
                                copyShape: seq<nat>, scratch: Handle, mode: AccessMode, ret: int): (r: Result<Task>)
    ensures r.Ok? <==> mode in {W, RW, RWCommute} && ret == 0
    ensures r.Err? ==> r.error == if mode in {W, RW, RWCommute} then RuntimeError("ret != 0") else RuntimeError("Unsupported mode")
    ensures r.Ok? ==> ModesMatch(CopyCodelet(mode).value, r.value)
    ensures r.Ok? ==> r.value.buffers == [Binding(src.handle, R), Binding(dst.handle, mode), Binding(scratch, Scratch)]
    ensures r.Ok? ==> UnpackArgs(r.value.args) == Some(BoxArgs(src, srcStart, dst, dstStart, copyShape))
    ensures r.Ok? ==> r.value.flops == Some(0.0)
  {
    var cl :- CopyCodelet(mode);
    var t := Task(cl.name, [Binding(src.handle, R), Binding(dst.handle, mode), Binding(scratch, Scratch)],
                  PackArgs(BoxArgs(src, srcStart, dst, dstStart, copyShape)), Some(0.0));
    Insert(t, ret, "ret != 0")
  }

  /** The codelet of the zero-dimensional copy. */
  function Ndim0Codelet(): Codelet
  {
    Codelet("codelet_copy_ndim0", [R, W], ["cpu_copy_intersection_ndim0"], [])
  }

  /** `copy_intersection_work_ndim0`: one task reading the source scalar and
      writing the destination scalar, with zero flops. */
  function CopyIntersectionWorkNdim0(src: Tile, dst: Tile, ret: int): (r: Result<Task>)
    ensures r.Ok? <==> ret == 0
    ensures r.Ok? ==> ModesMatch(Ndim0Codelet(), r.value) && r.value.flops == Some(0.0)
    ensures r.Ok? ==> r.value.buffers == [Binding(src.handle, R), Binding(dst.handle, W)] && r.value.args == []
    ensures r.Err? ==> r.error == RuntimeError("ret != 0")
  {
    Insert(Task(Ndim0Codelet().name, [Binding(src.handle, R), Binding(dst.handle, W)], [], Some(0.0)), ret, "ret != 0")
  }

  /** `copy_intersection_work` on two tiles at the given offsets: the runtime
      calls it issues. */
  method CopyIntersection(src: Tile, srcOffset: seq<int>, dst: Tile, dstOffset: seq<int>, scratch: Handle, ret: int)
    returns (r: Result<seq<Action>>)
    requires |src.shape| == |srcOffset| == |dst.shape| == |dstOffset|
    ensures Coincide(src.shape, srcOffset, dst.shape, dstOffset) ==> r == Ok([DataCpy(dst.handle, src.handle)])
    ensures NonEmpty(src.shape) && NonEmpty(dst.shape) && !Coincide(src.shape, srcOffset, dst.shape, dstOffset) ==>
              (r == Ok([]) <==> Apart(src.shape, srcOffset, dst.shape, dstOffset))
    ensures NonEmpty(src.shape) && NonEmpty(dst.shape) && !Coincide(src.shape, srcOffset, dst.shape, dstOffset) && !Apart(src.shape, srcOffset, dst.shape, dstOffset) ==>
              && (r.Ok? <==> ret == 0)
              && (r.Err? ==> r.error == RuntimeError("ret != 0"))
              && (r.Ok? ==> |r.value| == 1 && r.value[0].Submit?
                            && var t := r.value[0].task;
                            && |t.buffers| == 3 && t.buffers[0] == Binding(src.handle, R)
                            && t.buffers[2] == Binding(scratch, Scratch)
                            && (t.buffers[1] == Binding(dst.handle, W) <==> IntersectionCoversDst(src.shape, srcOffset, dst.shape, dstOffset))
                            && (t.buffers[1] == Binding(dst.handle, RW) <==> !IntersectionCoversDst(src.shape, srcOffset, dst.shape, dstOffset)))
  {
    var p := PlanCopy(src.shape, srcOffset, dst.shape, dstOffset);
    match p
    case WholeCopy =>
      r := Ok([DataCpy(dst.handle, src.handle)]);
    case NoIntersection =>
      r := Ok([]);
    case Smart(srcStart, dstStart, copyShape, mode) =>
      if NonEmpty(src.shape) && NonEmpty(dst.shape) {
        CoverIffFullBox(src.shape, srcOffset, dst.shape, dstOffset, srcStart, dstStart, copyShape);
      }
      var t := CopyIntersectionWork(src, srcStart, dst, dstStart, copyShape, scratch, mode, ret);
      r := if t.Ok? then Ok([Submit(t.value)]) else Err(t.error);
  }

  /** On every axis the common part spans the whole destination tile. */
  predicate IntersectionCoversDst(srcShape: seq<nat>, srcOffset: seq<int>, dstShape: seq<nat>, dstOffset: seq<int>)
    requires |srcShape| == |srcOffset| == |dstShape| == |dstOffset|
  {
    forall i :: 0 <= i < |srcShape| ==>
      srcOffset[i] <= dstOffset[i] && dstOffset[i] + dstShape[i] <= srcOffset[i] + srcShape[i]
  }

  /** The planner's box equals the destination shape exactly when the source
      tile contains the destination tile. */
  lemma CoverIffFullBox(srcShape: seq<nat>, srcOffset: seq<int>, dstShape: seq<nat>, dstOffset: seq<int>,
                        srcStart: seq<int>, dstStart: seq<int>, copyShape: seq<nat>)
    requires |srcShape| == |srcOffset| == |dstShape| == |dstOffset|
    requires CutsAre(srcShape, srcOffset, dstShape, dstOffset, srcStart, dstStart, copyShape)
    ensures copyShape == dstShape <==> IntersectionCoversDst(srcShape, srcOffset, dstShape, dstOffset)
  {
    if copyShape == dstShape {
      forall i | 0 <= i < |srcShape|
        ensures srcOffset[i] <= dstOffset[i] && dstOffset[i] + dstShape[i] <= srcOffset[i] + srcShape[i]
      {
        assert Overlap(srcOffset[i], srcShape[i], dstOffset[i], dstShape[i]).Some?;
      }
    }
    if IntersectionCoversDst(srcShape, srcOffset, dstShape, dstOffset) {
      forall i | 0 <= i < |srcShape|
        ensures copyShape[i] == dstShape[i]
      {
        assert Overlap(srcOffset[i], srcShape[i], dstOffset[i], dstShape[i]).Some?;
      }
    }
  }

  /** Element `idx` of a buffer holding a tile of shape `shape`. */
  function Elem<T>(s: seq<T>, shape: seq<nat>, idx: seq<int>): T
    requires InBox(shape, idx) && |s| == Product(shape)
  {
    IndexToLinearInBox(shape, idx);
    s[IndexToLinear(shape, idx)]
  }

  /** The source-tile index of destination-tile index `d`. */
  function Rebase(d: seq<int>, dstOffset: seq<int>, srcOffset: seq<int>): (g: seq<int>)
    requires |d| == |dstOffset| == |srcOffset|
    ensures |g| == |d|
  {
    seq(|d|, k requires 0 <= k < |d| => d[k] + dstOffset[k] - srcOffset[k])
  }

  /** What copying the intersection means: every destination element that
      also lies in the source tile takes the source's value, and every other
      destination element keeps its value. */
  ghost predicate CopiedIntersection<T>(srcShape: seq<nat>, srcOffset: seq<int>, src: seq<T>,
                                        dstShape: seq<nat>, dstOffset: seq<int>, dst: seq<T>, out: seq<T>)
    requires |srcShape| == |srcOffset| == |dstShape| == |dstOffset|
    requires |src| == Product(srcShape) && |dst| == Product(dstShape) && |out| == |dst|
  {
    forall d :: InBox(dstShape, d) ==>
      Elem(out, dstShape, d) ==
        if InBox(srcShape, Rebase(d, dstOffset, srcOffset)) then Elem(src, srcShape, Rebase(d, dstOffset, srcOffset))
        else Elem(dst, dstShape, d)
  }

  /** Running the runtime calls of `copy_intersection_work` on the data: the
      whole-buffer copy, nothing, or the CPU function of the submitted task
      on the arguments it carries. */
  method RunCopyIntersection<T>(srcShape: seq<nat>, srcOffset: seq<int>, src: seq<T>,
                                dstShape: seq<nat>, dstOffset: seq<int>, dst: seq<T>, scratch: seq<int>)
    returns (out: seq<T>)
    requires |srcShape| == |srcOffset| == |dstShape| == |dstOffset|
    requires NonEmpty(srcShape) && NonEmpty(dstShape)
    requires |src| == Product(srcShape) && |dst| == Product(dstShape) && |scratch| >= 2 * |srcShape|
    ensures |out| == |dst|
    ensures CopiedIntersection(srcShape, srcOffset, src, dstShape, dstOffset, dst, out)
  {
    var p := PlanCopy(srcShape, srcOffset, dstShape, dstOffset);
    match p
    case WholeCopy =>
      out := src;
      WholeCopyCorrect(srcShape, srcOffset, src, dstShape, dstOffset, dst);
    case NoIntersection =>
      out := dst;
      ApartUntouched(srcShape, srcOffset, src, dstShape, dstOffset, dst);
    case Smart(srcStart, dstStart, copyShape, mode) =>
      assert |srcShape| >= 1;
      var a := CopyArgs(|srcShape|, srcStart, Strides(srcShape), copyShape, dstStart, Strides(dstShape));
      SmartArgsValid(srcShape, srcOffset, dstShape, dstOffset, a);
      var scratch';
      out, scratch' := CopyStarpuCpu(PackArgs(a), src, dst, scratch);
      SmartCopyCorrect(srcShape, srcOffset, src, dstShape, dstOffset, dst, a);
  }

  lemma WholeCopyCorrect<T>(srcShape: seq<nat>, srcOffset: seq<int>, src: seq<T>,
                            dstShape: seq<nat>, dstOffset: seq<int>, dst: seq<T>)
    requires |srcShape| == |srcOffset| == |dstShape| == |dstOffset|
    requires |src| == Product(srcShape) && |dst| == Product(dstShape)
    requires Coincide(srcShape, srcOffset, dstShape, dstOffset)
    ensures CopiedIntersection(srcShape, srcOffset, src, dstShape, dstOffset, dst, src)
  {
    forall d | InBox(dstShape, d)
      ensures Elem(src, dstShape, d) == Elem(src, srcShape, Rebase(d, dstOffset, srcOffset))
    {
      assert Rebase(d, dstOffset, srcOffset) == d;
    }
  }

  lemma ApartUntouched<T>(srcShape: seq<nat>, srcOffset: seq<int>, src: seq<T>,
                          dstShape: seq<nat>, dstOffset: seq<int>, dst: seq<T>)
    requires |srcShape| == |srcOffset| == |dstShape| == |dstOffset|
    requires |src| == Product(srcShape) && |dst| == Product(dstShape)
    requires Apart(srcShape, srcOffset, dstShape, dstOffset)
    ensures CopiedIntersection(srcShape, srcOffset, src, dstShape, dstOffset, dst, dst)
  {
    var i :| 0 <= i < |srcShape| && Overlap(srcOffset[i], srcShape[i], dstOffset[i], dstShape[i]).None?;
    forall d | InBox(dstShape, d)
      ensures !InBox(srcShape, Rebase(d, dstOffset, srcOffset))
    {
      assert Rebase(d, dstOffset, srcOffset)[i] == d[i] + dstOffset[i] - srcOffset[i];
    }
  }

  /** The box of the planner, placed at either start, stays inside its tile. */
  lemma BoxInsideTiles(srcShape: seq<nat>, srcOffset: seq<int>, dstShape: seq<nat>, dstOffset: seq<int>,
                       a: CopyArgs, r: seq<int>)
    requires |srcShape| == |srcOffset| == |dstShape| == |dstOffset|
    requires CutsAre(srcShape, srcOffset, dstShape, dstOffset, a.srcStart, a.dstStart, a.copyShape)
    requires InBox(a.copyShape, r)
    ensures InBox(srcShape, Shift(a.srcStart, r)) && InBox(dstShape, Shift(a.dstStart, r))
    ensures Shift(a.srcStart, r) == Rebase(Shift(a.dstStart, r), dstOffset, srcOffset)
  {
    forall k | 0 <= k < |r|
      ensures 0 <= Shift(a.srcStart, r)[k] < srcShape[k] && 0 <= Shift(a.dstStart, r)[k] < dstShape[k]
      ensures Shift(a.srcStart, r)[k] == Rebase(Shift(a.dstStart, r), dstOffset, srcOffset)[k]
    {
      assert Overlap(srcOffset[k], srcShape[k], dstOffset[k], dstShape[k]) == Some(AxisCut(a.srcStart[k], a.dstStart[k], a.copyShape[k]));
    }
  }

  /** The arguments the planner sends satisfy everything the kernel assumes,
      and the destination layout is injective. */
  lemma SmartArgsValid(srcShape: seq<nat>, srcOffset: seq<int>, dstShape: seq<nat>, dstOffset: seq<int>, a: CopyArgs)
    requires |srcShape| == |srcOffset| == |dstShape| == |dstOffset| >= 1
    requires a == CopyArgs(|srcShape|, a.srcStart, Strides(srcShape), a.copyShape, a.dstStart, Strides(dstShape))
    requires CutsAre(srcShape, srcOffset, dstShape, dstOffset, a.srcStart, a.dstStart, a.copyShape)
    ensures WellFormed(a) && UnpackArgs(PackArgs(a)) == Some(a)
    ensures BoxInBounds(a, Product(srcShape), Product(dstShape)) && DstInjective(a)
  {
    forall k | 0 <= k < a.ndim
      ensures a.copyShape[k] >= 1
    {
      assert Overlap(srcOffset[k], srcShape[k], dstOffset[k], dstShape[k]).Some?;
    }
    assert srcShape[..0] == [] && dstShape[..0] == [];
    assert WellFormed(a);
    forall r | InBox(a.copyShape, r)
      ensures 0 <= SrcOffset(a, r) < Product(srcShape) && 0 <= DstOffset(a, r) < Product(dstShape)
    {
      BoxOffsetsAreTileOffsets(srcShape, srcOffset, dstShape, dstOffset, a, r);
      IndexToLinearInBox(srcShape, Shift(a.srcStart, r));
      IndexToLinearInBox(dstShape, Shift(a.dstStart, r));
    }
    forall r1, r2 | InBox(a.copyShape, r1) && InBox(a.copyShape, r2) && DstOffset(a, r1) == DstOffset(a, r2)
      ensures r1 == r2
    {
      BoxInjective(srcShape, srcOffset, dstShape, dstOffset, a, r1, r2);
    }
  }

  /** With contiguous strides the kernel's offsets are the tiles' linear indices. */
  lemma BoxOffsetsAreTileOffsets(srcShape: seq<nat>, srcOffset: seq<int>, dstShape: seq<nat>, dstOffset: seq<int>,
                                 a: CopyArgs, r: seq<int>)
    requires |srcShape| == |srcOffset| == |dstShape| == |dstOffset| >= 1
    requires a == CopyArgs(|srcShape|, a.srcStart, Strides(srcShape), a.copyShape, a.dstStart, Strides(dstShape))
    requires CutsAre(srcShape, srcOffset, dstShape, dstOffset, a.srcStart, a.dstStart, a.copyShape)
    requires WellFormed(a) && InBox(a.copyShape, r)
    ensures InBox(srcShape, Shift(a.srcStart, r)) && InBox(dstShape, Shift(a.dstStart, r))
    ensures SrcOffset(a, r) == IndexToLinear(srcShape, Shift(a.srcStart, r))
    ensures DstOffset(a, r) == IndexToLinear(dstShape, Shift(a.dstStart, r))
  {
    BoxInsideTiles(srcShape, srcOffset, dstShape, dstOffset, a, r);
    StridesOffset(srcShape, Shift(a.srcStart, r));
    StridesOffset(dstShape, Shift(a.dstStart, r));
  }

  lemma BoxInjective(srcShape: seq<nat>, srcOffset: seq<int>, dstShape: seq<nat>, dstOffset: seq<int>,
                     a: CopyArgs, r1: seq<int>, r2: seq<int>)
    requires |srcShape| == |srcOffset| == |dstShape| == |dstOffset| >= 1
    requires a == CopyArgs(|srcShape|, a.srcStart, Strides(srcShape), a.copyShape, a.dstStart, Strides(dstShape))
    requires CutsAre(srcShape, srcOffset, dstShape, dstOffset, a.srcStart, a.dstStart, a.copyShape)
    requires WellFormed(a) && InBox(a.copyShape, r1) && InBox(a.copyShape, r2)
    requires DstOffset(a, r1) == DstOffset(a, r2)
    ensures r1 == r2
  {
    BoxOffsetsAreTileOffsets(srcShape, srcOffset, dstShape, dstOffset, a, r1);
    BoxOffsetsAreTileOffsets(srcShape, srcOffset, dstShape, dstOffset, a, r2);
    IndexToLinearInjective(dstShape, Shift(a.dstStart, r1), Shift(a.dstStart, r2));
    forall k | 0 <= k < |r1|
      ensures r1[k] == r2[k]
    {
      assert Shift(a.dstStart, r1)[k] == Shift(a.dstStart, r2)[k];
    }
  }

  /** The odometer copy with the planner's arguments copies exactly the
      intersection. */
  lemma SmartCopyCorrect<T>(srcShape: seq<nat>, srcOffset: seq<int>, src: seq<T>,
                            dstShape: seq<nat>, dstOffset: seq<int>, dst: seq<T>, a: CopyArgs)
    requires |srcShape| == |srcOffset| == |dstShape| == |dstOffset| >= 1
    requires |src| == Product(srcShape) && |dst| == Product(dstShape)
    requires a == CopyArgs(|srcShape|, a.srcStart, Strides(srcShape), a.copyShape, a.dstStart, Strides(dstShape))
    requires CutsAre(srcShape, srcOffset, dstShape, dstOffset, a.srcStart, a.dstStart, a.copyShape)
    ensures WellFormed(a) && BoxInBounds(a, |src|, |dst|)
    ensures CopiedIntersection(srcShape, srcOffset, src, dstShape, dstOffset, dst, Apply(dst, src, BoxMoves(a)))
  {
    SmartArgsValid(srcShape, srcOffset, dstShape, dstOffset, a);
    UntouchedOutsideBox(a, src, dst);
    InjectiveBoxCopied(a, src, dst);
    forall d | InBox(dstShape, d)
      ensures Elem(Apply(dst, src, BoxMoves(a)), dstShape, d) ==
                if InBox(srcShape, Rebase(d, dstOffset, srcOffset)) then Elem(src, srcShape, Rebase(d, dstOffset, srcOffset))
                else Elem(dst, dstShape, d)
    {
      if InBox(srcShape, Rebase(d, dstOffset, srcOffset)) {
        SmartCopyInside(srcShape, srcOffset, src, dstShape, dstOffset, dst, a, d);
      } else {
        SmartCopyOutside(srcShape, srcOffset, src, dstShape, dstOffset, dst, a, d);
      }
    }
  }

  /** A destination element inside the source tile is the image of a box element. */
  lemma SmartCopyInside<T>(srcShape: seq<nat>, srcOffset: seq<int>, src: seq<T>,
                           dstShape: seq<nat>, dstOffset: seq<int>, dst: seq<T>, a: CopyArgs, d: seq<int>)
    requires |srcShape| == |srcOffset| == |dstShape| == |dstOffset| >= 1
    requires |src| == Product(srcShape) && |dst| == Product(dstShape)
    requires a == CopyArgs(|srcShape|, a.srcStart, Strides(srcShape), a.copyShape, a.dstStart, Strides(dstShape))
    requires CutsAre(srcShape, srcOffset, dstShape, dstOffset, a.srcStart, a.dstStart, a.copyShape)
    requires WellFormed(a) && BoxInBounds(a, |src|, |dst|) && DstInjective(a)
    requires InBox(dstShape, d) && InBox(srcShape, Rebase(d, dstOffset, srcOffset))
    ensures Elem(Apply(dst, src, BoxMoves(a)), dstShape, d) == Elem(src, srcShape, Rebase(d, dstOffset, srcOffset))
  {
    var r := BoxPreimage(srcShape, srcOffset, dstShape, dstOffset, a, d);
    BoxOffsetsAreTileOffsets(srcShape, srcOffset, dstShape, dstOffset, a, r);
    InjectiveBoxCopied(a, src, dst);
  }

  /** The box element that lands on destination index `d`, when `d` also lies
      in the source tile. */
  lemma BoxPreimage(srcShape: seq<nat>, srcOffset: seq<int>, dstShape: seq<nat>, dstOffset: seq<int>,
                    a: CopyArgs, d: seq<int>) returns (r: seq<int>)
    requires |srcShape| == |srcOffset| == |dstShape| == |dstOffset|
    requires CutsAre(srcShape, srcOffset, dstShape, dstOffset, a.srcStart, a.dstStart, a.copyShape)
    requires InBox(dstShape, d) && InBox(srcShape, Rebase(d, dstOffset, srcOffset))
    ensures InBox(a.copyShape, r) && Shift(a.dstStart, r) == d
    ensures Shift(a.srcStart, r) == Rebase(d, dstOffset, srcOffset)
  {
    r := seq(|d|, k requires 0 <= k < |d| => d[k] - a.dstStart[k]);
    forall k | 0 <= k < |d|
      ensures 0 <= r[k] < a.copyShape[k]
      ensures a.srcStart[k] + r[k] == Rebase(d, dstOffset, srcOffset)[k]
    {
      assert Rebase(d, dstOffset, srcOffset)[k] == d[k] + dstOffset[k] - srcOffset[k];
      assert Overlap(srcOffset[k], srcShape[k], dstOffset[k], dstShape[k]) == Some(AxisCut(a.srcStart[k], a.dstStart[k], a.copyShape[k]));
    }
  }

  /** A destination element outside the source tile is the image of no box element. */
  lemma SmartCopyOutside<T>(srcShape: seq<nat>, srcOffset: seq<int>, src: seq<T>,
                            dstShape: seq<nat>, dstOffset: seq<int>, dst: seq<T>, a: CopyArgs, d: seq<int>)
    requires |srcShape| == |srcOffset| == |dstShape| == |dstOffset| >= 1
    requires |src| == Product(srcShape) && |dst| == Product(dstShape)
    requires a == CopyArgs(|srcShape|, a.srcStart, Strides(srcShape), a.copyShape, a.dstStart, Strides(dstShape))
    requires CutsAre(srcShape, srcOffset, dstShape, dstOffset, a.srcStart, a.dstStart, a.copyShape)
    requires WellFormed(a) && BoxInBounds(a, |src|, |dst|)
    requires InBox(dstShape, d) && !InBox(srcShape, Rebase(d, dstOffset, srcOffset))
    ensures Elem(Apply(dst, src, BoxMoves(a)), dstShape, d) == Elem(dst, dstShape, d)
  {
    IndexToLinearInBox(dstShape, d);
    forall r | InBox(a.copyShape, r)
      ensures DstOffset(a, r) != IndexToLinear(dstShape, d)
    {
      BoxInsideTiles(srcShape, srcOffset, dstShape, dstOffset, a, r);
      BoxOffsetsAreTileOffsets(srcShape, srcOffset, dstShape, dstOffset, a, r);
      if DstOffset(a, r) == IndexToLinear(dstShape, d) {
        IndexToLinearInjective(dstShape, Shift(a.dstStart, r), d);
      }
    }
    UntouchedOutsideBox(a, src, dst);
  }
}
