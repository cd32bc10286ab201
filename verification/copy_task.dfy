/** How the odometer copy travels through the task runtime: its scalar
    arguments are packed by value into the task, in a fixed order, and the
    CPU function of the codelet unpacks them in the same order and runs the
    kernel on its three buffers (source, destination, scratch). */
module CopyTask {
  import opened Outcome
  import opened Runtime
  import opened Shapes
  import opened Subcopy

  /** The arguments in the order they are packed: `ndim`, then the source
      start, source strides, copy shape, destination start and destination
      strides, each as a vector of `ndim` indices. */
  function PackArgs(a: CopyArgs): (args: seq<Arg>)
    ensures |args| == 6 && args[0] == IntArg(a.ndim)
    ensures UnpackArgs(args) == Some(a)
  {
    [IntArg(a.ndim), IntsArg(a.srcStart), IntsArg(a.srcStride), IntsArg(a.copyShape),
     IntsArg(a.dstStart), IntsArg(a.dstStride)]
  }

  /** Reading the arguments back, in packing order. `None` when the packed
      list does not have the packed layout (the C++ code would read garbage). */
  function UnpackArgs(args: seq<Arg>): Option<CopyArgs>
  {
    if && |args| == 6 && args[0].IntArg?
       && args[1].IntsArg? && args[2].IntsArg? && args[3].IntsArg? && args[4].IntsArg? && args[5].IntsArg?
       && (forall k :: 0 <= k < |args[3].v| ==> args[3].v[k] >= 0)
    then
      var extents: seq<nat> := args[3].v;
      Some(CopyArgs(args[0].i, args[1].v, args[2].v, extents, args[4].v, args[5].v))
    else None
  }

  /** Unpacking loses nothing: whatever unpacks packs back to the same list. */
  lemma UnpackThenPack(args: seq<Arg>)
    requires UnpackArgs(args).Some?
    ensures PackArgs(UnpackArgs(args).value) == args
  {
    var a := UnpackArgs(args).value;
    assert args[0] == IntArg(a.ndim);
    assert args[3] == IntsArg(a.copyShape);
  }

  /** The CPU function of the copy codelets (`copy_starpu_cpu`, and the CPU
      function of the tile intersection copy): unpack the arguments, then run
      the kernel with buffer 0 as source, buffer 1 as destination and the first
      `2*ndim` entries of buffer 2 as scratch indices. */
  method CopyStarpuCpu<T>(args: seq<Arg>, src: seq<T>, dst: seq<T>, scratch: seq<int>)
    returns (dst': seq<T>, scratch': seq<int>)
    requires UnpackArgs(args).Some? && WellFormed(UnpackArgs(args).value)
    requires BoxInBounds(UnpackArgs(args).value, |src|, |dst|)
    requires |scratch| >= 2 * UnpackArgs(args).value.ndim
    ensures MovesFit(BoxMoves(UnpackArgs(args).value), |src|, |dst|)
    ensures dst' == Apply(dst, src, BoxMoves(UnpackArgs(args).value))
    ensures |scratch'| == |scratch|
    ensures scratch'[2 * UnpackArgs(args).value.ndim..] == scratch[2 * UnpackArgs(args).value.ndim..]
  {
    var a := UnpackArgs(args).value;
    var tmpIndex;
    dst', tmpIndex := OdometerCopy(a, src, dst);
    scratch' := tmpIndex + scratch[2 * a.ndim..];
  }

  /** The CPU function of the zero-dimensional copy codelet: the single
      element of buffer 0 is written into buffer 1. */
  function CopyNdim0<T>(src: seq<T>, dst: seq<T>): (dst': seq<T>)
    requires |src| >= 1 && |dst| >= 1
    ensures MovesFit([Move(0, 0)], |src|, |dst|) && dst' == Apply(dst, src, [Move(0, 0)])
  {
    dst[0 := src[0]]
  }
}
