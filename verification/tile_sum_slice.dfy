/** Tile-level slice sum (`sum_slice_async` on tiles): `dst` receives the sums
    of `src` over axis `axis`, so the shape of `dst` must be that of `src`
    with the axis removed. The checks run in order and the single task is
    submitted only after all of them pass. */
module TileSumSlice {
  import opened Outcome
  import opened Runtime
  import opened Shapes
  import opened Tiles

  /** The two-pointer walk: `i` runs over the source axes, skipping `axis`,
      and `j` over the destination axes; the first mismatch stops it. */
  method ShapesMatch(srcShape: seq<nat>, dstShape: seq<nat>, axis: nat) returns (ok: bool)
    requires |srcShape| == |dstShape| + 1 && axis < |srcShape|
    ensures ok <==> RemoveAxis(srcShape, axis) == dstShape
  {
    var i := 0;
    var j := 0;
    while i < |srcShape|
      invariant 0 <= i <= |srcShape|
      invariant j == if i <= axis then i else i - 1
      invariant RemoveAxis(srcShape, axis)[..j] == dstShape[..j]
    {
      if i == axis {
        i := i + 1;
        continue;
      }
      if srcShape[i] != dstShape[j] {
        assert RemoveAxis(srcShape, axis)[j] != dstShape[j];
        return false;
      }
      assert RemoveAxis(srcShape, axis)[..j + 1] == RemoveAxis(srcShape, axis)[..j] + [srcShape[i]];
      assert dstShape[..j + 1] == dstShape[..j] + [dstShape[j]];
      j := j + 1;
      i := i + 1;
    }
    assert RemoveAxis(srcShape, axis)[..j] == RemoveAxis(srcShape, axis);
    assert dstShape[..j] == dstShape;
    return true;
  }

  /** What the checks of `sum_slice_async` demand of its arguments. */
  predicate Admissible(srcShape: seq<nat>, dstShape: seq<nat>, axis: int)
  {
    |srcShape| == |dstShape| + 1 && 0 <= axis < |srcShape| && RemoveAxis(srcShape, axis) == dstShape
  }

  /** What `sum_slice_async` may return: the checks in source order, each
      with its message, and on success one task with the `(m, n, k)` view of
      `src` around `axis` (`m = stride[axis]`, `n` the extent of the axes after
      it, `k = shape[axis]`). The check that rejects a scalar source can never
      fire, because a scalar source already fails the first check. */
  predicate AsyncOutcome(alpha: real, src: Tile, beta: real, dst: Tile, axis: int, r: Result<seq<Action>>)
  {
    && (r.Ok? <==> Admissible(src.shape, dst.shape, axis))
    && (|src.shape| - 1 != |dst.shape| ==> r == Err(RuntimeError("src.ndim -1 != dst.ndim")))
    && (|src.shape| - 1 == |dst.shape| && axis < 0 ==> r == Err(RuntimeError("axis < 0")))
    && (|src.shape| - 1 == |dst.shape| && axis >= |src.shape| ==> r == Err(RuntimeError("axis >= ndim")))
    && (|src.shape| - 1 == |dst.shape| && 0 <= axis < |src.shape| && RemoveAxis(src.shape, axis) != dst.shape
        ==> r == Err(RuntimeError("src.shape[i] != dst.shape[j]")))
    && r != Err(RuntimeError("Scalar input makes no sense"))
    && (r.Ok? ==>
        && |r.value| == 1 && r.value[0].Call? && r.value[0].routine == "sum_slice"
        && r.value[0].handles == [src.handle, dst.handle]
        && |r.value[0].args| == 5
        && r.value[0].args[0] == IntArg(Strides(src.shape)[axis])
        && r.value[0].args[1] == IntArg(Product(src.shape[axis + 1..]))
        && r.value[0].args[2] == IntArg(src.shape[axis])
        && r.value[0].args[3] == ScalarArg(alpha) && r.value[0].args[4] == ScalarArg(beta)
        && r.value[0].args[0].i * r.value[0].args[2].i * r.value[0].args[1].i == Product(src.shape)
        && r.value[0].args[0].i * r.value[0].args[1].i == Product(dst.shape))
  }

  /** `sum_slice_async`. */
  method SumSliceAsync(alpha: real, src: Tile, beta: real, dst: Tile, axis: int) returns (r: Result<seq<Action>>)
    ensures AsyncOutcome(alpha, src, beta, dst, axis, r)
  {
    if |src.shape| - 1 != |dst.shape| {
      return Err(RuntimeError("src.ndim -1 != dst.ndim"));
    }
    var ndim := |src.shape|;
    if ndim == 0 {
      return Err(RuntimeError("Scalar input makes no sense"));
    }
    if axis < 0 {
      return Err(RuntimeError("axis < 0"));
    }
    if axis >= ndim {
      return Err(RuntimeError("axis >= ndim"));
    }
    var ok := ShapesMatch(src.shape, dst.shape, axis);
    if !ok {
      return Err(RuntimeError("src.shape[i] != dst.shape[j]"));
    }
    var d := AroundAxis(src.shape, axis);
    ProductConcat(src.shape[..axis], src.shape[axis + 1..]);
    r := Ok([Call("sum_slice", [src.handle, dst.handle],
                  [IntArg(d.m), IntArg(d.n), IntArg(d.k), ScalarArg(alpha), ScalarArg(beta)])]);
  }

  /** `sum_slice`: the asynchronous call, then a drain of the task queue; a
      failed call returns its error and drains nothing. */
  method SumSlice(alpha: real, src: Tile, beta: real, dst: Tile, axis: int) returns (r: Result<seq<Action>>)
    ensures r.Ok? <==> Admissible(src.shape, dst.shape, axis)
    ensures r.Err? ==> AsyncOutcome(alpha, src, beta, dst, axis, r)
    ensures r.Ok? ==>
      && |r.value| == 2 && r.value[1] == WaitAll
      && AsyncOutcome(alpha, src, beta, dst, axis, Ok(r.value[..1]))
  {
    var log :- SumSliceAsync(alpha, src, beta, dst, axis);
    r := Ok(log + [WaitAll]);
    assert r.value[..1] == log;
  }
}
