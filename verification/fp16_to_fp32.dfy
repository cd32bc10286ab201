/** Conversion of a half-precision tile into a single-precision one. The
    StarPU layer packs the element count by value and binds the source
    read-only and the destination write-only; its codelet has CPU and CUDA
    variants only in a CUDA build. The tile layer checks the shapes first. */
module Fp16ToFp32 {
  import opened Outcome
  import opened Runtime
  import opened Shapes
  import opened Tiles

  const CodeletName: string := "nntile_fp16_to_fp32"

  /** The codelet as `init` registers it: modes travel with each task, and
      both backend lists are empty unless built with CUDA. */
  function CodeletOf(withCuda: bool): (cl: Codelet)
    ensures cl.name == CodeletName && cl.modes == []
    ensures withCuda ==> |cl.cpu| == 1 && |cl.cuda| == 1
    ensures !withCuda ==> cl.cpu == [] && cl.cuda == []
  {
    if withCuda then Codelet(CodeletName, [], ["cpu"], ["cuda"])
    else Codelet(CodeletName, [], [], [])
  }

  /** What the CPU function reads from the packed arguments: the element
      count, first and only. */
  function UnpackCount(args: seq<Arg>): Option<int>
  {
    if |args| == 1 && args[0].IntArg? then Some(args[0].i) else None
  }

  /** `starpu::fp16_to_fp32::submit`: `src` read-only as buffer 0, `dst`
      write-only as buffer 1, the element count by value; a non-zero return
      code becomes a runtime error. */
  function Submit(nelems: int, src: Handle, dst: Handle, ret: int): (r: Result<Task>)
    ensures r.Ok? <==> ret == 0
    ensures r.Err? ==> r.error == RuntimeError("Error in fp16_to_fp32 task submission")
    ensures r.Ok? ==>
      && r.value.codelet == CodeletName
      && |r.value.buffers| == 2
      && r.value.buffers == [Binding(src, R), Binding(dst, W)]
      && !Writes(r.value.buffers[0].mode) && !ReadsPrior(r.value.buffers[1].mode)
      && UnpackCount(r.value.args) == Some(nelems)
      && r.value.flops == None
  {
    Insert(Task(CodeletName, [Binding(src, R), Binding(dst, W)], [IntArg(nelems)], None),
           ret, "Error in fp16_to_fp32 task submission")
  }

  /** `tile::fp16_to_fp32_async`: a shape mismatch fails before anything is
      submitted; otherwise one task over all elements of the tile. */
  function ConvertAsync(src: Tile, dst: Tile, ret: int): (r: Result<seq<Action>>)
    ensures src.shape != dst.shape ==> r == Err(RuntimeError("src.shape != dst.shape"))
    ensures src.shape == dst.shape && ret != 0 ==> r == Err(RuntimeError("Error in fp16_to_fp32 task submission"))
    ensures r.Ok? <==> src.shape == dst.shape && ret == 0
    ensures r.Ok? ==>
      && |r.value| == 1 && r.value[0].Submit? && |r.value[0].task.buffers| == 2
      && r.value[0].task.buffers[0].handle == src.handle
      && r.value[0].task.buffers[1].handle == dst.handle
      && UnpackCount(r.value[0].task.args) == Some(Product(dst.shape))
  {
    if src.shape != dst.shape then Err(RuntimeError("src.shape != dst.shape"))
    else
      var task :- Submit(Product(src.shape), src.handle, dst.handle, ret);
      Ok([Action.Submit(task)])
  }

  /** `tile::fp16_to_fp32`: the asynchronous call, then a drain of the task
      queue; a failed call drains nothing. */
  function Convert(src: Tile, dst: Tile, ret: int): (r: Result<seq<Action>>)
    ensures r.Ok? <==> src.shape == dst.shape && ret == 0
    ensures r.Err? ==> r == ConvertAsync(src, dst, ret)
    ensures r.Ok? ==> r.value == ConvertAsync(src, dst, ret).value + [WaitAll]
  {
    var log :- ConvertAsync(src, dst, ret);
    Ok(log + [WaitAll])
  }
}
