/** The accumulate codelet: `dst := src + dst` element by element. Its
    codelets fix the buffer modes (buffer 0 read-write, buffer 1 read-only),
    so `submit(src, dst)` must bind `dst` first even though it takes `src`
    first. The CPU function derives the element count from the byte size of
    buffer 0. */
module Accumulate {
  import opened Outcome
  import opened Runtime

  /** The element types `submit` is instantiated for. */
  predicate Instantiated(t: DType)
  {
    t == Fp32 || t == Fp64
  }

  /** Both codelets, as `restrict_where` and `restore_where` touch them. */
  const Codelets: set<string> := {"nntile_accumulate_fp32", "nntile_accumulate_fp64"}

  /** The codelet registered for instantiation `t`: two buffers, the first
      read-write and the second read-only; a CUDA variant only in a CUDA build. */
  function CodeletOf(t: DType, withCuda: bool): (cl: Codelet)
    requires Instantiated(t)
    ensures cl.name in Codelets
    ensures |cl.modes| == 2 && cl.modes[0] == RW && cl.modes[1] == R
    ensures |cl.cpu| == 1 && |cl.cuda| == (if withCuda then 1 else 0)
  {
    if t == Fp32 then
      Codelet("nntile_accumulate_fp32", [RW, R], ["cpu<fp32_t>"], if withCuda then ["cuda<fp32_t>"] else [])
    else
      Codelet("nntile_accumulate_fp64", [RW, R], ["cpu<fp64_t>"], if withCuda then ["cuda<fp64_t>"] else [])
  }

  /** `submit<T>(src, dst)`: the task agrees with the codelet's mode table,
      with `dst` as buffer 0 and `src` as buffer 1; no arguments and no flop
      count; a non-zero return code becomes a runtime error. */
  function Submit(t: DType, src: Handle, dst: Handle, ret: int): (r: Result<Task>)
    requires Instantiated(t)
    ensures r.Ok? <==> ret == 0
    ensures r.Err? ==> r.error == RuntimeError("Error in accumulate task submission")
    ensures r.Ok? ==>
      && (forall withCuda :: ModesMatch(CodeletOf(t, withCuda), r.value))
      && r.value.buffers[0].handle == dst && r.value.buffers[1].handle == src
      && r.value.args == [] && r.value.flops == None
  {
    Insert(Task(CodeletOf(t, false).name, [Binding(dst, RW), Binding(src, R)], [], None),
           ret, "Error in accumulate task submission")
  }

  /** The number of whole elements of `size` bytes in `bytes` bytes. */
  function ElemCount(bytes: nat, size: nat): (n: nat)
    requires size > 0
    ensures n * size <= bytes < (n + 1) * size
  {
    bytes / size
  }

  /** Reference result: the first `n` elements of `dst` with those of `src`
      added, the rest of `dst` as it was. */
  function AddInto(src: seq<real>, dst: seq<real>, n: nat): (r: seq<real>)
    requires n <= |src| && n <= |dst|
  {
    seq(|dst|, i requires 0 <= i < |dst| => if i < n then src[i] + dst[i] else dst[i])
  }

  /** The CPU function: `nelems` from the byte size of buffer 0, then the
      add kernel with both coefficients one. */
  method Cpu(dstBytes: nat, size: nat, dst: seq<real>, src: seq<real>) returns (dst': seq<real>)
    requires size > 0
    requires ElemCount(dstBytes, size) <= |dst| && ElemCount(dstBytes, size) <= |src|
    ensures dst' == AddInto(src, dst, ElemCount(dstBytes, size))
  {
    var nelems := ElemCount(dstBytes, size);
    dst' := dst;
    var i := 0;
    while i < nelems
      invariant 0 <= i <= nelems
      invariant |dst'| == |dst|
      invariant forall p :: 0 <= p < i ==> dst'[p] == src[p] + dst[p]
      invariant forall p :: i <= p < |dst| ==> dst'[p] == dst[p]
    {
      dst' := dst'[i := src[i] + dst'[i]];
      i := i + 1;
    }
  }

  /** Accumulations into the same buffer can be applied in either order. */
  lemma AccumulationsCommute(a: seq<real>, b: seq<real>, dst: seq<real>, n: nat)
    requires n <= |a| && n <= |b| && n <= |dst|
    ensures AddInto(a, AddInto(b, dst, n), n) == AddInto(b, AddInto(a, dst, n), n)
  {
  }
}
