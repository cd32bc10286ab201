/** Submission of the element-wise hypot task, which overwrites `dst` with
    `hypot(alpha*src, beta*dst)`. The access mode declared on `dst` is chosen
    from `beta`, and `nelems`, `alpha` and `beta` travel by value in an
    argument record that the CPU function reads back. */
module Hypot {
  import opened Outcome
  import opened Runtime

  /** The element types `submit` is instantiated for. */
  predicate Instantiated(t: DType)
  {
    t == Fp32 || t == Fp64
  }

  /** Both codelets, as `restrict_where` and `restore_where` touch them. */
  const Codelets: set<string> := {"nntile_hypot_fp32", "nntile_hypot_fp64"}

  /** The codelet registered for instantiation `t`: modes travel with each
      task, one CPU variant, and a CUDA variant only in a CUDA build. */
  function CodeletOf(t: DType, withCuda: bool): (cl: Codelet)
    requires Instantiated(t)
    ensures cl.name in Codelets && cl.modes == []
    ensures |cl.cpu| == 1 && |cl.cuda| == (if withCuda then 1 else 0)
  {
    if t == Fp32 then
      Codelet("nntile_hypot_fp32", [], ["cpu<fp32_t>"], if withCuda then ["cuda<fp32_t>"] else [])
    else
      Codelet("nntile_hypot_fp64", [], ["cpu<fp64_t>"], if withCuda then ["cuda<fp64_t>"] else [])
  }

  /** The two instantiations are distinct codelets, and they are the only ones. */
  lemma CodeletsDistinct(withCuda: bool)
    ensures CodeletOf(Fp32, withCuda).name != CodeletOf(Fp64, withCuda).name
    ensures Codelets == {CodeletOf(Fp32, withCuda).name, CodeletOf(Fp64, withCuda).name}
  {
  }

  /** The mode of `dst`: the previous contents are read exactly when `beta`
      is non-zero, and the update is declared commutative exactly when
      `beta` is one. */
  function DstMode(beta: real): (m: AccessMode)
    ensures Writes(m)
    ensures ReadsPrior(m) <==> beta != 0.0
    ensures m == RWCommute <==> beta == 1.0
    ensures m == W <==> beta == 0.0
    ensures m == RW <==> beta != 0.0 && beta != 1.0
  {
    if beta == 1.0 then RWCommute
    else if beta == 0.0 then W
    else RW
  }

  /** The kernel on one element, on squared magnitudes:
      `hypot(a, b)^2 == a^2 + b^2`. */
  function SquaredUpdate(alpha: real, s: real, beta: real, d2: real): real
  {
    alpha * alpha * s * s + beta * beta * d2
  }

  /** With `beta == 1` two updates of the same `dst` give the same result in
      either order, so declaring them commutative is sound. */
  lemma CommuteWhenBetaOne(a1: real, s1: real, a2: real, s2: real, d2: real)
    ensures SquaredUpdate(a1, s1, 1.0, SquaredUpdate(a2, s2, 1.0, d2))
         == SquaredUpdate(a2, s2, 1.0, SquaredUpdate(a1, s1, 1.0, d2))
  {
  }

  /** With `beta == 0` the result ignores the previous `dst`, so declaring a
      write-only access is sound. */
  lemma WriteOnlyWhenBetaZero(alpha: real, s: real, d2: real, e2: real)
    ensures SquaredUpdate(alpha, s, 0.0, d2) == SquaredUpdate(alpha, s, 0.0, e2)
  {
  }

  /** The argument record `args_t`. */
  datatype Args = Args(nelems: int, alpha: real, beta: real)

  /** Packing of the record, field by field. */
  function Pack(a: Args): (args: seq<Arg>)
    ensures Unpack(args) == Some(a)
  {
    [IntArg(a.nelems), ScalarArg(a.alpha), ScalarArg(a.beta)]
  }

  /** What the CPU function reads from the record; `None` when the packed
      list does not have the record's layout. */
  function Unpack(args: seq<Arg>): Option<Args>
  {
    if |args| == 3 && args[0].IntArg? && args[1].ScalarArg? && args[2].ScalarArg?
    then Some(Args(args[0].i, args[1].x, args[2].x))
    else None
  }

  /** `submit<T>`: `src` read-only as buffer 0, `dst` as buffer 1 in the mode
      chosen from `beta`, the record by value, no flop count; a non-zero
      return code of the insertion becomes a runtime error. */
  function Submit(t: DType, nelems: int, alpha: real, src: Handle, beta: real, dst: Handle, ret: int): (r: Result<Task>)
    requires Instantiated(t)
    ensures r.Ok? <==> ret == 0
    ensures r.Err? ==> r.error == RuntimeError("Error in hypot task submission")
    ensures r.Ok? ==>
      && r.value.codelet == CodeletOf(t, false).name
      && |r.value.buffers| == 2
      && r.value.buffers[0] == Binding(src, R)
      && r.value.buffers[1] == Binding(dst, DstMode(beta))
      && (ReadsPrior(r.value.buffers[1].mode) <==> beta != 0.0)
      && (r.value.buffers[1].mode == RWCommute <==> beta == 1.0)
      && (r.value.buffers[1].mode == W <==> beta == 0.0)
      && Unpack(r.value.args) == Some(Args(nelems, alpha, beta))
      && r.value.flops == None
  {
    Insert(Task(CodeletOf(t, false).name, [Binding(src, R), Binding(dst, DstMode(beta))],
                Pack(Args(nelems, alpha, beta)), None),
           ret, "Error in hypot task submission")
  }
}
