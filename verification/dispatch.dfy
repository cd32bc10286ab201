/** Element-type dispatch of the codelet families that have a codelet per
    floating type (`codelet<T>()` in the StarPU headers): each of fp32, bf16,
    fp32 with TF32 tensor cores and fp64 selects its own codelet, and any
    other type throws. The in-place fiber norm and the forward ReLU families
    share this dispatch unchanged. */
module TypeDispatch {
  import opened Outcome
  import opened Runtime

  /** The four codelet objects a family declares. */
  datatype Slot = CodeletFp32 | CodeletBf16 | CodeletFp32FastTf32 | CodeletFp64

  /** The element type each codelet object serves. */
  function Serves(s: Slot): DType
  {
    match s
    case CodeletFp32 => Fp32
    case CodeletBf16 => Bf16
    case CodeletFp32FastTf32 => Fp32FastTf32
    case CodeletFp64 => Fp64
  }

  /** The element types with a codelet of their own. */
  predicate Supported(t: DType)
  {
    t == Fp32 || t == Bf16 || t == Fp32FastTf32 || t == Fp64
  }

  /** `codelet<T>()`: the codelet object serving `t`; an unsupported type
      raises "Non-supported type". */
  function Dispatch(t: DType): (r: Result<Slot>)
    ensures r.Ok? <==> Supported(t)
    ensures r.Ok? ==> Serves(r.value) == t
    ensures r.Err? ==> r.error == RuntimeError("Non-supported type")
  {
    match t
    case Fp32 => Ok(CodeletFp32)
    case Bf16 => Ok(CodeletBf16)
    case Fp32FastTf32 => Ok(CodeletFp32FastTf32)
    case Fp64 => Ok(CodeletFp64)
    case _ => Err(RuntimeError("Non-supported type"))
  }

  /** Every codelet object is reached, from exactly the type it serves. */
  lemma DispatchOnto(s: Slot)
    ensures Supported(Serves(s)) && Dispatch(Serves(s)) == Ok(s)
  {
  }
}

/** The in-place fiber norm codelet family: the argument record and the
    defaulted `redux` of `submit` (its `codelet<T>()` is `TypeDispatch.Dispatch`). */
module NormFiberInplace {
  import opened Outcome
  import opened Runtime

  /** The argument record `args_t`. */
  datatype Args = Args(m: int, n: int, k: int, batch: int, alpha: real, beta: real)

  /** Packing of the record, field by field. */
  function Pack(a: Args): (args: seq<Arg>)
    ensures Unpack(args) == Some(a)
  {
    [IntArg(a.m), IntArg(a.n), IntArg(a.k), IntArg(a.batch), ScalarArg(a.alpha), ScalarArg(a.beta)]
  }

  /** Reading the record back; `None` when the packed list does not have
      the record's layout. */
  function Unpack(args: seq<Arg>): Option<Args>
  {
    if |args| == 6 && args[0].IntArg? && args[1].IntArg? && args[2].IntArg? && args[3].IntArg?
       && args[4].ScalarArg? && args[5].ScalarArg?
    then Some(Args(args[0].i, args[1].i, args[2].i, args[3].i, args[4].x, args[5].x))
    else None
  }

  /** A call of `submit<T>`: its record, its handles and its `redux` flag,
      which is zero unless the caller passes one. */
  function Submit(m: int, n: int, k: int, batch: int, alpha: real, src: Handle, beta: real, dst: Handle,
                  redux: int := 0): (c: Action)
    ensures c.Call? && c.handles == [src, dst] && |c.args| == 7
    ensures Unpack(c.args[..6]) == Some(Args(m, n, k, batch, alpha, beta))
    ensures c.args[6] == IntArg(redux)
  {
    Call("norm_fiber_inplace", [src, dst], Pack(Args(m, n, k, batch, alpha, beta)) + [IntArg(redux)])
  }

  /** Leaving `redux` out is the same as passing zero. */
  lemma ReduxDefaultsToZero(m: int, n: int, k: int, batch: int, alpha: real, src: Handle, beta: real, dst: Handle)
    ensures Submit(m, n, k, batch, alpha, src, beta, dst).args[6] == IntArg(0)
    ensures Submit(m, n, k, batch, alpha, src, beta, dst) == Submit(m, n, k, batch, alpha, src, beta, dst, 0)
  {
  }
}
