/** Submission of the embedding-backward task, which accumulates the rows of
    `embed` selected by `index` into the slice `[k_start, k_start + k_size)`
    of `vocab`. The mode of `vocab` depends on `redux`, the five sizes travel
    by value, and the performance-model footprint hashes only the four sizes
    that decide the cost of the task. */
module EmbeddingBackward {
  import opened Outcome
  import opened Runtime

  /** The element types `submit` is instantiated for. */
  predicate Instantiated(t: DType)
  {
    t == Fp32 || t == Fp64
  }

  /** Both codelets, as `restrict_where` and `restore_where` touch them. */
  const Codelets: set<string> := {"nntile_embedding_backward_fp32", "nntile_embedding_backward_fp64"}

  function CodeletName(t: DType): (name: string)
    requires Instantiated(t)
    ensures name in Codelets
  {
    if t == Fp32 then "nntile_embedding_backward_fp32" else "nntile_embedding_backward_fp64"
  }

  /** The argument record `args_t`. */
  datatype Args = Args(m: int, n: int, k: int, kStart: int, kSize: int)

  /** Packing of the record, field by field. */
  function Pack(a: Args): (args: seq<Arg>)
    ensures Unpack(args) == Some(a)
  {
    [IntArg(a.m), IntArg(a.n), IntArg(a.k), IntArg(a.kStart), IntArg(a.kSize)]
  }

  /** What the CPU function and the footprint read from the record; `None`
      when the packed list does not have the record's layout. */
  function Unpack(args: seq<Arg>): Option<Args>
  {
    if |args| == 5 && args[0].IntArg? && args[1].IntArg? && args[2].IntArg? && args[3].IntArg? && args[4].IntArg?
    then Some(Args(args[0].i, args[1].i, args[2].i, args[3].i, args[4].i))
    else None
  }

  /** The mode of `vocab`: a reduction when the caller asks for one,
      otherwise a commutative read-write; either way the previous contents
      are kept and added to. */
  function VocabMode(redux: int): (m: AccessMode)
    ensures ReadsPrior(m) && Writes(m)
    ensures m == Redux <==> redux != 0
    ensures m == RWCommute <==> redux == 0
  {
    if redux != 0 then Redux else RWCommute
  }

  /** `submit<T>`: `index` and `embed` read-only as buffers 0 and 1, `vocab`
      as buffer 2 in the mode chosen from `redux`, the record by value, and
      `m*n*k_size` flops; a non-zero return code becomes a runtime error. */
  function Submit(t: DType, a: Args, index: Handle, embed: Handle, vocab: Handle, redux: int, ret: int): (r: Result<Task>)
    requires Instantiated(t)
    ensures r.Ok? <==> ret == 0
    ensures r.Err? ==> r.error == RuntimeError("Error in embedding_backward task submission")
    ensures r.Ok? ==>
      && r.value.codelet == CodeletName(t)
      && |r.value.buffers| == 3
      && r.value.buffers[0] == Binding(index, R)
      && r.value.buffers[1] == Binding(embed, R)
      && r.value.buffers[2] == Binding(vocab, VocabMode(redux))
      && (r.value.buffers[2].mode == Redux <==> redux != 0)
      && (r.value.buffers[2].mode == RWCommute <==> redux == 0)
      && Unpack(r.value.args) == Some(a)
      && r.value.flops == Some((a.m * a.n * a.kSize) as real)
  {
    Insert(Task(CodeletName(t), [Binding(index, R), Binding(embed, R), Binding(vocab, VocabMode(redux))],
                Pack(a), Some((a.m * a.n * a.kSize) as real)),
           ret, "Error in embedding_backward task submission")
  }

  /** One step of the CRC32C hash: previous hash and next field. */
  type HashStep = (nat, int) -> nat

  /** Folding the hash over a list of fields, from the left. */
  function Chain(step: HashStep, h: nat, fields: seq<int>): nat
    decreases |fields|
  {
    if |fields| == 0 then h else Chain(step, step(h, fields[0]), fields[1..])
  }

  /** The fields the footprint hashes, in order. */
  function Hashed(a: Args): (fields: seq<int>)
    ensures |fields| == 4 && fields[3] == a.kSize
  {
    [a.m, a.n, a.k, a.kSize]
  }

  /** The footprint of a task: the hash chain from zero over `m`, `n`, `k`
      and `k_size`, read from the task's packed record. */
  function Footprint(step: HashStep, t: Task): (h: Option<nat>)
    ensures Unpack(t.args).Some? ==> h == Some(Chain(step, 0, Hashed(Unpack(t.args).value)))
    ensures Unpack(t.args).None? ==> h == None
  {
    match Unpack(t.args)
    case None => None
    case Some(a) =>
      ChainOfFour(step, 0, a.m, a.n, a.k, a.kSize);
      Some(step(step(step(step(0, a.m), a.n), a.k), a.kSize))
  }

  /** The fold over four fields is four nested steps. */
  lemma ChainOfFour(step: HashStep, h: nat, w: int, x: int, y: int, z: int)
    ensures Chain(step, h, [w, x, y, z]) == step(step(step(step(h, w), x), y), z)
  {
    assert [w, x, y, z][1..] == [x, y, z];
    assert [x, y, z][1..] == [y, z];
    assert [y, z][1..] == [z];
    assert [z][1..] == [];
    var h1 := step(h, w);
    var h2 := step(h1, x);
    var h3 := step(h2, y);
    assert Chain(step, h3, [z]) == Chain(step, step(h3, z), []);
    assert Chain(step, h2, [y, z]) == Chain(step, h3, [z]);
    assert Chain(step, h1, [x, y, z]) == Chain(step, h2, [y, z]);
  }

  /** Two submissions that differ only in `k_start`, the codelet instance and
      the handles share one footprint: `k_start` does not change the cost. */
  lemma FootprintIgnoresKStart(step: HashStep, t: DType, u: DType, a: Args, kStart: int,
                               index: Handle, embed: Handle, vocab: Handle, redux: int,
                               index': Handle, embed': Handle, vocab': Handle, redux': int)
    requires Instantiated(t) && Instantiated(u)
    ensures Footprint(step, Submit(t, a, index, embed, vocab, redux, 0).value)
         == Footprint(step, Submit(u, a.(kStart := kStart), index', embed', vocab', redux', 0).value)
  {
  }
}
