/** The task-runtime vocabulary the core speaks: access modes, element type
    tags, data handles, codelets, submitted tasks and the log of runtime
    actions an operation issues.

    The runtime itself (dependency inference, scheduling, MPI transfers) is
    not modelled: every call into it is recorded as an `Action`, in order. */
module Runtime {
  import opened Outcome

  /** Declared read/write intent of a task on one buffer. */
  datatype AccessMode = R | W | RW | RWCommute | Redux | Scratch

  /** The task needs the buffer's previous contents. */
  predicate ReadsPrior(m: AccessMode)
  {
    m == R || m == RW || m == RWCommute || m == Redux
  }

  /** The task leaves new contents in the buffer. */
  predicate Writes(m: AccessMode)
  {
    m == W || m == RW || m == RWCommute || m == Redux
  }

  /** Element type tags that select a codelet instantiation. */
  datatype DType = Fp32 | Fp64 | Fp32FastTf32 | Fp32FastFp16 | Bf16 | Fp16 | Int64 | Bool

  /** How a tile of a tensor is looked up: by its number or by its multi-index. */
  datatype TileKey = Linear(i: int) | Multi(idx: seq<int>)

  /** A data handle: a tile of a named tensor, or a standalone buffer. */
  datatype Handle = TileHandle(tensor: string, key: TileKey) | Buffer(name: string)

  /** One scalar argument, packed by value into the task. */
  datatype Arg = IntArg(i: int) | IntsArg(v: seq<int>) | ScalarArg(x: real)

  /** A handle together with the access mode the task declares on it. */
  datatype Binding = Binding(handle: Handle, mode: AccessMode)

  /** A codelet: its name, the access modes it fixes for its buffers (empty
      when the modes travel with each task), and its CPU and CUDA variants. */
  datatype Codelet = Codelet(name: string, modes: seq<AccessMode>, cpu: seq<string>, cuda: seq<string>)

  /** A submitted task: codelet name, bound buffers in order, packed
      arguments, and the flop count when the caller passes one. */
  datatype Task = Task(codelet: string, buffers: seq<Binding>, args: seq<Arg>, flops: Option<real>)

  /** One call into the runtime, in submission order. `Call` stands for a
      submit routine of another codelet that this model does not look inside:
      its name, its handles in order and its scalar arguments. */
  datatype Action =
    | Submit(task: Task)
    | Call(routine: string, handles: seq<Handle>, args: seq<Arg>)
    | DataCpy(dst: Handle, src: Handle)
    | Transfer(handle: Handle, rank: int)
    | Flush(handle: Handle)
    | WaitAll
    | MpiWaitAll

  /** The modes a task declares agree, buffer by buffer, with those its codelet fixes. */
  predicate ModesMatch(cl: Codelet, t: Task)
  {
    t.codelet == cl.name
    && |cl.modes| == |t.buffers|
    && forall b :: 0 <= b < |t.buffers| ==> t.buffers[b].mode == cl.modes[b]
  }

  /** `starpu_task_insert` followed by the check every submit routine makes:
      a non-zero return code becomes a runtime error carrying `msg`. */
  function Insert(t: Task, ret: int, msg: string): (r: Result<Task>)
    ensures r.Ok? <==> ret == 0
    ensures r.Ok? ==> r.value == t
    ensures r.Err? ==> r.error == RuntimeError(msg)
  {
    if ret != 0 then Err(RuntimeError(msg)) else Ok(t)
  }

  /** Process-wide backend restrictions, by codelet name (`None`: unrestricted). */
  type Restrictions = map<string, Option<nat>>

  /** `restrict_where`: every listed codelet may only run where `where` allows. */
  function RestrictWhere(reg: Restrictions, names: set<string>, where: nat): (r: Restrictions)
    ensures r.Keys == reg.Keys + names
    ensures forall n :: n in names ==> r[n] == Some(where)
    ensures forall n :: n in reg && n !in names ==> r[n] == reg[n]
  {
    map n | n in reg.Keys + names :: if n in names then Some(where) else reg[n]
  }

  /** `restore_where`: every listed codelet may run on all its backends again. */
  function RestoreWhere(reg: Restrictions, names: set<string>): (r: Restrictions)
    ensures r.Keys == reg.Keys + names
    ensures forall n :: n in names ==> r[n] == None
    ensures forall n :: n in reg && n !in names ==> r[n] == reg[n]
  {
    map n | n in reg.Keys + names :: if n in names then None else reg[n]
  }

  /** Restoring undoes any restriction of the same codelets. */
  lemma RestoreUndoesRestrict(reg: Restrictions, names: set<string>, where: nat)
    ensures RestoreWhere(RestrictWhere(reg, names, where), names) == RestoreWhere(reg, names)
  {
  }

  /** The handles flushed by a log, in order. */
  function Flushed(log: seq<Action>): seq<Handle>
  {
    if |log| == 0 then []
    else Flushed(log[..|log| - 1]) + (if log[|log| - 1].Flush? then [log[|log| - 1].handle] else [])
  }

  lemma {:induction false} FlushedConcat(a: seq<Action>, b: seq<Action>)
    ensures Flushed(a + b) == Flushed(a) + Flushed(b)
    decreases |b|
  {
    if |b| > 0 {
      assert (a + b)[..|a + b| - 1] == a + b[..|b| - 1];
      FlushedConcat(a, b[..|b| - 1]);
    } else {
      assert a + b == a;
    }
  }
}
