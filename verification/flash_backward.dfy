/** The tile orchestration of the backward pass of fused flash attention
    (`flash_softmax_gemm_backward_async` on tensors).

    Two sweeps over the tiles of `dV`. The first clears the `dQ`, `dK` and
    `dV` tiles of the current number and then accumulates into the `dV` tile
    one fused task per tile `j` of the sequence axis of `Q`; the second
    submits, per `dV` tile, one fused task per tile `j` of the sequence axis
    of `dQ`, accumulating into `dQ` and `dK`. Every other operand tile is
    found from the `dV` tile index by replacing coordinates with `j`. The
    numerical kernels are outside this model; the tasks are recorded as
    calls with their handles and scalar arguments. */
module FlashBackward {
  import opened Runtime
  import opened Shapes
  import opened Tiles

  /** The twelve operands. Only `Q`, `dQ` and `dV` need their tilings; the
      others are found by name and tile index. The tiles of `dQ` are named by
      their number in `dQ`'s grid, as `get_tile_handle` numbers them, so that
      a clear by number and a task by index can be compared. */
  datatype Operands = Operands(
    q: Tensor, dq: Tensor, k: string, dk: string, v: string, dv: Tensor,
    mask: string, maxsumexp: string, dstGrad: string,
    tmp: string, tmpGrad: string, tmpSumprodSlice: string)

  /** GPT2-style (4 axes) or Llama-style (5 axes) attention inputs. */
  predicate Shaped(x: Operands)
  {
    && Tiled(x.q) && Tiled(x.dq) && Tiled(x.dv)
    && 4 <= |x.q.shape| && |x.dv.shape| == |x.q.shape| && |x.dq.shape| == |x.dv.shape|
  }

  /** Heads per tile: the base extent of axis 3, times that of axis 4 for
      5-axis (Llama-style) inputs. */
  function HeadTile(q: Tensor): nat
    requires Tiled(q) && 4 <= |q.shape|
  {
    if |q.shape| == 4 then q.basetile[3] else q.basetile[3] * q.basetile[4]
  }

  /** The scalar arguments every fused task receives: the sequence base
      extent, the head size, the batch of (batch, head) pairs per tile and
      the reduction flag, which is always 0. */
  function FusedArgs(q: Tensor): (args: seq<Arg>)
    requires Tiled(q) && 4 <= |q.shape|
    ensures |args| == 4 && args[3] == IntArg(0)
    ensures args[0] == IntArg(q.basetile[1]) && args[1] == IntArg(q.shape[0])
    ensures |q.shape| == 4 ==> args[2] == IntArg(q.basetile[2] * q.basetile[3])
    ensures |q.shape| > 4 ==> args[2] == IntArg(q.basetile[2] * (q.basetile[3] * q.basetile[4]))
  {
    [IntArg(q.basetile[1]), IntArg(q.shape[0]), IntArg(q.basetile[2] * HeadTile(q)), IntArg(0)]
  }

  /** Index of the `tmp` and `tmp_grad` tiles: the `dV` index with its
      sequence coordinate moved to axis 0 and `j` on axis 1. */
  function TmpIndex(dvIdx: seq<int>, j: int): (t: seq<int>)
    requires |dvIdx| >= 2
    ensures |t| == |dvIdx| && t[0] == dvIdx[1] && t[1] == j
    ensures forall k :: 2 <= k < |t| ==> t[k] == dvIdx[k]
  {
    dvIdx[0 := dvIdx[1]][1 := j]
  }

  /** Index of the `Q`, `dst_grad`, `maxsumexp` (and, in the second sweep,
      `dQ`) tiles: the `dV` index with `j` on axis 1. */
  function SeqIndex(dvIdx: seq<int>, j: int): (t: seq<int>)
    requires |dvIdx| >= 2
    ensures |t| == |dvIdx| && t[1] == j
    ensures forall k :: 0 <= k < |t| && k != 1 ==> t[k] == dvIdx[k]
  {
    dvIdx[1 := j]
  }

  /** Index of the mask tile: two axes, key tile and query tile. */
  function MaskIndex(dvIdx: seq<int>, j: int): seq<int>
    requires |dvIdx| >= 2
  {
    [dvIdx[1], j]
  }

  /** Index of the `tmp_sumprod_slice` tile: `ndim - 1` axes, `j` first,
      then the `dV` coordinates after the sequence axis. */
  function SliceIndex(dvIdx: seq<int>, j: int): (t: seq<int>)
    requires |dvIdx| >= 2
    ensures |t| == |dvIdx| - 1 && t[0] == j
    ensures forall k :: 1 <= k < |t| ==> t[k] == dvIdx[k + 1]
  {
    [j] + dvIdx[2..]
  }

  /** The index vectors are built once per `dV` tile by filling a vector of
      `ndim - 1` zeros from axis 1 on; axis 0 is set to `j` in the inner
      loop. The result is `SliceIndex`. */
  method FillSliceIndex(dvIdx: seq<int>, j: int) returns (t: seq<int>)
    requires |dvIdx| >= 2
    ensures t == SliceIndex(dvIdx, j)
  {
    t := seq(|dvIdx| - 1, _ => 0);
    var m := 1;
    while m < |dvIdx| - 1
      invariant 1 <= m <= |dvIdx| - 1 && |t| == |dvIdx| - 1
      invariant forall k :: 1 <= k < m ==> t[k] == dvIdx[k + 1]
    {
      t := t[m := dvIdx[m + 1]];
      m := m + 1;
    }
    t := t[0 := j];
  }

  /** One submission of the two sweeps, by `dV` tile number `i` and
      sequence tile `j`; `Render` turns it into the runtime call. */
  datatype Step =
    | ClearDQ(i: nat)
    | ClearDK(i: nat)
    | ClearDV(i: nat)
    | Sumprod(i: nat, j: nat)
    | DqDk(i: nat, j: nat)

  predicate IsClearStep(s: Step) { s.ClearDQ? || s.ClearDK? || s.ClearDV? }

  /** First sweep, tile `i`: three clears, then one fused task per tile `j`
      of the `g1` sequence tiles of `Q`. */
  function Sweep1Tile(i: nat, g1: nat): (s: seq<Step>)
    ensures |s| == 3 + g1
  {
    [ClearDQ(i), ClearDK(i), ClearDV(i)] + seq(g1, j requires 0 <= j < g1 => Sumprod(i, j))
  }

  /** First sweep over the first `n` tiles of `dV`. */
  function Sweep1(n: nat, g1: nat): seq<Step>
  {
    if n == 0 then [] else Sweep1(n - 1, g1) + Sweep1Tile(n - 1, g1)
  }

  /** Second sweep, tile `i`: one fused task per tile `j` of the `g2`
      sequence tiles of `dQ`. */
  function Sweep2Tile(i: nat, g2: nat): (s: seq<Step>)
    ensures |s| == g2
  {
    seq(g2, j requires 0 <= j < g2 => DqDk(i, j))
  }

  /** Second sweep over the first `n` tiles of `dV`. */
  function Sweep2(n: nat, g2: nat): seq<Step>
  {
    if n == 0 then [] else Sweep2(n - 1, g2) + Sweep2Tile(n - 1, g2)
  }

  /** The first sweep: only clears and first-sweep tasks, every tile number
      below `n`, every sequence tile below `g1`. */
  lemma {:induction false} Sweep1Kinds(n: nat, g1: nat)
    ensures var s := Sweep1(n, g1);
      && |s| == n * (3 + g1)
      && (forall p :: 0 <= p < |s| ==> !s[p].DqDk? && s[p].i < n && (s[p].Sumprod? ==> s[p].j < g1))
  {
    if n > 0 {
      Sweep1Kinds(n - 1, g1);
      var prev := Sweep1(n - 1, g1);
      var s := prev + Sweep1Tile(n - 1, g1);
      assert forall p :: 0 <= p < |prev| ==> s[p] == prev[p];
    }
  }

  /** The first sweep clears the `dK` tile of every number it visits. */
  lemma {:induction false} Sweep1ClearsDK(n: nat, g1: nat)
    ensures forall i :: 0 <= i < n ==> ClearDK(i) in Sweep1(n, g1)
  {
    if n > 0 {
      Sweep1ClearsDK(n - 1, g1);
      var prev := Sweep1(n - 1, g1);
      var s := prev + Sweep1Tile(n - 1, g1);
      assert s[|prev| + 1] == ClearDK(n - 1);
      forall i | 0 <= i < n - 1
        ensures ClearDK(i) in s
      {
        var p :| 0 <= p < |prev| && prev[p] == ClearDK(i);
        assert s[p] == prev[p];
      }
    }
  }

  /** The first sweep clears the `dQ` tile of every number it visits. */
  lemma {:induction false} Sweep1ClearsDQ(n: nat, g1: nat)
    ensures forall i :: 0 <= i < n ==> ClearDQ(i) in Sweep1(n, g1)
  {
    if n > 0 {
      Sweep1ClearsDQ(n - 1, g1);
      var prev := Sweep1(n - 1, g1);
      var s := prev + Sweep1Tile(n - 1, g1);
      assert s[|prev|] == ClearDQ(n - 1);
      forall i | 0 <= i < n - 1
        ensures ClearDQ(i) in s
      {
        var p :| 0 <= p < |prev| && prev[p] == ClearDQ(i);
        assert s[p] == prev[p];
      }
    }
  }

  /** In the first sweep each `dV` tile is cleared before the tasks that
      accumulate into it. */
  lemma {:induction false} Sweep1ClearedBefore(n: nat, g1: nat)
    ensures forall p :: 0 <= p < |Sweep1(n, g1)| && Sweep1(n, g1)[p].Sumprod? ==>
      ClearDV(Sweep1(n, g1)[p].i) in Sweep1(n, g1)[..p]
  {
    if n > 0 {
      Sweep1ClearedBefore(n - 1, g1);
      var prev := Sweep1(n - 1, g1);
      var step := Sweep1Tile(n - 1, g1);
      var s := prev + step;
      forall p | 0 <= p < |s| && s[p].Sumprod?
        ensures ClearDV(s[p].i) in s[..p]
      {
        if p < |prev| {
          assert s[p] == prev[p];
          assert s[..p] == prev[..p];
          assert ClearDV(prev[p].i) in prev[..p];
        } else {
          var k := p - |prev|;
          assert s[p] == step[k];
          assert step[..3] == [ClearDQ(n - 1), ClearDK(n - 1), ClearDV(n - 1)];
          assert k >= 3 && step[k] == Sumprod(n - 1, k - 3);
          assert s[..p][|prev| + 2] == ClearDV(n - 1);
          assert ClearDV(s[p].i) in s[..p];
        }
      }
    }
  }

  /** The second sweep: only second-sweep tasks, every tile number below `n`,
      every sequence tile below `g2`. */
  lemma {:induction false} Sweep2Facts(n: nat, g2: nat)
    ensures var s := Sweep2(n, g2);
      && |s| == n * g2
      && (forall p :: 0 <= p < |s| ==> s[p].DqDk? && s[p].i < n && s[p].j < g2)
  {
    if n > 0 {
      Sweep2Facts(n - 1, g2);
    }
  }

  /** Both sweeps, in order. */
  function Schedule(n: nat, g1: nat, g2: nat): seq<Step>
  {
    Sweep1(n, g1) + Sweep2(n, g2)
  }

  /** Every clear precedes every second-sweep task; each `dV` tile is cleared
      before the first-sweep tasks that accumulate into it, and each `dK`
      tile before the second-sweep tasks that accumulate into it. */
  lemma ScheduleOrder(n: nat, g1: nat, g2: nat)
    ensures var s := Schedule(n, g1, g2);
      && |s| == n * (3 + g1) + n * g2
      && (forall p :: 0 <= p < |s| ==> s[p].i < n)
      && (forall p, q :: 0 <= p < q < |s| && s[p].DqDk? ==> !IsClearStep(s[q]))
      && (forall p :: 0 <= p < |s| && s[p].Sumprod? ==> ClearDV(s[p].i) in s[..p])
      && (forall p :: 0 <= p < |s| && s[p].DqDk? ==> ClearDK(s[p].i) in s[..p])
  {
    var s1 := Sweep1(n, g1);
    var s2 := Sweep2(n, g2);
    var s := s1 + s2;
    Sweep1Kinds(n, g1);
    Sweep2Facts(n, g2);
    assert forall p :: 0 <= p < |s1| ==> s[p] == s1[p];
    assert forall p :: |s1| <= p < |s| ==> s[p] == s2[p - |s1|];
    SumprodAfterClear(n, g1, g2);
    DqDkAfterClear(n, g1, g2);
    NoClearAfterDqDk(n, g1, g2);
  }

  /** In the whole schedule each first-sweep task follows the clear of its `dV` tile. */
  lemma SumprodAfterClear(n: nat, g1: nat, g2: nat)
    ensures var s := Schedule(n, g1, g2);
      forall p :: 0 <= p < |s| && s[p].Sumprod? ==> ClearDV(s[p].i) in s[..p]
  {
    var s1 := Sweep1(n, g1);
    var s := Schedule(n, g1, g2);
    Sweep1ClearedBefore(n, g1);
    Sweep2Facts(n, g2);
    assert forall p :: |s1| <= p < |s| ==> s[p] == Sweep2(n, g2)[p - |s1|];
    forall p | 0 <= p < |s| && s[p].Sumprod?
      ensures ClearDV(s[p].i) in s[..p]
    {
      assert p < |s1|;
      assert s[p] == s1[p];
      assert s[..p] == s1[..p];
    }
  }

  /** In the whole schedule each second-sweep task follows the clear of its `dK` tile. */
  lemma DqDkAfterClear(n: nat, g1: nat, g2: nat)
    ensures var s := Schedule(n, g1, g2);
      forall p :: 0 <= p < |s| && s[p].DqDk? ==> ClearDK(s[p].i) in s[..p]
  {
    var s1 := Sweep1(n, g1);
    var s2 := Sweep2(n, g2);
    var s := Schedule(n, g1, g2);
    Sweep1Kinds(n, g1);
    Sweep1ClearsDK(n, g1);
    Sweep2Facts(n, g2);
    assert forall p :: 0 <= p < |s1| ==> s[p] == s1[p];
    forall p | 0 <= p < |s| && s[p].DqDk?
      ensures ClearDK(s[p].i) in s[..p]
    {
      assert p >= |s1|;
      assert s[p] == s2[p - |s1|];
      assert ClearDK(s[p].i) in s1;
      assert s1 == s[..p][..|s1|];
    }
  }

  /** In the whole schedule every second-sweep task comes after the clears
      of all `dQ` tiles numbered below `n`. */
  lemma DqDkAfterClearDQ(n: nat, g1: nat, g2: nat)
    ensures var s := Schedule(n, g1, g2);
      forall p, i :: 0 <= p < |s| && s[p].DqDk? && 0 <= i < n ==> ClearDQ(i) in s[..p]
  {
    var s1 := Sweep1(n, g1);
    var s2 := Sweep2(n, g2);
    var s := Schedule(n, g1, g2);
    Sweep1Kinds(n, g1);
    Sweep1ClearsDQ(n, g1);
    Sweep2Facts(n, g2);
    assert forall p :: 0 <= p < |s1| ==> s[p] == s1[p];
    forall p, i | 0 <= p < |s| && s[p].DqDk? && 0 <= i < n
      ensures ClearDQ(i) in s[..p]
    {
      assert p >= |s1|;
      assert ClearDQ(i) in s1;
      assert s1 == s[..p][..|s1|];
    }
  }

  /** No clear comes after any second-sweep task. */
  lemma NoClearAfterDqDk(n: nat, g1: nat, g2: nat)
    ensures var s := Schedule(n, g1, g2);
      forall p, q :: 0 <= p < q < |s| && s[p].DqDk? ==> !IsClearStep(s[q])
  {
    var s1 := Sweep1(n, g1);
    var s2 := Sweep2(n, g2);
    var s := Schedule(n, g1, g2);
    Sweep1Kinds(n, g1);
    Sweep2Facts(n, g2);
    assert forall p :: 0 <= p < |s1| ==> s[p] == s1[p];
    forall p, q | 0 <= p < q < |s| && s[p].DqDk?
      ensures !IsClearStep(s[q])
    {
      assert p >= |s1|;
      assert s[q] == s2[q - |s1|];
    }
  }

  function Clear(h: Handle): Action
  {
    Call("clear", [h], [])
  }

  function Multi(name: string, idx: seq<int>): Handle { TileHandle(name, TileKey.Multi(idx)) }

  function Lin(name: string, i: int): Handle { TileHandle(name, Linear(i)) }

  /** The runtime call of one step: a clear of one tile, or one of the two
      fused tasks with its operand tiles in the order the submit routines
      take them. */
  function Render(x: Operands, s: Step): (a: Action)
    requires Shaped(x) && s.i < Product(Grid(x.dv))
  {
    var d := LinearToIndex(Grid(x.dv), s.i);
    match s
    case ClearDQ(i) => Clear(Lin(x.dq.name, i))
    case ClearDK(i) => Clear(Lin(x.dk, i))
    case ClearDV(i) => Clear(Lin(x.dv.name, i))
    case Sumprod(i, j) =>
      Call("flash_softmax_gemm_backward_sumprod_slice",
        [Multi(x.k, d), Multi(x.q.name, SeqIndex(d, j)), Multi(x.mask, MaskIndex(d, j)),
         Multi(x.maxsumexp, SeqIndex(d, j)), Multi(x.dstGrad, SeqIndex(d, j)), Multi(x.v, d),
         Lin(x.dv.name, i), Multi(x.tmpSumprodSlice, SliceIndex(d, j)),
         Multi(x.tmp, TmpIndex(d, j)), Multi(x.tmpGrad, TmpIndex(d, j))],
        FusedArgs(x.q))
    case DqDk(i, j) =>
      Call("flash_softmax_gemm_backward_dq_dk",
        [Multi(x.k, d), Multi(x.q.name, SeqIndex(d, j)), Multi(x.mask, MaskIndex(d, j)),
         Multi(x.maxsumexp, SeqIndex(d, j)), Multi(x.dstGrad, SeqIndex(d, j)), Multi(x.v, d),
         Multi(x.tmpSumprodSlice, SliceIndex(d, j)), Lin(x.dq.name, IndexToLinear(Grid(x.dq), SeqIndex(d, j))),
         Lin(x.dk, i), Multi(x.tmp, TmpIndex(d, j)), Multi(x.tmpGrad, TmpIndex(d, j))],
        FusedArgs(x.q))
  }

  /** A clear step renders to a clear of the tile a fused task of the same
      number accumulates into; fused tasks carry the fused arguments. */
  lemma RenderFacts(x: Operands, s: Step)
    requires Shaped(x) && s.i < Product(Grid(x.dv))
    ensures var a := Render(x, s);
      && a.Call? && (a.routine == "clear" <==> IsClearStep(s))
      && (!IsClearStep(s) ==> a.args == FusedArgs(x.q))
      && (s.ClearDV? ==> a == Clear(Lin(x.dv.name, s.i)))
      && (s.ClearDK? ==> a == Clear(Lin(x.dk, s.i)))
      && (s.ClearDQ? ==> a == Clear(Lin(x.dq.name, s.i)))
      && (s.Sumprod? ==> |a.handles| == 10 && a.handles[6] == Lin(x.dv.name, s.i))
      && (s.DqDk? ==> |a.handles| == 11 && a.handles[8] == Lin(x.dk, s.i))
      && (s.DqDk? ==>
            a.handles[7] == Lin(x.dq.name, IndexToLinear(Grid(x.dq), SeqIndex(LinearToIndex(Grid(x.dv), s.i), s.j))))
  {
  }

  predicate IsClear(a: Action) { a.Call? && a.routine == "clear" }

  /** `flash_softmax_gemm_backward_async`: both sweeps over all tiles of `dV`,
      rendered. The caller's `redux` is not used. */
  function FlashBackwardAsync(x: Operands, redux: int): (log: seq<Action>)
    requires Shaped(x)
    ensures |log| == |Schedule(Product(Grid(x.dv)), Grid(x.q)[1], Grid(x.dq)[1])|
  {
    var s := Schedule(Product(Grid(x.dv)), Grid(x.q)[1], Grid(x.dq)[1]);
    ScheduleOrder(Product(Grid(x.dv)), Grid(x.q)[1], Grid(x.dq)[1]);
    seq(|s|, p requires 0 <= p < |s| => Render(x, s[p]))
  }

  /** On the rendered log: every clear is submitted before every second-sweep
      task, and each `dV` (`dK`) tile is cleared before the first-sweep
      (second-sweep) tasks that accumulate into it. */
  lemma ClearsComeFirst(x: Operands, redux: int)
    requires Shaped(x)
    ensures var log := FlashBackwardAsync(x, redux);
      && (forall p, q :: 0 <= p < q < |log| && log[p].Call? && log[p].routine == "flash_softmax_gemm_backward_dq_dk"
            ==> !IsClear(log[q]))
      && (forall p :: 0 <= p < |log| && log[p].Call? && log[p].routine == "flash_softmax_gemm_backward_sumprod_slice"
            ==> |log[p].handles| == 10 && Clear(log[p].handles[6]) in log[..p])
      && (forall p :: 0 <= p < |log| && log[p].Call? && log[p].routine == "flash_softmax_gemm_backward_dq_dk"
            ==> |log[p].handles| == 11 && Clear(log[p].handles[8]) in log[..p])
  {
    var n := Product(Grid(x.dv));
    var s := Schedule(n, Grid(x.q)[1], Grid(x.dq)[1]);
    var log := FlashBackwardAsync(x, redux);
    ScheduleOrder(n, Grid(x.q)[1], Grid(x.dq)[1]);
    forall p, q | 0 <= p < q < |log| && log[p].Call? && log[p].routine == "flash_softmax_gemm_backward_dq_dk"
      ensures !IsClear(log[q])
    {
      RenderFacts(x, s[p]);
      RenderFacts(x, s[q]);
    }
    forall p | 0 <= p < |log| && log[p].Call? && log[p].routine == "flash_softmax_gemm_backward_sumprod_slice"
      ensures |log[p].handles| == 10 && Clear(log[p].handles[6]) in log[..p]
    {
      RenderFacts(x, s[p]);
      var q :| 0 <= q < p && s[q] == ClearDV(s[p].i);
      RenderFacts(x, s[q]);
      assert log[..p][q] == log[q];
    }
    forall p | 0 <= p < |log| && log[p].Call? && log[p].routine == "flash_softmax_gemm_backward_dq_dk"
      ensures |log[p].handles| == 11 && Clear(log[p].handles[8]) in log[..p]
    {
      RenderFacts(x, s[p]);
      var q :| 0 <= q < p && s[q] == ClearDK(s[p].i);
      RenderFacts(x, s[q]);
      assert log[..p][q] == log[q];
    }
  }

  /** When `dQ` and `dV` share one grid, the `dQ` tile each second-sweep
      task accumulates into was cleared earlier: the task's index (the `dV`
      index with the sequence tile `j`) numbers a tile the clear loop visits. */
  lemma DQClearedBefore(x: Operands, redux: int)
    requires Shaped(x) && Grid(x.dq) == Grid(x.dv)
    ensures var log := FlashBackwardAsync(x, redux);
      forall p :: 0 <= p < |log| && log[p].Call? && log[p].routine == "flash_softmax_gemm_backward_dq_dk"
        ==> |log[p].handles| == 11 && Clear(log[p].handles[7]) in log[..p]
  {
    var g := Grid(x.dv);
    var n := Product(g);
    var s := Schedule(n, Grid(x.q)[1], Grid(x.dq)[1]);
    var log := FlashBackwardAsync(x, redux);
    DqDkAfterClearDQ(n, Grid(x.q)[1], Grid(x.dq)[1]);
    Sweep1Kinds(n, Grid(x.q)[1]);
    Sweep2Facts(n, Grid(x.dq)[1]);
    forall p | 0 <= p < |log| && log[p].Call? && log[p].routine == "flash_softmax_gemm_backward_dq_dk"
      ensures |log[p].handles| == 11 && Clear(log[p].handles[7]) in log[..p]
    {
      RenderFacts(x, s[p]);
      assert s[p].DqDk?;
      var d := LinearToIndex(g, s[p].i);
      var e := SeqIndex(d, s[p].j);
      assert InBox(g, e);
      IndexToLinearBound(g, e);
      var i' := IndexToLinear(g, e);
      assert ClearDQ(i') in s[..p];
      var q :| 0 <= q < p && s[q] == ClearDQ(i');
      RenderFacts(x, s[q]);
      assert log[..p][q] == log[q];
    }
  }

  /** Every fused task passes 0 as its reduction flag, whatever the caller
      asked for: the log does not depend on `redux`. */
  lemma ReduxIgnored(x: Operands, redux1: int, redux2: int)
    requires Shaped(x)
    ensures FlashBackwardAsync(x, redux1) == FlashBackwardAsync(x, redux2)
    ensures forall p :: 0 <= p < |FlashBackwardAsync(x, redux1)| ==>
      FlashBackwardAsync(x, redux1)[p].Call?
      && (IsClear(FlashBackwardAsync(x, redux1)[p]) || FlashBackwardAsync(x, redux1)[p].args[3] == IntArg(0))
  {
    var n := Product(Grid(x.dv));
    var s := Schedule(n, Grid(x.q)[1], Grid(x.dq)[1]);
    ScheduleOrder(n, Grid(x.q)[1], Grid(x.dq)[1]);
    forall p | 0 <= p < |s|
      ensures FlashBackwardAsync(x, redux1)[p].Call?
      ensures IsClear(FlashBackwardAsync(x, redux1)[p]) || FlashBackwardAsync(x, redux1)[p].args[3] == IntArg(0)
    {
      RenderFacts(x, s[p]);
    }
  }

  /** `flash_softmax_gemm_backward`: the asynchronous call, then a drain of
      the task queue and of the MPI transfers. */
  function FlashBackward(x: Operands, redux: int): (log: seq<Action>)
    requires Shaped(x)
    ensures |log| == |FlashBackwardAsync(x, redux)| + 2
    ensures log[..|log| - 2] == FlashBackwardAsync(x, redux)
    ensures log[|log| - 2..] == [WaitAll, MpiWaitAll]
  {
    FlashBackwardAsync(x, redux) + [WaitAll, MpiWaitAll]
  }
}
