/** Tensor-level outer bias (`bias_outer_async` on tensors): a vector `src`
    laid along axis `axis` of `dst` is added to every destination tile.

    After validating the shapes, every destination tile is visited in tile
    order. The source tile it needs is the one numbered by the destination
    tile's grid coordinate along `axis`; it is transferred to the rank owning
    the destination tile, the task is submitted only on that rank
    (owner-computes), and the destination tile is flushed on every rank. */
module TensorBiasOuter {
  import opened Outcome
  import opened Runtime
  import opened Shapes
  import opened Tiles

  /** What the checks of `bias_outer_async` demand of its arguments. */
  predicate Admissible(src: Tensor, dst: Tensor, axis: int)
  {
    && Tiled(src) && Tiled(dst) && |src.shape| == 1 && 0 <= axis < |dst.shape|
    && src.shape[0] == dst.shape[axis] && src.basetile[0] == dst.basetile[axis]
  }

  /** Both tensors are well formed and pass the checks. */
  predicate Ready(src: Tensor, dst: Tensor, axis: int)
  {
    Valid(src) && Valid(dst) && Admissible(src, dst, axis)
  }

  /** The actions for destination tile `i`, issued on rank `mpiRank`. */
  function TileStep(alpha: real, src: Tensor, dst: Tensor, axis: nat, mpiRank: int, i: nat): seq<Action>
    requires Ready(src, dst, axis)
    requires i < Product(Grid(dst))
  {
    var idx := LinearToIndex(Grid(dst), i);
    var j := idx[axis];
    var rank := dst.ranks[i];
    var d := AroundAxis(TileShape(dst, idx), axis);
    [Transfer(TileAt(src, j), rank)]
    + (if mpiRank == rank
       then [Call("bias_outer", [TileAt(src, j), TileAt(dst, i)],
                  [IntArg(d.m), IntArg(d.n), IntArg(d.k), ScalarArg(alpha)])]
       else [])
    + [Flush(TileAt(dst, i))]
  }

  /** For destination tile `i` the source tile is the one numbered by the
      tile's grid coordinate along `axis`; it is sent to the owner of the
      destination tile; only the owner submits, with an `(m, k, n)` view that
      covers the destination tile and a `k` equal to the length of the source
      tile; the destination tile is flushed last. */
  lemma TileStepActions(alpha: real, src: Tensor, dst: Tensor, axis: nat, mpiRank: int, i: nat)
    requires Ready(src, dst, axis)
    requires i < Product(Grid(dst))
    ensures var s := TileStep(alpha, src, dst, axis, mpiRank, i);
      var idx := LinearToIndex(Grid(dst), i);
      && InBox(Grid(src), [idx[axis]])
      && |s| == (if dst.ranks[i] == mpiRank then 3 else 2)
      && s[0] == Transfer(TileAt(src, idx[axis]), dst.ranks[i])
      && s[|s| - 1] == Flush(TileAt(dst, i))
      && (dst.ranks[i] == mpiRank ==>
            && s[1].Call? && s[1].handles == [TileAt(src, idx[axis]), TileAt(dst, i)]
            && |s[1].args| == 4 && s[1].args[3] == ScalarArg(alpha)
            && s[1].args[0].IntArg? && s[1].args[1].IntArg? && s[1].args[2].IntArg?
            && s[1].args[0].i == Strides(TileShape(dst, idx))[axis]
            && s[1].args[1].i == Product(TileShape(dst, idx)[axis + 1..])
            && s[1].args[2].i == TileShape(dst, idx)[axis]
            && s[1].args[2].i == TileShape(src, [idx[axis]])[0]
            && s[1].args[0].i * s[1].args[2].i * s[1].args[1].i == Product(TileShape(dst, idx)))
  {
    var idx := LinearToIndex(Grid(dst), i);
    SameCut(dst, axis, src, 0, idx[axis]);
  }

  /** The destination tile each submitted task writes, in order. */
  function Computed(log: seq<Action>): seq<Handle>
  {
    if |log| == 0 then []
    else
      var a := log[|log| - 1];
      Computed(log[..|log| - 1]) + (if a.Call? && |a.handles| == 2 then [a.handles[1]] else [])
  }

  lemma {:induction false} ComputedConcat(a: seq<Action>, b: seq<Action>)
    ensures Computed(a + b) == Computed(a) + Computed(b)
    decreases |b|
  {
    if |b| > 0 {
      assert (a + b)[..|a + b| - 1] == a + b[..|b| - 1];
      ComputedConcat(a, b[..|b| - 1]);
    } else {
      assert a + b == a;
    }
  }

  /** The first `n` tiles of `t`, in order. */
  function AllTiles(t: Tensor, n: nat): (hs: seq<Handle>)
    ensures |hs| == n
  {
    seq(n, i => TileAt(t, i))
  }

  lemma AllTilesSnoc(t: Tensor, n: nat)
    ensures AllTiles(t, n + 1) == AllTiles(t, n) + [TileAt(t, n)]
  {
  }

  /** The tiles among the first `n` of `t` that live on rank `rank`, in order. */
  function OwnedTiles(t: Tensor, rank: int, n: nat): seq<Handle>
    requires n <= |t.ranks|
  {
    if n == 0 then []
    else OwnedTiles(t, rank, n - 1) + (if t.ranks[n - 1] == rank then [TileAt(t, n - 1)] else [])
  }

  /** The actions for the first `n` destination tiles, in tile order. */
  function BiasOuterTiles(alpha: real, src: Tensor, dst: Tensor, axis: nat, mpiRank: int, n: nat): seq<Action>
    requires Ready(src, dst, axis)
    requires n <= Product(Grid(dst))
  {
    if n == 0 then []
    else BiasOuterTiles(alpha, src, dst, axis, mpiRank, n - 1) + TileStep(alpha, src, dst, axis, mpiRank, n - 1)
  }

  /** Over the first `n` destination tiles every one of them is flushed, and
      exactly those owned by `mpiRank` get a task. */
  lemma {:induction false} BiasOuterTilesViews(alpha: real, src: Tensor, dst: Tensor, axis: nat, mpiRank: int, n: nat)
    requires Ready(src, dst, axis)
    requires n <= Product(Grid(dst))
    ensures Flushed(BiasOuterTiles(alpha, src, dst, axis, mpiRank, n)) == AllTiles(dst, n)
    ensures Computed(BiasOuterTiles(alpha, src, dst, axis, mpiRank, n)) == OwnedTiles(dst, mpiRank, n)
  {
    if n > 0 {
      BiasOuterTilesViews(alpha, src, dst, axis, mpiRank, n - 1);
      StepViews(alpha, src, dst, axis, mpiRank, n - 1);
      ExtendViews(dst, mpiRank, n - 1, BiasOuterTiles(alpha, src, dst, axis, mpiRank, n - 1),
                  TileStep(alpha, src, dst, axis, mpiRank, n - 1));
    }
  }

  lemma StepViews(alpha: real, src: Tensor, dst: Tensor, axis: nat, mpiRank: int, i: nat)
    requires Ready(src, dst, axis)
    requires i < Product(Grid(dst))
    ensures Flushed(TileStep(alpha, src, dst, axis, mpiRank, i)) == [TileAt(dst, i)]
    ensures Computed(TileStep(alpha, src, dst, axis, mpiRank, i))
      == (if dst.ranks[i] == mpiRank then [TileAt(dst, i)] else [])
  {
    var idx := LinearToIndex(Grid(dst), i);
    var rank := dst.ranks[i];
    var d := AroundAxis(TileShape(dst, idx), axis);
    var t := [Transfer(TileAt(src, idx[axis]), rank)];
    var c := if mpiRank == rank
      then [Call("bias_outer", [TileAt(src, idx[axis]), TileAt(dst, i)],
                 [IntArg(d.m), IntArg(d.n), IntArg(d.k), ScalarArg(alpha)])]
      else [];
    var f := [Flush(TileAt(dst, i))];
    assert TileStep(alpha, src, dst, axis, mpiRank, i) == t + c + f;
    FlushedConcat(t + c, f);
    FlushedConcat(t, c);
    ComputedConcat(t + c, f);
    ComputedConcat(t, c);
    SingleViews(t[0]);
    SingleViews(f[0]);
    if mpiRank == rank {
      SingleViews(c[0]);
    }
  }

  /** What one action contributes to the two views of a log. */
  lemma SingleViews(a: Action)
    ensures Flushed([a]) == (if a.Flush? then [a.handle] else [])
    ensures Computed([a]) == (if a.Call? && |a.handles| == 2 then [a.handles[1]] else [])
  {
    assert [a][..0] == [];
  }

  /** One more tile extends both views by that tile's contribution. */
  lemma ExtendViews(dst: Tensor, mpiRank: int, n: nat, prev: seq<Action>, step: seq<Action>)
    requires n < |dst.ranks|
    requires Flushed(prev) == AllTiles(dst, n) && Computed(prev) == OwnedTiles(dst, mpiRank, n)
    requires Flushed(step) == [TileAt(dst, n)]
    requires Computed(step) == (if dst.ranks[n] == mpiRank then [TileAt(dst, n)] else [])
    ensures Flushed(prev + step) == AllTiles(dst, n + 1)
    ensures Computed(prev + step) == OwnedTiles(dst, mpiRank, n + 1)
  {
    FlushedConcat(prev, step);
    ComputedConcat(prev, step);
    AllTilesSnoc(dst, n);
  }

  /** `bias_outer_async`: the checks in source order, each with its message;
      nothing at all when `alpha` is zero; otherwise the tile actions. */
  function BiasOuterAsync(alpha: real, src: Tensor, dst: Tensor, axis: int, mpiRank: int): (r: Result<seq<Action>>)
    requires Valid(src) && Valid(dst)
    ensures r.Ok? <==> Admissible(src, dst, axis)
    ensures |src.shape| != 1 ==> r == Err(RuntimeError("src.ndim != 1"))
    ensures |src.shape| == 1 && axis < 0 ==> r == Err(RuntimeError("axis < 0"))
    ensures |src.shape| == 1 && axis >= |dst.shape| ==> r == Err(RuntimeError("axis >= dst.ndim"))
    ensures |src.shape| == 1 && 0 <= axis < |dst.shape| && src.shape[0] != dst.shape[axis]
      ==> r == Err(RuntimeError("src.shape[0] != dst.shape[axis]"))
    ensures |src.shape| == 1 && 0 <= axis < |dst.shape| && src.shape[0] == dst.shape[axis]
      && src.basetile[0] != dst.basetile[axis]
      ==> r == Err(RuntimeError("src.basetile_shape[0] != dst.basetile_shape[axis]"))
    ensures r.Ok? && alpha == 0.0 ==> r.value == []
    ensures r.Ok? && alpha != 0.0 ==>
      && Flushed(r.value) == AllTiles(dst, Product(Grid(dst)))
      && Computed(r.value) == OwnedTiles(dst, mpiRank, Product(Grid(dst)))
  {
    if |src.shape| != 1 then Err(RuntimeError("src.ndim != 1"))
    else if axis < 0 then Err(RuntimeError("axis < 0"))
    else if axis >= |dst.shape| then Err(RuntimeError("axis >= dst.ndim"))
    else if src.shape[0] != dst.shape[axis] then Err(RuntimeError("src.shape[0] != dst.shape[axis]"))
    else if src.basetile[0] != dst.basetile[axis] then
      Err(RuntimeError("src.basetile_shape[0] != dst.basetile_shape[axis]"))
    else if alpha == 0.0 then Ok([])
    else
      BiasOuterTilesViews(alpha, src, dst, axis, mpiRank, Product(Grid(dst)));
      Ok(BiasOuterTiles(alpha, src, dst, axis, mpiRank, Product(Grid(dst))))
  }

  /** `bias_outer`: the asynchronous call, then a drain of the task queue and
      of the MPI transfers. A failed check drains nothing. */
  function BiasOuter(alpha: real, src: Tensor, dst: Tensor, axis: int, mpiRank: int): (r: Result<seq<Action>>)
    requires Valid(src) && Valid(dst)
    ensures r.Ok? <==> Admissible(src, dst, axis)
    ensures r.Err? ==> r == BiasOuterAsync(alpha, src, dst, axis, mpiRank)
    ensures r.Ok? ==> r.value == BiasOuterAsync(alpha, src, dst, axis, mpiRank).value + [WaitAll, MpiWaitAll]
  {
    var log :- BiasOuterAsync(alpha, src, dst, axis, mpiRank);
    Ok(log + [WaitAll, MpiWaitAll])
  }
}
