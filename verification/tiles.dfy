/** Tiles and tensors as the operations see them.

    A tile is a data handle with a shape, stored contiguously with axis 0
    fastest. A tensor is split by a base tile shape into a grid of tiles:
    every tile has the base shape except the last one along an axis, which is
    clipped to what remains of the tensor. Each tile of a tensor lives on one
    MPI rank. */
module Tiles {
  import opened Runtime
  import opened Shapes

  /** A tile: its data handle and its shape. Its strides are `Strides(shape)`. */
  datatype Tile = Tile(handle: Handle, shape: seq<nat>)

  /** The `(m, n, k)` view of a tile around one axis that the slice kernels
      take: `m` is the stride of the axis (the elements of the axes before
      it), `k` its extent and `n` the elements of the axes after it. */
  datatype SliceDims = SliceDims(m: nat, n: nat, k: nat)

  /** `m = stride[axis]`, `n = matrix_shape[axis+1][1]`, `k = shape[axis]`. */
  function AroundAxis(shape: seq<nat>, axis: nat): (d: SliceDims)
    requires axis < |shape|
    ensures d.m == Strides(shape)[axis] && d.k == shape[axis] && d.n == Product(shape[axis + 1..])
    ensures d.m * d.k * d.n == Product(shape)
  {
    ProductAroundAxis(shape, axis);
    SliceDims(Product(shape[..axis]), Product(shape[axis + 1..]), shape[axis])
  }

  /** Number of base tiles needed to cover `len` elements. */
  function CeilDiv(len: nat, b: nat): nat
    requires b > 0
  {
    (len + b - 1) / b
  }

  /** Extent along one axis of the `i`-th tile: the base extent, except for
      the last tile, which holds what remains. */
  function TileExtent(len: nat, b: nat, i: int): (e: nat)
    requires b > 0 && 0 <= i < CeilDiv(len, b)
    ensures 1 <= e <= b
  {
    LastTileFits(len, b, i);
    if i + 1 < CeilDiv(len, b) then b else len - i * b
  }

  lemma LastTileFits(len: nat, b: nat, i: int)
    requires b > 0 && 0 <= i < CeilDiv(len, b)
    ensures i * b < len
    ensures i + 1 == CeilDiv(len, b) ==> len - i * b <= b
  {
    var q := CeilDiv(len, b);
    assert q * b <= len + b - 1;
    assert (len + b - 1) - q * b < b;
    MulMonotone(b, i + 1, q);
    assert (i + 1) * b <= q * b;
  }

  /** A tensor: name, shape, base tile shape and the rank of every tile,
      tiles numbered by `IndexToLinear` over the grid. */
  datatype Tensor = Tensor(name: string, shape: seq<nat>, basetile: seq<nat>, ranks: seq<int>)

  predicate Tiled(t: Tensor)
  {
    |t.basetile| == |t.shape| && forall k :: 0 <= k < |t.shape| ==> t.basetile[k] > 0
  }

  /** Number of tiles along every axis. */
  function Grid(t: Tensor): (g: seq<nat>)
    requires Tiled(t)
    ensures |g| == |t.shape|
  {
    seq(|t.shape|, k requires 0 <= k < |t.shape| => CeilDiv(t.shape[k], t.basetile[k]))
  }

  /** Shape, base tile and one rank per tile agree. */
  predicate Valid(t: Tensor)
  {
    Tiled(t) && |t.ranks| == Product(Grid(t))
  }

  /** Shape of the tile with grid index `idx`. */
  function TileShape(t: Tensor, idx: seq<int>): (s: seq<nat>)
    requires Tiled(t) && InBox(Grid(t), idx)
    ensures |s| == |t.shape|
    ensures forall k :: 0 <= k < |s| ==> 1 <= s[k] <= t.basetile[k]
  {
    seq(|t.shape|, k requires 0 <= k < |t.shape| => TileExtent(t.shape[k], t.basetile[k], idx[k]))
  }

  /** Handle of the `i`-th tile of a tensor. */
  function TileAt(t: Tensor, i: int): Handle
  {
    TileHandle(t.name, Linear(i))
  }

  /** Two tensors cut one axis each in the same way when they agree on its
      length and base extent; their tiles along it then match one for one. */
  lemma SameCut(a: Tensor, ka: nat, b: Tensor, kb: nat, i: int)
    requires Tiled(a) && Tiled(b) && ka < |a.shape| && kb < |b.shape|
    requires a.shape[ka] == b.shape[kb] && a.basetile[ka] == b.basetile[kb]
    requires 0 <= i < Grid(a)[ka]
    ensures Grid(a)[ka] == Grid(b)[kb]
    ensures TileExtent(a.shape[ka], a.basetile[ka], i) == TileExtent(b.shape[kb], b.basetile[kb], i)
  {
  }
}
