/** Tensor-level bias along one axis (`bias_work` on tensors): which
    destination tiles each source tile is added to.

    The source tensor has one axis fewer than the destination. For source
    tile `i` the destination grid index is the source grid index with a free
    coordinate inserted at `axis`, and that coordinate runs over the whole
    destination grid along `axis`. Only the tile numbers are modelled; the
    per-tile bias itself is a call this model does not look inside. */
module TensorBias {
  import opened Shapes

  /** One per-tile bias call: source tile number and destination tile number. */
  datatype TileCall = TileCall(src: nat, dst: int)

  /** Destination grid index for source tile `i` and coordinate `j` along `axis`. */
  function DstIndex(srcGrid: seq<nat>, axis: nat, i: nat, j: int): (idx: seq<int>)
    requires i < Product(srcGrid) && axis <= |srcGrid|
    ensures |idx| == |srcGrid| + 1
  {
    InsertAxis(LinearToIndex(srcGrid, i), axis, j)
  }

  /** Destination tile number for source tile `i` and coordinate `j`. */
  function DstTile(srcGrid: seq<nat>, dstGrid: seq<nat>, axis: nat, i: nat, j: int): int
    requires i < Product(srcGrid) && axis <= |srcGrid| && |dstGrid| == |srcGrid| + 1
  {
    IndexToLinear(dstGrid, DstIndex(srcGrid, axis, i, j))
  }

  /** The calls made for source tile `i`, one per coordinate along `axis`. */
  function Row(srcGrid: seq<nat>, dstGrid: seq<nat>, axis: nat, i: nat): (row: seq<TileCall>)
    requires |dstGrid| == |srcGrid| + 1 && axis < |dstGrid| && i < Product(srcGrid)
    ensures |row| == dstGrid[axis]
  {
    seq(dstGrid[axis], j requires 0 <= j < dstGrid[axis] => TileCall(i, DstTile(srcGrid, dstGrid, axis, i, j)))
  }

  /** The calls made for the first `n` source tiles, in loop order. */
  function Visits(srcGrid: seq<nat>, dstGrid: seq<nat>, axis: nat, n: nat): (v: seq<TileCall>)
    requires |dstGrid| == |srcGrid| + 1 && axis < |dstGrid| && n <= Product(srcGrid)
    ensures |v| == n * dstGrid[axis]
  {
    if n == 0 then [] else Visits(srcGrid, dstGrid, axis, n - 1) + Row(srcGrid, dstGrid, axis, n - 1)
  }

  /** Step `j` of source tile `i` sits at position `i*k + j` of the loop. */
  lemma {:induction false} VisitsAt(srcGrid: seq<nat>, dstGrid: seq<nat>, axis: nat, n: nat, i: nat, j: int)
    requires |dstGrid| == |srcGrid| + 1 && axis < |dstGrid| && i < n <= Product(srcGrid)
    requires 0 <= j < dstGrid[axis]
    ensures i * dstGrid[axis] + j < |Visits(srcGrid, dstGrid, axis, n)|
    ensures Visits(srcGrid, dstGrid, axis, n)[i * dstGrid[axis] + j] == TileCall(i, DstTile(srcGrid, dstGrid, axis, i, j))
  {
    var k := dstGrid[axis];
    MulMonotone(k, i + 1, n);
    if i < n - 1 {
      VisitsAt(srcGrid, dstGrid, axis, n - 1, i, j);
      MulMonotone(k, i + 1, n - 1);
    } else {
      assert Visits(srcGrid, dstGrid, axis, n)[i * k + j] == Row(srcGrid, dstGrid, axis, i)[j];
    }
  }

  /** The tile loop: source tiles in order, and for each one the destination
      tiles along `axis` in order. When the source grid is the destination
      grid without `axis`, every destination tile receives exactly one call. */
  method BiasWork(srcGrid: seq<nat>, dstGrid: seq<nat>, axis: nat) returns (calls: seq<TileCall>)
    requires |dstGrid| == |srcGrid| + 1 && axis < |dstGrid|
    ensures |calls| == Product(srcGrid) * dstGrid[axis]
    ensures calls == Visits(srcGrid, dstGrid, axis, Product(srcGrid))
    ensures srcGrid == RemoveAxis(dstGrid, axis) ==> EachTileOnce(calls, Product(dstGrid))
  {
    var k := dstGrid[axis];
    calls := [];
    var i: nat := 0;
    while i < Product(srcGrid)
      invariant i <= Product(srcGrid)
      invariant calls == Visits(srcGrid, dstGrid, axis, i)
    {
      var j := 0;
      while j < k
        invariant 0 <= j <= k
        invariant calls == Visits(srcGrid, dstGrid, axis, i) + Row(srcGrid, dstGrid, axis, i)[..j]
      {
        calls := calls + [TileCall(i, DstTile(srcGrid, dstGrid, axis, i, j))];
        j := j + 1;
      }
      i := i + 1;
    }
    if srcGrid == RemoveAxis(dstGrid, axis) {
      BiasCoversEachTileOnce(srcGrid, dstGrid, axis);
    }
  }

  /** The destination tiles the calls reach. */
  function Reached(calls: seq<TileCall>): set<int>
  {
    set p | 0 <= p < |calls| :: calls[p].dst
  }

  /** Every number in `[0, n)` is the destination of exactly one call, and no
      call goes elsewhere. */
  ghost predicate EachTileOnce(calls: seq<TileCall>, n: int)
  {
    && |calls| == n
    && (forall p :: 0 <= p < |calls| ==> 0 <= calls[p].dst < n)
    && (forall t :: 0 <= t < n ==> t in Reached(calls))
    && (forall p, q :: 0 <= p < q < |calls| ==> calls[p].dst != calls[q].dst)
  }

  /** With matching grids the loop reaches each destination tile exactly once. */
  lemma BiasCoversEachTileOnce(srcGrid: seq<nat>, dstGrid: seq<nat>, axis: nat)
    requires axis < |dstGrid| && srcGrid == RemoveAxis(dstGrid, axis)
    ensures EachTileOnce(Visits(srcGrid, dstGrid, axis, Product(srcGrid)), Product(dstGrid))
  {
    ProductRemoveAxis(dstGrid, axis);
    VisitsInGrid(srcGrid, dstGrid, axis);
    VisitsOnto(srcGrid, dstGrid, axis);
    VisitsInjective(srcGrid, dstGrid, axis);
  }

  lemma VisitsInGrid(srcGrid: seq<nat>, dstGrid: seq<nat>, axis: nat)
    requires axis < |dstGrid| && srcGrid == RemoveAxis(dstGrid, axis)
    ensures forall p :: 0 <= p < |Visits(srcGrid, dstGrid, axis, Product(srcGrid))| ==>
      0 <= Visits(srcGrid, dstGrid, axis, Product(srcGrid))[p].dst < Product(dstGrid)
  {
    var n := Product(srcGrid);
    var calls := Visits(srcGrid, dstGrid, axis, n);
    forall p | 0 <= p < |calls|
      ensures 0 <= calls[p].dst < Product(dstGrid)
    {
      var i', j' := Decompose(n, dstGrid[axis], p);
      VisitsAt(srcGrid, dstGrid, axis, n, i', j');
      DstTileInGrid(srcGrid, dstGrid, axis, i', j');
    }
  }

  lemma ReachedAt(calls: seq<TileCall>, p: nat)
    requires p < |calls|
    ensures calls[p].dst in Reached(calls)
  {
  }

  lemma VisitsOnto(srcGrid: seq<nat>, dstGrid: seq<nat>, axis: nat)
    requires axis < |dstGrid| && srcGrid == RemoveAxis(dstGrid, axis)
    ensures forall t :: 0 <= t < Product(dstGrid) ==> t in Reached(Visits(srcGrid, dstGrid, axis, Product(srcGrid)))
  {
    var n := Product(srcGrid);
    var calls := Visits(srcGrid, dstGrid, axis, n);
    forall t | 0 <= t < Product(dstGrid)
      ensures t in Reached(calls)
    {
      var i', j' := DstTileOnto(srcGrid, dstGrid, axis, t);
      VisitsAt(srcGrid, dstGrid, axis, n, i', j');
      MulMonotone(i', 0, dstGrid[axis]);
      ReachedAt(calls, i' * dstGrid[axis] + j');
    }
  }

  lemma VisitsInjective(srcGrid: seq<nat>, dstGrid: seq<nat>, axis: nat)
    requires axis < |dstGrid| && srcGrid == RemoveAxis(dstGrid, axis)
    ensures forall p, q :: 0 <= p < q < |Visits(srcGrid, dstGrid, axis, Product(srcGrid))| ==>
      Visits(srcGrid, dstGrid, axis, Product(srcGrid))[p].dst != Visits(srcGrid, dstGrid, axis, Product(srcGrid))[q].dst
  {
    var n := Product(srcGrid);
    var k := dstGrid[axis];
    var calls := Visits(srcGrid, dstGrid, axis, n);
    forall p, q | 0 <= p < q < |calls|
      ensures calls[p].dst != calls[q].dst
    {
      var ip, jp := Decompose(n, k, p);
      var iq, jq := Decompose(n, k, q);
      VisitsAt(srcGrid, dstGrid, axis, n, ip, jp);
      VisitsAt(srcGrid, dstGrid, axis, n, iq, jq);
      if calls[p].dst == calls[q].dst {
        DstTileInjective(srcGrid, dstGrid, axis, ip, jp, iq, jq);
      }
    }
  }

  /** Position `p` of the flat loop is step `j` of source tile `i`. */
  lemma Decompose(n: nat, k: nat, p: int) returns (i: nat, j: int)
    requires 0 <= p < n * k
    ensures i < n && 0 <= j < k && p == i * k + j
  {
    i := p / k;
    j := p % k;
    DivBound(p, k, n);
  }

  /** Every visited destination index lies in the destination grid. */
  lemma DstTileInGrid(srcGrid: seq<nat>, dstGrid: seq<nat>, axis: nat, i: nat, j: int)
    requires axis < |dstGrid| && srcGrid == RemoveAxis(dstGrid, axis)
    requires i < Product(srcGrid) && 0 <= j < dstGrid[axis]
    ensures InBox(dstGrid, DstIndex(srcGrid, axis, i, j))
    ensures 0 <= DstTile(srcGrid, dstGrid, axis, i, j) < Product(dstGrid)
  {
    var idx := DstIndex(srcGrid, axis, i, j);
    assert InBox(dstGrid, idx);
    IndexToLinearInBox(dstGrid, idx);
  }

  /** Different (source tile, coordinate) pairs reach different destination tiles. */
  lemma DstTileInjective(srcGrid: seq<nat>, dstGrid: seq<nat>, axis: nat, i: nat, j: int, i': nat, j': int)
    requires axis < |dstGrid| && srcGrid == RemoveAxis(dstGrid, axis)
    requires i < Product(srcGrid) && 0 <= j < dstGrid[axis]
    requires i' < Product(srcGrid) && 0 <= j' < dstGrid[axis]
    requires DstTile(srcGrid, dstGrid, axis, i, j) == DstTile(srcGrid, dstGrid, axis, i', j')
    ensures i == i' && j == j'
  {
    var a := DstIndex(srcGrid, axis, i, j);
    var b := DstIndex(srcGrid, axis, i', j');
    DstTileInGrid(srcGrid, dstGrid, axis, i, j);
    DstTileInGrid(srcGrid, dstGrid, axis, i', j');
    IndexToLinearInjective(dstGrid, a, b);
    RemoveInsert(LinearToIndex(srcGrid, i), axis, j);
    RemoveInsert(LinearToIndex(srcGrid, i'), axis, j');
    if i != i' {
      LinearToIndexInjective(srcGrid, i, i');
    }
  }

  /** Every destination tile is reached, from the source tile whose index is
      its own index without `axis`. */
  lemma DstTileOnto(srcGrid: seq<nat>, dstGrid: seq<nat>, axis: nat, t: int) returns (i: nat, j: int)
    requires axis < |dstGrid| && srcGrid == RemoveAxis(dstGrid, axis)
    requires 0 <= t < Product(dstGrid)
    ensures i < Product(srcGrid) && 0 <= j < dstGrid[axis]
    ensures DstTile(srcGrid, dstGrid, axis, i, j) == t
    ensures i == IndexToLinear(srcGrid, RemoveAxis(LinearToIndex(dstGrid, t), axis))
  {
    var idx := LinearToIndex(dstGrid, t);
    var s := RemoveAxis(idx, axis);
    assert InBox(srcGrid, s);
    IndexToLinearInBox(srcGrid, s);
    i := IndexToLinear(srcGrid, s);
    j := idx[axis];
    InsertRemove(idx, axis);
  }
}
