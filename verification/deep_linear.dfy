/** The Python deep linear model: a chain of `nlayers` linear layers built
    by the simple generator, all on the same side and without transposition.
    The first layer contracts `ndim` axes of the input into one axis of
    extent `add`; the internal layers map that axis onto itself; the final
    layer is meant to bring the activation back to the shape of the input. */
module DeepLinear {
  import opened Outcome
  import opened Runtime
  import opened Tiles
  import opened PyList
  import opened LinearLayer

  /** One generated layer, without transposition and with both precision
      flags at their defaults: on a valid side it fails only when the traits
      of the added axes are rejected. */
  method Step(prev: Tensor, dtype: DType, side: string, ndim: int, add: seq<nat>, addTile: seq<nat>)
    returns (r: Result<Layer>)
    requires Tiled(prev) && ValidSide(side) && ndim > 0
    ensures r.Ok? <==> ValidTraits(add, addTile)
    ensures r.Err? ==> r.error == InvalidTraits
    ensures r.Ok? ==>
      && r.value.x == prev && r.value.side == side && r.value.ndim == ndim && r.value.trans == NoTrans
      && Tiled(r.value.y)
      && Derive(prev, side, NoTrans, ndim, add, addTile)
         == Derived(r.value.w.shape, r.value.w.basetile, r.value.y.shape, r.value.y.basetile)
  {
    r := Generate(prev, dtype, side, NoTrans, ndim, add, addTile);
    if r.Ok? {
      GenerateShapes(prev, dtype, side, NoTrans, ndim, add, addTile, false, false);
    }
  }

  /** A shape and base tile that end (side "L") or start (side "R") with
      the added axis. */
  predicate Carries(shape: seq<nat>, tile: seq<nat>, side: string, add: nat, addTile: nat)
  {
    && |shape| >= 1 && |tile| >= 1
    && (side == "L" ==> shape[|shape| - 1] == add && tile[|tile| - 1] == addTile)
    && (side != "L" ==> shape[0] == add && tile[0] == addTile)
  }

  /** The first layer contracts `ndim` axes of the input into the added
      axis, which its output carries. */
  lemma FirstStepShape(x: Tensor, side: string, ndim: int, add: nat, addTile: nat)
    requires Tiled(x) && ValidSide(side) && ndim > 0
    ensures var d := Derive(x, side, NoTrans, ndim, [add], [addTile]);
      && Carries(d.yShape, d.yTile, side, add, addTile)
      && (side == "L" ==> d.yShape == Head(x.shape, -ndim) + [add] && d.yTile == Head(x.basetile, -ndim) + [addTile])
      && (side == "R" ==> d.yShape == [add] + Tail(x.shape, ndim) && d.yTile == [addTile] + Tail(x.basetile, ndim))
  {
  }

  /** An internal layer contracts the added axis and adds it back: an
      activation that carries it keeps its shape and base tile. */
  lemma InternalStepKeepsShape(t: Tensor, side: string, add: nat, addTile: nat)
    requires Tiled(t) && ValidSide(side) && Carries(t.shape, t.basetile, side, add, addTile)
    ensures var d := Derive(t, side, NoTrans, 1, [add], [addTile]);
      d.yShape == t.shape && d.yTile == t.basetile
  {
    var n := |t.shape|;
    if side == "L" {
      assert t.shape[..n - 1] + [add] == t.shape;
      assert t.basetile[..n - 1] + [addTile] == t.basetile;
    } else {
      assert [add] + t.shape[1..] == t.shape;
      assert [addTile] + t.basetile[1..] == t.basetile;
    }
  }

  /** The output shape of the chain: what the first layer leaves of the
      input, followed (side "L") or preceded (side "R") by the axes `last`
      that the final layer adds. */
  function Output(x: seq<nat>, side: string, ndim: int, last: seq<nat>): seq<nat>
  {
    if side == "L" then Head(x, -ndim) + last else last + Tail(x, ndim)
  }

  /** The final layer replaces the added axis carried by its input with `last`. */
  lemma FinalStepShape(prev: Tensor, x: Tensor, side: string, ndim: int, add: nat, addTile: nat,
                       last: seq<nat>, lastTile: seq<nat>)
    requires Tiled(prev) && ValidSide(side)
    requires side == "L" ==> prev.shape == Head(x.shape, -ndim) + [add]
    requires side == "L" ==> prev.basetile == Head(x.basetile, -ndim) + [addTile]
    requires side == "R" ==> prev.shape == [add] + Tail(x.shape, ndim)
    requires side == "R" ==> prev.basetile == [addTile] + Tail(x.basetile, ndim)
    ensures var d := Derive(prev, side, NoTrans, 1, last, lastTile);
      d.yShape == Output(x.shape, side, ndim, last) && d.yTile == Output(x.basetile, side, ndim, lastTile)
  {
    if side == "L" {
      assert Head(prev.shape, -1) == Head(x.shape, -ndim);
      assert Head(prev.basetile, -1) == Head(x.basetile, -ndim);
    } else {
      assert Tail(prev.shape, 1) == Tail(x.shape, ndim);
      assert Tail(prev.basetile, 1) == Tail(x.basetile, ndim);
    }
  }

  /** The checks of `DeepLinear.__init__`, in order. */
  function Validate(side: string, ndim: int, nlayers: int): (e: Option<Error>)
    ensures e == None <==> ValidSide(side) && nlayers >= 2 && ndim > 0
    ensures !ValidSide(side) ==> e == Some(ValueError("side must be either 'L' or 'R'"))
    ensures ValidSide(side) && nlayers < 2 ==> e == Some(ValueError("nlayers must be at least 2"))
    ensures ValidSide(side) && nlayers >= 2 && ndim <= 0 ==> e == Some(ValueError("ndim must be positive integer"))
  {
    if !ValidSide(side) then Some(ValueError("side must be either 'L' or 'R'"))
    else if nlayers < 2 then Some(ValueError("nlayers must be at least 2"))
    else if ndim <= 0 then Some(ValueError("ndim must be positive integer"))
    else None
  }

  /** Layers reading each other's output in turn, all on one side and
      without transposition. */
  predicate Chained(layers: seq<Layer>, side: string)
  {
    && (forall i :: 0 <= i < |layers| ==> layers[i].trans == NoTrans && layers[i].side == side)
    && (forall i :: 0 < i < |layers| ==> layers[i].ndim == 1 && layers[i].x == layers[i - 1].y)
  }

  /** Appending a layer that reads the last output keeps the chain. */
  lemma ChainedSnoc(layers: seq<Layer>, l: Layer, side: string)
    requires |layers| > 0 && Chained(layers, side)
    requires l.trans == NoTrans && l.side == side && l.ndim == 1 && l.x == layers[|layers| - 1].y
    ensures Chained(layers + [l], side)
  {
  }

  /** The first layer followed by the internal ones: `nlayers - 1` layers
      in all, each internal layer reading the previous output and producing
      the same internal shape and base tile as the first. */
  method Internal(first: Layer, dtype: DType, side: string, add: nat, addTile: nat, nlayers: int)
    returns (layers: seq<Layer>)
    requires ValidSide(side) && addTile > 0 && nlayers >= 2 && Tiled(first.y)
    requires first.trans == NoTrans && first.side == side
    requires Carries(first.y.shape, first.y.basetile, side, add, addTile)
    ensures |layers| == nlayers - 1 && layers[0] == first && Chained(layers, side)
    ensures Tiled(layers[|layers| - 1].y)
    ensures forall i :: 0 <= i < |layers| ==>
      layers[i].y.shape == first.y.shape && layers[i].y.basetile == first.y.basetile
  {
    layers := [first];
    while |layers| < nlayers - 1
      invariant 1 <= |layers| <= nlayers - 1
      invariant layers[0] == first && Chained(layers, side)
      invariant Tiled(layers[|layers| - 1].y)
      invariant forall i :: 0 <= i < |layers| ==>
        layers[i].y.shape == first.y.shape && layers[i].y.basetile == first.y.basetile
      decreases nlayers - |layers|
    {
      var t := layers[|layers| - 1].y;
      InternalStepKeepsShape(t, side, add, addTile);
      var l := Step(t, dtype, side, 1, [add], [addTile]);
      ChainedSnoc(layers, l.value, side);
      layers := layers + [l.value];
    }
  }

  /** The chain, with the final layer adding the axes `last` (base tile
      `lastTile`): every layer reads the previous one's output, the first
      and internal layers output the internal shape
      `Output(x.shape, side, ndim, [add])`, and the chain's output has the
      shape `Output(x.shape, side, ndim, last)`. After the checks, the
      first layer fails on a base tile of 0 and the final layer on an
      invalid `last`/`lastTile` pair. */
  method Build(x: Tensor, dtype: DType, side: string, ndim: int, add: nat, addTile: nat, nlayers: int,
               last: seq<nat>, lastTile: seq<nat>) returns (r: Result<seq<Layer>>)
    requires Tiled(x)
    ensures r.Err? <==> Validate(side, ndim, nlayers).Some? || addTile == 0 || !ValidTraits(last, lastTile)
    ensures Validate(side, ndim, nlayers).Some? ==> r == Err(Validate(side, ndim, nlayers).value)
    ensures Validate(side, ndim, nlayers).None? && (addTile == 0 || !ValidTraits(last, lastTile))
      ==> r == Err(InvalidTraits)
    ensures r.Ok? ==> |r.value| == nlayers && r.value[0].x == x && r.value[0].ndim == ndim && Chained(r.value, side)
    ensures r.Ok? ==> forall i :: 0 <= i < nlayers - 1 ==>
      && r.value[i].y.shape == Output(x.shape, side, ndim, [add])
      && r.value[i].y.basetile == Output(x.basetile, side, ndim, [addTile])
    ensures r.Ok? ==>
      && r.value[nlayers - 1].y.shape == Output(x.shape, side, ndim, last)
      && r.value[nlayers - 1].y.basetile == Output(x.basetile, side, ndim, lastTile)
  {
    var e := Validate(side, ndim, nlayers);
    if e.Some? {
      return Err(e.value);
    }
    var first := Step(x, dtype, side, ndim, [add], [addTile]);
    if first.Err? {
      return Err(first.error);
    }
    FirstStepShape(x, side, ndim, add, addTile);
    var layers := Internal(first.value, dtype, side, add, addTile, nlayers);
    var prev := layers[|layers| - 1].y;
    var final := Step(prev, dtype, side, 1, last, lastTile);
    if final.Err? {
      return Err(final.error);
    }
    FinalStepShape(prev, x, side, ndim, add, addTile, last, lastTile);
    ChainedSnoc(layers, final.value, side);
    layers := layers + [final.value];
    r := Ok(layers);
  }

  /** The axes the final layer adds as written: `x.shape[:ndim]` on side "L"
      and `x.shape[-ndim:]` on side "R". */
  function AsWrittenLast(x: seq<nat>, side: string, ndim: int): seq<nat>
  {
    if side == "L" then Head(x, ndim) else Tail(x, -ndim)
  }

  /** The axes the first layer contracted: `x.shape[-ndim:]` on side "L"
      and `x.shape[:ndim]` on side "R". */
  function CorrectedLast(x: seq<nat>, side: string, ndim: int): seq<nat>
  {
    if side == "L" then Tail(x, -ndim) else Head(x, ndim)
  }

  /** Adding back the contracted axes restores the input shape. */
  lemma CorrectedRestoresInput(x: seq<nat>, side: string, ndim: int)
    ensures Output(x, side, ndim, CorrectedLast(x, side, ndim)) == x
  {
    Split(x, -ndim);
    Split(x, ndim);
  }

  /** As written, the chain gives back the input shape exactly when the axes
      it adds happen to be the ones the first layer contracted. */
  lemma AsWrittenRestoresOnlyWhen(x: seq<nat>, side: string, ndim: int)
    ensures Output(x, side, ndim, AsWrittenLast(x, side, ndim)) == x
      <==> AsWrittenLast(x, side, ndim) == CorrectedLast(x, side, ndim)
  {
    CorrectedRestoresInput(x, side, ndim);
    var a := AsWrittenLast(x, side, ndim);
    var c := CorrectedLast(x, side, ndim);
    if side == "L" {
      var h := Head(x, -ndim);
      assert Output(x, side, ndim, a) == h + a && h + c == x;
      if h + a == x {
        assert a == (h + a)[|h|..] == (h + c)[|h|..] == c;
      }
    } else {
      var t := Tail(x, ndim);
      assert Output(x, side, ndim, a) == a + t && c + t == x;
      if a + t == x {
        assert |a| == |c|;
        assert a == (a + t)[..|a|] == (c + t)[..|c|] == c;
      }
    }
  }

  /** As written, a `[2, 3]` input with `ndim == 1` on side "L" comes out
      with shape `[2, 2]`. */
  lemma AsWrittenLosesInputShape()
    ensures Output([2, 3], "L", 1, AsWrittenLast([2, 3], "L", 1)) == [2, 2]
  {
    assert Head([2, 3], -1) == [2];
    assert Head([2, 3], 1) == [2];
  }

  /** `DeepLinear.__init__` as written. */
  method AsWritten(x: Tensor, dtype: DType, side: string, ndim: int, add: nat, addTile: nat, nlayers: int)
    returns (r: Result<seq<Layer>>)
    requires Tiled(x)
    ensures r.Ok? <==> ValidSide(side) && nlayers >= 2 && ndim > 0 && addTile > 0
    ensures Validate(side, ndim, nlayers).Some? ==> r == Err(Validate(side, ndim, nlayers).value)
    ensures Validate(side, ndim, nlayers).None? && addTile == 0 ==> r == Err(InvalidTraits)
    ensures r.Ok? ==> |r.value| == nlayers && r.value[0].x == x
    ensures r.Ok? ==> r.value[nlayers - 1].y.shape == Output(x.shape, side, ndim, AsWrittenLast(x.shape, side, ndim))
  {
    SameLength(x.shape, x.basetile, ndim);
    SameLength(x.shape, x.basetile, -ndim);
    PositiveSlices(x.basetile, ndim);
    PositiveSlices(x.basetile, -ndim);
    r := Build(x, dtype, side, ndim, add, addTile, nlayers,
               AsWrittenLast(x.shape, side, ndim), AsWrittenLast(x.basetile, side, ndim));
  }

  /** `DeepLinear.__init__` with the final layer adding the contracted axes
      back: the model's output has the input's shape and base tile. */
  method Corrected(x: Tensor, dtype: DType, side: string, ndim: int, add: nat, addTile: nat, nlayers: int)
    returns (r: Result<seq<Layer>>)
    requires Tiled(x)
    ensures r.Ok? <==> ValidSide(side) && nlayers >= 2 && ndim > 0 && addTile > 0
    ensures Validate(side, ndim, nlayers).Some? ==> r == Err(Validate(side, ndim, nlayers).value)
    ensures Validate(side, ndim, nlayers).None? && addTile == 0 ==> r == Err(InvalidTraits)
    ensures r.Ok? ==> |r.value| == nlayers && r.value[0].x == x
    ensures r.Ok? ==> r.value[nlayers - 1].y.shape == x.shape && r.value[nlayers - 1].y.basetile == x.basetile
  {
    SameLength(x.shape, x.basetile, ndim);
    SameLength(x.shape, x.basetile, -ndim);
    PositiveSlices(x.basetile, ndim);
    PositiveSlices(x.basetile, -ndim);
    CorrectedRestoresInput(x.shape, side, ndim);
    CorrectedRestoresInput(x.basetile, side, ndim);
    r := Build(x, dtype, side, ndim, add, addTile, nlayers,
               CorrectedLast(x.shape, side, ndim), CorrectedLast(x.basetile, side, ndim));
  }
}
