/** The Python linear layer: constructor validation, and the simple
    generator that derives the shapes of the weight `W` and the output `Y`
    from the input `X`, places every tile on rank 0, and normalises the two
    half-precision flags.

    The layer computes `Y = op(X) W` (side "L") or `Y = W op(X)` (any other
    side in the generator), contracting `ndim` axes. */
module LinearLayer {
  import opened Outcome
  import opened Runtime
  import opened Shapes
  import opened Tiles
  import opened PyList

  datatype TransOp = NoTrans | Trans

  /** A linear layer: its side, the transposition of `X`, the number of
      contracted axes, its three tensors and its two precision flags. */
  datatype Layer = Layer(side: string, trans: TransOp, ndim: int, x: Tensor, y: Tensor, w: Tensor,
                         fastFp16: bool, convertFp16: bool)

  predicate ValidSide(side: string)
  {
    side == "L" || side == "R"
  }

  /** `Linear.__init__`: the side is checked first, then `ndim`. */
  function New(side: string, trans: TransOp, x: Tensor, y: Tensor, w: Tensor, ndim: int,
               fastFp16: bool := false, convertFp16: bool := false): (r: Result<Layer>)
    ensures r.Ok? <==> ValidSide(side) && ndim > 0
    ensures !ValidSide(side) ==> r == Err(ValueError("side must be either 'L' or 'R'"))
    ensures ValidSide(side) && ndim <= 0 ==> r == Err(ValueError("ndim must be positive integer"))
    ensures r.Ok? ==> r.value.x == x && r.value.y == y && r.value.w == w && r.value.ndim == ndim
  {
    if !ValidSide(side) then Err(ValueError("side must be either 'L' or 'R'"))
    else if ndim <= 0 then Err(ValueError("ndim must be positive integer"))
    else Ok(Layer(side, trans, ndim, x, y, w, fastFp16, convertFp16))
  }

  predicate Positive(s: seq<nat>)
  {
    forall k :: 0 <= k < |s| ==> s[k] > 0
  }

  /** What `TensorTraits(shape, basetile)` accepts: one base tile extent
      per axis, each positive. */
  predicate ValidTraits(shape: seq<nat>, tile: seq<nat>)
  {
    |shape| == |tile| && Positive(tile)
  }

  /** A concatenation is positive exactly when both parts are. */
  lemma PositiveConcat(a: seq<nat>, b: seq<nat>)
    ensures Positive(a + b) <==> Positive(a) && Positive(b)
  {
    if Positive(a + b) {
      forall k | 0 <= k < |a| ensures a[k] > 0 {
        assert a[k] == (a + b)[k];
      }
      forall k | 0 <= k < |b| ensures b[k] > 0 {
        assert b[k] == (a + b)[|a| + k];
      }
    }
  }

  /** Shapes and base tiles of `W` and `Y`. */
  datatype Derived = Derived(wShape: seq<nat>, wTile: seq<nat>, yShape: seq<nat>, yTile: seq<nat>)

  /** The shape derivation of `generate_simple_mpiroot`. The generator does
      not check `side`: anything but "L" takes the "R" branch. */
  function Derive(x: Tensor, side: string, trans: TransOp, ndim: int, add: seq<nat>, addTile: seq<nat>): (d: Derived)
    requires Tiled(x)
  {
    if side == "L" then
      if trans == NoTrans then
        Derived(Tail(x.shape, -ndim) + add, Tail(x.basetile, -ndim) + addTile,
                Head(x.shape, -ndim) + add, Head(x.basetile, -ndim) + addTile)
      else
        Derived(Head(x.shape, ndim) + add, Head(x.basetile, ndim) + addTile,
                Tail(x.shape, ndim) + add, Tail(x.basetile, ndim) + addTile)
    else
      if trans == NoTrans then
        Derived(add + Head(x.shape, ndim), addTile + Head(x.basetile, ndim),
                add + Tail(x.shape, ndim), addTile + Tail(x.basetile, ndim))
      else
        Derived(add + Tail(x.shape, -ndim), addTile + Tail(x.basetile, -ndim),
                add + Head(x.shape, -ndim), addTile + Head(x.basetile, -ndim))
  }

  /** The traits of `W` and `Y` are valid exactly when those of the added
      axes are: the axes taken from `X` always fit their base tiles. */
  lemma DeriveTraits(x: Tensor, side: string, trans: TransOp, ndim: int, add: seq<nat>, addTile: seq<nat>)
    requires Tiled(x)
    ensures var d := Derive(x, side, trans, ndim, add, addTile);
      && (ValidTraits(d.wShape, d.wTile) <==> ValidTraits(add, addTile))
      && (ValidTraits(d.yShape, d.yTile) <==> ValidTraits(add, addTile))
  {
    var b := x.basetile;
    SameLength(x.shape, b, ndim);
    SameLength(x.shape, b, -ndim);
    PositiveSlices(b, ndim);
    PositiveSlices(b, -ndim);
    if side == "L" {
      if trans == NoTrans {
        PositiveConcat(Tail(b, -ndim), addTile);
        PositiveConcat(Head(b, -ndim), addTile);
      } else {
        PositiveConcat(Head(b, ndim), addTile);
        PositiveConcat(Tail(b, ndim), addTile);
      }
    } else {
      if trans == NoTrans {
        PositiveConcat(addTile, Head(b, ndim));
        PositiveConcat(addTile, Tail(b, ndim));
      } else {
        PositiveConcat(addTile, Tail(b, -ndim));
        PositiveConcat(addTile, Head(b, -ndim));
      }
    }
  }

  /** Both slices of a positive list are positive. */
  lemma PositiveSlices(s: seq<nat>, k: int)
    requires Positive(s)
    ensures Positive(Head(s, k)) && Positive(Tail(s, k))
  {
    Split(s, k);
    PositiveConcat(Head(s, k), Tail(s, k));
  }

  /** The shape contract of `gemm` contracting `ndim` axes,
      `C[i, k] = sum_j A[i, j] B[j, k]`: `A = i + j`, `B = j + k`, `C = i + k`. */
  predicate GemmShapes(a: seq<nat>, b: seq<nat>, c: seq<nat>, ndim: nat)
  {
    ndim <= |a| && ndim <= |b| && a[|a| - ndim..] == b[..ndim] && c == a[..|a| - ndim] + b[ndim..]
  }

  /** The shape of `op(X)` as the forward pass hands it to `gemm`: `X`
      itself, or, transposed, `X` with its contracted group moved to the
      other end (stored as `j + i` on side "L" and as `k + j` on side "R"). */
  function OpX(x: seq<nat>, side: string, trans: TransOp, ndim: nat): seq<nat>
    requires ndim <= |x|
  {
    if trans == NoTrans then x
    else if side == "L" then x[ndim..] + x[..ndim]
    else x[|x| - ndim..] + x[..|x| - ndim]
  }

  /** The derived shapes and base tiles are exactly those for which the
      forward pass is a well-shaped product: `Y = op(X) W` on side "L" and
      `Y = W op(X)` on side "R", contracting `ndim` axes. */
  lemma DeriveFitsGemm(x: Tensor, side: string, trans: TransOp, ndim: int, add: seq<nat>, addTile: seq<nat>)
    requires Tiled(x) && |add| == |addTile| && Positive(addTile)
    requires ValidSide(side) && 1 <= ndim <= |x.shape|
    ensures var d := Derive(x, side, trans, ndim, add, addTile);
      && (side == "L" ==> GemmShapes(OpX(x.shape, side, trans, ndim), d.wShape, d.yShape, ndim))
      && (side == "L" ==> GemmShapes(OpX(x.basetile, side, trans, ndim), d.wTile, d.yTile, ndim))
      && (side == "R" ==> GemmShapes(d.wShape, OpX(x.shape, side, trans, ndim), d.yShape, ndim))
      && (side == "R" ==> GemmShapes(d.wTile, OpX(x.basetile, side, trans, ndim), d.yTile, ndim))
  {
    var d := Derive(x, side, trans, ndim, add, addTile);
    var n := |x.shape|;
    if side == "L" {
      var o := OpX(x.shape, side, trans, ndim);
      var ot := OpX(x.basetile, side, trans, ndim);
      assert |o| == n && |ot| == n;
      if trans == NoTrans {
        assert o[n - ndim..] == x.shape[n - ndim..];
        assert ot[n - ndim..] == x.basetile[n - ndim..];
      } else {
        assert o[n - ndim..] == x.shape[..ndim] && o[..n - ndim] == x.shape[ndim..];
        assert ot[n - ndim..] == x.basetile[..ndim] && ot[..n - ndim] == x.basetile[ndim..];
      }
      assert (d.wShape)[..ndim] == o[n - ndim..];
      assert (d.wTile)[..ndim] == ot[n - ndim..];
      assert (d.wShape)[ndim..] == add && (d.wTile)[ndim..] == addTile;
    } else {
      var o := OpX(x.shape, side, trans, ndim);
      var ot := OpX(x.basetile, side, trans, ndim);
      var m := |add|;
      if trans == NoTrans {
        assert o[..ndim] == x.shape[..ndim] && o[ndim..] == x.shape[ndim..];
        assert ot[..ndim] == x.basetile[..ndim] && ot[ndim..] == x.basetile[ndim..];
      } else {
        assert o[..ndim] == x.shape[n - ndim..] && o[ndim..] == x.shape[..n - ndim];
        assert ot[..ndim] == x.basetile[n - ndim..] && ot[ndim..] == x.basetile[..n - ndim];
      }
      assert |d.wShape| == m + ndim && |d.wTile| == m + ndim;
      assert (d.wShape)[m..] == o[..ndim] && (d.wShape)[..m] == add;
      assert (d.wTile)[m..] == ot[..ndim] && (d.wTile)[..m] == addTile;
    }
  }

  /** The flags as the generator leaves them: both off unless `X` holds
      fp32 values, and the conversion flag off when the fast flag is on. */
  function NormalizeFlags(dtype: DType, fastFp16: bool, convertFp16: bool): (f: (bool, bool))
    ensures !(f.0 && f.1)
    ensures f.0 <==> dtype == Fp32 && fastFp16
    ensures f.1 <==> dtype == Fp32 && convertFp16 && !fastFp16
  {
    var (fast, convert) := if dtype != Fp32 then (false, false) else (fastFp16, convertFp16);
    (fast, if fast then false else convert)
  }

  /** A tensor with every tile on rank 0. */
  function OnRankZero(shape: seq<nat>, tile: seq<nat>): (t: Tensor)
    requires |shape| == |tile| && Positive(tile)
    ensures Tiled(t) && t.shape == shape && t.basetile == tile
  {
    var t0 := Tensor("", shape, tile, []);
    Tensor("", shape, tile, seq(Product(Grid(t0)), _ => 0))
  }

  /** Its distribution lists one rank per tile of the grid, and every one is 0. */
  lemma OnRankZeroDistribution(shape: seq<nat>, tile: seq<nat>)
    requires |shape| == |tile| && Positive(tile)
    ensures var t := OnRankZero(shape, tile);
      Valid(t) && forall i :: 0 <= i < |t.ranks| ==> t.ranks[i] == 0
  {
  }

  /** `generate_simple_mpiroot`: derive the shapes, build the traits of `W`
      and `Y` (which rejects an invalid added shape and base tile before
      anything else is checked), put both on rank 0, normalise the flags;
      the half-precision branch refers to names that do not exist and
      raises `NameError`; otherwise the constructor validates `side` and
      `ndim`. */
  function Generate(x: Tensor, dtype: DType, side: string, trans: TransOp, ndim: int,
                    add: seq<nat>, addTile: seq<nat>,
                    fastFp16: bool := false, convertFp16: bool := false): (r: Result<Layer>)
    requires Tiled(x)
    ensures !ValidTraits(add, addTile) ==> r == Err(InvalidTraits)
    ensures ValidTraits(add, addTile) && dtype == Fp32 && convertFp16 && !fastFp16
      ==> r == Err(NameError("name 'Tensor_fp16' is not defined"))
    ensures ValidTraits(add, addTile) && !(dtype == Fp32 && convertFp16 && !fastFp16) && !ValidSide(side)
      ==> r == Err(ValueError("side must be either 'L' or 'R'"))
    ensures ValidTraits(add, addTile) && !(dtype == Fp32 && convertFp16 && !fastFp16) && ValidSide(side) && ndim <= 0
      ==> r == Err(ValueError("ndim must be positive integer"))
    ensures r.Ok? <==> ValidTraits(add, addTile) && ValidSide(side) && ndim > 0 && !(dtype == Fp32 && convertFp16 && !fastFp16)
    ensures r.Ok? ==>
      && r.value.x == x && r.value.side == side && r.value.trans == trans && r.value.ndim == ndim
      && Tiled(r.value.w) && Tiled(r.value.y)
      && !(r.value.fastFp16 && r.value.convertFp16)
      && (r.value.fastFp16 <==> dtype == Fp32 && fastFp16)
  {
    var d := Derive(x, side, trans, ndim, add, addTile);
    DeriveTraits(x, side, trans, ndim, add, addTile);
    if !ValidTraits(d.wShape, d.wTile) || !ValidTraits(d.yShape, d.yTile) then Err(InvalidTraits)
    else
    var w := OnRankZero(d.wShape, d.wTile);
    var y := OnRankZero(d.yShape, d.yTile);
    var (fast, convert) := NormalizeFlags(dtype, fastFp16, convertFp16);
    if convert then Err(NameError("name 'Tensor_fp16' is not defined"))
    else New(side, trans, x, y, w, ndim, fast)
  }

  /** The shapes and base tiles of `W` and `Y` are the derived ones. */
  lemma GenerateShapes(x: Tensor, dtype: DType, side: string, trans: TransOp, ndim: int,
                       add: seq<nat>, addTile: seq<nat>, fastFp16: bool, convertFp16: bool)
    requires Tiled(x)
    requires Generate(x, dtype, side, trans, ndim, add, addTile, fastFp16, convertFp16).Ok?
    ensures var l := Generate(x, dtype, side, trans, ndim, add, addTile, fastFp16, convertFp16).value;
      Derive(x, side, trans, ndim, add, addTile) == Derived(l.w.shape, l.w.basetile, l.y.shape, l.y.basetile)
  {
  }

  /** `W` and its gradient, `Y` and its gradient are distributed by a list of
      zeros with one entry per tile: every tile lives on rank 0. */
  lemma GenerateOnRankZero(x: Tensor, dtype: DType, side: string, trans: TransOp, ndim: int,
                           add: seq<nat>, addTile: seq<nat>, fastFp16: bool, convertFp16: bool)
    requires Tiled(x)
    requires Generate(x, dtype, side, trans, ndim, add, addTile, fastFp16, convertFp16).Ok?
    ensures var l := Generate(x, dtype, side, trans, ndim, add, addTile, fastFp16, convertFp16).value;
      && Valid(l.w) && (forall i :: 0 <= i < |l.w.ranks| ==> l.w.ranks[i] == 0)
      && Valid(l.y) && (forall i :: 0 <= i < |l.y.ranks| ==> l.y.ranks[i] == 0)
  {
    var d := Derive(x, side, trans, ndim, add, addTile);
    DeriveTraits(x, side, trans, ndim, add, addTile);
    OnRankZeroDistribution(d.wShape, d.wTile);
    OnRankZeroDistribution(d.yShape, d.yTile);
  }
}
