/** Shapes, multi-indices and the first-axis-fastest layout shared by tiles
    and grids.

    A tile of shape `s` stores element `idx` at offset
    `idx[0] + s[0]*(idx[1] + s[1]*(idx[2] + ...))`, so its stride along axis `k`
    is the product of the extents of the axes before `k`. A grid of tiles uses
    the same rule to number its tiles (`index_to_linear`), and the inverse rule
    (`linear_to_index`) is the odometer that counts with axis 0 fastest. */
module Shapes {

  /** Number of elements of a box with extents `s`; the empty box (a scalar) has one. */
  function Product(s: seq<nat>): nat
  {
    if |s| == 0 then 1 else s[0] * Product(s[1..])
  }

  /** `idx` is a valid multi-index of a box with extents `shape`. */
  predicate InBox(shape: seq<nat>, idx: seq<int>)
  {
    |idx| == |shape| && forall k :: 0 <= k < |idx| ==> 0 <= idx[k] < shape[k]
  }

  /** Tile number (or element offset) of a multi-index, axis 0 fastest. */
  function IndexToLinear(shape: seq<nat>, idx: seq<int>): int
    requires |idx| == |shape|
  {
    if |shape| == 0 then 0 else idx[0] + shape[0] * IndexToLinear(shape[1..], idx[1..])
  }

  /** Multi-index of the `i`-th tile (or element), axis 0 fastest: the inverse
      of `IndexToLinear` on `[0, Product(shape))`. */
  function LinearToIndex(shape: seq<nat>, i: nat): (idx: seq<nat>)
    requires i < Product(shape)
    ensures InBox(shape, idx)
    ensures IndexToLinear(shape, idx) == i
  {
    if |shape| == 0 then []
    else
      DivBound(i, shape[0], Product(shape[1..]));
      [i % shape[0]] + LinearToIndex(shape[1..], i / shape[0])
  }

  /** Inner product of two vectors of equal length (offset of an index under strides). */
  function Dot(a: seq<int>, b: seq<int>): int
    requires |a| == |b|
  {
    if |a| == 0 then 0 else a[0] * b[0] + Dot(a[1..], b[1..])
  }

  /** Contiguous strides of a tile: the stride of axis `k` is the number of
      elements in one slab of the axes before it. */
  function Strides(shape: seq<nat>): (st: seq<nat>)
    ensures |st| == |shape|
  {
    seq(|shape|, k requires 0 <= k < |shape| => Product(shape[..k]))
  }

  /** Elementwise sum of a start index and a relative index. */
  function Shift(start: seq<int>, r: seq<int>): (s: seq<int>)
    requires |start| == |r|
    ensures |s| == |start|
  {
    seq(|start|, k requires 0 <= k < |start| => start[k] + r[k])
  }

  /** The shape (or index) with axis `axis` dropped. */
  function RemoveAxis<T>(s: seq<T>, axis: nat): (r: seq<T>)
    requires axis < |s|
    ensures |r| == |s| - 1
    ensures forall k :: 0 <= k < axis ==> r[k] == s[k]
    ensures forall k :: axis <= k < |r| ==> r[k] == s[k + 1]
  {
    s[..axis] + s[axis + 1..]
  }

  /** The index with value `v` inserted as a new axis at position `axis`. */
  function InsertAxis<T>(s: seq<T>, axis: nat, v: T): (r: seq<T>)
    requires axis <= |s|
    ensures |r| == |s| + 1 && r[axis] == v
    ensures forall k :: 0 <= k < axis ==> r[k] == s[k]
    ensures forall k :: axis < k < |r| ==> r[k] == s[k - 1]
  {
    s[..axis] + [v] + s[axis..]
  }

  /** Dropping an axis and inserting its value back restores the index. */
  lemma InsertRemove<T>(s: seq<T>, axis: nat)
    requires axis < |s|
    ensures InsertAxis(RemoveAxis(s, axis), axis, s[axis]) == s
  {
  }

  /** Inserting an axis and dropping it again restores the index. */
  lemma RemoveInsert<T>(s: seq<T>, axis: nat, v: T)
    requires axis <= |s|
    ensures RemoveAxis(InsertAxis(s, axis, v), axis) == s
  {
  }

  // ---------------------------------------------------------------------
  // Arithmetic helpers
  // ---------------------------------------------------------------------

  lemma DivBound(i: int, a: int, b: int)
    requires a > 0 && 0 <= i < a * b
    ensures 0 <= i / a < b
  {
    if i / a >= b {
      MulMonotone(a, b, i / a);
      assert false;
    }
  }

  lemma MulMonotone(a: int, b: int, c: int)
    requires a >= 0 && b <= c
    ensures a * b <= a * c
  {
  }

  /** Division and remainder are determined by any decomposition `x == a*q + r`. */
  lemma DivModUnique(x: int, a: int, q: int, r: int)
    requires a > 0 && 0 <= r < a && x == a * q + r
    ensures x / a == q && x % a == r
  {
    var q', r' := x / a, x % a;
    if q' < q {
      MulMonotone(a, q' + 1, q);
      assert false;
    } else if q < q' {
      MulMonotone(a, q + 1, q');
      assert false;
    }
  }

  // ---------------------------------------------------------------------
  // Products
  // ---------------------------------------------------------------------

  lemma {:induction false} ProductConcat(a: seq<nat>, b: seq<nat>)
    ensures Product(a + b) == Product(a) * Product(b)
  {
    if |a| == 0 {
      assert a + b == b;
    } else {
      assert (a + b)[1..] == a[1..] + b;
      ProductConcat(a[1..], b);
    }
  }

  /** Growing a prefix by one axis multiplies its element count by that extent. */
  lemma ProductPrefixStep(s: seq<nat>, i: nat)
    requires i < |s|
    ensures Product(s[..i + 1]) == Product(s[..i]) * s[i]
  {
    assert s[..i + 1] == s[..i] + [s[i]];
    ProductConcat(s[..i], [s[i]]);
  }

  /** Splitting the axes at `i`: rows times columns of the matrix view. */
  lemma ProductSplit(s: seq<nat>, i: nat)
    requires i <= |s|
    ensures Product(s[..i]) * Product(s[i..]) == Product(s)
  {
    assert s == s[..i] + s[i..];
    ProductConcat(s[..i], s[i..]);
  }

  /** The `(m, k, n)` view around one axis covers the whole tile. */
  lemma ProductAroundAxis(s: seq<nat>, axis: nat)
    requires axis < |s|
    ensures Product(s[..axis]) * s[axis] * Product(s[axis + 1..]) == Product(s)
  {
    var rows := Product(s[..axis]);
    var cols := Product(s[axis + 1..]);
    ProductSplit(s, axis);
    assert s[axis..][1..] == s[axis + 1..];
    assert Product(s[axis..]) == s[axis] * cols;
    MulAssoc(rows, s[axis], cols);
  }

  lemma MulSucc(a: int, b: int)
    ensures a * (b + 1) == a * b + a
  {
  }

  lemma MulSwapLast(a: int, b: int, c: int)
    ensures a * b * c == a * c * b
  {
  }

  lemma MulAssoc(a: int, b: int, c: int)
    ensures a * b * c == a * (b * c)
  {
  }

  lemma {:induction false} ProductRemoveAxis(s: seq<nat>, axis: nat)
    requires axis < |s|
    ensures Product(RemoveAxis(s, axis)) * s[axis] == Product(s)
  {
    var rows, cols := Product(s[..axis]), Product(s[axis + 1..]);
    assert RemoveAxis(s, axis) == s[..axis] + s[axis + 1..];
    ProductConcat(s[..axis], s[axis + 1..]);
    assert Product(RemoveAxis(s, axis)) == rows * cols;
    ProductAroundAxis(s, axis);
    MulSwapLast(rows, s[axis], cols);
  }

  lemma {:induction false} ProductPositive(s: seq<nat>)
    requires forall k :: 0 <= k < |s| ==> s[k] > 0
    ensures Product(s) > 0
  {
    if |s| > 0 {
      ProductPositive(s[1..]);
    }
  }

  // ---------------------------------------------------------------------
  // The grid bijection
  // ---------------------------------------------------------------------

  /** Every in-box multi-index has a number in range, and numbering it and
      decoding the number gives the multi-index back. Together with the
      contract of `LinearToIndex` this makes the two maps mutually inverse. */
  lemma {:induction false} IndexToLinearInBox(shape: seq<nat>, idx: seq<int>)
    requires InBox(shape, idx)
    ensures 0 <= IndexToLinear(shape, idx) < Product(shape)
    ensures LinearToIndex(shape, IndexToLinear(shape, idx)) == idx
  {
    if |shape| > 0 {
      var s0, rest := shape[0], shape[1..];
      assert InBox(rest, idx[1..]);
      IndexToLinearInBox(rest, idx[1..]);
      var r := IndexToLinear(rest, idx[1..]);
      var x := IndexToLinear(shape, idx);
      assert x == idx[0] + s0 * r;
      MulMonotone(s0, r + 1, Product(rest));
      assert x < s0 * (r + 1);
      DivModUnique(x, s0, r, idx[0]);
      assert LinearToIndex(shape, x) == [idx[0]] + LinearToIndex(rest, r);
      assert [idx[0]] + idx[1..] == idx;
    }
  }

  /** The number of an in-box multi-index is in range. */
  lemma IndexToLinearBound(shape: seq<nat>, idx: seq<int>)
    requires InBox(shape, idx)
    ensures 0 <= IndexToLinear(shape, idx) < Product(shape)
  {
    IndexToLinearInBox(shape, idx);
  }

  /** Distinct in-box multi-indices have distinct numbers. */
  lemma IndexToLinearInjective(shape: seq<nat>, a: seq<int>, b: seq<int>)
    requires InBox(shape, a) && InBox(shape, b)
    requires IndexToLinear(shape, a) == IndexToLinear(shape, b)
    ensures a == b
  {
    IndexToLinearInBox(shape, a);
    IndexToLinearInBox(shape, b);
  }

  /** Distinct numbers have distinct multi-indices. */
  lemma LinearToIndexInjective(shape: seq<nat>, i: nat, j: nat)
    requires i < Product(shape) && j < Product(shape) && i != j
    ensures LinearToIndex(shape, i) != LinearToIndex(shape, j)
  {
  }

  /** The first number decodes to the all-zero index. */
  lemma {:induction false} FirstIndex(shape: seq<nat>)
    requires 0 < Product(shape)
    ensures forall k :: 0 <= k < |shape| ==> LinearToIndex(shape, 0)[k] == 0
  {
    if |shape| > 0 {
      FirstIndex(shape[1..]);
    }
  }

  /** The last number decodes to the corner index `shape - 1`. */
  lemma {:induction false} LastIndex(shape: seq<nat>)
    requires 0 < Product(shape)
    ensures forall k :: 0 <= k < |shape| ==> LinearToIndex(shape, Product(shape) - 1)[k] == shape[k] - 1
  {
    if |shape| > 0 {
      var s0, rest := shape[0], shape[1..];
      var p := Product(rest);
      assert Product(shape) == s0 * p;
      assert p > 0;
      DivModUnique(s0 * p - 1, s0, p - 1, s0 - 1);
      LastIndex(rest);
    }
  }

  /** One odometer step. Going from number `i-1` to `i`, the axes before some
      axis `j` wrap from their last value to 0, axis `j` goes up by one, and
      the axes after `j` keep their value. */
  lemma OdometerCarry(shape: seq<nat>, i: nat) returns (j: nat)
    requires 0 < i < Product(shape)
    ensures j < |shape|
    ensures CarryAt(shape, LinearToIndex(shape, i - 1), LinearToIndex(shape, i), j)
  {
    var prev := LinearToIndex(shape, i - 1);
    j := IncStep(shape, prev);
    IndexToLinearInBox(shape, Inc(shape, prev));
  }

  /** Odometer increment of an in-box index: bump axis 0, and carry into the
      next axis whenever an axis reaches its extent. */
  function Inc(shape: seq<nat>, idx: seq<int>): (r: seq<int>)
    requires |idx| == |shape|
    ensures |r| == |shape|
  {
    if |shape| == 0 then []
    else if idx[0] + 1 < shape[0] then idx[0 := idx[0] + 1]
    else [0] + Inc(shape[1..], idx[1..])
  }

  /** Incrementing any index but the last one stays in the box and adds one
      to its number. */
  lemma {:induction false} IncStep(shape: seq<nat>, idx: seq<int>) returns (j: nat)
    requires InBox(shape, idx) && IndexToLinear(shape, idx) + 1 < Product(shape)
    ensures InBox(shape, Inc(shape, idx))
    ensures IndexToLinear(shape, Inc(shape, idx)) == IndexToLinear(shape, idx) + 1
    ensures j < |shape| && CarryAt(shape, idx, Inc(shape, idx), j)
  {
    var s0, rest := shape[0], shape[1..];
    var next := Inc(shape, idx);
    assert InBox(rest, idx[1..]);
    var r := IndexToLinear(rest, idx[1..]);
    if idx[0] + 1 < s0 {
      j := 0;
      assert next[1..] == idx[1..];
      assert IndexToLinear(shape, next) == next[0] + s0 * r;
    } else {
      IndexToLinearInBox(rest, idx[1..]);
      assert Product(shape) == s0 * Product(rest);
      assert IndexToLinear(shape, idx) == s0 - 1 + s0 * r;
      if r + 1 >= Product(rest) {
        MulMonotone(s0, Product(rest), r + 1);
        assert false;
      }
      var j' := IncStep(rest, idx[1..]);
      IncCarry(shape, idx, j');
      j := j' + 1;
    }
  }

  /** The carry case of `IncStep`: axis 0 wraps to 0 and the rest of the
      index steps by one. */
  lemma IncCarry(shape: seq<nat>, idx: seq<int>, j': nat)
    requires InBox(shape, idx) && |shape| > 0 && idx[0] + 1 == shape[0]
    requires InBox(shape[1..], Inc(shape[1..], idx[1..]))
    requires IndexToLinear(shape[1..], Inc(shape[1..], idx[1..])) == IndexToLinear(shape[1..], idx[1..]) + 1
    requires j' < |shape| - 1 && CarryAt(shape[1..], idx[1..], Inc(shape[1..], idx[1..]), j')
    ensures InBox(shape, Inc(shape, idx))
    ensures IndexToLinear(shape, Inc(shape, idx)) == IndexToLinear(shape, idx) + 1
    ensures CarryAt(shape, idx, Inc(shape, idx), j' + 1)
  {
    var s0, rest := shape[0], shape[1..];
    var next := Inc(shape, idx);
    var r := IndexToLinear(rest, idx[1..]);
    assert next == [0] + Inc(rest, idx[1..]);
    assert next[1..] == Inc(rest, idx[1..]);
    var m := IndexToLinear(rest, next[1..]);
    assert m == r + 1;
    assert IndexToLinear(shape, next) == next[0] + s0 * m;
    assert IndexToLinear(shape, idx) == idx[0] + s0 * r;
    MulSucc(s0, r);
    CarryCons(shape, idx, next, j');
  }

  /** `prev` steps to `next` by a carry that stops at axis `j`. */
  predicate CarryAt(shape: seq<nat>, prev: seq<int>, next: seq<int>, j: nat)
    requires |prev| == |next| == |shape|
  {
    && j < |shape|
    && (forall k :: 0 <= k < j ==> prev[k] + 1 == shape[k] && next[k] == 0)
    && next[j] == prev[j] + 1
    && (forall k :: j < k < |shape| ==> next[k] == prev[k])
  }

  lemma CarryCons(shape: seq<nat>, prev: seq<int>, next: seq<int>, j': nat)
    requires |prev| == |next| == |shape| > 0
    requires prev[0] + 1 == shape[0] && next[0] == 0
    requires CarryAt(shape[1..], prev[1..], next[1..], j')
    ensures CarryAt(shape, prev, next, j' + 1)
  {
    forall k | 0 < k < j' + 1
      ensures prev[k] + 1 == shape[k] && next[k] == 0
    {
      assert prev[k] == prev[1..][k - 1];
    }
    forall k | j' + 1 < k < |shape|
      ensures next[k] == prev[k]
    {
      assert prev[k] == prev[1..][k - 1];
    }
  }

  // ---------------------------------------------------------------------
  // Offsets under strides
  // ---------------------------------------------------------------------

  function Scale(c: int, a: seq<int>): (r: seq<int>)
    ensures |r| == |a|
  {
    seq(|a|, k requires 0 <= k < |a| => c * a[k])
  }

  lemma {:induction false} DotScale(c: int, a: seq<int>, b: seq<int>)
    requires |a| == |b|
    ensures Dot(Scale(c, a), b) == c * Dot(a, b)
  {
    if |a| > 0 {
      assert Scale(c, a)[1..] == Scale(c, a[1..]);
      DotScale(c, a[1..], b[1..]);
    }
  }

  lemma {:induction false} DotSnoc(a: seq<int>, b: seq<int>, x: int, y: int)
    requires |a| == |b|
    ensures Dot(a + [x], b + [y]) == Dot(a, b) + x * y
  {
    if |a| > 0 {
      assert (a + [x])[1..] == a[1..] + [x];
      assert (b + [y])[1..] == b[1..] + [y];
      DotSnoc(a[1..], b[1..], x, y);
    }
  }

  /** Dot of the prefixes of length `i + 1` in terms of the prefixes of length `i`. */
  lemma DotPrefixStep(a: seq<int>, b: seq<int>, i: nat)
    requires |a| == |b| && i < |a|
    ensures Dot(a[..i + 1], b[..i + 1]) == Dot(a[..i], b[..i]) + a[i] * b[i]
  {
    assert a[..i + 1] == a[..i] + [a[i]];
    assert b[..i + 1] == b[..i] + [b[i]];
    DotSnoc(a[..i], b[..i], a[i], b[i]);
  }

  /** Changing one coordinate changes the offset by that coordinate's stride
      times the change: the carry rule of the odometer copy. */
  lemma {:induction false} DotUpdate(a: seq<int>, b: seq<int>, k: nat, v: int)
    requires |a| == |b| && k < |b|
    ensures Dot(a, b[k := v]) == Dot(a, b) + a[k] * (v - b[k])
  {
    if k == 0 {
      assert b[k := v][1..] == b[1..];
    } else {
      assert b[k := v][1..] == b[1..][k - 1 := v];
      DotUpdate(a[1..], b[1..], k - 1, v);
    }
  }

  /** With contiguous strides the offset of an index is its number. */
  lemma {:induction false} StridesOffset(shape: seq<nat>, idx: seq<int>)
    requires |idx| == |shape|
    ensures Dot(Strides(shape), idx) == IndexToLinear(shape, idx)
  {
    if |shape| > 0 {
      var s0, rest := shape[0], shape[1..];
      var st := Strides(shape);
      forall k | 0 <= k < |rest|
        ensures st[1..][k] == Scale(s0, Strides(rest))[k]
      {
        assert shape[..k + 1] == [s0] + rest[..k];
        assert ([s0] + rest[..k])[1..] == rest[..k];
      }
      assert st[1..] == Scale(s0, Strides(rest));
      assert st[0] == 1;
      DotScale(s0, Strides(rest), idx[1..]);
      StridesOffset(rest, idx[1..]);
    }
  }
}
