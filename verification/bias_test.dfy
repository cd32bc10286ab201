/** The reference check of the tile bias operation: `B` starts as a copy of
    `A`, receives the bias `b` along the batch axis `d`, and then every
    element of `B` must be its `A` element plus the bias element found by
    dropping axis `d` from its multi-index. The check walks the elements in
    storage order with an odometer (axis 0 fastest) and computes the bias
    offset from `b`'s strides, skipping the batch axis. */
module BiasTest {
  import opened Outcome
  import opened Shapes

  /** The multi-index the check's odometer holds at element `i`: all zeros
      at first, then one increment per element. */
  function Odometer(shape: seq<nat>, i: nat): (idx: seq<int>)
    ensures |idx| == |shape|
  {
    if i == 0 then seq(|shape|, _ => 0) else Inc(shape, Odometer(shape, i - 1))
  }

  /** The odometer stays in the box and counts: at element `i` its index
      has number `i`. */
  lemma {:induction false} OdometerCounts(shape: seq<nat>, i: nat)
    requires i < Product(shape)
    ensures InBox(shape, Odometer(shape, i)) && IndexToLinear(shape, Odometer(shape, i)) == i
  {
    if i == 0 {
      FirstIndex(shape);
      assert Odometer(shape, 0) == LinearToIndex(shape, 0);
    } else {
      OdometerCounts(shape, i - 1);
      var _ := IncStep(shape, Odometer(shape, i - 1));
    }
  }

  /** The odometer enumerates the multi-indices in the grid order: it
      agrees with `linear_to_index` at every element. */
  lemma OdometerIsLinearToIndex(shape: seq<nat>, i: nat)
    requires i < Product(shape)
    ensures Odometer(shape, i) == LinearToIndex(shape, i)
  {
    OdometerCounts(shape, i);
    IndexToLinearInBox(shape, Odometer(shape, i));
  }

  /** The bias element that element `i` of `B` receives: the number, in
      `b`'s layout, of its multi-index with axis `d` dropped. */
  function BiasIndex(shape: seq<nat>, d: nat, i: nat): (j: nat)
    requires d < |shape| && i < Product(shape)
    ensures j < Product(RemoveAxis(shape, d))
  {
    var idx := RemoveAxis(Odometer(shape, i), d);
    OdometerCounts(shape, i);
    assert InBox(RemoveAxis(shape, d), idx);
    IndexToLinearBound(RemoveAxis(shape, d), idx);
    IndexToLinear(RemoveAxis(shape, d), idx)
  }

  /** What `B` must hold after the bias: `A[i] + b[BiasIndex(i)]` everywhere. */
  function Expected(shape: seq<nat>, d: nat, a: seq<real>, b: seq<real>): (r: seq<real>)
    requires d < |shape| && |a| == Product(shape) && |b| == Product(RemoveAxis(shape, d))
    ensures |r| == |a|
  {
    seq(|a|, i requires 0 <= i < |a| => a[i] + b[BiasIndex(shape, d, i)])
  }

  /** The all-zero index has number 0. */
  lemma {:induction false} ZeroIndex(shape: seq<nat>, idx: seq<int>)
    requires |idx| == |shape| && forall k :: 0 <= k < |idx| ==> idx[k] == 0
    ensures IndexToLinear(shape, idx) == 0
  {
    if |shape| > 0 {
      ZeroIndex(shape[1..], idx[1..]);
    }
  }

  /** The first element of `B` receives the first bias element. */
  lemma FirstBiasIndex(shape: seq<nat>, d: nat)
    requires d < |shape| && 0 < Product(shape)
    ensures BiasIndex(shape, d, 0) == 0
  {
    ZeroIndex(RemoveAxis(shape, d), RemoveAxis(Odometer(shape, 0), d));
  }

  /** Two elements receive the same bias element exactly when their
      multi-indices agree off the batch axis. */
  lemma SameBiasIndex(shape: seq<nat>, d: nat, i: nat, i': nat)
    requires d < |shape| && i < Product(shape) && i' < Product(shape)
    ensures BiasIndex(shape, d, i) == BiasIndex(shape, d, i')
      <==> RemoveAxis(Odometer(shape, i), d) == RemoveAxis(Odometer(shape, i'), d)
  {
    var s := RemoveAxis(shape, d);
    var x, x' := RemoveAxis(Odometer(shape, i), d), RemoveAxis(Odometer(shape, i'), d);
    OdometerCounts(shape, i);
    OdometerCounts(shape, i');
    assert InBox(s, x) && InBox(s, x');
    if BiasIndex(shape, d, i) == BiasIndex(shape, d, i') {
      IndexToLinearInjective(s, x, x');
    }
  }

  /** The offset loops of the check: `index[k] * b.stride[k]` over the axes
      before `d`, and `index[k] * b.stride[k-1]` over the axes after it. */
  method Offset(index: seq<int>, d: nat, bStride: seq<nat>) returns (off: int)
    requires d < |index| && |bStride| == |index| - 1
    ensures off == Dot(bStride, RemoveAxis(index, d))
  {
    var x := RemoveAxis(index, d);
    off := 0;
    var k := 0;
    while k < d
      invariant 0 <= k <= d
      invariant off == Dot(bStride[..k], x[..k])
    {
      DotPrefixStep(bStride, x, k);
      off := off + index[k] * bStride[k];
      k := k + 1;
    }
    k := d + 1;
    while k < |index|
      invariant d + 1 <= k <= |index|
      invariant off == Dot(bStride[..k - 1], x[..k - 1])
    {
      DotPrefixStep(bStride, x, k - 1);
      off := off + index[k] * bStride[k - 1];
      k := k + 1;
    }
    assert bStride[..k - 1] == bStride && x[..k - 1] == x;
  }

  /** One odometer step of the check, `++index[0]` followed by the carry
      loop, which stops at the first axis that does not wrap. */
  method Advance(shape: seq<nat>, index: seq<int>) returns (next: seq<int>)
    requires InBox(shape, index) && IndexToLinear(shape, index) + 1 < Product(shape)
    ensures next == Inc(shape, index)
  {
    ghost var j0 := IncStep(shape, index);
    ghost var inc := Inc(shape, index);
    next := index[0 := index[0] + 1];
    var j := 0;
    while next[j] == shape[j]
      invariant 0 <= j <= j0 && |next| == |shape|
      invariant forall k :: 0 <= k < j ==> next[k] == 0 && index[k] + 1 == shape[k]
      invariant next[j] == index[j] + 1
      invariant forall k :: j < k < |shape| ==> next[k] == index[k]
      decreases |shape| - j
    {
      next := next[j := 0];
      j := j + 1;
      next := next[j := next[j] + 1];
    }
    assert next == inc;
  }

  /** The comparison of element `i`: the bias offset from `b`'s contiguous
      strides with the batch axis skipped, then `A[i] + b[offset] == B[i]`. */
  method ElementOk(shape: seq<nat>, d: nat, a: seq<real>, b: seq<real>, bb: seq<real>,
                   index: seq<int>, i: nat) returns (ok: bool)
    requires d < |shape| && i < Product(shape) && index == Odometer(shape, i)
    requires |a| == Product(shape) && |bb| == Product(shape) && |b| == Product(RemoveAxis(shape, d))
    ensures ok <==> bb[i] == a[i] + b[BiasIndex(shape, d, i)]
  {
    var bShape := RemoveAxis(shape, d);
    var off := Offset(index, d, Strides(bShape));
    StridesOffset(bShape, RemoveAxis(index, d));
    assert off == BiasIndex(shape, d, i);
    ok := a[i] + b[off] == bb[i];
  }

  /** `B` agrees with the expected result on its first `n` elements. */
  predicate AgreesUpTo(shape: seq<nat>, d: nat, a: seq<real>, b: seq<real>, bb: seq<real>, n: nat)
    requires d < |shape| && n <= Product(shape)
    requires |a| == Product(shape) && |bb| == Product(shape) && |b| == Product(RemoveAxis(shape, d))
  {
    n == 0 || (AgreesUpTo(shape, d, a, b, bb, n - 1) && bb[n - 1] == a[n - 1] + b[BiasIndex(shape, d, n - 1)])
  }

  /** Agreement up to `n` is agreement with `Expected` at every element before `n`. */
  lemma {:induction false} AgreesUpToMeans(shape: seq<nat>, d: nat, a: seq<real>, b: seq<real>, bb: seq<real>, n: nat)
    requires d < |shape| && n <= Product(shape)
    requires |a| == Product(shape) && |bb| == Product(shape) && |b| == Product(RemoveAxis(shape, d))
    ensures AgreesUpTo(shape, d, a, b, bb, n) <==> forall p :: 0 <= p < n ==> bb[p] == Expected(shape, d, a, b)[p]
  {
    if n > 0 {
      AgreesUpToMeans(shape, d, a, b, bb, n - 1);
    }
  }

  /** The walk of the check over the elements in storage order: the first
      element where `B` differs from the expected result, if any. */
  method FirstMismatch(shape: seq<nat>, d: nat, a: seq<real>, b: seq<real>, bb: seq<real>)
    returns (m: Option<nat>)
    requires d < |shape| && 0 < Product(shape)
    requires |a| == Product(shape) && |bb| == Product(shape) && |b| == Product(RemoveAxis(shape, d))
    ensures m.Some? ==> m.value < |bb| && AgreesUpTo(shape, d, a, b, bb, m.value)
    ensures m.Some? ==> !AgreesUpTo(shape, d, a, b, bb, m.value + 1)
    ensures m.None? ==> AgreesUpTo(shape, d, a, b, bb, |bb|)
    ensures m == Some(0) <==> bb[0] != a[0] + b[BiasIndex(shape, d, 0)]
  {
    var n := |bb|;
    var index := seq(|shape|, _ => 0);
    var ok := ElementOk(shape, d, a, b, bb, index, 0);
    if !ok {
      return Some(0);
    }
    var i := 1;
    while i < n
      invariant 1 <= i <= n
      invariant index == Odometer(shape, i - 1)
      invariant AgreesUpTo(shape, d, a, b, bb, i)
    {
      OdometerCounts(shape, i - 1);
      index := Advance(shape, index);
      ok := ElementOk(shape, d, a, b, bb, index, i);
      if !ok {
        return Some(i);
      }
      i := i + 1;
    }
    return None;
  }

  /** `check_bias`: `None` when `B` is exactly `A` plus the broadcast bias,
      otherwise the error the check throws at the first mismatch. The
      first element is read unconditionally, so the tile is not empty;
      `b` has the shape of `A` without axis `d`, which the bias operation
      itself insists on. */
  method Check(shape: seq<nat>, d: nat, a: seq<real>, b: seq<real>, bb: seq<real>) returns (e: Option<Error>)
    requires d < |shape| && 0 < Product(shape)
    requires |a| == Product(shape) && |bb| == Product(shape) && |b| == Product(RemoveAxis(shape, d))
    requires 0 < |b|
    ensures e == None <==> bb == Expected(shape, d, a, b)
    ensures bb[0] != a[0] + b[0] ==> e == Some(RuntimeError("A_ptr[0]+b_ptr[0] != B_ptr[0]"))
    ensures bb[0] == a[0] + b[0] && e != None ==> e == Some(RuntimeError("A_ptr[i]+b_ptr[b_offset] != B_ptr[i]"))
  {
    var m := FirstMismatch(shape, d, a, b, bb);
    ghost var expected := Expected(shape, d, a, b);
    FirstBiasIndex(shape, d);
    match m
    case None =>
      AgreesUpToMeans(shape, d, a, b, bb, |bb|);
      assert bb == expected;
      e := None;
    case Some(i) =>
      AgreesUpToMeans(shape, d, a, b, bb, i + 1);
      e := if i == 0 then Some(RuntimeError("A_ptr[0]+b_ptr[0] != B_ptr[0]"))
           else Some(RuntimeError("A_ptr[i]+b_ptr[b_offset] != B_ptr[i]"));
  }

  /** The tile the test builds: `A` of shape `(3, 4, 5, 6)` with batch axis
      0 takes a bias of shape `(4, 5, 6)`, one bias element per 3 elements. */
  lemma ExampleShapes()
    ensures RemoveAxis([3, 4, 5, 6], 0) == [4, 5, 6]
    ensures Product([3, 4, 5, 6]) == 360 && Product([4, 5, 6]) == 120
  {
    assert [3, 4, 5, 6][1..] == [4, 5, 6];
  }
}
