/** The two comparison-only element-wise kernels, over reals (NaN, which
    makes every comparison false, is not modelled). Both walk the first
    `nelems` elements in place; a non-positive `nelems` does nothing. */
module ElementCount {
  /** How many elements a loop `for(i = 0; i < nelems; ++i)` visits. */
  function Visited(nelems: int): (n: nat)
    ensures nelems <= 0 ==> n == 0
    ensures nelems >= 0 ==> n == nelems
  {
    if nelems < 0 then 0 else nelems
  }
}

/** Derivative of ReLU, in place: every visited element becomes 1 when it
    is positive and 0 otherwise. */
module Drelu {
  import opened ElementCount

  /** The step function the kernel applies to one element. */
  function Step(z: real): (y: real)
    ensures y == 0.0 || y == 1.0
    ensures y == 1.0 <==> z > 0.0
  {
    if z > 0.0 then 1.0 else 0.0
  }

  /** Reference result: the step function on the first `n` elements, the
      rest as they were. */
  function Applied(data: seq<real>, n: nat): seq<real>
    requires n <= |data|
  {
    seq(|data|, i requires 0 <= i < |data| => if i < n then Step(data[i]) else data[i])
  }

  /** `kernel::drelu::cpu`. */
  method Cpu(nelems: int, data: seq<real>) returns (data': seq<real>)
    requires nelems <= |data|
    ensures data' == Applied(data, Visited(nelems))
    ensures forall i :: 0 <= i < nelems ==> (data'[i] == 1.0 <==> data[i] > 0.0)
    ensures forall i :: 0 <= i < nelems ==> data'[i] == 0.0 || data'[i] == 1.0
    ensures data'[Visited(nelems)..] == data[Visited(nelems)..]
  {
    data' := data;
    var i := 0;
    while i < nelems
      invariant 0 <= i <= Visited(nelems)
      invariant |data'| == |data|
      invariant forall p :: 0 <= p < i ==> data'[p] == Step(data[p])
      invariant forall p :: i <= p < |data| ==> data'[p] == data[p]
    {
      if data'[i] > 0.0 {
        data' := data'[i := 1.0];
      } else {
        data' := data'[i := 0.0];
      }
      i := i + 1;
    }
  }

  /** Applying the kernel twice is applying it once. */
  lemma Idempotent(data: seq<real>, n: nat)
    requires n <= |data|
    ensures Applied(Applied(data, n), n) == Applied(data, n)
  {
  }
}

/** Element-wise maximum, in place in `dst`. */
module Maximum {
  import opened ElementCount

  /** `fmax` on numbers. */
  function Max(a: real, b: real): (m: real)
    ensures m >= a && m >= b
    ensures m == a || m == b
  {
    if a >= b then a else b
  }

  /** Reference result: the maximum on the first `n` elements, the rest of
      `dst` as it was. */
  function Applied(src: seq<real>, dst: seq<real>, n: nat): seq<real>
    requires n <= |src| && n <= |dst|
  {
    seq(|dst|, i requires 0 <= i < |dst| => if i < n then Max(src[i], dst[i]) else dst[i])
  }

  /** `kernel::maximum::cpu`. */
  method Cpu(nelems: int, src: seq<real>, dst: seq<real>) returns (dst': seq<real>)
    requires nelems <= |src| && nelems <= |dst|
    ensures dst' == Applied(src, dst, Visited(nelems))
    ensures forall i :: 0 <= i < nelems ==> dst'[i] >= src[i] && dst'[i] >= dst[i]
    ensures forall i :: 0 <= i < nelems ==> dst'[i] == src[i] || dst'[i] == dst[i]
    ensures dst'[Visited(nelems)..] == dst[Visited(nelems)..]
  {
    dst' := dst;
    var i := 0;
    while i < nelems
      invariant 0 <= i <= Visited(nelems)
      invariant |dst'| == |dst|
      invariant forall p :: 0 <= p < i ==> dst'[p] == Max(src[p], dst[p])
      invariant forall p :: i <= p < |dst| ==> dst'[p] == dst[p]
    {
      dst' := dst'[i := Max(src[i], dst'[i])];
      i := i + 1;
    }
  }

  /** Repeating the kernel with the same source changes nothing. */
  lemma Idempotent(src: seq<real>, dst: seq<real>, n: nat)
    requires n <= |src| && n <= |dst|
    ensures Applied(src, Applied(src, dst, n), n) == Applied(src, dst, n)
  {
  }
}
