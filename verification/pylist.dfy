/** Python list slicing with a single bound, `x[:k]` and `x[k:]`: a negative
    bound counts from the end, and a bound past either end is clamped. */
module PyList {
  /** The position in `x` that the slice bound `k` denotes. */
  function Pos<T>(x: seq<T>, k: int): (p: nat)
    ensures p <= |x|
    ensures 0 <= k <= |x| ==> p == k
    ensures -|x| <= k < 0 ==> p == |x| + k
    ensures k > |x| ==> p == |x|
    ensures k < -|x| ==> p == 0
  {
    if k >= 0 then (if k <= |x| then k else |x|)
    else if |x| + k >= 0 then |x| + k
    else 0
  }

  /** `x[:k]`. */
  function Head<T>(x: seq<T>, k: int): seq<T>
  {
    x[..Pos(x, k)]
  }

  /** `x[k:]`. */
  function Tail<T>(x: seq<T>, k: int): seq<T>
  {
    x[Pos(x, k)..]
  }

  /** `x[:k] + x[k:] == x` for every bound `k`. */
  lemma Split<T>(x: seq<T>, k: int)
    ensures Head(x, k) + Tail(x, k) == x
  {
  }

  /** Lists of the same length are cut at the same place. */
  lemma SameLength<T, U>(x: seq<T>, y: seq<U>, k: int)
    requires |x| == |y|
    ensures |Head(x, k)| == |Head(y, k)| && |Tail(x, k)| == |Tail(y, k)|
  {
  }
}
