/** Python's slice bounds, including negative indices and out-of-range
    bounds, which the backend relies on (`xs[:n]`, `xs[-n:]`). */
module PySlice {

  /** The position a slice bound `k` denotes in a sequence of length `len`:
      a negative bound counts from the end, and the result is clamped to
      `0..len`. */
  function Bound(k: int, len: nat): (b: nat)
    ensures b <= len
    ensures 0 <= k <= len ==> b == k
    ensures -(len as int) <= k < 0 ==> b as int == len as int + k
    ensures k > len ==> b == len
    ensures k < -(len as int) ==> b == 0
  {
    if k < 0 then (if len as int + k < 0 then 0 else len as int + k)
    else if k > len then len
    else k
  }

  /** `xs[:k]` */
  function Prefix<T>(xs: seq<T>, k: int): (r: seq<T>)
    ensures |r| <= |xs| && r == xs[..|r|]
    ensures k >= 0 ==> |r| == (if k < |xs| then k else |xs|)
  {
    xs[..Bound(k, |xs|)]
  }

  /** `xs[k:]` */
  function Suffix<T>(xs: seq<T>, k: int): (r: seq<T>)
    ensures |r| <= |xs| && r == xs[|xs| - |r|..]
    ensures k >= 0 ==> |r| == (if k < |xs| then |xs| - k else 0)
  {
    xs[Bound(k, |xs|)..]
  }

  /** `xs[-n:]` for a positive `n`: the last `n` elements, or all of them. */
  function LastN<T>(xs: seq<T>, n: nat): (r: seq<T>)
    requires n > 0
    ensures |r| == (if |xs| < n then |xs| else n)
  {
    Suffix(xs, -(n as int))
  }

  /** `xs[-n:]` ends `xs`. */
  lemma LastNIsSuffix<T>(xs: seq<T>, n: nat)
    requires n > 0
    ensures LastN(xs, n) == xs[|xs| - |LastN(xs, n)|..]
  {
  }

  /** The last of `(xs + [x])[-n:]` is `x`. */
  lemma LastNEndsWith<T>(xs: seq<T>, x: T, n: nat)
    requires n > 0
    ensures var r := LastN(xs + [x], n); r != [] && r[|r| - 1] == x
  {
    LastNIsSuffix(xs + [x], n);
  }
}
