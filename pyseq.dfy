/** Python list and string slicing with an integer bound, negative bounds included. */
module PySeq {

  /** The index Python uses for the bound `k` of a slice of a sequence of length `n`. */
  function SliceIndex(n: nat, k: int): (i: nat)
    ensures i <= n
    ensures 0 <= k ==> i == if k <= n then k else n
    ensures k < 0 ==> i == if n + k >= 0 then n + k else 0
  {
    if k >= 0 then (if k <= n then k else n)
    else if n + k >= 0 then n + k else 0
  }

  /** `s[:k]` */
  function Prefix<T>(s: seq<T>, k: int): (r: seq<T>)
    ensures r == s[..SliceIndex(|s|, k)]
    ensures 0 <= k ==> |r| == if k <= |s| then k else |s|
  {
    s[..SliceIndex(|s|, k)]
  }

  /** `s[k:]` */
  function Suffix<T>(s: seq<T>, k: int): (r: seq<T>)
    ensures r == s[SliceIndex(|s|, k)..]
  {
    s[SliceIndex(|s|, k)..]
  }

  /** `s[::-1]` */
  function Reverse<T>(s: seq<T>): (r: seq<T>)
    ensures |r| == |s|
    ensures forall i :: 0 <= i < |s| ==> r[i] == s[|s| - 1 - i]
  {
    if s == [] then [] else Reverse(s[1..]) + [s[0]]
  }

  /** `[f(x) for x in xs]`: one result per element, in order. */
  function Map<T, U>(xs: seq<T>, f: T -> U): (ys: seq<U>)
    ensures |ys| == |xs|
    ensures forall j :: 0 <= j < |xs| ==> ys[j] == f(xs[j])
  {
    seq(|xs|, j requires 0 <= j < |xs| => f(xs[j]))
  }

  /** `for x in xs: out.extend(f(x))`: the lists `f` gives, concatenated in order. */
  function FlatMap<T, U>(xs: seq<T>, f: T -> seq<U>): seq<U>
  {
    if xs == [] then [] else FlatMap(xs[..|xs| - 1], f) + f(xs[|xs| - 1])
  }

  lemma {:induction false} FlatMapAppend<T, U>(a: seq<T>, b: seq<T>, f: T -> seq<U>)
    ensures FlatMap(a + b, f) == FlatMap(a, f) + FlatMap(b, f)
    decreases |b|
  {
    if b == [] {
      assert a + b == a;
    } else {
      var n := |b| - 1;
      assert (a + b)[..|a + b| - 1] == a + b[..n];
      assert (a + b)[|a + b| - 1] == b[n];
      FlatMapAppend(a, b[..n], f);
    }
  }

  function Min(a: int, b: int): int { if a <= b then a else b }

  function Max(a: int, b: int): int { if a >= b then a else b }
}
