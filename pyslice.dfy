/** Python's slicing of a sequence with step 1: negative bounds count from the
    end, and bounds outside the sequence are clamped. */
module PySlice {

  function Max(a: int, b: int): int {
    if a >= b then a else b
  }

  function Min(a: int, b: int): int {
    if a <= b then a else b
  }

  /** Where the bound `i` of a slice falls in a sequence of length `n`. */
  function Bound(i: int, n: nat): (k: nat)
    ensures k <= n
    ensures 0 <= i <= n ==> k == i
    ensures i < 0 && -i <= n ==> k == n + i
    ensures i < 0 && -i > n ==> k == 0
    ensures i > n ==> k == n
  {
    if i < 0 then (if n + i < 0 then 0 else n + i) else if i > n then n else i
  }

  /** `s[i:j]` */
  function Slice<T>(s: seq<T>, i: int, j: int): (r: seq<T>)
    ensures |r| == Max(0, Bound(j, |s|) - Bound(i, |s|))
  {
    var a, b := Bound(i, |s|), Bound(j, |s|);
    if a <= b then s[a..b] else []
  }

  /** `s[i:]` */
  function From<T>(s: seq<T>, i: int): seq<T> {
    Slice(s, i, |s|)
  }

  /** `s[:j]` */
  function To<T>(s: seq<T>, j: int): seq<T> {
    Slice(s, 0, j)
  }

  /** Python's `x % n` for a positive `n` lies in `[0, n)`, and leaves an
      `x` already in that range alone. */
  lemma ModInRange(x: int, n: int)
    requires n > 0
    ensures 0 <= x % n < n
    ensures 0 <= x < n ==> x % n == x
  {
  }

  lemma SliceIn<T>(s: seq<T>, i: nat, j: nat)
    requires i <= j <= |s|
    ensures Slice(s, i, j) == s[i..j] && From(s, i) == s[i..] && To(s, j) == s[..j]
  {
  }

  /** Python's `s[-k:] + s[:-k]` with the same `k` on both sides keeps every
      element: it is a rotation. */
  lemma FromToRotation<T>(s: seq<T>, k: int)
    ensures |From(s, k) + To(s, k)| == |s|
    ensures From(s, k) + To(s, k) == s[Bound(k, |s|)..] + s[..Bound(k, |s|)]
  {
  }
}
