/** Python's rules for slicing and indexing a sequence, which the operators rely on whenever an
    axis or a slice bound is negative or lies past the end. */
module PySlicing {

  /** Where the slice bound `k` lands in a sequence of length `n`: a negative bound counts from
      the end, and the position is then clamped to `[0, n]`. */
  function SliceBound(k: int, n: nat): (b: nat)
    ensures b <= n
    ensures 0 <= k <= n ==> b == k
  {
    if k < 0 then (if n + k < 0 then 0 else n + k) else if k > n then n else k
  }

  /** `s[:k]` */
  function Prefix<T>(s: seq<T>, k: int): seq<T>
  {
    s[..SliceBound(k, |s|)]
  }

  /** `s[k:]` */
  function Suffix<T>(s: seq<T>, k: int): seq<T>
  {
    s[SliceBound(k, |s|)..]
  }

  lemma PrefixSuffix<T>(s: seq<T>, k: int)
    ensures Prefix(s, k) + Suffix(s, k) == s
  {
  }

  /** `s[k]` does not raise IndexError. */
  predicate Indexable(k: int, n: nat)
  {
    -(n as int) <= k < n
  }

  /** The position `s[k]` reads from. */
  function Wrap(k: int, n: nat): (i: nat)
    requires Indexable(k, n)
    ensures i < n
    ensures 0 <= k ==> i == k
  {
    if k < 0 then n + k else k
  }

  /** `[s[i] for i in range(lo, hi)]` */
  function Gather<T>(s: seq<T>, lo: int, hi: int): (r: seq<T>)
    requires lo >= hi || (-|s| <= lo && hi <= |s|)
    ensures |r| == if lo < hi then hi - lo else 0
    decreases hi - lo
  {
    if lo >= hi then [] else [s[Wrap(lo, |s|)]] + Gather(s, lo + 1, hi)
  }

  /** Over non-negative bounds the comprehension is an ordinary slice. */
  lemma {:induction false} GatherIsSlice<T>(s: seq<T>, lo: int, hi: int)
    requires 0 <= lo <= hi <= |s|
    ensures Gather(s, lo, hi) == s[lo..hi]
    decreases hi - lo
  {
    if lo < hi {
      GatherIsSlice(s, lo + 1, hi);
    }
  }
}
