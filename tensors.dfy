/** The tensor descriptor that every operator consumes and produces, and the failures the
    operators raise. */
module Tensors {
  import opened Layout

  /** A lazily evaluated array: its shape and the value at each coordinate. The graph builder
      only ever asks `read` for coordinates whose length is the rank; at any other coordinate
      the operators return some value of an input, and nothing depends on it. */
  datatype Tensor<V> = Tensor(shape: seq<nat>, read: seq<int> -> V)

  /** The exceptions the operators raise (IndexError, AssertionError, NotImplementedError and
      the tensor call's own arity check), named by what went wrong. */
  datatype Error =
    | EmptyInput            // `a_tuple[0]` of an empty tuple
    | AxisOutOfRange        // an axis that does not name an axis of the input
    | RankMismatch          // a tensor called with a coordinate of the wrong length
    | NonPositiveSections   // `split` by a section count that is not positive
    | IndivisibleSplit      // `split` by a count that does not divide the axis
    | UnsortedBoundaries    // `split` boundaries that are not in sorted order
    | UnsupportedSpec       // `split` by something that is neither an int nor a list
    | BoundaryOutOfRange    // `split` boundaries outside the axis

  datatype Result<T> = Ok(value: T) | Err(error: Error)

  /** The usual axis normalisation of `concatenate` and `split`: a negative axis counts from
      the end of the shape. */
  function NormalizeAxis(axis: int, rank: nat): int
  {
    if axis < 0 then axis + rank else axis
  }

  /** `indices[:axis] + (indices[axis] + d,) + indices[axis + 1:]`: moves a coordinate by `d`
      along one axis. */
  function Shift(idx: seq<int>, axis: nat, d: int): (r: seq<int>)
    ensures |r| == |idx|
  {
    if axis < |idx| then idx[axis := idx[axis] + d] else idx
  }

  /** Two tensors denote the same array: the same shape and the same value at every coordinate
      inside it. */
  ghost predicate SameArray<V>(t: Tensor<V>, u: Tensor<V>)
  {
    t.shape == u.shape && forall idx :: InBounds(idx, t.shape) ==> t.read(idx) == u.read(idx)
  }

  /** Python's `sum` over a list of integers. */
  function Sum(s: seq<int>): (r: int)
    ensures (forall i :: 0 <= i < |s| ==> 0 <= s[i]) ==> 0 <= r
  {
    if |s| == 0 then 0 else Sum(s[..|s| - 1]) + s[|s| - 1]
  }

  lemma SumPrefixStep(s: seq<int>, k: nat)
    requires k < |s|
    ensures Sum(s[..k + 1]) == Sum(s[..k]) + s[k]
  {
    assert s[..k + 1][..k] == s[..k];
  }

  /** Over non-negative sizes a longer prefix never sums to less. */
  lemma {:induction false} SumPrefixMono(s: seq<nat>, a: nat, b: nat)
    requires a <= b <= |s|
    ensures Sum(s[..a]) <= Sum(s[..b])
    decreases b - a
  {
    if a < b {
      SumPrefixStep(s, b - 1);
      SumPrefixMono(s, a, b - 1);
    }
  }
}
