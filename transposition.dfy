/** `transpose`: permutes the axes of a tensor. */
module Transposition {
  import opened Layout
  import opened PySlicing
  import opened Tensors

  /** `tuple(reversed(range(ndim)))` */
  function ReversedAxes(rank: nat): (axes: seq<int>)
    ensures |axes| == rank && forall i :: 0 <= i < rank ==> axes[i] == rank - 1 - i
  {
    seq(rank, i => rank - 1 - i)
  }

  /** `axes if axes else tuple(reversed(range(ndim)))`: an omitted axes argument is the empty
      sequence here, and it selects the default just as an empty tuple does. */
  function EffectiveAxes(axes: seq<int>, rank: nat): seq<int>
  {
    if |axes| == 0 then ReversedAxes(rank) else axes
  }

  /** Every entry of `axes` indexes a shape of length `rank` (else `a.shape[x]` raises). */
  predicate AxesIndexable(axes: seq<int>, rank: nat)
  {
    forall i :: 0 <= i < |axes| ==> Indexable(axes[i], rank)
  }

  /** Some entry of `axes` names axis `p`. */
  predicate NamesAxis(axes: seq<int>, rank: nat, p: nat)
    requires AxesIndexable(axes, rank)
  {
    exists i :: 0 <= i < |axes| && Wrap(axes[i], rank) == p
  }

  /** `axes` names every axis of a rank-`rank` tensor exactly once. */
  predicate IsPermutation(axes: seq<int>, rank: nat)
  {
    |axes| == rank && AxesIndexable(axes, rank) &&
    (forall i, j :: 0 <= i < j < rank ==> Wrap(axes[i], rank) != Wrap(axes[j], rank)) &&
    (forall p :: 0 <= p < rank ==> NamesAxis(axes, rank, p))
  }

  /** The list `idx` of the coordinate map after the first `k` rounds of its loop: it starts
      as `[1] * len(axes)` and round `i` stores `indices[i]` at position `axes[i]`. */
  function Scatter(axes: seq<int>, out: seq<int>, k: nat): (idx: seq<int>)
    requires k <= |axes| && k <= |out| && AxesIndexable(axes, |axes|)
    ensures |idx| == |axes|
  {
    if k == 0 then seq(|axes|, _ => 1)
    else Scatter(axes, out, k - 1)[Wrap(axes[k - 1], |axes|) := out[k - 1]]
  }

  /** The input coordinate that the output coordinate `out` reads. */
  function TransposeIndex(axes: seq<int>, out: seq<int>): seq<int>
    requires AxesIndexable(axes, |axes|)
  {
    Scatter(axes, out, if |out| < |axes| then |out| else |axes|)
  }

  /** `transpose(a, axes)`. The shape lookup raises for an entry that is not an axis; a list of
      the wrong length makes the coordinate map call `a` with the wrong number of indices. */
  function Transpose<V>(a: Tensor<V>, axes: seq<int>): (r: Result<Tensor<V>>)
    ensures var ax := EffectiveAxes(axes, |a.shape|);
      r.Ok? <==> AxesIndexable(ax, |a.shape|) && |ax| == |a.shape|
    ensures var ax := EffectiveAxes(axes, |a.shape|);
      r.Ok? ==> (|r.value.shape| == |a.shape| &&
        forall i :: 0 <= i < |a.shape| ==> r.value.shape[i] == a.shape[Wrap(ax[i], |a.shape|)])
  {
    var rank := |a.shape|;
    var ax := EffectiveAxes(axes, rank);
    if !AxesIndexable(ax, rank) then Err(AxisOutOfRange)
    else if |ax| != rank then Err(RankMismatch)
    else
      var shape := seq(rank, i requires 0 <= i < rank => a.shape[Wrap(ax[i], rank)]);
      Ok(Tensor(shape, (out: seq<int>) => a.read(TransposeIndex(ax, out))))
  }

  /** The coordinate map's loop, run on a pre-allocated list as the source does. */
  method TransposeCompute(axes: seq<int>, out: seq<int>) returns (idx: seq<int>)
    requires AxesIndexable(axes, |axes|) && |out| == |axes|
    ensures idx == TransposeIndex(axes, out)
    ensures IsPermutation(axes, |axes|) ==>
      forall i :: 0 <= i < |axes| ==> idx[Wrap(axes[i], |axes|)] == out[i]
  {
    var buf := new int[|axes|](_ => 1);
    assert buf[..] == Scatter(axes, out, 0);
    for i := 0 to |axes|
      invariant buf[..] == Scatter(axes, out, i)
    {
      buf[Wrap(axes[i], |axes|)] := out[i];
    }
    idx := buf[..];
    if IsPermutation(axes, |axes|) {
      forall i | 0 <= i < |axes| ensures idx[Wrap(axes[i], |axes|)] == out[i] {
        ScatterWrites(axes, out, |axes|, i);
      }
    }
  }

  /** With distinct targets, round `i` of the loop is never overwritten. */
  lemma {:induction false} ScatterWrites(axes: seq<int>, out: seq<int>, k: nat, i: nat)
    requires k <= |axes| && k <= |out| && AxesIndexable(axes, |axes|)
    requires forall p, q :: 0 <= p < q < k ==> Wrap(axes[p], |axes|) != Wrap(axes[q], |axes|)
    requires i < k
    ensures Scatter(axes, out, k)[Wrap(axes[i], |axes|)] == out[i]
  {
    if i < k - 1 {
      ScatterWrites(axes, out, k - 1, i);
    }
  }

  /** When `axes` is a permutation, position `axes[i]` of the input coordinate holds output
      coordinate `i`, and an output coordinate inside the output shape is sent to an input
      coordinate inside the input shape. */
  lemma TransposeInBounds<V>(a: Tensor<V>, axes: seq<int>, out: seq<int>)
    requires IsPermutation(EffectiveAxes(axes, |a.shape|), |a.shape|)
    requires InBounds(out, Transpose(a, axes).value.shape)
    ensures var ax := EffectiveAxes(axes, |a.shape|);
      var idx := TransposeIndex(ax, out);
      (forall i :: 0 <= i < |ax| ==> idx[Wrap(ax[i], |a.shape|)] == out[i]) &&
      InBounds(idx, a.shape) &&
      Transpose(a, axes).value.read(out) == a.read(idx)
  {
    var rank, ax := |a.shape|, EffectiveAxes(axes, |a.shape|);
    var idx := TransposeIndex(ax, out);
    var shape := Transpose(a, axes).value.shape;
    forall i | 0 <= i < rank ensures idx[Wrap(ax[i], rank)] == out[i] {
      ScatterWrites(ax, out, rank, i);
    }
    forall p | 0 <= p < rank ensures 0 <= idx[p] < a.shape[p] {
      assert NamesAxis(ax, rank, p);
      var i :| 0 <= i < rank && Wrap(ax[i], rank) == p;
      assert idx[p] == out[i] && 0 <= out[i] < shape[i];
    }
  }

  function Reverse(s: seq<int>): (r: seq<int>)
    ensures |r| == |s| && forall i :: 0 <= i < |s| ==> r[i] == s[|s| - 1 - i]
  {
    seq(|s|, i requires 0 <= i < |s| => s[|s| - 1 - i])
  }

  /** With the default axes the output shape is the input shape reversed, and the output at a
      coordinate is the input at the reversed coordinate. */
  lemma TransposeDefault<V>(a: Tensor<V>, out: seq<int>)
    requires |out| == |a.shape|
    ensures Transpose(a, []).Ok?
    ensures Transpose(a, []).value.shape == Reverse(a.shape)
    ensures Transpose(a, []).value.read(out) == a.read(Reverse(out))
  {
    var rank, ax := |a.shape|, ReversedAxes(|a.shape|);
    forall p | 0 <= p < rank ensures NamesAxis(ax, rank, p) {
      assert Wrap(ax[rank - 1 - p], rank) == p;
    }
    assert IsPermutation(ax, rank);
    var idx := TransposeIndex(ax, out);
    forall p | 0 <= p < rank ensures idx[p] == Reverse(out)[p] {
      ScatterWrites(ax, out, rank, rank - 1 - p);
    }
    assert idx == Reverse(out);
    assert Transpose(a, []).value.shape == Reverse(a.shape);
  }

  /** Transposing twice with the default axes gives back the original shape and the original
      value at every coordinate. */
  lemma TransposeTwice<V>(a: Tensor<V>, out: seq<int>)
    requires |out| == |a.shape|
    ensures Transpose(a, []).Ok? && Transpose(Transpose(a, []).value, []).Ok?
    ensures Transpose(Transpose(a, []).value, []).value.shape == a.shape
    ensures Transpose(Transpose(a, []).value, []).value.read(out) == a.read(out)
  {
    TransposeDefault(a, Reverse(out));
    var t := Transpose(a, []).value;
    TransposeDefault(t, out);
    assert Reverse(Reverse(out)) == out;
    assert Reverse(Reverse(a.shape)) == a.shape;
  }

  /** Nothing checks that `axes` is a permutation. Transposing a tensor of shape (2, 1) by the
      repeated axes (0, 0) gives shape (2, 2), whose coordinate (0, 1) reads the input at (1, 1),
      outside its shape: the second input axis keeps the list's initial 1. */
  lemma TransposeRepeatedAxis<V>(a: Tensor<V>)
    requires a.shape == [2, 1]
    ensures Transpose(a, [0, 0]).Ok?
    ensures Transpose(a, [0, 0]).value.shape == [2, 2]
    ensures InBounds([0, 1], [2, 2])
    ensures TransposeIndex([0, 0], [0, 1]) == [1, 1] && !InBounds([1, 1], a.shape)
  {
    assert Scatter([0, 0], [0, 1], 1) == [0, 1];
    assert !(1 < a.shape[1]);
  }
}
