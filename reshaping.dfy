/** `reshape`: the same elements in row-major order under a new shape. */
module Reshaping {
  import opened Layout
  import opened Tensors

  /** The input coordinate that output coordinate `out` reads:
      `unravel_index(ravel_index(out, newshape), a_shape)`. */
  function ReshapeIndex(out: seq<int>, newshape: seq<nat>, shape: seq<nat>): (idx: seq<int>)
    ensures |idx| == |shape|
  {
    Unravel(Ravel(out, newshape), shape)
  }

  /** `reshape(a, newshape)`. The source does not compare the element counts. */
  function Reshape<V>(a: Tensor<V>, newshape: seq<nat>): (r: Tensor<V>)
    ensures r.shape == newshape
  {
    Tensor(newshape, (out: seq<int>) => a.read(ReshapeIndex(out, newshape, a.shape)))
  }

  /** When the element counts agree, an output coordinate inside the new shape reads an input
      coordinate inside the old shape at the same row-major position. */
  lemma ReshapeInBounds<V>(a: Tensor<V>, newshape: seq<nat>, out: seq<int>)
    requires Product(newshape) == Product(a.shape)
    requires InBounds(out, newshape)
    ensures var idx := ReshapeIndex(out, newshape, a.shape);
      InBounds(idx, a.shape) &&
      Ravel(idx, a.shape) == Ravel(out, newshape) &&
      Reshape(a, newshape).read(out) == a.read(idx)
  {
    RavelInRange(out, newshape);
    UnravelInBounds(Ravel(out, newshape), a.shape);
    RavelUnravel(Ravel(out, newshape), a.shape);
  }

  /** Each input element appears exactly where row-major order puts it: at the coordinate of
      the new shape with the same flat position. */
  lemma ReshapeEmbeds<V>(a: Tensor<V>, newshape: seq<nat>, j: seq<int>)
    requires Product(newshape) == Product(a.shape)
    requires InBounds(j, a.shape)
    ensures var out := Unravel(Ravel(j, a.shape), newshape);
      InBounds(out, newshape) && Reshape(a, newshape).read(out) == a.read(j)
  {
    var f := Ravel(j, a.shape);
    RavelInRange(j, a.shape);
    UnravelInBounds(f, newshape);
    var out := Unravel(f, newshape);
    RavelUnravel(f, newshape);
    UnravelRavel(j, a.shape);
    assert ReshapeIndex(out, newshape, a.shape) == j;
    assert Reshape(a, newshape).read(out) == a.read(ReshapeIndex(out, newshape, a.shape));
  }

  /** Reshaping back to the original shape restores every element. */
  lemma ReshapeBack<V>(a: Tensor<V>, newshape: seq<nat>, j: seq<int>)
    requires Product(newshape) == Product(a.shape)
    requires InBounds(j, a.shape)
    ensures Reshape(Reshape(a, newshape), a.shape).shape == a.shape
    ensures Reshape(Reshape(a, newshape), a.shape).read(j) == a.read(j)
  {
    var out := Unravel(Ravel(j, a.shape), newshape);
    ReshapeEmbeds(a, newshape, j);
    RavelInRange(j, a.shape);
    UnravelRavel(j, a.shape);
    assert ReshapeIndex(j, a.shape, newshape) == out;
    var b := Reshape(a, newshape);
    assert Reshape(b, a.shape).read(j) == b.read(ReshapeIndex(j, a.shape, b.shape));
  }

  /** A tensor of shape (2, 3) reshaped to (3, 2): output (2, 1) reads input (1, 2). */
  lemma ReshapeExample<V>(a: Tensor<V>)
    requires a.shape == [2, 3]
    ensures Reshape(a, [3, 2]).shape == [3, 2]
    ensures Reshape(a, [3, 2]).read([2, 1]) == a.read([1, 2])
  {
    RowMajorExample();
    assert ReshapeIndex([2, 1], [3, 2], [2, 3]) == [1, 2];
    assert Reshape(a, [3, 2]).read([2, 1]) == a.read(ReshapeIndex([2, 1], [3, 2], a.shape));
  }
}
