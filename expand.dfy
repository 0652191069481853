/** `expand_dims`: inserts `num_newaxis` axes of size 1 at position `axis`. */
module Expand {
  import opened Layout
  import opened PySlicing
  import opened Tensors

  /** expand_dims' own normalisation: a negative axis counts from the end of the EXPANDED
      shape, so `-1` appends after the last axis. */
  function ExpandAxis(axis: int, rank: nat): int
  {
    if axis < 0 then rank + axis + 1 else axis
  }

  function Ones(n: nat): (r: seq<nat>)
    ensures |r| == n && forall i :: 0 <= i < n ==> r[i] == 1
  {
    seq(n, _ => 1)
  }

  function Zeros(n: nat): (r: seq<int>)
    ensures |r| == n && forall i :: 0 <= i < n ==> r[i] == 0
  {
    seq(n, _ => 0)
  }

  /** `a.shape[:axis] + ([1] * num_newaxis) + a.shape[axis:]` */
  function ExpandShape(s: seq<nat>, ax: int, n: nat): seq<nat>
  {
    Prefix(s, ax) + Ones(n) + Suffix(s, ax)
  }

  /** `indices[:axis] + indices[axis + num_newaxis:]`: the coordinate with the inserted
      positions taken out. */
  function DropAxes<T>(out: seq<T>, ax: int, n: nat): seq<T>
  {
    Prefix(out, ax) + Suffix(out, ax + n)
  }

  /** The operator exactly as the source builds it, for any axis. */
  function ExpandDimsAsWritten<V>(a: Tensor<V>, axis: int, n: nat): Tensor<V>
  {
    var ax := ExpandAxis(axis, |a.shape|);
    Tensor(ExpandShape(a.shape, ax, n), (out: seq<int>) => a.read(DropAxes(out, ax, n)))
  }

  /** `expand_dims(a, axis, num_newaxis)`. Inserting no axis is the identity; otherwise the
      normalised axis must lie in `[0, rank]`, the range in which the source's slicing inserts
      the new axes where the coordinate map removes them. Outside it the source itself fails
      (the coordinate map calls `a` with the wrong number of indices), except for the range
      `[-(rank + n), -n)`, which it accepts. There the source inserts the new axes at one
      position and the coordinate map removes another, except at its lowest axis `-(rank + n)`,
      where both are the front (see `ExpandDimsMisplaced`). The model rejects the whole range,
      so it accepts exactly the normalised axes `[0, rank]`, i.e. `axis` in `[-(rank + 1), rank]`. */
  function ExpandDims<V>(a: Tensor<V>, axis: int, n: nat := 1): (r: Result<Tensor<V>>)
    ensures r.Ok? <==> (n == 0 || -(|a.shape| + 1) <= axis <= |a.shape|)
    ensures r.Ok? ==> |r.value.shape| == |a.shape| + n
    ensures var ax := ExpandAxis(axis, |a.shape|);
      r.Err? ==> (r.error == AxisOutOfRange <==> -(|a.shape| + n) <= ax < -(n as int))
  {
    var ax := ExpandAxis(axis, |a.shape|);
    if n == 0 || 0 <= ax <= |a.shape| then
      PrefixSuffix(a.shape, ax);
      Ok(ExpandDimsAsWritten(a, axis, n))
    else if -(|a.shape| + n) <= ax < -(n as int) then
      Err(AxisOutOfRange)
    else
      Err(RankMismatch)
  }

  /** Inside the admitted range the slices are plain: the output shape is the input shape with
      `n` ones inserted at the normalised axis, and removing those positions again (what the
      coordinate map does) gives the input shape back. */
  lemma ExpandDimsShape<V>(a: Tensor<V>, axis: int, n: nat)
    requires 0 <= ExpandAxis(axis, |a.shape|) <= |a.shape|
    ensures ExpandDims(a, axis, n).Ok?
    ensures var ax, out := ExpandAxis(axis, |a.shape|), ExpandDims(a, axis, n).value.shape;
      out == a.shape[..ax] + Ones(n) + a.shape[ax..] &&
      DropAxes(out, ax, n) == a.shape
  {
    var ax, s := ExpandAxis(axis, |a.shape|), a.shape;
    var out := s[..ax] + Ones(n) + s[ax..];
    assert Prefix(out, ax) == s[..ax];
    assert Suffix(out, ax + n) == s[ax..];
  }

  /** A coordinate inside the output shape has 0 at every inserted position, and the
      coordinate map sends it to a coordinate inside the input shape. */
  lemma ExpandDimsInBounds<V>(a: Tensor<V>, axis: int, n: nat, out: seq<int>)
    requires 0 <= ExpandAxis(axis, |a.shape|) <= |a.shape|
    requires InBounds(out, ExpandDims(a, axis, n).value.shape)
    ensures var ax := ExpandAxis(axis, |a.shape|);
      (forall k :: ax <= k < ax + n ==> out[k] == 0) &&
      InBounds(DropAxes(out, ax, n), a.shape)
  {
    ExpandDimsShape(a, axis, n);
    DropInBounds(a.shape, ExpandAxis(axis, |a.shape|), n, out);
  }

  /** The same on shapes alone: inside a shape with `n` ones inserted at `ax`, a coordinate is
      0 at the inserted positions, and without them it lies inside the original shape. */
  lemma DropInBounds(s: seq<nat>, ax: nat, n: nat, out: seq<int>)
    requires ax <= |s|
    requires InBounds(out, s[..ax] + Ones(n) + s[ax..])
    ensures (forall k :: ax <= k < ax + n ==> out[k] == 0) && InBounds(DropAxes(out, ax, n), s)
  {
    var big := s[..ax] + Ones(n) + s[ax..];
    forall k | ax <= k < ax + n ensures out[k] == 0 {
      assert big[k] == 1;
    }
    var d := DropAxes(out, ax, n);
    assert d == out[..ax] + out[ax + n..];
    forall i | 0 <= i < |s| ensures 0 <= d[i] < s[i] {
      if i < ax {
        assert d[i] == out[i] && big[i] == s[i];
      } else {
        assert d[i] == out[i + n] && big[i + n] == s[i];
      }
    }
  }

  /** Every element of the input appears in the output: at the input coordinate with zeros
      inserted at the new axes, which lies inside the output shape. */
  lemma ExpandDimsEmbeds<V>(a: Tensor<V>, axis: int, n: nat, j: seq<int>)
    requires 0 <= ExpandAxis(axis, |a.shape|) <= |a.shape|
    requires InBounds(j, a.shape)
    ensures var ax, r := ExpandAxis(axis, |a.shape|), ExpandDims(a, axis, n).value;
      var out := j[..ax] + Zeros(n) + j[ax..];
      InBounds(out, r.shape) && r.read(out) == a.read(j)
  {
    var ax, s := ExpandAxis(axis, |a.shape|), a.shape;
    ExpandDimsShape(a, axis, n);
    var big := s[..ax] + Ones(n) + s[ax..];
    var out := j[..ax] + Zeros(n) + j[ax..];
    forall k | 0 <= k < |big| ensures 0 <= out[k] < big[k] {
      if k < ax {
        assert out[k] == j[k] && big[k] == s[k];
      } else if k < ax + n {
        assert out[k] == 0 && big[k] == 1;
      } else {
        assert out[k] == j[k - n] && big[k] == s[k - n];
      }
    }
    assert Prefix(out, ax) == j[..ax];
    assert Suffix(out, ax + n) == j[ax..];
    assert DropAxes(out, ax, n) == j;
  }

  /** Inserting no axis changes nothing, whatever the axis. */
  lemma ExpandDimsNone<V>(a: Tensor<V>, axis: int, out: seq<int>)
    ensures ExpandDims(a, axis, 0).Ok?
    ensures ExpandDims(a, axis, 0).value.shape == a.shape
    ensures ExpandDims(a, axis, 0).value.read(out) == a.read(out)
  {
    var ax := ExpandAxis(axis, |a.shape|);
    PrefixSuffix(a.shape, ax);
    PrefixSuffix(out, ax);
    assert DropAxes(out, ax, 0) == out;
  }

  /** `axis = -1` appends the new axes after the last one. */
  lemma ExpandDimsAppend<V>(a: Tensor<V>, n: nat)
    ensures ExpandDims(a, -1, n).Ok?
    ensures ExpandDims(a, -1, n).value.shape == a.shape + Ones(n)
  {
    assert a.shape[..|a.shape|] == a.shape;
  }

  /** By default one axis is inserted: axis 0 puts it in front of the others. */
  lemma ExpandDimsDefaultCount<V>(a: Tensor<V>, out: seq<int>)
    requires InBounds(out, [1] + a.shape)
    ensures ExpandDims(a, 0).Ok?
    ensures ExpandDims(a, 0).value.shape == [1] + a.shape
    ensures ExpandDims(a, 0).value.read(out) == a.read(out[1..])
  {
    ExpandDimsShape(a, 0, 1);
    assert a.shape[..0] + Ones(1) + a.shape[0..] == [1] + a.shape;
    assert DropAxes(out, 0, 1) == out[1..];
  }

  /** The example of shape (4, 5), axis 1 and two new axes: the output shape is (4, 1, 1, 5)
      and the output at (i, 0, 0, j) is the input at (i, j). */
  lemma ExpandDimsExample<V>(a: Tensor<V>, i: int, j: int)
    requires a.shape == [4, 5]
    ensures ExpandDims(a, 1, 2).Ok?
    ensures ExpandDims(a, 1, 2).value.shape == [4, 1, 1, 5]
    ensures ExpandDims(a, 1, 2).value.read([i, 0, 0, j]) == a.read([i, j])
  {
    ExpandDimsShape(a, 1, 2);
    assert [4, 5][..1] + Ones(2) + [4, 5][1..] == [4, 1, 1, 5];
    assert DropAxes([i, 0, 0, j], 1, 2) == [i, j];
  }

  /** As written, an axis below `-(rank + 1)` whose normalised value lies strictly between
      `-(rank + n)` and `-n` is accepted and goes wrong silently. For shape
      (4, 5) and axis -5 the normalised axis is -2: the output shape (1, 4, 5) looks like an
      insertion at the front, but the output at (0, i, j) reads the input at (0, j), a
      coordinate of the right length, so nothing downstream objects. */
  lemma ExpandDimsBelowRangeAsWritten<V>(a: Tensor<V>, i: int, j: int)
    requires a.shape == [4, 5]
    ensures ExpandDimsAsWritten(a, -5, 1).shape == [1, 4, 5]
    ensures ExpandDimsAsWritten(a, -5, 1).read([0, i, j]) == a.read([0, j])
    ensures ExpandDims(a, -5, 1).Err?
  {
    assert ExpandAxis(-5, 2) == -2;
    assert Prefix([4, 5], -2) == [] && Suffix([4, 5], -2) == [4, 5];
    assert [] + Ones(1) + [4, 5] == [1, 4, 5];
    assert Prefix([0, i, j], -2) == [0] && Suffix([0, i, j], -1) == [j];
    assert DropAxes([0, i, j], -2, 1) == [0, j];
  }

  /** When the coordinate map passes `a` exactly as many indices as it has axes: for a
      normalised axis in `[0, rank]`, where the model accepts, and in `[-(rank + n), -n)`,
      where the source accepts an axis that the model rejects. For every other axis the call
      fails. */
  lemma ExpandDimsArity(rank: nat, ax: int, n: nat, out: seq<int>)
    requires n > 0 && |out| == rank + n
    ensures |DropAxes(out, ax, n)| == rank <==> (0 <= ax <= rank || -(rank + n) <= ax < -(n as int))
  {
  }

  /** Below `-n`, the slices of the source put the `n` new axes at position `p`, the clamped
      `rank + ax`, while the coordinate map removes the `n` positions from `m = rank + n + ax`
      on. The two agree only at `ax == -(rank + n)`, where both are the front; at every other
      axis of the range the map drops an index of an original axis. */
  lemma ExpandDimsMisplaced(s: seq<nat>, ax: int, n: nat, out: seq<int>)
    requires n > 0 && -(|s| + n) <= ax < -(n as int) && |out| == |s| + n
    ensures var p := if |s| + ax >= 0 then |s| + ax else 0;
      var m := |s| + n + ax;
      0 <= p <= |s| && 0 <= m < |s| &&
      ExpandShape(s, ax, n) == s[..p] + Ones(n) + s[p..] &&
      DropAxes(out, ax, n) == out[..m] + out[m + n..] &&
      (p == m <==> ax == -(|s| + n))
  {
  }

  /** At the lowest axis of the accepted range the source is right: for shape (4, 5), axis -6
      normalises to -3 and the output at (0, i, j) reads the input at (i, j). The model rejects
      this axis as outside `[-(rank + 1), rank]`. */
  lemma ExpandDimsAtFrontAsWritten<V>(a: Tensor<V>, i: int, j: int)
    requires a.shape == [4, 5]
    ensures ExpandDimsAsWritten(a, -6, 1).shape == [1, 4, 5]
    ensures ExpandDimsAsWritten(a, -6, 1).read([0, i, j]) == a.read([i, j])
    ensures ExpandDims(a, -6, 1) == Err(AxisOutOfRange)
  {
    assert ExpandAxis(-6, 2) == -3;
    assert Prefix([4, 5], -3) == [] && Suffix([4, 5], -3) == [4, 5];
    assert [] + Ones(1) + [4, 5] == [1, 4, 5];
    assert Prefix([0, i, j], -3) == [] && Suffix([0, i, j], -2) == [i, j];
    assert DropAxes([0, i, j], -3, 1) == [i, j];
  }
}
