/** `concatenate`: joins tensors along an existing axis. The value at an output coordinate is
    picked by a cascade of guarded selections, one per input after the first. */
module Concatenation {
  import opened Layout
  import opened PySlicing
  import opened Tensors

  /** `[a_tuple[i].shape[axis] for i in range(len(a_tuple))]` */
  function AxisSizes<V>(ts: seq<Tensor<V>>, axis: nat): (sizes: seq<nat>)
    requires forall i :: 0 <= i < |ts| ==> axis < |ts[i].shape|
    ensures |sizes| == |ts| && forall i :: 0 <= i < |ts| ==> sizes[i] == ts[i].shape[axis]
  {
    seq(|ts|, i requires 0 <= i < |ts| => ts[i].shape[axis])
  }

  /** The running result `ret` of the coordinate map after its first `k` rounds. Round `i`
      subtracts `axis_sizes[i]` from the running axis coordinate, which is then
      `idx[axis] - Sum(sizes[..i + 1])`, and selects input `i + 1` when that is not negative. */
  function Cascade<V>(ts: seq<Tensor<V>>, sizes: seq<nat>, axis: nat, idx: seq<int>, k: nat): V
    requires |sizes| == |ts| && k < |ts| && axis < |idx|
  {
    if k == 0 then ts[0].read(idx)
    else
      var ind := idx[axis] - Sum(sizes[..k]);
      if ind >= 0 then ts[k].read(idx[axis := ind]) else Cascade(ts, sizes, axis, idx, k - 1)
  }

  /** The arguments that `concatenate` accepts: a non-empty tuple, an axis of the first tensor
      after normalisation, and inputs all of the first tensor's rank. */
  predicate ConcatAccepts<V>(ts: seq<Tensor<V>>, axis: int)
  {
    |ts| > 0 &&
    0 <= NormalizeAxis(axis, |ts[0].shape|) < |ts[0].shape| &&
    forall i :: 0 <= i < |ts| ==> |ts[i].shape| == |ts[0].shape|
  }

  /** `concatenate(a_tuple, axis)`. `a_tuple[0]` raises on an empty tuple; the normalised axis
      is checked against the first tensor's rank from above only; `shape[axis]` raises on an
      input it cannot index. A normalised axis in `[-rank, 0)` of every input passes those
      checks, but the output shape then has more axes than the first input, which the first
      tensor call of the coordinate map rejects; an input of another rank is rejected the same
      way. */
  function Concatenate<V>(ts: seq<Tensor<V>>, axis: int := 0): (r: Result<Tensor<V>>)
    ensures r.Ok? <==> ConcatAccepts(ts, axis)
    ensures |ts| == 0 ==> r == Err(EmptyInput)
    ensures r.Ok? ==> |r.value.shape| == |ts[0].shape|
  {
    if |ts| == 0 then Err(EmptyInput)
    else
      var rank := |ts[0].shape|;
      var ax := NormalizeAxis(axis, rank);
      if !(ax < rank) then Err(AxisOutOfRange)
      else if exists i :: 0 <= i < |ts| && !Indexable(ax, |ts[i].shape|) then Err(AxisOutOfRange)
      else if ax < 0 then Err(RankMismatch)
      else if exists i :: 0 <= i < |ts| && |ts[i].shape| != rank then Err(RankMismatch)
      else
        var sizes := AxisSizes(ts, ax);
        var n := |ts|;
        Ok(Tensor(ts[0].shape[ax := Sum(sizes)],
          (idx: seq<int>) => if ax < |idx| then Cascade(ts, sizes, ax, idx, n - 1) else ts[0].read(idx)))
  }

  /** The coordinate map's loop, updating `ind` and `ret` as the source does. */
  method ConcatenateCompute<V>(ts: seq<Tensor<V>>, sizes: seq<nat>, axis: nat, idx: seq<int>)
    returns (v: V)
    requires |ts| > 0 && |sizes| == |ts| && axis < |idx|
    ensures v == Cascade(ts, sizes, axis, idx, |ts| - 1)
    ensures forall j :: 0 <= j < |ts| && Sum(sizes[..j]) <= idx[axis] < Sum(sizes[..j + 1]) ==>
      v == ts[j].read(idx[axis := idx[axis] - Sum(sizes[..j])])
  {
    var ret := ts[0].read(idx);
    var ind := idx[axis];
    for i := 0 to |ts| - 1
      invariant ind == idx[axis] - Sum(sizes[..i])
      invariant ret == Cascade(ts, sizes, axis, idx, i)
    {
      SumPrefixStep(sizes, i);
      ind := ind - sizes[i];
      assert idx[..axis] + [ind] + idx[axis + 1..] == idx[axis := ind];
      ret := if ind >= 0 then ts[i + 1].read(idx[..axis] + [ind] + idx[axis + 1..]) else ret;
    }
    v := ret;
    forall j | 0 <= j < |ts| && Sum(sizes[..j]) <= idx[axis] < Sum(sizes[..j + 1])
      ensures v == ts[j].read(idx[axis := idx[axis] - Sum(sizes[..j])])
    {
      CascadeSelects(ts, sizes, axis, idx, |ts| - 1, j);
    }
  }

  /** If the axis coordinate lies in the segment of input `j` (from the sum of the sizes before
      it to that sum plus its own size), the cascade reads input `j` at the coordinate moved
      back by that sum. Later inputs never win, because their running coordinate is negative. */
  lemma {:induction false} CascadeSelects<V>(ts: seq<Tensor<V>>, sizes: seq<nat>, axis: nat,
                                           idx: seq<int>, k: nat, j: nat)
    requires |sizes| == |ts| && j <= k < |ts| && axis < |idx|
    requires Sum(sizes[..j]) <= idx[axis] < Sum(sizes[..j + 1])
    ensures Cascade(ts, sizes, axis, idx, k) == ts[j].read(idx[axis := idx[axis] - Sum(sizes[..j])])
  {
    if k > j {
      SumPrefixMono(sizes, j + 1, k);
      CascadeSelects(ts, sizes, axis, idx, k - 1, j);
    } else if j == 0 {
      assert sizes[..0] == [];
      assert idx[axis := idx[axis]] == idx;
    }
  }

  /** Every axis coordinate inside the total size lies in the segment of exactly one input. */
  lemma {:induction false} FindSegment(sizes: seq<nat>, c: int) returns (j: nat)
    requires 0 <= c < Sum(sizes)
    ensures j < |sizes| && Sum(sizes[..j]) <= c < Sum(sizes[..j + 1])
    ensures forall i :: 0 <= i < |sizes| && Sum(sizes[..i]) <= c < Sum(sizes[..i + 1]) ==> i == j
    decreases |sizes|
  {
    j := SomeSegment(sizes, c);
    forall i | 0 <= i < |sizes| && Sum(sizes[..i]) <= c < Sum(sizes[..i + 1]) ensures i == j {
      SegmentUnique(sizes, c, i, j);
    }
  }

  /** Segments do not overlap: a coordinate lies in at most one of them. */
  lemma SegmentUnique(sizes: seq<nat>, c: int, i: nat, j: nat)
    requires i < |sizes| && j < |sizes|
    requires Sum(sizes[..i]) <= c < Sum(sizes[..i + 1])
    requires Sum(sizes[..j]) <= c < Sum(sizes[..j + 1])
    ensures i == j
  {
    if i < j {
      SumPrefixMono(sizes, i + 1, j);
    } else if j < i {
      SumPrefixMono(sizes, j + 1, i);
    }
  }

  /** The existence half of `FindSegment`, by induction on the number of inputs. */
  lemma {:induction false} SomeSegment(sizes: seq<nat>, c: int) returns (j: nat)
    requires 0 <= c < Sum(sizes)
    ensures j < |sizes| && Sum(sizes[..j]) <= c < Sum(sizes[..j + 1])
    decreases |sizes|
  {
    var n := |sizes|;
    var init := sizes[..n - 1];
    assert sizes[..n] == sizes;
    if c >= Sum(init) {
      j := n - 1;
    } else {
      assert Sum(init) > 0;
      j := SomeSegment(init, c);
      assert init[..j] == sizes[..j] && init[..j + 1] == sizes[..j + 1];
    }
  }

  /** The inputs agree with the first one on every axis except `axis`; `concatenate` relies on
      this without checking it. */
  predicate AgreeOffAxis<V>(ts: seq<Tensor<V>>, axis: nat)
    requires |ts| > 0
  {
    forall i, k :: 0 <= i < |ts| && 0 <= k < |ts[0].shape| && k != axis ==>
      k < |ts[i].shape| && ts[i].shape[k] == ts[0].shape[k]
  }

  /** The output shape is the first input's shape except along the axis, where it is the sum
      of all the inputs' sizes. */
  lemma ConcatenateShape<V>(ts: seq<Tensor<V>>, axis: int)
    requires ConcatAccepts(ts, axis)
    ensures var ax, out := NormalizeAxis(axis, |ts[0].shape|), Concatenate(ts, axis).value.shape;
      out[ax] == Sum(AxisSizes(ts, ax)) &&
      forall k :: 0 <= k < |out| && k != ax ==> out[k] == ts[0].shape[k]
  {
  }

  /** Selection: for an output coordinate whose axis coordinate lies in the segment of input
      `j`, the output is input `j` at the coordinate moved back by the segment's start. */
  lemma ConcatenateSelects<V>(ts: seq<Tensor<V>>, axis: int, idx: seq<int>, j: nat)
    requires ConcatAccepts(ts, axis)
    requires |idx| == |ts[0].shape| && j < |ts|
    requires var ax := NormalizeAxis(axis, |ts[0].shape|);
      var sizes := AxisSizes(ts, ax);
      Sum(sizes[..j]) <= idx[ax] < Sum(sizes[..j + 1])
    ensures var ax := NormalizeAxis(axis, |ts[0].shape|);
      var src := idx[ax := idx[ax] - Sum(AxisSizes(ts, ax)[..j])];
      Concatenate(ts, axis).value.read(idx) == ts[j].read(src)
  {
    var ax := NormalizeAxis(axis, |ts[0].shape|);
    var sizes := AxisSizes(ts, ax);
    CascadeSelects(ts, sizes, ax, idx, |ts| - 1, j);
    SumPrefixStep(sizes, j);
  }

  /** Every coordinate inside the output shape reads some input inside that input's shape. */
  lemma ConcatenateInBounds<V>(ts: seq<Tensor<V>>, axis: int, idx: seq<int>) returns (j: nat)
    requires ConcatAccepts(ts, axis)
    requires AgreeOffAxis(ts, NormalizeAxis(axis, |ts[0].shape|))
    requires InBounds(idx, Concatenate(ts, axis).value.shape)
    ensures j < |ts|
    ensures var ax := NormalizeAxis(axis, |ts[0].shape|);
      var src := idx[ax := idx[ax] - Sum(AxisSizes(ts, ax)[..j])];
      InBounds(src, ts[j].shape) && Concatenate(ts, axis).value.read(idx) == ts[j].read(src)
  {
    var ax := NormalizeAxis(axis, |ts[0].shape|);
    ConcatenateShape(ts, axis);
    var sizes := AxisSizes(ts, ax);
    j := FindSegment(sizes, idx[ax]);
    ConcatenateSelects(ts, axis, idx, j);
    SumPrefixStep(sizes, j);
  }

  /** Every element of every input appears in the output, moved along the axis by the sum of
      the sizes of the inputs before it. */
  lemma ConcatenateEmbeds<V>(ts: seq<Tensor<V>>, axis: int, j: nat, y: seq<int>)
    requires ConcatAccepts(ts, axis) && j < |ts|
    requires AgreeOffAxis(ts, NormalizeAxis(axis, |ts[0].shape|))
    requires InBounds(y, ts[j].shape)
    ensures var ax := NormalizeAxis(axis, |ts[0].shape|);
      var out := y[ax := y[ax] + Sum(AxisSizes(ts, ax)[..j])];
      InBounds(out, Concatenate(ts, axis).value.shape) &&
      Concatenate(ts, axis).value.read(out) == ts[j].read(y)
  {
    EmbedInBounds(ts, axis, j, y);
    EmbedRead(ts, axis, j, y);
  }

  /** The moved coordinate of an input element lies inside the output shape. */
  lemma EmbedInBounds<V>(ts: seq<Tensor<V>>, axis: int, j: nat, y: seq<int>)
    requires ConcatAccepts(ts, axis) && j < |ts|
    requires AgreeOffAxis(ts, NormalizeAxis(axis, |ts[0].shape|))
    requires InBounds(y, ts[j].shape)
    ensures var ax := NormalizeAxis(axis, |ts[0].shape|);
      InBounds(y[ax := y[ax] + Sum(AxisSizes(ts, ax)[..j])], Concatenate(ts, axis).value.shape)
  {
    var ax := NormalizeAxis(axis, |ts[0].shape|);
    var sizes := AxisSizes(ts, ax);
    ConcatenateShape(ts, axis);
    SumPrefixStep(sizes, j);
    SumPrefixMono(sizes, j + 1, |ts|);
    assert sizes[..|ts|] == sizes;
    ShiftInBounds(y, ts[j].shape, Concatenate(ts, axis).value.shape, ax, Sum(sizes[..j]));
  }

  /** The output at the moved coordinate of an input element is that element. */
  lemma EmbedRead<V>(ts: seq<Tensor<V>>, axis: int, j: nat, y: seq<int>)
    requires ConcatAccepts(ts, axis) && j < |ts|
    requires InBounds(y, ts[j].shape)
    ensures var ax := NormalizeAxis(axis, |ts[0].shape|);
      Concatenate(ts, axis).value.read(y[ax := y[ax] + Sum(AxisSizes(ts, ax)[..j])]) == ts[j].read(y)
  {
    var ax := NormalizeAxis(axis, |ts[0].shape|);
    var sizes := AxisSizes(ts, ax);
    var p := Sum(sizes[..j]);
    var out := y[ax := y[ax] + p];
    SumPrefixStep(sizes, j);
    ConcatenateSelects(ts, axis, out, j);
    assert out[ax := out[ax] - p] == y;
  }

  /** A coordinate inside `s`, moved by `p` along an axis on which `t` has room for it, lies
      inside `t` when `t` agrees with `s` on every other axis. */
  lemma ShiftInBounds(y: seq<int>, s: seq<nat>, t: seq<nat>, ax: nat, p: nat)
    requires InBounds(y, s) && ax < |s| && |t| == |s|
    requires forall k :: 0 <= k < |s| && k != ax ==> t[k] == s[k]
    requires p + s[ax] <= t[ax]
    ensures InBounds(y[ax := y[ax] + p], t)
    ensures var out := y[ax := y[ax] + p]; out[ax := out[ax] - p] == y
  {
    var out := y[ax := y[ax] + p];
    assert out[ax := out[ax] - p] == y;
  }

  /** A single input: the shape is unchanged and the loop never runs, so the output reads the
      input at the same coordinate. */
  lemma ConcatenateSingle<V>(t: Tensor<V>, axis: int, idx: seq<int>)
    requires 0 <= NormalizeAxis(axis, |t.shape|) < |t.shape|
    ensures Concatenate([t], axis).Ok?
    ensures Concatenate([t], axis).value.shape == t.shape
    ensures Concatenate([t], axis).value.read(idx) == t.read(idx)
  {
    var ax := NormalizeAxis(axis, |t.shape|);
    var sizes := AxisSizes([t], ax);
    assert sizes[..0] == [] && Sum(sizes) == t.shape[ax];
    assert t.shape[ax := t.shape[ax]] == t.shape;
  }

  /** Shapes (3, 4) and (3, 6) joined on axis 1 give (3, 10); column c reads the first input
      at c below 4 and the second at c - 4 from there on. */
  lemma ConcatenateExample<V>(t0: Tensor<V>, t1: Tensor<V>, r: int, c: int)
    requires t0.shape == [3, 4] && t1.shape == [3, 6] && 0 <= c < 10
    ensures Concatenate([t0, t1], 1).Ok?
    ensures Concatenate([t0, t1], 1).value.shape == [3, 10]
    ensures Concatenate([t0, t1], 1).value.read([r, c]) ==
      if c < 4 then t0.read([r, c]) else t1.read([r, c - 4])
  {
    var ts := [t0, t1];
    var sizes := AxisSizes(ts, 1);
    assert sizes == [4, 6];
    assert sizes[..0] == [] && sizes[..1] == [4] && sizes[..2] == sizes;
    assert [4, 6][..1] == [4];
    if c < 4 {
      ConcatenateSelects(ts, 1, [r, c], 0);
      assert [r, c][1 := c] == [r, c];
    } else {
      ConcatenateSelects(ts, 1, [r, c], 1);
      assert [r, c][1 := c - 4] == [r, c - 4];
    }
  }

  /** The output-shape derivation exactly as written, for any axis: the axis is checked only
      against the upper end, and `shape[i]` follows Python's negative indexing. */
  function ConcatShapeAsWritten(shapes: seq<seq<nat>>, axis: int): Result<seq<nat>>
  {
    if |shapes| == 0 then Err(EmptyInput)
    else
      var rank := |shapes[0]|;
      var ax := NormalizeAxis(axis, rank);
      if !(ax < rank) then Err(AxisOutOfRange)
      else if exists i :: 0 <= i < |shapes| && !Indexable(ax, |shapes[i]|) then Err(AxisOutOfRange)
      else
        var total: nat := Sum(WrappedSizes(shapes, ax));
        Ok(Gather<nat>(shapes[0], 0, ax) + [total] + Gather<nat>(shapes[0], ax + 1, rank))
  }

  /** `[a_tuple[i].shape[axis] for i in range(len(a_tuple))]` with Python's indexing. */
  function WrappedSizes(shapes: seq<seq<nat>>, ax: int): (sizes: seq<nat>)
    requires forall i :: 0 <= i < |shapes| ==> Indexable(ax, |shapes[i]|)
    ensures |sizes| == |shapes|
    ensures forall i :: 0 <= i < |shapes| ==> sizes[i] == shapes[i][Wrap(ax, |shapes[i]|)]
  {
    seq(|shapes|, i requires 0 <= i < |shapes| => shapes[i][Wrap(ax, |shapes[i]|)])
  }

  /** The shapes of a tuple of tensors. */
  function Shapes<V>(ts: seq<Tensor<V>>): (ss: seq<seq<nat>>)
    ensures |ss| == |ts| && forall i :: 0 <= i < |ts| ==> ss[i] == ts[i].shape
  {
    seq(|ts|, i requires 0 <= i < |ts| => ts[i].shape)
  }

  /** For every accepted axis the written derivation gives the shape the model gives. */
  lemma ConcatShapeAsWrittenAgrees<V>(ts: seq<Tensor<V>>, axis: int)
    requires ConcatAccepts(ts, axis)
    ensures ConcatShapeAsWritten(Shapes(ts), axis) == Ok(Concatenate(ts, axis).value.shape)
  {
    var rank := |ts[0].shape|;
    var ax := NormalizeAxis(axis, rank);
    var s := ts[0].shape;
    GatherIsSlice<nat>(s, 0, ax);
    GatherIsSlice<nat>(s, ax + 1, rank);
    var ss := Shapes(ts);
    assert forall i :: 0 <= i < |ss| ==> Indexable(ax, |ss[i]|);
    var sizes := WrappedSizes(ss, ax);
    assert sizes == AxisSizes(ts, ax);
    var total: nat := Sum(sizes);
    assert |ss| != 0 && ss[0] == s && NormalizeAxis(axis, |ss[0]|) == ax;
    assert !exists i :: 0 <= i < |ss| && !Indexable(ax, |ss[i]|);
    assert ConcatShapeAsWritten(ss, axis).Ok?;
    assert ConcatShapeAsWritten(ss, axis).value == Gather<nat>(s, 0, ax) + [total] + Gather<nat>(s, ax + 1, rank);
    assert Gather<nat>(s, 0, ax) + [total] + Gather<nat>(s, ax + 1, rank) == s[ax := total];
    assert Concatenate(ts, axis).value.shape == s[ax := total];
  }

  /** An axis below `-rank` passes the axis check. Two inputs of shape (3, 4) joined on axis
      -3 (normalised to -1) get the rank-3 output shape (8, 3, 4), so the coordinate map calls
      the first input with three indices, and that call fails. */
  lemma ConcatAxisBelowRankAsWritten<V>(t0: Tensor<V>, t1: Tensor<V>)
    requires t0.shape == [3, 4] && t1.shape == [3, 4]
    ensures ConcatShapeAsWritten([[3, 4], [3, 4]], -3) == Ok([8, 3, 4])
    ensures Concatenate([t0, t1], -3) == Err(RankMismatch)
  {
    var s: seq<nat> := [3, 4];
    var shapes := [s, s];
    assert NormalizeAxis(-3, 2) == -1;
    assert forall i :: 0 <= i < |shapes| ==> Indexable(-1, |shapes[i]|);
    assert Gather<nat>(s, 0, -1) == [];
    assert Gather<nat>(s, 0, 2) == [3, 4];
    var sizes := WrappedSizes(shapes, -1);
    assert sizes == [4, 4];
    assert sizes[..1] == [4] && sizes[..1][..0] == [];
    assert Sum(sizes[..1]) == 4;
    assert Sum(sizes) == 8;
    assert ConcatShapeAsWritten(shapes, -3) == Ok(Gather<nat>(s, 0, -1) + [8] + Gather<nat>(s, 0, 2));
    assert Gather<nat>(s, 0, -1) + [8] + Gather<nat>(s, 0, 2) == [8, 3, 4];
  }
}
