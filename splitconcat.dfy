/** `split` and `concatenate` are inverse along the same axis: joining the pieces of a split
    gives back the tensor that was split. */
module SplitConcat {
  import opened Layout
  import opened Tensors
  import opened Concatenation
  import opened Splitting

  /** `ps` are the pieces of `ary` cut at the ordered offsets `begins` on the axis. */
  ghost predicate PiecesOf<V>(ps: seq<Tensor<V>>, ary: Tensor<V>, axis: int, begins: seq<int>)
  {
    var ax := NormalizeAxis(axis, |ary.shape|);
    0 <= ax < |ary.shape| &&
    |begins| >= 1 && begins[0] == 0 && NonDecreasing(begins) && Within(begins, ary.shape[ax]) &&
    |ps| == |begins| && forall k :: 0 <= k < |ps| ==> ps[k] == Piece(ary, ax, begins, k)
  }

  /** An accepted split gives the pieces of the input at its begin offsets. */
  lemma SplitPieces<V>(ary: Tensor<V>, spec: SplitSpec, axis: int)
    requires SplitAccepts(ary.shape, spec, axis)
    ensures var ax := NormalizeAxis(axis, |ary.shape|);
      PiecesOf(Split(ary, spec, axis).value, ary, axis, BeginIds(spec, ary.shape[ax]).value)
  {
    var ax := NormalizeAxis(axis, |ary.shape|);
    OffsetsOrdered(BeginIds(spec, ary.shape[ax]).value, ary.shape[ax]);
  }

  /** Pieces have the ranks and off-axis sizes that the join accepts, their sizes along the
      axis are the segment sizes, and all of these add up to the axis size. */
  lemma PiecesJoinable<V>(ps: seq<Tensor<V>>, ary: Tensor<V>, axis: int, begins: seq<int>)
    requires PiecesOf(ps, ary, axis, begins)
    ensures var ax := NormalizeAxis(axis, |ary.shape|);
      ConcatAccepts(ps, axis) && AgreeOffAxis(ps, ax) &&
      AxisSizes(ps, ax) == SegmentSizes(begins, ary.shape[ax]) &&
      Sum(AxisSizes(ps, ax)) == ary.shape[ax]
  {
    var ax := NormalizeAxis(axis, |ary.shape|);
    var size := ary.shape[ax];
    var sizes := AxisSizes(ps, ax);
    assert sizes == SegmentSizes(begins, size);
    assert NonDecreasing(begins[1..]);
    SegmentSizesTelescope(begins, size, |begins|);
    assert sizes[..|sizes|] == sizes;
  }

  /** Joining the pieces gives back the original shape. */
  lemma JoinPiecesShape<V>(ps: seq<Tensor<V>>, ary: Tensor<V>, axis: int, begins: seq<int>)
    requires PiecesOf(ps, ary, axis, begins)
    ensures Concatenate(ps, axis).Ok?
    ensures Concatenate(ps, axis).value.shape == ary.shape
  {
    var ax := NormalizeAxis(axis, |ary.shape|);
    PiecesJoinable(ps, ary, axis, begins);
    assert ps[0].shape == ary.shape[ax := SegmentSize(begins, ary.shape[ax], 0)];
    assert Concatenate(ps, axis).value.shape == ps[0].shape[ax := Sum(AxisSizes(ps, ax))];
  }

  /** At a coordinate inside the shape, the joined pieces read the original tensor there: the
      join moves the coordinate back by the sizes of the earlier pieces, and the piece moves
      it forward by its begin offset, which is the same amount. */
  lemma JoinPiecesRead<V>(ps: seq<Tensor<V>>, ary: Tensor<V>, axis: int, begins: seq<int>, idx: seq<int>)
    requires PiecesOf(ps, ary, axis, begins)
    requires InBounds(idx, ary.shape)
    ensures Concatenate(ps, axis).Ok?
    ensures Concatenate(ps, axis).value.read(idx) == ary.read(idx)
  {
    var ax := NormalizeAxis(axis, |ary.shape|);
    PiecesJoinable(ps, ary, axis, begins);
    JoinPiecesShape(ps, ary, axis, begins);
    var j := ConcatenateInBounds(ps, axis, idx);
    SegmentSizesTelescope(begins, ary.shape[ax], j);
    PieceAtOffset(ps, ary, axis, begins, j, idx);
  }

  /** Piece `j`, read at a coordinate moved back by its begin offset, reads the input at the
      coordinate itself. */
  lemma PieceAtOffset<V>(ps: seq<Tensor<V>>, ary: Tensor<V>, axis: int, begins: seq<int>, j: nat,
                         idx: seq<int>)
    requires PiecesOf(ps, ary, axis, begins) && j < |ps|
    requires InBounds(idx, ary.shape)
    ensures var ax := NormalizeAxis(axis, |ary.shape|);
      ps[j].read(idx[ax := idx[ax] - begins[j]]) == ary.read(idx)
  {
    var ax := NormalizeAxis(axis, |ary.shape|);
    var src := idx[ax := idx[ax] - begins[j]];
    assert ps[j] == Piece(ary, ax, begins, j);
    assert Shift(src, ax, begins[j]) == idx;
  }

  /** Splitting a tensor and joining the pieces again along the same axis gives the original
      shape and the original value at every coordinate inside it. */
  lemma SplitThenConcatenate<V>(ary: Tensor<V>, spec: SplitSpec, axis: int)
    requires SplitAccepts(ary.shape, spec, axis)
    ensures Concatenate(Split(ary, spec, axis).value, axis).Ok?
    ensures SameArray(Concatenate(Split(ary, spec, axis).value, axis).value, ary)
  {
    var ax := NormalizeAxis(axis, |ary.shape|);
    var begins := BeginIds(spec, ary.shape[ax]).value;
    var ps := Split(ary, spec, axis).value;
    SplitPieces(ary, spec, axis);
    JoinPiecesShape(ps, ary, axis, begins);
    forall idx | InBounds(idx, ary.shape)
      ensures Concatenate(ps, axis).value.read(idx) == ary.read(idx)
    {
      JoinPiecesRead(ps, ary, axis, begins, idx);
    }
  }

  /** Shape (3, 12) split into 3 pieces on axis 1 and joined back along
      axis 1 is the original tensor. */
  lemma SplitConcatExample<V>(ary: Tensor<V>)
    requires ary.shape == [3, 12]
    ensures Split(ary, Sections(3), 1).Ok?
    ensures Concatenate(Split(ary, Sections(3), 1).value, 1).Ok?
    ensures SameArray(Concatenate(Split(ary, Sections(3), 1).value, 1).value, ary)
  {
    SplitExample(ary, 0, 0);
    SplitThenConcatenate(ary, Sections(3), 1);
  }
}
