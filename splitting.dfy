/** `split`: cuts a tensor into contiguous pieces along one axis. Each piece reads the input at
    its coordinate moved along the axis by the piece's begin offset. */
module Splitting {
  import opened Layout
  import opened PySlicing
  import opened Tensors

  /** `indices_or_sections`: an int count of equal pieces, a list or tuple of boundaries, or a
      value of any other type. */
  datatype SplitSpec = Sections(count: int) | Boundaries(indices: seq<int>) | Unsupported

  /** `tuple(b) == tuple(sorted(b))`: the boundaries are in non-decreasing order (equal
      neighbours pass). */
  predicate NonDecreasing(b: seq<int>)
  {
    forall i, j :: 0 <= i <= j < |b| ==> b[i] <= b[j]
  }

  /** Every begin offset lies on the axis, ends included. */
  predicate Within(begins: seq<int>, size: nat)
  {
    forall k :: 0 <= k < |begins| ==> 0 <= begins[k] <= size
  }

  /** `begin_ids`, or the failure that the source raises while deriving it. */
  function BeginIds(spec: SplitSpec, size: nat): (r: Result<seq<int>>)
    ensures spec.Sections? ==> (r.Ok? <==> spec.count > 0 && size % spec.count == 0)
    ensures spec.Sections? && spec.count <= 0 ==> r == Err(NonPositiveSections)
    ensures spec.Sections? && spec.count > 0 && size % spec.count != 0 ==> r == Err(IndivisibleSplit)
    ensures spec.Boundaries? ==> (r.Ok? <==> NonDecreasing(spec.indices))
    ensures spec.Boundaries? && !NonDecreasing(spec.indices) ==> r == Err(UnsortedBoundaries)
    ensures spec.Unsupported? ==> r == Err(UnsupportedSpec)
    ensures r.Ok? && spec.Sections? ==>
      |r.value| == spec.count && forall i :: 0 <= i < spec.count ==> r.value[i] == (size / spec.count) * i
    ensures r.Ok? && spec.Boundaries? ==> r.value == [0] + spec.indices
    ensures r.Ok? ==> |r.value| >= 1 && r.value[0] == 0 && NonDecreasing(r.value[1..])
    ensures r.Ok? && spec.Sections? ==> NonDecreasing(r.value) && Within(r.value, size)
  {
    match spec
    case Sections(n) =>
      if !(n > 0) then Err(NonPositiveSections)
      else if size % n != 0 then Err(IndivisibleSplit)
      else
        ExactQuotient(size, n);
        var q: nat := size / n;
        SectionsOrdered(q, n);
        Ok(seq(n, i => q * i))
    case Boundaries(b) =>
      if !NonDecreasing(b) then Err(UnsortedBoundaries) else Ok([0] + b)
    case Unsupported => Err(UnsupportedSpec)
  }

  /** `size // n` for a count that divides the size. */
  lemma ExactQuotient(size: nat, n: int)
    requires n > 0 && size % n == 0
    ensures size / n >= 0 && (size / n) * n == size
  {
    assert size == (size / n) * n + size % n;
  }

  /** The offsets of equal pieces of size `q` are ordered, and all lie on an axis of `q * n`. */
  lemma SectionsOrdered(q: nat, n: nat)
    ensures NonDecreasing(seq(n, i => q * i))
    ensures Within(seq(n, i => q * i), q * n)
  {
    var b := seq(n, i => q * i);
    forall i, j | 0 <= i <= j < n ensures b[i] <= b[j] {
      MulLe(i, j, q);
    }
    forall k | 0 <= k < n ensures 0 <= b[k] <= q * n {
      MulLe(0, k, q);
      MulLe(k, n, q);
    }
  }

  /** Offsets that start at 0, are ordered after it and lie on the axis are ordered. */
  lemma OffsetsOrdered(begins: seq<int>, size: nat)
    requires |begins| >= 1 && begins[0] == 0 && NonDecreasing(begins[1..]) && Within(begins, size)
    ensures NonDecreasing(begins)
  {
    forall i, j | 0 <= i <= j < |begins| ensures begins[i] <= begins[j] {
      if 0 < i {
        assert begins[i] == begins[1..][i - 1] && begins[j] == begins[1..][j - 1];
      }
    }
  }

  /** `out_axis_size` of piece `i`: the gap to the next begin offset, and for the last piece
      the rest of the axis. */
  function SegmentSize(begins: seq<int>, size: nat, i: nat): int
    requires i < |begins|
  {
    if i == |begins| - 1 then size - begins[i] else begins[i + 1] - begins[i]
  }

  function SegmentSizes(begins: seq<int>, size: nat): (sizes: seq<int>)
    ensures |sizes| == |begins|
    ensures forall i :: 0 <= i < |begins| ==> sizes[i] == SegmentSize(begins, size, i)
  {
    seq(|begins|, i requires 0 <= i < |begins| => SegmentSize(begins, size, i))
  }

  /** Entry `i` of `out_shapes`: the input shape with the axis entry replaced by piece `i`'s
      size, the two outer parts built by index comprehensions (so a negative axis follows
      Python's indexing). */
  function OutShape(shape: seq<nat>, ax: int, begins: seq<int>, size: nat, i: nat): seq<int>
    requires Indexable(ax, |shape|) && i < |begins|
  {
    Gather<int>(shape, 0, ax) + [SegmentSize(begins, size, i)] + Gather<int>(shape, ax + 1, |shape|)
  }

  /** The `out_shapes` loop, appending one shape per begin offset. */
  method SplitShapes(shape: seq<nat>, ax: int, begins: seq<int>, size: nat)
    returns (outShapes: seq<seq<int>>)
    requires Indexable(ax, |shape|)
    ensures |outShapes| == |begins|
    ensures forall i :: 0 <= i < |begins| ==> outShapes[i] == OutShape(shape, ax, begins, size, i)
  {
    outShapes := [];
    for i := 0 to |begins|
      invariant |outShapes| == i
      invariant forall k :: 0 <= k < i ==> outShapes[k] == OutShape(shape, ax, begins, size, k)
    {
      var outAxisSize;
      if i == |begins| - 1 {
        outAxisSize := size - begins[i];
      } else {
        outAxisSize := begins[i + 1] - begins[i];
      }
      outShapes := outShapes + [Gather<int>(shape, 0, ax) + [outAxisSize] + Gather<int>(shape, ax + 1, |shape|)];
    }
  }

  /** For an axis inside the shape, entry `i` of `out_shapes` is the input shape with the axis
      entry replaced by piece `i`'s size. */
  lemma OutShapeAxis(shape: seq<nat>, ax: nat, begins: seq<int>, size: nat, i: nat)
    requires ax < |shape| && i < |begins|
    ensures var s: seq<int> := shape;
      OutShape(shape, ax, begins, size, i) == s[ax := SegmentSize(begins, size, i)]
  {
    var s: seq<int> := shape;
    GatherIsSlice<int>(s, 0, ax);
    GatherIsSlice<int>(s, ax + 1, |s|);
    assert s[..ax] + [SegmentSize(begins, size, i)] + s[ax + 1..] == s[ax := SegmentSize(begins, size, i)];
  }

  /** Ordered offsets on the axis: every piece size is non-negative, the sizes of the pieces
      before piece `k` add up to its begin offset, and all of them add up to the axis size. */
  lemma {:induction false} SegmentSizesTelescope(begins: seq<int>, size: nat, k: nat)
    requires |begins| >= 1 && begins[0] == 0 && NonDecreasing(begins[1..]) && Within(begins, size)
    requires k <= |begins|
    ensures forall i :: 0 <= i < |begins| ==> SegmentSize(begins, size, i) >= 0
    ensures k < |begins| ==> Sum(SegmentSizes(begins, size)[..k]) == begins[k]
    ensures k == |begins| ==> Sum(SegmentSizes(begins, size)[..k]) == size
  {
    var sizes := SegmentSizes(begins, size);
    OffsetsOrdered(begins, size);
    if k == 0 {
      assert sizes[..0] == [];
    } else {
      SegmentSizesTelescope(begins, size, k - 1);
      SumPrefixStep(sizes, k - 1);
    }
  }

  /** The arguments that the corrected `split` accepts. */
  predicate SplitAccepts(shape: seq<nat>, spec: SplitSpec, axis: int)
  {
    var ax := NormalizeAxis(axis, |shape|);
    0 <= ax < |shape| &&
    BeginIds(spec, shape[ax]).Ok? &&
    Within(BeginIds(spec, shape[ax]).value, shape[ax])
  }

  /** Piece `k`: the input shape with the axis entry replaced by the piece size, read at the
      coordinate moved along the axis by the begin offset (`_compute(begin, *indices)`). */
  function Piece<V>(ary: Tensor<V>, ax: nat, begins: seq<int>, k: nat): (t: Tensor<V>)
    requires ax < |ary.shape| && k < |begins|
    requires NonDecreasing(begins) && Within(begins, ary.shape[ax])
    ensures t.shape == ary.shape[ax := SegmentSize(begins, ary.shape[ax], k)]
  {
    var size: nat := SegmentSize(begins, ary.shape[ax], k);
    Tensor(ary.shape[ax := size], (idx: seq<int>) => ary.read(Shift(idx, ax, begins[k])))
  }

  /** `split(ary, indices_or_sections, axis)` with boundaries outside the axis rejected.
      `ary.shape[axis]` raises for an axis it cannot index; the begin offsets may fail; a
      normalised axis that is still negative gives output shapes with more axes than `ary`,
      which the tensor call in the coordinate map rejects. */
  function Split<V>(ary: Tensor<V>, spec: SplitSpec, axis: int := 0): (r: Result<seq<Tensor<V>>>)
    ensures r.Ok? <==> SplitAccepts(ary.shape, spec, axis)
    ensures var ax := NormalizeAxis(axis, |ary.shape|);
      r.Ok? ==> (var begins := BeginIds(spec, ary.shape[ax]).value;
        |r.value| == |begins| &&
        forall k :: 0 <= k < |begins| ==>
          r.value[k].shape == ary.shape[ax := SegmentSize(begins, ary.shape[ax], k)])
    ensures var ax := NormalizeAxis(axis, |ary.shape|);
      Indexable(ax, |ary.shape|) && BeginIds(spec, ary.shape[Wrap(ax, |ary.shape|)]).Err? ==>
        r == Err(BeginIds(spec, ary.shape[Wrap(ax, |ary.shape|)]).error)
  {
    var rank := |ary.shape|;
    var ax := NormalizeAxis(axis, rank);
    if !Indexable(ax, rank) then Err(AxisOutOfRange)
    else
      var size := ary.shape[Wrap(ax, rank)];
      var b := BeginIds(spec, size);
      if b.Err? then Err(b.error)
      else if ax < 0 then Err(RankMismatch)
      else if !Within(b.value, size) then Err(BoundaryOutOfRange)
      else
        OffsetsOrdered(b.value, size);
        Ok(seq(|b.value|, k requires 0 <= k < |b.value| => Piece(ary, ax, b.value, k)))
  }

  /** Every coordinate inside a piece reads the input inside the input's shape, at the
      piece's begin offset plus the coordinate along the axis. */
  lemma SplitInBounds<V>(ary: Tensor<V>, spec: SplitSpec, axis: int, k: nat, idx: seq<int>)
    requires SplitAccepts(ary.shape, spec, axis)
    requires k < |Split(ary, spec, axis).value|
    requires InBounds(idx, Split(ary, spec, axis).value[k].shape)
    ensures var ax := NormalizeAxis(axis, |ary.shape|);
      var begins := BeginIds(spec, ary.shape[ax]).value;
      var src := idx[ax := idx[ax] + begins[k]];
      InBounds(src, ary.shape) && Split(ary, spec, axis).value[k].read(idx) == ary.read(src)
  {
    var ax := NormalizeAxis(axis, |ary.shape|);
    var begins := BeginIds(spec, ary.shape[ax]).value;
    var size := ary.shape[ax];
    SegmentSizesTelescope(begins, size, 0);
    var src := idx[ax := idx[ax] + begins[k]];
    var p := Piece(ary, ax, begins, k);
    assert Split(ary, spec, axis).value[k] == p;
    assert p.read(idx) == ary.read(Shift(idx, ax, begins[k]));
    assert 0 <= idx[ax] < SegmentSize(begins, size, k);
    assert 0 <= begins[k] && idx[ax] + begins[k] < size by {
      if k < |begins| - 1 {
        assert begins[k + 1] <= size;
      }
    }
    forall i | 0 <= i < |ary.shape| ensures 0 <= src[i] < ary.shape[i] {
      if i != ax {
        assert src[i] == idx[i] && p.shape[i] == ary.shape[i];
      }
    }
  }

  /** Splitting into `n` equal pieces: the offsets are the multiples of `size / n` and every
      piece has that size along the axis. */
  lemma SplitSections<V>(ary: Tensor<V>, n: int, axis: int)
    requires 0 <= NormalizeAxis(axis, |ary.shape|) < |ary.shape|
    requires n > 0 && ary.shape[NormalizeAxis(axis, |ary.shape|)] % n == 0
    ensures var ax := NormalizeAxis(axis, |ary.shape|);
      var size, r := ary.shape[ax], Split(ary, Sections(n), axis);
      r.Ok? && |r.value| == n &&
      forall k :: 0 <= k < n ==>
        BeginIds(Sections(n), size).value[k] == (size / n) * k &&
        r.value[k].shape == ary.shape[ax := size / n]
  {
    var ax := NormalizeAxis(axis, |ary.shape|);
    var size := ary.shape[ax];
    var q := size / n;
    var begins := BeginIds(Sections(n), size).value;
    assert begins == seq(n, i => q * i);
    forall k | 0 <= k < n ensures SegmentSize(begins, size, k) == q {
      if k == n - 1 {
        assert size == q * n;
        assert q * n - q * (n - 1) == q;
      } else {
        assert q * (k + 1) - q * k == q;
      }
    }
  }

  /** Shape (3, 12) split into 3 on axis 1: three (3, 4) pieces with offsets 0, 4 and 8, piece
      `k` reading the input at column `c + 4 * k`. */
  lemma SplitExample<V>(ary: Tensor<V>, r: int, c: int)
    requires ary.shape == [3, 12]
    ensures Split(ary, Sections(3), 1).Ok?
    ensures var ps := Split(ary, Sections(3), 1).value;
      |ps| == 3 &&
      (forall k :: 0 <= k < 3 ==> ps[k].shape == [3, 4] && ps[k].read([r, c]) == ary.read([r, c + 4 * k]))
  {
    SplitSections(ary, 3, 1);
    var ps := Split(ary, Sections(3), 1).value;
    var begins := BeginIds(Sections(3), 12).value;
    forall k | 0 <= k < 3 ensures ps[k].read([r, c]) == ary.read([r, c + 4 * k]) {
      assert ps[k] == Piece(ary, 1, begins, k);
      assert begins[k] == 4 * k;
      assert Shift([r, c], 1, 4 * k) == [r, c + 4 * k];
    }
  }

  /** Two failing calls on the default axis 0: boundaries (5, 3) are not sorted, and an axis
      of size 10 does not divide into 3 pieces. Neither produces any piece. */
  lemma SplitErrorExamples<V>(ary: Tensor<V>)
    requires ary.shape == [10]
    ensures Split(ary, Boundaries([5, 3])) == Err(UnsortedBoundaries)
    ensures Split(ary, Sections(3)) == Err(IndivisibleSplit)
  {
    assert !NonDecreasing([5, 3]) by { assert [5, 3][0] > [5, 3][1]; }
  }

  /** As written, boundaries are checked for order only. On an axis of size 10 the boundaries
      (3, 12) give the piece sizes 3, 9 and -2, and the coordinate 8 inside the second piece
      reads the input at 11, past the end of the axis; the boundaries (-3, 5) give the sizes
      -3, 8 and 5, and the coordinate 0 of the second piece reads the input at -3. The
      corrected operator rejects both. */
  lemma SplitBoundaryOutsideAsWritten<V>(ary: Tensor<V>)
    requires ary.shape == [10]
    ensures BeginIds(Boundaries([3, 12]), 10) == Ok([0, 3, 12])
    ensures SegmentSizes([0, 3, 12], 10) == [3, 9, -2]
    ensures InBounds([8], [9]) && Shift([8], 0, 3) == [11] && !InBounds([11], ary.shape)
    ensures BeginIds(Boundaries([-3, 5]), 10) == Ok([0, -3, 5])
    ensures SegmentSizes([0, -3, 5], 10) == [-3, 8, 5]
    ensures InBounds([0], [8]) && Shift([0], 0, -3) == [-3] && !InBounds([-3], ary.shape)
    ensures Split(ary, Boundaries([3, 12]), 0) == Err(BoundaryOutOfRange)
    ensures Split(ary, Boundaries([-3, 5]), 0) == Err(BoundaryOutOfRange)
  {
    BoundaryPastEnd();
    BoundaryBelowZero();
    assert !Within([0, 3, 12], 10) by { assert [0, 3, 12][2] > 10; }
    assert !Within([0, -3, 5], 10) by { assert [0, -3, 5][1] < 0; }
  }

  /** The boundaries (3, 12) on an axis of size 10 pass the order check, and the last piece
      has size -2. */
  lemma BoundaryPastEnd()
    ensures BeginIds(Boundaries([3, 12]), 10) == Ok([0, 3, 12])
    ensures SegmentSizes([0, 3, 12], 10) == [3, 9, -2]
    ensures InBounds([8], [9]) && Shift([8], 0, 3) == [11] && !InBounds([11], [10])
  {
    assert NonDecreasing([3, 12]) && [0] + [3, 12] == [0, 3, 12];
    var z := SegmentSizes([0, 3, 12], 10);
    assert z[0] == 3 && z[1] == 9 && z[2] == -2;
    assert z == [3, 9, -2];
    assert [8][0 := 8 + 3] == [11];
    assert [11][0] >= [10][0];
  }

  /** The boundaries (-3, 5) on an axis of size 10 pass the order check, and the first
      boundary is negative. */
  lemma BoundaryBelowZero()
    ensures BeginIds(Boundaries([-3, 5]), 10) == Ok([0, -3, 5])
    ensures SegmentSizes([0, -3, 5], 10) == [-3, 8, 5]
    ensures InBounds([0], [8]) && Shift([0], 0, -3) == [-3] && !InBounds([-3], [10])
  {
    assert NonDecreasing([-3, 5]) && [0] + [-3, 5] == [0, -3, 5];
    var z := SegmentSizes([0, -3, 5], 10);
    assert z[0] == -3 && z[1] == 8 && z[2] == 5;
    assert z == [-3, 8, 5];
    assert [0][0 := 0 + -3] == [-3];
    assert [-3][0] < 0;
  }
}
