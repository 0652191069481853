# Shape transformations of TOPI (`topi/python/topi/transform.py`)

TOPI builds tensor operators as lazily evaluated tensors. Each consists of an output shape
and a coordinate function, which computes the value at an output coordinate from the inputs.
The five injective transformations of `transform.py` never touch data. From their arguments
they derive an output shape, and a coordinate map that sends every output coordinate to a
coordinate of one of the inputs.

- `expand_dims` inserts axes of size 1.
- `transpose` permutes the axes.
- `reshape` keeps the row-major order of the elements under a new shape.
- `concatenate` joins tensors along an axis. A cascade of guarded selections picks the input.
- `split` cuts a tensor into pieces along an axis. Each piece has its own begin offset.

A tensor is modelled as a value `Tensor(shape, read)`. Here `shape` is a sequence of
natural numbers and `read` is a function from coordinates to values of a generic element
type. Each operator becomes a function that builds the new shape and composes the old `read`
with the coordinate map.
- Operators that can fail return `Result`. `Err` carries the reason the source raises.
- The three loops of the source are methods proved equal to the functions that the
  operators use:
  - the `idx` fill of `transpose`;
  - the `ind`/`ret` cascade of `concatenate`;
  - the `out_shapes` loop of `split`.
- `ravel_index` and `unravel_index` are imported from `topi/python/topi/util.py`. That file
  is not part of this model. They are defined here directly as row-major order, with the
  last axis varying fastest.
- Python's slicing and negative indexing, which the shape code relies on, are modelled in
  `PySlicing`. The shape of a TVM tensor is taken to slice and index like a Python list
  (see "Left out").

Modules, leaves first:
- `Layout`: element count, in-bounds coordinates, ravel and unravel.
- `PySlicing`: Python slice and index semantics.
- `Tensors`: the tensor value, errors, axis normalisation and sums.
- `Expand`, `Transposition`, `Reshaping`, `Concatenation`, `Splitting`: the five operators.
- `SplitConcat`: the round trip from split to concatenate.

The tensor call checks its arity. `tvm.compute` calls the coordinate function once while
building the operator, passing one index per output axis. Whenever that function then calls
an input tensor with a coordinate of the wrong length, the call raises. The model reports
this as `RankMismatch`. Several argument errors in the source are caught only by this check
(see "Left out").

## Model

| member | source | states |
|---|---|---|
| Layout.Unravel | topi/python/topi/transform.py:77 | unravelling gives a coordinate with one entry per axis of the target shape |
| Layout.Ravel | topi/python/topi/transform.py:77 | `ravel_index` in row-major order; its meaning is given by RavelInRange, RavelUnravel, UnravelRavel and RavelIsStrideSum |
| Layout.RavelInRange | topi/python/topi/transform.py:77 | a coordinate inside a shape ravels to a flat position in `[0, product(shape))` |
| Layout.UnravelInBounds | topi/python/topi/transform.py:77 | every flat position in `[0, product(shape))` unravels to a coordinate inside the shape |
| Layout.RavelUnravel | topi/python/topi/transform.py:77 | `ravel(unravel(f, s), s) == f` for every `0 <= f < product(s)` |
| Layout.UnravelRavel | topi/python/topi/transform.py:77 | `unravel(ravel(idx, s), s) == idx` for every coordinate inside `s` |
| Layout.RavelIsStrideSum | topi/python/topi/transform.py:77 | ravel agrees with the reference definition of row-major order: the sum of coordinate times stride, where the stride is the product of the later axis sizes |
| Layout.RowMajorExample | topi/python/topi/transform.py:77 | in shape (2, 3) coordinate (1, 2) is position 5; in shape (3, 2) position 5 is coordinate (2, 1); both directions |
| PySlicing.SliceBound | topi/python/topi/transform.py:25 | a slice bound lands inside `[0, len]` and is unchanged when it already lies there |
| PySlicing.PrefixSuffix | topi/python/topi/transform.py:25 | `s[:k] + s[k:] == s` for every `k` |
| PySlicing.Wrap | topi/python/topi/transform.py:100 | a valid Python index reads a position inside the sequence, the index itself when it is non-negative |
| PySlicing.Gather | topi/python/topi/transform.py:101-102 | the index comprehensions `[s[i] for i in range(lo, hi)]` of lines 101-102 and 156-157, with Python indexing; GatherIsSlice states that over non-negative bounds it is the slice `s[lo:hi]` |
| PySlicing.GatherIsSlice | topi/python/topi/transform.py:101-102 | over non-negative bounds, the comprehension `[s[i] for i in range(lo, hi)]` is the slice `s[lo:hi]` |
| Tensors.NormalizeAxis | topi/python/topi/transform.py:97-98 | a negative axis counts from the end of the first input's shape (and of `ary.shape` in `split`, lines 136-137); used by Concatenate and Split, whose lemmas state its effect |
| Tensors.Shift | topi/python/topi/transform.py:133 | moving a coordinate along one axis keeps its length |
| Tensors.Sum | topi/python/topi/transform.py:101 | a sum of non-negative sizes is non-negative |
| Tensors.SumPrefixMono | topi/python/topi/transform.py:101 | over non-negative sizes a longer prefix never sums to less |
| Expand.ExpandAxis | topi/python/topi/transform.py:24 | expand_dims' own normalisation: a negative axis counts from the end of the expanded shape; ExpandDimsAppend and ExpandDimsArity state its effect |
| Expand.ExpandShape | topi/python/topi/transform.py:25 | the new shape built by slicing; ExpandDimsShape states it is the input shape with `n` ones at the normalised axis, and ExpandDimsMisplaced where the ones go below `-n` |
| Expand.DropAxes | topi/python/topi/transform.py:27 | the coordinate with the inserted positions removed; ExpandDimsShape and DropInBounds state that it undoes ExpandShape and maps inside the input, ExpandDimsArity when it has `rank` entries |
| Expand.ExpandDimsAsWritten | topi/python/topi/transform.py:24-29 | the shape and coordinate map exactly as the source builds them for any axis; ExpandDims returns it on the accepted range, and ExpandDimsMisplaced, ExpandDimsBelowRangeAsWritten and ExpandDimsAtFrontAsWritten describe it outside |
| Expand.ExpandDims | topi/python/topi/transform.py:9-29 | `num_newaxis` defaults to 1; accepted iff no axis is inserted or `-(rank+1) <= axis <= rank`; output rank is `rank + num_newaxis`; the rejection is `AxisOutOfRange` exactly on the normalised range `[-(rank+n), -n)`, which the source accepts (misreading all of it except its lowest axis), and the source's own arity failure elsewhere |
| Expand.ExpandDimsShape | topi/python/topi/transform.py:24-25 | output shape is the input shape with `n` ones inserted at the normalised axis, and removing those positions gives the input shape back |
| Expand.ExpandDimsInBounds | topi/python/topi/transform.py:26-28 | an output coordinate inside the output shape is 0 at every inserted axis, and the coordinate map sends it inside the input shape |
| Expand.DropInBounds | topi/python/topi/transform.py:25-28 | in a shape with `n` ones inserted, an in-bounds coordinate is 0 at the inserted positions and without them lies inside the original shape |
| Expand.ExpandDimsEmbeds | topi/python/topi/transform.py:25-28 | every input element appears in the output at the input coordinate with zeros inserted |
| Expand.ExpandDimsNone | topi/python/topi/transform.py:24-28 | inserting no axis is the identity on shape and values, whatever the axis |
| Expand.ExpandDimsAppend | topi/python/topi/transform.py:24-25 | `axis = -1` appends the new axes after the last one |
| Expand.ExpandDimsDefaultCount | topi/python/topi/transform.py:9-28 | with the default `num_newaxis=1`, axis 0 gives shape `(1,) + shape`, and the output at `out` reads the input at `out[1:]` |
| Expand.ExpandDimsExample | topi/python/topi/transform.py:24-28 | shape (4, 5), axis 1, two new axes: shape (4, 1, 1, 5) and `out(i, 0, 0, j) == a(i, j)` |
| Expand.ExpandDimsArity | topi/python/topi/transform.py:24-28 | with `n > 0` axes inserted, the coordinate map passes exactly `rank` indices iff the normalised axis lies in `[0, rank]` or in `[-(rank+n), -n)` |
| Expand.ExpandDimsMisplaced | topi/python/topi/transform.py:24-28 | for a normalised axis in `[-(rank+n), -n)`, the slices insert the ones at the clamped `rank + ax` while the map removes the positions from `rank + n + ax`; the two agree exactly at `ax = -(rank+n)` |
| Expand.ExpandDimsAtFrontAsWritten | topi/python/topi/transform.py:24-28 | axis -6 on shape (4, 5) (normalised -3, the lowest of the range) gives (1, 4, 5) and reads `a(i, j)` at `(0, i, j)`, so the source is right there; the model rejects it with `AxisOutOfRange` |
| Expand.ExpandDimsBelowRangeAsWritten | topi/python/topi/transform.py:24-28 | the source accepts axis -5 on shape (4, 5): shape (1, 4, 5) whose `(0, i, j)` reads `a(0, j)`; the model rejects it |
| Transposition.ReversedAxes | topi/python/topi/transform.py:49 | the default axes are `rank-1, ..., 0` |
| Transposition.EffectiveAxes | topi/python/topi/transform.py:49 | an omitted or empty axes list selects the reversed axes; TransposeDefault states the result |
| Transposition.AxesIndexable | topi/python/topi/transform.py:50 | every entry of `axes` indexes the shape, else the lookup `a.shape[x]` raises; Transpose states that the call is accepted exactly when it holds and there is one entry per input axis |
| Transposition.Scatter | topi/python/topi/transform.py:52-54 | the fill list keeps the length of `axes` after every round |
| Transposition.TransposeIndex | topi/python/topi/transform.py:52-55 | the input coordinate the map passes to `a`: the whole fill; TransposeCompute and TransposeInBounds state that for a permutation `idx[axes[i]] == out[i]` |
| Transposition.Transpose | topi/python/topi/transform.py:48-56 | accepted iff every (defaulted) axis indexes the shape and there is one per input axis; output shape entry `i` is `shape[axes[i]]` |
| Transposition.TransposeCompute | topi/python/topi/transform.py:52-54 | the loop over a pre-allocated list computes the coordinate map; for a permutation, position `axes[i]` holds output coordinate `i` |
| Transposition.ScatterWrites | topi/python/topi/transform.py:52-54 | with distinct targets no round of the fill is overwritten |
| Transposition.TransposeInBounds | topi/python/topi/transform.py:50-55 | for a permutation, `idx[axes[i]] == out[i]`, and an in-bounds output coordinate reads an in-bounds input coordinate |
| Transposition.TransposeDefault | topi/python/topi/transform.py:49-55 | default axes: shape reversed, `out(x) == a(reverse(x))` |
| Transposition.TransposeTwice | topi/python/topi/transform.py:49-55 | transposing twice with default axes gives the original shape and the original value at every coordinate |
| Transposition.TransposeRepeatedAxis | topi/python/topi/transform.py:52-55 | repeated axes (0, 0) on shape (2, 1) are accepted, and output (0, 1) reads input (1, 1), outside the input |
| Reshaping.ReshapeIndex | topi/python/topi/transform.py:77 | the coordinate map gives a coordinate with one entry per input axis |
| Reshaping.Reshape | topi/python/topi/transform.py:74-77 | the output shape is exactly `newshape` |
| Reshaping.ReshapeInBounds | topi/python/topi/transform.py:74-77 | with equal element counts, an in-bounds output coordinate reads an in-bounds input coordinate at the same row-major position |
| Reshaping.ReshapeEmbeds | topi/python/topi/transform.py:74-77 | every input element appears at the output coordinate with the same row-major position |
| Reshaping.ReshapeBack | topi/python/topi/transform.py:74-77 | reshaping back to the original shape restores every element |
| Reshaping.ReshapeExample | topi/python/topi/transform.py:74-77 | (2, 3) reshaped to (3, 2): output (2, 1) reads input (1, 2) |
| Concatenation.AxisSizes | topi/python/topi/transform.py:100 | one size per input, the input's size on the axis |
| Concatenation.Cascade | topi/python/topi/transform.py:104-112 | the running `ret` after `k` rounds of the select cascade; ConcatenateCompute proves the loop equal to it and CascadeSelects that it selects input `j` in segment `j` |
| Concatenation.Concatenate | topi/python/topi/transform.py:81-113 | `axis` defaults to 0; accepted iff the tuple is non-empty, the normalised axis is an axis of the first input, and all inputs have its rank; an empty tuple gives `EmptyInput`; output rank is the first input's |
| Concatenation.ConcatenateCompute | topi/python/topi/transform.py:104-112 | the `ind`/`ret` loop computes the cascade, and it returns input `j` at the coordinate moved back by `P_j` whenever `P_j <= c < P_j + size_j` |
| Concatenation.CascadeSelects | topi/python/topi/transform.py:104-112 | the nested selection picks the input whose segment holds the axis coordinate; later inputs never win |
| Concatenation.FindSegment | topi/python/topi/transform.py:101 | every axis coordinate below the total size lies in the segment of some input, and of no other |
| Concatenation.SomeSegment | topi/python/topi/transform.py:101 | every axis coordinate below the total size lies in the segment of some input |
| Concatenation.SegmentUnique | topi/python/topi/transform.py:101 | segments do not overlap: a coordinate lies in at most one input's segment |
| Concatenation.ConcatenateShape | topi/python/topi/transform.py:100-102 | output shape is the first input's shape, with the sum of all axis sizes on the axis |
| Concatenation.ConcatenateSelects | topi/python/topi/transform.py:104-112 | in segment `j`, the output is input `j` at the coordinate moved back by `P_j` on the axis |
| Concatenation.ConcatenateInBounds | topi/python/topi/transform.py:100-112 | every in-bounds output coordinate reads some input inside that input's shape |
| Concatenation.ConcatenateEmbeds | topi/python/topi/transform.py:100-112 | every element of input `j` appears in the output, moved along the axis by `P_j` |
| Concatenation.EmbedInBounds | topi/python/topi/transform.py:100-102 | when the inputs agree off the axis, an in-bounds coordinate of input `j`, moved by `P_j` on the axis, lies inside the output shape |
| Concatenation.EmbedRead | topi/python/topi/transform.py:104-112 | the output at an in-bounds coordinate of input `j` moved by `P_j` is that input's element |
| Concatenation.ShiftInBounds | topi/python/topi/transform.py:100-102 | a coordinate inside one shape, moved along an axis where a second shape has room, lies inside the second shape when they agree on the other axes |
| Concatenation.ConcatenateSingle | topi/python/topi/transform.py:104-112 | a one-input tuple is the identity: the loop never runs |
| Concatenation.ConcatenateExample | topi/python/topi/transform.py:96-112 | (3, 4) and (3, 6) joined on axis 1 give (3, 10); column `c` reads the first input below 4 and the second at `c - 4` from 4 on |
| Concatenation.WrappedSizes | topi/python/topi/transform.py:100 | the axis sizes by Python indexing, one per input |
| Concatenation.ConcatShapeAsWritten | topi/python/topi/transform.py:97-102 | the output shape exactly as lines 97-102 compute it, including the one-sided axis assert and Python indexing; ConcatShapeAsWrittenAgrees and ConcatAxisBelowRankAsWritten state what it gives |
| Concatenation.ConcatShapeAsWrittenAgrees | topi/python/topi/transform.py:97-102 | for every accepted axis, the shape code as written gives the model's output shape |
| Concatenation.ConcatAxisBelowRankAsWritten | topi/python/topi/transform.py:97-111 | axis -3 on two (3, 4) inputs passes the axis check and gives shape (8, 3, 4); the first tensor call then fails, so the result is `RankMismatch` |
| Splitting.BeginIds | topi/python/topi/transform.py:139-149 | count: accepted iff `> 0` and it divides the axis, with `NonPositiveSections` / `IndivisibleSplit` otherwise; list: accepted iff non-decreasing, else `UnsortedBoundaries`; anything else: `UnsupportedSpec`; for a count `n` the offsets are the `n` multiples `(size / n) * i`, ordered and on the axis; for a list they are `[0] + indices`; offsets start at 0 and are ordered after it |
| Splitting.NonDecreasing | topi/python/topi/transform.py:145 | `tuple(b) == tuple(sorted(b))`: every earlier boundary is at most every later one; BeginIds states that a list is accepted exactly when it holds |
| Splitting.ExactQuotient | topi/python/topi/transform.py:140-142 | a positive count that divides the axis size gives a non-negative segment size that times the count is the axis size |
| Splitting.SectionsOrdered | topi/python/topi/transform.py:142-143 | the offsets `seg_size * i` are ordered and lie on an axis of `seg_size * n` |
| Splitting.OffsetsOrdered | topi/python/topi/transform.py:147 | `[0] + boundaries` with sorted boundaries on the axis is ordered |
| Splitting.SegmentSize | topi/python/topi/transform.py:151-155 | the size of piece `i`: the gap to the next offset, the last one running to the end of the axis; SegmentSizesTelescope states that the sizes sum to each offset and to the axis size |
| Splitting.SegmentSizes | topi/python/topi/transform.py:151-155 | one size per begin offset, each the gap to the next offset and the last one running to the end of the axis |
| Splitting.OutShape | topi/python/topi/transform.py:156-157 | the comprehension shape of piece `i`; OutShapeAxis states it is the input shape with the piece size on the axis |
| Splitting.SplitShapes | topi/python/topi/transform.py:150-157 | the `out_shapes` loop gives one shape per begin offset, entry `i` being `OutShape(i)` |
| Splitting.OutShapeAxis | topi/python/topi/transform.py:156-157 | for an axis inside the shape, entry `i` of `out_shapes` is the input shape with piece `i`'s size on the axis |
| Splitting.SegmentSizesTelescope | topi/python/topi/transform.py:151-155 | for ordered offsets on the axis, every piece size is non-negative, the sizes before piece `k` add up to its begin offset, and all of them add up to the axis size |
| Splitting.Piece | topi/python/topi/transform.py:132-134 | piece `k` has the input shape with its segment size on the axis |
| Splitting.Split | topi/python/topi/transform.py:117-161 | `axis` defaults to 0; accepted iff the normalised axis is an axis of `ary`, the offsets are derived, and they lie on the axis; one piece per offset, piece `k` with the input shape and size `SegmentSize(k)` on the axis; a failure to derive the offsets is returned as is |
| Splitting.SplitInBounds | topi/python/topi/transform.py:132-134 | a coordinate inside piece `k` reads `ary` inside its shape, at the coordinate plus `begin_k` on the axis |
| Splitting.SplitSections | topi/python/topi/transform.py:139-143 | splitting into `n` equal pieces gives `n` pieces with offsets `(size/n)*k` and size `size/n` on the axis |
| Splitting.SplitExample | topi/python/topi/transform.py:132-161 | (3, 12) split into 3 on axis 1: three (3, 4) pieces, piece `k` reading column `c + 4k` |
| Splitting.SplitErrorExamples | topi/python/topi/transform.py:117-147 | on the default axis, boundaries (5, 3) give `UnsortedBoundaries`; size 10 by 3 gives `IndivisibleSplit`; neither produces pieces |
| Splitting.SplitBoundaryOutsideAsWritten | topi/python/topi/transform.py:144-161 | as written, boundaries (3, 12) on size 10 give sizes 3, 9, -2 and a read at 11; boundaries (-3, 5) give sizes -3, 8, 5 and a read at -3; the model rejects both |
| Splitting.BoundaryPastEnd | topi/python/topi/transform.py:144-157 | boundaries (3, 12) on size 10 pass the order check and give sizes 3, 9, -2; coordinate 8 of the second piece moves to 11, outside the axis |
| Splitting.BoundaryBelowZero | topi/python/topi/transform.py:144-157 | boundaries (-3, 5) on size 10 pass the order check and give sizes -3, 8, 5; coordinate 0 of the second piece moves to -3 |
| SplitConcat.SplitPieces | topi/python/topi/transform.py:132-161 | an accepted split gives the pieces of the input cut at its begin offsets, which start at 0, are ordered and lie on the axis |
| SplitConcat.PiecesJoinable | topi/python/topi/transform.py:96-161 | the pieces of an accepted split are accepted by `concatenate` on the same axis, agree off the axis, and have the segment sizes as axis sizes |
| SplitConcat.JoinPiecesShape | topi/python/topi/transform.py:96-161 | joining pieces cut at ordered offsets on the axis is accepted and gives back the original shape |
| SplitConcat.JoinPiecesRead | topi/python/topi/transform.py:104-134 | for any pieces cut at ordered offsets on the axis, the join reads the original tensor at every in-bounds coordinate |
| SplitConcat.PieceAtOffset | topi/python/topi/transform.py:132-134 | piece `j`, read at a coordinate moved back by its begin offset, reads the input at the coordinate itself |
| SplitConcat.SplitThenConcatenate | topi/python/topi/transform.py:96-161 | split followed by concatenate on the same axis denotes the original array (same shape, same value at every coordinate) |
| SplitConcat.SplitConcatExample | topi/python/topi/transform.py:96-161 | (3, 12) split into 3 on axis 1 and joined back is the original tensor |

## Left out

- Building graph nodes with `tvm.compute`, the `name="s%d"` names, and the tag decorators
  (`tag.BROADCAST`, `tag.INJECTIVE`). These are graph-builder plumbing and scheduling hints.
  Each operator returns a shape and a read function instead.
- Symbolic shapes and `get_const_int`. Shapes are concrete natural numbers.
- `tvm.select` as an expression tree. It is an `if-then-else` on values.
- Dtypes. The element type is generic.
- The code of `ravel_index` and `unravel_index`. They are defined by their row-major
  contract, and for an axis of size 0 `Layout.Unravel` yields 0.
- Python's late binding of `begin_id` in the closures of `split`. Every piece carries its
  own offset.
- `isinstance(a_tuple, (list, tuple))` in `concatenate`. The tuple is a sequence.
- Negative `num_newaxis`. The count is a natural number.
- Coordinates whose length is not the rank. The graph builder never asks for them; reads
  are total functions, and they return some input value there.
- Coordinates outside the shape. Nothing in the source checks them.
- The shape container of a TVM tensor (`a.shape`, `ary.shape`, `a_tuple[i].shape`). Its
  `__getitem__` is not part of this model, and it is taken to slice and index like a Python
  list, wrapping negative indices and clamping slice bounds. This matters in three places:
  - `transpose` accepts negative axes through `PySlicing.Wrap`;
  - the `expand_dims` finding relies on `a.shape[-2:]` normalising its negative start;
  - the as-written shape code of `concatenate` and `split` indexes `shape[negative]`.
  If the container does not wrap negative indices, `a.shape[-2:]` raises, and the
  `expand_dims` misread does not arise.
- The tensor call's arity check. Wherever the source relies on it, the error is
  `RankMismatch`:
  - `transpose` with an axes list of the wrong length. When the list is shorter than the
    rank and one of its entries is not an index into the list, the source raises
    IndexError at `idx[k] = indices[i]` (line 54) before any tensor call; the model
    reports `RankMismatch` for that case too;
  - `concatenate` with inputs of different ranks, or a normalised axis that is still
    negative;
  - `split` with a normalised axis that is still negative;
  - `expand_dims` outside the range described under Findings.
- Concatenation.Concatenate: off-axis sizes are not compared, as in the source. The
  in-bounds lemmas require `AgreeOffAxis`.
- Reshaping.ReshapeInBounds: holds only when the element counts agree. The source never
  compares them.
- Transposition.TransposeInBounds: holds only for a permutation. The source accepts
  repeated axes (see `TransposeRepeatedAxis`).
- Splitting.BeginIds: the order check compares the list with its sorted copy, so equal
  neighbours pass and give an empty piece.

## Findings

| source | as written | input that shows it | evidently intended | confidence | as-written member | corrected member |
|---|---|---|---|---|---|---|
| topi/python/topi/transform.py:24-28 | a negative axis becomes `rank + axis + 1` and is not range-checked; for normalised axes in `[-(rank+n), -n)` the slicing still hands `a` the right number of indices, and for all of them but the lowest, `-(rank+n)`, the map removes other positions than those where the ones were inserted; this assumes the shape of a TVM tensor slices like a Python list | shape (4, 5), `axis=-5`, one new axis: output shape (1, 4, 5), and output `(0, i, j)` reads `a(0, j)` instead of `a(i, j)` | reject an axis outside `[-(rank+1), rank]` (this also rejects `-(rank+n)`, where the source happens to be right) | not executed | Expand.ExpandDimsBelowRangeAsWritten | Expand.ExpandDims |
| topi/python/topi/transform.py:144-157 | boundaries are checked for order only, so the derived sizes can be negative and pieces can read outside the axis | axis size 10, boundaries (3, 12): sizes 3, 9, -2, and coordinate 8 of the second piece reads index 11; boundaries (-3, 5): sizes -3, 8, 5, and the second piece reads index -3 | boundaries partition the axis: reject any outside `[0, size]` (`BoundaryOutOfRange`) | not executed | Splitting.SplitBoundaryOutsideAsWritten | Splitting.Split |
