/** Row-major layout of a shape: the element count, the coordinates that lie inside a shape,
    and the two index utilities that `reshape` composes, `ravel_index` (coordinate to flat
    position) and `unravel_index` (flat position to coordinate). The last axis varies fastest. */
module Layout {

  /** Number of elements of a tensor of shape `s`. */
  function Product(s: seq<nat>): nat
  {
    if |s| == 0 then 1 else Product(s[..|s| - 1]) * s[|s| - 1]
  }

  /** `idx` is a coordinate of a tensor of shape `s`. */
  predicate InBounds(idx: seq<int>, s: seq<nat>)
  {
    |idx| == |s| && forall i :: 0 <= i < |s| ==> 0 <= idx[i] < s[i]
  }

  /** Row-major linearisation (Horner's scheme over the axes, the first axis most significant).
      Coordinates and shapes of different lengths are aligned at their last axes. */
  function Ravel(idx: seq<int>, s: seq<nat>): int
    decreases |s|
  {
    if |idx| == 0 || |s| == 0 then 0
    else Ravel(idx[..|idx| - 1], s[..|s| - 1]) * s[|s| - 1] + idx[|idx| - 1]
  }

  /** Inverse of `Ravel`: peels off the last axis by remainder and division, then recurses on
      the quotient. An axis of size 0 has no coordinate; it yields 0 there. */
  function Unravel(f: int, s: seq<nat>): (idx: seq<int>)
    ensures |idx| == |s|
    decreases |s|
  {
    if |s| == 0 then []
    else
      var d := s[|s| - 1];
      if d == 0 then Unravel(0, s[..|s| - 1]) + [0]
      else Unravel(f / d, s[..|s| - 1]) + [f % d]
  }

  /** The reference definition of row-major order: the sum of each coordinate times its stride,
      the stride of axis i being the product of the sizes of the axes after it. */
  function StrideSum(idx: seq<int>, s: seq<nat>): int
    requires |idx| == |s|
  {
    if |s| == 0 then 0 else idx[0] * Product(s[1..]) + StrideSum(idx[1..], s[1..])
  }

  /** A coordinate inside the shape ravels to a flat position inside the element count. */
  lemma {:induction false} RavelInRange(idx: seq<int>, s: seq<nat>)
    requires InBounds(idx, s)
    ensures 0 <= Ravel(idx, s) < Product(s)
  {
    if |s| > 0 {
      var n := |s|;
      var init := s[..n - 1];
      assert InBounds(idx[..n - 1], init);
      RavelInRange(idx[..n - 1], init);
      DigitBelow(Ravel(idx[..n - 1], init), Product(init), s[n - 1], idx[n - 1]);
    }
  }

  /** Every flat position inside the element count unravels to a coordinate inside the shape. */
  lemma {:induction false} UnravelInBounds(f: int, s: seq<nat>)
    requires 0 <= f < Product(s)
    ensures InBounds(Unravel(f, s), s)
    decreases |s|
  {
    if |s| > 0 {
      var n := |s|;
      var init, d := s[..n - 1], s[n - 1];
      var p := Product(init);
      assert Product(s) == p * d;
      var q, m := DivBelow(f, p, d);
      UnravelInBounds(q, init);
      var r := Unravel(f, s);
      assert r == Unravel(q, init) + [m];
      forall i | 0 <= i < n ensures 0 <= r[i] < s[i] {
        if i < n - 1 {
          assert r[i] == Unravel(q, init)[i];
        }
      }
    }
  }

  /** Ravelling an unravelled flat position gives that position back. */
  lemma {:induction false} RavelUnravel(f: int, s: seq<nat>)
    requires 0 <= f < Product(s)
    ensures Ravel(Unravel(f, s), s) == f
    decreases |s|
  {
    if |s| > 0 {
      var n := |s|;
      var init, d := s[..n - 1], s[n - 1];
      var p := Product(init);
      assert Product(s) == p * d;
      var q, m := DivBelow(f, p, d);
      RavelUnravel(q, init);
      var r := Unravel(f, s);
      assert r == Unravel(q, init) + [m];
      assert r[..n - 1] == Unravel(q, init);
    }
  }

  /** Unravelling a ravelled in-bounds coordinate gives that coordinate back. */
  lemma {:induction false} UnravelRavel(idx: seq<int>, s: seq<nat>)
    requires InBounds(idx, s)
    ensures Unravel(Ravel(idx, s), s) == idx
  {
    if |s| > 0 {
      var n := |s|;
      var init, d := s[..n - 1], s[n - 1];
      var front := idx[..n - 1];
      assert InBounds(front, init);
      UnravelRavel(front, init);
      DivModUnique(Ravel(front, init), d, idx[n - 1]);
      assert Unravel(Ravel(idx, s), s) == Unravel(Ravel(front, init), init) + [idx[n - 1]];
      assert idx == front + [idx[n - 1]];
    }
  }

  /** `Ravel` is the stride-sum definition of row-major order. */
  lemma {:induction false} RavelIsStrideSum(idx: seq<int>, s: seq<nat>)
    requires |idx| == |s|
    ensures Ravel(idx, s) == StrideSum(idx, s)
    decreases |s|
  {
    var n := |s|;
    if n == 1 {
      assert idx[..0] == [] && s[1..] == [];
    } else if n >= 2 {
      var I, S := idx[..n - 1], s[..n - 1];
      RavelIsStrideSum(I, S);
      RavelIsStrideSum(idx[1..], s[1..]);
      RavelIsStrideSum(I[1..], S[1..]);
      assert idx[1..][..n - 2] == I[1..] && s[1..][..n - 2] == S[1..];
      assert s[1..][..n - 2] == s[1..n - 1] == S[1..];
      HornerStep(I[0], Product(S[1..]), StrideSum(I[1..], S[1..]), s[n - 1], idx[n - 1]);
    }
  }

  // Integer facts behind the lemmas above, kept apart so that the solver sees them alone.

  lemma MulLe(a: int, b: int, d: nat)
    ensures a <= b ==> a * d <= b * d
  {
    if a <= b {
      assert b * d - a * d == (b - a) * d;
    }
  }

  lemma DigitBelow(q: int, p: nat, d: nat, l: int)
    requires 0 <= q < p && 0 <= l < d
    ensures 0 <= q * d + l < p * d
  {
    MulLe(q + 1, p, d);
    MulLe(0, q, d);
    assert (q + 1) * d == q * d + d;
  }

  lemma DivBelow(f: int, p: nat, d: nat) returns (q: int, m: int)
    requires 0 <= f < p * d
    ensures d > 0 && q == f / d && m == f % d
    ensures 0 <= q < p && 0 <= m < d && f == q * d + m
  {
    MulLe(p, 0, d);
    q, m := f / d, f % d;
    assert f == q * d + f % d;
    MulLe(p, q, d);
    MulLe(q, -1, d);
  }

  lemma DivModUnique(q: int, d: nat, l: int)
    requires 0 <= l < d
    ensures (q * d + l) / d == q && (q * d + l) % d == l
  {
    var f := q * d + l;
    var Q, R := f / d, f % d;
    assert f == Q * d + R && 0 <= R < d;
    assert (Q - q) * d == Q * d - q * d;
    MulLe(1, Q - q, d);
    MulLe(Q - q, -1, d);
  }

  lemma HornerStep(a: int, p: int, w: int, d: int, l: int)
    ensures (a * p + w) * d + l == a * (p * d) + (w * d + l)
  {
    assert (a * p + w) * d == a * p * d + w * d;
    assert a * p * d == a * (p * d);
  }

  /** Row-major order on a small case: in shape (2, 3) the coordinate (1, 2) is flat
      position 5, and in shape (3, 2) flat position 5 is the coordinate (2, 1). */
  lemma RowMajorExample()
    ensures Ravel([1, 2], [2, 3]) == 5 && Unravel(5, [2, 3]) == [1, 2]
    ensures Ravel([2, 1], [3, 2]) == 5 && Unravel(5, [3, 2]) == [2, 1]
  {
    RavelOfTwo(1, 2, 2, 3);
    RavelOfTwo(2, 1, 3, 2);
    UnravelOfTwo(5, 2, 3);
    UnravelOfTwo(5, 3, 2);
    assert 5 / 3 == 1 && 5 % 3 == 2 && 1 / 2 == 0 && 1 % 2 == 1;
    assert 5 / 2 == 2 && 5 % 2 == 1 && 2 / 3 == 0 && 2 % 3 == 2;
  }

  lemma RavelOfTwo(i: int, j: int, a: nat, b: nat)
    ensures Ravel([i, j], [a, b]) == i * b + j
  {
    assert [i, j][..1] == [i] && [a, b][..1] == [a];
    assert [i][..0] == [] && [a][..0] == [];
    assert Ravel([i], [a]) == i;
  }

  lemma UnravelOfTwo(f: int, a: nat, b: nat)
    requires a > 0 && b > 0
    ensures Unravel(f, [a, b]) == [(f / b) % a, f % b]
  {
    assert [a, b][..1] == [a] && [a][..0] == [];
  }
}
