// The determinant of a square matrix over a field, by Laplace expansion along
// the first column, and what row operations do to it.
module Determinant {
  import opened Fields

  type Matrix<T> = seq<seq<T>>

  // h rows of w entries
  predicate Shape<T>(a: Matrix<T>, h: int, w: int) {
    |a| == h && forall r :: 0 <= r < h ==> |a[r]| == w
  }

  predicate Square<T>(a: Matrix<T>) { Shape(a, |a|, |a|) }

  // a without row i and without the first column
  function Minor<T>(a: Matrix<T>, i: int): (m: Matrix<T>)
    requires Square(a) && 0 <= i < |a|
    ensures Shape(m, |a| - 1, |a| - 1)
  {
    seq(|a| - 1, r requires 0 <= r < |a| - 1 => a[if r < i then r else r + 1][1..])
  }

  function Signed<T>(F: Field<T>, i: int, x: T): T { if i % 2 == 0 then x else F.neg(x) }

  function Det<T>(F: Field<T>, a: Matrix<T>): T
    requires Square(a)
    decreases |a|
  {
    if a == [] then F.one else Sum(F, Terms(F, a))
  }

  // The terms of the expansion, one for each row.
  function Terms<T>(F: Field<T>, a: Matrix<T>): (t: seq<T>)
    requires Square(a) && a != []
    ensures |t| == |a|
    decreases |a|, 0
  {
    seq(|a|, i requires 0 <= i < |a| => F.mul(Signed(F, i, a[i][0]), Det(F, Minor(a, i))))
  }

  // ---------- linear in each row ----------

  lemma SignedSub<T(!new)>(F: Field<T>, i: int, x: T, y: T, c: T)
    requires IsField(F)
    ensures Signed(F, i, Sub(F, x, F.mul(y, c))) == Sub(F, Signed(F, i, x), F.mul(Signed(F, i, y), c))
  {
    if i % 2 != 0 {
      NegAdd(F, x, F.neg(F.mul(y, c)));
      MulNeg(F, c, y);
      assert Laws(F, y, c, c) && Laws(F, F.neg(y), c, c);
    }
  }

  lemma TimesSub<T(!new)>(F: Field<T>, x: T, p: T, q: T, c: T)
    requires IsField(F)
    ensures F.mul(x, Sub(F, p, F.mul(q, c))) == Sub(F, F.mul(x, p), F.mul(F.mul(x, q), c))
  {
    SubTimes(F, p, q, c, x);
    assert Laws(F, x, p, p) && Laws(F, x, q, q) && Laws(F, x, Sub(F, p, F.mul(q, c)), x);
  }

  // a, b and d differ in row r only, where a has b's row minus c times d's row.
  ghost predicate Combines<T>(F: Field<T>, a: Matrix<T>, b: Matrix<T>, d: Matrix<T>, r: int, c: T) {
    && Square(a) && Square(b) && Square(d) && |a| == |b| == |d| && 0 <= r < |a|
    && (forall i :: 0 <= i < |a| && i != r ==> a[i] == b[i] == d[i])
    && a[r] == RowSub(F, b[r], d[r], c)
  }

  // The place of row r among the rows of Minor(a, i), i other than r.
  function Without(r: int, i: int): int { if r < i then r else r - 1 }

  lemma MinorCombines<T>(F: Field<T>, a: Matrix<T>, b: Matrix<T>, d: Matrix<T>, r: int, c: T, i: nat)
    requires Combines(F, a, b, d, r, c) && i < |a|
    ensures i == r ==> Minor(a, i) == Minor(b, i) == Minor(d, i)
    ensures i != r ==> Combines(F, Minor(a, i), Minor(b, i), Minor(d, i), Without(r, i), c)
  {
    if i != r {
      assert a[r][1..] == RowSub(F, b[r][1..], d[r][1..], c);
    }
  }

  lemma {:induction false} TermLinear<T(!new)>(
    F: Field<T>, a: Matrix<T>, b: Matrix<T>, d: Matrix<T>, r: int, c: T, i: nat)
    requires IsField(F) && Combines(F, a, b, d, r, c) && i < |a|
    ensures Terms(F, a)[i] == Sub(F, Terms(F, b)[i], F.mul(Terms(F, d)[i], c))
    decreases |a|, 0
  {
    MinorCombines(F, a, b, d, r, c, i);
    if i == r {
      SignedSub(F, i, b[r][0], d[r][0], c);
      SubTimes(F, Signed(F, i, b[r][0]), Signed(F, i, d[r][0]), c, Det(F, Minor(a, i)));
    } else {
      DetLinear(F, Minor(a, i), Minor(b, i), Minor(d, i), Without(r, i), c);
      TimesSub(F, Signed(F, i, a[i][0]), Det(F, Minor(b, i)), Det(F, Minor(d, i)), c);
    }
  }

  lemma {:induction false} DetLinear<T(!new)>(
    F: Field<T>, a: Matrix<T>, b: Matrix<T>, d: Matrix<T>, r: int, c: T)
    requires IsField(F) && Combines(F, a, b, d, r, c)
    ensures Det(F, a) == Sub(F, Det(F, b), F.mul(Det(F, d), c))
    decreases |a|, 1
  {
    forall i: nat | i < |a| ensures Terms(F, a)[i] == RowSub(F, Terms(F, b), Terms(F, d), c)[i] {
      TermLinear(F, a, b, d, r, c, i);
    }
    assert Terms(F, a) == RowSub(F, Terms(F, b), Terms(F, d), c);
    SumRowSub(F, Terms(F, b), Terms(F, d), c);
  }

  // ---------- alternating ----------

  lemma {:induction false} TermAdjacent<T(!new)>(F: Field<T>, a: Matrix<T>, r: int, i: nat)
    requires IsField(F) && Square(a) && 0 <= r < |a| - 1 && a[r] == a[r + 1] && i < |a|
    ensures i != r && i != r + 1 ==> Terms(F, a)[i] == F.zero
    ensures i == r + 1 ==> Terms(F, a)[i] == F.neg(Terms(F, a)[r])
    decreases |a|, 0
  {
    if i == r + 1 {
      assert Minor(a, r) == Minor(a, r + 1);
      var y := Signed(F, r, a[r][0]);
      NegNeg(F, a[r][0]);
      assert Signed(F, i, a[i][0]) == F.neg(y);
      MulNeg(F, Det(F, Minor(a, r)), y);
      assert Laws(F, y, Det(F, Minor(a, r)), y);
    } else if i != r {
      DetAdjacent(F, Minor(a, i), Without(r, i));
      MulZero(F, Signed(F, i, a[i][0]));
    }
  }

  lemma {:induction false} DetAdjacent<T(!new)>(F: Field<T>, a: Matrix<T>, r: int)
    requires IsField(F) && Square(a) && 0 <= r < |a| - 1 && a[r] == a[r + 1]
    ensures Det(F, a) == F.zero
    decreases |a|, 1
  {
    var t := Terms(F, a);
    forall i: nat | i < |a| && i != r && i != r + 1 ensures t[i] == F.zero {
      TermAdjacent(F, a, r, i);
    }
    TermAdjacent(F, a, r, r + 1);
    SumTwoPoints(F, t, r, r + 1);
    assert Laws(F, t[r], t[r], t[r]);
  }

  function Swapped<T>(a: Matrix<T>, i: int, j: int): (b: Matrix<T>)
    requires 0 <= i < |a| && 0 <= j < |a|
    ensures |b| == |a|
  {
    a[i := a[j]][j := a[i]]
  }

  // The sum of two rows.
  function RowAdd<T>(F: Field<T>, x: seq<T>, y: seq<T>): seq<T>
    requires |x| == |y|
  {
    RowSub(F, x, y, F.neg(F.one))
  }

  // If equal rows i and j kill the determinant, then exchanging these rows negates it.
  lemma Polarize<T(!new)>(F: Field<T>, a: Matrix<T>, i: int, j: int, s: seq<T>)
    requires IsField(F) && Square(a) && 0 <= i < |a| && 0 <= j < |a| && i != j
    requires s == RowAdd(F, a[i], a[j])
    requires Det(F, a[i := s][j := s]) == F.zero
    requires Det(F, a[j := a[i]]) == F.zero && Det(F, a[i := a[j]]) == F.zero
    ensures Det(F, Swapped(a, i, j)) == F.neg(Det(F, a))
  {
    // 0 = det(s, s) = det(x, s) + det(y, s), and so on for the other row
    var x, y := a[i], a[j];
    var m1 := F.neg(F.one);
    var xs, ys := a[j := s], a[i := y][j := s];
    DetLinear(F, a[i := s][j := s], xs, ys, i, m1);
    DetLinear(F, xs, a[j := x], a, j, m1);
    DetLinear(F, ys, Swapped(a, i, j), a[i := y], j, m1);
    CancelOut(F, Det(F, xs), Det(F, ys), Det(F, a), Det(F, Swapped(a, i, j)));
  }

  lemma CancelOut<T(!new)>(F: Field<T>, v: T, w: T, p: T, q: T)
    requires IsField(F)
    requires F.zero == Sub(F, v, F.mul(w, F.neg(F.one)))
    requires v == Sub(F, F.zero, F.mul(p, F.neg(F.one))) && w == Sub(F, q, F.mul(F.zero, F.neg(F.one)))
    ensures q == F.neg(p)
  {
    var z := F.zero;
    MinusTimesMinusOne(F, z, p);
    MinusTimesMinusOne(F, q, z);
    MinusTimesMinusOne(F, v, w);
    assert Laws(F, z, p, p) && Laws(F, p, z, z) && Laws(F, q, z, z);
    NegUnique(F, p, q);
  }

  lemma MinusTimesMinusOne<T(!new)>(F: Field<T>, x: T, y: T)
    requires IsField(F)
    ensures Sub(F, x, F.mul(y, F.neg(F.one))) == F.add(x, y)
  {
    MulNeg(F, y, F.one);
    assert Laws(F, y, y, y);
    NegNeg(F, y);
  }

  lemma {:induction false} DetEqualRows<T(!new)>(F: Field<T>, a: Matrix<T>, i: int, j: int)
    requires IsField(F) && Square(a) && 0 <= i < j < |a| && a[i] == a[j]
    ensures Det(F, a) == F.zero
    decreases j - i
  {
    if j == i + 1 {
      DetAdjacent(F, a, i);
    } else {
      var s := RowAdd(F, a[j - 1], a[j]);
      DetAdjacent(F, a[j - 1 := s][j := s], j - 1);
      DetAdjacent(F, a[j := a[j - 1]], j - 1);
      DetAdjacent(F, a[j - 1 := a[j]], j - 1);
      Polarize(F, a, j - 1, j, s);
      DetEqualRows(F, Swapped(a, j - 1, j), i, j - 1);
      NegNeg(F, Det(F, a));
      NegZero(F);
    }
  }

  lemma DetRepeatedRow<T(!new)>(F: Field<T>, a: Matrix<T>, i: int, j: int)
    requires IsField(F) && Square(a) && 0 <= i < |a| && 0 <= j < |a| && i != j && a[i] == a[j]
    ensures Det(F, a) == F.zero
  {
    if i < j { DetEqualRows(F, a, i, j); } else { DetEqualRows(F, a, j, i); }
  }

  // Exchanging two rows negates the determinant.
  lemma DetSwap<T(!new)>(F: Field<T>, a: Matrix<T>, i: int, j: int)
    requires IsField(F) && Square(a) && 0 <= i < |a| && 0 <= j < |a| && i != j
    ensures Det(F, Swapped(a, i, j)) == F.neg(Det(F, a))
  {
    var s := RowAdd(F, a[i], a[j]);
    DetRepeatedRow(F, a[i := s][j := s], i, j);
    DetRepeatedRow(F, a[j := a[i]], i, j);
    DetRepeatedRow(F, a[i := a[j]], i, j);
    Polarize(F, a, i, j, s);
  }

  // Subtracting a multiple of another row does not change the determinant.
  lemma DetEliminate<T(!new)>(F: Field<T>, a: Matrix<T>, i: int, j: int, c: T)
    requires IsField(F) && Square(a) && 0 <= i < |a| && 0 <= j < |a| && i != j
    ensures Det(F, a[j := RowSub(F, a[j], a[i], c)]) == Det(F, a)
  {
    var b := a[j := a[i]];
    DetLinear(F, a[j := RowSub(F, a[j], a[i], c)], a, b, j, c);
    DetRepeatedRow(F, b, i, j);
    MulZero(F, c);
    NegZero(F);
    assert Laws(F, Det(F, a), F.zero, F.zero);
  }

  // ---------- triangular matrices ----------

  // Below the diagonal, the first k columns are zero.
  predicate Triangular<T(==)>(F: Field<T>, a: Matrix<T>, k: int)
    requires Square(a)
  {
    forall r, c :: 0 <= c < r < |a| && c < k ==> a[r][c] == F.zero
  }

  lemma TermVanishes<T(!new)>(F: Field<T>, a: Matrix<T>, i: nat)
    requires IsField(F) && Square(a) && i < |a| && a[i][0] == F.zero
    ensures Terms(F, a)[i] == F.zero
  {
    NegZero(F);
    assert Signed(F, i, a[i][0]) == F.zero;
    MulZero(F, Det(F, Minor(a, i)));
    assert Terms(F, a)[i] == F.mul(F.zero, Det(F, Minor(a, i)));
  }

  lemma DetFirstColumn<T(!new)>(F: Field<T>, a: Matrix<T>)
    requires IsField(F) && Square(a) && a != []
    requires forall r :: 1 <= r < |a| ==> a[r][0] == F.zero
    ensures Det(F, a) == F.mul(a[0][0], Det(F, Minor(a, 0)))
  {
    var t := Terms(F, a);
    forall i | 1 <= i < |a| ensures t[i] == F.zero {
      TermVanishes(F, a, i);
    }
    SumOnePoint(F, t, 0);
    assert t[0] == F.mul(Signed(F, 0, a[0][0]), Det(F, Minor(a, 0)));
  }

  // A triangular start whose next column has no pivot has determinant zero.
  lemma {:induction false} DetNoPivot<T(!new)>(F: Field<T>, a: Matrix<T>, i: int)
    requires IsField(F) && Square(a) && 0 <= i < |a| && Triangular(F, a, i)
    requires forall r :: i <= r < |a| ==> a[r][i] == F.zero
    ensures Det(F, a) == F.zero
    decreases i
  {
    DetFirstColumn(F, a);
    MulZero(F, Det(F, Minor(a, 0)));
    if i > 0 {
      DetNoPivot(F, Minor(a, 0), i - 1);
      MulZero(F, a[0][0]);
    }
  }

  // x times the diagonal entries from row i on, in the order of the source.
  function TimesDiagonal<T>(F: Field<T>, a: Matrix<T>, i: int, x: T): T
    requires Square(a) && 0 <= i <= |a|
    decreases |a| - i
  {
    if i == |a| then x else TimesDiagonal(F, a, i + 1, F.mul(x, a[i][i]))
  }

  lemma {:induction false} DiagonalOfMinor<T(!new)>(F: Field<T>, a: Matrix<T>, i: int, x: T)
    requires Square(a) && 1 <= i <= |a|
    ensures TimesDiagonal(F, a, i, x) == TimesDiagonal(F, Minor(a, 0), i - 1, x)
    decreases |a| - i
  {
    if i < |a| { DiagonalOfMinor(F, a, i + 1, F.mul(x, a[i][i])); }
  }

  // The determinant of a triangular matrix is the product of its diagonal.
  lemma {:induction false} DetTriangular<T(!new)>(F: Field<T>, a: Matrix<T>, x: T)
    requires IsField(F) && Square(a) && Triangular(F, a, |a|)
    ensures TimesDiagonal(F, a, 0, x) == F.mul(x, Det(F, a))
    decreases |a|
  {
    if a == [] {
      assert Laws(F, x, x, x);
    } else {
      DetFirstColumn(F, a);
      var m, y := Minor(a, 0), F.mul(x, a[0][0]);
      DiagonalOfMinor(F, a, 1, y);
      DetTriangular(F, m, y);
      assert Laws(F, x, a[0][0], Det(F, m));
    }
  }
}
