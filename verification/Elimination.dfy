// Gaussian elimination in place, as Matrix.det, Matrix.inverse and Matrix.ker of
// qjscalc.js do it. The working copy of a matrix is an array of rows.
module Elimination {
  import opened Fields
  import opened Determinant

  // The search for a pivot: the first row from l on that is not zero in column i.
  method FindPivot<T(==, !new)>(F: Field<T>, src: array<seq<T>>, l: nat, i: nat, ghost w: int) returns (j: int)
    requires Shape(src[..], src.Length, w) && i < w && l <= src.Length
    ensures l <= j <= src.Length
    ensures j < src.Length ==> src[j][i] != F.zero
    ensures forall r :: l <= r < j ==> src[r][i] == F.zero
  {
    j := l;
    while j < src.Length
      invariant l <= j <= src.Length
      invariant forall r :: l <= r < j ==> src[r][i] == F.zero
    {
      assert |src[..][j]| == w;
      if src[j][i] != F.zero {
        break;
      }
      j := j + 1;
    }
  }

  // Exchange two rows entry by entry.
  method SwapEntries<T>(src: array<seq<T>>, i: nat, j: nat, w: int)
    requires Shape(src[..], src.Length, w) && i < src.Length && j < src.Length && i != j && w >= 0
    modifies src
    ensures src[..] == Swapped(old(src[..]), i, j)
  {
    ghost var x, y := src[i], src[j];
    assert |src[..][i]| == w && |src[..][j]| == w;
    var k := 0;
    while k < w
      invariant 0 <= k <= w && |src[i]| == w && |src[j]| == w
      invariant forall t :: 0 <= t < w ==> src[i][t] == if t < k then y[t] else x[t]
      invariant forall t :: 0 <= t < w ==> src[j][t] == if t < k then x[t] else y[t]
      invariant forall r :: 0 <= r < src.Length && r != i && r != j ==> src[r] == old(src[r])
    {
      var v := src[j][k];
      src[j] := src[j][k := src[i][k]];
      src[i] := src[i][k := v];
      k := k + 1;
    }
    assert src[i] == y && src[j] == x;
  }

  // row j -= row i * v, from column first on; row i is zero before that column.
  method SubtractRow<T(!new)>(F: Field<T>, src: array<seq<T>>, i: nat, j: nat, v: T, first: nat, w: int)
    requires IsField(F) && Shape(src[..], src.Length, w)
    requires i < src.Length && j < src.Length && i != j && first <= w
    requires forall k :: 0 <= k < first ==> src[..][i][k] == F.zero
    modifies src
    ensures src[..] == old(src[..])[j := RowSub(F, old(src[j]), old(src[i]), v)]
  {
    ghost var x, y := src[i], src[j];
    assert |src[..][i]| == w && |src[..][j]| == w;
    var k := first;
    while k < w
      invariant first <= k <= w && |src[j]| == w && src[i] == x
      invariant forall t :: 0 <= t < w ==>
        src[j][t] == if first <= t < k then Sub(F, y[t], F.mul(x[t], v)) else y[t]
      invariant forall r :: 0 <= r < src.Length && r != j ==> src[r] == old(src[r])
    {
      src[j] := src[j][k := Sub(F, src[j][k], F.mul(src[i][k], v))];
      k := k + 1;
    }
    forall k | 0 <= k < first ensures y[k] == RowSub(F, y, x, v)[k] {
      assert x[k] == old(src[..])[i][k];
      SubZero(F, y[k], v);
    }
    assert src[j] == RowSub(F, y, x, v);
  }

  lemma SubZero<T(!new)>(F: Field<T>, y: T, v: T)
    requires IsField(F)
    ensures Sub(F, y, F.mul(F.zero, v)) == y
  {
    MulZero(F, v);
    NegZero(F);
    assert Laws(F, y, F.zero, F.zero);
  }

  // row i *= c
  method ScaleRow<T(!new)>(F: Field<T>, src: array<seq<T>>, i: nat, c: T, w: int)
    requires Shape(src[..], src.Length, w) && i < src.Length
    modifies src
    ensures src[..] == old(src[..])[i := RowScale(F, old(src[i]), c)]
  {
    ghost var x := src[i];
    assert |src[..][i]| == w;
    var k := 0;
    while k < w
      invariant 0 <= k <= w && |src[i]| == w
      invariant forall t :: 0 <= t < w ==> src[i][t] == if t < k then F.mul(x[t], c) else x[t]
      invariant forall r :: 0 <= r < src.Length && r != i ==> src[r] == old(src[r])
    {
      src[i] := src[i][k := F.mul(src[i][k], c)];
      k := k + 1;
    }
    assert src[i] == RowScale(F, x, c);
  }

  // ---------- Matrix.det ----------

  // Subtracting v = inv(p) * x times the pivot p from x leaves zero.
  lemma Cleared<T(!new)>(F: Field<T>, x: T, p: T)
    requires IsField(F) && p != F.zero
    ensures Sub(F, x, F.mul(p, F.mul(F.inv(p), x))) == F.zero
  {
    assert Laws(F, p, F.inv(p), x) && Laws(F, x, F.one, x) && Laws(F, x, x, x) && Laws(F, F.one, x, x);
  }

  // The invariant of det: columns before i are triangular and s * det(m) is the answer.
  ghost predicate DetState<T(!new)>(F: Field<T>, a: Matrix<T>, m: Matrix<T>, s: T, i: int)
    requires Square(a)
  {
    && Square(m) && |m| == |a| && Triangular(F, m, i)
    && F.mul(s, Det(F, m)) == Det(F, a)
  }

  lemma DetStateSwap<T(!new)>(F: Field<T>, a: Matrix<T>, m: Matrix<T>, s: T, i: int, j: int)
    requires IsField(F) && Square(a) && DetState(F, a, m, s, i) && 0 <= i < j < |a|
    ensures DetState(F, a, Swapped(m, i, j), F.neg(s), i)
  {
    DetSwap(F, m, i, j);
    MulNeg(F, F.neg(s), Det(F, m));
    MulNeg(F, Det(F, m), s);
    NegNeg(F, F.mul(Det(F, m), s));
    assert Laws(F, s, Det(F, m), s);
  }

  lemma DetStateEliminate<T(!new)>(F: Field<T>, a: Matrix<T>, m: Matrix<T>, s: T, i: int, j: int, v: T)
    requires IsField(F) && Square(a) && DetState(F, a, m, s, i) && 0 <= i < j < |a|
    ensures DetState(F, a, m[j := RowSub(F, m[j], m[i], v)], s, i)
  {
    DetEliminate(F, m, i, j, v);
    forall c | 0 <= c < i ensures RowSub(F, m[j], m[i], v)[c] == F.zero {
      SubZero(F, F.zero, v);
    }
  }

  // The elimination step of det: clear column i below the pivot.
  method ClearBelow<T(!new)>(F: Field<T>, ghost a: Matrix<T>, src: array<seq<T>>, i: nat, ghost s: T)
    requires IsField(F) && Square(a) && i < |a| && src.Length == |a| && DetState(F, a, src[..], s, i)
    requires src[..][i][i] != F.zero
    modifies src
    ensures DetState(F, a, src[..], s, i + 1)
  {
    var n := src.Length;
    assert |src[..][i]| == n;
    ghost var p := src[i][i];
    var c := F.inv(src[i][i]);
    var j := i + 1;
    while j < n
      invariant i + 1 <= j <= n && DetState(F, a, src[..], s, i)
      invariant src[..][i][i] == p
      invariant forall r :: i < r < j ==> src[..][r][i] == F.zero
    {
      ghost var m := src[..];
      assert |m[j]| == n && |m[i]| == n;
      var v := F.mul(c, src[j][i]);
      DetStateEliminate(F, a, m, s, i, j, v);
      Cleared(F, m[j][i], p);
      SubtractRow(F, src, i, j, v, 0, n);
      j := j + 1;
    }
  }

  method DiagonalProduct<T>(F: Field<T>, src: array<seq<T>>, s: T) returns (c: T)
    requires Square(src[..])
    ensures c == TimesDiagonal(F, src[..], 0, s)
  {
    c := s;
    var i := 0;
    while i < src.Length
      invariant 0 <= i <= src.Length
      invariant TimesDiagonal(F, src[..], i, c) == TimesDiagonal(F, src[..], 0, s)
    {
      assert |src[..][i]| == src.Length;
      c := F.mul(c, src[i][i]);
      i := i + 1;
    }
  }

  method ComputeDet<T(==, !new)>(F: Field<T>, a: Matrix<T>) returns (c: T)
    requires IsField(F) && Square(a) && a != []
    ensures c == Det(F, a)
  {
    var n := |a|;
    var s := F.one;
    var src := new seq<T>[n](r requires 0 <= r < n => a[r]);
    assert src[..] == a;
    assert Laws(F, Det(F, a), F.one, F.one) && Laws(F, F.one, Det(F, a), F.one);
    var i := 0;
    while i < n
      invariant 0 <= i <= n && DetState(F, a, src[..], s, i)
    {
      var j := FindPivot(F, src, i, i, n);
      if j == n {
        DetNoPivot(F, src[..], i);
        MulZero(F, s);
        return F.zero;
      }
      if j != i {
        DetStateSwap(F, a, src[..], s, i, j);
        SwapEntries(src, i, j, n);
        s := F.neg(s);
      }
      assert src[..][i][i] != F.zero;
      ClearBelow(F, a, src, i, s);
      i := i + 1;
    }
    DetTriangular(F, src[..], s);
    c := DiagonalProduct(F, src, s);
  }
}
