// Matrix.inverse of qjscalc.js: Gauss-Jordan elimination on a matrix and, beside
// it, on the identity.
module Inversion {
  import opened Outcomes
  import opened Fields
  import opened Determinant
  import opened Elimination

  function Column<T>(a: Matrix<T>, w: int, k: int): (c: seq<T>)
    requires Shape(a, |a|, w) && 0 <= k < w
    ensures |c| == |a|
  {
    seq(|a|, r requires 0 <= r < |a| => a[r][k])
  }

  // The row vector x times the matrix a of w columns.
  function RowTimes<T>(F: Field<T>, x: seq<T>, a: Matrix<T>, w: nat): (y: seq<T>)
    requires Shape(a, |x|, w)
    ensures |y| == w
  {
    seq(w, k requires 0 <= k < w => Dot(F, x, Column(a, w, k)))
  }

  function Unit<T>(F: Field<T>, n: nat, i: int): (e: seq<T>)
    ensures |e| == n
  {
    seq(n, k requires 0 <= k < n => if k == i then F.one else F.zero)
  }

  function Identity<T>(F: Field<T>, n: nat): (m: Matrix<T>)
    ensures Shape(m, n, n)
  {
    seq(n, r requires 0 <= r < n => Unit(F, n, r))
  }

  function MatMul<T>(F: Field<T>, p: Matrix<T>, q: Matrix<T>, w: nat): Matrix<T>
    requires Shape(p, |p|, |q|) && Shape(q, |q|, w)
  {
    seq(|p|, r requires 0 <= r < |p| => RowTimes(F, p[r], q, w))
  }

  // a * x == 0
  ghost predicate Kills<T>(F: Field<T>, a: Matrix<T>, x: seq<T>) {
    forall r :: 0 <= r < |a| ==> |a[r]| == |x| && Dot(F, a[r], x) == F.zero
  }

  ghost predicate AllZero<T>(F: Field<T>, x: seq<T>) {
    forall k :: 0 <= k < |x| ==> x[k] == F.zero
  }

  // ---------- products with unit vectors ----------

  lemma DotUnit<T(!new)>(F: Field<T>, n: nat, i: int, x: seq<T>)
    requires IsField(F) && |x| == n && 0 <= i < n
    ensures Dot(F, Unit(F, n, i), x) == x[i]
  {
    var e := Unit(F, n, i);
    forall k | 0 <= k < n && k != i ensures Products(F, e, x)[k] == F.zero {
      MulZero(F, x[k]);
    }
    SumOnePoint(F, Products(F, e, x), i);
    assert Laws(F, F.one, x[i], x[i]) && Laws(F, x[i], F.one, x[i]);
  }

  lemma UnitTimes<T(!new)>(F: Field<T>, a: Matrix<T>, i: int, w: nat)
    requires IsField(F) && Shape(a, |a|, w) && 0 <= i < |a|
    ensures RowTimes(F, Unit(F, |a|, i), a, w) == a[i]
  {
    forall k | 0 <= k < w ensures RowTimes(F, Unit(F, |a|, i), a, w)[k] == a[i][k] {
      DotUnit(F, |a|, i, Column(a, w, k));
    }
  }

  lemma RowTimesSub<T(!new)>(F: Field<T>, x: seq<T>, y: seq<T>, c: T, a: Matrix<T>, w: nat)
    requires IsField(F) && |x| == |y| && Shape(a, |x|, w)
    ensures RowTimes(F, RowSub(F, x, y, c), a, w) == RowSub(F, RowTimes(F, x, a, w), RowTimes(F, y, a, w), c)
  {
    forall k | 0 <= k < w
      ensures RowTimes(F, RowSub(F, x, y, c), a, w)[k]
           == RowSub(F, RowTimes(F, x, a, w), RowTimes(F, y, a, w), c)[k]
    {
      DotRowSub(F, x, y, c, Column(a, w, k));
    }
  }

  lemma RowTimesScale<T(!new)>(F: Field<T>, x: seq<T>, c: T, a: Matrix<T>, w: nat)
    requires IsField(F) && Shape(a, |x|, w)
    ensures RowTimes(F, RowScale(F, x, c), a, w) == RowScale(F, RowTimes(F, x, a, w), c)
  {
    forall k | 0 <= k < w
      ensures RowTimes(F, RowScale(F, x, c), a, w)[k] == RowScale(F, RowTimes(F, x, a, w), c)[k]
    {
      DotRowScale(F, x, c, Column(a, w, k));
    }
  }

  // ---------- row operations keep the null space ----------

  ghost predicate SameNull<T(!new)>(F: Field<T>, a: Matrix<T>, b: Matrix<T>) {
    forall x :: Kills(F, a, x) <==> Kills(F, b, x)
  }

  lemma NullSwap<T(!new)>(F: Field<T>, a: Matrix<T>, i: int, j: int)
    requires 0 <= i < |a| && 0 <= j < |a|
    ensures SameNull(F, a, Swapped(a, i, j))
  {
    var b := Swapped(a, i, j);
    assert a == Swapped(b, i, j);
  }

  lemma NullScale<T(!new)>(F: Field<T>, a: Matrix<T>, i: int, c: T)
    requires IsField(F) && 0 <= i < |a| && c != F.zero
    ensures SameNull(F, a, a[i := RowScale(F, a[i], c)])
  {
    var b := a[i := RowScale(F, a[i], c)];
    forall x ensures Kills(F, a, x) <==> Kills(F, b, x) {
      if |x| == |a[i]| {
        var d := Dot(F, a[i], x);
        DotRowScale(F, a[i], c, x);
        MulZero(F, c);
        assert Laws(F, c, d, d) && Laws(F, d, c, c);
        if F.mul(c, d) == F.zero { NoZeroDivisors(F, c, d); }
        KillsUpdate(F, a, b, i, x);
      } else {
        assert |b[i]| != |x|;
      }
    }
  }

  // Two matrices that differ in row i only, both or none of these rows killing x.
  lemma KillsUpdate<T(!new)>(F: Field<T>, a: Matrix<T>, b: Matrix<T>, i: int, x: seq<T>)
    requires |a| == |b| && 0 <= i < |a| && |a[i]| == |b[i]| == |x|
    requires forall r :: 0 <= r < |a| && r != i ==> a[r] == b[r]
    requires (forall r :: 0 <= r < |a| && r != i ==> |a[r]| == |x| && Dot(F, a[r], x) == F.zero) ==>
               (Dot(F, a[i], x) == F.zero <==> Dot(F, b[i], x) == F.zero)
    ensures Kills(F, a, x) <==> Kills(F, b, x)
  {
  }

  lemma NullEliminate<T(!new)>(F: Field<T>, a: Matrix<T>, i: int, j: int, c: T)
    requires IsField(F) && 0 <= i < |a| && 0 <= j < |a| && i != j && |a[i]| == |a[j]|
    ensures SameNull(F, a, a[j := RowSub(F, a[j], a[i], c)])
  {
    var b := a[j := RowSub(F, a[j], a[i], c)];
    forall x ensures Kills(F, a, x) <==> Kills(F, b, x) {
      if |x| == |a[i]| {
        DotRowSub(F, a[j], a[i], c, x);
        SubZero(F, Dot(F, a[j], x), c);
        KillsUpdate(F, a, b, j, x);
      } else {
        assert |a[j]| != |x| && |b[j]| != |x|;
      }
    }
  }

  // ---------- row operations keep the determinant from, or at, zero ----------

  lemma DetScaleZero<T(!new)>(F: Field<T>, a: Matrix<T>, i: int, c: T)
    requires IsField(F) && Square(a) && 0 <= i < |a| && c != F.zero
    ensures Det(F, a[i := RowScale(F, a[i], c)]) == F.zero <==> Det(F, a) == F.zero
  {
    var u := a[i];
    var z := RowSub(F, u, u, F.one);
    var d := Det(F, a);
    DetLinear(F, a[i := z], a, a, i, F.one);
    assert Laws(F, d, d, d) && Laws(F, F.mul(d, F.neg(c)), d, d);
    assert Det(F, a[i := z]) == F.zero;
    // RowScale(u, c) is the zero row minus u * -c
    var s := RowScale(F, u, c);
    forall k | 0 <= k < |u| ensures s[k] == RowSub(F, z, u, F.neg(c))[k] {
      assert Laws(F, u[k], u[k], u[k]) && Laws(F, F.zero, F.mul(u[k], c), c) && Laws(F, F.mul(u[k], c), F.zero, c);
      MulNeg(F, u[k], c);
      NegNeg(F, F.mul(u[k], c));
    }
    assert s == RowSub(F, z, u, F.neg(c));
    DetLinear(F, a[i := s], a[i := z], a, i, F.neg(c));
    MulNeg(F, d, c);
    NegNeg(F, F.mul(d, c));
    assert Laws(F, F.zero, F.mul(d, c), d) && Laws(F, F.mul(d, c), F.zero, d) && Laws(F, d, c, c);
    MulZero(F, c);
    if F.mul(c, d) == F.zero { NoZeroDivisors(F, c, d); }
  }

  lemma NegIsZero<T(!new)>(F: Field<T>, x: T)
    requires IsField(F)
    ensures F.neg(x) == F.zero <==> x == F.zero
  {
    NegZero(F);
    NegNeg(F, x);
  }

  // ---------- the invariant of Matrix.inverse ----------

  // d * a == m, and m is singular exactly when a is.
  ghost predicate Linked<T(!new)>(F: Field<T>, a: Matrix<T>, m: Matrix<T>, d: Matrix<T>) {
    && Square(a) && Square(m) && Square(d) && |a| == |m| == |d|
    && MatMul(F, d, a, |a|) == m
    && SameNull(F, a, m)
    && (Det(F, a) == F.zero <==> Det(F, m) == F.zero)
  }

  lemma LinkedStart<T(!new)>(F: Field<T>, a: Matrix<T>)
    requires IsField(F) && Square(a)
    ensures Linked(F, a, a, Identity(F, |a|))
  {
    forall r | 0 <= r < |a| ensures MatMul(F, Identity(F, |a|), a, |a|)[r] == a[r] {
      UnitTimes(F, a, r, |a|);
    }
  }

  lemma LinkedSwap<T(!new)>(F: Field<T>, a: Matrix<T>, m: Matrix<T>, d: Matrix<T>, i: int, j: int)
    requires IsField(F) && Linked(F, a, m, d) && 0 <= i < |a| && 0 <= j < |a| && i != j
    ensures Linked(F, a, Swapped(m, i, j), Swapped(d, i, j))
  {
    NullSwap(F, m, i, j);
    DetSwap(F, m, i, j);
    NegIsZero(F, Det(F, m));
    assert MatMul(F, Swapped(d, i, j), a, |a|) == Swapped(MatMul(F, d, a, |a|), i, j);
  }

  lemma LinkedScale<T(!new)>(F: Field<T>, a: Matrix<T>, m: Matrix<T>, d: Matrix<T>, i: int, c: T)
    requires IsField(F) && Linked(F, a, m, d) && 0 <= i < |a| && c != F.zero
    ensures Linked(F, a, m[i := RowScale(F, m[i], c)], d[i := RowScale(F, d[i], c)])
  {
    NullScale(F, m, i, c);
    DetScaleZero(F, m, i, c);
    RowTimesScale(F, d[i], c, a, |a|);
    assert MatMul(F, d[i := RowScale(F, d[i], c)], a, |a|)
        == MatMul(F, d, a, |a|)[i := RowScale(F, RowTimes(F, d[i], a, |a|), c)];
  }

  lemma LinkedEliminate<T(!new)>(F: Field<T>, a: Matrix<T>, m: Matrix<T>, d: Matrix<T>, i: int, j: int, c: T)
    requires IsField(F) && Linked(F, a, m, d) && 0 <= i < |a| && 0 <= j < |a| && i != j
    ensures Linked(F, a, m[j := RowSub(F, m[j], m[i], c)], d[j := RowSub(F, d[j], d[i], c)])
  {
    NullEliminate(F, m, i, j, c);
    DetEliminate(F, m, i, j, c);
    RowTimesSub(F, d[j], d[i], c, a, |a|);
    assert MatMul(F, d[j := RowSub(F, d[j], d[i], c)], a, |a|)
        == MatMul(F, d, a, |a|)[j := RowSub(F, RowTimes(F, d[j], a, |a|), RowTimes(F, d[i], a, |a|), c)];
  }

  // The first i columns of m are those of the identity.
  ghost predicate UnitBefore<T>(F: Field<T>, m: Matrix<T>, i: int)
    requires Square(m)
  {
    forall r, k :: 0 <= r < |m| && 0 <= k < |m| && k < i ==> m[r][k] == if r == k then F.one else F.zero
  }

  lemma UnitSwap<T(!new)>(F: Field<T>, m: Matrix<T>, i: int, j: int)
    requires Square(m) && UnitBefore(F, m, i) && 0 <= i <= j < |m|
    ensures UnitBefore(F, Swapped(m, i, j), i)
  {
  }

  lemma UnitScale<T(!new)>(F: Field<T>, m: Matrix<T>, i: int, c: T)
    requires IsField(F) && Square(m) && UnitBefore(F, m, i) && 0 <= i < |m|
    ensures UnitBefore(F, m[i := RowScale(F, m[i], c)], i)
  {
    MulZero(F, c);
  }

  lemma UnitEliminate<T(!new)>(F: Field<T>, m: Matrix<T>, i: int, j: int, c: T)
    requires IsField(F) && Square(m) && UnitBefore(F, m, i) && 0 <= i < |m| && 0 <= j < |m|
    ensures UnitBefore(F, m[j := RowSub(F, m[j], m[i], c)], i)
  {
    forall k | 0 <= k < i ensures RowSub(F, m[j], m[i], c)[k] == m[j][k] {
      SubZero(F, m[j][k], c);
    }
  }

  // ---------- when there is no pivot ----------

  // The vector that witnesses a column i depending on the unit columns before it.
  function Dependence<T>(F: Field<T>, m: Matrix<T>, i: int): (x: seq<T>)
    requires Square(m) && 0 <= i < |m|
    ensures |x| == |m|
  {
    seq(|m|, k requires 0 <= k < |m| => if k < i then F.neg(m[k][i]) else if k == i then F.one else F.zero)
  }

  lemma DependenceKilled<T(!new)>(F: Field<T>, m: Matrix<T>, i: int)
    requires IsField(F) && Square(m) && 0 <= i < |m| && UnitBefore(F, m, i)
    requires forall r :: i <= r < |m| ==> m[r][i] == F.zero
    ensures Kills(F, m, Dependence(F, m, i)) && !AllZero(F, Dependence(F, m, i))
  {
    var x := Dependence(F, m, i);
    assert x[i] == F.one;
    forall r | 0 <= r < |m| ensures Dot(F, m[r], x) == F.zero {
      var s := Products(F, m[r], x);
      var p := if r < i then r else -1;
      forall k | 0 <= k < |m| && k != p && k != i ensures s[k] == F.zero {
        MulZero(F, m[r][k]);
        MulZero(F, x[k]);
      }
      SumTwoPoints(F, s, p, i);
      assert Laws(F, m[r][i], m[r][i], m[r][i]) && Laws(F, F.one, F.neg(m[r][i]), F.one);
      assert Laws(F, F.neg(m[r][i]), F.one, F.one) && Laws(F, F.neg(m[r][i]), m[r][i], F.one);
      assert Laws(F, F.zero, F.zero, F.zero);
    }
  }

  lemma UnitIsTriangular<T(!new)>(F: Field<T>, m: Matrix<T>, i: int)
    requires Square(m) && UnitBefore(F, m, i)
    ensures Triangular(F, m, i)
  {
  }

  lemma IdentityRegular<T(!new)>(F: Field<T>, m: Matrix<T>)
    requires IsField(F) && Square(m) && UnitBefore(F, m, |m|)
    ensures m == Identity(F, |m|) && Det(F, m) != F.zero
    ensures forall x :: |x| == |m| && Kills(F, m, x) ==> AllZero(F, x)
  {
    forall r | 0 <= r < |m| ensures m[r] == Unit(F, |m|, r) { }
    forall x | |x| == |m| && Kills(F, m, x) ensures AllZero(F, x) {
      forall k | 0 <= k < |x| ensures x[k] == F.zero {
        DotUnit(F, |m|, k, x);
        assert Dot(F, m[k], x) == F.zero;
      }
    }
    UnitIsTriangular(F, m, |m|);
    DetTriangular(F, m, F.one);
    OnesDiagonal(F, m, 0);
    assert Laws(F, F.one, Det(F, m), F.one) && Laws(F, Det(F, m), F.one, F.one);
  }

  lemma {:induction false} OnesDiagonal<T(!new)>(F: Field<T>, m: Matrix<T>, i: int)
    requires IsField(F) && Square(m) && UnitBefore(F, m, |m|) && 0 <= i <= |m|
    ensures TimesDiagonal(F, m, i, F.one) == F.one
    decreases |m| - i
  {
    if i < |m| {
      OnesDiagonal(F, m, i + 1);
      assert Laws(F, F.one, F.one, F.one);
    }
  }

  // a kills a nonzero vector.
  ghost predicate Singular<T(!new)>(F: Field<T>, a: Matrix<T>) {
    exists x :: |x| == |a| && Kills(F, a, x) && !AllZero(F, x)
  }

  lemma NoPivotSingular<T(!new)>(F: Field<T>, a: Matrix<T>, m: Matrix<T>, d: Matrix<T>, i: int)
    requires IsField(F) && Linked(F, a, m, d) && 0 <= i < |a| && UnitBefore(F, m, i)
    requires forall r :: i <= r < |m| ==> m[r][i] == F.zero
    ensures Det(F, a) == F.zero && Singular(F, a)
  {
    DependenceKilled(F, m, i);
    UnitIsTriangular(F, m, i);
    DetNoPivot(F, m, i);
  }

  lemma AllUnitRegular<T(!new)>(F: Field<T>, a: Matrix<T>, m: Matrix<T>, d: Matrix<T>)
    requires IsField(F) && Linked(F, a, m, d) && UnitBefore(F, m, |a|)
    ensures Det(F, a) != F.zero && !Singular(F, a) && MatMul(F, d, a, |a|) == Identity(F, |a|)
  {
    IdentityRegular(F, m);
  }

  // ---------- the method ----------

  // Make the pivot 1: the scaling step.
  method Normalize<T(!new)>(F: Field<T>, ghost a: Matrix<T>, src: array<seq<T>>, dst: array<seq<T>>, i: nat)
    requires IsField(F) && src != dst && Linked(F, a, src[..], dst[..]) && i < |a|
    requires UnitBefore(F, src[..], i) && src[..][i][i] != F.zero
    modifies src, dst
    ensures Linked(F, a, src[..], dst[..]) && UnitBefore(F, src[..], i) && src[..][i][i] == F.one
  {
    var n := src.Length;
    ghost var m, d := src[..], dst[..];
    assert |m[i]| == n;
    var c := F.inv(src[i][i]);
    InvNonzero(F, m[i][i]);
    LinkedScale(F, a, m, d, i, c);
    UnitScale(F, m, i, c);
    assert Laws(F, m[i][i], c, c);
    ScaleRow(F, src, i, c, n);
    ScaleRow(F, dst, i, c, n);
  }

  lemma SubOne<T(!new)>(F: Field<T>, x: T)
    requires IsField(F)
    ensures Sub(F, x, F.mul(F.one, x)) == F.zero
  {
    assert Laws(F, x, F.one, x) && Laws(F, x, x, x);
  }

  // Clear column i in every other row.
  method ClearOthers<T(!new)>(F: Field<T>, ghost a: Matrix<T>, src: array<seq<T>>, dst: array<seq<T>>, i: nat)
    requires IsField(F) && src != dst && Linked(F, a, src[..], dst[..]) && i < |a|
    requires UnitBefore(F, src[..], i) && src[..][i][i] == F.one
    modifies src, dst
    ensures Linked(F, a, src[..], dst[..]) && UnitBefore(F, src[..], i + 1)
  {
    hide MatMul, SameNull, Det;
    var n := src.Length;
    var j := 0;
    while j < n
      invariant 0 <= j <= n && Linked(F, a, src[..], dst[..])
      invariant UnitBefore(F, src[..], i) && src[..][i][i] == F.one
      invariant forall r :: 0 <= r < j && r != i ==> src[..][r][i] == F.zero
    {
      if j != i {
        ghost var m, d := src[..], dst[..];
        assert |m[j]| == n && |m[i]| == n;
        var c := src[j][i];
        LinkedEliminate(F, a, m, d, i, j, c);
        UnitEliminate(F, m, i, j, c);
        SubOne(F, c);
        SubtractRow(F, src, i, j, c, i, n);
        SubtractRow(F, dst, i, j, c, 0, n);
      }
      j := j + 1;
    }
  }

  // Bring the pivot row j into place i.
  method BringUp<T(!new)>(
    F: Field<T>, ghost a: Matrix<T>, src: array<seq<T>>, dst: array<seq<T>>, i: nat, j: nat)
    requires IsField(F) && src != dst && Linked(F, a, src[..], dst[..]) && i <= j < |a|
    requires UnitBefore(F, src[..], i) && src[..][j][i] != F.zero
    modifies src, dst
    ensures Linked(F, a, src[..], dst[..]) && UnitBefore(F, src[..], i) && src[..][i][i] != F.zero
  {
    if j != i {
      ghost var m, d := src[..], dst[..];
      LinkedSwap(F, a, m, d, i, j);
      UnitSwap(F, m, i, j);
      src[j], src[i] := src[i], src[j];
      dst[j], dst[i] := dst[i], dst[j];
      assert src[..] == Swapped(m, i, j) && dst[..] == Swapped(d, i, j);
    }
  }

  // Matrix.inverse. The answer times a is the identity; there is none exactly when
  // a is singular, which is when its determinant is zero.
  method ComputeInverse<T(==, !new)>(F: Field<T>, a: Matrix<T>) returns (res: Result<Matrix<T>>)
    requires IsField(F) && Square(a) && a != []
    ensures res.Ok? ==> Shape(res.value, |a|, |a|) && MatMul(F, res.value, a, |a|) == Identity(F, |a|)
    ensures res.Throws? <==> Singular(F, a)
    ensures Singular(F, a) <==> Det(F, a) == F.zero
  {
    var n := |a|;
    var src := new seq<T>[n](r requires 0 <= r < n => a[r]);
    var dst := new seq<T>[n](r requires 0 <= r < n => Unit(F, n, r));
    assert src[..] == a && dst[..] == Identity(F, n);
    LinkedStart(F, a);
    var i := 0;
    while i < n
      invariant 0 <= i <= n && Linked(F, a, src[..], dst[..]) && UnitBefore(F, src[..], i)
    {
      var j := FindPivot(F, src, i, i, n);
      if j == n {
        NoPivotSingular(F, a, src[..], dst[..], i);
        return Throws;
      }
      BringUp(F, a, src, dst, i, j);
      Normalize(F, a, src, dst, i);
      ClearOthers(F, a, src, dst, i);
      i := i + 1;
    }
    AllUnitRegular(F, a, src[..], dst[..]);
    res := Ok(dst[..]);
  }
}
