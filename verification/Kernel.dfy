// Matrix.ker of qjscalc.js: a basis of the null space, read off the reduced form.
module Kernel {
  import opened Fields
  import opened Determinant
  import opened Elimination
  import opened Inversion

  // ---------- counting pivot and free columns ----------

  // The number of pivot columns among the first j.
  function Rank(im: seq<bool>, j: nat): (n: nat)
    requires j <= |im|
    ensures n <= j
  {
    if j == 0 then 0 else Rank(im, j - 1) + (if im[j - 1] then 1 else 0)
  }

  function FreeRank(im: seq<bool>, j: nat): nat
    requires j <= |im|
  {
    j - Rank(im, j)
  }

  lemma {:induction false} RankMonotone(im: seq<bool>, i: nat, j: nat)
    requires i <= j <= |im|
    ensures Rank(im, i) <= Rank(im, j) && FreeRank(im, i) <= FreeRank(im, j)
    decreases j
  {
    if i < j { RankMonotone(im, i, j - 1); }
  }

  // Columns of the same kind with the same rank are the same column.
  lemma RankInjective(im: seq<bool>, i: nat, j: nat)
    requires i < |im| && j < |im| && im[i] == im[j]
    requires if im[i] then Rank(im, i) == Rank(im, j) else FreeRank(im, i) == FreeRank(im, j)
    ensures i == j
  {
    if i != j {
      RankMonotone(im, (if i < j then i else j) + 1, if i < j then j else i);
    }
  }

  // The k-th free column among the first j.
  function NthFree(im: seq<bool>, j: nat, k: nat): (i: nat)
    requires j <= |im| && k < FreeRank(im, j)
    ensures i < j && !im[i] && FreeRank(im, i) == k
  {
    if !im[j - 1] && FreeRank(im, j - 1) == k then j - 1 else NthFree(im, j - 1, k)
  }

  function NthPivot(im: seq<bool>, j: nat, q: nat): (i: nat)
    requires j <= |im| && q < Rank(im, j)
    ensures i < j && im[i] && Rank(im, i) == q
  {
    if im[j - 1] && Rank(im, j - 1) == q then j - 1 else NthPivot(im, j - 1, q)
  }

  lemma {:induction false} RankOfPrefix(im: seq<bool>, more: seq<bool>, j: nat)
    requires j <= |im|
    ensures Rank(im + more, j) == Rank(im, j)
  {
    if j > 0 { RankOfPrefix(im, more, j - 1); }
  }

  // ---------- the reduced form ----------

  // Pivot columns are unit columns in order, and rows from the rank on are zero.
  ghost predicate ReducedEntry<T>(F: Field<T>, m: Matrix<T>, im: seq<bool>, r: int, j: int)
    requires 0 <= r < |m| && 0 <= j < |im| <= |m[r]|
  {
    && (im[j] ==> m[r][j] == if r == Rank(im, j) then F.one else F.zero)
    && (r >= Rank(im, |im|) ==> m[r][j] == F.zero)
  }

  // The columns im of m are reduced.
  ghost predicate Reduced<T>(F: Field<T>, m: Matrix<T>, im: seq<bool>, w: int) {
    && Shape(m, |m|, w) && |im| <= w && Rank(im, |im|) <= |m|
    && forall r, j :: 0 <= r < |m| && 0 <= j < |im| ==> ReducedEntry(F, m, im, r, j)
  }

  lemma PivotRankBelow(im: seq<bool>, j: nat)
    requires j < |im|
    ensures im[j] ==> Rank(im, j) < Rank(im, |im|)
  {
    RankMonotone(im, j + 1, |im|);
  }

  lemma ReducedSwap<T(!new)>(F: Field<T>, m: Matrix<T>, im: seq<bool>, w: int, k: int)
    requires Reduced(F, m, im, w) && Rank(im, |im|) <= k < |m|
    ensures Reduced(F, Swapped(m, Rank(im, |im|), k), im, w)
  {
    var l := Rank(im, |im|);
    forall r, j | 0 <= r < |m| && 0 <= j < |im| ensures ReducedEntry(F, Swapped(m, l, k), im, r, j) {
      PivotRankBelow(im, j);
      assert ReducedEntry(F, m, im, r, j) && ReducedEntry(F, m, im, l, j) && ReducedEntry(F, m, im, k, j);
    }
  }

  lemma ReducedScale<T(!new)>(F: Field<T>, m: Matrix<T>, im: seq<bool>, w: int, c: T)
    requires IsField(F) && Reduced(F, m, im, w) && Rank(im, |im|) < |m|
    ensures Reduced(F, m[Rank(im, |im|) := RowScale(F, m[Rank(im, |im|)], c)], im, w)
  {
    var l := Rank(im, |im|);
    MulZero(F, c);
    var m1 := m[l := RowScale(F, m[l], c)];
    forall r, j | 0 <= r < |m| && 0 <= j < |im| ensures ReducedEntry(F, m1, im, r, j) {
      assert ReducedEntry(F, m, im, r, j);
    }
  }

  lemma ReducedEliminate<T(!new)>(F: Field<T>, m: Matrix<T>, im: seq<bool>, w: int, k: int, c: T)
    requires IsField(F) && Reduced(F, m, im, w) && Rank(im, |im|) < |m| && 0 <= k < |m|
    ensures Reduced(F, m[k := RowSub(F, m[k], m[Rank(im, |im|)], c)], im, w)
  {
    var l := Rank(im, |im|);
    var m1 := m[k := RowSub(F, m[k], m[l], c)];
    forall r, j | 0 <= r < |m| && 0 <= j < |im| ensures ReducedEntry(F, m1, im, r, j) {
      assert ReducedEntry(F, m, im, r, j) && ReducedEntry(F, m, im, l, j);
      SubZero(F, m[k][j], c);
    }
  }

  // A column with no pivot from the rank on joins as a free column, and one that is
  // the next unit column joins as a pivot column.
  lemma ReducedExtend<T(!new)>(F: Field<T>, m: Matrix<T>, im: seq<bool>, w: int, pivot: bool)
    requires Reduced(F, m, im, w) && |im| < w
    requires pivot ==> Rank(im, |im|) < |m| && forall r :: 0 <= r < |m| ==>
               m[r][|im|] == if r == Rank(im, |im|) then F.one else F.zero
    requires !pivot ==> forall r :: Rank(im, |im|) <= r < |m| ==> m[r][|im|] == F.zero
    ensures Reduced(F, m, im + [pivot], w)
    ensures Rank(im + [pivot], |im| + 1) == Rank(im, |im|) + (if pivot then 1 else 0)
  {
    var im1 := im + [pivot];
    RankOfPrefix(im, [pivot], |im|);
    forall r, j | 0 <= r < |m| && 0 <= j < |im1| ensures ReducedEntry(F, m, im1, r, j) {
      RankOfPrefix(im, [pivot], j);
      if j < |im| { assert ReducedEntry(F, m, im, r, j); }
    }
  }

  // Reduced so far, with the null space of a.
  ghost predicate KerState<T(!new)>(F: Field<T>, a: Matrix<T>, m: Matrix<T>, im: seq<bool>, w: int) {
    |m| == |a| && Reduced(F, m, im, w) && SameNull(F, a, m)
  }

  lemma SameNullTrans<T(!new)>(F: Field<T>, a: Matrix<T>, b: Matrix<T>, c: Matrix<T>)
    requires SameNull(F, a, b) && SameNull(F, b, c)
    ensures SameNull(F, a, c)
  {
  }

  // ---------- the vectors read off ----------

  // The null vector of the free column i.
  function KerVec<T>(F: Field<T>, m: Matrix<T>, im: seq<bool>, i: nat): (x: seq<T>)
    requires Shape(m, |m|, |im|) && Rank(im, |im|) <= |m| && i < |im|
    ensures |x| == |im|
  {
    seq(|im|, j requires 0 <= j < |im| => KerEntry(F, m, im, i, j))
  }

  function KerEntry<T>(F: Field<T>, m: Matrix<T>, im: seq<bool>, i: nat, j: nat): T
    requires Shape(m, |m|, |im|) && Rank(im, |im|) <= |m| && i < |im| && j < |im|
  {
    if im[j] then
      RankMonotone(im, j + 1, |im|);
      F.neg(m[Rank(im, j)][i])
    else if j == i then F.one
    else F.zero
  }

  lemma KerVecKilled<T(!new)>(F: Field<T>, m: Matrix<T>, im: seq<bool>, i: nat)
    requires IsField(F) && Reduced(F, m, im, |im|) && i < |im| && !im[i]
    ensures Kills(F, m, KerVec(F, m, im, i))
  {
    forall q | 0 <= q < |m| ensures Dot(F, m[q], KerVec(F, m, im, i)) == F.zero {
      KerRow(F, m, im, i, q);
    }
  }

  lemma KerRow<T(!new)>(F: Field<T>, m: Matrix<T>, im: seq<bool>, i: nat, q: nat)
    requires IsField(F) && Reduced(F, m, im, |im|) && i < |im| && !im[i] && q < |m|
    ensures Dot(F, m[q], KerVec(F, m, im, i)) == F.zero
  {
    var x := KerVec(F, m, im, i);
    var s := Products(F, m[q], x);
    var low := q < Rank(im, |im|);
    var p := if low then NthPivot(im, |im|, q) else -1;
    forall j | 0 <= j < |im| && j != p && j != i ensures s[j] == F.zero {
      assert ReducedEntry(F, m, im, q, j);
      if im[j] && low && Rank(im, j) == q { RankInjective(im, j, p); }
      MulZero(F, m[q][j]);
      MulZero(F, x[j]);
    }
    SumTwoPoints(F, s, p, i);
    assert ReducedEntry(F, m, im, q, i) && (low ==> ReducedEntry(F, m, im, q, p));
    var y := m[q][i];
    assert s[i] == F.mul(y, F.one);
    assert low ==> s[p] == F.mul(F.one, F.neg(y));
    assert Laws(F, y, y, y) && Laws(F, F.one, F.neg(y), y) && Laws(F, F.neg(y), F.one, y);
    assert Laws(F, F.neg(y), y, y) && Laws(F, F.zero, F.zero, F.zero);
  }

  // The columns of r are the null vectors of the free columns, in order.
  ghost predicate ReadOff<T>(F: Field<T>, m: Matrix<T>, im: seq<bool>, r: Matrix<T>)
    requires Shape(m, |m|, |im|) && Rank(im, |im|) <= |m|
  {
    && Shape(r, |im|, FreeRank(im, |im|))
    && forall j, k :: 0 <= j < |im| && 0 <= k < FreeRank(im, |im|) ==>
         r[j][k] == KerEntry(F, m, im, NthFree(im, |im|, k), j)
  }

  // ---------- a basis of the null space ----------

  // r has w rows and d columns. Its columns are killed by a, no combination of
  // them vanishes but the trivial one, and every vector killed by a is one.
  ghost predicate NullBasis<T(!new)>(F: Field<T>, a: Matrix<T>, w: nat, r: Matrix<T>, d: nat) {
    && Shape(r, w, d)
    && (forall k :: 0 <= k < d ==> Kills(F, a, Column(r, d, k)))
    && (forall c :: Independent(F, r, d, c))
    && (forall x :: |x| == w && Kills(F, a, x) ==> Spanned(F, r, d, x))
  }

  ghost predicate Independent<T>(F: Field<T>, r: Matrix<T>, d: nat, c: seq<T>)
    requires Shape(r, |r|, d)
  {
    |c| == d && (forall j :: 0 <= j < |r| ==> Dot(F, r[j], c) == F.zero) ==> AllZero(F, c)
  }

  ghost predicate Spanned<T(!new)>(F: Field<T>, r: Matrix<T>, d: nat, x: seq<T>)
    requires Shape(r, |x|, d)
  {
    exists c :: Combination(F, r, d, x, c)
  }

  // x is the combination of the columns of r with coefficients c.
  ghost predicate Combination<T>(F: Field<T>, r: Matrix<T>, d: nat, x: seq<T>, c: seq<T>)
    requires Shape(r, |x|, d)
  {
    |c| == d && forall j :: 0 <= j < |r| ==> Dot(F, r[j], c) == x[j]
  }

  // The row of r at a free column is a unit vector.
  lemma FreeRowUnit<T(!new)>(F: Field<T>, m: Matrix<T>, im: seq<bool>, r: Matrix<T>, j: nat)
    requires Shape(m, |m|, |im|) && Rank(im, |im|) <= |m| && ReadOff(F, m, im, r)
    requires j < |im| && !im[j]
    ensures FreeRank(im, j) < FreeRank(im, |im|)
    ensures r[j] == Unit(F, FreeRank(im, |im|), FreeRank(im, j))
  {
    var d := FreeRank(im, |im|);
    RankMonotone(im, j + 1, |im|);
    forall k | 0 <= k < d ensures r[j][k] == Unit(F, d, FreeRank(im, j))[k] {
      var i := NthFree(im, |im|, k);
      if k == FreeRank(im, j) { RankInjective(im, i, j); }
    }
  }

  lemma KernelIndependent<T(!new)>(F: Field<T>, m: Matrix<T>, im: seq<bool>, r: Matrix<T>, c: seq<T>)
    requires IsField(F) && Shape(m, |m|, |im|) && Rank(im, |im|) <= |m| && ReadOff(F, m, im, r)
    ensures Independent(F, r, FreeRank(im, |im|), c)
  {
    var d := FreeRank(im, |im|);
    if |c| == d && (forall j :: 0 <= j < |r| ==> Dot(F, r[j], c) == F.zero) {
      forall k | 0 <= k < d ensures c[k] == F.zero {
        var i := NthFree(im, |im|, k);
        FreeRowUnit(F, m, im, r, i);
        DotUnit(F, d, k, c);
        assert Dot(F, r[i], c) == F.zero;
      }
    }
  }

  // The products of row q with x at the free columns among the first j.
  function FreeProducts<T>(F: Field<T>, row: seq<T>, im: seq<bool>, x: seq<T>, j: nat): (s: seq<T>)
    requires |row| == |im| == |x| && j <= |im|
    ensures |s| == FreeRank(im, j)
  {
    if j == 0 then []
    else if im[j - 1] then FreeProducts(F, row, im, x, j - 1)
    else FreeProducts(F, row, im, x, j - 1) + [F.mul(row[j - 1], x[j - 1])]
  }

  lemma {:induction false} FreeProductAt<T>(F: Field<T>, row: seq<T>, im: seq<bool>, x: seq<T>, j: nat, k: nat)
    requires |row| == |im| == |x| && j <= |im| && k < FreeRank(im, j)
    ensures FreeProducts(F, row, im, x, j)[k] == F.mul(row[NthFree(im, j, k)], x[NthFree(im, j, k)])
  {
    if im[j - 1] || k < FreeRank(im, j - 1) {
      FreeProductAt(F, row, im, x, j - 1, k);
    }
  }

  // What a pivot column adds: the entry of x for the row's own pivot, and nothing else.
  lemma PivotTerm<T(!new)>(F: Field<T>, x: T, z: T, y: T)
    requires IsField(F)
    ensures F.mul(F.one, x) == x && F.mul(F.zero, x) == F.zero
    ensures F.add(F.add(F.zero, z), x) == F.add(x, z) && F.add(F.add(y, z), F.zero) == F.add(y, z)
  {
    MulZero(F, x);
    assert Laws(F, x, F.one, F.one) && Laws(F, F.one, x, F.one);
    assert Laws(F, F.add(y, z), F.zero, F.zero);
    assert Laws(F, F.zero, z, x) && Laws(F, z, F.zero, x) && Laws(F, z, x, x);
  }

  // The pivot columns of a row are zero, but for its own, p.
  ghost predicate OwnPivot<T>(F: Field<T>, row: seq<T>, im: seq<bool>, p: nat) {
    |row| == |im| && forall i :: 0 <= i < |im| && im[i] ==> row[i] == if i == p then F.one else F.zero
  }

  lemma ReducedRow<T(!new)>(F: Field<T>, m: Matrix<T>, im: seq<bool>, p: nat)
    requires Reduced(F, m, im, |im|) && p < |im| && im[p] && Rank(im, p) < |m|
    ensures OwnPivot(F, m[Rank(im, p)], im, p)
  {
    forall i | 0 <= i < |im| && im[i] ensures m[Rank(im, p)][i] == if i == p then F.one else F.zero {
      assert ReducedEntry(F, m, im, Rank(im, p), i);
      if Rank(im, i) == Rank(im, p) { RankInjective(im, i, p); }
    }
  }

  lemma SumNext<T>(F: Field<T>, s: seq<T>, j: nat)
    requires 1 <= j <= |s|
    ensures Sum(F, s[..j]) == F.add(Sum(F, s[..j - 1]), s[j - 1])
  {
    assert s[..j][..j - 1] == s[..j - 1];
  }

  lemma FreeSum<T>(F: Field<T>, row: seq<T>, im: seq<bool>, x: seq<T>, j: nat)
    requires |row| == |im| == |x| && 1 <= j <= |im|
    ensures Sum(F, FreeProducts(F, row, im, x, j))
         == if im[j - 1] then Sum(F, FreeProducts(F, row, im, x, j - 1))
            else F.add(Sum(F, FreeProducts(F, row, im, x, j - 1)), F.mul(row[j - 1], x[j - 1]))
  {
    var g, h := FreeProducts(F, row, im, x, j), FreeProducts(F, row, im, x, j - 1);
    if !im[j - 1] { assert g[..|g| - 1] == h; }
  }

  // Along a reduced row, the dot product is the pivot term plus the free terms.
  lemma {:induction false} SplitRow<T(!new)>(
    F: Field<T>, row: seq<T>, im: seq<bool>, x: seq<T>, p: nat, j: nat)
    requires IsField(F) && OwnPivot(F, row, im, p) && |x| == |im| && p < |im| && im[p] && j <= |im|
    ensures Sum(F, Products(F, row, x)[..j])
         == F.add(if p < j then x[p] else F.zero, Sum(F, FreeProducts(F, row, im, x, j)))
  {
    var s := Products(F, row, x);
    if j == 0 {
      assert Laws(F, F.zero, F.zero, F.zero);
    } else {
      var t := s[j - 1];
      assert t == F.mul(row[j - 1], x[j - 1]);
      SplitRow(F, row, im, x, p, j - 1);
      hide Sum, FreeProducts, Products;
      SumNext(F, s, j);
      FreeSum(F, row, im, x, j);
      var y, z := (if p < j - 1 then x[p] else F.zero), Sum(F, FreeProducts(F, row, im, x, j - 1));
      if im[j - 1] {
        hide IsField;
        PivotTerm(F, x[j - 1], z, y);
      } else {
        assert Laws(F, y, z, t);
      }
    }
  }

  // Coefficients: the entries of x at the free columns.
  function FreePart<T>(im: seq<bool>, x: seq<T>): (c: seq<T>)
    requires |x| == |im|
    ensures |c| == FreeRank(im, |im|)
  {
    seq(FreeRank(im, |im|), k requires 0 <= k < FreeRank(im, |im|) => x[NthFree(im, |im|, k)])
  }

  lemma KernelSpans<T(!new)>(F: Field<T>, m: Matrix<T>, im: seq<bool>, r: Matrix<T>, x: seq<T>)
    requires IsField(F) && Reduced(F, m, im, |im|) && ReadOff(F, m, im, r)
    requires |x| == |im| && Kills(F, m, x)
    ensures Spanned(F, r, FreeRank(im, |im|), x)
  {
    var d, c := FreeRank(im, |im|), FreePart(im, x);
    forall j | 0 <= j < |im| ensures Dot(F, r[j], c) == x[j] {
      if im[j] {
        PivotRow(F, m, im, r, x, j);
      } else {
        FreeRowUnit(F, m, im, r, j);
        DotUnit(F, d, FreeRank(im, j), c);
        RankInjective(im, NthFree(im, |im|, FreeRank(im, j)), j);
      }
    }
    assert Combination(F, r, d, x, c);
  }

  lemma PivotRow<T(!new)>(F: Field<T>, m: Matrix<T>, im: seq<bool>, r: Matrix<T>, x: seq<T>, j: nat)
    requires IsField(F) && Reduced(F, m, im, |im|) && ReadOff(F, m, im, r)
    requires |x| == |im| && Kills(F, m, x) && j < |im| && im[j]
    ensures Dot(F, r[j], FreePart(im, x)) == x[j]
  {
    var d, c := FreeRank(im, |im|), FreePart(im, x);
    RankMonotone(im, j + 1, |im|);
    var q := Rank(im, j);
    ReducedRow(F, m, im, j);
    SplitRow(F, m[q], im, x, j, |im|);
    var s := Products(F, m[q], x);
    assert s[..|im|] == s;
    assert Dot(F, m[q], x) == F.zero;
    var g := FreeProducts(F, m[q], im, x, |im|);
    forall k | 0 <= k < d ensures Products(F, r[j], c)[k] == RowScale(F, g, F.neg(F.one))[k] {
      FreeProductAt(F, m[q], im, x, |im|, k);
      var y, z := m[q][NthFree(im, |im|, k)], c[k];
      MulNeg(F, z, y);
      MulNeg(F, F.mul(y, z), F.one);
      assert Laws(F, y, z, z) && Laws(F, F.mul(y, z), z, z);
    }
    assert Products(F, r[j], c) == RowScale(F, g, F.neg(F.one));
    SumRowScale(F, g, F.neg(F.one));
    MulNeg(F, Sum(F, g), F.one);
    assert Laws(F, Sum(F, g), x[j], x[j]);
    NegUnique(F, Sum(F, g), x[j]);
  }

  lemma ReadOffIsBasis<T(!new)>(F: Field<T>, a: Matrix<T>, m: Matrix<T>, im: seq<bool>, r: Matrix<T>)
    requires IsField(F) && KerState(F, a, m, im, |im|) && ReadOff(F, m, im, r)
    ensures NullBasis(F, a, |im|, r, FreeRank(im, |im|))
  {
    var d := FreeRank(im, |im|);
    forall k | 0 <= k < d ensures Kills(F, a, Column(r, d, k)) {
      var i := NthFree(im, |im|, k);
      KerVecKilled(F, m, im, i);
      assert Column(r, d, k) == KerVec(F, m, im, i);
    }
    forall c ensures Independent(F, r, d, c) { KernelIndependent(F, m, im, r, c); }
    forall x | |x| == |im| && Kills(F, a, x) ensures Spanned(F, r, d, x) { KernelSpans(F, m, im, r, x); }
  }

  // ---------- the method ----------

  // One pivot of the elimination of ker: bring row j up, scale it, clear the column.
  method PivotStep<T(!new)>(
    F: Field<T>, ghost a: Matrix<T>, src: array<seq<T>>, l: nat, j: nat, w: nat, im: seq<bool>)
    requires IsField(F) && KerState(F, a, src[..], im, w) && |im| < w
    requires l == Rank(im, |im|) <= j < |a| && src[..][j][|im|] != F.zero
    modifies src
    ensures KerState(F, a, src[..], im + [true], w)
  {
    var i := |im|;
    if j != l {
      ghost var m := src[..];
      NullSwap(F, m, l, j);
      ReducedSwap(F, m, im, w, j);
      SwapEntries(src, l, j, w);
      SameNullTrans(F, a, m, src[..]);
    }
    ghost var m := src[..];
    assert |m[l]| == w;
    var c := F.inv(src[l][i]);
    InvNonzero(F, m[l][i]);
    NullScale(F, m, l, c);
    ReducedScale(F, m, im, w, c);
    assert Laws(F, m[l][i], c, c);
    ScaleRow(F, src, l, c, w);
    SameNullTrans(F, a, m, src[..]);
    ClearColumn(F, a, src, l, w, im);
    ReducedExtend(F, src[..], im, w, true);
  }

  // One turn of the column loop of ker.
  method ColumnStep<T(==, !new)>(
    F: Field<T>, ghost a: Matrix<T>, src: array<seq<T>>, l0: nat, w: nat, im0: seq<bool>)
    returns (im: seq<bool>, l: nat)
    requires IsField(F) && KerState(F, a, src[..], im0, w) && |im0| < w && l0 == Rank(im0, |im0|)
    modifies src
    ensures KerState(F, a, src[..], im, w) && |im| == |im0| + 1 && l == Rank(im, |im|)
  {
    im, l := im0 + [false], l0;
    var j := FindPivot(F, src, l0, |im0|, w);
    if j == src.Length {
      ReducedExtend(F, src[..], im0, w, false);
      return;
    }
    im := im0 + [true];
    RankOfPrefix(im0, [true], |im0|);
    PivotStep(F, a, src, l0, j, w, im0);
    l := l + 1;
  }

  method ClearColumn<T(!new)>(
    F: Field<T>, ghost a: Matrix<T>, src: array<seq<T>>, l: nat, w: nat, im: seq<bool>)
    requires IsField(F) && KerState(F, a, src[..], im, w) && |im| < w
    requires l == Rank(im, |im|) < |a| && src[..][l][|im|] == F.one
    modifies src
    ensures KerState(F, a, src[..], im, w)
    ensures forall r :: 0 <= r < src.Length ==> src[..][r][|im|] == if r == l then F.one else F.zero
  {
    var i := |im|;
    var j := 0;
    while j < src.Length
      invariant 0 <= j <= src.Length && KerState(F, a, src[..], im, w)
      invariant src[..][l][i] == F.one
      invariant forall r :: 0 <= r < j && r != l ==> src[..][r][i] == F.zero
    {
      if j != l {
        ghost var m := src[..];
        assert |m[j]| == w && |m[l]| == w;
        var c := src[j][i];
        NullEliminate(F, m, l, j, c);
        ReducedEliminate(F, m, im, w, j, c);
        SubOne(F, c);
        forall k | 0 <= k < i ensures m[l][k] == F.zero { assert ReducedEntry(F, m, im, l, k); }
        SubtractRow(F, src, l, j, c, i, w);
        SameNullTrans(F, a, m, src[..]);
      }
      j := j + 1;
    }
  }

  // The second half of ker: one column of the answer for each free column.
  method BuildKernel<T(!new)>(F: Field<T>, src: array<seq<T>>, im: seq<bool>, l0: nat) returns (res: Matrix<T>)
    requires Shape(src[..], src.Length, |im|) && l0 == Rank(im, |im|) <= src.Length
    ensures ReadOff(F, src[..], im, res)
  {
    var w := |im|;
    ghost var m := src[..];
    var d := w - l0;
    var r := new seq<T>[w](_ => seq(d, _ => F.zero));
    var k := 0;
    var i := 0;
    while i < w
      invariant 0 <= i <= w && k == FreeRank(im, i) <= d
      invariant src[..] == m && Shape(r[..], w, d)
      invariant forall j, q :: 0 <= j < w && 0 <= q < k ==> r[..][j][q] == KerEntry(F, m, im, NthFree(im, w, q), j)
    {
      RankMonotone(im, i, w);
      RankMonotone(im, i + 1, w);
      if !im[i] {
        FillColumn(F, src, im, r, i, k, d);
        RankInjective(im, NthFree(im, w, k), i);
        k := k + 1;
      }
      i := i + 1;
    }
    res := r[..];
  }

  // Fill column k of the answer from the free column i.
  method FillColumn<T(!new)>(
    F: Field<T>, src: array<seq<T>>, im: seq<bool>, r: array<seq<T>>, i: nat, k: nat, d: nat)
    requires Shape(src[..], src.Length, |im|) && Rank(im, |im|) <= src.Length && src != r
    requires Shape(r[..], |im|, d) && i < |im| && !im[i] && k == FreeRank(im, i) < d
    modifies r
    ensures Shape(r[..], |im|, d)
    ensures forall j, q :: 0 <= j < |im| && 0 <= q < d ==>
      r[..][j][q] == if q == k then KerEntry(F, src[..], im, i, j) else old(r[..])[j][q]
  {
    var w := |im|;
    ghost var m, r0 := src[..], r[..];
    var l, p := 0, 0;
    var j := 0;
    while j < w
      invariant 0 <= j <= w && p == Rank(im, j) && l == FreeRank(im, j)
      invariant src[..] == m && r.Length == w && forall t :: 0 <= t < w ==> |r[t]| == d
      invariant forall t :: j <= t < w ==> r[t] == r0[t]
      invariant forall t, q :: 0 <= t < j && 0 <= q < d ==>
        r[t][q] == if q == k then KerEntry(F, m, im, i, t) else r0[t][q]
    {
      RankMonotone(im, j + 1, w);
      if im[j] {
        assert |m[p]| == w;
        r[j] := r[j][k := F.neg(src[p][i])];
        p := p + 1;
      } else {
        if l == k {
          RankInjective(im, i, j);
          r[j] := r[j][k := F.one];
        } else {
          r[j] := r[j][k := F.zero];
        }
        l := l + 1;
      }
      j := j + 1;
    }
  }

  // Matrix.ker: the columns of the answer are a basis of the null space of a, and
  // there are as many as there are columns without a pivot. imCols says which columns
  // have one in a reduced matrix with the same null space.
  method ComputeKernel<T(==, !new)>(F: Field<T>, a: Matrix<T>, w: nat) returns (r: Matrix<T>, imCols: seq<bool>)
    requires IsField(F) && a != [] && Shape(a, |a|, w)
    ensures |imCols| == w && NullBasis(F, a, w, r, w - Rank(imCols, w))
    ensures exists m :: KerState(F, a, m, imCols, w)
  {
    var h := |a|;
    var src := new seq<T>[h](j requires 0 <= j < h => a[j]);
    assert src[..] == a;
    assert KerState(F, a, src[..], [], w);
    hide SameNull, ReducedEntry, NullBasis, ReadOff;
    imCols := [];
    var l := 0;
    var i := 0;
    while i < w
      invariant 0 <= i <= w && |imCols| == i && l == Rank(imCols, i)
      invariant KerState(F, a, src[..], imCols, w)
    {
      imCols, l := ColumnStep(F, a, src, l, w, imCols);
      i := i + 1;
    }
    r := BuildKernel(F, src, imCols, l);
    ReadOffIsBasis(F, a, src[..], imCols, r);
  }
}
