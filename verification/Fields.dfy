// Coefficients. The matrix, polynomial and series code of qjscalc.js works on any
// coefficients with exact operators; here these are the elements of any field.
module Fields {

  datatype Field<!T> = Field(
    zero: T, one: T, add: (T, T) -> T, neg: T -> T, mul: (T, T) -> T, inv: T -> T)

  ghost predicate Laws<T>(F: Field<T>, a: T, b: T, c: T) {
    && F.add(a, b) == F.add(b, a)
    && F.add(F.add(a, b), c) == F.add(a, F.add(b, c))
    && F.add(a, F.zero) == a
    && F.add(a, F.neg(a)) == F.zero
    && F.mul(a, b) == F.mul(b, a)
    && F.mul(F.mul(a, b), c) == F.mul(a, F.mul(b, c))
    && F.mul(a, F.one) == a
    && F.mul(a, F.add(b, c)) == F.add(F.mul(a, b), F.mul(a, c))
    && (a != F.zero ==> F.mul(a, F.inv(a)) == F.one)
  }

  ghost predicate IsField<T(!new)>(F: Field<T>) {
    F.zero != F.one && forall a, b, c :: Laws(F, a, b, c)
  }

  function Sub<T>(F: Field<T>, a: T, b: T): T { F.add(a, F.neg(b)) }

  // ---------- consequences of the laws ----------

  lemma AddCancel<T(!new)>(F: Field<T>, a: T, b: T, c: T)
    requires IsField(F) && F.add(a, b) == F.add(a, c)
    ensures b == c
  {
    assert Laws(F, F.neg(a), a, b) && Laws(F, F.neg(a), a, c) && Laws(F, a, b, c);
    assert Laws(F, b, F.zero, a) && Laws(F, c, F.zero, a);
  }

  lemma NegUnique<T(!new)>(F: Field<T>, a: T, b: T)
    requires IsField(F) && F.add(a, b) == F.zero
    ensures b == F.neg(a)
  {
    assert Laws(F, a, b, b);
    AddCancel(F, a, b, F.neg(a));
  }

  lemma MulZero<T(!new)>(F: Field<T>, a: T)
    requires IsField(F)
    ensures F.mul(a, F.zero) == F.zero && F.mul(F.zero, a) == F.zero
  {
    var z := F.mul(a, F.zero);
    assert Laws(F, a, F.zero, F.zero) && Laws(F, F.zero, F.zero, F.zero) && Laws(F, z, F.zero, F.zero);
    AddCancel(F, z, z, F.zero);
  }

  lemma MulNeg<T(!new)>(F: Field<T>, a: T, b: T)
    requires IsField(F)
    ensures F.mul(a, F.neg(b)) == F.neg(F.mul(a, b))
    ensures F.mul(F.neg(b), a) == F.neg(F.mul(a, b))
  {
    assert Laws(F, a, b, F.neg(b)) && Laws(F, b, b, b) && Laws(F, a, F.neg(b), b);
    MulZero(F, a);
    NegUnique(F, F.mul(a, b), F.mul(a, F.neg(b)));
  }

  lemma NegNeg<T(!new)>(F: Field<T>, a: T)
    requires IsField(F)
    ensures F.neg(F.neg(a)) == a
  {
    assert Laws(F, a, F.neg(a), a);
    NegUnique(F, F.neg(a), a);
  }

  lemma NegZero<T(!new)>(F: Field<T>)
    requires IsField(F)
    ensures F.neg(F.zero) == F.zero
  {
    assert Laws(F, F.zero, F.zero, F.zero);
    NegUnique(F, F.zero, F.zero);
  }

  lemma AddSwap<T(!new)>(F: Field<T>, a: T, b: T, c: T, d: T)
    requires IsField(F)
    ensures F.add(F.add(a, b), F.add(c, d)) == F.add(F.add(a, c), F.add(b, d))
  {
    assert Laws(F, a, b, F.add(c, d)) && Laws(F, b, c, d) && Laws(F, c, b, d) && Laws(F, a, c, F.add(b, d));
  }

  lemma NegAdd<T(!new)>(F: Field<T>, a: T, b: T)
    requires IsField(F)
    ensures F.neg(F.add(a, b)) == F.add(F.neg(a), F.neg(b))
  {
    AddSwap(F, a, b, F.neg(a), F.neg(b));
    assert Laws(F, a, a, a) && Laws(F, b, b, b) && Laws(F, F.zero, a, a);
    NegUnique(F, F.add(a, b), F.add(F.neg(a), F.neg(b)));
  }

  lemma NoZeroDivisors<T(!new)>(F: Field<T>, a: T, b: T)
    requires IsField(F) && F.mul(a, b) == F.zero && a != F.zero
    ensures b == F.zero
  {
    assert Laws(F, a, F.inv(a), b) && Laws(F, F.inv(a), a, b) && Laws(F, b, F.one, b);
    MulZero(F, F.inv(a));
  }

  lemma InvNonzero<T(!new)>(F: Field<T>, a: T)
    requires IsField(F) && a != F.zero
    ensures F.inv(a) != F.zero
  {
    assert Laws(F, a, a, a);
    MulZero(F, a);
  }

  // ---------- vectors ----------

  // u - c * w, element by element
  function RowSub<T>(F: Field<T>, u: seq<T>, w: seq<T>, c: T): (r: seq<T>)
    requires |u| == |w|
    ensures |r| == |u|
  {
    seq(|u|, k requires 0 <= k < |u| => Sub(F, u[k], F.mul(w[k], c)))
  }

  // u * c, element by element
  function RowScale<T>(F: Field<T>, u: seq<T>, c: T): (r: seq<T>)
    ensures |r| == |u|
  {
    seq(|u|, k requires 0 <= k < |u| => F.mul(u[k], c))
  }

  function Sum<T>(F: Field<T>, s: seq<T>): T {
    if s == [] then F.zero else F.add(Sum(F, s[..|s| - 1]), s[|s| - 1])
  }

  function Products<T>(F: Field<T>, u: seq<T>, v: seq<T>): (r: seq<T>)
    requires |u| == |v|
    ensures |r| == |u|
  {
    seq(|u|, k requires 0 <= k < |u| => F.mul(u[k], v[k]))
  }

  function Dot<T>(F: Field<T>, u: seq<T>, v: seq<T>): T
    requires |u| == |v|
  {
    Sum(F, Products(F, u, v))
  }

  lemma SubLinear<T(!new)>(F: Field<T>, p: T, q: T, x: T, y: T, c: T)
    requires IsField(F)
    ensures F.add(Sub(F, p, F.mul(q, c)), Sub(F, x, F.mul(y, c))) == Sub(F, F.add(p, x), F.mul(F.add(q, y), c))
  {
    AddSwap(F, p, F.neg(F.mul(q, c)), x, F.neg(F.mul(y, c)));
    NegAdd(F, F.mul(q, c), F.mul(y, c));
    assert Laws(F, c, q, y) && Laws(F, c, F.add(q, y), q) && Laws(F, q, c, c) && Laws(F, y, c, c);
  }

  lemma SubTimes<T(!new)>(F: Field<T>, x: T, y: T, c: T, z: T)
    requires IsField(F)
    ensures F.mul(Sub(F, x, F.mul(y, c)), z) == Sub(F, F.mul(x, z), F.mul(F.mul(y, z), c))
  {
    assert Laws(F, z, x, F.neg(F.mul(y, c))) && Laws(F, z, Sub(F, x, F.mul(y, c)), x);
    MulNeg(F, z, F.mul(y, c));
    assert Laws(F, x, z, z) && Laws(F, z, F.mul(y, c), c) && Laws(F, z, y, c) && Laws(F, y, z, z);
  }

  lemma {:induction false} SumRowSub<T(!new)>(F: Field<T>, u: seq<T>, w: seq<T>, c: T)
    requires IsField(F) && |u| == |w|
    ensures Sum(F, RowSub(F, u, w, c)) == Sub(F, Sum(F, u), F.mul(Sum(F, w), c))
  {
    if u == [] {
      MulZero(F, c);
      assert Laws(F, F.zero, F.zero, F.zero);
    } else {
      var k := |u| - 1;
      SumRowSub(F, u[..k], w[..k], c);
      assert RowSub(F, u, w, c)[..k] == RowSub(F, u[..k], w[..k], c);
      SubLinear(F, Sum(F, u[..k]), Sum(F, w[..k]), u[k], w[k], c);
    }
  }

  lemma {:induction false} SumRowScale<T(!new)>(F: Field<T>, u: seq<T>, c: T)
    requires IsField(F)
    ensures Sum(F, RowScale(F, u, c)) == F.mul(Sum(F, u), c)
  {
    if u == [] {
      MulZero(F, c);
    } else {
      var k := |u| - 1;
      SumRowScale(F, u[..k], c);
      assert RowScale(F, u, c)[..k] == RowScale(F, u[..k], c);
      var s := Sum(F, u[..k]);
      assert Laws(F, c, s, u[k]) && Laws(F, c, F.add(s, u[k]), c) && Laws(F, s, c, c) && Laws(F, u[k], c, c);
    }
  }

  // The element at place p, zero outside of the sequence.
  function At<T>(F: Field<T>, s: seq<T>, p: int): T {
    if 0 <= p < |s| then s[p] else F.zero
  }

  // A sum whose elements all vanish but those at two places, p and q.
  lemma {:induction false} SumTwoPoints<T(!new)>(F: Field<T>, s: seq<T>, p: int, q: int)
    requires IsField(F) && p != q
    requires forall k :: 0 <= k < |s| && k != p && k != q ==> s[k] == F.zero
    ensures Sum(F, s) == F.add(At(F, s, p), At(F, s, q))
  {
    if s == [] {
      assert Laws(F, F.zero, F.zero, F.zero);
    } else {
      var k := |s| - 1;
      SumTwoPoints(F, s[..k], p, q);
      var x, y, t := At(F, s[..k], p), At(F, s[..k], q), s[k];
      assert Laws(F, x, y, t) && Laws(F, F.zero, t, y) && Laws(F, t, F.zero, y);
      assert Laws(F, F.add(x, y), t, t) && Laws(F, y, F.zero, t) && Laws(F, x, F.zero, t);
    }
  }

  lemma SumOnePoint<T(!new)>(F: Field<T>, s: seq<T>, p: int)
    requires IsField(F)
    requires forall k :: 0 <= k < |s| && k != p ==> s[k] == F.zero
    ensures Sum(F, s) == At(F, s, p)
  {
    SumTwoPoints(F, s, p, if p < 0 then p - 1 else -1);
    assert Laws(F, At(F, s, p), F.zero, F.zero);
  }

  lemma DotRowSub<T(!new)>(F: Field<T>, u: seq<T>, w: seq<T>, c: T, v: seq<T>)
    requires IsField(F) && |u| == |w| == |v|
    ensures Dot(F, RowSub(F, u, w, c), v) == Sub(F, Dot(F, u, v), F.mul(Dot(F, w, v), c))
  {
    forall k | 0 <= k < |u|
      ensures Products(F, RowSub(F, u, w, c), v)[k] == RowSub(F, Products(F, u, v), Products(F, w, v), c)[k]
    {
      SubTimes(F, u[k], w[k], c, v[k]);
    }
    assert Products(F, RowSub(F, u, w, c), v) == RowSub(F, Products(F, u, v), Products(F, w, v), c);
    SumRowSub(F, Products(F, u, v), Products(F, w, v), c);
  }

  lemma DotRowScale<T(!new)>(F: Field<T>, u: seq<T>, c: T, v: seq<T>)
    requires IsField(F) && |u| == |v|
    ensures Dot(F, RowScale(F, u, c), v) == F.mul(Dot(F, u, v), c)
  {
    forall k | 0 <= k < |u|
      ensures Products(F, RowScale(F, u, c), v)[k] == RowScale(F, Products(F, u, v), c)[k]
    {
      var x, y := u[k], v[k];
      assert Laws(F, x, c, y) && Laws(F, x, y, c) && Laws(F, c, y, y);
    }
    assert Products(F, RowScale(F, u, c), v) == RowScale(F, Products(F, u, v), c);
    SumRowScale(F, Products(F, u, v), c);
  }
}
