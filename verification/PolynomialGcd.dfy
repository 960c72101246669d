// Polynomial.gcd of qjscalc.js over a field.
module PolynomialGcd {
  import opened Outcomes
  import opened Fields
  import opened Powers
  import opened Polynomials

  // ---------- divisibility ----------

  ghost predicate Quotient<T>(F: Field<T>, d: seq<T>, a: seq<T>, q: seq<T>) {
    Times(F, Poly(F, d), Poly(F, q)) == Poly(F, a)
  }

  ghost predicate Divides<T(!new)>(F: Field<T>, d: seq<T>, a: seq<T>) { exists q: seq<T> :: Quotient(F, d, a, q) }

  ghost predicate CommonDivisor<T(!new)>(F: Field<T>, d: seq<T>, a: seq<T>, b: seq<T>) {
    Divides(F, d, a) && Divides(F, d, b)
  }

  lemma DividesSum<T(!new)>(F: Field<T>, d: seq<T>, a: seq<T>, b: seq<T>, s: seq<T>)
    requires IsField(F) && CommonDivisor(F, d, a, b) && Poly(F, s) == Plus(F, Poly(F, a), Poly(F, b))
    ensures Divides(F, d, s)
  {
    hide IsField, Plus, Times, Poly;
    var p :| Quotient(F, d, a, p);
    var q :| Quotient(F, d, b, q);
    AddSeqIs(F, p, q);
    TimesDistributes(F, Poly(F, d), Poly(F, p), Poly(F, q));
    assert Quotient(F, d, s, AddSeq(F, p, q));
  }

  lemma DividesMultiple<T(!new)>(F: Field<T>, d: seq<T>, a: seq<T>, c: seq<T>, m: seq<T>)
    requires IsField(F) && Divides(F, d, a) && Poly(F, m) == Times(F, Poly(F, c), Poly(F, a))
    ensures Divides(F, d, m)
  {
    hide IsField, Plus, Times, Poly;
    var q :| Quotient(F, d, a, q);
    MulSeqIs(F, q, c);
    TimesAssociates(F, Poly(F, d), Poly(F, q), Poly(F, c));
    TimesCommutes(F, Poly(F, c), Poly(F, a));
    assert Quotient(F, d, m, MulSeq(F, q, c));
  }

  lemma NegTimes<T(!new)>(F: Field<T>, f: Power<T>, g: Power<T>)
    requires IsField(F) && Total(f) && Total(g)
    ensures Times(F, Negated(F, f), g) == Negated(F, Times(F, f, g))
  {
    hide IsField, Plus, Times, Negated, Mono;
    LeftDistributes(F, f, Negated(F, f), g);
    PlusInverse(F, f);
    TimesZero(F, g);
    NegatedUnique(F, Times(F, f, g), Times(F, Negated(F, f), g));
  }

  lemma TimesZero<T(!new)>(F: Field<T>, g: Power<T>)
    requires IsField(F) && Total(g)
    ensures Times(F, Mono(F, F.zero, 0), g) == Mono(F, F.zero, 0)
    ensures Times(F, g, Mono(F, F.zero, 0)) == Mono(F, F.zero, 0)
  {
    var z := Mono(F, F.zero, 0);
    TimesCommutes(F, g, z);
    forall k: nat ensures Conv(F, z, g, k) == z[k] { ConvZero(F, z, g, k); }
  }

  lemma NegatedUnique<T(!new)>(F: Field<T>, a: Power<T>, b: Power<T>)
    requires IsField(F) && Total(a) && Total(b) && Plus(F, a, b) == Mono(F, F.zero, 0)
    ensures b == Negated(F, a)
  {
    forall k: nat ensures b[k] == F.neg(a[k]) {
      assert Plus(F, a, b)[k] == F.zero;
      NegUnique(F, a[k], b[k]);
    }
  }

  // From a == m + r, r == a + -m.
  lemma MoveOver<T(!new)>(F: Field<T>, a: Power<T>, m: Power<T>, r: Power<T>)
    requires IsField(F) && Total(a) && Total(m) && Total(r) && a == Plus(F, m, r)
    ensures r == Plus(F, a, Negated(F, m))
  {
    forall k: nat ensures r[k] == F.add(a[k], F.neg(m[k])) {
      var x, y := m[k], r[k];
      assert Laws(F, x, y, F.neg(x)) && Laws(F, y, x, F.neg(x)) && Laws(F, x, x, x) && Laws(F, y, y, y);
    }
  }

  ghost predicate SameDivisors<T(!new)>(F: Field<T>, a: seq<T>, b: seq<T>, c: seq<T>, d: seq<T>) {
    forall e :: CommonDivisor(F, e, a, b) <==> CommonDivisor(F, e, c, d)
  }

  // The step of Euclid's algorithm.
  lemma RemainderDivisors<T(!new)>(F: Field<T>, a: seq<T>, b: seq<T>, q: seq<T>, r: seq<T>)
    requires IsField(F) && Dividing(F, a, q, b, r)
    ensures SameDivisors(F, a, b, b, r)
  {
    hide IsField, Plus, Times, Poly, Divides, Negated;
    var m := MulSeq(F, q, b);
    MulSeqIs(F, q, b);
    var n := NegSeq(F, m);
    NegSeqIs(F, m);
    NegTimes(F, Poly(F, q), Poly(F, b));
    NegSeqIs(F, q);
    MoveOver(F, Poly(F, a), Poly(F, m), Poly(F, r));
    forall e ensures CommonDivisor(F, e, a, b) <==> CommonDivisor(F, e, b, r) {
      if Divides(F, e, b) {
        DividesMultiple(F, e, b, q, m);
        DividesMultiple(F, e, b, NegSeq(F, q), n);
        if Divides(F, e, a) { DividesSum(F, e, a, n, r); }
        if Divides(F, e, r) { DividesSum(F, e, m, r, a); }
      }
    }
  }

  lemma DividesItself<T(!new)>(F: Field<T>, a: seq<T>)
    requires IsField(F)
    ensures Divides(F, a, a)
  {
    TimesOne(F, Poly(F, a));
    assert Poly(F, [F.one]) == Mono(F, F.one, 0) by {
      forall k: nat ensures At(F, [F.one], k) == MonoAt(F, F.one, 0, k) {}
    }
    assert Quotient(F, a, a, [F.one]);
  }

  lemma DividesZero<T(!new)>(F: Field<T>, d: seq<T>, z: seq<T>)
    requires IsField(F) && Trimmed(F, z) && Deg(F, z) < 0
    ensures Divides(F, d, z)
  {
    var f := Poly(F, d);
    TimesCommutes(F, f, Poly(F, z));
    forall k: nat ensures Conv(F, Poly(F, z), f, k) == At(F, z, k) { ConvZero(F, Poly(F, z), f, k); }
    assert Quotient(F, d, z, z);
  }

  lemma ZeroTimes<T(!new)>(F: Field<T>, z: seq<T>, q: seq<T>, k: nat)
    requires IsField(F) && Trimmed(F, z) && Deg(F, z) < 0
    ensures Times(F, Poly(F, z), Poly(F, q))[k] == F.zero && Times(F, Poly(F, q), Poly(F, z))[k] == F.zero
  {
    var f, g := Poly(F, z), Poly(F, q);
    TimesCommutes(F, f, g);
    ConvZero(F, f, g, k);
    TimesAt(F, f, g, k);
  }

  lemma TopCoefficient<T(!new)>(F: Field<T>, d: seq<T>, q: seq<T>, k: nat)
    requires IsField(F) && Trimmed(F, d) && Trimmed(F, q) && Deg(F, d) >= 0 && Deg(F, q) >= 0
    requires k >= Deg(F, d) + Deg(F, q)
    ensures Times(F, Poly(F, d), Poly(F, q))[k] == F.zero <==> k > Deg(F, d) + Deg(F, q)
  {
    var f, g, m, n := Poly(F, d), Poly(F, q), |d| - 1, |q| - 1;
    ConvTop(F, f, g, m, n, k);
    TimesAt(F, f, g, k);
    if F.mul(d[m], q[n]) == F.zero { NoZeroDivisors(F, d[m], q[n]); }
  }

  // The degree of a product is the sum of the degrees.
  lemma ProductDegree<T(!new)>(F: Field<T>, d: seq<T>, q: seq<T>, a: seq<T>)
    requires IsField(F) && Trimmed(F, d) && Trimmed(F, q) && Trimmed(F, a) && Quotient(F, d, a, q)
    ensures Deg(F, a) >= 0 ==> Deg(F, d) >= 0 && Deg(F, q) >= 0
    ensures Deg(F, d) >= 0 && Deg(F, q) >= 0 ==> Deg(F, a) == Deg(F, d) + Deg(F, q)
  {
    hide IsField, Times;
    var k := |a| - 1;
    assert Poly(F, a)[k] == a[k];
    if Deg(F, d) < 0 {
      ZeroTimes(F, d, q, k);
    } else if Deg(F, q) < 0 {
      ZeroTimes(F, q, d, k);
    } else {
      var n := Deg(F, d) + Deg(F, q);
      TopCoefficient(F, d, q, n);
      assert Poly(F, a)[n] == At(F, a, n);
      if k >= n { TopCoefficient(F, d, q, k); }
    }
  }

  // A divisor of a nonzero polynomial has no higher degree.
  lemma DivisorDegree<T(!new)>(F: Field<T>, d: seq<T>, a: seq<T>)
    requires IsField(F) && Trimmed(F, d) && Trimmed(F, a) && Divides(F, d, a) && Deg(F, a) >= 0
    ensures 0 <= Deg(F, d) <= Deg(F, a)
  {
    hide IsField, Times, Poly;
    var q :| Quotient(F, d, a, q);
    ProductDegree(F, d, TrimSeq(F, q), a);
  }

  function TrimSeq<T(==)>(F: Field<T>, p: seq<T>): (r: seq<T>)
    ensures Trimmed(F, r) && Poly(F, r) == Poly(F, p)
  {
    if p == [] then
      assert Poly(F, [F.zero]) == Poly(F, p) by {
        assert forall k | 0 <= k :: At(F, [F.zero], k) == At(F, p, k);
      }
      [F.zero]
    else if |p| > 1 && p[|p| - 1] == F.zero then
      var q := p[..|p| - 1];
      assert Poly(F, q) == Poly(F, p) by { assert forall k | 0 <= k :: At(F, q, k) == At(F, p, k); }
      TrimSeq(F, q)
    else p
  }

  // ---------- the quotient and the remainder are unique ----------

  // From q1 * b + r1 == q2 * b + r2, (q1 - q2) * b == r2 - r1.
  lemma DifferenceTimes<T(!new)>(
    F: Field<T>, q1: Power<T>, q2: Power<T>, b: Power<T>, r1: Power<T>, r2: Power<T>)
    requires IsField(F) && Total(q1) && Total(q2) && Total(b) && Total(r1) && Total(r2)
    requires Plus(F, Times(F, q1, b), r1) == Plus(F, Times(F, q2, b), r2)
    ensures Times(F, Plus(F, q1, Negated(F, q2)), b) == Plus(F, r2, Negated(F, r1))
  {
    hide IsField, Times, Plus, Negated;
    LeftDistributes(F, q1, Negated(F, q2), b);
    NegTimes(F, q2, b);
    PlusCross(F, Times(F, q1, b), r1, Times(F, q2, b), r2);
  }

  lemma PlusCross<T(!new)>(F: Field<T>, x: Power<T>, r: Power<T>, y: Power<T>, s: Power<T>)
    requires IsField(F) && Total(x) && Total(r) && Total(y) && Total(s) && Plus(F, x, r) == Plus(F, y, s)
    ensures Plus(F, x, Negated(F, y)) == Plus(F, s, Negated(F, r))
  {
    hide IsField;
    forall k: nat ensures F.add(x[k], F.neg(y[k])) == F.add(s[k], F.neg(r[k])) {
      assert Plus(F, x, r)[k] == Plus(F, y, s)[k];
      CrossOver(F, x[k], r[k], y[k], s[k]);
    }
  }

  lemma CrossOver<T(!new)>(F: Field<T>, x: T, r: T, y: T, s: T)
    requires IsField(F) && F.add(x, r) == F.add(y, s)
    ensures F.add(x, F.neg(y)) == F.add(s, F.neg(r))
  {
    var u := F.add(F.neg(r), F.neg(y));
    assert F.add(F.add(x, r), u) == F.add(x, F.neg(y)) by {
      assert Laws(F, x, r, u) && Laws(F, r, F.neg(r), F.neg(y)) && Laws(F, r, r, r);
      ZeroPlus(F, F.neg(y));
    }
    assert F.add(F.add(y, s), u) == F.add(s, F.neg(r)) by {
      assert Laws(F, F.neg(r), F.neg(y), y) && Laws(F, s, y, F.add(F.neg(y), F.neg(r)));
      assert Laws(F, y, F.neg(y), F.neg(r)) && Laws(F, y, s, u);
      ZeroPlus(F, F.neg(r));
    }
  }

  lemma DividedUnique<T(!new)>(
    F: Field<T>, a: seq<T>, b: seq<T>, q1: seq<T>, r1: seq<T>, q2: seq<T>, r2: seq<T>)
    requires IsField(F) && Trimmed(F, b) && Deg(F, b) >= 0
    requires Divided(F, a, b, q1, r1) && Divided(F, a, b, q2, r2)
    ensures q1 == q2 && r1 == r2
  {
    hide IsField, Times, Plus, Poly, Negated;
    DifferenceTimes(F, Poly(F, q1), Poly(F, q2), Poly(F, b), Poly(F, r1), Poly(F, r2));
    var q := TrimSeq(F, AddSeq(F, q1, NegSeq(F, q2)));
    var r := TrimSeq(F, AddSeq(F, r2, NegSeq(F, r1)));
    AddSeqIs(F, q1, NegSeq(F, q2));
    NegSeqIs(F, q2);
    AddSeqIs(F, r2, NegSeq(F, r1));
    NegSeqIs(F, r1);
    assert Quotient(F, q, r, b);
    ProductDegree(F, q, b, r);
    DifferenceDegree(F, r2, r1, r);
    DifferenceZero(F, q1, q2, q);
    DifferenceZero(F, r2, r1, r);
  }

  lemma DifferenceDegree<T(!new)>(F: Field<T>, p: seq<T>, q: seq<T>, d: seq<T>)
    requires IsField(F) && Trimmed(F, p) && Trimmed(F, q) && Trimmed(F, d)
    requires Poly(F, d) == Plus(F, Poly(F, p), Negated(F, Poly(F, q)))
    ensures Deg(F, d) <= Deg(F, p) || Deg(F, d) <= Deg(F, q)
  {
    var k := |d| - 1;
    assert Poly(F, d)[k] == d[k];
    NegZero(F);
    ZeroPlus(F, F.zero);
  }

  lemma DifferenceZero<T(!new)>(F: Field<T>, p: seq<T>, q: seq<T>, d: seq<T>)
    requires IsField(F) && Trimmed(F, p) && Trimmed(F, q) && Trimmed(F, d) && Deg(F, d) < 0
    requires Poly(F, d) == Plus(F, Poly(F, p), Negated(F, Poly(F, q)))
    ensures p == q
  {
    forall k | 0 <= k ensures At(F, p, k) == At(F, q, k) {
      var x, y := At(F, p, k), At(F, q, k);
      assert Poly(F, d)[k] == F.add(x, F.neg(y));
      assert Laws(F, x, F.neg(y), y) && Laws(F, F.neg(y), x, y);
      NegUnique(F, F.neg(y), x);
      NegNeg(F, y);
    }
    assert Poly(F, p) == Poly(F, q);
    TrimmedUnique(F, p, q);
  }

  // ---------- the quotient and the remainder exist ----------

  // One step of long division: the leading term of a goes.
  lemma DivisionStep<T(!new)>(F: Field<T>, a: seq<T>, b: seq<T>, s: seq<T>, c: T, q: seq<T>, r: seq<T>)
    requires IsField(F) && b != [] && |a| >= |b|
    requires Poly(F, a) == Plus(F, Poly(F, s), Times(F, Mono(F, c, |a| - |b|), Poly(F, b)))
    requires Dividing(F, s, q, b, r)
    ensures exists q1 :: Trimmed(F, q1) && Dividing(F, a, q1, b, r)
  {
    hide IsField, Plus, Times, Poly, Mono;
    var m, z := Mono(F, c, |a| - |b|), seq(|a| - |b| + 1, _ => F.zero);
    var p := z[|a| - |b| := c];
    SetCoefficient(F, z, |a| - |b|, c);
    PolyNothing(F, z);
    var q1 := TrimSeq(F, AddSeq(F, q, p));
    AddSeqIs(F, q, p);
    PlusCommutes(F, Poly(F, z), m);
    PlusInverse(F, m);
    var mb := Times(F, m, Poly(F, b));
    DivIdentity(F, Poly(F, q), m, Poly(F, b), Poly(F, r), Plus(F, Poly(F, r), mb));
    PlusAssociates(F, Times(F, Poly(F, q), Poly(F, b)), Poly(F, r), mb);
    assert Dividing(F, a, q1, b, r);
  }

  lemma PolyNothing<T(!new)>(F: Field<T>, z: seq<T>)
    requires forall k :: 0 <= k < |z| ==> z[k] == F.zero
    ensures Poly(F, z) == Mono(F, F.zero, 0)
  {
    forall k: nat ensures At(F, z, k) == MonoAt(F, F.zero, 0, k) {}
  }

  // a without its leading term, when c times that of b is taken off
  function WithoutTop<T>(F: Field<T>, a: seq<T>, b: seq<T>, c: T): seq<T>
    requires 0 < |b| <= |a|
  {
    var i := |a| - |b|;
    seq(|a| - 1, k requires 0 <= k < |a| - 1 => if i <= k then Sub(F, a[k], F.mul(b[k - i], c)) else a[k])
  }

  lemma WithoutTopIs<T(!new)>(F: Field<T>, a: seq<T>, b: seq<T>, c: T)
    requires IsField(F) && 0 < |b| <= |a| && a[|a| - 1] == F.mul(c, b[|b| - 1])
    ensures Poly(F, a) == Plus(F, Poly(F, WithoutTop(F, a, b, c)), Times(F, Mono(F, c, |a| - |b|), Poly(F, b)))
  {
    hide IsField, Plus, Times, Mono;
    var s := WithoutTop(F, a, b, c);
    assert Poly(F, s + [F.zero]) == Poly(F, s) by {
      assert forall k | 0 <= k :: At(F, s + [F.zero], k) == At(F, s, k);
    }
    RowSubtracted(F, a, s + [F.zero], b, c, |a| - |b|);
  }

  lemma {:induction false} DivisionExists<T(!new)>(F: Field<T>, a: seq<T>, b: seq<T>)
    requires IsField(F) && Trimmed(F, b) && Deg(F, b) >= 0
    ensures exists q, r :: Divided(F, a, b, q, r)
    decreases |a|
  {
    hide IsField, Dividing, Plus, Times, Poly, Mono;
    if |a| < |b| {
      var r := TrimSeq(F, a);
      DividingNothing(F, a, [F.zero], b);
      DividingSame(F, a, [F.zero], b, a, r);
      ShortDegree(F, r, a, |b| - 1);
      assert Divided(F, a, b, [F.zero], r);
    } else {
      var c := F.mul(a[|a| - 1], F.inv(b[|b| - 1]));
      QuotientTimes(F, a[|a| - 1], b[|b| - 1]);
      WithoutTopIs(F, a, b, c);
      var s := WithoutTop(F, a, b, c);
      DivisionExists(F, s, b);
      var q, r :| Divided(F, s, b, q, r);
      DivisionStep(F, a, b, s, c, q, r);
      var q1 :| Trimmed(F, q1) && Dividing(F, a, q1, b, r);
      assert Divided(F, a, b, q1, r);
    }
  }

  lemma DividingSame<T(!new)>(F: Field<T>, a: seq<T>, q: seq<T>, b: seq<T>, r: seq<T>, r1: seq<T>)
    requires Dividing(F, a, q, b, r) && Poly(F, r) == Poly(F, r1)
    ensures Dividing(F, a, q, b, r1)
  {
  }

  // ---------- gcd ----------

  ghost predicate Greatest<T(!new)>(F: Field<T>, d: seq<T>, a: seq<T>, b: seq<T>) {
    CommonDivisor(F, d, a, b) && forall e :: CommonDivisor(F, e, a, b) ==> Divides(F, e, d)
  }

  predicate Monic<T(==)>(F: Field<T>, d: seq<T>) { |d| >= 1 && d[|d| - 1] == F.one }

  // Dividing a polynomial by its leading coefficient.
  lemma MakeMonic<T(!new)>(F: Field<T>, a: seq<T>, c: T, d: seq<T>)
    requires IsField(F) && Trimmed(F, a) && Deg(F, a) >= 0 && Trimmed(F, d)
    requires c == F.inv(a[|a| - 1]) && Poly(F, d) == Times(F, Poly(F, a), Poly(F, [c]))
    ensures Monic(F, d)
  {
    hide Times;
    var k := |a| - 1;
    InvNonzero(F, a[k]);
    assert Quotient(F, a, d, [c]);
    ProductDegree(F, a, [c], d);
    TopOfScaled(F, a, c);
    assert Poly(F, d)[k] == d[k];
    assert Laws(F, a[k], c, c);
  }

  lemma TopOfScaled<T(!new)>(F: Field<T>, a: seq<T>, c: T)
    requires IsField(F) && a != []
    ensures Times(F, Poly(F, a), Poly(F, [c]))[|a| - 1] == F.mul(a[|a| - 1], c)
  {
    var k := |a| - 1;
    ConvTop(F, Poly(F, a), Poly(F, [c]), k, 0, k);
    TimesAt(F, Poly(F, a), Poly(F, [c]), k);
  }

  lemma MonicDivisors<T(!new)>(F: Field<T>, a: seq<T>, c: T, d: seq<T>)
    requires IsField(F) && c != F.zero && Poly(F, d) == Times(F, Poly(F, a), Poly(F, [c]))
    ensures forall e :: Divides(F, e, a) <==> Divides(F, e, d)
  {
    hide IsField, Plus, Times, Poly, Divides;
    var x, y := Poly(F, [c]), Poly(F, [F.inv(c)]);
    TimesAssociates(F, Poly(F, a), x, y);
    ConstInverse(F, c);
    TimesOne(F, Poly(F, a));
    TimesCommutes(F, Poly(F, d), y);
    TimesCommutes(F, Poly(F, a), x);
    forall e ensures Divides(F, e, a) <==> Divides(F, e, d) {
      if Divides(F, e, a) { DividesMultiple(F, e, a, [c], d); }
      if Divides(F, e, d) { DividesMultiple(F, e, d, [F.inv(c)], a); }
    }
  }

  lemma ConstInverse<T(!new)>(F: Field<T>, c: T)
    requires IsField(F) && c != F.zero
    ensures Times(F, Poly(F, [c]), Poly(F, [F.inv(c)])) == Mono(F, F.one, 0)
  {
    var i := F.inv(c);
    assert Laws(F, c, c, c);
    forall k: nat ensures Conv(F, Poly(F, [c]), Poly(F, [i]), k) == MonoAt(F, F.one, 0, k) {
      ConvTop(F, Poly(F, [c]), Poly(F, [i]), 0, 0, k);
    }
  }

  // A divisor of the same degree is a multiple by a constant.
  lemma SameDegree<T(!new)>(F: Field<T>, d: seq<T>, e: seq<T>)
    requires IsField(F) && Trimmed(F, d) && Trimmed(F, e) && Deg(F, d) == Deg(F, e) >= 0 && Divides(F, d, e)
    ensures exists c :: Poly(F, e) == Times(F, Poly(F, d), Poly(F, [c]))
  {
    hide IsField, Times, Poly;
    var q :| Quotient(F, d, e, q);
    var t := TrimSeq(F, q);
    assert Quotient(F, d, e, t);
    ProductDegree(F, d, t, e);
    assert t == [t[0]];
  }

  // Two polynomials with leading coefficient 1 that divide each other are equal.
  lemma MonicUnique<T(!new)>(F: Field<T>, d: seq<T>, e: seq<T>)
    requires IsField(F) && Trimmed(F, d) && Trimmed(F, e) && Divides(F, d, e) && Divides(F, e, d)
    requires d[|d| - 1] == F.one && e[|e| - 1] == F.one
    ensures d == e
  {
    hide IsField, Times, Poly, Divides;
    OneNotZero(F);
    DivisorDegree(F, d, e);
    DivisorDegree(F, e, d);
    SameDegree(F, d, e);
    var c :| Poly(F, e) == Times(F, Poly(F, d), Poly(F, [c]));
    LeadingOne(F, d, e, c);
    ConstPoly(F, F.one);
    TimesOne(F, Poly(F, d));
    TrimmedUnique(F, d, e);
  }

  lemma OneNotZero<T(!new)>(F: Field<T>)
    requires IsField(F)
    ensures F.one != F.zero
  {
  }

  lemma LeadingOne<T(!new)>(F: Field<T>, d: seq<T>, e: seq<T>, c: T)
    requires IsField(F) && d != [] && |e| == |d| && d[|d| - 1] == F.one && e[|e| - 1] == F.one
    requires Poly(F, e) == Times(F, Poly(F, d), Poly(F, [c]))
    ensures c == F.one
  {
    hide Times;
    TopOfScaled(F, d, c);
    assert Poly(F, e)[|d| - 1] == F.one;
    assert Laws(F, c, F.one, F.one) && Laws(F, F.one, c, c);
  }

  lemma ConstPoly<T(!new)>(F: Field<T>, c: T)
    ensures Poly(F, [c]) == Mono(F, c, 0)
  {
    forall k: nat ensures At(F, [c], k) == MonoAt(F, c, 0, k) {}
  }

  // There is one greatest common divisor with leading coefficient 1.
  lemma GcdUnique<T(!new)>(F: Field<T>, a: seq<T>, b: seq<T>, d: seq<T>, e: seq<T>)
    requires IsField(F) && Trimmed(F, d) && Trimmed(F, e) && Greatest(F, d, a, b) && Greatest(F, e, a, b)
    requires d[|d| - 1] == F.one && e[|e| - 1] == F.one
    ensures d == e
  {
    hide IsField, Divides;
    MonicUnique(F, d, e);
  }

  // The common divisors of a0 and b0 are the divisors of a.
  ghost predicate DivisorsOf<T(!new)>(F: Field<T>, a: seq<T>, a0: seq<T>, b0: seq<T>) {
    forall e :: CommonDivisor(F, e, a0, b0) <==> Divides(F, e, a)
  }

  lemma LastDivides<T(!new)>(F: Field<T>, a0: seq<T>, b0: seq<T>, a: seq<T>, z: seq<T>)
    requires IsField(F) && SameDivisors(F, a0, b0, a, z) && Trimmed(F, z) && Deg(F, z) < 0
    ensures DivisorsOf(F, a, a0, b0)
  {
    hide Divides, IsField;
    forall e ensures CommonDivisor(F, e, a0, b0) <==> Divides(F, e, a) { DividesZero(F, e, z); }
  }

  // Polynomial.gcd: the monic greatest common divisor, unless both are 0.
  method Gcd<T(==, !new)>(F: Field<T>, a0: seq<T>, b0: seq<T>) returns (res: Result<seq<T>>)
    requires IsField(F) && Trimmed(F, a0) && Trimmed(F, b0)
    ensures res.Throws? <==> Deg(F, a0) < 0 && Deg(F, b0) < 0
    ensures res.Ok? ==> Trimmed(F, res.value) && res.value[|res.value| - 1] == F.one && Greatest(F, res.value, a0, b0)
  {
    hide IsField, Divided, CommonDivisor, Greatest, DivisorsOf;
    var a, b := a0, b0;
    while Deg(F, b) >= 0
      invariant Trimmed(F, a) && Trimmed(F, b) && SameDivisors(F, a0, b0, a, b)
      invariant Deg(F, a) < 0 && Deg(F, b) < 0 <==> Deg(F, a0) < 0 && Deg(F, b0) < 0
      decreases Deg(F, b)
    {
      var t := DivRem(F, a, b);
      EuclidStep(F, a0, b0, a, b, t.value.0, t.value.1);
      a, b := b, t.value.1;
    }
    LastDivides(F, a0, b0, a, b);
    res := DivideByLead(F, a, a0, b0);
  }

  lemma EuclidStep<T(!new)>(F: Field<T>, a0: seq<T>, b0: seq<T>, a: seq<T>, b: seq<T>, q: seq<T>, r: seq<T>)
    requires IsField(F) && SameDivisors(F, a0, b0, a, b) && Divided(F, a, b, q, r)
    ensures SameDivisors(F, a0, b0, b, r) && Trimmed(F, r) && Deg(F, r) < Deg(F, b)
  {
    hide IsField, CommonDivisor, Dividing;
    RemainderDivisors(F, a, b, q, r);
  }

  // a / a[a.length - 1]
  method DivideByLead<T(==, !new)>(F: Field<T>, a: seq<T>, ghost a0: seq<T>, ghost b0: seq<T>)
    returns (res: Result<seq<T>>)
    requires IsField(F) && Trimmed(F, a) && DivisorsOf(F, a, a0, b0)
    ensures res.Throws? <==> Deg(F, a) < 0
    ensures res.Ok? ==> Trimmed(F, res.value) && Monic(F, res.value) && Greatest(F, res.value, a0, b0)
  {
    hide Divides, Poly, Times;
    var lead := a[|a| - 1];
    if lead == F.zero { return Throws; }
    var c := F.inv(lead);
    InvNonzero(F, lead);
    var d := Mul(F, a, [c]);
    MakeMonic(F, a, c, d);
    MonicDivisors(F, a, c, d);
    DividesItself(F, d);
    res := Ok(d);
  }
}
