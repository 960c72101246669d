// Polynomial.invmod of qjscalc.js over a field.
module PolynomialInverse {
  import opened Outcomes
  import opened Fields
  import opened Powers
  import opened Polynomials
  import opened PolynomialGcd
  import Fractions

  ghost predicate CoprimePolys<T(!new)>(F: Field<T>, x: seq<T>, y: seq<T>) {
    forall d: seq<T> :: Trimmed(F, d) && CommonDivisor(F, d, x, y) ==> Deg(F, d) == 0
  }

  // x * c + y * k == u
  ghost predicate Combination<T>(F: Field<T>, x: seq<T>, y: seq<T>, c: seq<T>, k: seq<T>, u: seq<T>) {
    Plus(F, Times(F, Poly(F, x), Poly(F, c)), Times(F, Poly(F, y), Poly(F, k))) == Poly(F, u)
  }

  // x * w is congruent to the nonzero constant g modulo y.
  ghost predicate InverseUpTo<T(!new)>(F: Field<T>, x: seq<T>, y: seq<T>, w: seq<T>, g: T) {
    g != F.zero && exists k :: Combination(F, x, y, w, k, [g])
  }

  // x * (a - q * c) == x * a - q * (x * c)
  lemma TimesDifference<T(!new)>(F: Field<T>, x: Power<T>, a: Power<T>, q: Power<T>, c: Power<T>)
    requires IsField(F) && Total(x) && Total(a) && Total(q) && Total(c)
    ensures Times(F, x, Plus(F, a, Negated(F, Times(F, q, c))))
         == Plus(F, Times(F, x, a), Negated(F, Times(F, q, Times(F, x, c))))
  {
    hide IsField, Plus, Times, Negated;
    var qc := Times(F, q, c);
    TimesDistributes(F, x, a, Negated(F, qc));
    TimesCommutes(F, x, Negated(F, qc));
    NegTimes(F, qc, x);
    TimesAssociates(F, q, c, x);
    TimesCommutes(F, c, x);
  }

  // (a + b) + (c + d) == (a + c) + (b + d)
  lemma PlusSwap<T(!new)>(F: Field<T>, a: Power<T>, b: Power<T>, c: Power<T>, d: Power<T>)
    requires IsField(F) && Total(a) && Total(b) && Total(c) && Total(d)
    ensures Plus(F, Plus(F, a, b), Plus(F, c, d)) == Plus(F, Plus(F, a, c), Plus(F, b, d))
  {
    hide IsField, Plus;
    PlusAssociates(F, a, b, Plus(F, c, d));
    PlusAssociates(F, b, c, d);
    PlusCommutes(F, b, c);
    PlusAssociates(F, c, b, d);
    PlusAssociates(F, a, c, Plus(F, b, d));
  }

  lemma NegatedPlus<T(!new)>(F: Field<T>, m: Power<T>, n: Power<T>)
    requires IsField(F) && Total(m) && Total(n)
    ensures Plus(F, Negated(F, m), Negated(F, n)) == Negated(F, Plus(F, m, n))
  {
    hide IsField;
    forall k: nat ensures F.add(F.neg(m[k]), F.neg(n[k])) == F.neg(F.add(m[k], n[k])) { NegAdd(F, m[k], n[k]); }
  }

  // (p - m) + (s - n) == (p + s) - (m + n)
  lemma DifferencesAdd<T(!new)>(F: Field<T>, p: Power<T>, m: Power<T>, s: Power<T>, n: Power<T>)
    requires IsField(F) && Total(p) && Total(m) && Total(s) && Total(n)
    ensures Plus(F, Plus(F, p, Negated(F, m)), Plus(F, s, Negated(F, n)))
         == Plus(F, Plus(F, p, s), Negated(F, Plus(F, m, n)))
  {
    hide IsField, Plus, Negated;
    PlusSwap(F, p, Negated(F, m), s, Negated(F, n));
    NegatedPlus(F, m, n);
  }

  lemma CombinationStep<T(!new)>(
    F: Field<T>, x: seq<T>, y: seq<T>, a: seq<T>, ka: seq<T>, v: seq<T>, c: seq<T>, kc: seq<T>, u: seq<T>,
    q: seq<T>, r: seq<T>, c1: seq<T>)
    requires IsField(F) && Combination(F, x, y, a, ka, v) && Combination(F, x, y, c, kc, u)
    requires Dividing(F, v, q, u, r)
    requires Poly(F, c1) == Plus(F, Poly(F, a), Negated(F, Times(F, Poly(F, q), Poly(F, c))))
    ensures Combination(F, x, y, c1, AddSeq(F, ka, NegSeq(F, MulSeq(F, q, kc))), r)
  {
    hide IsField, Plus, Times, Negated, Poly;
    var m := MulSeq(F, q, kc);
    MulSeqIs(F, q, kc);
    NegSeqIs(F, m);
    AddSeqIs(F, ka, NegSeq(F, m));
    var px, py, pq, pc, pk := Poly(F, x), Poly(F, y), Poly(F, q), Poly(F, c), Poly(F, kc);
    TimesDifference(F, px, Poly(F, a), pq, pc);
    TimesDifference(F, py, Poly(F, ka), pq, pk);
    var xc, yk := Times(F, px, pc), Times(F, py, pk);
    DifferencesAdd(F, Times(F, px, Poly(F, a)), Times(F, pq, xc), Times(F, py, Poly(F, ka)), Times(F, pq, yk));
    TimesDistributes(F, pq, xc, yk);
    MoveOver(F, Poly(F, v), Times(F, pq, Poly(F, u)), Poly(F, r));
  }

  // Reducing the inverse modulo y changes the multiple of y only.
  lemma CombinationReduce<T(!new)>(
    F: Field<T>, x: seq<T>, y: seq<T>, a: seq<T>, ka: seq<T>, v: seq<T>, q: seq<T>, w: seq<T>)
    requires IsField(F) && Combination(F, x, y, a, ka, v) && Dividing(F, a, q, y, w)
    ensures Combination(F, x, y, w, AddSeq(F, MulSeq(F, x, q), ka), v)
  {
    hide IsField, Plus, Times, Poly;
    var m := MulSeq(F, x, q);
    MulSeqIs(F, x, q);
    AddSeqIs(F, m, ka);
    var px, py, pq, pw, pk := Poly(F, x), Poly(F, y), Poly(F, q), Poly(F, w), Poly(F, ka);
    var qy, xw, yk := Times(F, pq, py), Times(F, px, pw), Times(F, py, pk);
    TimesDistributes(F, px, qy, pw);
    TimesAssociates(F, px, pq, py);
    TimesCommutes(F, py, Poly(F, m));
    TimesDistributes(F, py, Poly(F, m), pk);
    var z := Times(F, px, qy);
    PlusCommutes(F, z, xw);
    PlusAssociates(F, xw, z, yk);
  }

  // c = a - q * c of the loop of invmod
  method Difference<T(==, !new)>(F: Field<T>, a: seq<T>, q: seq<T>, c: seq<T>) returns (r: seq<T>)
    requires IsField(F) && Trimmed(F, a) && Trimmed(F, q) && Trimmed(F, c)
    ensures Trimmed(F, r) && Poly(F, r) == Plus(F, Poly(F, a), Negated(F, Times(F, Poly(F, q), Poly(F, c))))
  {
    var m := Mul(F, q, c);
    var n := Neg(F, m);
    r := Add(F, a, n);
  }

  // One turn of the loop of invmod.
  ghost predicate BezoutState<T(!new)>(
    F: Field<T>, x: seq<T>, y: seq<T>, u: seq<T>, v: seq<T>, c: seq<T>, a: seq<T>)
  {
    && Trimmed(F, u) && Trimmed(F, v) && Trimmed(F, c) && Trimmed(F, a)
    && (exists k :: Combination(F, x, y, c, k, u))
    && (exists k :: Combination(F, x, y, a, k, v))
  }

  lemma BezoutStart<T(!new)>(F: Field<T>, x: seq<T>, y: seq<T>)
    requires IsField(F) && Trimmed(F, x) && Trimmed(F, y)
    ensures BezoutState(F, x, y, x, y, [F.one], [F.zero])
  {
    hide IsField, Times, Plus, Poly, Mono;
    var zero, one := [F.zero], [F.one];
    ConstPoly(F, F.zero);
    ConstPoly(F, F.one);
    OneAndZero(F, Poly(F, x), Poly(F, y));
    OneAndZero(F, Poly(F, y), Poly(F, x));
    PlusCommutes(F, Times(F, Poly(F, x), Poly(F, zero)), Times(F, Poly(F, y), Poly(F, one)));
    assert Combination(F, x, y, one, zero, x);
    assert Combination(F, x, y, zero, one, y);
  }

  lemma OneAndZero<T(!new)>(F: Field<T>, f: Power<T>, g: Power<T>)
    requires IsField(F) && Total(f) && Total(g)
    ensures Plus(F, Times(F, f, Mono(F, F.one, 0)), Times(F, g, Mono(F, F.zero, 0))) == f
  {
    hide IsField, Plus, Times, Mono;
    TimesOne(F, f);
    TimesZero(F, g);
    PlusInverse(F, f);
  }

  lemma BezoutStep<T(!new)>(
    F: Field<T>, x: seq<T>, y: seq<T>, u: seq<T>, v: seq<T>, c: seq<T>, a: seq<T>,
    q: seq<T>, r: seq<T>, c1: seq<T>)
    requires IsField(F) && BezoutState(F, x, y, u, v, c, a) && Deg(F, u) >= 0
    requires Divided(F, v, u, q, r) && Trimmed(F, c1)
    requires Poly(F, c1) == Plus(F, Poly(F, a), Negated(F, Times(F, Poly(F, q), Poly(F, c))))
    ensures BezoutState(F, x, y, r, u, c1, c)
  {
    hide IsField, Dividing, Combination, Poly, Plus, Times, Negated;
    var kc :| Combination(F, x, y, c, kc, u);
    var ka :| Combination(F, x, y, a, ka, v);
    CombinationStep(F, x, y, a, ka, v, c, kc, u, q, r, c1);
  }

  lemma BezoutResult<T(!new)>(
    F: Field<T>, x: seq<T>, y: seq<T>, u: seq<T>, v: seq<T>, c: seq<T>, a: seq<T>, q: seq<T>, w: seq<T>)
    requires IsField(F) && BezoutState(F, x, y, u, v, c, a) && Deg(F, v) == 0 && Divided(F, a, y, q, w)
    ensures InverseUpTo(F, x, y, w, v[0])
  {
    hide IsField, Combination, Dividing;
    var ka :| Combination(F, x, y, a, ka, v);
    CombinationReduce(F, x, y, a, ka, v, q, w);
    assert v == [v[0]];
  }

  // ---------- the last remainder of Euclid's algorithm ----------

  // The remainder of a by b, which division leaves no choice of.
  ghost function Remainder<T(!new)>(F: Field<T>, a: seq<T>, b: seq<T>): (r: seq<T>)
    requires IsField(F) && Trimmed(F, b) && Deg(F, b) >= 0
    ensures Trimmed(F, r) && Deg(F, r) < Deg(F, b)
    ensures exists q :: Divided(F, a, b, q, r)
  {
    DivisionExists(F, a, b);
    var q, r :| Divided(F, a, b, q, r);
    r
  }

  ghost function LastRemainder<T(!new)>(F: Field<T>, v: seq<T>, u: seq<T>): (r: seq<T>)
    requires IsField(F) && Trimmed(F, v) && Trimmed(F, u)
    ensures Trimmed(F, r) && (Deg(F, v) >= 0 ==> Deg(F, r) >= 0)
    decreases Deg(F, u)
  {
    if Deg(F, u) < 0 then v else LastRemainder(F, u, Remainder(F, v, u))
  }

  lemma LastRemainderStep<T(!new)>(F: Field<T>, v: seq<T>, u: seq<T>, q: seq<T>, r: seq<T>)
    requires IsField(F) && Trimmed(F, v) && Trimmed(F, u) && Deg(F, u) >= 0 && Divided(F, v, u, q, r)
    ensures LastRemainder(F, v, u) == LastRemainder(F, u, r)
  {
    hide IsField, Divided, LastRemainder;
    var s := Remainder(F, v, u);
    var p :| Divided(F, v, u, p, s);
    DividedUnique(F, v, u, q, r, p, s);
    LastRemainderTurn(F, v, u);
  }

  lemma LastRemainderTurn<T(!new)>(F: Field<T>, v: seq<T>, u: seq<T>)
    requires IsField(F) && Trimmed(F, v) && Trimmed(F, u) && Deg(F, u) >= 0
    ensures LastRemainder(F, v, u) == LastRemainder(F, u, Remainder(F, v, u))
  {
    hide IsField, Divided;
  }

  // Its divisors are the common divisors of the two polynomials at the start.
  lemma {:induction false} LastRemainderDivisors<T(!new)>(F: Field<T>, v: seq<T>, u: seq<T>)
    requires IsField(F) && Trimmed(F, v) && Trimmed(F, u)
    ensures DivisorsOf(F, LastRemainder(F, v, u), v, u)
    decreases Deg(F, u)
  {
    hide IsField, Divides, Dividing;
    if Deg(F, u) < 0 {
      LastDivides(F, v, u, v, u);
    } else {
      var r := Remainder(F, v, u);
      var q :| Divided(F, v, u, q, r);
      RemainderDivisors(F, v, u, q, r);
      LastRemainderDivisors(F, u, r);
    }
  }

  // Coprime is what the degree of the last remainder tells.
  lemma CoprimeWhen<T(!new)>(F: Field<T>, x: seq<T>, y: seq<T>)
    requires IsField(F) && Trimmed(F, x) && Trimmed(F, y) && Deg(F, y) >= 0
    ensures CoprimePolys(F, x, y) <==> Deg(F, LastRemainder(F, y, x)) == 0
  {
    hide IsField, Divides, LastRemainder;
    var v := LastRemainder(F, y, x);
    LastRemainderDivisors(F, y, x);
    DividesItself(F, v);
    assert CommonDivisor(F, v, y, x);
    assert CommonDivisor(F, v, x, y);
    if Deg(F, v) == 0 {
      forall d: seq<T> | Trimmed(F, d) && CommonDivisor(F, d, x, y) ensures Deg(F, d) == 0 {
        assert CommonDivisor(F, d, y, x);
        DivisorDegree(F, d, v);
      }
    }
  }

  // ---------- invmod ----------

  // What invmod returns: x times w is the constant last remainder modulo y.
  ghost predicate Answer<T(!new)>(F: Field<T>, x: seq<T>, y: seq<T>, w: seq<T>)
    requires IsField(F) && Trimmed(F, x) && Trimmed(F, y)
  {
    Trimmed(F, w) && Deg(F, w) < Deg(F, y) && InverseUpTo(F, x, y, w, LastRemainder(F, y, x)[0])
  }

  // Polynomial.invmod: refused exactly when y is 0 or shares a divisor with x.
  method InvMod<T(==, !new)>(F: Field<T>, x: seq<T>, y: seq<T>) returns (res: Result<seq<T>>)
    requires IsField(F) && Trimmed(F, x) && Trimmed(F, y)
    ensures res.Throws? <==> Deg(F, y) < 0 || !CoprimePolys(F, x, y)
    ensures res.Ok? ==> Answer(F, x, y, res.value)
  {
    hide IsField, BezoutState, Dividing, InverseUpTo, CoprimePolys, LastRemainder;
    var u, v, c, a := x, y, [F.one], [F.zero];
    BezoutStart(F, x, y);
    while Deg(F, u) >= 0
      invariant Trimmed(F, u) && Trimmed(F, v) && Trimmed(F, c) && Trimmed(F, a)
      invariant BezoutState(F, x, y, u, v, c, a)
      invariant LastRemainder(F, v, u) == LastRemainder(F, y, x)
      decreases Deg(F, u)
    {
      var t := DivRem(F, v, u);
      var c1 := Difference(F, a, t.value.0, c);
      BezoutStep(F, x, y, u, v, c, a, t.value.0, t.value.1, c1);
      LastRemainderStep(F, v, u, t.value.0, t.value.1);
      a, c, v, u := c, c1, u, t.value.1;
    }
    LastRemainderEnd(F, v, u);
    if Deg(F, y) >= 0 { CoprimeWhen(F, x, y); }
    if Deg(F, v) > 0 {
      return Throws;
    }
    var t := DivRem(F, a, y);
    if t.Throws? { return Throws; }
    BezoutResult(F, x, y, u, v, c, a, t.value.0, t.value.1);
    res := Ok(t.value.1);
  }

  lemma LastRemainderEnd<T(!new)>(F: Field<T>, v: seq<T>, u: seq<T>)
    requires IsField(F) && Trimmed(F, v) && Trimmed(F, u) && Deg(F, u) < 0
    ensures LastRemainder(F, v, u) == v
  {
  }

  // x * (a - b) == x * a - x * b
  lemma TimesMinus<T(!new)>(F: Field<T>, x: Power<T>, a: Power<T>, b: Power<T>)
    requires IsField(F) && Total(x) && Total(a) && Total(b)
    ensures Times(F, x, Plus(F, a, Negated(F, b))) == Plus(F, Times(F, x, a), Negated(F, Times(F, x, b)))
  {
    hide IsField, Plus, Times, Negated;
    TimesDistributes(F, x, a, Negated(F, b));
    TimesCommutes(F, x, Negated(F, b));
    NegTimes(F, b, x);
    TimesCommutes(F, b, x);
  }

  // g == x * w + y * k and x * d == y * e give g * d == y * (w * e + k * d).
  lemma ScaledMultiple<T(!new)>(
    F: Field<T>, g: Power<T>, x: Power<T>, y: Power<T>, w: Power<T>, k: Power<T>, d: Power<T>, e: Power<T>)
    requires IsField(F) && Total(g) && Total(x) && Total(y) && Total(w) && Total(k) && Total(d) && Total(e)
    requires g == Plus(F, Times(F, x, w), Times(F, y, k)) && Times(F, x, d) == Times(F, y, e)
    ensures Times(F, g, d) == Times(F, y, Plus(F, Times(F, w, e), Times(F, k, d)))
  {
    hide IsField, Plus, Times;
    LeftDistributes(F, Times(F, x, w), Times(F, y, k), d);
    TimesDistributes(F, y, Times(F, w, e), Times(F, k, d));
    TimesAssociates(F, y, k, d);
    assert Times(F, Times(F, x, w), d) == Times(F, y, Times(F, w, e)) by {
      TimesCommutes(F, x, w);
      TimesAssociates(F, w, x, d);
      TimesAssociates(F, w, y, e);
      TimesCommutes(F, w, y);
      TimesAssociates(F, y, w, e);
    }
  }

  // Two answers differ by a multiple of y.
  lemma AnswersDiffer<T(!new)>(
    F: Field<T>, x: seq<T>, y: seq<T>, g: T, w1: seq<T>, k1: seq<T>, w2: seq<T>, k2: seq<T>, d: seq<T>)
    requires IsField(F) && Combination(F, x, y, w1, k1, [g]) && Combination(F, x, y, w2, k2, [g])
    requires Poly(F, d) == Plus(F, Poly(F, w1), Negated(F, Poly(F, w2)))
    ensures Divides(F, y, MulSeq(F, [g], d))
  {
    hide IsField, Plus, Times, Negated, Poly;
    var px, py := Poly(F, x), Poly(F, y);
    var v1, v2, l1, l2 := Poly(F, w1), Poly(F, w2), Poly(F, k1), Poly(F, k2);
    var e := AddSeq(F, k2, NegSeq(F, k1));
    NegSeqIs(F, k1);
    AddSeqIs(F, k2, NegSeq(F, k1));
    PlusCross(F, Times(F, px, v1), Times(F, py, l1), Times(F, px, v2), Times(F, py, l2));
    TimesMinus(F, px, v1, v2);
    TimesMinus(F, py, l2, l1);
    ScaledMultiple(F, Poly(F, [g]), px, py, v1, l1, Poly(F, d), Poly(F, e));
    MulSeqIs(F, [g], d);
    MulSeqIs(F, w1, e);
    MulSeqIs(F, k1, d);
    AddSeqIs(F, MulSeq(F, w1, e), MulSeq(F, k1, d));
    assert Quotient(F, y, MulSeq(F, [g], d), AddSeq(F, MulSeq(F, w1, e), MulSeq(F, k1, d)));
  }

  // There is one answer only.
  lemma AnswerUnique<T(!new)>(F: Field<T>, x: seq<T>, y: seq<T>, g: T, w1: seq<T>, w2: seq<T>)
    requires IsField(F) && Trimmed(F, y) && InverseUpTo(F, x, y, w1, g) && InverseUpTo(F, x, y, w2, g)
    requires Trimmed(F, w1) && Deg(F, w1) < Deg(F, y) && Trimmed(F, w2) && Deg(F, w2) < Deg(F, y)
    ensures w1 == w2
  {
    hide IsField, Plus, Times, Negated, Poly, Divides, Combination;
    var k1 :| Combination(F, x, y, w1, k1, [g]);
    var k2 :| Combination(F, x, y, w2, k2, [g]);
    var d := TrimSeq(F, AddSeq(F, w1, NegSeq(F, w2)));
    NegSeqIs(F, w2);
    AddSeqIs(F, w1, NegSeq(F, w2));
    AnswersDiffer(F, x, y, g, w1, k1, w2, k2, d);
    DifferenceDegree(F, w1, w2, d);
    MultipleDegree(F, y, g, d);
    DifferenceZero(F, w1, w2, d);
  }

  // A polynomial of lower degree than y has a multiple by a constant that y divides only if it is 0.
  lemma MultipleDegree<T(!new)>(F: Field<T>, y: seq<T>, g: T, d: seq<T>)
    requires IsField(F) && Trimmed(F, y) && Trimmed(F, d) && g != F.zero
    requires Divides(F, y, MulSeq(F, [g], d)) && Deg(F, d) < Deg(F, y)
    ensures Deg(F, d) < 0
  {
    hide IsField, Times, Poly;
    if Deg(F, d) >= 0 {
      var m := MulSeq(F, [g], d);
      var t := TrimSeq(F, m);
      MulSeqIs(F, [g], d);
      var q :| Quotient(F, y, m, q);
      assert Quotient(F, y, t, q);
      assert Quotient(F, [g], t, d);
      ProductDegree(F, [g], d, t);
      DivisorDegree(F, y, t);
    }
  }

  // The answer is an inverse modulo a y of degree above 0 exactly when the last
  // remainder, which is not scaled, happens to be 1.
  lemma InverseWhenOne<T(!new)>(F: Field<T>, x: seq<T>, y: seq<T>, w: seq<T>)
    requires IsField(F) && Trimmed(F, x) && Trimmed(F, y) && Deg(F, y) > 0 && CoprimePolys(F, x, y)
    requires Answer(F, x, y, w)
    ensures InverseUpTo(F, x, y, w, F.one) <==> LastRemainder(F, y, x) == [F.one]
  {
    hide IsField, InverseUpTo, LastRemainder, CoprimePolys;
    CoprimeWhen(F, x, y);
    var v := LastRemainder(F, y, x);
    assert v == [v[0]];
    if InverseUpTo(F, x, y, w, F.one) { ConstantUnique(F, x, y, w, v[0], F.one); }
  }

  lemma ConstantUnique<T(!new)>(F: Field<T>, x: seq<T>, y: seq<T>, w: seq<T>, g: T, h: T)
    requires IsField(F) && Trimmed(F, y) && Deg(F, y) > 0
    requires InverseUpTo(F, x, y, w, g) && InverseUpTo(F, x, y, w, h)
    ensures g == h
  {
    hide IsField, Plus, Times, Poly, Negated;
    var k :| Combination(F, x, y, w, k, [g]);
    var j :| Combination(F, x, y, w, j, [h]);
    if g != h {
      var xw, py := Times(F, Poly(F, x), Poly(F, w)), Poly(F, y);
      PlusDifference(F, xw, Times(F, py, Poly(F, k)), Times(F, py, Poly(F, j)));
      TimesMinus(F, py, Poly(F, k), Poly(F, j));
      var d := Sub(F, g, h);
      ConstDifference(F, g, h);
      NegSeqIs(F, j);
      AddSeqIs(F, k, NegSeq(F, j));
      assert Quotient(F, y, [d], AddSeq(F, k, NegSeq(F, j)));
      DifferenceNonzero(F, g, h);
      DivisorDegree(F, y, [d]);
    }
  }

  // For a constant x the answer is 1, whatever the constant.
  lemma ConstantAnswer<T(!new)>(F: Field<T>, c: T, y: seq<T>)
    requires IsField(F) && c != F.zero && Trimmed(F, y) && Deg(F, y) > 0
    ensures LastRemainder(F, y, [c]) == [c] && CoprimePolys(F, [c], y)
    ensures forall w :: Answer(F, [c], y, w) <==> w == [F.one]
  {
    hide IsField, LastRemainder, CoprimePolys, InverseUpTo;
    ConstantLast(F, c, y);
    CoprimeWhen(F, [c], y);
    ConstantCombination(F, c, y);
    forall w ensures Answer(F, [c], y, w) <==> w == [F.one] {
      if Answer(F, [c], y, w) { AnswerUnique(F, [c], y, c, w, [F.one]); }
    }
  }

  lemma ConstantLast<T(!new)>(F: Field<T>, c: T, y: seq<T>)
    requires IsField(F) && c != F.zero && Trimmed(F, y)
    ensures LastRemainder(F, y, [c]) == [c]
  {
    hide IsField, LastRemainder, Divided;
    LastRemainderTurn(F, y, [c]);
    LastRemainderEnd(F, [c], Remainder(F, y, [c]));
  }

  lemma ConstantCombination<T(!new)>(F: Field<T>, c: T, y: seq<T>)
    requires IsField(F) && c != F.zero
    ensures InverseUpTo(F, [c], y, [F.one], c)
  {
    hide IsField, Times, Plus, Poly, Mono;
    ConstPoly(F, F.zero);
    ConstPoly(F, F.one);
    OneAndZero(F, Poly(F, [c]), Poly(F, y));
    assert Combination(F, [c], y, [F.one], [F.zero], [c]);
  }

  // So invmod(c, X) is no inverse for any constant c but 1.
  lemma ConstantModuloX<T(!new)>(F: Field<T>, c: T)
    requires IsField(F) && c != F.zero && c != F.one
    ensures var x, y := [c], [F.zero, F.one];
            CoprimePolys(F, x, y)
            && (forall w :: Answer(F, x, y, w) <==> w == [F.one]) && !InverseUpTo(F, x, y, [F.one], F.one)
  {
    var x, y := [c], [F.zero, F.one];
    hide LastRemainder, CoprimePolys, Answer, InverseUpTo;
    ConstantAnswer(F, c, y);
    assert Answer(F, x, y, [F.one]);
    InverseWhenOne(F, x, y, [F.one]);
  }

  const TWO: Fractions.Fraction := Fractions.Fraction(2, 1)

  // With rational coefficients, invmod(2, X) is 1, and 2 * 1 is not 1 modulo X.
  lemma TwoModuloX()
    ensures var F := Fractions.RATIONALS;
            var x, y := [TWO], [F.zero, F.one];
            IsField(F) && Trimmed(F, x) && Trimmed(F, y) && CoprimePolys(F, x, y)
            && (forall w :: Answer(F, x, y, w) <==> w == [F.one]) && !InverseUpTo(F, x, y, [F.one], F.one)
  {
    hide CoprimePolys, Answer, InverseUpTo, IsField;
    Fractions.FractionsAreAField();
    ConstantModuloX(Fractions.RATIONALS, TWO);
  }

  lemma DifferenceNonzero<T(!new)>(F: Field<T>, g: T, h: T)
    requires IsField(F) && g != h
    ensures Sub(F, g, h) != F.zero
  {
    if Sub(F, g, h) == F.zero {
      assert Laws(F, g, F.neg(h), h) && Laws(F, F.neg(h), g, h);
      NegUnique(F, F.neg(h), g);
      NegNeg(F, h);
    }
  }

  lemma ConstDifference<T(!new)>(F: Field<T>, g: T, h: T)
    requires IsField(F)
    ensures Poly(F, [Sub(F, g, h)]) == Plus(F, Poly(F, [g]), Negated(F, Poly(F, [h])))
  {
    NegZero(F);
    ZeroPlus(F, F.zero);
    forall k | 0 <= k ensures At(F, [Sub(F, g, h)], k) == F.add(At(F, [g], k), F.neg(At(F, [h], k))) {}
  }

  // (s + p) - (s + q) == p - q
  lemma PlusDifference<T(!new)>(F: Field<T>, s: Power<T>, p: Power<T>, q: Power<T>)
    requires IsField(F) && Total(s) && Total(p) && Total(q)
    ensures Plus(F, Plus(F, s, p), Negated(F, Plus(F, s, q))) == Plus(F, p, Negated(F, q))
  {
    hide IsField, Plus, Negated;
    DifferencesAdd(F, s, s, p, q);
    PlusInverse(F, s);
    var d := Plus(F, p, Negated(F, q));
    PlusCommutes(F, Mono(F, F.zero, 0), d);
    PlusInverse(F, d);
  }
}
