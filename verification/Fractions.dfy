// Fraction values of qjscalc.js, and that they are a field: the coefficients that
// the exact matrix and polynomial code starts from.
module Fractions {
  import opened Outcomes
  import opened Arithmetic
  import opened Fields

  datatype RawFraction = Fraction(num: int, den: int)

  predicate Normal(f: RawFraction) {
    f.den > 0 && Abs(Gcd(f.num, f.den)) == 1
  }

  type Fraction = f: RawFraction | Normal(f) witness Fraction(0, 1)

  // The constructor: lowest terms, with a positive denominator.
  function MakeFraction(a: int, b: int): (f: Fraction)
    requires b != 0
  {
    var d := Gcd(a, b);
    LowestTerms(a, b);
    var a1, b1 := a / d, b / d;
    if b1 < 0 then Fraction(-a1, -b1) else Fraction(a1, b1)
  }

  // A multiple e * g of e that divides e, or -e, has a factor 1 or -1.
  lemma UnitMultiple(e: int, g: int, d: int)
    requires e != 0 && (e == d || e == -d) && Dvd(e * g, d)
    ensures Abs(g) == 1
  {
    var k := DvdElim(e * g, d);
    MulAssoc(e, g, k);
    var t := if e == d then 1 else -1;
    var gk := g * k;
    assert e * gk == e * t;
    CancelLeft(e, gk, t);
    MulAssoc(g, k, t);
    UnitFactors(g, k * t);
  }

  // Dividing both by their greatest common divisor leaves no common factor.
  lemma GcdQuotient(a: int, b: int, e: int, x: int, y: int)
    requires a == e * x && b == e * y && e != 0 && (e == Gcd(a, b) || e == -Gcd(a, b))
    ensures Abs(Gcd(x, y)) == 1
  {
    hide Gcd, Dvd;
    var g := Gcd(x, y);
    GcdDivides(x, y);
    var p := DvdElim(g, x);
    var q := DvdElim(g, y);
    MulAssoc(e, g, p);
    MulAssoc(e, g, q);
    DvdIntro(e * g, p);
    DvdIntro(e * g, q);
    GcdGreatest(a, b, e * g);
    UnitMultiple(e, g, Gcd(a, b));
  }

  // The factor that MakeFraction takes out.
  function Factor(a: int, b: int): int
    requires b != 0
  {
    var d := Gcd(a, b);
    if d != 0 && b / d < 0 then -d else d
  }

  lemma QuotientParts(d: int, a: int, b: int)
    requires b != 0 && Dvd(d, a) && Dvd(d, b)
    ensures d != 0 && b / d != 0
    ensures a == d * (a / d) && a == -d * -(a / d)
    ensures b == d * (b / d) && b == -d * -(b / d)
  {
    assert a == d * (a / d) && b == d * (b / d);
    NegNegMul(d, a / d);
    NegNegMul(d, b / d);
  }

  lemma NegNegMul(x: int, y: int)
    ensures -x * -y == x * y
  {
  }

  lemma LowestTerms(a: int, b: int)
    requires b != 0
    ensures Gcd(a, b) != 0 && b / Gcd(a, b) != 0
    ensures var d, e := Gcd(a, b), Factor(a, b);
            var f := if b / d < 0 then Fraction(-(a / d), -(b / d)) else Fraction(a / d, b / d);
            Normal(f) && e != 0 && a == e * f.num && b == e * f.den
  {
    hide Gcd, Dvd;
    GcdDivides(a, b);
    var d := Gcd(a, b);
    QuotientParts(d, a, b);
    if b / d < 0 {
      GcdQuotient(a, b, -d, -(a / d), -(b / d));
    } else {
      GcdQuotient(a, b, d, a / d, b / d);
    }
  }

  lemma CancelLeft(d: int, x: int, y: int)
    requires d != 0 && d * x == d * y
    ensures x == y
  {
    var e := if d < 0 then -d else d;
    assert e * x == e * y;
    MulLe(e, x + 1, y);
    MulLe(e, y + 1, x);
  }

  // ---------- the value of a fraction ----------

  ghost function Value(f: Fraction): real { f.num as real / f.den as real }

  lemma DivideOutReal(d: real, x: real, y: real)
    requires d != 0.0 && y != 0.0
    ensures d * y != 0.0 && (d * x) / (d * y) == x / y
  {
    var q := x / y;
    assert q * y == x;
    assert d * x == q * (d * y);
  }

  lemma ToReal(x: int, y: int)
    ensures (x * y) as real == x as real * y as real
  {
  }

  lemma MakeValue(a: int, b: int)
    requires b != 0
    ensures Value(MakeFraction(a, b)) == a as real / b as real
  {
    LowestTerms(a, b);
    var e, f := Factor(a, b), MakeFraction(a, b);
    ScaledValue(a, b, e, f.num, f.den);
  }

  lemma ScaledValue(a: int, b: int, e: int, n: int, d: int)
    requires e != 0 && d != 0 && a == e * n && b == e * d && b != 0
    ensures a as real / b as real == n as real / d as real
  {
    ToReal(e, n);
    ToReal(e, d);
    DivideOutReal(e as real, n as real, d as real);
  }

  // Normal fractions of the same value are the same fraction.
  lemma ValueInjective(f: Fraction, g: Fraction)
    requires Value(f) == Value(g)
    ensures f == g
  {
    var a, b, c, d := f.num, f.den, g.num, g.den;
    var v := Value(f);
    assert a as real == v * b as real && c as real == v * d as real;
    assert a as real * d as real == c as real * b as real;
    assert a * d == c * b by { assert (a * d) as real == (c * b) as real; }
    NormalCoprime(f);
    NormalCoprime(g);
    DvdIntro(b, c);
    DvdIntro(d, a);
    assert b * c == a * d && d * a == c * b;
    CoprimeCancelInt(b, a, d);
    CoprimeCancelInt(d, c, b);
    DvdLe(b, d);
    DvdLe(d, b);
    CancelLeft(b, a, c);
  }

  lemma NormalCoprime(f: Fraction)
    ensures Coprime(f.den, f.num)
  {
    forall e | Dvd(e, f.den) && Dvd(e, f.num) ensures e == 1 || e == -1 {
      GcdGreatest(f.num, f.den, e);
      DvdNeg(e, Gcd(f.num, f.den));
      DvdLe(e, 1);
    }
  }

  lemma CoprimeCancelInt(a: nat, b: int, c: int)
    requires Coprime(a, b) && Dvd(a, b * c)
    ensures Dvd(a, c)
  {
    if b >= 0 {
      CoprimeCancel(a, b, c);
    } else {
      forall d | Dvd(d, a) && Dvd(d, -b) ensures d == 1 || d == -1 { DvdNeg(d, -b); }
      assert -b * -c == b * c;
      CoprimeCancel(a, -b, -c);
      DvdNeg(a, -c);
    }
  }

  // ---------- the operators ----------

  function FracAdd(a: Fraction, b: Fraction): Fraction {
    MulNonzero(a.den, b.den);
    MakeFraction(a.num * b.den + a.den * b.num, a.den * b.den)
  }

  function FracSub(a: Fraction, b: Fraction): Fraction {
    MulNonzero(a.den, b.den);
    MakeFraction(a.num * b.den - a.den * b.num, a.den * b.den)
  }

  function FracMul(a: Fraction, b: Fraction): Fraction {
    MulNonzero(a.den, b.den);
    MakeFraction(a.num * b.num, a.den * b.den)
  }

  // Division by zero throws.
  function FracDiv(a: Fraction, b: Fraction): Result<Fraction> {
    MulNonzero(a.den, b.num);
    if b.num == 0 then Throws else Ok(MakeFraction(a.num * b.den, a.den * b.num))
  }

  predicate FracLess(a: Fraction, b: Fraction) { a.num * b.den < b.num * a.den }

  lemma MulNonzero(a: int, b: int)
    ensures a != 0 && b != 0 ==> a * b != 0
  {
  }

  // The operators compute on values, and comparison is that of the values.

  lemma AddExact(a: Fraction, b: Fraction)
    ensures Value(FracAdd(a, b)) == Value(a) + Value(b)
  {
    MulNonzero(a.den, b.den);
    MakeValue(a.num * b.den + a.den * b.num, a.den * b.den);
    Quotients(a.num, a.den, b.num, b.den);
  }

  lemma SubExact(a: Fraction, b: Fraction)
    ensures Value(FracSub(a, b)) == Value(a) - Value(b)
  {
    MulNonzero(a.den, b.den);
    MakeValue(a.num * b.den - a.den * b.num, a.den * b.den);
    Quotients(a.num, a.den, b.num, b.den);
  }

  lemma MulExact(a: Fraction, b: Fraction)
    ensures Value(FracMul(a, b)) == Value(a) * Value(b)
  {
    hide MakeFraction, Gcd;
    var n, d := a.num * b.num, a.den * b.den;
    MulNonzero(a.den, b.den);
    MakeValue(n, d);
    Quotients(a.num, a.den, b.num, b.den);
  }

  lemma DivExact(a: Fraction, b: Fraction)
    ensures FracDiv(a, b).Throws? <==> Value(b) == 0.0
    ensures FracDiv(a, b).Ok? ==> Value(FracDiv(a, b).value) == Value(a) / Value(b)
  {
    ZeroValue(b.num as real, b.den as real);
    if b.num != 0 {
      MulNonzero(a.den, b.num);
      MakeValue(a.num * b.den, a.den * b.num);
      QuotientOf(a.num, a.den, b.num, b.den);
    }
  }

  lemma LessExact(a: Fraction, b: Fraction)
    ensures FracLess(a, b) <==> Value(a) < Value(b)
  {
    ToReal(a.num, b.den);
    ToReal(b.num, a.den);
    RealOrder(a.num as real, a.den as real, b.num as real, b.den as real);
  }

  lemma Quotients(a: int, p: int, b: int, q: int)
    requires p > 0 && q > 0
    ensures p * q != 0
    ensures (a * q + p * b) as real / (p * q) as real == a as real / p as real + b as real / q as real
    ensures (a * q - p * b) as real / (p * q) as real == a as real / p as real - b as real / q as real
    ensures (a * b) as real / (p * q) as real == (a as real / p as real) * (b as real / q as real)
  {
    MulNonzero(p, q);
    ToReal(a, q);
    ToReal(p, b);
    ToReal(p, q);
    ToReal(a, b);
    RealSums(a as real / p as real, p as real, b as real / q as real, q as real);
  }

  lemma QuotientOf(a: int, p: int, b: int, q: int)
    requires p > 0 && q > 0 && b != 0
    ensures p * b != 0 && b as real / q as real != 0.0
    ensures (a * q) as real / (p * b) as real == (a as real / p as real) / (b as real / q as real)
  {
    MulNonzero(p, b);
    ToReal(a, q);
    ToReal(p, b);
    RealQuotient(a as real, p as real, b as real, q as real);
  }

  lemma ZeroValue(n: real, d: real)
    requires d > 0.0
    ensures n / d == 0.0 <==> n == 0.0
  {
    assert n / d * d == n;
  }

  lemma RealSums(x: real, p: real, y: real, q: real)
    requires p > 0.0 && q > 0.0
    ensures p * q > 0.0
    ensures (x * p * q + p * (y * q)) / (p * q) == x + y
    ensures (x * p * q - p * (y * q)) / (p * q) == x - y
    ensures (x * p * (y * q)) / (p * q) == x * y
  {
    assert x * p * q + p * (y * q) == (x + y) * (p * q);
    assert x * p * q - p * (y * q) == (x - y) * (p * q);
    assert x * p * (y * q) == (x * y) * (p * q);
  }

  lemma RealOrder(a: real, p: real, b: real, q: real)
    requires p > 0.0 && q > 0.0
    ensures a * q < b * p <==> a / p < b / q
  {
    var x, y := a / p, b / q;
    assert a == x * p && b == y * q;
    var r := p * q;
    assert r > 0.0;
    assert a * q == x * r && b * p == y * r;
    if x < y { assert (y - x) * r > 0.0; } else { assert (x - y) * r >= 0.0; }
  }

  lemma RealQuotient(a: real, p: real, b: real, q: real)
    requires p > 0.0 && q > 0.0 && b != 0.0
    ensures p * b != 0.0 && b / q != 0.0 && (a * q) / (p * b) == (a / p) / (b / q)
  {
    ZeroValue(b, q);
    var x, y := a / p, b / q;
    assert a == x * p && b == y * q;
    var r := p * q;
    assert r > 0.0;
    assert a * q == r * x && p * b == r * y;
    DivideOutReal(r, x, y);
  }

  // ---------- the field ----------

  const ZERO: Fraction := Fraction(0, 1)
  const ONE: Fraction := Fraction(1, 1)

  function FracInverse(a: Fraction): Fraction {
    match FracDiv(ONE, a)
    case Ok(f) => f
    case Throws => a
  }

  const RATIONALS: Field<Fraction> := Field(ZERO, ONE, FracAdd, (a: Fraction) => FracSub(ZERO, a), FracMul, FracInverse)

  // Fractions with their operators are a field.
  lemma FractionsAreAField()
    ensures IsField(RATIONALS)
  {
    forall a, b, c ensures Laws(RATIONALS, a, b, c) {
      AddLaws(a, b, c);
      MulLaws(a, b, c);
      Distributes(a, b, c);
      Inverts(a);
    }
  }

  lemma AddLaws(a: Fraction, b: Fraction, c: Fraction)
    ensures FracAdd(a, b) == FracAdd(b, a)
    ensures FracAdd(FracAdd(a, b), c) == FracAdd(a, FracAdd(b, c))
    ensures FracAdd(a, ZERO) == a && FracAdd(a, FracSub(ZERO, a)) == ZERO
  {
    AddExact(a, b);
    AddExact(b, a);
    AddExact(b, c);
    AddExact(FracAdd(a, b), c);
    AddExact(a, FracAdd(b, c));
    AddExact(a, ZERO);
    SubExact(ZERO, a);
    AddExact(a, FracSub(ZERO, a));
    ValueInjective(FracAdd(a, b), FracAdd(b, a));
    ValueInjective(FracAdd(FracAdd(a, b), c), FracAdd(a, FracAdd(b, c)));
    ValueInjective(FracAdd(a, ZERO), a);
    ValueInjective(FracAdd(a, FracSub(ZERO, a)), ZERO);
  }

  lemma MulLaws(a: Fraction, b: Fraction, c: Fraction)
    ensures FracMul(a, b) == FracMul(b, a)
    ensures FracMul(FracMul(a, b), c) == FracMul(a, FracMul(b, c))
    ensures FracMul(a, ONE) == a
  {
    MulExact(a, b);
    MulExact(b, a);
    MulExact(b, c);
    MulExact(FracMul(a, b), c);
    MulExact(a, FracMul(b, c));
    MulExact(a, ONE);
    ValueInjective(FracMul(a, b), FracMul(b, a));
    RealAssoc(Value(a), Value(b), Value(c));
    ValueInjective(FracMul(FracMul(a, b), c), FracMul(a, FracMul(b, c)));
    ValueInjective(FracMul(a, ONE), a);
  }

  lemma RealAssoc(x: real, y: real, z: real)
    ensures x * y * z == x * (y * z)
    ensures x * (y + z) == x * y + x * z
  {
  }

  lemma Distributes(a: Fraction, b: Fraction, c: Fraction)
    ensures FracMul(a, FracAdd(b, c)) == FracAdd(FracMul(a, b), FracMul(a, c))
  {
    AddExact(b, c);
    MulExact(a, FracAdd(b, c));
    MulExact(a, b);
    MulExact(a, c);
    AddExact(FracMul(a, b), FracMul(a, c));
    RealAssoc(Value(a), Value(b), Value(c));
    ValueInjective(FracMul(a, FracAdd(b, c)), FracAdd(FracMul(a, b), FracMul(a, c)));
  }

  lemma Inverts(a: Fraction)
    ensures a != ZERO ==> FracMul(a, FracInverse(a)) == ONE
  {
    DivExact(ONE, a);
    if a != ZERO {
      if Value(a) == Value(ZERO) { ValueInjective(a, ZERO); }
      var i := FracInverse(a);
      MulExact(a, i);
      assert Value(a) * (1.0 / Value(a)) == 1.0;
      ValueInjective(FracMul(a, i), ONE);
    }
  }
}
