// Unbounded integer arithmetic shared by the integer functions of qjscalc.js:
// Euclidean remainders, divisibility, powers and primes.
module Arithmetic {

  lemma MulLe(a: int, x: int, y: int)
    ensures 0 <= a && x <= y ==> a * x <= a * y
  {
  }

  lemma MulAssoc(a: int, b: int, c: int)
    ensures a * b * c == a * (b * c)
    ensures a * b * c == a * c * b
  {
  }

  // ---------- remainders ----------

  lemma ModUnique(q: int, r: int, m: int)
    requires 0 <= r < m
    ensures (q * m + r) % m == r
    ensures (q * m + r) / m == q
  {
    var n := q * m + r;
    var d := n / m;
    assert n == m * d + n % m;
    assert m * (q - d) == n % m - r by { assert m * (q - d) == m * q - m * d; }
    MulLe(m, 1, q - d);
    MulLe(m, q - d, -1);
    assert q == d;
  }

  lemma ModSmall(a: int, m: int)
    requires 0 <= a < m
    ensures a % m == a
  {
    ModUnique(0, a, m);
  }

  // Adding a multiple of m does not change the remainder.
  lemma ModShift(a: int, k: int, m: int)
    requires m > 0
    ensures (a + k * m) % m == a % m
  {
    ModUnique(a / m + k, a % m, m);
    assert (a / m + k) * m + a % m == a + k * m;
  }

  lemma ModAddMod(a: int, b: int, m: int)
    requires m > 0
    ensures (a % m + b) % m == (a + b) % m
  {
    ModShift(a + b, -(a / m), m);
  }

  lemma ModMulMod(a: int, b: int, m: int)
    requires m > 0
    ensures (a % m * b) % m == (a * b) % m
  {
    var q := a / m;
    assert a % m == a - m * q;
    assert a % m * b == a * b + -(q * b) * m by {
      assert a % m * b == (a - m * q) * b == a * b - m * q * b;
    }
    ModShift(a * b, -(q * b), m);
  }

  lemma ModMulBoth(a: int, b: int, m: int)
    requires m > 0
    ensures (a % m * (b % m)) % m == (a * b) % m
  {
    ModMulMod(a, b % m, m);
    ModMulMod(b, a, m);
  }

  // Equal remainders are kept by multiplication and by addition.
  lemma ModMulCong(a: int, b: int, c: int, m: int)
    requires m > 0 && a % m == b % m
    ensures (a * c) % m == (b * c) % m
  {
    ModMulMod(a, c, m);
    ModMulMod(b, c, m);
  }

  lemma ModAddCong(a: int, b: int, c: int, m: int)
    requires m > 0 && a % m == b % m
    ensures (a + c) % m == (b + c) % m
  {
    ModAddMod(a, c, m);
    ModAddMod(b, c, m);
  }

  // Equal remainders mean that the difference is a multiple, and back.
  lemma ModDiff(a: int, b: int, m: int)
    requires m > 0
    ensures a % m == b % m <==> Dvd(m, a - b)
  {
    if a % m == b % m {
      assert a - b == m * (a / m - b / m);
      DvdIntro(m, a / m - b / m);
    }
    if Dvd(m, a - b) {
      var k := DvdElim(m, a - b);
      ModShift(b, k, m);
    }
  }

  // ---------- divisibility ----------

  // d divides n, for integers of any sign; only 0 is a multiple of 0.
  predicate Dvd(d: int, n: int) { if d == 0 then n == 0 else n % d == 0 }

  lemma DvdIntro(d: int, k: int)
    ensures Dvd(d, d * k)
  {
    if d > 0 {
      ModUnique(k, 0, d);
    } else if d < 0 {
      var n := d * k;
      var e := -d;
      ModUnique(-k, 0, e);
      assert n == -k * e;
      var q := n / d;
      assert n == d * q + n % d;
      ModUnique(-q, n % d, e);
    }
  }

  lemma DvdElim(d: int, n: int) returns (k: int)
    requires Dvd(d, n)
    ensures n == d * k
  {
    k := if d == 0 then 0 else n / d;
  }

  lemma DvdMul(d: int, n: int, k: int)
    requires Dvd(d, n)
    ensures Dvd(d, n * k) && Dvd(d, k * n)
  {
    var q := DvdElim(d, n);
    DvdIntro(d, q * k);
    assert n * k == d * (q * k);
  }

  lemma DvdAdd(d: int, a: int, b: int)
    requires Dvd(d, a) && Dvd(d, b)
    ensures Dvd(d, a + b) && Dvd(d, a - b)
  {
    var p := DvdElim(d, a);
    var q := DvdElim(d, b);
    DvdIntro(d, p + q);
    DvdIntro(d, p - q);
    assert d * (p + q) == a + b && d * (p - q) == a - b;
  }

  // A combination of multiples is a multiple.
  lemma DvdCombine(d: int, a: int, x: int, b: int, y: int)
    requires Dvd(d, a) && Dvd(d, b)
    ensures Dvd(d, x * a + y * b)
  {
    DvdMul(d, a, x);
    DvdMul(d, b, y);
    DvdAdd(d, x * a, y * b);
  }

  lemma DvdTrans(a: int, b: int, c: int)
    requires Dvd(a, b) && Dvd(b, c)
    ensures Dvd(a, c)
  {
    var k := DvdElim(b, c);
    DvdMul(a, b, k);
  }

  lemma DvdLe(d: int, n: int)
    requires Dvd(d, n) && n > 0
    ensures -n <= d <= n && d != 0
  {
    var k := DvdElim(d, n);
    assert n == -d * -k;
    MulLe(d, 1, k);
    MulLe(d, k, 0);
    MulLe(-d, 1, -k);
    MulLe(-d, -k, 0);
  }

  // A product of two integers is one only for two equal units.
  lemma UnitFactors(a: int, b: int)
    requires a * b == 1
    ensures a == b && (a == 1 || a == -1)
  {
    DvdIntro(a, b);
    DvdLe(a, 1);
  }

  function Abs(a: int): nat { if a < 0 then -a else a }

  // Euclid's algorithm, with % the Euclidean remainder.
  function Gcd(a: int, b: int): int
    decreases Abs(b)
  {
    if b == 0 then a else Gcd(b, a % b)
  }

  lemma {:induction false} GcdDivides(a: int, b: int)
    ensures Dvd(Gcd(a, b), a) && Dvd(Gcd(a, b), b)
    decreases Abs(b)
  {
    if b == 0 {
      DvdIntro(a, 1);
      DvdIntro(a, 0);
    } else {
      GcdDivides(b, a % b);
      DvdCombine(Gcd(a, b), b, a / b, a % b, 1);
      assert a == a / b * b + 1 * (a % b);
    }
  }

  lemma {:induction false} GcdGreatest(a: int, b: int, d: int)
    requires Dvd(d, a) && Dvd(d, b)
    ensures Dvd(d, Gcd(a, b))
    decreases Abs(b)
  {
    if b != 0 {
      DvdCombine(d, a, 1, b, -(a / b));
      assert a % b == 1 * a + -(a / b) * b;
      GcdGreatest(b, a % b, d);
    }
  }

  ghost predicate Coprime(a: int, b: int) {
    forall d :: Dvd(d, a) && Dvd(d, b) ==> d == 1 || d == -1
  }

  lemma CoprimeFromCombination(a: int, x: int, b: int, y: int)
    requires x * a + y * b == 1
    ensures Coprime(a, b)
  {
    forall d | Dvd(d, a) && Dvd(d, b) ensures d == 1 || d == -1 {
      DvdCombine(d, a, x, b, y);
      DvdLe(d, 1);
    }
  }

  // Bezout's identity for natural numbers, by Euclid's algorithm.
  lemma {:induction false} Bezout(a: nat, b: nat) returns (g: nat, x: int, y: int)
    ensures g == x * a + y * b
    ensures Dvd(g, a) && Dvd(g, b)
    decreases b
  {
    if b == 0 {
      g, x, y := a, 1, 0;
      DvdIntro(g, 1);
      DvdIntro(g, 0);
    } else {
      var q := a / b;
      var s, t;
      g, s, t := Bezout(b, a % b);
      x, y := t, s - t * q;
      assert a == q * b + a % b;
      assert x * a + y * b == t * (q * b + a % b) + s * b - t * q * b == s * b + t * (a % b);
      DvdCombine(g, b, q, a % b, 1);
    }
  }

  lemma CoprimeBezout(a: nat, b: nat) returns (x: int, y: int)
    requires Coprime(a, b)
    ensures x * a + y * b == 1
  {
    var g;
    g, x, y := Bezout(a, b);
  }

  // A divisor of a product that shares no factor with one side divides the other.
  lemma CoprimeCancel(a: nat, b: nat, c: int)
    requires Coprime(a, b) && Dvd(a, b * c)
    ensures Dvd(a, c)
  {
    var x, y := CoprimeBezout(a, b);
    DvdIntro(a, 1);
    DvdCombine(a, a, x * c, b * c, y);
    assert x * c * a + y * (b * c) == (x * a + y * b) * c == c;
  }

  // ---------- primes ----------

  ghost predicate Prime(n: int) {
    n >= 2 && forall d :: 2 <= d < n ==> !Dvd(d, n)
  }

  lemma PrimeCoprime(p: int, a: int)
    requires Prime(p) && !Dvd(p, a)
    ensures Coprime(p, a)
  {
    forall d | Dvd(d, p) && Dvd(d, a) ensures d == 1 || d == -1 {
      DvdLe(d, p);
      var e := if d > 0 then d else -d;
      DvdNeg(d, p);
      DvdNeg(d, a);
      assert Dvd(e, p) && Dvd(e, a);
      assert e == p ==> Dvd(p, a);
    }
  }

  lemma DvdNeg(d: int, n: int)
    requires Dvd(d, n)
    ensures Dvd(-d, n) && Dvd(d, -n)
  {
    var k := DvdElim(d, n);
    DvdIntro(-d, -k);
    DvdIntro(d, -k);
    assert -d * -k == n && d * -k == -n;
  }

  // Euclid's lemma.
  lemma PrimeDividesProduct(p: int, a: nat, b: int)
    requires Prime(p) && Dvd(p, a * b)
    ensures Dvd(p, a) || Dvd(p, b)
  {
    if !Dvd(p, a) {
      PrimeCoprime(p, a);
      CoprimeCancel(p, a, b);
    }
  }

  lemma {:induction false} LeastDivisor(n: int, d: int) returns (p: int)
    requires 2 <= d < n && Dvd(d, n)
    ensures 2 <= p <= d && Dvd(p, n) && Prime(p)
    decreases d
  {
    if Prime(d) {
      p := d;
    } else {
      var e :| 2 <= e < d && Dvd(e, d);
      DvdTrans(e, d, n);
      p := LeastDivisor(n, e);
    }
  }

  lemma Cofactor(d: int, e: int)
    requires d >= 2 && d * e > d
    ensures 2 <= e < d * e
    ensures d <= e ==> d * d <= d * e
    ensures e <= d ==> e * e <= d * e
  {
    MulLe(d, e, 1);
    MulLe(e, 2, d);
    MulLe(d, d, e);
    MulLe(e, e, d);
  }

  // A composite number has a prime factor whose square does not exceed it.
  lemma SmallPrimeFactor(n: int) returns (p: int)
    requires n >= 2 && !Prime(n)
    ensures Prime(p) && Dvd(p, n) && p * p <= n && p < n
  {
    var d :| 2 <= d < n && Dvd(d, n);
    var e := DvdElim(d, n);
    Cofactor(d, e);
    DvdIntro(e, d);
    var m := if d <= e then d else e;
    p := LeastDivisor(n, m);
    MulLe(p, p, m);
    MulLe(m, p, m);
  }

  // ---------- powers ----------

  function Pow(a: int, e: nat): int {
    if e == 0 then 1 else a * Pow(a, e - 1)
  }

  lemma {:induction false} PowAdd(a: int, x: nat, y: nat)
    ensures Pow(a, x + y) == Pow(a, x) * Pow(a, y)
  {
    if x != 0 {
      PowAdd(a, x - 1, y);
      assert Pow(a, x + y) == a * (Pow(a, x - 1) * Pow(a, y)) == Pow(a, x) * Pow(a, y);
    }
  }

  lemma PowDouble(a: int, e: nat)
    ensures Pow(a, 2 * e) == Pow(a * a, e)
    ensures Pow(a, 2 * e) == Pow(a, e) * Pow(a, e)
  {
    PowAdd(a, e, e);
    PowMulBase(a, a, e);
  }

  lemma MulExchange(a: int, b: int, p: int, q: int)
    ensures a * b * (p * q) == a * p * (b * q)
  {
  }

  lemma {:induction false} PowMulBase(a: int, b: int, e: nat)
    ensures Pow(a * b, e) == Pow(a, e) * Pow(b, e)
  {
    if e != 0 {
      PowMulBase(a, b, e - 1);
      MulExchange(a, b, Pow(a, e - 1), Pow(b, e - 1));
    }
  }

  lemma {:induction false} PowCong(a: int, b: int, e: nat, m: int)
    requires m > 0 && a % m == b % m
    ensures Pow(a, e) % m == Pow(b, e) % m
  {
    if e != 0 {
      PowCong(a, b, e - 1, m);
      ModMulCong(a, b, Pow(a, e - 1), m);
      ModMulCong(Pow(a, e - 1), Pow(b, e - 1), b, m);
      assert Pow(a, e - 1) * b == b * Pow(a, e - 1);
      assert Pow(b, e - 1) * b == b * Pow(b, e - 1);
    }
  }

  lemma {:induction false} PowOne(e: nat)
    ensures Pow(1, e) == 1
  {
    if e != 0 { PowOne(e - 1); }
  }

  lemma {:induction false} PowPos(a: int, e: nat)
    requires a >= 1
    ensures Pow(a, e) >= 1
  {
    if e != 0 {
      PowPos(a, e - 1);
      assert a * Pow(a, e - 1) >= 1 * 1;
    }
  }
}
