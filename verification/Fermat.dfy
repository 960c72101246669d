// Binomial coefficients and Fermat's little theorem, the number theory behind
// the integer functions of qjscalc.js.
module Fermat {
  import opened Arithmetic

  // Pascal's triangle, zero outside of it.
  function Binomial(n: int, k: int): nat
    decreases if n >= 0 then n else 0
  {
    if k < 0 || k > n then 0
    else if k == 0 then 1
    else Binomial(n - 1, k - 1) + Binomial(n - 1, k)
  }

  // a * (a + 1) * ... * b, the empty product when a > b.
  function Product(a: int, b: int): int
    decreases b - a
  {
    if a > b then 1 else Product(a, b - 1) * b
  }

  lemma {:induction false} ProductSplit(a: int, m: int, b: int)
    requires a <= m + 1 && m <= b
    ensures Product(a, b) == Product(a, m) * Product(m + 1, b)
    decreases b - m
  {
    if m == b {
      assert Product(m + 1, b) == 1;
    } else {
      ProductSplit(a, m, b - 1);
      MulAssoc(Product(a, m), Product(m + 1, b - 1), b);
    }
  }

  lemma ProductFirst(a: int, b: int)
    requires a <= b
    ensures Product(a, b) == a * Product(a + 1, b)
  {
    ProductSplit(a, a, b);
    assert Product(a, a) == Product(a, a - 1) * a == a;
  }

  lemma {:induction false} ProductPositive(a: int, b: int)
    requires a >= 1
    ensures Product(a, b) >= 1
    decreases b - a
  {
    if a <= b {
      ProductPositive(a, b - 1);
      MulLe(Product(a, b - 1), 1, b);
    }
  }

  // One step of Pascal's rule on falling products, with all products named.
  lemma PascalArith(p: int, q: int, k: int, n: int, x: int, y: int, f: int)
    requires q == p * k && p * x == f && q * y == (n - k) * f
    ensures q * (x + y) == f * n
  {
    MulAssoc(p, k, x);
    assert q * (x + y) == q * x + q * y == f * k + (n - k) * f;
  }

  // k! * C(n, k) is the falling product n * (n - 1) * ... * (n - k + 1).
  lemma {:induction false} FallingProduct(n: nat, k: nat)
    requires k <= n
    ensures Product(1, k) * Binomial(n, k) == Product(n - k + 1, n)
    decreases n
  {
    if k == 0 {
      assert Product(n + 1, n) == 1;
    } else {
      var f := Product(n - k + 1, n - 1);
      FallingProduct(n - 1, k - 1);
      if k < n {
        FallingProduct(n - 1, k);
        ProductFirst(n - k, n - 1);
      }
      assert Binomial(n, k) == Binomial(n - 1, k - 1) + Binomial(n - 1, k);
      assert Product(1, k) == Product(1, k - 1) * k && Product(n - k + 1, n) == f * n;
      assert k == n ==> Binomial(n - 1, k) == 0;
      hide Binomial, Product;
      PascalArith(Product(1, k - 1), Product(1, k), k, n, Binomial(n - 1, k - 1), Binomial(n - 1, k), f);
    }
  }

  lemma BinomialSymmetric(n: nat, k: nat)
    requires k <= n
    ensures Binomial(n, k) == Binomial(n, n - k)
  {
    hide Binomial, Product;
    FallingProduct(n, k);
    FallingProduct(n, n - k);
    ProductSplit(1, n - k, n);
    ProductSplit(1, k, n);
    ProductPositive(1, k);
    ProductPositive(1, n - k);
    var p, q, f, g := Product(1, k), Product(1, n - k), Product(n - k + 1, n), Product(k + 1, n);
    var x, y := Binomial(n, k), Binomial(n, n - k);
    assert n - (n - k) + 1 == k + 1;
    SymmetricArith(p, q, x, y, f, g);
    SameProduct(p, q, x, y);
  }

  lemma SymmetricArith(p: int, q: int, x: int, y: int, f: int, g: int)
    requires p * x == f && q * y == g && q * f == p * g
    ensures (p * x) * q == (q * y) * p
  {
    assert f * q == q * f && g * p == p * g;
  }

  lemma SameProduct(p: int, q: int, x: int, y: int)
    requires p >= 1 && q >= 1 && (p * x) * q == (q * y) * p
    ensures x == y
  {
    MulAssoc(p, x, q);
    MulAssoc(q, y, p);
    assert p * q == q * p;
    MulLe(p, 1, q);
    CancelFactor(p * q, x, y);
  }

  lemma CancelFactor(c: int, x: int, y: int)
    requires c > 0 && c * x == c * y
    ensures x == y
  {
    MulLe(c, x + 1, y);
    MulLe(c, y + 1, x);
  }

  // A prime divides every inner coefficient of its own row.
  lemma PrimeDividesBinomial(p: int, k: int)
    requires Prime(p) && 0 < k < p
    ensures Dvd(p, Binomial(p, k))
  {
    FallingProduct(p, k);
    var c := Binomial(p, k);
    DvdIntro(p, Product(p - k + 1, p - 1));
    assert Dvd(p, Product(1, k) * c);
    PrimeCoprimeToFactorial(p, k);
    ProductPositive(1, k);
    PrimeDividesProduct(p, Product(1, k), c);
  }

  lemma {:induction false} PrimeCoprimeToFactorial(p: int, k: nat)
    requires Prime(p) && k < p
    ensures !Dvd(p, Product(1, k))
  {
    if k == 0 {
      if Dvd(p, 1) { DvdLe(p, 1); }
    } else {
      PrimeCoprimeToFactorial(p, k - 1);
      ProductPositive(1, k - 1);
      if Dvd(p, Product(1, k)) {
        PrimeDividesProduct(p, Product(1, k - 1), k);
        DvdLe(p, k);
      }
    }
  }

  // The first k terms of the expansion of (1 + x)^n.
  function Expansion(x: int, n: nat, k: nat): int {
    if k == 0 then 0 else Expansion(x, n, k - 1) + Binomial(n, k - 1) * Pow(x, k - 1)
  }

  lemma ExpansionArith(x: int, c: int, d: int, y: int, e: int, f: int, g: int)
    requires e == f + c * y && g == e + x * f
    ensures g + (c + d) * (x * y) == e + d * (x * y) + x * e
  {
    assert (c + d) * (x * y) == c * (x * y) + d * (x * y);
    assert x * (c * y) == c * (x * y);
    assert x * e == x * f + x * (c * y);
  }

  lemma {:induction false} ExpansionStep(x: int, n: nat, k: nat)
    ensures Expansion(x, n + 1, k + 1) == Expansion(x, n, k + 1) + x * Expansion(x, n, k)
  {
    if k == 0 {
      assert Expansion(x, n + 1, 1) == Binomial(n + 1, 0) * Pow(x, 0);
      assert Expansion(x, n, 1) == Binomial(n, 0) * Pow(x, 0);
    } else {
      ExpansionStep(x, n, k - 1);
      var c, d := Binomial(n, k - 1), Binomial(n, k);
      assert Binomial(n + 1, k) == c + d;
      ExpansionArith(x, c, d, Pow(x, k - 1), Expansion(x, n, k), Expansion(x, n, k - 1), Expansion(x, n + 1, k));
    }
  }

  lemma OnePlusTimes(x: int, e: int)
    ensures (1 + x) * e == e + x * e
  {
  }

  lemma {:induction false} BinomialTheorem(x: int, n: nat)
    ensures Pow(1 + x, n) == Expansion(x, n, n + 1)
  {
    if n == 0 {
      assert Expansion(x, 0, 1) == Expansion(x, 0, 0) + Binomial(0, 0) * Pow(x, 0);
    } else {
      BinomialTheorem(x, n - 1);
      ExpansionStep(x, n - 1, n);
      var e := Expansion(x, n - 1, n);
      assert Expansion(x, n - 1, n + 1) == e by { assert Binomial(n - 1, n) == 0; }
      assert Pow(1 + x, n) == (1 + x) * Pow(1 + x, n - 1);
      hide Expansion, Pow;
      OnePlusTimes(x, e);
    }
  }

  lemma {:induction false} InnerTermsVanish(x: int, p: int, k: nat)
    requires Prime(p) && 1 <= k <= p
    ensures Expansion(x, p, k) % p == 1
    decreases k
  {
    if k == 1 {
      assert Expansion(x, p, 1) == Expansion(x, p, 0) + Binomial(p, 0) * Pow(x, 0);
      ModSmall(1, p);
    } else {
      InnerTermsVanish(x, p, k - 1);
      PrimeDividesBinomial(p, k - 1);
      DvdMul(p, Binomial(p, k - 1), Pow(x, k - 1));
      ModAddMod(Binomial(p, k - 1) * Pow(x, k - 1), Expansion(x, p, k - 1), p);
    }
  }

  // a^p and a leave the same remainder modulo a prime p.
  lemma {:induction false} FermatPower(a: nat, p: int)
    requires Prime(p)
    ensures Pow(a, p) % p == a % p
  {
    if a > 0 {
      var x := a - 1;
      FermatPower(x, p);
      BinomialTheorem(x, p);
      assert Expansion(x, p, p + 1) == Expansion(x, p, p) + Binomial(p, p) * Pow(x, p);
      BinomialTop(p);
      InnerTermsVanish(x, p, p);
      ModSmall(1, p);
      ModAddCong(Expansion(x, p, p), 1, Pow(x, p), p);
      ModAddCong(Pow(x, p), x, 1, p);
    } else {
      assert Pow(0, p) == 0;
    }
  }

  lemma {:induction false} BinomialTop(n: nat)
    ensures Binomial(n, n) == 1
  {
    if n != 0 {
      BinomialTop(n - 1);
      assert Binomial(n - 1, n) == 0;
    }
  }

  // Fermat's little theorem.
  lemma FermatLittle(a: nat, p: int)
    requires Prime(p) && !Dvd(p, a)
    ensures Pow(a, p - 1) % p == 1
  {
    FermatPower(a, p);
    var y := Pow(a, p - 1);
    assert Pow(a, p) == a * y;
    ModDiff(a * y, a, p);
    assert a * y - a == a * (y - 1);
    PrimeDividesProduct(p, a, y - 1);
    ModDiff(y, 1, p);
    ModSmall(1, p);
  }

  // Modulo a prime, only 1 and -1 square to 1.
  lemma SquareRootOfOne(x: nat, p: int)
    requires Prime(p) && 0 <= x < p && (x * x) % p == 1
    ensures x == 1 || x == p - 1
  {
    ModSmall(1, p);
    ModDiff(x * x, 1, p);
    assert x * x - 1 == (x + 1) * (x - 1);
    PrimeDividesProduct(p, x + 1, x - 1);
    if Dvd(p, x + 1) {
      DvdLe(p, x + 1);
    } else if x > 1 {
      DvdLe(p, x - 1);
    }
  }
}
