// Modular inverse and the two binary powers of qjscalc.js: the bottom-up
// Integer.pmod and the top-down generic_pow on Mod values.
module ModularPower {
  import opened Outcomes
  import opened Arithmetic

  // Integer.fdivrem: the quotient is rounded down, so that the remainder takes
  // the sign of the divisor.
  function FloorDiv(v: int, u: int): int
    requires u != 0
  {
    if u > 0 || v % u == 0 then v / u else v / u - 1
  }

  function FloorRem(v: int, u: int): int
    requires u != 0
  {
    v - FloorDiv(v, u) * u
  }

  lemma FloorRemRange(v: int, u: int)
    requires u != 0
    ensures u > 0 ==> 0 <= FloorRem(v, u) < u
    ensures u < 0 ==> u < FloorRem(v, u) <= 0
  {
    assert v == u * (v / u) + v % u;
    assert (v / u - 1) * u == u * (v / u) - u;
  }

  // Integer.gcd
  method ComputeGcd(a0: int, b0: int) returns (a: int)
    ensures a == Gcd(a0, b0)
  {
    var b: int;
    a, b := a0, b0;
    while b != 0
      invariant Gcd(a, b) == Gcd(a0, b0)
      decreases Abs(b)
    {
      var r := a % b;
      a := b;
      b := r;
    }
  }

  // w is an inverse of x modulo m.
  predicate InverseOf(x: int, w: int, m: int)
    requires m > 0
  {
    (x * w) % m == 1 % m
  }

  lemma CombinationStep(x: int, y: int, a: int, ka: int, c: int, kc: int, u: int, v: int, q: int)
    requires v == a * x + ka * y && u == c * x + kc * y
    ensures v - q * u == (a - q * c) * x + (ka - q * kc) * y
  {
    assert q * u == q * c * x + q * kc * y;
  }

  lemma MultipleStep(x: int, p: int, s: int, u: int, v: int, q: int)
    requires x == p * v + s * u
    ensures x == (p * q + s) * u + p * (v - q * u)
  {
  }

  // Integer.invmod. It succeeds exactly when x is not negative and prime to y:
  // the floored remainders of a negative x stay negative, so that the last one
  // is never 1, not even when x is invertible.
  method InvMod(x: int, y: int) returns (r: Result<int>)
    requires y > 0
    ensures r.Ok? <==> x >= 0 && Coprime(x, y)
    ensures r.Ok? ==> 0 <= r.value < y && InverseOf(x, r.value, y)
  {
    hide Dvd, Coprime, InverseOf;
    var u, v, c, a := x, y, 1, 0;
    ghost var ka, kc, p, s, g, h := 1, 0, 0, 1, 1, 0;
    while u != 0
      invariant v == a * x + ka * y && u == c * x + kc * y
      invariant x == p * v + s * u && y == g * v + h * u
      invariant x >= 0 ==> u >= 0 && v > 0
      invariant x < 0 ==> u <= 0 && (v < 0 || u == x)
      decreases if u < 0 then -u else u
    {
      var q, t := FloorDiv(v, u), FloorRem(v, u);
      FloorRemRange(v, u);
      CombinationStep(x, y, a, ka, c, kc, u, v, q);
      MultipleStep(x, p, s, u, v, q);
      MultipleStep(y, g, h, u, v, q);
      ka, kc, p, s, g, h := kc, ka - q * kc, p * q + s, p, g * q + h, g;
      v := u;
      u := t;
      t := c;
      c := a - q * c;
      a := t;
    }
    DvdIntro(v, p);
    DvdIntro(v, g);
    if v > 0 && Coprime(x, y) { CoprimeDivisor(v, x, y); }
    if v != 1 {
      return Throws;
    }
    CoprimeFromCombination(x, a, y, ka);
    CombinationInverse(x, a, y, ka);
    r := Ok(a % y);
  }

  lemma CoprimeDivisor(v: int, x: int, y: int)
    requires Dvd(v, x) && Dvd(v, y) && v > 0 && Coprime(x, y)
    ensures v == 1
  {
  }

  lemma CombinationInverse(x: int, a: int, y: int, k: int)
    requires y > 0 && x * a + k * y == 1
    ensures InverseOf(x, a % y, y)
  {
    assert x * a == 1 + -k * y;
    ModShift(1, -k, y);
    ModMulMod(a, x, y);
    assert a % y * x == x * (a % y) && a * x == x * a;
  }

  // There is an inverse exactly for coprime arguments, of either sign.
  lemma InverseExists(x: int, m: int)
    requires m > 0
    ensures Coprime(x, m) <==> exists w :: 0 <= w < m && InverseOf(x, w, m)
  {
    if Coprime(x, m) {
      CoprimeReduce(x, m);
      var a, b := CoprimeBezout(x % m, m);
      assert x % m * a == a * (x % m);
      CombinationInverse(x % m, a, m, b);
      ModMulMod(x, a % m, m);
      assert 0 <= a % m < m && InverseOf(x, a % m, m);
    }
    if w :| 0 <= w < m && InverseOf(x, w, m) { CoprimeFromInverse(x, w, m); }
  }

  // Integer.invmod refuses -1 modulo 5, although -1 is its own inverse there.
  lemma InvModRefusesInvertible()
    ensures Coprime(-1, 5) && InverseOf(-1, 4, 5)
  {
    CoprimeFromCombination(-1, 4, 5, 1);
  }

  lemma CoprimeFromInverse(x: int, w: int, m: int)
    requires m > 0 && InverseOf(x, w, m)
    ensures Coprime(x, m)
  {
    ModDiff(x * w, 1, m);
    var k := DvdElim(m, x * w - 1);
    CoprimeFromCombination(x, w, m, -k);
  }

  // Inverses below the modulus are unique.
  lemma InverseUnique(x: int, v: int, w: int, m: int)
    requires m > 0 && 0 <= v < m && 0 <= w < m
    requires InverseOf(x, v, m) && InverseOf(x, w, m)
    ensures v == w
  {
    ModMulCong(x * v, 1, w, m);
    ModMulCong(x * w, 1, v, m);
    MulAssoc(x, v, w);
    ModSmall(v, m);
    ModSmall(w, m);
  }

  // Powering keeps inverses.
  lemma PowInverse(x: int, w: int, e: nat, m: int)
    requires m > 0 && InverseOf(x, w, m)
    ensures InverseOf(Pow(x, e), Pow(w, e), m)
  {
    PowMulBase(x, w, e);
    PowCong(x * w, 1, e, m);
    PowOne(e);
  }

  lemma CoprimeReduce(a: int, m: int)
    requires m > 0
    ensures Coprime(a % m, m) <==> Coprime(a, m)
  {
    var q := a / m;
    assert a == q * m + a % m;
    forall d
      ensures (Dvd(d, a) && Dvd(d, m)) <==> (Dvd(d, a % m) && Dvd(d, m))
    {
      if Dvd(d, a) && Dvd(d, m) {
        DvdCombine(d, a, 1, m, -q);
        assert a % m == 1 * a + -q * m;
      }
      if Dvd(d, a % m) && Dvd(d, m) { DvdCombine(d, m, q, a % m, 1); }
    }
  }

  // A power is invertible exactly when its base is.
  lemma PowCoprime(a: nat, e: int, m: int)
    requires m > 0 && e > 0
    ensures Coprime(Pow(a, e) % m, m) <==> Coprime(a, m)
  {
    CoprimeReduce(Pow(a, e), m);
    if Coprime(a, m) {
      var x, y := CoprimeBezout(a, m);
      assert a * x == 1 + -y * m;
      ModShift(1, -y, m);
      PowInverse(a, x, e, m);
      CoprimeFromInverse(Pow(a, e), Pow(x, e), m);
    }
    if Coprime(Pow(a, e), m) {
      forall d | Dvd(d, a) && Dvd(d, m) ensures d == 1 || d == -1 {
        DvdMul(d, a, Pow(a, e - 1));
      }
    }
  }

  // The meaning of a^b modulo m for a nonzero exponent. A negative power is the
  // inverse of the positive one, and exists only when a is invertible.
  ghost predicate IsPower(a: int, b: int, m: int, r: Result<int>)
    requires m > 0 && b != 0
  {
    if b > 0 then
      r == Ok(Pow(a, b) % m)
    else
      && (r.Ok? <==> Coprime(a, m))
      && (r.Ok? ==> 0 <= r.value < m && InverseOf(Pow(a, -b), r.value, m))
  }

  // That meaning leaves no choice, so two methods that meet it agree.
  lemma PowerUnique(a: int, b: int, m: int, r: Result<int>, s: Result<int>)
    requires m > 0 && b != 0
    requires IsPower(a, b, m, r) && IsPower(a, b, m, s)
    ensures r == s
  {
    if b < 0 && r.Ok? {
      InverseUnique(Pow(a, -b), r.value, s.value, m);
    }
  }

  lemma RoundArith(r: int, a: int, z: int, p: int)
    ensures r * a * z == z * (r * a) && p * (r * a) == r * (a * p)
    ensures r * z == z * r && p * r == r * p
  {
  }

  // One round of the bottom-up power: the lowest bit moves into the result.
  lemma PowRound(r: int, a: int, b: int, m: int)
    requires m > 0 && b > 0
    ensures b % 2 == 1 ==> ((r * a) % m * Pow((a * a) % m, b / 2)) % m == (r * Pow(a, b)) % m
    ensures b % 2 == 0 ==> (r * Pow((a * a) % m, b / 2)) % m == (r * Pow(a, b)) % m
  {
    var h := b / 2;
    var z := Pow((a * a) % m, h);
    PowCong((a * a) % m, a * a, h, m);
    PowDouble(a, h);
    var p := Pow(a, 2 * h);
    assert z % m == p % m;
    assert Pow(a, b) == if b % 2 == 1 then a * p else p;
    hide Pow;
    RoundArith(r, a, z, p);
    if b % 2 == 1 {
      ModMulMod(r * a, z, m);
      ModMulCong(z, p, r * a, m);
    } else {
      ModMulCong(z, p, r, m);
    }
  }

  // Integer.pmod. For b == 0 the answer is 1, whatever the modulus. A negative
  // base has no negative power here, as invmod refuses it.
  method PMod(a0: int, b0: int, m: int) returns (res: Result<int>)
    requires m > 0
    ensures b0 == 0 ==> res == Ok(1)
    ensures b0 > 0 || (b0 < 0 && a0 >= 0) ==> IsPower(a0, b0, m, res)
    ensures b0 < 0 && a0 < 0 ==> res == Throws
  {
    if b0 == 0 {
      return Ok(1);
    }
    var a, b := a0, b0;
    if b < 0 {
      var w := InvMod(a, m);
      if w.Throws? {
        return Throws;
      }
      a := w.value;
      b := -b;
    }
    ghost var base, expo := a, b;
    var r := 1;
    while true
      invariant b > 0
      invariant (r * Pow(a, b)) % m == Pow(base, expo) % m
      decreases b
    {
      PowRound(r, a, b, m);
      if b % 2 == 1 {
        r := (r * a) % m;
      }
      b := b / 2;
      if b == 0 {
        assert Pow((a * a) % m, 0) == 1;
        break;
      }
      a := (a * a) % m;
    }
    ModSmall(r, m);
    res := Ok(r);
    if b0 < 0 {
      PowInverse(a0, base, expo, m);
      ModMulMod(Pow(base, expo), Pow(a0, expo), m);
      assert Pow(base, expo) % m * Pow(a0, expo) == Pow(a0, expo) * (Pow(base, expo) % m);
      assert Pow(base, expo) * Pow(a0, expo) == Pow(a0, expo) * Pow(base, expo);
    }
  }

  // ---------- Mod values ----------

  // A residue of the modulus: the Mod objects of the source keep 0 <= res < mod.
  datatype Mod = Mod(res: int, mod: int) {
    predicate Valid() { 0 <= res < mod }
  }

  function MakeMod(a: int, m: int): (r: Mod)
    requires m > 0
  {
    Mod(a % m, m)
  }

  function MulMod(a: Mod, b: Mod): (r: Mod)
    requires a.Valid() && b.Valid() && a.mod == b.mod
  {
    MakeMod(a.res * b.res, a.mod)
  }

  // Mod.prototype.inverse
  method InverseMod(a: Mod) returns (r: Result<Mod>)
    requires a.Valid()
    ensures r.Ok? <==> Coprime(a.res, a.mod)
    ensures r.Ok? ==> r.value.Valid() && r.value.mod == a.mod && InverseOf(a.res, r.value.res, a.mod)
  {
    var w := InvMod(a.res, a.mod);
    if w.Throws? {
      return Throws;
    }
    ModSmall(w.value, a.mod);
    r := Ok(MakeMod(w.value, a.mod));
  }

  // Integer.floorLog2
  function FloorLog2(b: int): (k: int)
    ensures b <= 0 ==> k == -1
    ensures b > 0 ==> k >= 0 && Pow(2, k) <= b < Pow(2, k + 1)
  {
    if b <= 0 then -1 else if b == 1 then 0 else FloorLog2(b / 2) + 1
  }

  // b >> i
  function ShiftRight(b: int, i: nat): int
  {
    PowPos(2, i);
    b / Pow(2, i)
  }

  lemma ShiftStep(b: int, i: nat)
    requires b > 0
    ensures ShiftRight(b, i + 1) == ShiftRight(b, i) / 2
  {
    PowPos(2, i);
    var p := Pow(2, i);
    var q, r := b / (2 * p), b % (2 * p);
    assert b == 2 * p * q + r;
    var h := if r >= p then 1 else 0;
    assert b == (2 * q + h) * p + (r - h * p);
    ModUnique(2 * q + h, r - h * p, p);
  }

  lemma ShiftTop(b: int)
    requires b > 0
    ensures ShiftRight(b, FloorLog2(b)) == 1
  {
    var p := Pow(2, FloorLog2(b));
    ModUnique(1, b - p, p);
  }

  // What generic_pow returns: the number 1, a Mod value, or an exception.
  datatype PowResult = Plain(n: int) | Residue(m: Mod) | NotInvertible

  function AsResult(p: PowResult): Result<int> {
    match p
    case Plain(n) => Ok(n)
    case Residue(m) => Ok(m.res)
    case NotInvertible => Throws
  }

  // Where generic_pow starts, and the exponent at which it ends.
  lemma PowerStart(a: Mod, b: int)
    requires a.Valid() && b > 0
    ensures a.res == Pow(a.res, 1) % a.mod && ShiftRight(b, FloorLog2(b)) == 1 && ShiftRight(b, 0) == b
  {
    ModSmall(a.res, a.mod);
    ShiftTop(b);
    assert Pow(a.res, 1) == a.res * Pow(a.res, 0);
    assert Pow(2, 0) == 1;
  }

  // generic_pow on Mod values, from the highest exponent bit down.
  method GenericPow(a: Mod, b0: int) returns (res: PowResult)
    requires a.Valid()
    ensures b0 == 0 ==> res == Plain(1)
    ensures b0 != 0 ==> !res.Plain? && IsPower(a.res, b0, a.mod, AsResult(res))
    ensures res.Residue? ==> res.m.Valid() && res.m.mod == a.mod
  {
    hide Pow, ShiftRight, IsPower, Coprime, InverseOf, FloorLog2;
    if b0 == 0 {
      return Plain(1);
    }
    var isNeg, b := false, b0;
    if b < 0 {
      isNeg := true;
      b := -b;
    }
    var r := a;
    var i := FloorLog2(b) - 1;
    PowerStart(a, b);
    ghost var e := 1;
    while i >= 0
      invariant -1 <= i
      invariant r.Valid() && r.mod == a.mod
      invariant e >= 0 && e == ShiftRight(b, i + 1)
      invariant r.res == Pow(a.res, e) % a.mod
    {
      ShiftStep(b, i);
      PowSquareStep(a.res, e, r.res, a.mod);
      r := MulMod(r, r);
      if ShiftRight(b, i) % 2 == 1 {
        PowNextStep(a.res, 2 * e, r.res, a.mod);
        r := MulMod(r, a);
      }
      e := ShiftRight(b, i);
      i := i - 1;
    }
    if isNeg {
      res := InvertPower(a, b, r);
    } else {
      res := Residue(r);
      PowerPositive(a, b, r);
    }
  }

  lemma PowerPositive(a: Mod, b: int, r: Mod)
    requires a.Valid() && b > 0 && r.res == Pow(a.res, b) % a.mod
    ensures IsPower(a.res, b, a.mod, Ok(r.res))
  {
  }

  // inverse(r), for a negative exponent
  method InvertPower(a: Mod, b: int, r: Mod) returns (res: PowResult)
    requires a.Valid() && r.Valid() && b > 0 && r.mod == a.mod && r.res == Pow(a.res, b) % a.mod
    ensures !res.Plain? && IsPower(a.res, -b, a.mod, AsResult(res))
    ensures res.Residue? ==> res.m.Valid() && res.m.mod == a.mod
  {
    hide Pow, Coprime;
    PowCoprime(a.res, b, a.mod);
    var w := InverseMod(r);
    if w.Throws? {
      return NotInvertible;
    }
    ModMulMod(Pow(a.res, b), w.value.res, a.mod);
    res := Residue(w.value);
  }

  lemma PowNextStep(a: int, e: nat, r: int, m: int)
    requires m > 0 && r == Pow(a, e) % m
    ensures (r * a) % m == Pow(a, e + 1) % m
  {
    ModMulMod(Pow(a, e), a, m);
    assert Pow(a, e + 1) == a * Pow(a, e);
  }

  lemma PowSquareStep(a: int, e: nat, r: int, m: int)
    requires m > 0 && r == Pow(a, e) % m
    ensures (r * r) % m == Pow(a, 2 * e) % m
  {
    PowDouble(a, e);
    ModMulBoth(Pow(a, e), Pow(a, e), m);
  }

  // A negative power may be taken either way: inverting the power, as
  // generic_pow does, gives the power of the inverse, as pmod computes.
  lemma InversePowerAgrees(a: nat, w: nat, v: int, e: nat, m: int)
    requires m > 0 && InverseOf(a, w, m)
    requires 0 <= v < m && InverseOf(Pow(a, e) % m, v, m)
    ensures v == Pow(w, e) % m
  {
    PowInverse(a, w, e, m);
    var x, y := Pow(a, e), Pow(w, e);
    ModMulMod(x, v, m);
    ModMulMod(y, x, m);
    assert x * y == y * x && y % m * x == x * (y % m);
    InverseUnique(x, v, y % m, m);
  }
}
