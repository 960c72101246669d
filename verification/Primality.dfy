// Primality and factoring of qjscalc.js: the Miller-Rabin test, Integer.isPrime
// and Integer.factor.
module Primality {
  import opened Arithmetic
  import opened Fermat
  import opened ModularPower
  import opened SmallPrimes

  // ---------- strong probable primes ----------

  // m == OddPart(m) * 2^TwoExponent(m)
  function OddPart(m: int): (d: int)
    requires m > 0
    ensures d > 0 && d % 2 == 1
  {
    if m % 2 == 1 then m else OddPart(m / 2)
  }

  function TwoExponent(m: int): nat
    requires m > 0
  {
    if m % 2 == 1 then 0 else TwoExponent(m / 2) + 1
  }

  lemma {:induction false} OddPartTimesPower(m: int)
    requires m > 0
    ensures OddPart(m) * Pow(2, TwoExponent(m)) == m
  {
    if m % 2 == 0 {
      OddPartTimesPower(m / 2);
      var d, p := OddPart(m / 2), Pow(2, TwoExponent(m / 2));
      MulAssoc(d, 2, p);
    }
  }

  // The i-th square a^(d * 2^i) modulo n, where d is the odd part of n - 1.
  function SquareAt(n: int, a: int, i: nat): int
    requires n >= 2
  {
    PowPos(2, i);
    MulLe(OddPart(n - 1), 0, Pow(2, i));
    Pow(a, OddPart(n - 1) * Pow(2, i)) % n
  }

  lemma SquareNext(n: int, a: int, i: nat)
    requires n >= 2
    ensures SquareAt(n, a, i + 1) == (SquareAt(n, a, i) * SquareAt(n, a, i)) % n
  {
    PowPos(2, i);
    var d, p := OddPart(n - 1), Pow(2, i);
    MulLe(d, 0, p);
    assert d * (2 * p) == 2 * (d * p);
    PowSquareStep(a, d * p, SquareAt(n, a, i), n);
  }

  // n passes the test to base a: the squares start at 1, or meet -1 before the last.
  ghost predicate StrongProbablePrime(n: int, a: int)
    requires n >= 2
  {
    || SquareAt(n, a, 0) == 1
    || exists i: nat :: (i == 0 || i < TwoExponent(n - 1)) && SquareAt(n, a, i) == n - 1
  }

  // Once a square is 1, all later ones are.
  lemma {:induction false} OneStaysOne(n: int, a: int, i: nat, k: nat)
    requires n >= 2 && i <= k && SquareAt(n, a, i) == 1
    ensures SquareAt(n, a, k) == 1
    decreases k - i
  {
    if i < k {
      SquareNext(n, a, i);
      ModSmall(1, n);
      OneStaysOne(n, a, i + 1, k);
    }
  }

  // From a square that is 1, walk back to the start or to a -1.
  lemma {:induction false} WalkBack(n: int, a: int, i: nat)
    requires Prime(n) && i <= TwoExponent(n - 1) && SquareAt(n, a, i) == 1
    ensures StrongProbablePrime(n, a)
  {
    if i > 0 {
      SquareNext(n, a, i - 1);
      SquareRootOfOne(SquareAt(n, a, i - 1), n);
      if SquareAt(n, a, i - 1) == 1 {
        WalkBack(n, a, i - 1);
      }
    }
  }

  // A prime passes the test to every base it does not divide.
  lemma PrimeIsStrongProbable(n: int, a: nat)
    requires Prime(n) && !Dvd(n, a)
    ensures StrongProbablePrime(n, a)
  {
    FermatLittle(a, n);
    OddPartTimesPower(n - 1);
    WalkBack(n, a, TwoExponent(n - 1));
  }

  // ---------- the Miller-Rabin test ----------

  ghost predicate NoneBefore(n: int, a: int, i: nat)
    requires n >= 2
  {
    forall k: nat :: k < i ==> SquareAt(n, a, k) != 1 && SquareAt(n, a, k) != n - 1
  }

  // Meeting 1 first, or no -1 in time, fails the test.
  lemma Fails(n: int, a: int, i: nat)
    requires n >= 2 && i >= 1 && NoneBefore(n, a, i)
    requires SquareAt(n, a, i) == 1 || i >= TwoExponent(n - 1)
    ensures !StrongProbablePrime(n, a)
  {
    hide SquareAt;
    assert TwoExponent(1) == 0;
    forall k: nat | k == 0 || k < TwoExponent(n - 1) ensures SquareAt(n, a, k) != n - 1 {
      if k >= i { OneStaysOne(n, a, i, k); }
    }
  }

  // One turn of the outer loop of miller_rabin_test, to the base a.
  method MillerRabinRound(n: int, a: int, d: int, s: nat) returns (pass: bool)
    requires n >= 2 && d == OddPart(n - 1) && s == TwoExponent(n - 1)
    ensures pass <==> StrongProbablePrime(n, a)
  {
    var p := PMod(a, d, n);
    var r := p.value;
    assert d * Pow(2, 0) == d;
    assert r == SquareAt(n, a, 0);
    hide SquareAt, OddPart;
    if r == 1 || r == n - 1 {
      return true;
    }
    var i := 1;
    while i < s
      invariant 1 <= i && (i <= s || i == 1)
      invariant r == SquareAt(n, a, i - 1)
      invariant NoneBefore(n, a, i)
    {
      SquareNext(n, a, i - 1);
      r := (r * r) % n;
      if r == 1 {
        Fails(n, a, i);
        return false;
      }
      if r == n - 1 {
        return true;
      }
      i := i + 1;
    }
    Fails(n, a, i);
    return false;
  }

  function Rounds(table: seq<int>, t: int): nat {
    if t <= 0 then 0 else if |table| < t then |table| else t
  }

  // n passes the test to each of the first t entries of the table.
  ghost predicate PassesMillerRabin(table: seq<int>, n: int, t: int)
    requires n >= 2
  {
    forall j :: 0 <= j < Rounds(table, t) ==> StrongProbablePrime(n, table[j])
  }

  method MillerRabinTest(table: seq<int>, n: int, t0: int) returns (b: bool)
    requires n >= 2
    ensures b <==> PassesMillerRabin(table, n, t0)
  {
    var d, s, t := n - 1, 0, t0;
    while d % 2 == 0
      invariant d > 0 && s >= 0
      invariant OddPart(d) == OddPart(n - 1) && TwoExponent(d) + s == TwoExponent(n - 1)
      decreases d
    {
      d := d / 2;
      s := s + 1;
    }
    if |table| < t {
      t := |table|;
    }
    var j := 0;
    while j < t
      invariant 0 <= j <= |table| && (j <= t || t < 0)
      invariant forall k :: 0 <= k < j ==> StrongProbablePrime(n, table[k])
    {
      var pass := MillerRabinRound(n, table[j], d, s);
      if !pass {
        return false;
      }
      j := j + 1;
    }
    return true;
  }

  // ---------- isPrime ----------

  // What Integer.isPrime(n, t) answers, over an exact table of primes.
  ghost predicate IsPrimeAnswer(table: seq<int>, n: int, t: int)
    requires Exact(table)
  {
    var last := table[|table| - 1];
    && n >= 2
    && (n in table
        || ((forall d :: d in table ==> !Dvd(d, n)) && (n < last * last || PassesMillerRabin(table, n, t))))
  }

  method IsPrime(table: seq<int>, n: int, t: int := 64) returns (b: bool)
    requires Exact(table)
    ensures b == IsPrimeAnswer(table, n, t)
  {
    if n <= 1 {
      return false;
    }
    var n1 := |table|;
    var d := 0;
    var i := 0;
    while i < n1
      invariant 0 <= i <= n1
      invariant i > 0 ==> d == table[i - 1]
      invariant forall k :: 0 <= k < i ==> !Dvd(table[k], n) && table[k] != n
    {
      d := table[i];
      assert d in table;
      if d == n {
        return true;
      }
      if d > n {
        BelowTable(table, n);
        return false;
      }
      if n % d == 0 {
        assert n in table ==> !Dvd(d, n);
        return false;
      }
      i := i + 1;
    }
    if n < d * d {
      return true;
    }
    b := MillerRabinTest(table, n, t);
  }

  // A number below the last entry that is not in the table has a divisor in it.
  lemma BelowTable(table: seq<int>, n: int)
    requires Exact(table) && 2 <= n <= table[|table| - 1] && n !in table
    ensures exists d :: d in table && Dvd(d, n)
  {
    var p := SmallPrimeFactor(n);
  }

  // isPrime never rejects a prime, whatever the number of rounds.
  lemma IsPrimeNeverRejects(table: seq<int>, n: int, t: int)
    requires Exact(table) && Prime(n)
    ensures IsPrimeAnswer(table, n, t)
  {
    if n !in table {
      forall d | d in table ensures !Dvd(n, d) && !Dvd(d, n) {
        if Dvd(n, d) { DvdLe(n, d); }
      }
      forall j | 0 <= j < Rounds(table, t) ensures StrongProbablePrime(n, table[j]) {
        assert table[j] in table;
        PrimeIsStrongProbable(n, table[j]);
      }
    }
  }

  // Below the square of the last table entry the answer is exact.
  lemma IsPrimeExact(table: seq<int>, n: int, t: int)
    requires Exact(table) && n < table[|table| - 1] * table[|table| - 1]
    ensures IsPrimeAnswer(table, n, t) <==> Prime(n)
  {
    var last := table[|table| - 1];
    if Prime(n) {
      IsPrimeNeverRejects(table, n, t);
    } else if n >= 2 && n !in table {
      var p := SmallPrimeFactor(n);
      assert last in table;
      MulLe(last, last, p);
      MulLe(p, last, p);
    }
  }

  // ---------- what the test says in terms of powers ----------

  // d << i
  function ShiftLeft(d: nat, i: nat): (r: nat)
    ensures r == d * Pow(2, i)
  {
    PowPos(2, i);
    MulLe(d, 0, Pow(2, i));
    d * Pow(2, i)
  }

  // There is one way to take the factors 2 out.
  lemma {:induction false} OddPartUnique(m: int, d: nat, s: nat)
    requires m > 0 && m == ShiftLeft(d, s) && d % 2 == 1
    ensures d == OddPart(m) && s == TwoExponent(m)
    decreases s
  {
    if s > 0 {
      var p := Pow(2, s - 1);
      MulAssoc(d, 2, p);
      assert m == 2 * ShiftLeft(d, s - 1);
      OddPartUnique(m / 2, d, s - 1);
    }
  }

  lemma SquareIs(n: int, a: int, d: nat, s: nat, i: nat)
    requires n >= 2 && n - 1 == ShiftLeft(d, s) && d % 2 == 1
    ensures SquareAt(n, a, i) == Pow(a, ShiftLeft(d, i)) % n
  {
    OddPartUnique(n - 1, d, s);
    hide OddPart, Pow, ShiftLeft;
  }

  // a^d is 1 modulo n, or some a^(d * 2^i) with i < s is -1.
  ghost predicate Meets(n: int, a: int, d: nat, s: nat)
    requires n >= 2
  {
    Pow(a, d) % n == 1 || exists i: nat :: i < s && Pow(a, ShiftLeft(d, i)) % n == n - 1
  }

  // That is what an odd n has to meet to pass to base a.
  lemma StrongMeans(n: int, a: int, d: nat, s: nat)
    requires n >= 3 && n % 2 == 1 && n - 1 == ShiftLeft(d, s) && d % 2 == 1
    ensures StrongProbablePrime(n, a) <==> Meets(n, a, d, s)
  {
    hide SquareAt, Pow, OddPart, TwoExponent, ShiftLeft;
    OddPartUnique(n - 1, d, s);
    ShiftNone(d, s, n - 1);
    SquareIs(n, a, d, s, 0);
    if i: nat :| (i == 0 || i < s) && SquareAt(n, a, i) == n - 1 { SquareIs(n, a, d, s, i); }
    if i: nat :| i < s && Pow(a, ShiftLeft(d, i)) % n == n - 1 { SquareIs(n, a, d, s, i); }
  }

  lemma ShiftNone(d: nat, s: nat, m: int)
    requires m == ShiftLeft(d, s) && m % 2 == 0 && d % 2 == 1
    ensures ShiftLeft(d, 0) == d && s > 0
  {
    assert Pow(2, 0) == 1;
  }

  // What passes to base a passes the test of Fermat's theorem to that base.
  lemma StrongIsFermat(n: int, a: int)
    requires n >= 3 && n % 2 == 1 && StrongProbablePrime(n, a)
    ensures Pow(a, n - 1) % n == 1
  {
    var s := TwoExponent(n - 1);
    OddPartTimesPower(n - 1);
    assert s > 0;
    assert SquareAt(n, a, s) == Pow(a, n - 1) % n;
    hide SquareAt, Pow, OddPart, TwoExponent;
    if SquareAt(n, a, 0) == 1 {
      OneStaysOne(n, a, 0, s);
    } else {
      var i: nat :| (i == 0 || i < s) && SquareAt(n, a, i) == n - 1;
      SquareNext(n, a, i);
      MinusOneSquared(n);
      OneStaysOne(n, a, i + 1, s);
    }
  }

  lemma MinusOneSquared(n: int)
    requires n >= 2
    ensures ((n - 1) * (n - 1)) % n == 1
  {
    assert (n - 1) * (n - 1) == 1 + (n - 2) * n;
    ModShift(1, n - 2, n);
    ModSmall(1, n);
  }

  // From the square of the last table entry on, isPrime accepts exactly the numbers without
  // a divisor in the table that meet the condition to each of the first t entries.
  lemma AnswerMeans(table: seq<int>, n: int, t: int, d: nat, s: nat)
    requires Exact(table) && n >= table[|table| - 1] * table[|table| - 1] && n >= 2
    requires n - 1 == ShiftLeft(d, s) && d % 2 == 1
    ensures IsPrimeAnswer(table, n, t) <==>
      (forall p :: p in table ==> !Dvd(p, n)) && forall j :: 0 <= j < |table| && j < t ==> Meets(n, table[j], d, s)
  {
    NotInTable(table, n);
    if forall p :: p in table ==> !Dvd(p, n) {
      OddAbove(table, n);
      hide StrongProbablePrime, Meets, Pow, Exact, ShiftLeft;
      forall j | 0 <= j < |table| && j < t ensures StrongProbablePrime(n, table[j]) <==> Meets(n, table[j], d, s) {
        StrongMeans(n, table[j], d, s);
      }
    }
  }

  // The same in terms of powers alone.
  lemma AnswerIsPowers(table: seq<int>, n: int, t: int, d: nat, s: nat)
    requires Exact(table) && n >= table[|table| - 1] * table[|table| - 1] && n >= 2
    requires n - 1 == ShiftLeft(d, s) && d % 2 == 1
    ensures IsPrimeAnswer(table, n, t) <==>
      && (forall p :: p in table ==> !Dvd(p, n))
      && forall j :: 0 <= j < |table| && j < t ==>
           || Pow(table[j], d) % n == 1
           || exists i: nat :: i < s && Pow(table[j], ShiftLeft(d, i)) % n == n - 1
  {
    hide Exact, IsPrimeAnswer, Pow, ShiftLeft, Meets, Dvd;
    AnswerMeans(table, n, t, d, s);
    forall j | 0 <= j < |table| && j < t
      ensures Meets(n, table[j], d, s) <==>
        || Pow(table[j], d) % n == 1
        || exists i: nat :: i < s && Pow(table[j], ShiftLeft(d, i)) % n == n - 1
    {
      MeetsIs(n, table[j], d, s);
    }
  }

  lemma MeetsIs(n: int, a: int, d: nat, s: nat)
    requires n >= 2
    ensures Meets(n, a, d, s) <==>
      Pow(a, d) % n == 1 || exists i: nat :: i < s && Pow(a, ShiftLeft(d, i)) % n == n - 1
  {
  }

  lemma NotInTable(table: seq<int>, n: int)
    requires Exact(table) && n >= table[|table| - 1] * table[|table| - 1]
    ensures n !in table && n >= 3
  {
    TableStarts(table);
    var last := table[|table| - 1];
    MulLe(last, 2, last);
  }

  lemma OddAbove(table: seq<int>, n: int)
    requires Exact(table) && forall p :: p in table ==> !Dvd(p, n)
    ensures n % 2 == 1
  {
    TableStarts(table);
    assert !Dvd(2, n);
  }

  lemma TableStarts(table: seq<int>)
    requires Exact(table)
    ensures 2 in table && table[|table| - 1] >= 2
  {
    assert table[|table| - 1] in table;
    assert Prime(2);
  }

  lemma AnswerIsFermat(table: seq<int>, n: int, t: int)
    requires Exact(table) && n >= table[|table| - 1] * table[|table| - 1] && IsPrimeAnswer(table, n, t)
    ensures forall j :: 0 <= j < |table| && j < t ==> Pow(table[j], n - 1) % n == 1
  {
    NotInTable(table, n);
    OddAbove(table, n);
    hide StrongProbablePrime, Pow, Exact;
    forall j | 0 <= j < |table| && j < t ensures Pow(table[j], n - 1) % n == 1 { StrongIsFermat(n, table[j]); }
  }

  // The test as the source runs it, over its own table of 95 primes. n - 1 is d * 2^s.
  method IsPrimeInteger(n: int, t: int := 64) returns (b: bool, ghost d: nat, ghost s: nat)
    ensures Prime(n) ==> b
    ensures n < 499 * 499 ==> (b <==> Prime(n))
    ensures n >= 2 ==> n - 1 == d * Pow(2, s) && d % 2 == 1
    ensures n >= 499 * 499 ==> (b <==>
      && (forall p :: p in SMALL_PRIMES ==> !Dvd(p, n))
      && forall j :: 0 <= j < |SMALL_PRIMES| && j < t ==>
           || Pow(SMALL_PRIMES[j], d) % n == 1
           || exists i: nat :: i < s && Pow(SMALL_PRIMES[j], ShiftLeft(d, i)) % n == n - 1)
    ensures n >= 499 * 499 && b ==>
      forall j :: 0 <= j < |SMALL_PRIMES| && j < t ==> Pow(SMALL_PRIMES[j], n - 1) % n == 1
  {
    hide Exact, IsPrimeAnswer, Pow, OddPart, TwoExponent, ShiftLeft;
    SmallPrimesExact();
    b := IsPrime(SMALL_PRIMES, n, t);
    if Prime(n) { IsPrimeNeverRejects(SMALL_PRIMES, n, t); }
    d, s := 0, 0;
    if n >= 2 {
      d, s := OddPart(n - 1), TwoExponent(n - 1);
      OddPartTimesPower(n - 1);
    }
    if n < 499 * 499 {
      IsPrimeExact(SMALL_PRIMES, n, t);
    } else {
      AnswerIsPowers(SMALL_PRIMES, n, t, d, s);
      if b { AnswerIsFermat(SMALL_PRIMES, n, t); }
    }
  }

  // ---------- a product of two primes above the table ----------

  lemma TimesNext(k: nat, m: nat)
    ensures (k + 1) * m == m + k * m && k * m >= 0
  {
    MulLe(m, 0, k);
  }

  lemma PowNone(a: int, p: int)
    requires p > 1
    ensures Pow(a, 0) % p == 1
  {
    ModSmall(1, p);
  }

  // Powers of a power that is 1 modulo p; e is k * m.
  lemma {:induction false} PowRepeat(a: int, m: nat, k: nat, e: nat, p: int)
    requires p > 1 && Pow(a, m) % p == 1 && e == k * m
    ensures Pow(a, e) % p == 1
    decreases k
  {
    hide Pow;
    if k == 0 {
      PowNone(a, p);
    } else {
      TimesNext(k - 1, m);
      PowRepeat(a, m, k - 1, e - m, p);
      PowAdd(a, m, e - m);
      ModSmall(1, p);
      ModMulCong(Pow(a, m), 1, Pow(a, e - m), p);
    }
  }

  lemma Prime503()
    ensures Prime(503) && Prime(509)
  {
    NextSieved(503);
    NextSieved(509);
  }

  lemma NextSieved(n: int)
    requires 2 <= n < 23 * 23 && Sieved(n)
    ensures Prime(n)
  {
    if !Prime(n) {
      var p := SmallPrimeFactor(n);
      MulLe(23, 23, p);
      MulLe(p, 23, p);
      PrimeIsSieved(p);
      SievedBelow23(p);
    }
  }

  // 2^256026 is 64 modulo 503, because 256026 is 510 * 502 + 6.
  lemma PowerOfTwo(e: nat)
    requires e == 256026
    ensures Pow(2, e) % 503 == 64
  {
    Prime503();
    hide Pow, Prime;
    var m: nat, k: nat, r: nat := 502, 510, 6;
    FermatLittle(2, m + 1);
    PowRepeat(2, m, k, k * m, 503);
    PowAdd(2, k * m, r);
    ModMulCong(Pow(2, k * m), 1, Pow(2, r), 503);
    PowSix(r);
  }

  lemma PowSix(r: nat)
    requires r == 6
    ensures Pow(2, r) == 64
  {
    assert Pow(2, r - 3) == 8;
  }

  // isPrime rejects 256027, which is 503 * 509.
  lemma RejectsProduct(table: seq<int>, n: int, t: int)
    requires Exact(table) && table[|table| - 1] == 499 && n == 256027 && t >= 1
    ensures !IsPrimeAnswer(table, n, t)
  {
    if IsPrimeAnswer(table, n, t) {
      AnswerIsFermat(table, n, t);
      FirstIsTwo(table);
      hide Pow, IsPrimeAnswer, Exact;
      PowerOfTwo(n - 1);
      OneModulo503(Pow(2, n - 1));
    }
  }

  lemma OneModulo503(y: int)
    requires y % 256027 == 1
    ensures y % 503 == 1
  {
    var k := 509 * (y / 256027);
    ModShift(1, k, 503);
    assert y == 1 + k * 503;
  }

  lemma FirstIsTwo(table: seq<int>)
    requires Exact(table)
    ensures table[0] == 2
  {
    TableStarts(table);
    assert table[0] in table;
    var k :| 0 <= k < |table| && table[k] == 2;
  }

  // ---------- factor ----------

  function ProductOf(s: seq<int>): int {
    if s == [] then 1 else ProductOf(s[..|s| - 1]) * s[|s| - 1]
  }

  predicate Nondecreasing(s: seq<int>) {
    forall i, j :: 0 <= i < j < |s| ==> s[i] <= s[j]
  }

  // Nothing between 2 and d - 1 divides n.
  ghost predicate NoDivisorBefore(n: int, d: int) {
    forall e :: 2 <= e < d ==> !Dvd(e, n)
  }

  // The factors found so far, all of them prime and at most d.
  ghost predicate Found(fs: seq<int>, d: int) {
    Nondecreasing(fs) && forall i :: 0 <= i < |fs| ==> Prime(fs[i]) && fs[i] <= d
  }

  // What Integer.factor returns for n: the sign, then factors in order, prime
  // but perhaps for a last one that isPrime accepts.
  ghost predicate Factorization(table: seq<int>, n: int, r: seq<int>)
    requires Exact(table)
  {
    && ProductOf(r) == n
    && (-1 <= n <= 1 ==> r == [n])
    && (n < -1 || n > 1 ==>
        exists fs :: r == (if n < 0 then [-1] else []) + fs && FactorsInOrder(table, fs))
  }

  ghost predicate FactorsInOrder(table: seq<int>, fs: seq<int>)
    requires Exact(table)
  {
    && fs != [] && Nondecreasing(fs)
    && (forall i :: 0 <= i < |fs| - 1 ==> Prime(fs[i]))
    && (Prime(fs[|fs| - 1]) || IsPrimeAnswer(table, fs[|fs| - 1], 64))
  }

  lemma DivideOut(N: int, fs: seq<int>, n: int, d: int)
    requires ProductOf(fs) * n == N && d > 0 && n % d == 0
    ensures ProductOf(fs + [d]) * (n / d) == N
  {
    assert (fs + [d])[..|fs|] == fs;
    assert n == d * (n / d);
    MulAssoc(ProductOf(fs), d, n / d);
  }

  lemma ExtendFound(fs: seq<int>, d: int, p: int)
    requires Found(fs, d) && Prime(p) && d <= p
    ensures Found(fs + [p], p)
  {
  }

  // Dividing keeps the divisors away.
  lemma QuotientKeeps(n: int, d: int, p: int)
    requires n > 0 && p > 0 && n % p == 0 && NoDivisorBefore(n, d)
    ensures n / p > 0 && NoDivisorBefore(n / p, d)
    ensures p >= 2 ==> n / p < n
  {
    var q := n / p;
    assert n == p * q;
    MulLe(p, q, 0);
    MulLe(q, 2, p);
    forall e | 2 <= e < d ensures !Dvd(e, q) {
      if Dvd(e, q) { DvdMul(e, q, p); }
    }
  }

  // A divisor with none before it is prime.
  lemma LeastIsPrime(n: int, d: int)
    requires d >= 2 && Dvd(d, n) && NoDivisorBefore(n, d)
    ensures Prime(d)
  {
    forall e | 2 <= e < d ensures !Dvd(e, d) {
      if Dvd(e, d) { DvdTrans(e, d, n); }
    }
  }

  // An odd number has no even divisor, so the search may step by two.
  lemma SkipEven(n: int, d: int)
    requires n > 0 && n % 2 == 1 && d >= 2 && d % 2 == 1
    requires NoDivisorBefore(n, d) && !Dvd(d, n)
    ensures NoDivisorBefore(n, d + 2)
    ensures n > 1 ==> d + 2 <= n
  {
    assert d + 1 == 2 * ((d + 1) / 2);
    DvdIntro(2, (d + 1) / 2);
    if Dvd(d + 1, n) { DvdTrans(2, d + 1, n); }
    DvdIntro(n, 1);
  }

  lemma DividesItself(n: int, d: int)
    requires n >= 2 && NoDivisorBefore(n, d)
    ensures d <= n
  {
    DvdIntro(n, 1);
  }

  // n is what is left of N after the factors fs, with no divisor below d.
  ghost predicate Left(N: int, fs: seq<int>, n: int, d: int) {
    n > 0 && NoDivisorBefore(n, d) && Found(fs, d) && ProductOf(fs) * n == N
  }

  lemma DivideStep(N: int, fs: seq<int>, n: int, d: int)
    requires d >= 2 && Left(N, fs, n, d) && Dvd(d, n)
    ensures Left(N, fs + [d], n / d, d) && n / d < n && Dvd(n / d, n)
  {
    LeastIsPrime(n, d);
    DivideOut(N, fs, n, d);
    ExtendFound(fs, d, d);
    QuotientKeeps(n, d, d);
    QuotientDivides(n, d);
  }

  lemma QuotientDivides(n: int, d: int)
    requires d > 0 && n > 0 && n % d == 0 && n / d > 0
    ensures Dvd(n / d, n)
  {
    var q := n / d;
    DvdIntro(q, d);
    assert n == q * d;
  }

  // The innermost loop of factor: divide d out of n, once at least.
  method DivideAll(fs0: seq<int>, n0: int, d: int, ghost N: int) returns (fs: seq<int>, n: int)
    requires d >= 2 && Dvd(d, n0) && Left(N, fs0, n0, d)
    ensures Left(N, fs, n, d) && fs != [] && n < n0 && !Dvd(d, n) && Dvd(n, n0)
  {
    fs, n := fs0, n0;
    DvdIntro(n0, 1);
    while true
      invariant n <= n0 && Dvd(d, n) && Dvd(n, n0) && Left(N, fs, n, d)
      decreases n
    {
      DivideStep(N, fs, n, d);
      DvdTrans(n / d, n, n0);
      fs := fs + [d];
      n := n / d;
      if n % d != 0 {
        break;
      }
    }
  }

  // Integer.factor on the absolute value of its argument, if that is 2 or more.
  method FactorPositive(table: seq<int>, n0: int) returns (fs: seq<int>)
    requires Exact(table) && n0 >= 2
    ensures ProductOf(fs) == n0 && FactorsInOrder(table, fs)
  {
    fs := [];
    var n := n0;
    while n % 2 == 0
      invariant n > 0 && Found(fs, 2) && ProductOf(fs) * n == n0
      invariant n == 1 ==> fs != []
      decreases n
    {
      DivideOut(n0, fs, n, 2);
      ExtendFound(fs, 2, 2);
      n := n / 2;
      fs := fs + [2];
    }
    var d := 3;
    while n != 1
      invariant n > 0 && n % 2 == 1 && d >= 3 && d % 2 == 1
      invariant NoDivisorBefore(n, d) && Found(fs, d) && ProductOf(fs) * n == n0
      invariant n == 1 ==> fs != []
      decreases n
    {
      var prime := IsPrime(table, n);
      DividesItself(n, d);
      if prime {
        DivideOut(n0, fs, n, n);
        return fs + [n];
      }
      while true
        invariant 3 <= d <= n && d % 2 == 1
        invariant NoDivisorBefore(n, d) && Found(fs, d)
        decreases n - d
      {
        if n % d == 0 {
          break;
        }
        SkipEven(n, d);
        d := d + 2;
      }
      ghost var m := n;
      fs, n := DivideAll(fs, n, d, n0);
      if Dvd(2, n) { DvdTrans(2, n, m); }
    }
  }

  method Factor(table: seq<int>, n: int) returns (r: seq<int>)
    requires Exact(table)
    ensures Factorization(table, n, r)
  {
    if -1 <= n <= 1 {
      assert ProductOf([n]) == ProductOf([]) * n;
      return [n];
    }
    var sign, m := [], n;
    if n < 0 {
      sign := [-1];
      m := -n;
    }
    var fs := FactorPositive(table, m);
    ProductAppend(sign, fs);
    assert n < 0 ==> ProductOf([-1]) == ProductOf([]) * -1;
    r := sign + fs;
  }

  lemma {:induction false} ProductAppend(a: seq<int>, b: seq<int>)
    ensures ProductOf(a + b) == ProductOf(a) * ProductOf(b)
  {
    if b == [] {
      assert a + b == a;
    } else {
      var c, x := b[..|b| - 1], b[|b| - 1];
      ProductAppend(a, c);
      assert (a + b)[..|a + b| - 1] == a + c;
      MulAssoc(ProductOf(a), ProductOf(c), x);
    }
  }

  // Below the square of the last table entry every factor is truly prime.
  lemma SmallFactorsPrime(table: seq<int>, fs: seq<int>)
    requires Exact(table) && FactorsInOrder(table, fs)
    requires ProductOf(fs) < table[|table| - 1] * table[|table| - 1]
    ensures forall i :: 0 <= i < |fs| ==> Prime(fs[i])
  {
    var k := |fs| - 1;
    ProductAtLeastOne(fs[..k]);
    MulLe(fs[k], 1, ProductOf(fs[..k]));
    IsPrimeExact(table, fs[k], 64);
  }

  // ---------- the factors are unique ----------

  lemma {:induction false} PrimeInProduct(p: int, fs: seq<int>)
    requires Prime(p) && (forall i :: 0 <= i < |fs| ==> Prime(fs[i])) && Dvd(p, ProductOf(fs))
    ensures p in fs
  {
    if fs == [] {
      DvdLe(p, 1);
    } else {
      var h, q := fs[..|fs| - 1], fs[|fs| - 1];
      ProductAtLeastOne(h);
      PrimeDividesProduct(p, ProductOf(h), q);
      if Dvd(p, q) {
        DvdLe(p, q);
      } else {
        PrimeInProduct(p, h);
      }
    }
  }

  lemma LastDivides(fs: seq<int>)
    requires fs != []
    ensures Dvd(fs[|fs| - 1], ProductOf(fs))
  {
    var h, q := fs[..|fs| - 1], fs[|fs| - 1];
    assert ProductOf(fs) == q * ProductOf(h);
    DvdIntro(q, ProductOf(h));
  }

  // The last of the factors is at least as large as the last of any others.
  lemma LastAtMost(a: seq<int>, b: seq<int>)
    requires (forall i :: 0 <= i < |a| ==> Prime(a[i])) && (forall i :: 0 <= i < |b| ==> Prime(b[i]))
    requires Nondecreasing(b) && ProductOf(a) == ProductOf(b) && a != []
    ensures b != [] && a[|a| - 1] <= b[|b| - 1]
  {
    LastDivides(a);
    PrimeInProduct(a[|a| - 1], b);
  }

  // A number has one list of prime factors in order.
  lemma {:induction false} FactorsUnique(a: seq<int>, b: seq<int>)
    requires (forall i :: 0 <= i < |a| ==> Prime(a[i])) && (forall i :: 0 <= i < |b| ==> Prime(b[i]))
    requires Nondecreasing(a) && Nondecreasing(b) && ProductOf(a) == ProductOf(b)
    ensures a == b
  {
    if a == [] && b == [] {
    } else if a == [] {
      LastAtMost(b, a);
    } else {
      LastAtMost(a, b);
      LastAtMost(b, a);
      var g, h, p := a[..|a| - 1], b[..|b| - 1], a[|a| - 1];
      SameFactor(ProductOf(g), ProductOf(h), p);
      FactorsUnique(g, h);
      assert a == g + [p] && b == h + [p];
    }
  }

  lemma SameFactor(x: int, y: int, p: int)
    requires p >= 2 && x * p == y * p
    ensures x == y
  {
    assert p * x == p * y;
    CancelFactor(p, x, y);
  }

  // So factor(256027) is [503, 509].
  lemma FactorsProduct(table: seq<int>, fs: seq<int>)
    requires Exact(table) && table[|table| - 1] == 499 && FactorsInOrder(table, fs) && ProductOf(fs) == 256027
    ensures fs == [503, 509]
  {
    LastFactorPrime(table, fs);
    Prime503();
    var pair := [503, 509];
    ProductOfPair(pair);
    hide Exact, IsPrimeAnswer, ProductOf;
    FactorsUnique(fs, pair);
  }

  lemma LastFactorPrime(table: seq<int>, fs: seq<int>)
    requires Exact(table) && table[|table| - 1] == 499 && FactorsInOrder(table, fs) && ProductOf(fs) == 256027
    ensures Prime(fs[|fs| - 1])
  {
    var h, q := fs[..|fs| - 1], fs[|fs| - 1];
    ProductAtLeastOne(h);
    assert ProductOf(h) * q == 256027;
    hide ProductOf;
    if q < 499 * 499 {
      IsPrimeExact(table, q, 64);
    } else {
      OneFactor(ProductOf(h), q);
      RejectsProduct(table, q, 64);
    }
  }

  lemma OneFactor(x: int, q: int)
    requires x >= 1 && q >= 499 * 499 && x * q == 256027
    ensures q == 256027
  {
    if x >= 2 { MulLe(q, 2, x); }
  }

  lemma ProductOfPair(pair: seq<int>)
    requires pair == [503, 509]
    ensures ProductOf(pair) == 256027
  {
    assert pair[..1] == [503] && pair[..1][..0] == [];
    assert ProductOf(pair[..1]) == 1 * 503;
  }

  lemma {:induction false} ProductAtLeastOne(fs: seq<int>)
    requires forall i :: 0 <= i < |fs| ==> Prime(fs[i])
    ensures ProductOf(fs) >= 1
  {
    if fs != [] {
      ProductAtLeastOne(fs[..|fs| - 1]);
      MulLe(ProductOf(fs[..|fs| - 1]), 1, fs[|fs| - 1]);
    }
  }

  // ---------- factorials and binomial coefficients ----------

  // fact_rec: a * (a + 1) * ... * b, in halves of similar size.
  method FactRec(a: int, b: int) returns (r: int)
    requires a <= b
    ensures r == Product(a, b)
    decreases b - a
  {
    if b - a <= 5 {
      r := a;
      assert Product(a, a - 1) == 1;
      var i := a + 1;
      while i <= b
        invariant a + 1 <= i <= b + 1 && r == Product(a, i - 1)
      {
        r := r * i;
        i := i + 1;
      }
    } else {
      var i := (a + b) / 2;
      var x := FactRec(a, i);
      var y := FactRec(i + 1, b);
      ProductSplit(a, i, b);
      r := x * y;
    }
  }

  // Integer.comb is the entry of Pascal's triangle, for all integers.
  method Comb(n: int, k0: int) returns (r: int)
    ensures r == Binomial(n, k0)
  {
    var k := k0;
    if k < 0 || k > n {
      return 0;
    }
    BinomialSymmetric(n, k);
    if k > n - k {
      k := n - k;
    }
    if k == 0 {
      return 1;
    }
    var x := FactRec(n - k + 1, n);
    var y := FactRec(1, k);
    FallingProduct(n, k);
    ProductPositive(1, k);
    ModUnique(Binomial(n, k), 0, y);
    r := x / y;
  }
}
