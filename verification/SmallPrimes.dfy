// The table of small primes of qjscalc.js, and why it is exact.
module SmallPrimes {
  import opened Arithmetic

  const BLOCK0: seq<int> := [2, 3, 5, 7, 11, 13, 17, 19]
  const BLOCK1: seq<int> := [23, 29, 31, 37, 41, 43, 47, 53]
  const BLOCK2: seq<int> := [59, 61, 67, 71, 73, 79, 83, 89]
  const BLOCK3: seq<int> := [97, 101, 103, 107, 109, 113, 127, 131]
  const BLOCK4: seq<int> := [137, 139, 149, 151, 157, 163, 167, 173]
  const BLOCK5: seq<int> := [179, 181, 191, 193, 197, 199, 211, 223]
  const BLOCK6: seq<int> := [227, 229, 233, 239, 241, 251, 257, 263]
  const BLOCK7: seq<int> := [269, 271, 277, 281, 283, 293, 307, 311]
  const BLOCK8: seq<int> := [313, 317, 331, 337, 347, 349, 353, 359]
  const BLOCK9: seq<int> := [367, 373, 379, 383, 389, 397, 401, 409]
  const BLOCK10: seq<int> := [419, 421, 431, 433, 439, 443, 449, 457]
  const BLOCK11: seq<int> := [461, 463, 467, 479, 487, 491, 499]

  const SMALL_PRIMES: seq<int> :=
    BLOCK0 + BLOCK1 + BLOCK2 + BLOCK3 + BLOCK4 + BLOCK5 + BLOCK6 + BLOCK7 + BLOCK8 + BLOCK9 + BLOCK10
    + BLOCK11

  const LAST_PRIME := 499

  // No prime up to 19 divides n, other than n itself. Below 23 * 23 this is primality.
  predicate Sieved(n: int) {
    && (n % 2 != 0 || n == 2) && (n % 3 != 0 || n == 3) && (n % 5 != 0 || n == 5)
    && (n % 7 != 0 || n == 7) && (n % 11 != 0 || n == 11) && (n % 13 != 0 || n == 13)
    && (n % 17 != 0 || n == 17) && (n % 19 != 0 || n == 19)
  }

  predicate Increasing(s: seq<int>) {
    forall i, j :: 0 <= i < j < |s| ==> s[i] < s[j]
  }

  // s lists exactly the sieved numbers of lo..hi, in order.
  ghost predicate Lists(s: seq<int>, lo: int, hi: int) {
    Increasing(s) && forall n :: n in s <==> lo <= n <= hi && Sieved(n)
  }

  lemma ListsJoin(a: seq<int>, b: seq<int>, lo: int, mid: int, hi: int)
    requires lo <= mid <= hi && Lists(a, lo, mid) && Lists(b, mid + 1, hi)
    ensures Lists(a + b, lo, hi)
  {
    var s := a + b;
    forall i, j | 0 <= i < j < |s| ensures s[i] < s[j] {
      assert i < |a| ==> s[i] in a;
      assert j >= |a| ==> s[j] in b;
    }
  }

  // The assertions below name the numbers of each range that are prime to 30.

  lemma Block0()
    ensures Lists(BLOCK0, 2, 19)
  {
    forall n ensures n in BLOCK0 <==> 2 <= n <= 19 && Sieved(n) {
      if 2 <= n <= 19 && n % 2 != 0 && n % 3 != 0 && n % 5 != 0 {
        assert n == 7 || n == 11 || n == 13 || n == 17 || n == 19;
      }
    }
  }

  lemma Block1()
    ensures Lists(BLOCK1, 20, 53)
  {
    forall n ensures n in BLOCK1 <==> 20 <= n <= 53 && Sieved(n) {
      if 20 <= n <= 53 && n % 2 != 0 && n % 3 != 0 && n % 5 != 0 {
        assert n == 23 || n == 29 || n == 31 || n == 37 || n == 41 || n == 43 || n == 47 || n == 49 || n == 53;
      }
    }
  }

  lemma Block2()
    ensures Lists(BLOCK2, 54, 89)
  {
    forall n ensures n in BLOCK2 <==> 54 <= n <= 89 && Sieved(n) {
      if 54 <= n <= 89 && n % 2 != 0 && n % 3 != 0 && n % 5 != 0 {
        assert n == 59 || n == 61 || n == 67 || n == 71 || n == 73 || n == 77 || n == 79 || n == 83 || n == 89;
      }
    }
  }

  lemma Block3()
    ensures Lists(BLOCK3, 90, 131)
  {
    forall n ensures n in BLOCK3 <==> 90 <= n <= 131 && Sieved(n) {
      if 90 <= n <= 131 && n % 2 != 0 && n % 3 != 0 && n % 5 != 0 {
        assert n == 91 || n == 97 || n == 101 || n == 103 || n == 107 || n == 109 || n == 113 || n == 119
          || n == 121 || n == 127 || n == 131;
      }
    }
  }

  lemma Block4()
    ensures Lists(BLOCK4, 132, 173)
  {
    forall n ensures n in BLOCK4 <==> 132 <= n <= 173 && Sieved(n) {
      if 132 <= n <= 173 && n % 2 != 0 && n % 3 != 0 && n % 5 != 0 {
        assert n == 133 || n == 137 || n == 139 || n == 143 || n == 149 || n == 151 || n == 157 || n == 161
          || n == 163 || n == 167 || n == 169 || n == 173;
      }
    }
  }

  lemma Block5()
    ensures Lists(BLOCK5, 174, 223)
  {
    forall n ensures n in BLOCK5 <==> 174 <= n <= 223 && Sieved(n) {
      if 174 <= n <= 223 && n % 2 != 0 && n % 3 != 0 && n % 5 != 0 {
        assert n == 179 || n == 181 || n == 187 || n == 191 || n == 193 || n == 197 || n == 199 || n == 203
          || n == 209 || n == 211 || n == 217 || n == 221 || n == 223;
      }
    }
  }

  lemma Block6()
    ensures Lists(BLOCK6, 224, 263)
  {
    forall n ensures n in BLOCK6 <==> 224 <= n <= 263 && Sieved(n) {
      if 224 <= n <= 263 && n % 2 != 0 && n % 3 != 0 && n % 5 != 0 {
        assert n == 227 || n == 229 || n == 233 || n == 239 || n == 241 || n == 247 || n == 251 || n == 253
          || n == 257 || n == 259 || n == 263;
      }
    }
  }

  lemma Block7()
    ensures Lists(BLOCK7, 264, 311)
  {
    forall n ensures n in BLOCK7 <==> 264 <= n <= 311 && Sieved(n) {
      if 264 <= n <= 311 && n % 2 != 0 && n % 3 != 0 && n % 5 != 0 {
        assert n == 269 || n == 271 || n == 277 || n == 281 || n == 283 || n == 287 || n == 289 || n == 293
          || n == 299 || n == 301 || n == 307 || n == 311;
      }
    }
  }

  lemma Block8()
    ensures Lists(BLOCK8, 312, 359)
  {
    forall n ensures n in BLOCK8 <==> 312 <= n <= 359 && Sieved(n) {
      if 312 <= n <= 359 && n % 2 != 0 && n % 3 != 0 && n % 5 != 0 {
        assert n == 313 || n == 317 || n == 319 || n == 323 || n == 329 || n == 331 || n == 337 || n == 341
          || n == 343 || n == 347 || n == 349 || n == 353 || n == 359;
      }
    }
  }

  lemma Block9()
    ensures Lists(BLOCK9, 360, 409)
  {
    forall n ensures n in BLOCK9 <==> 360 <= n <= 409 && Sieved(n) {
      if 360 <= n <= 409 && n % 2 != 0 && n % 3 != 0 && n % 5 != 0 {
        assert n == 361 || n == 367 || n == 371 || n == 373 || n == 377 || n == 379 || n == 383 || n == 389
          || n == 391 || n == 397 || n == 401 || n == 403 || n == 407 || n == 409;
      }
    }
  }

  lemma Block10()
    ensures Lists(BLOCK10, 410, 457)
  {
    forall n ensures n in BLOCK10 <==> 410 <= n <= 457 && Sieved(n) {
      if 410 <= n <= 457 && n % 2 != 0 && n % 3 != 0 && n % 5 != 0 {
        assert n == 413 || n == 419 || n == 421 || n == 427 || n == 431 || n == 433 || n == 437 || n == 439
          || n == 443 || n == 449 || n == 451 || n == 457;
      }
    }
  }

  lemma Block11()
    ensures Lists(BLOCK11, 458, 499)
  {
    forall n ensures n in BLOCK11 <==> 458 <= n <= 499 && Sieved(n) {
      if 458 <= n <= 499 && n % 2 != 0 && n % 3 != 0 && n % 5 != 0 {
        assert n == 461 || n == 463 || n == 467 || n == 469 || n == 473 || n == 479 || n == 481 || n == 487
          || n == 491 || n == 493 || n == 497 || n == 499;
      }
    }
  }

  lemma TableIsSieved()
    ensures Lists(SMALL_PRIMES, 2, LAST_PRIME)
  {
    Block0();
    var t := BLOCK0;
    Block1(); ListsJoin(t, BLOCK1, 2, 19, 53); t := t + BLOCK1;
    Block2(); ListsJoin(t, BLOCK2, 2, 53, 89); t := t + BLOCK2;
    Block3(); ListsJoin(t, BLOCK3, 2, 89, 131); t := t + BLOCK3;
    Block4(); ListsJoin(t, BLOCK4, 2, 131, 173); t := t + BLOCK4;
    Block5(); ListsJoin(t, BLOCK5, 2, 173, 223); t := t + BLOCK5;
    Block6(); ListsJoin(t, BLOCK6, 2, 223, 263); t := t + BLOCK6;
    Block7(); ListsJoin(t, BLOCK7, 2, 263, 311); t := t + BLOCK7;
    Block8(); ListsJoin(t, BLOCK8, 2, 311, 359); t := t + BLOCK8;
    Block9(); ListsJoin(t, BLOCK9, 2, 359, 409); t := t + BLOCK9;
    Block10(); ListsJoin(t, BLOCK10, 2, 409, 457); t := t + BLOCK10;
    Block11(); ListsJoin(t, BLOCK11, 2, 457, 499); t := t + BLOCK11;
  }

  lemma PrimeIsSieved(n: int)
    requires Prime(n)
    ensures Sieved(n)
  {
    DvdAsMod(n, 2); DvdAsMod(n, 3); DvdAsMod(n, 5); DvdAsMod(n, 7);
    DvdAsMod(n, 11); DvdAsMod(n, 13); DvdAsMod(n, 17); DvdAsMod(n, 19);
  }

  lemma DvdAsMod(n: int, d: int)
    requires Prime(n) && d >= 2
    ensures n % d != 0 || n == d
  {
    if n % d == 0 {
      assert Dvd(d, n);
      DvdLe(d, n);
    }
  }

  lemma SievedBelow23(p: int)
    requires 2 <= p < 23 && Sieved(p)
    ensures p == 2 || p == 3 || p == 5 || p == 7 || p == 11 || p == 13 || p == 17 || p == 19
  {
  }

  lemma SievedIsPrime(n: int)
    requires 2 <= n <= LAST_PRIME && Sieved(n)
    ensures Prime(n)
  {
    if !Prime(n) {
      var p := SmallPrimeFactor(n);
      MulLe(23, 23, p);
      MulLe(p, 23, p);
      PrimeIsSieved(p);
      SievedBelow23(p);
    }
  }

  // What the primality test relies on: the table holds exactly the primes up to
  // its last entry, in order.
  ghost predicate Exact(table: seq<int>) {
    && table != []
    && Increasing(table)
    && forall p :: p in table <==> Prime(p) && p <= table[|table| - 1]
  }

  lemma ListsIsExact(table: seq<int>)
    requires Lists(table, 2, LAST_PRIME) && LAST_PRIME in table
    ensures Exact(table) && table[|table| - 1] == LAST_PRIME
  {
    forall n ensures n in table <==> Prime(n) && n <= LAST_PRIME {
      if Prime(n) {
        PrimeIsSieved(n);
      } else if 2 <= n <= LAST_PRIME && Sieved(n) {
        SievedIsPrime(n);
      }
    }
    assert table[|table| - 1] in table;
  }

  lemma SmallPrimesExact()
    ensures Exact(SMALL_PRIMES) && SMALL_PRIMES[|SMALL_PRIMES| - 1] == LAST_PRIME
  {
    TableIsSieved();
    assert 499 in BLOCK11;
    ListsIsExact(SMALL_PRIMES);
  }
}
