// Formal power series over a field: what the coefficient arrays of polynomials and of
// truncated series stand for.
module Powers {
  import opened Fields

  // The coefficient of each power of X.
  type Power<T> = imap<int, T>

  ghost predicate Total<T>(f: Power<T>) { forall k :: k in f <==> 0 <= k }

  ghost function NextAt<T>(f: Power<T>, k: nat): T
    requires Total(f)
  {
    f[k + 1]
  }

  ghost function Tail<T>(f: Power<T>): (r: Power<T>)
    requires Total(f)
    ensures Total(r)
  {
    imap k | 0 <= k :: NextAt(f, k)
  }

  ghost function Plus<T>(F: Field<T>, f: Power<T>, g: Power<T>): (r: Power<T>)
    requires Total(f) && Total(g)
    ensures Total(r)
  {
    imap k | 0 <= k :: F.add(f[k], g[k])
  }

  ghost function Negated<T>(F: Field<T>, f: Power<T>): (r: Power<T>)
    requires Total(f)
    ensures Total(r)
  {
    imap k | 0 <= k :: F.neg(f[k])
  }

  ghost function Scaled<T>(F: Field<T>, c: T, f: Power<T>): (r: Power<T>)
    requires Total(f)
    ensures Total(r)
  {
    imap k | 0 <= k :: F.mul(c, f[k])
  }

  ghost function MonoAt<T>(F: Field<T>, c: T, i: nat, k: nat): T {
    if k == i then c else F.zero
  }

  // c * X^i
  ghost function Mono<T>(F: Field<T>, c: T, i: nat): (r: Power<T>)
    ensures Total(r)
  {
    imap k | 0 <= k :: MonoAt(F, c, i, k)
  }

  // The coefficient of X^n in the product of f and g.
  ghost function Conv<T>(F: Field<T>, f: Power<T>, g: Power<T>, n: nat): T
    requires Total(f) && Total(g)
    decreases n
  {
    if n == 0 then F.mul(f[0], g[0])
    else F.add(F.mul(f[0], g[n]), Conv(F, Tail(f), g, n - 1))
  }

  ghost function Times<T>(F: Field<T>, f: Power<T>, g: Power<T>): (r: Power<T>)
    requires Total(f) && Total(g)
    ensures Total(r)
  {
    imap k | 0 <= k :: Conv(F, f, g, k)
  }

  // ---------- the product ----------

  lemma ConvStep<T>(F: Field<T>, f: Power<T>, g: Power<T>, n: nat)
    requires Total(f) && Total(g)
    ensures Conv(F, f, g, 0) == F.mul(f[0], g[0])
    ensures n > 0 ==> Conv(F, f, g, n) == F.add(F.mul(f[0], g[n]), Conv(F, Tail(f), g, n - 1))
  {
  }

  // The recursion of the product in its right factor.
  lemma {:induction false} ConvRight<T(!new)>(F: Field<T>, f: Power<T>, g: Power<T>, n: nat)
    requires IsField(F) && Total(f) && Total(g)
    ensures Conv(F, f, g, n + 1) == F.add(F.mul(f[n + 1], g[0]), Conv(F, f, Tail(g), n))
    decreases n
  {
    hide Conv;
    ConvStep(F, f, g, n + 1);
    ConvStep(F, f, Tail(g), n);
    if n == 0 {
      ConvStep(F, Tail(f), g, 0);
      assert Laws(F, F.mul(f[0], g[1]), F.mul(f[1], g[0]), F.zero);
    } else {
      ConvRight(F, Tail(f), g, n - 1);
      var x, y, z := F.mul(f[0], g[n + 1]), F.mul(f[n + 1], g[0]), Conv(F, Tail(f), Tail(g), n - 1);
      assert Laws(F, x, y, z) && Laws(F, y, x, z);
    }
  }

  lemma {:induction false} ConvCommutes<T(!new)>(F: Field<T>, f: Power<T>, g: Power<T>, n: nat)
    requires IsField(F) && Total(f) && Total(g)
    ensures Conv(F, f, g, n) == Conv(F, g, f, n)
    decreases n
  {
    hide Conv;
    ConvStep(F, f, g, n);
    ConvStep(F, g, f, 0);
    assert Laws(F, f[0], g[n], f[0]);
    if n > 0 {
      ConvCommutes(F, Tail(f), g, n - 1);
      ConvRight(F, g, f, n - 1);
    }
  }

  lemma SumTimes<T(!new)>(F: Field<T>, a: T, b: T, c: T)
    requires IsField(F)
    ensures F.mul(F.add(a, b), c) == F.add(F.mul(a, c), F.mul(b, c))
  {
    assert Laws(F, c, a, b) && Laws(F, c, F.add(a, b), c) && Laws(F, a, c, c) && Laws(F, b, c, c);
  }

  lemma TailPlus<T>(F: Field<T>, f: Power<T>, g: Power<T>)
    requires Total(f) && Total(g)
    ensures Tail(Plus(F, f, g)) == Plus(F, Tail(f), Tail(g))
  {
    forall k: nat ensures NextAt(Plus(F, f, g), k) == F.add(Tail(f)[k], Tail(g)[k]) {}
  }

  // One step of it, with the rest of each product named.
  lemma ConvPlusStep<T(!new)>(F: Field<T>, f: Power<T>, g: Power<T>, h: Power<T>, n: nat)
    requires IsField(F) && Total(f) && Total(g) && Total(h) && n > 0
    requires Conv(F, Tail(Plus(F, f, g)), h, n - 1)
          == F.add(Conv(F, Tail(f), h, n - 1), Conv(F, Tail(g), h, n - 1))
    ensures Conv(F, Plus(F, f, g), h, n) == F.add(Conv(F, f, h, n), Conv(F, g, h, n))
  {
    hide Conv, IsField, Tail;
    var a, b, c := f[0], g[0], h[n];
    ConvStep(F, f, h, n);
    ConvStep(F, g, h, n);
    ConvStep(F, Plus(F, f, g), h, n);
    SumTimes(F, a, b, c);
    AddSwap(F, F.mul(a, c), F.mul(b, c), Conv(F, Tail(f), h, n - 1), Conv(F, Tail(g), h, n - 1));
  }

  lemma {:induction false} ConvPlus<T(!new)>(F: Field<T>, f: Power<T>, g: Power<T>, h: Power<T>, n: nat)
    requires IsField(F) && Total(f) && Total(g) && Total(h)
    ensures Conv(F, Plus(F, f, g), h, n) == F.add(Conv(F, f, h, n), Conv(F, g, h, n))
    decreases n
  {
    hide Conv, Tail, IsField;
    if n == 0 {
      ConvStep(F, Plus(F, f, g), h, 0);
      ConvStep(F, f, h, 0);
      ConvStep(F, g, h, 0);
      SumTimes(F, f[0], g[0], h[0]);
    } else {
      TailPlus(F, f, g);
      ConvPlus(F, Tail(f), Tail(g), h, n - 1);
      ConvPlusStep(F, f, g, h, n);
    }
  }

  lemma {:induction false} ConvScaled<T(!new)>(F: Field<T>, c: T, f: Power<T>, g: Power<T>, n: nat)
    requires IsField(F) && Total(f) && Total(g)
    ensures Conv(F, Scaled(F, c, f), g, n) == F.mul(c, Conv(F, f, g, n))
    decreases n
  {
    hide Conv;
    ConvStep(F, f, g, n);
    ConvStep(F, Scaled(F, c, f), g, n);
    assert Laws(F, c, f[0], g[n]);
    if n > 0 {
      assert Tail(Scaled(F, c, f)) == Scaled(F, c, Tail(f));
      ConvScaled(F, c, Tail(f), g, n - 1);
      assert Laws(F, c, F.mul(f[0], g[n]), Conv(F, Tail(f), g, n - 1));
    }
  }

  lemma TailTimes<T>(F: Field<T>, f: Power<T>, g: Power<T>)
    requires Total(f) && Total(g)
    ensures Tail(Times(F, f, g)) == Plus(F, Scaled(F, f[0], Tail(g)), Times(F, Tail(f), g))
  {
    forall k: nat
      ensures Conv(F, f, g, k + 1) == F.add(F.mul(f[0], g[k + 1]), Conv(F, Tail(f), g, k))
    {
      ConvStep(F, f, g, k + 1);
    }
  }

  lemma TimesAt<T>(F: Field<T>, f: Power<T>, g: Power<T>, k: nat)
    requires Total(f) && Total(g)
    ensures Times(F, f, g)[k] == Conv(F, f, g, k)
  {
  }

  lemma TailTimesTimes<T(!new)>(F: Field<T>, f: Power<T>, g: Power<T>, h: Power<T>, n: nat)
    requires IsField(F) && Total(f) && Total(g) && Total(h)
    ensures Conv(F, Tail(Times(F, f, g)), h, n)
         == F.add(F.mul(f[0], Conv(F, Tail(g), h, n)), Conv(F, Times(F, Tail(f), g), h, n))
  {
    hide Conv, IsField;
    TailTimes(F, f, g);
    hide Times, Scaled, Plus, Tail;
    ConvPlus(F, Scaled(F, f[0], Tail(g)), Times(F, Tail(f), g), h, n);
    ConvScaled(F, f[0], Tail(g), h, n);
  }

  lemma AssocLeft<T(!new)>(F: Field<T>, f: Power<T>, g: Power<T>, h: Power<T>, n: nat)
    requires IsField(F) && Total(f) && Total(g) && Total(h) && n > 0
    ensures Conv(F, Times(F, f, g), h, n)
         == F.add(F.mul(F.mul(f[0], g[0]), h[n]),
                  F.add(F.mul(f[0], Conv(F, Tail(g), h, n - 1)), Conv(F, Times(F, Tail(f), g), h, n - 1)))
  {
    hide Conv, IsField, Times, Tail;
    ConvStep(F, f, g, 0);
    TimesAt(F, f, g, 0);
    ConvStep(F, Times(F, f, g), h, n);
    TailTimesTimes(F, f, g, h, n - 1);
  }

  lemma {:induction false} ConvAssoc<T(!new)>(F: Field<T>, f: Power<T>, g: Power<T>, h: Power<T>, n: nat)
    requires IsField(F) && Total(f) && Total(g) && Total(h)
    ensures Conv(F, Times(F, f, g), h, n) == Conv(F, f, Times(F, g, h), n)
    decreases n
  {
    hide Conv, IsField, Times, Tail;
    ConvStep(F, g, h, n);
    ConvStep(F, f, Times(F, g, h), n);
    TimesAt(F, g, h, n);
    AssocArith(F, f[0], g[0], h[n]);
    if n == 0 {
      TimesAt(F, f, g, 0);
      ConvStep(F, f, g, 0);
      ConvStep(F, Times(F, f, g), h, 0);
    } else {
      AssocLeft(F, f, g, h, n);
      ConvAssoc(F, Tail(f), g, h, n - 1);
      SumArith(F, f[0], F.mul(g[0], h[n]), Conv(F, Tail(g), h, n - 1), Conv(F, Tail(f), Times(F, g, h), n - 1));
    }
  }

  lemma SumArith<T(!new)>(F: Field<T>, a: T, x: T, y: T, z: T)
    requires IsField(F)
    ensures F.add(F.mul(a, x), F.add(F.mul(a, y), z)) == F.add(F.mul(a, F.add(x, y)), z)
  {
    assert Laws(F, a, x, y) && Laws(F, F.mul(a, x), F.mul(a, y), z);
  }

  lemma AssocArith<T(!new)>(F: Field<T>, a: T, x: T, y: T)
    requires IsField(F)
    ensures F.mul(F.mul(a, x), y) == F.mul(a, F.mul(x, y))
  {
    assert Laws(F, a, x, y);
  }

  lemma {:induction false} ConvZero<T(!new)>(F: Field<T>, f: Power<T>, g: Power<T>, n: nat)
    requires IsField(F) && Total(f) && Total(g)
    requires forall k: nat :: k <= n ==> f[k] == F.zero
    ensures Conv(F, f, g, n) == F.zero
    decreases n
  {
    hide Conv;
    ConvStep(F, f, g, n);
    MulZero(F, g[n]);
    if n > 0 {
      ConvZero(F, Tail(f), g, n - 1);
      assert Laws(F, F.zero, F.zero, F.zero);
    }
  }

  lemma TailMono<T>(F: Field<T>, c: T, i: nat)
    requires i > 0
    ensures Tail(Mono(F, c, i)) == Mono(F, c, i - 1)
  {
    var f, g := Tail(Mono(F, c, i)), Mono(F, c, i - 1);
    forall k: nat ensures f[k] == g[k] {
      assert f[k] == MonoAt(F, c, i, k + 1);
      assert g[k] == MonoAt(F, c, i - 1, k);
    }
  }

  lemma ConvConst<T(!new)>(F: Field<T>, c: T, g: Power<T>, n: nat)
    requires IsField(F) && Total(g)
    ensures Conv(F, Mono(F, c, 0), g, n) == F.mul(c, g[n])
  {
    hide Conv;
    var f := Mono(F, c, 0);
    ConvStep(F, f, g, n);
    if n > 0 {
      ConvZero(F, Tail(f), g, n - 1);
      assert Laws(F, F.mul(c, g[n]), F.zero, F.zero);
    }
  }

  // Multiplying by c * X^i shifts and scales.
  lemma ZeroFirst<T(!new)>(F: Field<T>, f: Power<T>, g: Power<T>, n: nat)
    requires IsField(F) && Total(f) && Total(g) && f[0] == F.zero
    ensures Conv(F, f, g, n) == if n == 0 then F.zero else Conv(F, Tail(f), g, n - 1)
  {
    hide IsField, Conv, Tail;
    ConvStep(F, f, g, n);
    MulZero(F, g[n]);
    if n > 0 { ZeroPlus(F, Conv(F, Tail(f), g, n - 1)); }
  }

  lemma {:induction false} ConvMono<T(!new)>(F: Field<T>, c: T, i: nat, g: Power<T>, n: nat)
    requires IsField(F) && Total(g)
    ensures Conv(F, Mono(F, c, i), g, n) == if n < i then F.zero else F.mul(c, g[n - i])
    decreases n
  {
    hide Conv, IsField, Tail;
    if i == 0 {
      ConvConst(F, c, g, n);
    } else {
      ZeroFirst(F, Mono(F, c, i), g, n);
      TailMono(F, c, i);
      if n > 0 { ConvMono(F, c, i - 1, g, n - 1); }
    }
  }

  lemma ZeroPlus<T(!new)>(F: Field<T>, r: T)
    requires IsField(F)
    ensures F.add(F.zero, r) == r
  {
    assert Laws(F, F.zero, r, r) && Laws(F, r, F.zero, r);
  }

  // The coefficients of a product up to n depend on those of the factors up to n only.
  lemma {:induction false} ConvLocal<T(!new)>(
    F: Field<T>, f: Power<T>, f1: Power<T>, g: Power<T>, g1: Power<T>, n: nat)
    requires Total(f) && Total(f1) && Total(g) && Total(g1)
    requires forall k: nat :: k <= n ==> f[k] == f1[k] && g[k] == g1[k]
    ensures Conv(F, f, g, n) == Conv(F, f1, g1, n)
    decreases n
  {
    hide Conv;
    ConvStep(F, f, g, n);
    ConvStep(F, f1, g1, n);
    if n > 0 {
      assert forall k: nat :: k <= n - 1 ==> NextAt(f, k) == NextAt(f1, k);
      ConvLocal(F, Tail(f), Tail(f1), g, g1, n - 1);
    }
  }

  // Where the product of two series that vanish above m and n is not zero.
  lemma {:induction false} ConvTop<T(!new)>(F: Field<T>, f: Power<T>, g: Power<T>, m: nat, n: nat, k: nat)
    requires IsField(F) && Total(f) && Total(g) && k >= m + n
    requires (forall k: nat :: k > m ==> f[k] == F.zero) && (forall k: nat :: k > n ==> g[k] == F.zero)
    ensures Conv(F, f, g, k) == if k == m + n then F.mul(f[m], g[n]) else F.zero
    decreases m
  {
    hide Conv;
    ConvStep(F, f, g, k);
    MulZero(F, f[0]);
    if m == 0 && k > 0 {
      ConvZero(F, Tail(f), g, k - 1);
      assert Laws(F, F.mul(f[0], g[k]), F.zero, F.zero);
    } else if m > 0 {
      ConvTop(F, Tail(f), g, m - 1, n, k - 1);
      ZeroPlus(F, Conv(F, Tail(f), g, k - 1));
    }
  }

  // ---------- a commutative ring ----------

  ghost predicate RingLaws<T>(F: Field<T>, f: Power<T>, g: Power<T>, h: Power<T>)
    requires Total(f) && Total(g) && Total(h)
  {
    && Plus(F, f, g) == Plus(F, g, f)
    && Plus(F, Plus(F, f, g), h) == Plus(F, f, Plus(F, g, h))
    && Plus(F, f, Mono(F, F.zero, 0)) == f
    && Plus(F, f, Negated(F, f)) == Mono(F, F.zero, 0)
    && Times(F, f, g) == Times(F, g, f)
    && Times(F, Times(F, f, g), h) == Times(F, f, Times(F, g, h))
    && Times(F, f, Mono(F, F.one, 0)) == f
    && Times(F, f, Plus(F, g, h)) == Plus(F, Times(F, f, g), Times(F, f, h))
  }

  lemma TimesCommutes<T(!new)>(F: Field<T>, f: Power<T>, g: Power<T>)
    requires IsField(F) && Total(f) && Total(g)
    ensures Times(F, f, g) == Times(F, g, f)
  {
    forall k: nat ensures Times(F, f, g)[k] == Times(F, g, f)[k] { ConvCommutes(F, f, g, k); }
  }

  lemma TimesAssociates<T(!new)>(F: Field<T>, f: Power<T>, g: Power<T>, h: Power<T>)
    requires IsField(F) && Total(f) && Total(g) && Total(h)
    ensures Times(F, Times(F, f, g), h) == Times(F, f, Times(F, g, h))
  {
    forall k: nat ensures Times(F, Times(F, f, g), h)[k] == Times(F, f, Times(F, g, h))[k] {
      ConvAssoc(F, f, g, h, k);
    }
  }

  lemma TimesDistributes<T(!new)>(F: Field<T>, f: Power<T>, g: Power<T>, h: Power<T>)
    requires IsField(F) && Total(f) && Total(g) && Total(h)
    ensures Times(F, f, Plus(F, g, h)) == Plus(F, Times(F, f, g), Times(F, f, h))
  {
    forall k: nat ensures Times(F, f, Plus(F, g, h))[k] == Plus(F, Times(F, f, g), Times(F, f, h))[k] {
      ConvPlus(F, g, h, f, k);
      ConvCommutes(F, f, Plus(F, g, h), k);
      ConvCommutes(F, f, g, k);
      ConvCommutes(F, f, h, k);
    }
  }

  lemma TimesOne<T(!new)>(F: Field<T>, f: Power<T>)
    requires IsField(F) && Total(f)
    ensures Times(F, f, Mono(F, F.one, 0)) == f
  {
    forall k: nat ensures Times(F, f, Mono(F, F.one, 0))[k] == f[k] {
      ConvCommutes(F, f, Mono(F, F.one, 0), k);
      ConvMono(F, F.one, 0, f, k);
      assert Laws(F, f[k], F.one, F.one);
    }
  }

  lemma PlusCommutes<T(!new)>(F: Field<T>, f: Power<T>, g: Power<T>)
    requires IsField(F) && Total(f) && Total(g)
    ensures Plus(F, f, g) == Plus(F, g, f)
  {
    forall k: nat ensures F.add(f[k], g[k]) == F.add(g[k], f[k]) { assert Laws(F, f[k], g[k], g[k]); }
  }

  lemma PlusAssociates<T(!new)>(F: Field<T>, f: Power<T>, g: Power<T>, h: Power<T>)
    requires IsField(F) && Total(f) && Total(g) && Total(h)
    ensures Plus(F, Plus(F, f, g), h) == Plus(F, f, Plus(F, g, h))
  {
    forall k: nat ensures F.add(F.add(f[k], g[k]), h[k]) == F.add(f[k], F.add(g[k], h[k])) {
      assert Laws(F, f[k], g[k], h[k]);
    }
  }

  lemma PlusInverse<T(!new)>(F: Field<T>, f: Power<T>)
    requires IsField(F) && Total(f)
    ensures Plus(F, f, Mono(F, F.zero, 0)) == f && Plus(F, f, Negated(F, f)) == Mono(F, F.zero, 0)
  {
    forall k: nat ensures F.add(f[k], F.zero) == f[k] && F.add(f[k], F.neg(f[k])) == F.zero {
      assert Laws(F, f[k], f[k], f[k]);
    }
  }

  // Power series with this sum and product are a commutative ring.
  lemma PowersAreARing<T(!new)>(F: Field<T>, f: Power<T>, g: Power<T>, h: Power<T>)
    requires IsField(F) && Total(f) && Total(g) && Total(h)
    ensures RingLaws(F, f, g, h)
  {
    hide IsField, Times, Plus, Negated, Mono;
    PlusCommutes(F, f, g);
    PlusAssociates(F, f, g, h);
    PlusInverse(F, f);
    TimesCommutes(F, f, g);
    TimesAssociates(F, f, g, h);
    TimesOne(F, f);
    TimesDistributes(F, f, g, h);
  }
}
