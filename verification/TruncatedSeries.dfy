// Series of qjscalc.js: finitely many terms of a Laurent series, up to an O-term.
module TruncatedSeries {
  import opened Outcomes
  import opened Fields
  import opened Powers
  import opened Polynomials

  // The terms from X^emin on; those from X^(emin + |terms|) on are not known.
  datatype Series<T> = Series(emin: int, terms: seq<T>)

  // A full Laurent series X^emin * power.
  datatype Laurent<T> = Laurent(emin: int, power: imap<int, T>)

  ghost predicate Full<T>(l: Laurent<T>) { Total(l.power) }

  // The coefficient of X^k in a full series, and in the known part of a truncated one.
  ghost function CoefAt<T>(F: Field<T>, l: Laurent<T>, k: int): T
    requires Full(l)
  {
    if k < l.emin then F.zero else l.power[k - l.emin]
  }

  ghost function TermAt<T>(F: Field<T>, v: Series<T>, k: int): T { At(F, v.terms, k - v.emin) }

  // The full series agrees with the truncated one up to its O-term.
  ghost predicate Agrees<T>(F: Field<T>, v: Series<T>, l: Laurent<T>)
    requires Full(l)
  {
    forall k :: k < v.emin + |v.terms| ==> TermAt(F, v, k) == CoefAt(F, l, k)
  }

  ghost function Product<T>(F: Field<T>, l: Laurent<T>, m: Laurent<T>): (r: Laurent<T>)
    requires Full(l) && Full(m)
    ensures Full(r)
  {
    Laurent(l.emin + m.emin, Times(F, l.power, m.power))
  }

  // Two ways of writing the same series.
  ghost predicate Same<T>(F: Field<T>, l: Laurent<T>, m: Laurent<T>)
    requires Full(l) && Full(m)
  {
    forall k :: CoefAt(F, l, k) == CoefAt(F, m, k)
  }

  // ---------- products do not depend on how the factors are written ----------

  // The series from a lower X^e on.
  ghost function Lowered<T>(F: Field<T>, l: Laurent<T>, d: nat): (r: Laurent<T>)
    requires Full(l)
    ensures Full(r) && r.emin == l.emin - d
  {
    Laurent(l.emin - d, Times(F, Mono(F, F.one, d), l.power))
  }

  lemma LoweredPower<T(!new)>(F: Field<T>, f: Power<T>, d: nat, k: nat)
    requires IsField(F) && Total(f)
    ensures Times(F, Mono(F, F.one, d), f)[k] == if k < d then F.zero else f[k - d]
  {
    hide IsField, Conv;
    TimesAt(F, Mono(F, F.one, d), f, k);
    ConvMono(F, F.one, d, f, k);
    if k >= d { OneMul(F, f[k - d]); }
  }

  lemma OneMul<T(!new)>(F: Field<T>, x: T)
    requires IsField(F)
    ensures F.mul(F.one, x) == x
  {
    assert Laws(F, F.one, x, x) && Laws(F, x, F.one, x);
  }

  lemma LoweredSame<T(!new)>(F: Field<T>, l: Laurent<T>, d: nat)
    requires IsField(F) && Full(l)
    ensures Same(F, Lowered(F, l, d), l)
  {
    hide IsField, Times, Mono;
    forall k ensures CoefAt(F, Lowered(F, l, d), k) == CoefAt(F, l, k) {
      if k >= l.emin - d { LoweredPower(F, l.power, d, k - l.emin + d); }
    }
  }

  lemma PowerEqual<T>(f: Power<T>, g: Power<T>)
    requires Total(f) && Total(g) && forall k: nat :: f[k] == g[k]
    ensures f == g
  {
    forall k | k in f.Keys ensures k in g.Keys && f[k] == g[k] {}
    forall k | k in g.Keys ensures k in f.Keys && f[k] == g[k] {}
    assert f.Keys == g.Keys;
  }

  // Equal series written from the same power of X on have equal coefficients.
  lemma SamePower<T(!new)>(F: Field<T>, l: Laurent<T>, m: Laurent<T>)
    requires Full(l) && Full(m) && Same(F, l, m) && l.emin == m.emin
    ensures l == m
  {
    forall k: nat ensures l.power[k] == m.power[k] {
      assert CoefAt(F, l, l.emin + k) == CoefAt(F, m, l.emin + k);
    }
    PowerEqual(l.power, m.power);
  }

  lemma ProductLowered<T(!new)>(F: Field<T>, l: Laurent<T>, m: Laurent<T>, d: nat)
    requires IsField(F) && Full(l) && Full(m)
    ensures Product(F, Lowered(F, l, d), m) == Lowered(F, Product(F, l, m), d)
  {
    hide IsField, Times, Mono;
    TimesAssociates(F, Mono(F, F.one, d), l.power, m.power);
  }

  lemma ProductSame<T(!new)>(F: Field<T>, l: Laurent<T>, l1: Laurent<T>, m: Laurent<T>)
    requires IsField(F) && Full(l) && Full(l1) && Full(m) && Same(F, l, l1) && l1.emin <= l.emin
    ensures Same(F, Product(F, l, m), Product(F, l1, m))
  {
    hide IsField, Times, Mono;
    var d := l.emin - l1.emin;
    LoweredSame(F, l, d);
    SamePower(F, Lowered(F, l, d), l1);
    ProductLowered(F, l, m, d);
    LoweredSame(F, Product(F, l, m), d);
  }

  lemma ProductCommutes<T(!new)>(F: Field<T>, l: Laurent<T>, m: Laurent<T>)
    requires IsField(F) && Full(l) && Full(m)
    ensures Product(F, l, m) == Product(F, m, l)
  {
    TimesCommutes(F, l.power, m.power);
  }

  // ---------- the series written from its first known term on ----------

  ghost function CoefFrom<T>(F: Field<T>, l: Laurent<T>, e: int, k: int): T
    requires Full(l)
  {
    CoefAt(F, l, e + k)
  }

  ghost function Based<T>(F: Field<T>, l: Laurent<T>, e: int): (r: Laurent<T>)
    requires Full(l)
    ensures Full(r) && r.emin == e
  {
    Laurent(e, imap k | 0 <= k :: CoefFrom(F, l, e, k))
  }

  lemma BasedAgrees<T(!new)>(F: Field<T>, v: Series<T>, l: Laurent<T>)
    requires Full(l) && Agrees(F, v, l)
    ensures Same(F, Based(F, l, v.emin), l)
    ensures forall k: nat :: k < |v.terms| ==> Based(F, l, v.emin).power[k] == v.terms[k]
  {
    var b := Based(F, l, v.emin);
    forall k ensures CoefAt(F, b, k) == CoefAt(F, l, k) {
      if k < v.emin {
        assert TermAt(F, v, k) == F.zero;
      } else {
        assert b.power[k - v.emin] == CoefFrom(F, l, v.emin, k - v.emin);
      }
    }
    forall k: nat | k < |v.terms| ensures b.power[k] == v.terms[k] {
      assert TermAt(F, v, v.emin + k) == v.terms[k];
    }
  }

  lemma BasedProduct<T(!new)>(F: Field<T>, l: Laurent<T>, m: Laurent<T>, d: int, e: int)
    requires IsField(F) && Full(l) && Full(m)
    requires Same(F, Based(F, l, d), l) && Same(F, Based(F, m, e), m)
    ensures Same(F, Product(F, Based(F, l, d), Based(F, m, e)), Product(F, l, m))
  {
    hide IsField, Times, Based;
    var l1, m1 := Based(F, l, d), Based(F, m, e);
    if d <= l.emin { ProductSame(F, l, l1, m1); } else { ProductSame(F, l1, l, m1); }
    ProductCommutes(F, l, m1);
    ProductCommutes(F, l, m);
    if m1.emin <= m.emin { ProductSame(F, m, m1, l); } else { ProductSame(F, m1, m, l); }
  }

  // ---------- the product of truncated series ----------

  function Min(a: int, b: int): int { if a < b then a else b }

  // r holds the coefficients of the product of p and q, as far as it goes.
  ghost predicate HoldsUpTo<T>(F: Field<T>, r: seq<T>, p: seq<T>, q: seq<T>) {
    forall t :: 0 <= t < |r| ==> r[t] == Conv(F, Poly(F, p), Poly(F, q), t)
  }

  lemma ConvNext<T(!new)>(F: Field<T>, p: seq<T>, i: nat, q: seq<T>, t: nat)
    requires IsField(F) && i < |p|
    ensures Conv(F, Poly(F, p[..i + 1]), Poly(F, q), t)
         == F.add(Conv(F, Poly(F, p[..i]), Poly(F, q), t),
                  if i <= t < i + |q| then F.mul(p[i], q[t - i]) else F.zero)
  {
    hide IsField, Conv, Mono, Poly, Plus;
    var g, f, m := Poly(F, q), Poly(F, p[..i]), Mono(F, p[i], i);
    OneCoefficientMore(F, p, i, g);
    MonoTimesPoly(F, p[i], i, q, t);
    TimesAt(F, Poly(F, p[..i + 1]), g, t);
    TimesAt(F, f, g, t);
    TimesAt(F, m, g, t);
    PlusAt(F, Times(F, f, g), Times(F, m, g), t);
  }

  lemma PlusAt<T>(F: Field<T>, f: Power<T>, g: Power<T>, k: nat)
    requires Total(f) && Total(g)
    ensures Plus(F, f, g)[k] == F.add(f[k], g[k])
  {
  }

  // The row of v1[i] in series_mul, as far as the terms are known.
  method MulRow<T(!new)>(F: Field<T>, r: array<T>, p: seq<T>, i: nat, q: seq<T>)
    requires IsField(F) && i < |p| && r.Length <= |q| && HoldsUpTo(F, r[..], p[..i], q)
    modifies r
    ensures HoldsUpTo(F, r[..], p[..i + 1], q)
  {
    ghost var r0 := r[..];
    AddTerms(F, r, p[i], i, q);
    RowHolds(F, r0, r[..], p, i, q);
  }

  method AddTerms<T>(F: Field<T>, r: array<T>, x: T, i: nat, q: seq<T>)
    requires r.Length <= |q|
    modifies r
    ensures forall t :: 0 <= t < r.Length ==>
      r[t] == if i <= t then F.add(old(r[t]), F.mul(x, q[t - i])) else old(r[t])
  {
    var k := Min(|q|, r.Length - i);
    var j := 0;
    while j < k
      invariant 0 <= j && (j <= k || k < 0)
      invariant forall t :: 0 <= t < r.Length ==>
        r[t] == if i <= t < i + j then F.add(old(r[t]), F.mul(x, q[t - i])) else old(r[t])
    {
      r[i + j] := F.add(r[i + j], F.mul(x, q[j]));
      j := j + 1;
    }
  }

  lemma RowHolds<T(!new)>(F: Field<T>, r0: seq<T>, r1: seq<T>, p: seq<T>, i: nat, q: seq<T>)
    requires IsField(F) && i < |p| && |r1| == |r0| <= |q| && HoldsUpTo(F, r0, p[..i], q)
    requires forall t :: 0 <= t < |r0| ==> r1[t] == if i <= t then F.add(r0[t], F.mul(p[i], q[t - i])) else r0[t]
    ensures HoldsUpTo(F, r1, p[..i + 1], q)
  {
    hide IsField, Conv, Poly;
    forall t | 0 <= t < |r1| ensures r1[t] == Conv(F, Poly(F, p[..i + 1]), Poly(F, q), t) {
      ConvNext(F, p, i, q, t);
      PlusZero(F, r0[t]);
    }
  }

  method MulRows<T(!new)>(F: Field<T>, r: array<T>, p: seq<T>, q: seq<T>)
    requires IsField(F) && r.Length <= |q| && HoldsUpTo(F, r[..], p[..0], q)
    modifies r
    ensures HoldsUpTo(F, r[..], p[..|p|], q)
  {
    hide HoldsUpTo, IsField;
    var i := 0;
    while i < |p|
      invariant 0 <= i <= |p| && HoldsUpTo(F, r[..], p[..i], q)
    {
      MulRow(F, r, p, i, q);
      i := i + 1;
    }
  }

  lemma HoldsNothing<T(!new)>(F: Field<T>, r: seq<T>, p: seq<T>, q: seq<T>)
    requires IsField(F) && forall t :: 0 <= t < |r| ==> r[t] == F.zero
    ensures HoldsUpTo(F, r, p[..0], q)
  {
    forall t | 0 <= t < |r| ensures r[t] == Conv(F, Poly(F, p[..0]), Poly(F, q), t) {
      ConvZero(F, Poly(F, p[..0]), Poly(F, q), t);
    }
  }

  // What series_mul knows: as many terms as the shorter factor.
  ghost predicate IsProduct<T>(F: Field<T>, v1: Series<T>, v2: Series<T>, r: Series<T>) {
    && r.emin == v1.emin + v2.emin && |r.terms| == Min(|v1.terms|, |v2.terms|)
    && HoldsUpTo(F, r.terms, v1.terms, v2.terms)
  }

  // One term, for series that begin where the factors do.
  lemma ProductTerm<T(!new)>(F: Field<T>, v1: Series<T>, v2: Series<T>, r: Series<T>, f: Power<T>, g: Power<T>, t: nat)
    requires IsField(F) && Total(f) && Total(g) && IsProduct(F, v1, v2, r) && t < |r.terms|
    requires forall k: nat :: k < |v1.terms| ==> f[k] == v1.terms[k]
    requires forall k: nat :: k < |v2.terms| ==> g[k] == v2.terms[k]
    ensures r.terms[t] == Times(F, f, g)[t]
  {
    hide IsField, Conv, Poly, Times;
    PrefixOnly(F, f, g, v1.terms, v2.terms, t);
    TimesAt(F, f, g, t);
  }

  lemma AgreesSame<T(!new)>(F: Field<T>, v: Series<T>, l: Laurent<T>, m: Laurent<T>)
    requires Full(l) && Full(m) && Agrees(F, v, l) && Same(F, l, m)
    ensures Agrees(F, v, m)
  {
    forall k | k < v.emin + |v.terms| ensures TermAt(F, v, k) == CoefAt(F, m, k) {
      assert CoefAt(F, l, k) == CoefAt(F, m, k);
    }
  }

  lemma BasedSound<T(!new)>(F: Field<T>, v1: Series<T>, v2: Series<T>, r: Series<T>, f: Power<T>, g: Power<T>)
    requires IsField(F) && Total(f) && Total(g) && IsProduct(F, v1, v2, r)
    requires forall k: nat :: k < |v1.terms| ==> f[k] == v1.terms[k]
    requires forall k: nat :: k < |v2.terms| ==> g[k] == v2.terms[k]
    ensures Agrees(F, r, Laurent(r.emin, Times(F, f, g)))
  {
    hide IsField, Times, HoldsUpTo;
    forall t: nat | t < |r.terms| ensures r.terms[t] == Times(F, f, g)[t] { ProductTerm(F, v1, v2, r, f, g, t); }
  }

  // The known terms of the product are right for any full series behind the factors.
  lemma ProductSound<T(!new)>(F: Field<T>, v1: Series<T>, v2: Series<T>, r: Series<T>, l: Laurent<T>, m: Laurent<T>)
    requires IsField(F) && Full(l) && Full(m) && Agrees(F, v1, l) && Agrees(F, v2, m) && IsProduct(F, v1, v2, r)
    ensures Agrees(F, r, Product(F, l, m))
  {
    var l1, m1 := Based(F, l, v1.emin), Based(F, m, v2.emin);
    assert Product(F, l1, m1) == Laurent(r.emin, Times(F, l1.power, m1.power));
    hide IsField, Based, Times, Product, Agrees, Same, IsProduct;
    BasedAgrees(F, v1, l);
    BasedAgrees(F, v2, m);
    BasedProduct(F, l, m, v1.emin, v2.emin);
    BasedSound(F, v1, v2, r, l1.power, m1.power);
    AgreesSame(F, r, Product(F, l1, m1), Product(F, l, m));
  }

  lemma PrefixOnly<T(!new)>(F: Field<T>, f: Power<T>, g: Power<T>, p: seq<T>, q: seq<T>, t: nat)
    requires Total(f) && Total(g) && t < |p| && t < |q|
    requires (forall k: nat :: k < |p| ==> f[k] == p[k]) && (forall k: nat :: k < |q| ==> g[k] == q[k])
    ensures Conv(F, f, g, t) == Conv(F, Poly(F, p), Poly(F, q), t)
  {
    ConvLocal(F, f, Poly(F, p), g, Poly(F, q), t);
  }

  // ---------- trim ----------

  // Leading zero terms go; nothing else changes.
  method Trim<T(==, !new)>(F: Field<T>, v: Series<T>) returns (r: Series<T>)
    ensures r.terms == [] || r.terms[0] != F.zero
    ensures r.emin + |r.terms| == v.emin + |v.terms| && |r.terms| <= |v.terms|
    ensures r.terms == v.terms[|v.terms| - |r.terms|..]
    ensures forall l: Laurent<T> :: Full(l) ==> (Agrees(F, r, l) <==> Agrees(F, v, l))
  {
    var i := 0;
    while i < |v.terms| && v.terms[i] == F.zero
      invariant 0 <= i <= |v.terms| && forall k :: 0 <= k < i ==> v.terms[k] == F.zero
    {
      i := i + 1;
    }
    r := Series(v.emin + i, v.terms[i..]);
    TrimKeeps(F, v, r, i);
  }

  lemma TrimKeeps<T(!new)>(F: Field<T>, v: Series<T>, r: Series<T>, i: nat)
    requires i <= |v.terms| && r == Series(v.emin + i, v.terms[i..])
    requires forall k :: 0 <= k < i ==> v.terms[k] == F.zero
    ensures forall l: Laurent<T> :: Full(l) ==> (Agrees(F, r, l) <==> Agrees(F, v, l))
  {
    forall k ensures TermAt(F, r, k) == TermAt(F, v, k) {}
    forall l: Laurent<T> | Full(l) ensures Agrees(F, r, l) <==> Agrees(F, v, l) {
      if Agrees(F, r, l) {
        forall k | k < v.emin + |v.terms| ensures TermAt(F, v, k) == CoefAt(F, l, k) {
          assert TermAt(F, r, k) == CoefAt(F, l, k);
        }
      }
      if Agrees(F, v, l) {
        forall k | k < r.emin + |r.terms| ensures TermAt(F, r, k) == CoefAt(F, l, k) {
          assert TermAt(F, v, k) == CoefAt(F, l, k);
        }
      }
    }
  }

  // The terms of r are right for any two full series that v1 and v2 stand for.
  ghost predicate Sound<T(!new)>(F: Field<T>, v1: Series<T>, v2: Series<T>, r: Series<T>) {
    forall l: Laurent<T>, m: Laurent<T> ::
      Full(l) && Full(m) && Agrees(F, v1, l) && Agrees(F, v2, m) ==> Agrees(F, r, Product(F, l, m))
  }

  // r knows what the untrimmed product knows.
  ghost predicate StandsForProduct<T(!new)>(F: Field<T>, v1: Series<T>, v2: Series<T>, r: Series<T>) {
    exists p :: IsProduct(F, v1, v2, p) && SameKnowledge(F, r, p)
  }

  ghost predicate SameKnowledge<T(!new)>(F: Field<T>, r: Series<T>, p: Series<T>) {
    && r.emin + |r.terms| == p.emin + |p.terms|
    && forall l: Laurent<T> :: Full(l) ==> (Agrees(F, r, l) <==> Agrees(F, p, l))
  }

  // series_mul
  method SeriesMul<T(==, !new)>(F: Field<T>, v1: Series<T>, v2: Series<T>) returns (r: Series<T>)
    requires IsField(F)
    ensures r.terms == [] || r.terms[0] != F.zero
    ensures Sound(F, v1, v2, r) && StandsForProduct(F, v1, v2, r)
    ensures r.emin + |r.terms| ==
            v1.emin + v2.emin + if |v1.terms| <= |v2.terms| then |v1.terms| else |v2.terms|
  {
    var n := Min(|v1.terms|, |v2.terms|);
    var s := new T[n](_ => F.zero);
    HoldsNothing(F, s[..], v1.terms, v2.terms);
    MulRows(F, s, v1.terms, v2.terms);
    assert v1.terms[..|v1.terms|] == v1.terms;
    var p := Series(v1.emin + v2.emin, s[..]);
    r := Trim(F, p);
    assert IsProduct(F, v1, v2, p) && SameKnowledge(F, r, p);
    forall l: Laurent<T>, m: Laurent<T> | Full(l) && Full(m) && Agrees(F, v1, l) && Agrees(F, v2, m)
      ensures Agrees(F, r, Product(F, l, m))
    {
      ProductSound(F, v1, v2, p, l, m);
    }
  }

  // ---------- the inverse ----------

  // r times p is 1 as far as r goes.
  ghost predicate InvertsUpTo<T>(F: Field<T>, p: seq<T>, r: seq<T>, n: nat) {
    forall k: nat :: k < n ==> Conv(F, Poly(F, p), Poly(F, r), k) == if k == 0 then F.one else F.zero
  }

  lemma TailPoly<T>(F: Field<T>, p: seq<T>, j: nat)
    requires j < |p|
    ensures Tail(Poly(F, p[j..])) == Poly(F, p[j + 1..])
  {
    forall k: nat ensures NextAt(Poly(F, p[j..]), k) == At(F, p[j + 1..], k) {}
  }

  // The sum of v1[j] * r[i - j] over j from 1 to i.
  method InnerSum<T(!new)>(F: Field<T>, p: seq<T>, r: seq<T>, i: nat) returns (sum: T)
    requires IsField(F) && 1 <= i < |p| && |r| >= i
    ensures sum == Conv(F, Poly(F, p[1..]), Poly(F, r), i - 1)
  {
    hide IsField, Conv, Poly;
    sum := F.zero;
    ghost var total := Conv(F, Poly(F, p[1..]), Poly(F, r), i - 1);
    ZeroPlus(F, total);
    var j := 1;
    while j <= i
      invariant 1 <= j <= i + 1 && ToGo(F, p, r, i, j, sum, total)
    {
      SumTurn(F, p, r, i, j, sum);
      sum := F.add(sum, F.mul(p[j], r[i - j]));
      j := j + 1;
    }
  }

  // The sum so far and the products from j on make the total.
  ghost predicate ToGo<T>(F: Field<T>, p: seq<T>, r: seq<T>, i: nat, j: nat, sum: T, total: T)
    requires i < |p|
  {
    total == if j <= i then F.add(sum, Conv(F, Poly(F, p[j..]), Poly(F, r), i - j)) else sum
  }

  lemma SumTurn<T(!new)>(F: Field<T>, p: seq<T>, r: seq<T>, i: nat, j: nat, sum: T)
    requires IsField(F) && 1 <= j <= i < |p| && |r| >= i
    ensures F.add(sum, Conv(F, Poly(F, p[j..]), Poly(F, r), i - j))
         == var s := F.add(sum, F.mul(p[j], r[i - j]));
            if j < i then F.add(s, Conv(F, Poly(F, p[j + 1..]), Poly(F, r), i - j - 1)) else s
  {
    hide Conv;
    var f, g := Poly(F, p[j..]), Poly(F, r);
    ConvStep(F, f, g, i - j);
    assert f[0] == p[j] && g[i - j] == r[i - j];
    if j < i {
      TailPoly(F, p, j);
      assert Laws(F, sum, F.mul(p[j], r[i - j]), Conv(F, Poly(F, p[j + 1..]), g, i - j - 1));
    }
  }

  // A coefficient of a product, of which only the first term needs the last of g1.
  lemma ConvFirst<T(!new)>(F: Field<T>, f: Power<T>, g: Power<T>, g1: Power<T>, i: nat)
    requires Total(f) && Total(g) && Total(g1) && i >= 1 && forall k: nat :: k < i ==> g[k] == g1[k]
    ensures Conv(F, f, g1, i) == F.add(F.mul(f[0], g1[i]), Conv(F, Tail(f), g, i - 1))
  {
    hide Conv, Tail;
    ConvStep(F, f, g1, i);
    ConvLocal(F, Tail(f), Tail(f), g, g1, i - 1);
  }

  lemma PolyHead<T>(F: Field<T>, p: seq<T>)
    requires p != []
    ensures Poly(F, p)[0] == p[0] && p[0..] == p
  {
  }

  lemma PolyPush<T>(F: Field<T>, r: seq<T>, x: T)
    ensures Poly(F, r + [x])[|r|] == x
    ensures forall k: nat :: k < |r| ==> Poly(F, r)[k] == Poly(F, r + [x])[k]
  {
  }

  // The term that makes the next coefficient of the product vanish.
  lemma NextInverseAt<T(!new)>(F: Field<T>, p: seq<T>, r: seq<T>, i: nat, x: T, sum: T)
    requires IsField(F) && 1 <= i < |p| && |r| == i
    requires sum == Conv(F, Poly(F, p[1..]), Poly(F, r), i - 1)
    requires F.mul(p[0], x) == F.neg(sum)
    ensures Conv(F, Poly(F, p), Poly(F, r + [x]), i) == F.zero
  {
    hide Conv, Poly, Tail, IsField;
    var f := Poly(F, p);
    PolyHead(F, p);
    PolyPush(F, r, x);
    ConvFirst(F, f, Poly(F, r), Poly(F, r + [x]), i);
    TailPoly(F, p, 0);
    NegPlus(F, sum);
  }

  lemma InvertsPush<T(!new)>(F: Field<T>, p: seq<T>, r: seq<T>, x: T)
    requires InvertsUpTo(F, p, r, |r|)
    ensures InvertsUpTo(F, p, r + [x], |r|)
  {
    PolyPush(F, r, x);
    hide Conv, Poly, Total;
    var f, g, g1 := Poly(F, p), Poly(F, r), Poly(F, r + [x]);
    forall k: nat | k < |r| ensures Conv(F, f, g1, k) == Conv(F, f, g, k) { ConvLocal(F, f, f, g, g1, k); }
  }

  lemma NextInverse<T(!new)>(F: Field<T>, p: seq<T>, r: seq<T>, i: nat, x: T, sum: T)
    requires IsField(F) && 1 <= i < |p| && |r| == i && InvertsUpTo(F, p, r, i)
    requires sum == Conv(F, Poly(F, p[1..]), Poly(F, r), i - 1)
    requires F.mul(p[0], x) == F.neg(sum)
    ensures InvertsUpTo(F, p, r + [x], i + 1)
  {
    hide IsField, Conv, Poly, Total;
    InvertsPush(F, p, r, x);
    NextInverseAt(F, p, r, i, x, sum);
  }

  lemma NegPlus<T(!new)>(F: Field<T>, x: T)
    requires IsField(F)
    ensures F.add(F.neg(x), x) == F.zero
  {
    assert Laws(F, x, F.neg(x), x) && Laws(F, F.neg(x), x, x);
  }

  lemma NegTimesInverse<T(!new)>(F: Field<T>, p: T, r: T, s: T)
    requires IsField(F) && F.mul(p, r) == F.one
    ensures F.mul(p, F.mul(F.neg(s), r)) == F.neg(s)
  {
    var n := F.neg(s);
    assert Laws(F, p, n, r) && Laws(F, n, p, r) && Laws(F, p, r, n) && Laws(F, n, F.one, n) && Laws(F, n, r, p);
  }

  // Series.prototype.inverse
  method Inverse<T(==, !new)>(F: Field<T>, v: Series<T>) returns (res: Result<Series<T>>)
    requires IsField(F)
    ensures res.Throws? <==> v.terms == [] || v.terms[0] == F.zero
    ensures res.Ok? ==> res.value.emin == -v.emin && |res.value.terms| == |v.terms|
                        && InvertsUpTo(F, v.terms, res.value.terms, |v.terms|)
  {
    var p := v.terms;
    if p == [] || p[0] == F.zero { return Throws; }
    var r := [F.inv(p[0])];
    FirstInverse(F, p);
    hide IsField, InvertsUpTo, Conv;
    var i := 1;
    while i < |p|
      invariant 1 <= i <= |p| && |r| == i && InvertsUpTo(F, p, r, i) && F.mul(p[0], r[0]) == F.one
    {
      var sum := InnerSum(F, p, r, i);
      var x := F.mul(F.neg(sum), r[0]);
      NegTimesInverse(F, p[0], r[0], sum);
      NextInverse(F, p, r, i, x, sum);
      r := r + [x];
      i := i + 1;
    }
    res := Ok(Series(-v.emin, r));
  }

  lemma FirstInverse<T(!new)>(F: Field<T>, p: seq<T>)
    requires IsField(F) && p != [] && p[0] != F.zero
    ensures InvertsUpTo(F, p, [F.inv(p[0])], 1) && F.mul(p[0], F.inv(p[0])) == F.one
  {
    assert Laws(F, p[0], p[0], p[0]);
  }

  lemma BasedWhole<T(!new)>(F: Field<T>, m: Laurent<T>, e: int)
    requires Full(m) && e <= m.emin
    ensures Same(F, Based(F, m, e), m)
  {
    var b := Based(F, m, e);
    forall k ensures CoefAt(F, b, k) == CoefAt(F, m, k) {
      if k >= e { assert b.power[k - e] == CoefFrom(F, m, e, k - e); }
    }
  }

  // Two products with equal coefficients at k, of factors equal below k.
  lemma SameNext<T(!new)>(F: Field<T>, f: Power<T>, g: Power<T>, h: Power<T>, k: nat)
    requires IsField(F) && Total(f) && Total(g) && Total(h) && f[0] != F.zero
    requires Conv(F, f, g, k) == Conv(F, f, h, k) && forall j: nat :: j < k ==> g[j] == h[j]
    ensures g[k] == h[k]
  {
    hide Conv;
    ConvStep(F, f, g, k);
    ConvStep(F, f, h, k);
    if k > 0 {
      var t := Conv(F, Tail(f), g, k - 1);
      ConvLocal(F, Tail(f), Tail(f), g, h, k - 1);
      AddCancelRight(F, F.mul(f[0], g[k]), F.mul(f[0], h[k]), t);
    }
    MulCancel(F, f[0], g[k], h[k]);
  }

  lemma AddCancelRight<T(!new)>(F: Field<T>, x: T, y: T, t: T)
    requires IsField(F) && F.add(x, t) == F.add(y, t)
    ensures x == y
  {
    assert Laws(F, x, t, t) && Laws(F, y, t, t);
    AddCancel(F, t, x, y);
  }

  lemma MulCancel<T(!new)>(F: Field<T>, c: T, x: T, y: T)
    requires IsField(F) && c != F.zero && F.mul(c, x) == F.mul(c, y)
    ensures x == y
  {
    var i := F.inv(c);
    assert Laws(F, i, c, x) && Laws(F, i, c, y) && Laws(F, c, i, i) && Laws(F, x, F.one, x) && Laws(F, y, F.one, y);
    OneMul(F, x);
    OneMul(F, y);
  }

  // f times a series determines the coefficients of the series one by one.
  lemma {:induction false} FactorUnique<T(!new)>(F: Field<T>, f: Power<T>, g: Power<T>, h: Power<T>, n: nat)
    requires IsField(F) && Total(f) && Total(g) && Total(h) && f[0] != F.zero
    requires forall k: nat :: k < n ==> Conv(F, f, g, k) == Conv(F, f, h, k)
    ensures forall k: nat :: k < n ==> g[k] == h[k]
  {
    if n > 0 {
      hide IsField, Conv;
      FactorUnique(F, f, g, h, n - 1);
      SameNext(F, f, g, h, n - 1);
    }
  }

  // X^d times the inverse of the known terms, multiplied by the whole series.
  lemma ShiftedInverse<T(!new)>(F: Field<T>, f: Power<T>, p: seq<T>, r: seq<T>, d: nat, k: nat)
    requires IsField(F) && Total(f) && |p| == |r| && k < d + |p|
    requires (forall j: nat :: j < |p| ==> f[j] == p[j]) && InvertsUpTo(F, p, r, |p|)
    ensures Conv(F, f, Times(F, Mono(F, F.one, d), Poly(F, r)), k) == if k == d then F.one else F.zero
  {
    hide IsField, Conv, Poly, Times, Mono;
    var x, g := Mono(F, F.one, d), Poly(F, r);
    TimesAt(F, f, Times(F, x, g), k);
    TimesCommutes(F, f, Times(F, x, g));
    TimesAssociates(F, x, g, f);
    TimesCommutes(F, g, f);
    LoweredPower(F, Times(F, f, g), d, k);
    if k >= d {
      TimesAt(F, f, g, k - d);
      PrefixLeft(F, f, g, p, k - d);
    }
  }

  lemma PrefixLeft<T(!new)>(F: Field<T>, f: Power<T>, h: Power<T>, p: seq<T>, t: nat)
    requires Total(f) && Total(h) && t < |p| && forall k: nat :: k < |p| ==> f[k] == p[k]
    ensures Conv(F, f, h, t) == Conv(F, Poly(F, p), h, t)
  {
    ConvLocal(F, f, Poly(F, p), h, h, t);
  }

  ghost function One<T>(F: Field<T>): (r: Laurent<T>)
    ensures Full(r)
  {
    Laurent(0, Mono(F, F.one, 0))
  }

  // The coefficients of l * m, written from X^d and X^e on, when the product is 1.
  lemma ProductIsOne<T(!new)>(F: Field<T>, l: Laurent<T>, m: Laurent<T>, d: int, e: int, k: nat)
    requires IsField(F) && Full(l) && Full(m) && Same(F, Product(F, l, m), One(F))
    requires Same(F, Based(F, l, d), l) && Same(F, Based(F, m, e), m)
    ensures Conv(F, Based(F, l, d).power, Based(F, m, e).power, k) == if d + e + k == 0 then F.one else F.zero
  {
    hide IsField, Conv, Based, Mono;
    BasedProduct(F, l, m, d, e);
    var l1, m1 := Based(F, l, d), Based(F, m, e);
    TimesAt(F, l1.power, m1.power, k);
    assert CoefAt(F, Product(F, l1, m1), d + e + k) == CoefAt(F, Product(F, l, m), d + e + k);
    assert CoefAt(F, Product(F, l, m), d + e + k) == CoefAt(F, One(F), d + e + k);
    OneAt(F, d + e + k);
  }

  lemma OneAt<T>(F: Field<T>, k: int)
    ensures CoefAt(F, One(F), k) == if k == 0 then F.one else F.zero
  {
  }

  // The inverse of a full series agrees with the inverse of its known terms.
  lemma InverseSound<T(!new)>(F: Field<T>, v: Series<T>, r: Series<T>, l: Laurent<T>, m: Laurent<T>)
    requires IsField(F) && Full(l) && Full(m) && Agrees(F, v, l) && v.terms != [] && v.terms[0] != F.zero
    requires r.emin == -v.emin && |r.terms| == |v.terms| && InvertsUpTo(F, v.terms, r.terms, |v.terms|)
    requires Same(F, Product(F, l, m), One(F))
    ensures Agrees(F, r, m)
  {
    hide IsField, Conv, Product, Mono, Times, Based, InvertsUpTo, Poly, Agrees, Same;
    BasedAgrees(F, v, l);
    var e := Min(m.emin, -v.emin);
    BasedWhole(F, m, e);
    var f, g := Based(F, l, v.emin).power, Based(F, m, e).power;
    var d := -v.emin - e;
    var h := Times(F, Mono(F, F.one, d), Poly(F, r.terms));
    forall k: nat | k < d + |v.terms| ensures Conv(F, f, g, k) == Conv(F, f, h, k) {
      ProductIsOne(F, l, m, v.emin, e, k);
      ShiftedInverse(F, f, v.terms, r.terms, d, k);
    }
    assert f[0] == v.terms[0];
    FactorUnique(F, f, g, h, d + |v.terms|);
    InverseTerms(F, r, m, e);
  }

  lemma InverseTerms<T(!new)>(F: Field<T>, r: Series<T>, m: Laurent<T>, e: int)
    requires IsField(F) && Full(m) && e <= r.emin && Same(F, Based(F, m, e), m)
    requires forall k: nat :: k < r.emin - e + |r.terms| ==>
      Based(F, m, e).power[k] == Times(F, Mono(F, F.one, r.emin - e), Poly(F, r.terms))[k]
    ensures Agrees(F, r, m)
  {
    hide IsField, Mono, Times, Based;
    var b := Based(F, m, e);
    forall k | k < r.emin + |r.terms| ensures TermAt(F, r, k) == CoefAt(F, m, k) {
      assert CoefAt(F, b, k) == CoefAt(F, m, k);
      if k >= e {
        assert b.power[k - e] == Times(F, Mono(F, F.one, r.emin - e), Poly(F, r.terms))[k - e];
        LoweredPower(F, Poly(F, r.terms), r.emin - e, k - e);
      }
    }
  }

  // v times its inverse is 1 + O(X^n), where v has n terms.
  lemma InverseTimes<T(!new)>(F: Field<T>, v: Series<T>, i: Series<T>, r: Series<T>)
    requires IsField(F) && v.terms != [] && StandsForProduct(F, v, i, r)
    requires i.emin == -v.emin && |i.terms| == |v.terms| && InvertsUpTo(F, v.terms, i.terms, |v.terms|)
    ensures r.emin + |r.terms| == |v.terms| && Agrees(F, r, One(F))
  {
    hide Conv;
    var p :| IsProduct(F, v, i, p) && SameKnowledge(F, r, p);
    forall k | k < |p.terms| ensures TermAt(F, p, k) == CoefAt(F, One(F), k) { OneAt(F, k); }
    assert Agrees(F, p, One(F));
  }
}
