// Polynomials of qjscalc.js over a field: arrays of coefficients, lowest first, with no
// leading zero but that of the polynomial 0, which is [0].
module Polynomials {
  import opened Outcomes
  import opened Fields
  import opened Powers

  // ---------- arrays and what they stand for ----------

  ghost function Poly<T>(F: Field<T>, p: seq<T>): (r: Power<T>)
    ensures Total(r)
  {
    imap k | 0 <= k :: At(F, p, k)
  }

  predicate Trimmed<T(==)>(F: Field<T>, p: seq<T>) { |p| >= 1 && (|p| == 1 || p[|p| - 1] != F.zero) }

  // deg, with -1 for the -Infinity of the polynomial 0
  function Deg<T(==)>(F: Field<T>, p: seq<T>): int { if |p| == 1 && p[0] == F.zero then -1 else |p| - 1 }

  // Polynomial(a): an empty array is 0, then trim.
  method MakePolynomial<T(==, !new)>(F: Field<T>, a0: seq<T>) returns (r: seq<T>)
    ensures Trimmed(F, r) && Poly(F, r) == Poly(F, a0)
  {
    var a := if |a0| == 0 then [F.zero] else a0;
    var i := |a|;
    while i > 1 && a[i - 1] == F.zero
      invariant 1 <= i <= |a| && forall k :: i <= k < |a| ==> a[k] == F.zero
    {
      i := i - 1;
    }
    r := a[..i];
    forall k | 0 <= k ensures At(F, r, k) == At(F, a0, k) {}
  }

  // Trimmed arrays are equal when they stand for the same polynomial.
  lemma TrimmedUnique<T(!new)>(F: Field<T>, p: seq<T>, q: seq<T>)
    requires Trimmed(F, p) && Trimmed(F, q) && Poly(F, p) == Poly(F, q)
    ensures p == q
  {
    forall k | 0 <= k ensures At(F, p, k) == At(F, q, k) {
      assert Poly(F, p)[k] == Poly(F, q)[k];
    }
    assert At(F, p, |p| - 1) == At(F, q, |p| - 1) && At(F, p, |q| - 1) == At(F, q, |q| - 1);
    assert forall k :: 0 <= k < |p| && k < |q| ==> p[k] == At(F, p, k) == At(F, q, k) == q[k];
  }

  // ---------- polynomials are closed under sum and product ----------

  function AddSeq<T>(F: Field<T>, p: seq<T>, q: seq<T>): seq<T> {
    seq(|p| + |q|, k requires 0 <= k => F.add(At(F, p, k), At(F, q, k)))
  }

  function NegSeq<T>(F: Field<T>, p: seq<T>): seq<T> {
    seq(|p|, k requires 0 <= k < |p| => F.neg(p[k]))
  }

  ghost function MulSeq<T>(F: Field<T>, p: seq<T>, q: seq<T>): seq<T> {
    seq(|p| + |q|, k requires 0 <= k => Conv(F, Poly(F, p), Poly(F, q), k))
  }

  lemma AddSeqIs<T(!new)>(F: Field<T>, p: seq<T>, q: seq<T>)
    requires IsField(F)
    ensures Poly(F, AddSeq(F, p, q)) == Plus(F, Poly(F, p), Poly(F, q))
  {
    ZeroPlus(F, F.zero);
    forall k | 0 <= k ensures At(F, AddSeq(F, p, q), k) == F.add(At(F, p, k), At(F, q, k)) {}
  }

  lemma NegSeqIs<T(!new)>(F: Field<T>, p: seq<T>)
    requires IsField(F)
    ensures Poly(F, NegSeq(F, p)) == Negated(F, Poly(F, p))
  {
    NegZero(F);
    forall k | 0 <= k ensures At(F, NegSeq(F, p), k) == F.neg(At(F, p, k)) {}
  }

  lemma MulSeqIs<T(!new)>(F: Field<T>, p: seq<T>, q: seq<T>)
    requires IsField(F)
    ensures Poly(F, MulSeq(F, p, q)) == Times(F, Poly(F, p), Poly(F, q))
  {
    var f, g := Poly(F, p), Poly(F, q);
    var m, n := if p == [] then 0 else |p| - 1, if q == [] then 0 else |q| - 1;
    forall k: nat | k >= |p| + |q| ensures Conv(F, f, g, k) == F.zero {
      ConvTop(F, f, g, m, n, k);
      MulZero(F, f[m]);
      MulZero(F, g[n]);
    }
    forall k: nat ensures At(F, MulSeq(F, p, q), k) == Conv(F, f, g, k) {}
  }

  // ---------- addition and multiplication ----------

  // polynomial_add
  method Add<T(==, !new)>(F: Field<T>, a0: seq<T>, b0: seq<T>) returns (r: seq<T>)
    requires IsField(F) && Trimmed(F, a0) && Trimmed(F, b0)
    ensures Trimmed(F, r) && Poly(F, r) == Plus(F, Poly(F, a0), Poly(F, b0))
  {
    var a, b := a0, b0;
    if |a| < |b| {
      a, b := b, a;
      PlusCommutes(F, Poly(F, a0), Poly(F, b0));
    }
    var s: seq<T> := [];
    var i := 0;
    while i < |a|
      invariant 0 <= i <= |a| && |s| == i
      invariant forall k :: 0 <= k < i ==> s[k] == if k < |b| then F.add(a[k], b[k]) else a[k]
    {
      s := s + [if i < |b| then F.add(a[i], b[i]) else a[i]];
      i := i + 1;
    }
    SumPoly(F, a, b, s);
    r := MakePolynomial(F, s);
  }

  lemma SumPoly<T(!new)>(F: Field<T>, a: seq<T>, b: seq<T>, s: seq<T>)
    requires IsField(F) && |s| == |a| >= |b|
    requires forall k :: 0 <= k < |s| ==> s[k] == if k < |b| then F.add(a[k], b[k]) else a[k]
    ensures Poly(F, s) == Plus(F, Poly(F, a), Poly(F, b))
  {
    forall k | 0 <= k ensures At(F, s, k) == F.add(At(F, a, k), At(F, b, k)) {
      var x := At(F, a, k);
      assert Laws(F, x, x, x);
    }
  }

  // The neg operator: a leading coefficient stays nonzero.
  method Neg<T(==, !new)>(F: Field<T>, a: seq<T>) returns (r: seq<T>)
    requires IsField(F) && Trimmed(F, a)
    ensures Trimmed(F, r) && Poly(F, r) == Negated(F, Poly(F, a))
  {
    NegSeqIs(F, a);
    r := MakePolynomial(F, NegSeq(F, a));
  }

  // One row of polynomial_mul: r += x * X^i * b.
  method AddRow<T(!new)>(F: Field<T>, r: array<T>, x: T, i: nat, b: seq<T>)
    requires IsField(F) && i + |b| <= r.Length
    modifies r
    ensures Poly(F, r[..]) == Plus(F, Poly(F, old(r[..])), Times(F, Mono(F, x, i), Poly(F, b)))
  {
    ghost var r0 := r[..];
    var j := 0;
    while j < |b|
      invariant 0 <= j <= |b|
      invariant forall k :: 0 <= k < r.Length ==>
        r[k] == if i <= k < i + j then F.add(r0[k], F.mul(x, b[k - i])) else r0[k]
    {
      r[i + j] := F.add(r[i + j], F.mul(x, b[j]));
      j := j + 1;
    }
    RowAdded(F, r0, r[..], x, i, b);
  }

  lemma RowAdded<T(!new)>(F: Field<T>, r0: seq<T>, r1: seq<T>, x: T, i: nat, b: seq<T>)
    requires IsField(F) && |r0| == |r1| && i + |b| <= |r0|
    requires forall k :: 0 <= k < |r0| ==>
      r1[k] == if i <= k < i + |b| then F.add(r0[k], F.mul(x, b[k - i])) else r0[k]
    ensures Poly(F, r1) == Plus(F, Poly(F, r0), Times(F, Mono(F, x, i), Poly(F, b)))
  {
    hide Conv, IsField, Mono;
    forall k: nat ensures At(F, r1, k) == F.add(At(F, r0, k), Conv(F, Mono(F, x, i), Poly(F, b), k)) {
      MonoTimesPoly(F, x, i, b, k);
      PlusZero(F, At(F, r0, k));
    }
  }

  lemma PlusZero<T(!new)>(F: Field<T>, y: T)
    requires IsField(F)
    ensures F.add(y, F.zero) == y
  {
    assert Laws(F, y, y, y);
  }

  lemma MonoTimesPoly<T(!new)>(F: Field<T>, x: T, i: nat, b: seq<T>, k: nat)
    requires IsField(F)
    ensures Conv(F, Mono(F, x, i), Poly(F, b), k) == if i <= k < i + |b| then F.mul(x, b[k - i]) else F.zero
  {
    hide Conv, IsField;
    ConvMono(F, x, i, Poly(F, b), k);
    MulZero(F, x);
    if k >= i { assert Poly(F, b)[k - i] == At(F, b, k - i); }
  }

  // r holds the product of p and b.
  ghost predicate Holds<T>(F: Field<T>, r: seq<T>, p: seq<T>, b: seq<T>) {
    Poly(F, r) == Times(F, Poly(F, p), Poly(F, b))
  }

  method MulRow<T(!new)>(F: Field<T>, r: array<T>, a: seq<T>, i: nat, b: seq<T>)
    requires IsField(F) && i < |a| && i + |b| <= r.Length && Holds(F, r[..], a[..i], b)
    modifies r
    ensures Holds(F, r[..], a[..i + 1], b)
  {
    AddRow(F, r, a[i], i, b);
    OneCoefficientMore(F, a, i, Poly(F, b));
  }

  method MulRows<T(!new)>(F: Field<T>, r: array<T>, a: seq<T>, b: seq<T>)
    requires IsField(F) && |a| + |b| <= r.Length + 1 && Holds(F, r[..], a[..0], b)
    modifies r
    ensures Holds(F, r[..], a[..|a|], b)
  {
    hide Holds, IsField;
    var i := 0;
    while i < |a|
      invariant 0 <= i <= |a| && Holds(F, r[..], a[..i], b)
    {
      MulRow(F, r, a, i, b);
      i := i + 1;
    }
  }

  // polynomial_mul
  method Mul<T(==, !new)>(F: Field<T>, a: seq<T>, b: seq<T>) returns (p: seq<T>)
    requires IsField(F) && Trimmed(F, a) && Trimmed(F, b)
    ensures Trimmed(F, p) && Poly(F, p) == Times(F, Poly(F, a), Poly(F, b))
  {
    hide Holds, IsField, Poly, Times;
    var n := |a| + |b| - 1;
    var r := new T[n](_ => F.zero);
    MulNothing(F, r[..], a, b);
    MulRows(F, r, a, b);
    HoldsAll(F, r[..], a, b);
    p := MakePolynomial(F, r[..]);
  }

  lemma HoldsAll<T(!new)>(F: Field<T>, r: seq<T>, a: seq<T>, b: seq<T>)
    requires Holds(F, r, a[..|a|], b)
    ensures Poly(F, r) == Times(F, Poly(F, a), Poly(F, b))
  {
    assert a[..|a|] == a;
  }

  lemma MulNothing<T(!new)>(F: Field<T>, r: seq<T>, a: seq<T>, b: seq<T>)
    requires IsField(F) && forall k :: 0 <= k < |r| ==> r[k] == F.zero
    ensures Holds(F, r, a[..0], b)
  {
    var f, g := Poly(F, a[..0]), Poly(F, b);
    forall k: nat ensures Conv(F, f, g, k) == At(F, r, k) { ConvZero(F, f, g, k); }
  }

  lemma OneCoefficientMore<T(!new)>(F: Field<T>, a: seq<T>, i: nat, g: Power<T>)
    requires IsField(F) && Total(g) && i < |a|
    ensures Times(F, Poly(F, a[..i + 1]), g)
         == Plus(F, Times(F, Poly(F, a[..i]), g), Times(F, Mono(F, a[i], i), g))
  {
    var f, m := Poly(F, a[..i]), Mono(F, a[i], i);
    forall k: nat ensures At(F, a[..i + 1], k) == F.add(f[k], m[k]) {
      ZeroPlus(F, m[k]);
      assert Laws(F, f[k], f[k], f[k]);
    }
    assert Poly(F, a[..i + 1]) == Plus(F, f, m);
    TimesDistributes(F, g, f, m);
    TimesCommutes(F, g, Plus(F, f, m));
    TimesCommutes(F, g, f);
    TimesCommutes(F, g, m);
  }

  // ---------- division ----------

  // (q + m) * b + r1 == q * b + r when r == r1 + m * b
  lemma DivIdentity<T(!new)>(F: Field<T>, q: Power<T>, m: Power<T>, b: Power<T>, r1: Power<T>, r: Power<T>)
    requires IsField(F) && Total(q) && Total(m) && Total(b) && Total(r1) && Total(r)
    requires r == Plus(F, r1, Times(F, m, b))
    ensures Plus(F, Times(F, Plus(F, q, m), b), r1) == Plus(F, Times(F, q, b), r)
  {
    hide IsField, Plus, Times;
    var qb, mb := Times(F, q, b), Times(F, m, b);
    LeftDistributes(F, q, m, b);
    PlusAssociates(F, qb, mb, r1);
    PlusCommutes(F, mb, r1);
  }

  lemma LeftDistributes<T(!new)>(F: Field<T>, f: Power<T>, g: Power<T>, h: Power<T>)
    requires IsField(F) && Total(f) && Total(g) && Total(h)
    ensures Times(F, Plus(F, f, g), h) == Plus(F, Times(F, f, h), Times(F, g, h))
  {
    hide IsField, Plus, Times;
    TimesDistributes(F, h, f, g);
    TimesCommutes(F, h, Plus(F, f, g));
    TimesCommutes(F, h, f);
    TimesCommutes(F, h, g);
  }

  // a == q * b + r
  ghost predicate Dividing<T>(F: Field<T>, a: seq<T>, q: seq<T>, b: seq<T>, r: seq<T>) {
    Poly(F, a) == Plus(F, Times(F, Poly(F, q), Poly(F, b)), Poly(F, r))
  }

  lemma SetCoefficient<T(!new)>(F: Field<T>, q: seq<T>, i: nat, c: T)
    requires IsField(F) && i < |q| && q[i] == F.zero
    ensures Poly(F, q[i := c]) == Plus(F, Poly(F, q), Mono(F, c, i))
  {
    forall k: nat ensures At(F, q[i := c], k) == F.add(At(F, q, k), MonoAt(F, c, i, k)) {
      ZeroPlus(F, c);
      PlusZero(F, At(F, q, k));
    }
  }

  lemma DividingStep<T(!new)>(F: Field<T>, a: seq<T>, q: seq<T>, b: seq<T>, r: seq<T>, r1: seq<T>, i: nat, c: T)
    requires IsField(F) && Dividing(F, a, q, b, r) && i < |q| && q[i] == F.zero
    requires Poly(F, r) == Plus(F, Poly(F, r1), Times(F, Mono(F, c, i), Poly(F, b)))
    ensures Dividing(F, a, q[i := c], b, r1)
  {
    hide IsField, Plus, Times, Poly, Mono;
    SetCoefficient(F, q, i, c);
    DivIdentity(F, Poly(F, q), Mono(F, c, i), Poly(F, b), Poly(F, r1), Poly(F, r));
  }

  // r -= c * X^i * b, where the leading coefficients cancel.
  method SubtractRow<T(!new)>(F: Field<T>, r: array<T>, b: seq<T>, c: T, i: nat)
    requires IsField(F) && b != [] && i + |b| <= r.Length
    requires r[i + |b| - 1] == F.mul(c, b[|b| - 1])
    modifies r
    ensures Poly(F, old(r[..])) == Plus(F, Poly(F, r[..]), Times(F, Mono(F, c, i), Poly(F, b)))
    ensures r[i + |b| - 1] == F.zero
    ensures forall k :: i + |b| <= k < r.Length ==> r[k] == old(r[k])
  {
    ghost var r0 := r[..];
    var n2 := |b| - 1;
    r[i + n2] := F.zero;
    var j := 0;
    while j < n2
      invariant 0 <= j <= n2 && r[i + n2] == F.zero
      invariant forall k :: 0 <= k < r.Length && k != i + n2 ==>
        r[k] == if i <= k < i + j then Sub(F, r0[k], F.mul(b[k - i], c)) else r0[k]
    {
      r[i + j] := Sub(F, r[i + j], F.mul(b[j], c));
      j := j + 1;
    }
    RowSubtracted(F, r0, r[..], b, c, i);
  }

  lemma SubBack<T(!new)>(F: Field<T>, x: T, b: T, c: T)
    requires IsField(F)
    ensures x == F.add(Sub(F, x, F.mul(b, c)), F.mul(c, b))
  {
    var y := F.mul(b, c);
    assert Laws(F, b, c, c) && Laws(F, x, F.neg(y), y) && Laws(F, y, F.neg(y), y) && Laws(F, F.neg(y), y, y)
        && Laws(F, x, x, x);
  }

  // A coefficient of the row that was subtracted.
  lemma SubtractedAt<T(!new)>(F: Field<T>, x: T, y: T, b: T, c: T, last: bool)
    requires IsField(F) && (if last then x == F.mul(c, b) && y == F.zero else y == Sub(F, x, F.mul(b, c)))
    ensures x == F.add(y, F.mul(c, b))
  {
    hide IsField, Sub;
    if last { ZeroPlus(F, x); } else { SubBack(F, x, b, c); }
  }

  lemma RowSubtracted<T(!new)>(F: Field<T>, r0: seq<T>, r1: seq<T>, b: seq<T>, c: T, i: nat)
    requires IsField(F) && b != [] && i + |b| <= |r0| == |r1|
    requires r0[i + |b| - 1] == F.mul(c, b[|b| - 1]) && r1[i + |b| - 1] == F.zero
    requires forall k :: 0 <= k < |r0| && k != i + |b| - 1 ==>
      r1[k] == if i <= k < i + |b| - 1 then Sub(F, r0[k], F.mul(b[k - i], c)) else r0[k]
    ensures Poly(F, r0) == Plus(F, Poly(F, r1), Times(F, Mono(F, c, i), Poly(F, b)))
  {
    hide Conv, IsField, Mono, Sub;
    forall k: nat ensures At(F, r0, k) == F.add(At(F, r1, k), Conv(F, Mono(F, c, i), Poly(F, b), k)) {
      MonoTimesPoly(F, c, i, b, k);
      if i <= k < i + |b| {
        SubtractedAt(F, r0[k], r1[k], b[k - i], c, k == i + |b| - 1);
      } else {
        PlusZero(F, At(F, r1, k));
      }
    }
  }

  // Columns of r and q that are done: nothing of b's degree is left from i on.
  ghost predicate DoneFrom<T>(F: Field<T>, q: seq<T>, r: seq<T>, n2: nat, i: int) {
    && (forall k :: 0 <= k < |q| && k < i ==> q[k] == F.zero)
    && (forall k :: 0 <= k < |r| && k >= i + n2 ==> r[k] == F.zero)
  }

  // The turn for a column that is not zero.
  method DivColumn<T(==, !new)>(F: Field<T>, ghost a: seq<T>, q: array<T>, b: seq<T>, r: array<T>, i: nat)
    requires IsField(F) && q != r && Trimmed(F, b) && Deg(F, b) >= 0
    requires i < q.Length && i + |b| <= r.Length
    requires Dividing(F, a, q[..], b, r[..]) && q[i] == F.zero
    modifies q, r
    ensures Dividing(F, a, q[..], b, r[..])
    ensures forall k :: 0 <= k < q.Length && k != i ==> q[k] == old(q[k])
    ensures r[i + |b| - 1] == F.zero && forall k :: i + |b| <= k < r.Length ==> r[k] == old(r[k])
  {
    hide IsField, Dividing, Poly, Plus, Times, Mono;
    var n2 := |b| - 1;
    var c := F.mul(r[i + n2], F.inv(b[n2]));
    QuotientTimes(F, r[i + n2], b[n2]);
    ghost var q0, r0 := q[..], r[..];
    SubtractRow(F, r, b, c, i);
    q[i] := c;
    DividingStep(F, a, q0, b, r0, r[..], i, c);
    assert q[..] == q0[i := c];
  }

  // One turn of the loop of divrem.
  method DivTurn<T(==, !new)>(F: Field<T>, ghost a: seq<T>, q: array<T>, b: seq<T>, r: array<T>, i: nat)
    requires IsField(F) && q != r && Trimmed(F, b) && Deg(F, b) >= 0
    requires i < q.Length && i + |b| <= r.Length
    requires Dividing(F, a, q[..], b, r[..]) && DoneFrom(F, q[..], r[..], |b| - 1, i + 1)
    modifies q, r
    ensures Dividing(F, a, q[..], b, r[..]) && DoneFrom(F, q[..], r[..], |b| - 1, i)
  {
    hide IsField, Dividing;
    assert q[..][i] == F.zero;
    if r[i + |b| - 1] != F.zero {
      DivColumn(F, a, q, b, r, i);
    }
  }

  lemma QuotientTimes<T(!new)>(F: Field<T>, x: T, b: T)
    requires IsField(F) && b != F.zero
    ensures F.mul(F.mul(x, F.inv(b)), b) == x
  {
    assert Laws(F, x, F.inv(b), b) && Laws(F, b, F.inv(b), b) && Laws(F, x, x, x);
  }

  method DivTurns<T(==, !new)>(F: Field<T>, a: seq<T>, q: array<T>, b: seq<T>, r: array<T>)
    requires IsField(F) && q != r && Trimmed(F, b) && Deg(F, b) >= 0
    requires r.Length == |a| && q.Length == |a| - |b| + 1
    requires Dividing(F, a, q[..], b, r[..]) && DoneFrom(F, q[..], r[..], |b| - 1, q.Length)
    modifies q, r
    ensures Dividing(F, a, q[..], b, r[..]) && DoneFrom(F, q[..], r[..], |b| - 1, 0)
  {
    hide IsField, Dividing, DoneFrom;
    var i := q.Length - 1;
    while i >= 0
      invariant -1 <= i < q.Length
      invariant Dividing(F, a, q[..], b, r[..]) && DoneFrom(F, q[..], r[..], |b| - 1, i + 1)
    {
      DivTurn(F, a, q, b, r, i);
      i := i - 1;
    }
  }

  // What divrem gives back: a == q * b + r with r of a lower degree than b.
  ghost predicate Divided<T>(F: Field<T>, a: seq<T>, b: seq<T>, q: seq<T>, r: seq<T>) {
    && Trimmed(F, q) && Trimmed(F, r) && Dividing(F, a, q, b, r) && Deg(F, r) < Deg(F, b)
  }

  lemma DividingNothing<T(!new)>(F: Field<T>, a: seq<T>, q: seq<T>, b: seq<T>)
    requires IsField(F) && forall k :: 0 <= k < |q| ==> q[k] == F.zero
    ensures Dividing(F, a, q, b, a)
  {
    var f, g := Poly(F, q), Poly(F, b);
    forall k: nat ensures F.add(Conv(F, f, g, k), At(F, a, k)) == At(F, a, k) {
      ConvZero(F, f, g, k);
      ZeroPlus(F, At(F, a, k));
    }
  }

  // A trimmed array is as short as what it stands for allows.
  lemma ShortDegree<T(!new)>(F: Field<T>, r: seq<T>, s: seq<T>, n: nat)
    requires Trimmed(F, r) && Poly(F, r) == Poly(F, s) && forall k :: n <= k < |s| ==> s[k] == F.zero
    ensures Deg(F, r) < n
  {
    var k := |r| - 1;
    assert Poly(F, r)[k] == At(F, r, k) && Poly(F, s)[k] == At(F, s, k);
  }

  // Polynomial.divrem
  method DivRem<T(==, !new)>(F: Field<T>, a: seq<T>, b: seq<T>) returns (res: Result<(seq<T>, seq<T>)>)
    requires IsField(F) && Trimmed(F, a) && Trimmed(F, b)
    ensures res.Throws? <==> Deg(F, b) < 0
    ensures res.Ok? ==> Divided(F, a, b, res.value.0, res.value.1)
  {
    if Deg(F, b) < 0 { return Throws; }
    if |a| < |b| {
      DividingNothing(F, a, [F.zero], b);
      return Ok(([F.zero], a));
    }
    var r := new T[|a|](k requires 0 <= k < |a| => a[k]);
    var q := new T[|a| - |b| + 1](_ => F.zero);
    assert r[..] == a;
    DividingNothing(F, a, q[..], b);
    DivTurns(F, a, q, b, r);
    var p := MakePolynomial(F, q[..]);
    var s := MakePolynomial(F, r[..]);
    ShortDegree(F, s, r[..], |b| - 1);
    res := Ok((p, s));
  }
}
