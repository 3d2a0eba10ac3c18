/** Real signals: inner products, energies and the inequality between them. */
module Signals {

  function Dot(a: seq<real>, b: seq<real>): real
    requires |a| == |b|
  {
    if |a| == 0 then 0.0 else a[0] * b[0] + Dot(a[1..], b[1..])
  }

  function Energy(a: seq<real>): real { Dot(a, a) }

  /** The energy of s*a - t*b. */
  ghost function Gap(a: seq<real>, b: seq<real>, s: real, t: real): real
    requires |a| == |b|
  {
    if |a| == 0 then 0.0
    else (s * a[0] - t * b[0]) * (s * a[0] - t * b[0]) + Gap(a[1..], b[1..], s, t)
  }

  function Product(a: real, b: real): real { a * b }

  lemma ProductSign(a: real, b: real)
    requires a > 0.0 && b > 0.0
    ensures Product(a, b) > 0.0
  {
    assert a * b > 0.0;
  }

  lemma ProductNeg(a: real, b: real)
    ensures Product(-a, -b) == Product(a, b)
  {}

  lemma ProductZero(b: real)
    ensures Product(0.0, b) == 0.0
  {}

  lemma SquareSign(x: real)
    ensures x * x == Product(x, x) >= 0.0
    ensures Product(x, x) == 0.0 <==> x == 0.0
  {
    assert x * x == Product(x, x);
    hide *;
    if x > 0.0 {
      ProductSign(x, x);
    } else if x < 0.0 {
      ProductSign(-x, -x);
      ProductNeg(x, x);
    } else {
      ProductZero(x);
    }
  }

  lemma {:induction false} EnergyNonNegative(a: seq<real>)
    ensures Energy(a) >= 0.0
    ensures Energy(a) == 0.0 <==> forall i :: 0 <= i < |a| ==> a[i] == 0.0
  {
    if |a| > 0 {
      EnergyHead(a);
      SquareSign(a[0]);
      EnergyNonNegative(a[1..]);
      hide *;
      assert forall i :: 1 <= i < |a| ==> a[i] == a[1..][i - 1];
    }
  }

  lemma {:induction false} DotZero(a: seq<real>, b: seq<real>)
    requires |a| == |b| && forall i :: 0 <= i < |a| ==> a[i] == 0.0
    ensures Dot(a, b) == 0.0
  {
    if |a| > 0 { DotZero(a[1..], b[1..]); }
  }

  lemma {:induction false} DotAppend(a: seq<real>, b: seq<real>, x: real, y: real)
    requires |a| == |b|
    ensures Dot(a + [x], b + [y]) == Dot(a, b) + x * y
  {
    if |a| > 0 {
      DotAppend(a[1..], b[1..], x, y);
      assert (a + [x])[1..] == a[1..] + [x] && (b + [y])[1..] == b[1..] + [y];
    }
  }

  lemma ZeroTerms(s: real, t: real)
    ensures s * s * 0.0 - 2.0 * (s * t) * 0.0 + t * t * 0.0 == 0.0
  {}

  lemma GapStep(s: real, t: real, u: real, v: real, e: real, d: real, f: real)
    ensures (s * u - t * v) * (s * u - t * v) + (s * s * e - 2.0 * (s * t) * d + t * t * f)
         == s * s * (u * u + e) - 2.0 * (s * t) * (u * v + d) + t * t * (v * v + f)
  {}

  lemma {:induction false} GapExpand(a: seq<real>, b: seq<real>, s: real, t: real)
    requires |a| == |b|
    ensures Gap(a, b, s, t) == s * s * Energy(a) - 2.0 * (s * t) * Dot(a, b) + t * t * Energy(b)
  {
    if |a| == 0 {
      assert Gap(a, b, s, t) == Energy(a) == Dot(a, b) == Energy(b) == 0.0;
      hide *;
      ZeroTerms(s, t);
    } else {
      var a', b' := a[1..], b[1..];
      GapExpand(a', b', s, t);
      hide *;
      calc {
        Gap(a, b, s, t);
        { GapFirst(a, b, s, t); }
        (s * a[0] - t * b[0]) * (s * a[0] - t * b[0]) + Gap(a', b', s, t);
        (s * a[0] - t * b[0]) * (s * a[0] - t * b[0])
          + (s * s * Energy(a') - 2.0 * (s * t) * Dot(a', b') + t * t * Energy(b'));
        { GapStep(s, t, a[0], b[0], Energy(a'), Dot(a', b'), Energy(b')); }
        s * s * (a[0] * a[0] + Energy(a')) - 2.0 * (s * t) * (a[0] * b[0] + Dot(a', b'))
          + t * t * (b[0] * b[0] + Energy(b'));
        { EnergyHead(a); DotHead(a, b); EnergyHead(b); }
        s * s * Energy(a) - 2.0 * (s * t) * Dot(a, b) + t * t * Energy(b);
      }
    }
  }

  lemma EnergyHead(a: seq<real>)
    requires |a| > 0
    ensures Energy(a) == a[0] * a[0] + Energy(a[1..])
  {}

  lemma DotHead(a: seq<real>, b: seq<real>)
    requires |a| == |b| > 0
    ensures Dot(a, b) == a[0] * b[0] + Dot(a[1..], b[1..])
  {}

  lemma GapFirst(a: seq<real>, b: seq<real>, s: real, t: real)
    requires |a| == |b| > 0
    ensures Gap(a, b, s, t) == (s * a[0] - t * b[0]) * (s * a[0] - t * b[0]) + Gap(a[1..], b[1..], s, t)
  {}

  lemma {:induction false} GapNonNegative(a: seq<real>, b: seq<real>, s: real, t: real)
    requires |a| == |b|
    ensures Gap(a, b, s, t) >= 0.0
    ensures Gap(a, b, s, t) == 0.0 ==> forall i :: 0 <= i < |a| ==> s * a[i] == t * b[i]
  {
    hide Gap, Product;
    if |a| > 0 {
      GapFirst(a, b, s, t);
      var d := s * a[0] - t * b[0];
      SquareSign(d);
      GapNonNegative(a[1..], b[1..], s, t);
      if Gap(a, b, s, t) == 0.0 {
        forall i | 0 <= i < |a| ensures s * a[i] == t * b[i] {
          if i > 0 { assert a[i] == a[1..][i - 1] && b[i] == b[1..][i - 1]; }
        }
      }
    } else {
      GapEmpty(a, b, s, t);
    }
  }

  lemma GapEmpty(a: seq<real>, b: seq<real>, s: real, t: real)
    requires |a| == |b| == 0
    ensures Gap(a, b, s, t) == 0.0
  {}

  lemma GapAtProjection(e: real, d: real, f: real)
    ensures d * d * e - 2.0 * (d * e) * d + e * e * f == e * (e * f - d * d)
  {}

  lemma PositiveFactor(e: real, x: real)
    requires e > 0.0 && e * x >= 0.0
    ensures x >= 0.0
  {}

  /** Cauchy-Schwarz, with its case of equality. */
  lemma CauchySchwarz(a: seq<real>, b: seq<real>)
    requires |a| == |b|
    ensures Dot(a, b) * Dot(a, b) <= Energy(a) * Energy(b)
    ensures Dot(a, b) * Dot(a, b) == Energy(a) * Energy(b) ==>
      forall i :: 0 <= i < |a| ==> Dot(a, b) * a[i] == Energy(a) * b[i]
  {
    hide Dot, Energy, Gap;
    var e, d, f := Energy(a), Dot(a, b), Energy(b);
    EnergyNonNegative(a);
    if e == 0.0 {
      DotZero(a, b);
    } else {
      GapExpand(a, b, d, e);
      GapNonNegative(a, b, d, e);
      GapAtProjection(e, d, f);
      PositiveFactor(e, e * f - d * d);
    }
  }
}
