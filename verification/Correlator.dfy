/** The correlator: what `Find` computes through two transforms, stated directly on
    the signal. */
module Correlators {
  import opened Bits
  import opened ComplexNumbers
  import opened Polynomials
  import opened FastTransform
  import opened Signals
  import opened Roots

  function Lift(x: seq<real>): (y: seq<Complex>)
    ensures |y| == |x| && forall i :: 0 <= i < |x| ==> y[i] == FromReal(x[i])
  {
    seq(|x|, i requires 0 <= i < |x| => FromReal(x[i]))
  }

  /** x cut or filled with zeros to n samples. */
  function Pad(x: seq<real>, n: nat): (y: seq<real>)
    ensures |y| == n && forall i :: 0 <= i < n ==> y[i] == if i < |x| then x[i] else 0.0
  {
    seq(n, i requires 0 <= i < n => if i < |x| then x[i] else 0.0)
  }

  /** The circular correlation of x with r at offset p. */
  function Lag(x: seq<real>, r: seq<real>, p: nat): real
    requires |x| > 0
  {
    if |r| == 0 then 0.0 else x[p % |x|] * r[0] + Lag(x, r[1..], p + 1)
  }

  lemma RealStep(a: real, b: real, t: real, c: real)
    requires c == a * b + t
    ensures Add(Mul(FromReal(a), FromReal(b)), FromReal(t)) == FromReal(c)
  {}

  lemma {:induction false} LagIsCorrelation(x: seq<real>, r: seq<real>, p: nat)
    requires |x| > 0
    ensures Correlation(Lift(x), Lift(r), p) == FromReal(Lag(x, r, p))
  {
    hide Mul, Add, FromReal;
    if |r| > 0 {
      LagIsCorrelation(x, r[1..], p + 1);
      assert Lift(r)[1..] == Lift(r[1..]);
      RealStep(x[p % |x|], r[0], Lag(x, r[1..], p + 1), Lag(x, r, p));
    } else {
      ZeroIsReal();
    }
  }

  lemma ZeroIsReal()
    ensures ZERO == FromReal(0.0)
  {}

  /** Trailing zeros in the reference contribute nothing. */
  lemma {:induction false} LagPad(x: seq<real>, r: seq<real>, n: nat, p: nat)
    requires |x| > 0 && n >= |r|
    ensures Lag(x, Pad(r, n), p) == Lag(x, r, p)
    decreases n
  {
    if n > 0 {
      var t := if |r| > 0 then r[1..] else [];
      LagPad(x, t, n - 1, p + 1);
      assert Pad(r, n)[1..] == Pad(t, n - 1);
      if |r| == 0 { TimesZero(x[p % |x|]); }
    } else {
      assert Pad(r, 0) == r;
    }
  }

  lemma TimesZero(a: real)
    ensures a * 0.0 == 0.0
  {}

  /** An offset whose reference ends inside x does not wrap. */
  lemma {:induction false} LagNoWrap(x: seq<real>, r: seq<real>, p: nat)
    requires |x| > 0 && p + |r| <= |x|
    ensures Lag(x, r, p) == Dot(x[p..p + |r|], r)
  {
    if |r| > 0 {
      LagNoWrap(x, r[1..], p + 1);
      DivModUnique(p, |x|, 0, p);
      assert x[p..p + |r|][1..] == x[p + 1..p + 1 + |r[1..]|];
    }
  }

  lemma {:induction false} ConjEval(x: seq<real>, z: Complex)
    ensures Conj(Eval(Lift(x), z)) == Eval(Lift(x), Conj(z))
  {
    hide Mul, Add, Conj, FromReal;
    if |x| == 0 {
      ConjUnits();
    } else {
      var y := Lift(x);
      ConjEval(x[1..], z);
      assert y[1..] == Lift(x[1..]);
      ConjReal(x[0]);
      ConjMul(z, Eval(y[1..], z));
      ConjAdd(y[0], Mul(z, Eval(y[1..], z)));
    }
  }

  /** The real part of c, divided by the transform's length. */
  function Unscale(c: Complex, n: nat): real
    requires n > 0
  {
    c.re * (1.0 / n as real)
  }

  lemma ScaledReal(n: nat, a: real)
    requires n > 0
    ensures Unscale(Mul(Count(n), FromReal(a)), n) == a
  {
    var m := n as real;
    assert Mul(Count(n), FromReal(a)).re == m * a;
    assert m * a * (1.0 / m) == a * (m * (1.0 / m));
  }

  /** The product of the transforms, transformed back, is the circular correlation. */
  lemma ProductIsLag(q: nat, x: seq<real>, r: seq<real>, w: Complex, prod: seq<Complex>, p: nat)
    requires Principal(q, w) && |x| == Pow2(q) == |prod| && |r| <= |x| && p < |x|
    requires forall k :: 0 <= k < |x| ==>
      prod[k] == Mul(Dft(Lift(x), w)[k], Conj(Dft(Lift(Pad(r, |x|)), w)[k]))
    ensures Unscale(Dft(prod, Conj(w))[p], |x|) == Lag(x, r, p)
  {
    hide *;
    var n := |x|;
    var lx, lr := Lift(x), Lift(Pad(r, n));
    forall k | 0 <= k < n ensures prod[k] == Mul(Eval(lx, Pow(w, k)), Eval(lr, Pow(Conj(w), k))) {
      ConjEval(Pad(r, n), Pow(w, k));
      PowConj(w, k);
      DftAt(lx, w, k);
      DftAt(lr, w, k);
    }
    CorrelationTheorem(q, w, lx, lr, prod, p);
    LagIsCorrelation(x, Pad(r, n), p);
    LagPad(x, r, n, p);
    DftAt(prod, Conj(w), p);
    ScaledReal(n, Lag(x, r, p));
  }

  lemma DftAt(x: seq<Complex>, w: Complex, k: nat)
    requires k < |x|
    ensures |Dft(x, w)| == |x| && Dft(x, w)[k] == Eval(x, Pow(w, k))
  {}

  /** The divisor at offset p: the energy under the reference, times the reference's. */
  function Divisor(sqrt: real -> real, ref: seq<real>, signal: seq<real>, p: nat): real
    requires p + |ref| <= |signal|
  {
    sqrt(Energy(signal[p..p + |ref|])) * sqrt(Energy(ref))
  }

  /** The normalised correlation at offset p, when the signal is held in `size` samples. */
  function Score(sqrt: real -> real, ref: seq<real>, size: nat, signal: seq<real>, p: nat): real
    requires p + |ref| <= |signal| && size > 0
    requires Divisor(sqrt, ref, signal, p) != 0.0
  {
    Lag(Pad(signal, size), ref, p) / Divisor(sqrt, ref, signal, p)
  }

  ghost predicate Scored(sqrt: real -> real, ref: seq<real>, signal: seq<real>, p: int) {
    0 <= p <= |signal| - |ref| && Divisor(sqrt, ref, signal, p) != 0.0
  }

  /** No offset that the transform does not reach has energy under the reference. */
  ghost predicate Outside(sqrt: real -> real, ref: seq<real>, size: nat, signal: seq<real>) {
    forall p: nat :: size <= p <= |signal| - |ref| ==> Divisor(sqrt, ref, signal, p) == 0.0
  }

  lemma ShortIsInside(sqrt: real -> real, ref: seq<real>, size: nat, signal: seq<real>)
    requires |signal| < |ref| + size
    ensures Outside(sqrt, ref, size, signal)
  {}

  lemma ScoredInside(sqrt: real -> real, ref: seq<real>, size: nat, signal: seq<real>, p: nat)
    requires Outside(sqrt, ref, size, signal) && p + |ref| <= |signal| && Divisor(sqrt, ref, signal, p) != 0.0
    ensures p < size
  {
    hide Divisor;
  }

  /** What `Find` answers: the first offset of greatest score among those below
      `bound` that have one, or (0, 0) where none has. */
  ghost predicate BestBelow(sqrt: real -> real, ref: seq<real>, size: nat, signal: seq<real>,
                            bound: int, found: bool, offset: int, score: real)
    requires size > 0
  {
    (found ==>
      Scored(sqrt, ref, signal, offset) && offset < bound
      && score == Score(sqrt, ref, size, signal, offset)
      && (forall p :: p < bound && Scored(sqrt, ref, signal, p) ==> Score(sqrt, ref, size, signal, p) <= score)
      && (forall p :: p < offset && Scored(sqrt, ref, signal, p) ==> Score(sqrt, ref, size, signal, p) < score))
    && (!found ==> offset == 0 && forall p :: p < bound ==> !Scored(sqrt, ref, signal, p))
  }

  ghost predicate Answer(sqrt: real -> real, ref: seq<real>, size: nat, signal: seq<real>, offset: int, score: real)
    requires size > 0
  {
    var bound := |signal| - |ref| + 1;
    BestBelow(sqrt, ref, size, signal, bound, true, offset, score)
    || (BestBelow(sqrt, ref, size, signal, bound, false, offset, score) && score == 0.0)
  }

  /** One offset further: the scan keeps the first greatest score. */
  lemma BestStep(sqrt: real -> real, ref: seq<real>, size: nat, signal: seq<real>,
                 p: int, found: bool, best: int, bestScore: real, s: real)
    requires size > 0 && 0 <= p <= |signal| - |ref|
    requires BestBelow(sqrt, ref, size, signal, p, found, best, bestScore)
    requires Divisor(sqrt, ref, signal, p) != 0.0 ==> s == Score(sqrt, ref, size, signal, p)
    ensures var scored := Divisor(sqrt, ref, signal, p) != 0.0;
      var better := scored && (!found || s > bestScore);
      BestBelow(sqrt, ref, size, signal, p + 1, found || better,
                if better then p else best, if better then s else bestScore)
  {
    hide Divisor, Score;
  }

  lemma DenIs(sqrt: real -> real, ref: seq<real>, signal: seq<real>, p: nat, energy: real, norm: real)
    requires p + |ref| <= |signal| && energy == Energy(signal[p..p + |ref|]) && norm == sqrt(Energy(ref))
    ensures sqrt(energy) * norm == Divisor(sqrt, ref, signal, p)
  {
    hide Energy;
  }

  /** What the scan divides at an offset is the score there. */
  lemma ScoreIs(sqrt: real -> real, ref: seq<real>, size: nat, signal: seq<real>, p: nat, y: Complex, den: real)
    requires size > 0 && p + |ref| <= |signal| && den == Divisor(sqrt, ref, signal, p) != 0.0
    requires Unscale(y, size) == Lag(Pad(signal, size), ref, p)
    ensures y.re * (1.0 / size as real) / den == Score(sqrt, ref, size, signal, p)
  {
    hide Lag, Divisor;
    UnscaleIs(y, size);
  }

  lemma NothingBelowZero(sqrt: real -> real, ref: seq<real>, size: nat, signal: seq<real>)
    requires size > 0
    ensures BestBelow(sqrt, ref, size, signal, 0, false, 0, 0.0)
  {}

  lemma AnswerIs(sqrt: real -> real, ref: seq<real>, size: nat, signal: seq<real>,
                 found: bool, offset: int, score: real)
    requires size > 0
    requires BestBelow(sqrt, ref, size, signal, |signal| - |ref| + 1, found, offset, score)
    ensures found ==> Answer(sqrt, ref, size, signal, offset, score)
    ensures !found ==> Answer(sqrt, ref, size, signal, 0, 0.0)
  {
    hide Divisor, Score;
  }

  /** The energy under the reference slides by one sample on and one sample off. */
  lemma EnergySlides(s: seq<real>, m: nat, p: nat)
    requires 0 < p && p + m <= |s|
    ensures Energy(s[p..p + m]) == Energy(s[p - 1..p - 1 + m]) + (s[p + m - 1] * s[p + m - 1] - s[p - 1] * s[p - 1])
  {
    if m == 0 {
      assert s[p..p] == [] == s[p - 1..p - 1];
    } else {
      var c := s[p..p + m - 1];
      assert s[p..p + m] == c + [s[p + m - 1]];
      DotAppend(c, c, s[p + m - 1], s[p + m - 1]);
      assert s[p - 1..p - 1 + m][1..] == c;
    }
  }

  lemma EnergyPrefix(s: seq<real>, i: nat)
    requires i < |s|
    ensures Energy(s[..i + 1]) == Energy(s[..i]) + s[i] * s[i]
  {
    DotAppend(s[..i], s[..i], s[i], s[i]);
    assert s[..i + 1] == s[..i] + [s[i]];
  }

  lemma EnergyOfNone(s: seq<real>)
    ensures Energy(s[..0]) == 0.0
  {}

  class Correlator {
    const sqrt: real -> real
    const ref: seq<real>
    const refFft: seq<Complex>
    const refNorm: real
    const window: int
    const size: nat
    ghost const q: nat

    ghost predicate Valid() {
      && IsSqrt(sqrt)
      && size == Pow2(q) && size >= window + |ref| && size >= |ref|
      && (forall i: nat :: Pow2(i) >= window + |ref| ==> Pow2(i) >= size)
      && refFft == Dft(Lift(Pad(ref, size)), Table(sqrt)(q))
      && refNorm == sqrt(Energy(ref))
    }

    constructor (sqrt: real -> real, ref: seq<real>, window: int)
      requires IsSqrt(sqrt) && forall i: nat :: Pow2(i) >= window + |ref| ==> Pow2(i) >= |ref|
      ensures Valid() && this.sqrt == sqrt && this.ref == ref && this.window == window
      ensures size >= window + |ref|
    {
      hide Energy, Dot, FromReal, Dft, IsSqrt, RootTable, Pow2;
      var n, k := NextPow2(window + |ref|);
      var h := new Complex[n](_ => ZERO);
      var norm := 0.0;
      EnergyOfNone(ref);
      var i := 0;
      while i < |ref|
        invariant 0 <= i <= |ref|
        invariant norm == Energy(ref[..i])
        invariant forall j {:trigger h[j]} :: 0 <= j < n ==> h[j] == if j < i then FromReal(ref[j]) else ZERO
      {
        h[i] := FromReal(ref[i]);
        norm := norm + ref[i] * ref[i];
        EnergyPrefix(ref, i);
        i := i + 1;
      }
      assert ref[..|ref|] == ref;
      ZeroIsReal();
      assert h[..] == Lift(Pad(ref, n));
      TableIsRootTable(sqrt);
      Fft(h, false, Table(sqrt), k);
      this.sqrt := sqrt;
      this.ref := ref;
      this.refFft := h[..];
      this.refNorm := sqrt(norm);
      this.window := window;
      this.size := n;
      this.q := k;
    }

    /** The circular correlation at every offset, scaled by the transform's length. */
    method Lags(signal: seq<real>) returns (y: seq<Complex>)
      requires Valid()
      ensures |y| == size
      ensures forall p :: 0 <= p < size ==> Unscale(y[p], size) == Lag(Pad(signal, size), ref, p)
    {
      hide Mul, Conj, Lag, Dft, Principal, IsSqrt, Pow2, RootTable, Root, Unscale, FromReal;
      var x := new Complex[size](_ => ZERO);
      var i := 0;
      while i < |signal| && i < size
        invariant 0 <= i <= |signal| && i <= size
        invariant forall j {:trigger x[j]} :: 0 <= j < size ==> x[j] == if j < i then FromReal(signal[j]) else ZERO
      {
        x[i] := FromReal(signal[i]);
        i := i + 1;
      }
      ZeroIsReal();
      ghost var s := Pad(signal, size);
      assert x[..] == Lift(s);
      TableIsRootTable(sqrt);
      ghost var w := Table(sqrt)(q);
      TablePrincipal(Table(sqrt), q);
      DftLength(Lift(Pad(ref, size)), w);
      Fft(x, false, Table(sqrt), q);
      ghost var forward := x[..];
      assert forward == Dft(Lift(s), w);
      i := 0;
      while i < size
        invariant 0 <= i <= size
        invariant forall j {:trigger x[j]} :: 0 <= j < i ==> x[j] == Mul(forward[j], Conj(refFft[j]))
        invariant forall j {:trigger x[j]} :: i <= j < size ==> x[j] == forward[j]
      {
        x[i] := Mul(x[i], Conj(refFft[i]));
        i := i + 1;
      }
      ghost var prod := x[..];
      Fft(x, true, Table(sqrt), q);
      assert x[..] == Dft(prod, Conj(w));
      y := x[..];
      forall p | 0 <= p < size ensures Unscale(y[p], size) == Lag(Pad(signal, size), ref, p) {
        ProductIsLag(q, s, ref, w, prod, p);
      }
    }

    /** The offset at which the reference best lines up, and the score there. The scan
        reads the transform at every offset with energy, which must lie inside it. */
    method Find(signal: seq<real>) returns (offset: int, score: real)
      requires Valid()
      requires Outside(sqrt, ref, size, signal)
      ensures |signal| < |ref| ==> offset == 0 && score == 0.0
      ensures |signal| >= |ref| ==> Answer(sqrt, ref, size, signal, offset, score)
    {
      hide Outside, BestBelow, Answer, Score, Divisor, Energy, Dot, Lag, Unscale, IsSqrt, Pow2, Dft;
      if |signal| < |ref| {
        return 0, 0.0;
      }
      var x := Lags(signal);
      var inv := 1.0 / size as real;
      var m := |ref|;
      var energy := FirstEnergy(signal, m);
      var last := |signal| - m;
      var best, bestScore, found := 0, 0.0, false;
      NothingBelowZero(sqrt, ref, size, signal);
      var p := 0;
      while p <= last
        invariant 0 <= p <= last + 1
        invariant p == 0 ==> energy == Energy(signal[0..m])
        invariant p > 0 ==> energy == Energy(signal[p - 1..p - 1 + m])
        invariant BestBelow(sqrt, ref, size, signal, p, found, best, bestScore)
      {
        if p > 0 {
          EnergySlides(signal, m, p);
          energy := energy + (signal[p + m - 1] * signal[p + m - 1] - signal[p - 1] * signal[p - 1]);
        }
        assert energy == Energy(signal[p..p + m]);
        var den := sqrt(energy) * refNorm;
        DenIs(sqrt, ref, signal, p, energy, refNorm);
        if den == 0.0 {
          BestStep(sqrt, ref, size, signal, p, found, best, bestScore, 0.0);
        } else {
          ScoredInside(sqrt, ref, size, signal, p);
          ScoreIs(sqrt, ref, size, signal, p, x[p], den);
          var s := x[p].re * inv / den;
          BestStep(sqrt, ref, size, signal, p, found, best, bestScore, s);
          if !found || s > bestScore {
            best, bestScore, found := p, s, true;
          }
        }
        p := p + 1;
      }
      AnswerIs(sqrt, ref, size, signal, found, best, bestScore);
      if !found {
        return 0, 0.0;
      }
      return best, bestScore;
    }
  }

  method FirstEnergy(signal: seq<real>, m: nat) returns (energy: real)
    requires m <= |signal|
    ensures energy == Energy(signal[0..m])
  {
    energy := 0.0;
    var i := 0;
    while i < m
      invariant 0 <= i <= m
      invariant energy == Energy(signal[..i])
    {
      energy := energy + signal[i] * signal[i];
      EnergyPrefix(signal, i);
      i := i + 1;
    }
    assert signal[0..m] == signal[..m];
  }

  lemma UnscaleIs(c: Complex, n: nat)
    requires n > 0
    ensures Unscale(c, n) == c.re * (1.0 / n as real)
  {}

  lemma DftLength(x: seq<Complex>, w: Complex)
    ensures |Dft(x, w)| == |x|
  {}
}
