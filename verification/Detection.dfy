/** What the correlator's answer means: its range, and that a window holding one
    delayed copy of the reference is answered with that delay. */
module Detection {
  import opened Signals
  import opened Roots
  import opened Correlators

  /** The answer depends on the signal alone. */
  lemma AnswerUnique(sqrt: real -> real, ref: seq<real>, size: nat, signal: seq<real>,
                     o1: int, s1: real, o2: int, s2: real)
    requires size > 0
    requires Answer(sqrt, ref, size, signal, o1, s1) && Answer(sqrt, ref, size, signal, o2, s2)
    ensures o1 == o2 && s1 == s2
  {
    hide Score, Divisor;
  }

  /** Inside the transform's size the score's numerator is the plain inner product. */
  lemma LagIsDot(ref: seq<real>, size: nat, signal: seq<real>, p: nat)
    requires 0 < |signal| <= size && p + |ref| <= |signal|
    ensures Lag(Pad(signal, size), ref, p) == Dot(signal[p..p + |ref|], ref)
  {
    LagNoWrap(Pad(signal, size), ref, p);
    assert Pad(signal, size)[p..p + |ref|] == signal[p..p + |ref|];
  }

  lemma ProductBound(d: real, n: real)
    requires n > 0.0 && Product(d, d) <= Product(n, n)
    ensures -n <= d <= n
  {
    hide *;
    if d > n { ProductOrder(n, d); }
    if d < -n { ProductOrder(n, -d); ProductNeg(d, d); }
  }

  lemma Ratio(d: real, n: real)
    requires n > 0.0 && -n <= d <= n
    ensures -1.0 <= d / n <= 1.0
    ensures d / n == 1.0 <==> d == n
    ensures d / n >= 0.0 <==> d >= 0.0
  {
    var r := d / n;
    assert r * n == d;
  }

  lemma ProductMonotone(x: real, y: real)
    requires x >= 0.0 && y >= 0.0 && Product(x, y) != 0.0
    ensures Product(x, y) > 0.0
  {}

  lemma DivisorIs(sqrt: real -> real, ref: seq<real>, signal: seq<real>, p: nat)
    requires p + |ref| <= |signal|
    ensures Divisor(sqrt, ref, signal, p) == Product(sqrt(Energy(signal[p..p + |ref|])), sqrt(Energy(ref)))
  {}

  /** Everything about one score: its divisor is positive, its size is at most one,
      it is one exactly when the correlation equals the divisor. */
  lemma ScoreFacts(sqrt: real -> real, ref: seq<real>, size: nat, signal: seq<real>, p: nat)
    requires IsSqrt(sqrt) && 0 < |signal| <= size && p + |ref| <= |signal|
    requires Divisor(sqrt, ref, signal, p) != 0.0
    ensures var d, n := Dot(signal[p..p + |ref|], ref), Divisor(sqrt, ref, signal, p);
      n > 0.0
      && Product(n, n) == Energy(signal[p..p + |ref|]) * Energy(ref)
      && -1.0 <= Score(sqrt, ref, size, signal, p) <= 1.0
      && (Score(sqrt, ref, size, signal, p) == 1.0 <==> d == n)
      && (Score(sqrt, ref, size, signal, p) >= 0.0 <==> d >= 0.0)
  {
    hide *;
    var a := signal[p..p + |ref|];
    var d, n := Dot(a, ref), Divisor(sqrt, ref, signal, p);
    var x, y := sqrt(Energy(a)), sqrt(Energy(ref));
    DivisorIs(sqrt, ref, signal, p);
    EnergyNonNegative(a);
    EnergyNonNegative(ref);
    SqrtOf(sqrt, Energy(a));
    SqrtOf(sqrt, Energy(ref));
    ProductMonotone(x, y);
    ProductSwap(x, y);
    ProductIs(Energy(a), Energy(ref));
    CauchySchwarz(a, ref);
    ProductIs(d, d);
    ProductBound(d, n);
    Ratio(d, n);
    LagIsDot(ref, size, signal, p);
    ScoreRatio(sqrt, ref, size, signal, p);
  }

  lemma ProductIs(a: real, b: real)
    ensures Product(a, b) == a * b
  {}

  lemma ScoreRatio(sqrt: real -> real, ref: seq<real>, size: nat, signal: seq<real>, p: nat)
    requires 0 < |signal| <= size && p + |ref| <= |signal|
    requires Divisor(sqrt, ref, signal, p) != 0.0
    ensures Score(sqrt, ref, size, signal, p)
         == Lag(Pad(signal, size), ref, p) / Divisor(sqrt, ref, signal, p)
  {}

  /** s is the correlation at offset p over the two energies' roots, where those are not
      nought. */
  ghost predicate Measures(sqrt: real -> real, ref: seq<real>, signal: seq<real>, p: int, s: real) {
    0 <= p <= |signal| - |ref|
    && var w := signal[p..p + |ref|];
       var n := sqrt(Dot(w, w)) * sqrt(Dot(ref, ref));
       n != 0.0 && s * n == Dot(w, ref)
  }

  lemma MeasuresScore(sqrt: real -> real, ref: seq<real>, size: nat, signal: seq<real>, p: int, s: real)
    requires 0 < |signal| <= size
    ensures Measures(sqrt, ref, signal, p, s) <==>
      Scored(sqrt, ref, signal, p) && s == Score(sqrt, ref, size, signal, p)
  {
    if Scored(sqrt, ref, signal, p) {
      var d, n := Dot(signal[p..p + |ref|], ref), Divisor(sqrt, ref, signal, p);
      LagIsDot(ref, size, signal, p);
      ScoreRatio(sqrt, ref, size, signal, p);
      hide Score, Dot, Lag, Pad;
      assert d / n * n == d;
      if s * n == d { assert s == s * n / n; }
    }
  }

  /** The answer, in full: the first offset of the greatest score there is, with that
      score, and (0, 0) where there is none. */
  lemma AnswerMeans(sqrt: real -> real, ref: seq<real>, size: nat, signal: seq<real>, offset: int, score: real)
    requires 0 < |signal| <= size && |ref| <= |signal|
    ensures Answer(sqrt, ref, size, signal, offset, score) <==>
      (Measures(sqrt, ref, signal, offset, score)
       && forall p, s :: Measures(sqrt, ref, signal, p, s) ==> s <= score && (p < offset ==> s < score))
      || (offset == 0 && score == 0.0 && forall p, s :: !Measures(sqrt, ref, signal, p, s))
  {
    forall p, s
      ensures Measures(sqrt, ref, signal, p, s) <==>
        Scored(sqrt, ref, signal, p) && s == Score(sqrt, ref, size, signal, p)
    {
      MeasuresScore(sqrt, ref, size, signal, p, s);
    }
    forall p | Scored(sqrt, ref, signal, p)
      ensures 0 <= p <= |signal| - |ref| && Measures(sqrt, ref, signal, p, Score(sqrt, ref, size, signal, p))
    {}
    hide Score, Measures, Scored;
  }

  /** The returned score is never outside [-1, 1]. */
  lemma AnswerRange(sqrt: real -> real, ref: seq<real>, size: nat, signal: seq<real>, offset: int, score: real)
    requires IsSqrt(sqrt) && 0 < |signal| <= size
    requires Answer(sqrt, ref, size, signal, offset, score)
    ensures -1.0 <= score <= 1.0
    ensures offset == 0 || 0 <= offset <= |signal| - |ref|
  {
    hide Score, Divisor, IsSqrt;
    if Scored(sqrt, ref, signal, offset) {
      ScoreFacts(sqrt, ref, size, signal, offset);
    }
  }

  /** The documented lower bound of zero holds exactly when some offset with energy
      correlates non-negatively, or when no offset has energy at all. */
  lemma AnswerNonNegative(sqrt: real -> real, ref: seq<real>, size: nat, signal: seq<real>, offset: int, score: real)
    requires IsSqrt(sqrt) && 0 < |signal| <= size && |ref| <= |signal|
    requires Answer(sqrt, ref, size, signal, offset, score)
    ensures score >= 0.0 <==>
      ((exists p :: Scored(sqrt, ref, signal, p) && Dot(signal[p..p + |ref|], ref) >= 0.0)
       || (forall p :: !Scored(sqrt, ref, signal, p)))
  {
    forall p | Scored(sqrt, ref, signal, p)
      ensures Score(sqrt, ref, size, signal, p) >= 0.0 <==> Dot(signal[p..p + |ref|], ref) >= 0.0
    {
      ScoreFacts(sqrt, ref, size, signal, p);
    }
    hide Score, Divisor, IsSqrt, Dot;
  }

  function Negated(a: seq<real>): (b: seq<real>)
    ensures |b| == |a| && forall i :: 0 <= i < |a| ==> b[i] == -a[i]
  {
    seq(|a|, i requires 0 <= i < |a| => -a[i])
  }

  lemma {:induction false} NegatedProducts(a: seq<real>)
    ensures Dot(Negated(a), a) == -Energy(a) && Energy(Negated(a)) == Energy(a)
  {
    if |a| > 0 {
      var b := Negated(a);
      assert b[1..] == Negated(a[1..]);
      NegatedProducts(a[1..]);
      EnergyHead(a);
      EnergyHead(b);
      DotHead(b, a);
      assert b[0] * a[0] == -(a[0] * a[0]) && b[0] * b[0] == a[0] * a[0];
    }
  }

  lemma MinusOne(e: real)
    requires e != 0.0
    ensures -e / e == -1.0
  {}

  /** A window equal to minus the reference scores -1, whatever the reference: the bound
      of zero fails. */
  lemma OppositeWindow(sqrt: real -> real, ref: seq<real>, size: nat, offset: int, score: real)
    requires IsSqrt(sqrt) && Energy(ref) > 0.0 && 0 < |ref| <= size
    requires Answer(sqrt, ref, size, Negated(ref), offset, score)
    ensures offset == 0 && score == -1.0
  {
    var signal, e := Negated(ref), Energy(ref);
    assert signal[0..0 + |ref|] == signal;
    hide Energy, Dot, IsSqrt, Lag, Product;
    NegatedProducts(ref);
    LagIsDot(ref, size, signal, 0);
    SqrtOf(sqrt, e);
    DivisorIs(sqrt, ref, signal, 0);
    assert Divisor(sqrt, ref, signal, 0) == e;
    assert Scored(sqrt, ref, signal, 0);
    ScoreRatio(sqrt, ref, size, signal, 0);
    MinusOne(e);
  }

  // One delayed copy of the reference.

  /** t samples of which those from d on are ref, and zero elsewhere. */
  function Delayed(ref: seq<real>, d: nat, t: nat): (w: seq<real>)
    ensures |w| == t
    ensures forall i :: 0 <= i < t ==> w[i] == if d <= i < d + |ref| then ref[i - d] else 0.0
  {
    seq(t, i requires 0 <= i < t => if d <= i < d + |ref| then ref[i - d] else 0.0)
  }

  /** Before the true offset the window is ref moved later, which cannot be a
      positive multiple of ref unless ref is silent. */
  lemma EarlyIsNotMultiple(ref: seq<real>, a: seq<real>, s: nat)
    requires |a| == |ref| && s > 0
    requires forall i :: 0 <= i < |a| ==> a[i] == if s <= i then ref[i - s] else 0.0
    requires Energy(a) > 0.0
    ensures Dot(a, ref) * Dot(a, ref) != Energy(a) * Energy(ref)
  {
    hide *;
    var d, e := Dot(a, ref), Energy(a);
    CauchySchwarz(a, ref);
    if d * d == e * Energy(ref) {
      ShiftedSilence(ref, a, s, d, e, |ref|);
      EnergyNonNegative(a);
    }
  }

  lemma {:induction false} ShiftedSilence(ref: seq<real>, a: seq<real>, s: nat, d: real, e: real, n: nat)
    requires |a| == |ref| && s > 0 && n <= |ref| && e > 0.0
    requires forall i :: 0 <= i < |a| ==> a[i] == if s <= i then ref[i - s] else 0.0
    requires forall i :: 0 <= i < |a| ==> d * a[i] == e * ref[i]
    ensures forall i :: 0 <= i < n ==> ref[i] == 0.0
    ensures forall i :: 0 <= i < n ==> a[i] == 0.0
  {
    if n > 0 {
      ShiftedSilence(ref, a, s, d, e, n - 1);
      assert a[n - 1] == 0.0;
      ZeroFactor(d, e, ref[n - 1]);
    }
  }

  lemma ZeroFactor(d: real, e: real, x: real)
    requires e > 0.0 && d * 0.0 == e * x
    ensures x == 0.0
  {}

  /** The window at the true offset is the reference, and scores one. */
  lemma TrueOffset(sqrt: real -> real, ref: seq<real>, size: nat, d: nat, t: nat)
    requires IsSqrt(sqrt) && Energy(ref) > 0.0
    requires 0 < t <= size && d + |ref| <= t
    ensures var w := Delayed(ref, d, t);
      Scored(sqrt, ref, w, d) && Score(sqrt, ref, size, w, d) == 1.0
  {
    hide Score, IsSqrt, Energy, Dot, Product, Divisor;
    var w := Delayed(ref, d, t);
    assert w[d..d + |ref|] == ref;
    DivisorIs(sqrt, ref, w, d);
    SqrtOf(sqrt, Energy(ref));
    ScoreFacts(sqrt, ref, size, w, d);
    EnergyIs(ref);
  }

  lemma EnergyIs(a: seq<real>)
    ensures Energy(a) == Dot(a, a)
  {}

  /** Every earlier offset scores below one. */
  lemma EarlyOffset(sqrt: real -> real, ref: seq<real>, size: nat, d: nat, t: nat, p: nat)
    requires IsSqrt(sqrt) && 0 < t <= size && p < d && d + |ref| <= t
    requires Scored(sqrt, ref, Delayed(ref, d, t), p)
    ensures Score(sqrt, ref, size, Delayed(ref, d, t), p) < 1.0
  {
    hide Score, IsSqrt, Energy, Dot, Product, Divisor;
    var w := Delayed(ref, d, t);
    var a := w[p..p + |ref|];
    ScoreFacts(sqrt, ref, size, w, p);
    EnergyNonNegative(a);
    DivisorIs(sqrt, ref, w, p);
    SqrtOf(sqrt, Energy(a));
    ProductZero(sqrt(Energy(ref)));
    forall i | 0 <= i < |a| ensures a[i] == if d - p <= i then ref[i - (d - p)] else 0.0 {
      assert a[i] == w[p + i];
    }
    EarlyIsNotMultiple(ref, a, d - p);
    ProductIs(Dot(a, ref), Dot(a, ref));
  }

  /** A window holding one copy of a reference that is not silent is answered with
      its delay and a score of one. */
  lemma DelayedIsFound(sqrt: real -> real, ref: seq<real>, size: nat, d: nat, t: nat, offset: int, score: real)
    requires IsSqrt(sqrt) && Energy(ref) > 0.0
    requires 0 < t <= size && d + |ref| <= t
    requires Answer(sqrt, ref, size, Delayed(ref, d, t), offset, score)
    ensures offset == d && score == 1.0
  {
    var w := Delayed(ref, d, t);
    TrueOffset(sqrt, ref, size, d, t);
    forall p: nat | p < d && Scored(sqrt, ref, w, p)
      ensures Score(sqrt, ref, size, w, p) < 1.0
    { EarlyOffset(sqrt, ref, size, d, t, p); }
    AnswerRange(sqrt, ref, size, w, offset, score);
    hide Score, IsSqrt, Energy, Scored;
  }
}
