/** Polynomial evaluation. The discrete Fourier transform of a sequence is its
    values, as a coefficient list, at the powers of a root of unity. */
module Polynomials {
  import opened Bits
  import opened ComplexNumbers

  /** x[0] + x[1] z + x[2] z^2 + ..., that is the sum of x[j] * z^j. */
  function Eval(x: seq<Complex>, z: Complex): Complex {
    if |x| == 0 then ZERO else Add(x[0], Mul(z, Eval(x[1..], z)))
  }

  function Evens(x: seq<Complex>): seq<Complex> {
    if |x| == 0 then [] else [x[0]] + Odds(x[1..])
  }

  function Odds(x: seq<Complex>): seq<Complex> {
    if |x| == 0 then [] else Evens(x[1..])
  }

  /** The values of x at 1, w, w^2, ..., w^(n-1). */
  ghost function Values(x: seq<Complex>, w: Complex, n: nat): (v: seq<Complex>)
    ensures |v| == n && forall k :: 0 <= k < n ==> v[k] == Eval(x, Pow(w, k))
  {
    seq(n, k requires 0 <= k => Eval(x, Pow(w, k)))
  }

  /** The discrete Fourier transform of x, at the root w. */
  ghost function Dft(x: seq<Complex>, w: Complex): seq<Complex> { Values(x, w, |x|) }

  lemma {:induction false} EvensOddsAt(x: seq<Complex>)
    ensures |Evens(x)| == (|x| + 1) / 2 && |Odds(x)| == |x| / 2
    ensures forall t :: 0 <= t < |Evens(x)| ==> Evens(x)[t] == x[2 * t]
    ensures forall t :: 0 <= t < |Odds(x)| ==> Odds(x)[t] == x[2 * t + 1]
  {
    if |x| > 0 { EvensOddsAt(x[1..]); }
  }

  /** The splitting behind radix two: x(z) = even(z^2) + z odd(z^2). */
  lemma {:induction false} EvalSplit(x: seq<Complex>, z: Complex)
    ensures Eval(x, z) == Add(Eval(Evens(x), Mul(z, z)), Mul(z, Eval(Odds(x), Mul(z, z))))
  {
    hide Mul, Add;
    if |x| == 0 {
      Units(z);
      Units(ZERO);
    } else {
      var y, s := x[1..], Mul(z, z);
      EvalSplit(y, z);
      var e, o := Eval(Evens(y), s), Eval(Odds(y), s);
      assert Evens(x)[1..] == Odds(y);
      calc {
        Eval(x, z);
        Add(x[0], Mul(z, Add(e, Mul(z, o))));
        { MulAdd(z, e, Mul(z, o)); MulAssoc(z, z, o); }
        Add(x[0], Add(Mul(z, e), Mul(s, o)));
        { AddLaws(x[0], Mul(z, e), Mul(s, o)); }
        Add(Add(x[0], Mul(s, o)), Mul(z, e));
      }
    }
  }

  lemma AddLaws(a: Complex, b: Complex, c: Complex)
    ensures Add(a, Add(b, c)) == Add(Add(a, c), b)
  {}

  lemma {:induction false} EvalAdd(a: seq<Complex>, b: seq<Complex>, c: seq<Complex>, z: Complex)
    requires |a| == |b| == |c|
    requires forall k :: 0 <= k < |a| ==> a[k] == Add(b[k], c[k])
    ensures Eval(a, z) == Add(Eval(b, z), Eval(c, z))
  {
    hide Mul, Add;
    if |a| == 0 {
      Units(ZERO);
    } else {
      EvalAdd(a[1..], b[1..], c[1..], z);
      MulAdd(z, Eval(b[1..], z), Eval(c[1..], z));
      AddShuffle(b[0], c[0], Mul(z, Eval(b[1..], z)), Mul(z, Eval(c[1..], z)));
    }
  }

  lemma {:induction false} EvalScale(a: seq<Complex>, b: seq<Complex>, c: Complex, z: Complex)
    requires |a| == |b|
    requires forall k :: 0 <= k < |a| ==> a[k] == Mul(c, b[k])
    ensures Eval(a, z) == Mul(c, Eval(b, z))
  {
    hide Mul, Add;
    if |a| == 0 {
      Units(c);
    } else {
      var t := Eval(b[1..], z);
      EvalScale(a[1..], b[1..], c, z);
      MulAssoc(z, c, t);
      MulComm(z, c);
      MulAssoc(c, z, t);
      MulAdd(c, b[0], Mul(z, t));
    }
  }

  /** Multiplying coefficient k by u^k moves the point of evaluation to u z. */
  lemma {:induction false} EvalTwist(a: seq<Complex>, b: seq<Complex>, u: Complex, z: Complex)
    requires |a| == |b|
    requires forall k :: 0 <= k < |a| ==> a[k] == Mul(Pow(u, k), b[k])
    ensures Eval(a, z) == Eval(b, Mul(u, z))
    decreases |a|
  {
    hide Mul, Add;
    if |a| > 0 {
      var b', a' := b[1..], a[1..];
      var mid := seq(|b'|, k requires 0 <= k < |b'| => Mul(Pow(u, k), b'[k]));
      forall k | 0 <= k < |a'| ensures a'[k] == Mul(u, mid[k]) {
        MulAssoc(u, Pow(u, k), b'[k]);
        assert Pow(u, k + 1) == Mul(u, Pow(u, k)) && a'[k] == a[k + 1];
      }
      EvalScale(a', mid, u, z);
      EvalTwist(mid, b', u, z);
      var t := Eval(b', Mul(u, z));
      MulAssoc(z, u, t);
      MulComm(z, u);
      Units(b[0]);
      assert Pow(u, 0) == ONE;
    }
  }

  ghost function Constant(c: Complex, n: nat): (s: seq<Complex>)
    ensures |s| == n && forall k :: 0 <= k < n ==> s[k] == c
  {
    seq(n, _ => c)
  }

  function Count(n: nat): Complex { FromReal(n as real) }

  /** The powers of a 2^q-th root of unity sum to 2^q or to nothing. */
  lemma {:induction false} Orthogonality(q: nat, w: Complex, p: nat)
    requires Principal(q, w)
    ensures Eval(Constant(ONE, Pow2(q)), Pow(w, p))
         == if p % Pow2(q) == 0 then Count(Pow2(q)) else ZERO
  {
    hide Mul, Pow, Add;
    var n, z := Pow2(q), Pow(w, p);
    var ones := Constant(ONE, n);
    if q == 0 {
      DivModUnique(p, 1, p, 0);
      Units(z);
      Units(ONE);
      assert Eval(ones, z) == Add(ONE, Mul(z, Eval([], z))) by { assert ones[1..] == []; }
    } else {
      var h := Pow2(q - 1);
      var half := Constant(ONE, h);
      EvensOddsAt(ones);
      assert Evens(ones) == half && Odds(ones) == half;
      EvalSplit(ones, z);
      PowOfProduct(w, w, p);
      var e := Eval(half, Mul(z, z));
      assert Eval(ones, z) == Add(e, Mul(z, e));
      var w2 := Mul(w, w);
      PrincipalSquare(q, w);
      Orthogonality(q - 1, w2, p);
      HalfModulus(p, h);
      PowMod(q, w, p);
      if p % h != 0 {
        Units(z);
        Units(ZERO);
      } else if p % n == 0 {
        PowZero(w);
        Units(e);
        CountAdd(h, h);
      } else {
        HalfTurn(q, w);
        NegLaws(ONE, e);
        Units(e);
        NegLaws(e, e);
      }
    }
  }

  lemma PowZero(w: Complex)
    ensures Pow(w, 0) == ONE
  {}

  lemma CountAdd(a: nat, b: nat) ensures Add(Count(a), Count(b)) == Count(a + b) {}

  lemma HalfModulus(p: nat, h: nat)
    requires h > 0
    ensures p % (2 * h) == p % h || p % (2 * h) == p % h + h
    ensures p % h == 0 ==> p % (2 * h) == 0 || p % (2 * h) == h
  {
    var d, r := p / (2 * h), p % (2 * h);
    assert p == (2 * d) * h + r;
    if r < h {
      DivModUnique(p, h, 2 * d, r);
    } else {
      assert p == (2 * d + 1) * h + (r - h);
      DivModUnique(p, h, 2 * d + 1, r - h);
    }
  }

  /** Transforming back, at the conjugate root and index p, reads coefficient p
      of x, times the order, with p taken modulo the order. */
  lemma {:induction false} InverseAt(q: nat, w: Complex, x: seq<Complex>, p: nat)
    requires Principal(q, w) && |x| <= Pow2(q)
    ensures var n := Pow2(q);
      Eval(Values(x, w, n), Pow(Conj(w), p))
      == Mul(Count(n), if p % n < |x| then x[p % n] else ZERO)
    decreases |x|
  {
    hide Mul, Pow, Add, Conj, Principal;
    var n, v := Pow2(q), Conj(w);
    var z := Pow(v, p);
    ConjPrincipal(q, w);
    if |x| == 0 {
      var values := Values(x, w, n);
      assert forall k :: 0 <= k < n ==> values[k] == ZERO;
      EvalZero(values, z);
      Units(Count(n));
    } else {
      var y := x[1..];
      var head := Constant(x[0], n);
      var tail := Values(y, w, n);
      var shifted := seq(n, k requires 0 <= k => Mul(Pow(w, k), Eval(y, Pow(w, k))));
      EvalAdd(Values(x, w, n), head, shifted, z);
      // The constant term contributes only at p = 0 modulo n.
      forall k | 0 <= k < n ensures head[k] == Mul(x[0], Constant(ONE, n)[k]) { Units(x[0]); }
      EvalScale(head, Constant(ONE, n), x[0], z);
      Orthogonality(q, v, p);
      // The other terms are the values of y, read one place further on.
      EvalTwist(shifted, tail, w, z);
      StepBack(q, w, p);
      InverseAt(q, w, y, p + (n - 1));
      StepIndex(p, n);
      Units(x[0]);
      Units(Count(n));
      MulComm(x[0], Count(n));
      Units(Mul(Count(n), x[0]));
      if p % n != 0 && p % n < |x| { Units(Mul(Count(n), x[p % n])); }
      Units(ZERO);
    }
  }

  lemma StepIndex(p: nat, n: nat)
    requires n > 0
    ensures (p + (n - 1)) % n == if p % n == 0 then n - 1 else p % n - 1
  {
    var d, r := p / n, p % n;
    assert p == d * n + r;
    if r == 0 {
      DivModUnique(p + (n - 1), n, d, n - 1);
    } else {
      assert p + (n - 1) == (d + 1) * n + (r - 1);
      DivModUnique(p + (n - 1), n, d + 1, r - 1);
    }
  }

  /** Multiplying by w goes one step back round the circle of its conjugate. */
  lemma StepBack(q: nat, w: Complex, p: nat)
    requires Principal(q, w)
    ensures Mul(w, Pow(Conj(w), p)) == Pow(Conj(w), p + (Pow2(q) - 1))
  {
    hide Mul, Conj, Principal;
    var v, m := Conj(w), Pow2(q) - 1;
    RootTimesConj(q, w);
    ConjPrincipal(q, w);
    FullTurn(q, v);
    assert Pow(v, m + 1) == Mul(v, Pow(v, m)) == ONE;
    MulAssoc(w, v, Pow(v, m));
    Units(Pow(v, m));
    Units(w);
    assert w == Pow(v, m);
    PowAdd(v, p, m);
    MulComm(w, Pow(v, p));
  }

  lemma {:induction false} EvalZero(x: seq<Complex>, z: Complex)
    requires forall k :: 0 <= k < |x| ==> x[k] == ZERO
    ensures Eval(x, z) == ZERO
  {
    hide Mul, Add;
    if |x| > 0 {
      EvalZero(x[1..], z);
      Units(z);
      Units(ZERO);
    }
  }

  /** A forward transform followed by the unnormalised inverse multiplies by the length. */
  lemma RoundTrip(q: nat, w: Complex, x: seq<Complex>)
    requires Principal(q, w) && |x| == Pow2(q)
    ensures |Dft(Dft(x, w), Conj(w))| == |x|
    ensures forall p :: 0 <= p < |x| ==> Dft(Dft(x, w), Conj(w))[p] == Mul(Count(|x|), x[p])
  {
    forall p | 0 <= p < |x| ensures Dft(Dft(x, w), Conj(w))[p] == Mul(Count(|x|), x[p]) {
      InverseAt(q, w, x, p);
      DivModUnique(p, |x|, 0, p);
    }
  }

  /** The sum of x[(p + j) % |x|] * r[j]. */
  ghost function Correlation(x: seq<Complex>, r: seq<Complex>, p: nat): Complex
    requires |x| > 0
  {
    if |r| == 0 then ZERO else Add(Mul(x[p % |x|], r[0]), Correlation(x, r[1..], p + 1))
  }

  /** The correlation theorem: the product of one transform with another's values at
      the conjugate root, transformed back, is the circular correlation. */
  lemma {:induction false} CorrelationTheorem(
    q: nat, w: Complex, x: seq<Complex>, r: seq<Complex>, prod: seq<Complex>, p: nat)
    requires Principal(q, w) && |x| == Pow2(q) == |prod|
    requires forall k :: 0 <= k < |x| ==>
      prod[k] == Mul(Eval(x, Pow(w, k)), Eval(r, Pow(Conj(w), k)))
    ensures Eval(prod, Pow(Conj(w), p)) == Mul(Count(|x|), Correlation(x, r, p))
    decreases |r|
  {
    hide Mul, Pow, Add, Conj, Principal;
    var n, v := |x|, Conj(w);
    var z := Pow(v, p);
    var values := Values(x, w, n);
    if |r| == 0 {
      forall k | 0 <= k < n ensures prod[k] == ZERO { Units(values[k]); }
      EvalZero(prod, z);
      Units(Count(n));
    } else {
      var s := r[1..];
      var first := seq(n, k requires 0 <= k < n => Mul(r[0], values[k]));
      var rest := seq(n, k requires 0 <= k < n => Mul(values[k], Eval(s, Pow(v, k))));
      var turned := seq(n, k requires 0 <= k < n => Mul(Pow(v, k), rest[k]));
      forall k | 0 <= k < n ensures prod[k] == Add(first[k], turned[k]) {
        var a, t, e := values[k], Pow(v, k), Eval(s, Pow(v, k));
        MulAdd(a, r[0], Mul(t, e));
        MulComm(a, r[0]);
        MulAssoc(a, t, e);
        MulComm(a, t);
        MulAssoc(t, a, e);
      }
      EvalAdd(prod, first, turned, z);
      EvalScale(first, values, r[0], z);
      InverseAt(q, w, x, p);
      EvalTwist(turned, rest, v, z);
      assert Mul(v, z) == Pow(v, p + 1) by { PowStep(v, p); }
      CorrelationTheorem(q, w, x, s, rest, p + 1);
      var c, xp := Count(n), x[p % n];
      MulComm(r[0], Mul(c, xp));
      MulAssoc(c, xp, r[0]);
      MulAdd(c, Mul(xp, r[0]), Correlation(x, s, p + 1));
    }
  }

  lemma PowStep(v: Complex, p: nat)
    ensures Pow(v, p + 1) == Mul(v, Pow(v, p))
  {}
}
