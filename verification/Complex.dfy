/** Complex numbers over exact reals, and the algebra the transform rests on. */
module ComplexNumbers {
  import opened Bits

  datatype Complex = Complex(re: real, im: real)

  const ZERO := Complex(0.0, 0.0)
  const ONE := Complex(1.0, 0.0)

  function Add(a: Complex, b: Complex): Complex { Complex(a.re + b.re, a.im + b.im) }
  function Minus(a: Complex, b: Complex): Complex { Complex(a.re - b.re, a.im - b.im) }
  function Mul(a: Complex, b: Complex): Complex {
    Complex(a.re * b.re - a.im * b.im, a.re * b.im + a.im * b.re)
  }
  function Neg(a: Complex): Complex { Complex(-a.re, -a.im) }
  function Conj(a: Complex): Complex { Complex(a.re, -a.im) }
  function FromReal(r: real): Complex { Complex(r, 0.0) }

  function Pow(w: Complex, n: nat): Complex {
    if n == 0 then ONE else Mul(w, Pow(w, n - 1))
  }

  lemma MulComm(a: Complex, b: Complex)
    ensures Mul(a, b) == Mul(b, a)
  {}

  lemma MulAssoc(a: Complex, b: Complex, c: Complex)
    ensures Mul(Mul(a, b), c) == Mul(a, Mul(b, c))
  {}

  lemma MulAdd(a: Complex, b: Complex, c: Complex)
    ensures Mul(a, Add(b, c)) == Add(Mul(a, b), Mul(a, c))
    ensures Mul(Add(b, c), a) == Add(Mul(b, a), Mul(c, a))
  {}

  lemma Units(a: Complex)
    ensures Mul(ONE, a) == a == Mul(a, ONE)
    ensures Mul(ZERO, a) == ZERO == Mul(a, ZERO)
    ensures Add(ZERO, a) == a == Add(a, ZERO)
  {}

  lemma AddShuffle(a: Complex, b: Complex, c: Complex, d: Complex)
    ensures Add(Add(a, b), Add(c, d)) == Add(Add(a, c), Add(b, d))
  {}

  lemma NegLaws(a: Complex, b: Complex)
    ensures Mul(Neg(a), b) == Neg(Mul(a, b)) == Mul(a, Neg(b))
    ensures Add(a, Neg(b)) == Minus(a, b)
    ensures Neg(ONE) == Minus(ZERO, ONE) && Neg(Neg(a)) == a && Add(a, Neg(a)) == ZERO
  {}

  lemma ConjMul(a: Complex, b: Complex)
    ensures Conj(Mul(a, b)) == Mul(Conj(a), Conj(b))
  {}

  lemma ConjAdd(a: Complex, b: Complex)
    ensures Conj(Add(a, b)) == Add(Conj(a), Conj(b))
  {}

  lemma ConjReal(r: real)
    ensures Conj(FromReal(r)) == FromReal(r)
  {}

  lemma ConjUnits()
    ensures Conj(ONE) == ONE && Conj(ZERO) == ZERO && Conj(Neg(ONE)) == Neg(ONE)
  {
    hide Conj;
    ConjReal(1.0);
    ConjReal(0.0);
    ConjReal(-1.0);
    assert Neg(ONE) == FromReal(-1.0);
  }

  lemma MulSwap(a: Complex, b: Complex, c: Complex, d: Complex)
    ensures Mul(Mul(a, b), Mul(c, d)) == Mul(Mul(a, c), Mul(b, d))
  {
    hide *;
    MulAssoc(a, b, Mul(c, d));
    MulAssoc(b, c, d);
    MulComm(b, c);
    MulAssoc(c, b, d);
    MulAssoc(a, c, Mul(b, d));
  }

  lemma {:induction false} PowAdd(w: Complex, m: nat, n: nat)
    ensures Pow(w, m + n) == Mul(Pow(w, m), Pow(w, n))
  {
    hide Mul, Add, ONE;
    if m == 0 {
      Units(Pow(w, n));
    } else {
      PowAdd(w, m - 1, n);
      MulAssoc(w, Pow(w, m - 1), Pow(w, n));
    }
  }

  lemma {:induction false} PowOfProduct(a: Complex, b: Complex, n: nat)
    ensures Pow(Mul(a, b), n) == Mul(Pow(a, n), Pow(b, n))
  {
    hide Mul, Add, ONE;
    if n == 0 {
      Units(ONE);
    } else {
      PowOfProduct(a, b, n - 1);
      MulSwap(a, b, Pow(a, n - 1), Pow(b, n - 1));
    }
  }

  lemma {:induction false} PowOfOne(n: nat)
    ensures Pow(ONE, n) == ONE
  {
    hide Mul;
    if n > 0 { PowOfOne(n - 1); Units(ONE); }
  }

  lemma {:induction false} PowPow(w: Complex, m: nat, n: nat)
    ensures Pow(Pow(w, m), n) == Pow(w, m * n)
  {
    hide Mul, Add, ONE;
    if n > 0 {
      PowPow(w, m, n - 1);
      assert m * n == m + m * (n - 1);
      PowAdd(w, m, m * (n - 1));
    }
  }

  lemma {:induction false} PowConj(w: Complex, n: nat)
    ensures Pow(Conj(w), n) == Conj(Pow(w, n))
  {
    hide Mul, Conj;
    ConjUnits();
    if n > 0 {
      PowConj(w, n - 1);
      ConjMul(w, Pow(w, n - 1));
    }
  }

  // Roots of unity.

  /** `w` is a principal root of unity of order 2^q: squaring it q-1 times gives -1. */
  ghost predicate Principal(q: nat, w: Complex) {
    if q == 0 then w == ONE
    else if q == 1 then w == Neg(ONE)
    else Principal(q - 1, Mul(w, w))
  }

  /** What `cmplx.Rect(1, -2π/length)` is, exactly, at length 2^s: a table in which
      each entry is a square root of the one before it. */
  ghost predicate RootTable(root: nat -> Complex) {
    root(0) == ONE && root(1) == Neg(ONE) &&
    forall s: nat {:trigger root(s + 1)} :: Mul(root(s + 1), root(s + 1)) == root(s)
  }

  lemma MinusOneSquared()
    ensures Mul(Neg(ONE), Neg(ONE)) == ONE
  {}

  lemma PrincipalSquare(q: nat, w: Complex)
    requires q > 0 && Principal(q, w)
    ensures Principal(q - 1, Mul(w, w))
  {
    hide Mul, Neg;
    MinusOneSquared();
  }

  lemma {:induction false} TablePrincipal(root: nat -> Complex, q: nat)
    requires RootTable(root)
    ensures Principal(q, root(q))
  {
    hide Mul;
    if q > 1 {
      TablePrincipal(root, q - 1);
      var s := q - 1;
      assert Mul(root(s + 1), root(s + 1)) == root(s);
    }
  }

  /** Halfway round the circle is -1. */
  lemma {:induction false} HalfTurn(q: nat, w: Complex)
    requires q > 0 && Principal(q, w)
    ensures Pow(w, Pow2(q - 1)) == Neg(ONE)
  {
    hide Mul;
    if q > 1 {
      HalfTurn(q - 1, Mul(w, w));
      PowOfProduct(w, w, Pow2(q - 2));
      PowAdd(w, Pow2(q - 2), Pow2(q - 2));
    } else {
      assert Pow(w, 1) == Mul(w, Pow(w, 0));
      Units(w);
    }
  }

  lemma {:induction false} FullTurn(q: nat, w: Complex)
    requires Principal(q, w)
    ensures Pow(w, Pow2(q)) == ONE
  {
    hide Mul, Pow, Neg;
    if q == 0 {
      PowOfOne(1);
    } else {
      HalfTurn(q, w);
      var h := Pow2(q - 1);
      assert Pow2(q) == h + h;
      PowAdd(w, h, h);
      MinusOneSquared();
    }
  }

  /** Exponents of a principal root matter only modulo its order. */
  lemma PowMod(q: nat, w: Complex, e: nat)
    requires Principal(q, w)
    ensures Pow(w, e) == Pow(w, e % Pow2(q))
  {
    hide *;
    var n := Pow2(q);
    var d, r := e / n, e % n;
    assert e == n * d + r;
    PowPeriodic(q, w, d, r);
  }

  lemma PowPeriodic(q: nat, w: Complex, d: nat, r: nat)
    requires Principal(q, w)
    ensures Pow(w, Pow2(q) * d + r) == Pow(w, r)
  {
    hide *;
    var n := Pow2(q);
    FullTurn(q, w);
    PowAdd(w, n * d, r);
    PowPow(w, n, d);
    PowOfOne(d);
    Units(Pow(w, r));
  }

  lemma {:induction false} RootTimesConj(q: nat, w: Complex)
    requires Principal(q, w)
    ensures Mul(w, Conj(w)) == ONE
  {
    hide Mul, Conj, Neg;
    if q > 1 {
      RootTimesConj(q - 1, Mul(w, w));
      UnitNorm(w);
    } else {
      ConjUnits();
      MinusOneSquared();
      Units(ONE);
    }
  }

  /** A root of unity lies on the unit circle, so its conjugate is its inverse. */
  lemma UnitNorm(w: Complex)
    requires Mul(Mul(w, w), Conj(Mul(w, w))) == ONE
    ensures Mul(w, Conj(w)) == ONE
  {
    hide Mul;
    var n := Mul(w, Conj(w));
    ConjMul(w, w);
    MulSwap(w, w, Conj(w), Conj(w));
    assert Mul(n, n) == ONE;
    NormIsReal(w);
    assert n.re * n.re == 1.0 by { RealProduct(n); }
    UnitSquare(n.re);
  }

  lemma UnitSquare(x: real)
    requires x >= 0.0 && x * x == 1.0
    ensures x == 1.0
  {
    if x < 1.0 { SquareLess(x, 1.0); } else if x > 1.0 { SquareLess(1.0, x); }
  }

  lemma SquareLess(a: real, b: real)
    requires 0.0 <= a < b
    ensures a * a < b * b
  {
    calc { a * a; <= a * b; < b * b; }
  }

  lemma RealProduct(n: Complex)
    requires n.im == 0.0
    ensures Mul(n, n) == FromReal(n.re * n.re)
  {}

  lemma NormIsReal(w: Complex)
    ensures Mul(w, Conj(w)).im == 0.0 && Mul(w, Conj(w)).re >= 0.0
  {}

  lemma {:induction false} ConjPrincipal(q: nat, w: Complex)
    requires Principal(q, w)
    ensures Principal(q, Conj(w))
  {
    hide Mul;
    if q > 1 {
      ConjPrincipal(q - 1, Mul(w, w));
      ConjMul(w, w);
    }
  }
}
