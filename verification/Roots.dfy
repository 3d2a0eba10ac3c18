/** The square root the rig computes with, and the roots of unity it gives. */
module Roots {
  import opened ComplexNumbers
  import opened Signals

  /** `math.Sqrt`, exactly. Nothing else about it is assumed. */
  ghost predicate IsSqrt(sqrt: real -> real) {
    forall x :: x >= 0.0 ==> sqrt(x) >= 0.0 && sqrt(x) * sqrt(x) == x
  }

  lemma SqrtOf(sqrt: real -> real, x: real)
    requires IsSqrt(sqrt) && x >= 0.0
    ensures sqrt(x) >= 0.0 && Product(sqrt(x), sqrt(x)) == x
    ensures sqrt(x) == 0.0 <==> x == 0.0
  {
    var r := sqrt(x);
    assert r >= 0.0 && r * r == x;
    assert Product(r, r) == x;
    hide *;
    SquareSign(r);
  }

  lemma ProductOrder(a: real, b: real)
    requires 0.0 <= a < b
    ensures Product(a, a) < Product(b, b)
  {
    calc { a * a; <= a * b; < b * b; }
  }

  lemma SquareInjective(a: real, b: real)
    requires a >= 0.0 && b >= 0.0 && Product(a, a) == Product(b, b)
    ensures a == b
  {
    hide *;
    if a < b { ProductOrder(a, b); } else if b < a { ProductOrder(b, a); }
  }

  lemma ProductSwap(a: real, b: real)
    ensures Product(Product(a, b), Product(a, b)) == Product(Product(a, a), Product(b, b))
  {}

  /** `cmplx.Rect(1, -2π/length)` at length 2^s, by halving the angle. */
  function Root(sqrt: real -> real, s: nat): Complex {
    if s == 0 then ONE
    else if s == 1 then Neg(ONE)
    else
      var w := Root(sqrt, s - 1);
      Complex(sqrt((1.0 + w.re) / 2.0), -sqrt((1.0 - w.re) / 2.0))
  }

  /** Halving the angle of a point on the lower half of the unit circle. */
  lemma HalfAngle(sqrt: real -> real, w: Complex, v: Complex)
    requires IsSqrt(sqrt)
    requires w.im <= 0.0 && Product(w.re, w.re) + Product(w.im, w.im) == 1.0
    requires v == Complex(sqrt((1.0 + w.re) / 2.0), -sqrt((1.0 - w.re) / 2.0))
    ensures Mul(v, v) == w
    ensures v.im <= 0.0 && Product(v.re, v.re) + Product(v.im, v.im) == 1.0
  {
    hide IsSqrt, Product, Mul;
    var a, b := (1.0 + w.re) / 2.0, (1.0 - w.re) / 2.0;
    UnitInterval(w.re, w.im);
    SqrtOf(sqrt, a);
    SqrtOf(sqrt, b);
    var c, s := sqrt(a), sqrt(b);
    ProductNeg(s, s);
    // c s and -im/2 have the same square.
    ProductSwap(c, s);
    HalfProduct(w.re, w.im);
    CrossSign(c, s);
    SquareInjective(Product(c, s), -w.im / 2.0);
    SquareParts(c, s);
  }

  lemma UnitInterval(x: real, y: real)
    requires Product(x, x) + Product(y, y) == 1.0
    ensures -1.0 <= x <= 1.0
  {
    hide *;
    SquareSign(y);
    ProductOfOne();
    if x > 1.0 { ProductOrder(1.0, x); }
    if x < -1.0 { ProductOrder(1.0, -x); ProductNeg(x, x); }
  }

  lemma ProductOfOne()
    ensures Product(1.0, 1.0) == 1.0
  {}

  lemma HalfProduct(x: real, y: real)
    requires Product(x, x) + Product(y, y) == 1.0
    ensures Product((1.0 + x) / 2.0, (1.0 - x) / 2.0) == Product(-y / 2.0, -y / 2.0)
  {
    assert (1.0 + x) / 2.0 * ((1.0 - x) / 2.0) == (1.0 - x * x) / 4.0;
    assert (-y / 2.0) * (-y / 2.0) == y * y / 4.0;
  }

  lemma CrossSign(c: real, s: real)
    requires c >= 0.0 && s >= 0.0
    ensures Product(c, s) >= 0.0
  {}

  lemma SquareParts(c: real, s: real)
    ensures Mul(Complex(c, -s), Complex(c, -s)) == Complex(Product(c, c) - Product(s, s), -2.0 * Product(c, s))
  {
    assert c * (-s) == -(c * s);
    assert (-s) * (-s) == s * s;
  }

  lemma {:induction false} RootOnCircle(sqrt: real -> real, s: nat)
    requires IsSqrt(sqrt)
    ensures var w := Root(sqrt, s);
      w.im <= 0.0 && Product(w.re, w.re) + Product(w.im, w.im) == 1.0
    ensures s > 0 ==> Mul(Root(sqrt, s), Root(sqrt, s)) == Root(sqrt, s - 1)
  {
    hide IsSqrt, Product, Mul;
    if s > 1 {
      RootOnCircle(sqrt, s - 1);
      HalfAngle(sqrt, Root(sqrt, s - 1), Root(sqrt, s));
    } else {
      MinusOneSquared();
      ProductOfOne();
      ProductNeg(1.0, 1.0);
      ProductZero(0.0);
    }
  }

  /** The root table the transform is given. */
  function Table(sqrt: real -> real): nat -> Complex { (s: nat) => Root(sqrt, s) }

  lemma OnCircle(sqrt: real -> real, s: nat)
    requires IsSqrt(sqrt)
    ensures var w := Root(sqrt, s); w.re * w.re + w.im * w.im == 1.0
  {
    hide IsSqrt, Root;
    RootOnCircle(sqrt, s);
  }

  /** From the third on the roots lie in the lower right quarter of the circle, which
      leaves no choice of sign: they are the ones at the angles -2π/2^s. */
  lemma Quarter(sqrt: real -> real, s: nat)
    requires IsSqrt(sqrt) && s >= 2
    ensures Root(sqrt, s).re >= 0.0 >= Root(sqrt, s).im
  {
    RootOnCircle(sqrt, s);
    RootOnCircle(sqrt, s - 1);
    UnitInterval(Root(sqrt, s - 1).re, Root(sqrt, s - 1).im);
    SqrtOf(sqrt, (1.0 + Root(sqrt, s - 1).re) / 2.0);
    hide IsSqrt, Mul, Product;
  }

  /** Each root squares to the one before, from 1 and -1 on, and all lie on the unit circle. */
  lemma TableIsRootTable(sqrt: real -> real)
    requires IsSqrt(sqrt)
    ensures RootTable(Table(sqrt))
    ensures forall s: nat :: var w := Table(sqrt)(s); w.re * w.re + w.im * w.im == 1.0
  {
    hide IsSqrt, Mul;
    var root := Table(sqrt);
    forall s: nat ensures root(s).re * root(s).re + root(s).im * root(s).im == 1.0 { OnCircle(sqrt, s); }
    forall s: nat ensures Mul(root(s + 1), root(s + 1)) == root(s) { RootOnCircle(sqrt, s + 1); }
  }
}
