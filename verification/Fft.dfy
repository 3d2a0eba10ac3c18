/** The iterative in-place radix-2 transform, proved to compute the values of its
    input at the powers of a root of unity. */
module FastTransform {
  import opened Bits
  import opened ComplexNumbers
  import opened Polynomials

  /** The root the stage of length 2^s turns by; the inverse turns the other way. */
  function Twiddle(root: nat -> Complex, inverse: bool, s: nat): Complex {
    if inverse then Conj(root(s)) else root(s)
  }

  lemma TwiddleLaws(root: nat -> Complex, inverse: bool, s: nat)
    requires RootTable(root)
    ensures Principal(s, Twiddle(root, inverse, s))
    ensures Mul(Twiddle(root, inverse, s + 1), Twiddle(root, inverse, s + 1)) == Twiddle(root, inverse, s)
  {
    hide Mul, Conj, Principal;
    TablePrincipal(root, s);
    ConjPrincipal(s, root(s));
    ConjMul(root(s + 1), root(s + 1));
  }

  // Bit reversal.

  method BitReverse(x: array<Complex>, ghost q: nat)
    requires x.Length == Pow2(q)
    modifies x
    ensures forall k :: 0 <= k < x.Length ==>
      Reverse(q, k) < x.Length && x[k] == old(x[Reverse(q, k)])
  {
    var n := x.Length;
    var i, j := 1, 0;
    forall k: nat | k < n
      ensures Reverse(q, k) < n && Reverse(q, Reverse(q, k)) == k
    { ReverseBound(q, k); ReverseInvolution(q, k); }
    ReverseOfZero(q);
    while i < n
      invariant 1 <= i <= n
      invariant j == Reverse(q, i - 1)
      invariant forall k: nat :: k < n ==> Reverse(q, k) < n
      invariant forall k: nat :: k < n ==>
        x[k] == (if k < i || Reverse(q, k) < i then old(x[Reverse(q, k)]) else old(x[k]))
    {
      j := ReversedIncrement(n, j, q, i);
      if i < j {
        x[i], x[j] := x[j], x[i];
      }
      i := i + 1;
    }
  }

  lemma ReverseOfZero(q: nat)
    ensures Reverse(q, 0) == 0
  {}

  /** One round of the carry loop: from the reversal of i-1 to the reversal of i. */
  method ReversedIncrement(n: nat, j0: nat, ghost q: nat, ghost i: nat) returns (j: nat)
    requires n == Pow2(q) && 1 <= i < n && j0 == Reverse(q, i - 1)
    ensures j == Reverse(q, i)
  {
    hide And, Or, Xor, Reverse;
    j := j0;
    ghost var k := q;
    ReverseBound(q, i - 1);
    CarryDownReverses(q, i - 1);
    var bit := n / 2;
    TopDigit(j, bit, k);
    while And(j, bit) != 0
      invariant j < Pow2(k)
      invariant bit == if k == 0 then 0 else Pow2(k - 1)
      invariant CarryDown(k, j) == Reverse(q, i)
      invariant k > 0 ==> And(j, bit) == if j < bit then 0 else bit
      invariant k == 0 ==> And(j, bit) == 0
      decreases k
    {
      TopDigit(j, bit, k);
      j := Xor(j, bit);
      bit := bit / 2;
      k := k - 1;
      TopDigit(j, bit, k);
    }
    TopDigit(j, bit, k);
    j := Or(j, bit);
  }

  lemma TopDigit(j: nat, bit: nat, k: nat)
    requires j < Pow2(k) && bit == if k == 0 then 0 else Pow2(k - 1)
    ensures k == 0 ==> And(j, bit) == 0 && Or(j, bit) == j
    ensures k > 0 ==> And(j, bit) == if j < bit then 0 else bit
    ensures k > 0 && j >= bit ==> Xor(j, bit) == j - bit
    ensures k > 0 && j < bit ==> Or(j, bit) == j + bit
  {
    if k > 0 { TopBit(j, k - 1); }
  }

  // The stages.

  /** The coefficients the block b works on when 2^d blocks are left: x, split d
      times by parity, following the digits of b. */
  ghost function Strand(x: seq<Complex>, d: nat, b: nat): seq<Complex> {
    if d == 0 then x
    else if b % 2 == 0 then Evens(Strand(x, d - 1, b / 2)) else Odds(Strand(x, d - 1, b / 2))
  }

  lemma {:induction false} StrandAt(x: seq<Complex>, q: nat, d: nat, b: nat, t: nat)
    requires |x| == Pow2(q) && d <= q && b < Pow2(d)
    ensures |Strand(x, d, b)| == Pow2(q - d)
    ensures t < Pow2(q - d) ==> var k := t * Pow2(d) + Reverse(d, b);
      k < |x| && Strand(x, d, b)[t] == x[k]
  {
    if d > 0 {
      var p := Strand(x, d - 1, b / 2);
      var u := 2 * t + b % 2;
      StrandAt(x, q, d - 1, b / 2, u);
      EvensOddsAt(p);
      assert Pow2(q - (d - 1)) == 2 * Pow2(q - d);
      assert u * Pow2(d - 1) == t * Pow2(d) + (if b % 2 == 1 then Pow2(d - 1) else 0) by {
        Doubling(t, b % 2, Pow2(d - 1));
      }
    }
  }

  lemma Doubling(t: nat, c: nat, h: nat)
    ensures (2 * t + c) * h == t * (2 * h) + c * h
  {}

  /** What the array holds at index k after s stages. */
  ghost function Cell(x: seq<Complex>, q: nat, root: nat -> Complex, inverse: bool, s: nat, k: nat): Complex
    requires s <= q
  {
    Eval(Strand(x, q - s, Quot(k, Pow2(s))), Pow(Twiddle(root, inverse, s), Rem(k, Pow2(s))))
  }

  /** Before the first stage a cell is the bit-reversed input. */
  lemma FirstCells(x: seq<Complex>, q: nat, root: nat -> Complex, inverse: bool, k: nat)
    requires |x| == Pow2(q) && k < |x|
    ensures Reverse(q, k) < |x| && Cell(x, q, root, inverse, 0, k) == x[Reverse(q, k)]
  {
    hide Mul, Conj, Twiddle;
    StrandAt(x, q, q, k, 0);
    DivModUnique(k, 1, k, 0);
    var c, w := Strand(x, q, k), Twiddle(root, inverse, 0);
    assert Eval(c[1..], Pow(w, 0)) == ZERO;
    assert Eval(c, Pow(w, 0)) == Add(c[0], Mul(Pow(w, 0), ZERO));
    Units(Pow(w, 0));
    Units(c[0]);
  }

  /** After the last stage a cell is a value of the input at a power of the root. */
  lemma LastCells(x: seq<Complex>, q: nat, root: nat -> Complex, inverse: bool, k: nat)
    requires |x| == Pow2(q) && k < |x|
    ensures Cell(x, q, root, inverse, q, k) == Dft(x, Twiddle(root, inverse, q))[k]
  {
    hide Twiddle, Pow, Eval;
    DivModUnique(k, Pow2(q), 0, k);
  }

  /** A polynomial at opposite points, from its even and odd parts. */
  lemma OppositeValues(p: seq<Complex>, z: Complex)
    ensures var e, t := Eval(Evens(p), Mul(z, z)), Mul(Eval(Odds(p), Mul(z, z)), z);
      Eval(p, z) == Add(e, t) && Eval(p, Neg(z)) == Minus(e, t)
  {
    hide Mul, Add, Minus, Neg, Eval;
    var o := Eval(Odds(p), Mul(z, z));
    EvalSplit(p, z);
    MulComm(z, o);
    EvalSplit(p, Neg(z));
    NegSquared(z);
    NegLaws(z, o);
    NegLaws(Eval(Evens(p), Mul(z, z)), Mul(o, z));
    MulNegative(Eval(Evens(p), Mul(z, z)), Mul(o, z));
  }

  lemma MulNegative(e: Complex, t: Complex)
    ensures Add(e, Neg(t)) == Minus(e, t)
  {}

  lemma NegSquared(z: Complex)
    ensures Mul(Neg(z), Neg(z)) == Mul(z, z)
  {}

  lemma OppositePower(s: nat, w: Complex, j: nat)
    requires Principal(s + 1, w)
    ensures Pow(w, j + Pow2(s)) == Neg(Pow(w, j))
  {
    hide Mul, Pow, Neg;
    HalfTurn(s + 1, w);
    PowAdd(w, j, Pow2(s));
    NegLaws(Pow(w, j), ONE);
    Units(Pow(w, j));
  }

  /** Place j of block b, when blocks are h long. */
  function Place(b: nat, h: nat, j: nat): nat { b * h + j }

  lemma PlaceSplit(b: nat, h: nat, n: nat, j: nat)
    requires n == 2 * h
    ensures Place(b, n, j) == Place(2 * b, h, j)
    ensures Place(b, n, j) + h == Place(2 * b + 1, h, j) == Place(b, n, j + h)
  {}

  /** One butterfly turns two cells of stage s into two cells of stage s+1. */
  lemma Butterfly(x: seq<Complex>, q: nat, root: nat -> Complex, inverse: bool, s: nat, b: nat, j: nat)
    requires RootTable(root) && s < q && j < Pow2(s)
    ensures var h, k := Pow2(s), Place(b, Pow2(s + 1), j);
      var u := Cell(x, q, root, inverse, s, k);
      var v := Mul(Cell(x, q, root, inverse, s, k + h), Pow(Twiddle(root, inverse, s + 1), j));
      Cell(x, q, root, inverse, s + 1, k) == Add(u, v)
      && Cell(x, q, root, inverse, s + 1, k + h) == Minus(u, v)
  {
    hide *;
    var w := Twiddle(root, inverse, s + 1);
    var p := Strand(x, q - s - 1, b);
    Pow2Step(s);
    PlaceSplit(b, Pow2(s), Pow2(s + 1), j);
    StrandSplit(x, q - s - 1, b);
    CellAt(x, q, root, inverse, s, 2 * b, j);
    CellAt(x, q, root, inverse, s, 2 * b + 1, j);
    CellAt(x, q, root, inverse, s + 1, b, j);
    CellAt(x, q, root, inverse, s + 1, b, j + Pow2(s));
    TwiddleLaws(root, inverse, s);
    TwiddleLaws(root, inverse, s + 1);
    PowOfProduct(w, w, j);
    OppositePower(s, w, j);
    OppositeValues(p, Pow(w, j));
  }

  lemma StrandSplit(x: seq<Complex>, d: nat, b: nat)
    ensures Strand(x, d + 1, 2 * b) == Evens(Strand(x, d, b))
    ensures Strand(x, d + 1, 2 * b + 1) == Odds(Strand(x, d, b))
  {
    assert (2 * b) / 2 == b && (2 * b + 1) / 2 == b;
  }

  lemma CellAt(x: seq<Complex>, q: nat, root: nat -> Complex, inverse: bool, s: nat, b: nat, j: nat)
    requires s <= q && j < Pow2(s)
    ensures Cell(x, q, root, inverse, s, Place(b, Pow2(s), j))
         == Eval(Strand(x, q - s, b), Pow(Twiddle(root, inverse, s), j))
  {
    DivModUnique(Place(b, Pow2(s), j), Pow2(s), b, j);
  }

  /** What the butterflies of one block, starting at i, do to the whole sequence. */
  ghost predicate BlockDone(a: seq<Complex>, z: seq<Complex>, i: nat, half: nat, wl: Complex) {
    |a| == |z| && i + 2 * half <= |a| &&
    (forall k {:trigger z[k]} :: i <= k < i + half ==> z[k] == Add(a[k], Mul(a[k + half], Pow(wl, k - i)))) &&
    (forall k {:trigger z[k]} :: i + half <= k < i + 2 * half ==>
      z[k] == Minus(a[k - half], Mul(a[k], Pow(wl, k - half - i)))) &&
    (forall k {:trigger z[k]} :: 0 <= k < i || i + 2 * half <= k < |a| ==> z[k] == a[k])
  }

  method Block(x: array<Complex>, i: nat, half: nat, wl: Complex)
    requires i + 2 * half <= x.Length
    modifies x
    ensures BlockDone(old(x[..]), x[..], i, half, wl)
  {
    hide *;
    ghost var a := x[..];
    var w := ONE;
    PowZero(wl);
    var j := 0;
    while j < half
      invariant 0 <= j <= half
      invariant w == Pow(wl, j)
      invariant forall k {:trigger x[k]} :: i <= k < i + j ==>
        x[k] == Add(a[k], Mul(a[k + half], Pow(wl, k - i)))
      invariant forall k {:trigger x[k]} :: i + half <= k < i + half + j ==>
        x[k] == Minus(a[k - half], Mul(a[k], Pow(wl, k - half - i)))
      invariant forall k {:trigger x[k]} :: 0 <= k < i || i + j <= k < i + half || i + half + j <= k < x.Length ==>
        x[k] == a[k]
    {
      var u := x[i + j];
      var v := Mul(x[i + j + half], w);
      x[i + j] := Add(u, v);
      x[i + j + half] := Minus(u, v);
      MulComm(w, wl);
      PowStep(wl, j);
      w := Mul(w, wl);
      j := j + 1;
    }
    MakeBlockDone(a, x[..], i, half, wl);
  }

  lemma MakeBlockDone(a: seq<Complex>, z: seq<Complex>, i: nat, half: nat, wl: Complex)
    requires |a| == |z| && i + 2 * half <= |a|
    requires forall k {:trigger z[k]} :: i <= k < i + half ==> z[k] == Add(a[k], Mul(a[k + half], Pow(wl, k - i)))
    requires forall k {:trigger z[k]} :: i + half <= k < i + 2 * half ==>
      z[k] == Minus(a[k - half], Mul(a[k], Pow(wl, k - half - i)))
    requires forall k {:trigger z[k]} :: 0 <= k < i || i + 2 * half <= k < |a| ==> z[k] == a[k]
    ensures BlockDone(a, z, i, half, wl)
  {}

  /** Below i the sequence holds the cells of stage s+1, from i on those of stage s. */
  ghost predicate Reached(z: seq<Complex>, x0: seq<Complex>, q: nat, root: nat -> Complex, inverse: bool,
                          s: nat, i: nat)
    requires s < q
  {
    (forall k: nat :: k < i && k < |z| ==> z[k] == Cell(x0, q, root, inverse, s + 1, k)) &&
    (forall k: nat :: i <= k < |z| ==> z[k] == Cell(x0, q, root, inverse, s, k))
  }

  lemma BlockAdvances(a: seq<Complex>, z: seq<Complex>, x0: seq<Complex>, q: nat, root: nat -> Complex,
                      inverse: bool, s: nat, b: nat)
    requires RootTable(root) && s < q
    requires Reached(a, x0, q, root, inverse, s, Place(b, Pow2(s + 1), 0))
    requires BlockDone(a, z, Place(b, Pow2(s + 1), 0), Pow2(s), Twiddle(root, inverse, s + 1))
    ensures Reached(z, x0, q, root, inverse, s, Place(b, Pow2(s + 1), 0) + 2 * Pow2(s))
  {
    hide Mul, Add, Minus, Cell, Pow, Twiddle, RootTable, Place, Pow2;
    var i, half := Place(b, Pow2(s + 1), 0), Pow2(s);
    PlaceOffset(b, Pow2(s + 1));
    forall k: nat | k < i + 2 * half ensures z[k] == Cell(x0, q, root, inverse, s + 1, k) {
      if k >= i + half {
        Butterfly(x0, q, root, inverse, s, b, k - half - i);
      } else if k >= i {
        Butterfly(x0, q, root, inverse, s, b, k - i);
      }
    }
  }

  lemma PlaceOffset(b: nat, h: nat)
    ensures forall j: nat :: Place(b, h, j) == Place(b, h, 0) + j
  {}

  /** One stage: every block of the given length. */
  method Stage(x: array<Complex>, length: nat, wl: Complex, ghost x0: seq<Complex>, ghost q: nat,
               ghost root: nat -> Complex, ghost inverse: bool, ghost s: nat)
    requires RootTable(root) && s < q && x.Length == Pow2(q) && length == Pow2(s + 1)
    requires wl == Twiddle(root, inverse, s + 1)
    requires forall k: nat :: k < x.Length ==> x[k] == Cell(x0, q, root, inverse, s, k)
    modifies x
    ensures forall k: nat :: k < x.Length ==> x[k] == Cell(x0, q, root, inverse, s + 1, k)
  {
    hide *;
    var n, half := x.Length, length / 2;
    ghost var b, blocks := 0, Pow2(q - s - 1);
    StageStart(x[..], x0, q, root, inverse, s);
    Pow2Step(s);
    StageSize(q, s);
    var i := 0;
    while i < n
      invariant i == Place(b, length, 0) && i <= n && b <= blocks
      invariant Reached(x[..], x0, q, root, inverse, s, i)
      decreases n - i
    {
      NextBlock(b, blocks, length);
      ghost var before := x[..];
      Block(x, i, half, wl);
      BlockAdvances(before, x[..], x0, q, root, inverse, s, b);
      i := i + length;
      b := b + 1;
    }
    StageDone(x[..], x0, q, root, inverse, s, i);
  }

  lemma StageStart(z: seq<Complex>, x0: seq<Complex>, q: nat, root: nat -> Complex, inverse: bool, s: nat)
    requires s < q && forall k: nat :: k < |z| ==> z[k] == Cell(x0, q, root, inverse, s, k)
    ensures Reached(z, x0, q, root, inverse, s, 0)
  {}

  lemma StageDone(z: seq<Complex>, x0: seq<Complex>, q: nat, root: nat -> Complex, inverse: bool, s: nat, i: nat)
    requires s < q && |z| <= i && Reached(z, x0, q, root, inverse, s, i)
    ensures forall k: nat :: k < |z| ==> z[k] == Cell(x0, q, root, inverse, s + 1, k)
  {}

  lemma PowProduct(a: nat, b: nat)
    ensures Pow2(a) * Pow2(b) == Pow2(a + b)
  {
    if a > 0 { PowProduct(a - 1, b); }
  }

  lemma StageSize(q: nat, s: nat)
    requires s < q
    ensures Place(Pow2(q - s - 1), Pow2(s + 1), 0) == Pow2(q) && Place(0, Pow2(s + 1), 0) == 0
  {
    PowProduct(q - s - 1, s + 1);
  }

  /** A block that starts before the end also ends before it. */
  lemma NextBlock(b: nat, blocks: nat, h: nat)
    requires h > 0 && b <= blocks && Place(b, h, 0) < Place(blocks, h, 0)
    ensures b < blocks && Place(b + 1, h, 0) == Place(b, h, 0) + h <= Place(blocks, h, 0)
  {
    if b < blocks { ProductGap(b, blocks, h); }
  }

  /** The transform, in place. `root` is the exact `cmplx.Rect(1, -2π/length)`, by
      the binary logarithm of the length. */
  method Fft(x: array<Complex>, inverse: bool, root: nat -> Complex, ghost q: nat)
    requires RootTable(root) && (x.Length == Pow2(q) || x.Length == 0)
    modifies x
    ensures x[..] == Dft(old(x[..]), Twiddle(root, inverse, q))
  {
    hide Mul, Add, Minus, Cell, Pow, Twiddle, RootTable, Conj, Reverse, Strand, Eval;
    var n := x.Length;
    ghost var x0 := x[..];
    if n <= 1 {
      if n == 1 {
        LogOrder(q, 0);
        FirstCells(x0, q, root, inverse, 0);
        LastCells(x0, q, root, inverse, 0);
        ReverseOfZero(0);
      }
      return;
    }
    BitReverse(x, q);
    forall k: nat | k < n ensures x[k] == Cell(x0, q, root, inverse, 0, k) {
      FirstCells(x0, q, root, inverse, k);
    }
    var length, s := 2, 0;
    while length <= n
      invariant s <= q && length == Pow2(s + 1)
      invariant forall k: nat :: k < n ==> x[k] == Cell(x0, q, root, inverse, s, k)
      decreases n + 1 - length
    {
      LogOrder(s + 1, q);
      var wl := if inverse then Conj(root(s + 1)) else root(s + 1);
      assert wl == Twiddle(root, inverse, s + 1) by { IsTwiddle(root, inverse, s + 1); }
      Stage(x, length, wl, x0, q, root, inverse, s);
      length := length * 2;
      s := s + 1;
    }
    if s < q { Pow2Monotone(s + 1, q); }
    forall k | 0 <= k < n ensures x[k] == Dft(x0, Twiddle(root, inverse, q))[k] {
      LastCells(x0, q, root, inverse, k);
    }
  }

  lemma IsTwiddle(root: nat -> Complex, inverse: bool, s: nat)
    ensures (if inverse then Conj(root(s)) else root(s)) == Twiddle(root, inverse, s)
  {}
}
