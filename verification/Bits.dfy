/** Powers of two and the bit operators the measurement rig computes with.
    Go's integers are modelled by `nat` here: every operand below is an index or
    a length. */
module Bits {

  function Pow2(k: nat): (p: nat)
    ensures p >= 1
  {
    if k == 0 then 1 else 2 * Pow2(k - 1)
  }

  /** The operator `&`, digit by digit. */
  function And(a: nat, b: nat): nat {
    if a == 0 || b == 0 then 0
    else 2 * And(a / 2, b / 2) + (if a % 2 == 1 && b % 2 == 1 then 1 else 0)
  }

  /** The operator `|`, digit by digit. */
  function Or(a: nat, b: nat): nat
    decreases a + b
  {
    if a == 0 then b else if b == 0 then a
    else 2 * Or(a / 2, b / 2) + (if a % 2 == 1 || b % 2 == 1 then 1 else 0)
  }

  /** The operator `^`, digit by digit. */
  function Xor(a: nat, b: nat): nat
    decreases a + b
  {
    if a == 0 then b else if b == 0 then a
    else 2 * Xor(a / 2, b / 2) + (if a % 2 != b % 2 then 1 else 0)
  }

  lemma Pow2Step(k: nat)
    ensures Pow2(k + 1) == 2 * Pow2(k)
  {}

  lemma LogOrder(a: nat, b: nat)
    requires Pow2(a) <= Pow2(b)
    ensures a <= b
  {
    if a > 0 && b > 0 { LogOrder(a - 1, b - 1); }
  }

  lemma Pow2Monotone(a: nat, b: nat)
    requires a <= b
    ensures Pow2(a) <= Pow2(b)
  {
    if a < b { Pow2Monotone(a, b - 1); }
  }

  function Quot(n: nat, d: nat): nat
    requires d > 0
  {
    n / d
  }

  function Rem(n: nat, d: nat): (r: nat)
    requires d > 0
    ensures r < d
  {
    n % d
  }

  lemma QuotientUnique(d: int, q: int, r: int, q': int, r': int)
    requires 0 <= r < d && 0 <= r' < d && q * d + r == q' * d + r'
    ensures q == q' && r == r'
  {
    if q < q' {
      ProductGap(q, q', d);
    } else if q > q' {
      ProductGap(q', q, d);
    }
  }

  lemma ProductGap(a: int, b: int, d: nat)
    requires a < b
    ensures b * d >= a * d + d
  {
    var e := b - a - 1;
    calc {
      b * d;
      (a + 1 + e) * d;
      a * d + d + e * d;
    }
    assert e * d >= 0;
  }

  lemma DivModUnique(n: int, d: int, q: int, r: int)
    requires 0 <= r < d && n == q * d + r
    ensures n / d == q && n % d == r
  {
    QuotientUnique(d, q, r, n / d, n % d);
  }

  /** Testing, clearing and setting the top bit of a number that has no higher one. */
  lemma {:induction false} TopBit(j: nat, k: nat)
    requires j < Pow2(k + 1)
    ensures And(j, Pow2(k)) == if j < Pow2(k) then 0 else Pow2(k)
    ensures j >= Pow2(k) ==> Xor(j, Pow2(k)) == j - Pow2(k)
    ensures j < Pow2(k) ==> Or(j, Pow2(k)) == j + Pow2(k)
  {
    if k > 0 {
      assert Pow2(k) == 2 * Pow2(k - 1) && Pow2(k + 1) == 2 * Pow2(k);
      TopBit(j / 2, k - 1);
    }
  }

  lemma AndStep(t: nat, half: nat)
    requires t > 0 && half > 0
    ensures And(t, 2 * half - 1) == 2 * And(t / 2, half - 1) + t % 2
  {
    var m := 2 * half - 1;
    assert m / 2 == half - 1 && m % 2 == 1;
  }

  /** Masking with one less than a power of two is reduction modulo that power. */
  lemma {:induction false} MaskIsMod(t: nat, k: nat)
    ensures And(t, Pow2(k) - 1) == t % Pow2(k)
  {
    if t == 0 {
      DivModUnique(0, Pow2(k), 0, 0);
    } else if k == 0 {
      DivModUnique(t, Pow2(0), t, 0);
    } else {
      var half := Pow2(k - 1);
      calc {
        And(t, Pow2(k) - 1);
        { AndStep(t, half); }
        2 * And(t / 2, half - 1) + t % 2;
        { MaskIsMod(t / 2, k - 1); }
        2 * (t / 2 % half) + t % 2;
        { HalfMod(t, half); }
        t % Pow2(k);
      }
    }
  }

  lemma HalfMod(t: nat, half: nat)
    requires half > 0
    ensures t % (2 * half) == 2 * (t / 2 % half) + t % 2
  {
    var q, r := t / 2 / half, t / 2 % half;
    assert t / 2 == q * half + r;
    assert t == q * (2 * half) + (2 * r + t % 2);
    DivModUnique(t, 2 * half, q, 2 * r + t % 2);
  }

  /** The smallest power of two that is at least n, by repeated doubling. */
  method NextPow2(n: int) returns (p: nat, ghost k: nat)
    ensures p == Pow2(k)
    ensures p >= n
    ensures forall i: nat :: Pow2(i) >= n ==> Pow2(i) >= p
  {
    p, k := 1, 0;
    while p < n
      invariant p == Pow2(k)
      invariant forall i: nat :: i < k ==> Pow2(i) < n
      decreases n - p
    {
      p, k := p * 2, k + 1;
    }
    forall i: nat | Pow2(i) >= n ensures Pow2(i) >= p {
      Pow2Monotone(k, if i < k then k else i);
    }
  }

  /** The q low binary digits of i, read backwards. */
  function Reverse(q: nat, i: nat): nat {
    if q == 0 then 0 else (if i % 2 == 1 then Pow2(q - 1) else 0) + Reverse(q - 1, i / 2)
  }

  lemma {:induction false} ReverseBound(q: nat, i: nat)
    ensures Reverse(q, i) < Pow2(q)
  {
    if q > 0 { ReverseBound(q - 1, i / 2); }
  }

  lemma ReverseStep(q: nat, i: nat)
    requires q > 0
    ensures Reverse(q, i) == (if i % 2 == 1 then Pow2(q - 1) else 0) + Reverse(q - 1, i / 2)
  {}

  /** A digit put in front of i is the last digit of the reversal. */
  lemma {:induction false} ReverseTop(q: nat, i: nat, top: bool)
    requires q > 0 && i < Pow2(q - 1)
    ensures Reverse(q, i + if top then Pow2(q - 1) else 0) == 2 * Reverse(q - 1, i) + if top then 1 else 0
  {
    hide Reverse, Pow2;
    var j := i + if top then Pow2(q - 1) else 0;
    ReverseStep(q, j);
    Pow2Zero();
    if q > 1 {
      Pow2Step(q - 2);
      var j' := i / 2 + if top then Pow2(q - 2) else 0;
      assert j / 2 == j' && j % 2 == i % 2;
      ReverseTop(q - 1, i / 2, top);
      ReverseStep(q - 1, i);
    } else {
      ReverseZero(j / 2);
      ReverseZero(i);
    }
  }

  lemma Pow2Zero()
    ensures Pow2(0) == 1
  {}

  lemma ReverseZero(i: nat)
    ensures Reverse(0, i) == 0
  {}

  lemma {:induction false} ReverseInvolution(q: nat, i: nat)
    requires i < Pow2(q)
    ensures Reverse(q, Reverse(q, i)) == i
  {
    if q > 0 {
      ReverseBound(q - 1, i / 2);
      ReverseTop(q, Reverse(q - 1, i / 2), i % 2 == 1);
      ReverseInvolution(q - 1, i / 2);
    }
  }

  /** Adding one at the top end of a q-digit number, carrying downwards. */
  function CarryDown(q: nat, j: nat): nat {
    if q == 0 then j
    else if j >= Pow2(q - 1) then CarryDown(q - 1, j - Pow2(q - 1))
    else j + Pow2(q - 1)
  }

  lemma {:induction false} CarryDownReverses(q: nat, i: nat)
    requires i + 1 < Pow2(q)
    ensures CarryDown(q, Reverse(q, i)) == Reverse(q, i + 1)
  {
    hide Reverse;
    var h, r := Pow2(q - 1), Reverse(q - 1, i / 2);
    ReverseBound(q - 1, i / 2);
    ReverseStep(q, i);
    ReverseStep(q, i + 1);
    if i % 2 == 1 {
      assert (i + 1) / 2 == i / 2 + 1 && (i + 1) % 2 == 0;
      CarryDownReverses(q - 1, i / 2);
    } else {
      assert (i + 1) / 2 == i / 2 && (i + 1) % 2 == 1;
    }
  }
}
