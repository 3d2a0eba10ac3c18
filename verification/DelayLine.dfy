/** The delay line: a masked ring buffer that carries each block of its input at a
    delay of its own. */
module DelayLines {
  import opened Bits

  /** A line's fixed description. `draws(i)` is the i-th value the generator gives
      when it is asked for one in [0, jitter]. */
  datatype Line = Line(base: nat, jitter: nat, resample: nat, draws: nat -> nat) {
    ghost predicate Valid() {
      resample > 0 && forall i :: draws(i) <= jitter
    }

    /** The delay in force at sample t: drawn once per block of `resample` samples. */
    function Delay(t: nat): (d: nat)
      requires resample > 0
      ensures Valid() ==> base <= d <= base + jitter
    {
      if jitter > 0 then base + draws(Quot(t, resample)) else base
    }

    /** What leaves the line at sample t, when h is everything that entered it. */
    function Echo(h: seq<real>, t: nat): real
      requires resample > 0 && t < |h|
    {
      if t >= Delay(t) then h[t - Delay(t)] else 0.0
    }

    /** What leaves the line from sample `from` on. */
    function EchoFrom(h: seq<real>, from: nat): (e: seq<real>)
      requires resample > 0 && from <= |h|
      ensures |e| == |h| - from && forall i :: 0 <= i < |e| ==> e[i] == Echo(h, from + i)
    {
      seq(|h| - from, i requires 0 <= i < |h| - from => Echo(h, from + i))
    }

    /** In full: each sample of h from `from` on is answered with the one that entered the
        block's delay earlier, or with silence where there was none. */
    ghost predicate Carries(h: seq<real>, from: nat, out: seq<real>) {
      resample > 0 && from <= |h| <= from + |out|
      && forall i :: 0 <= i < |h| - from ==>
        var t := from + i;
        var d := if jitter > 0 then base + draws(t / resample) else base;
        out[i] == if t >= d then h[t - d] else 0.0
    }

    lemma CarriesEcho(h: seq<real>, from: nat, out: seq<real>, rest: seq<real>)
      requires resample > 0 && from <= |h| && out == EchoFrom(h, from) + rest
      ensures Carries(h, from, out)
    {
      forall i | 0 <= i < |h| - from ensures out[i] == Echo(h, from + i) {
        assert out[i] == EchoFrom(h, from)[i];
      }
    }

    /** The output of feeding the frames one by one, after h has already entered. */
    function Feed(h: seq<real>, frames: seq<seq<real>>): seq<real>
      requires resample > 0
      decreases |frames|
    {
      if |frames| == 0 then []
      else EchoFrom(h + frames[0], |h|) + Feed(h + frames[0], frames[1..])
    }

    /** How the input is split into frames makes no difference. */
    lemma {:induction false} FramingIsInvisible(h: seq<real>, frames: seq<seq<real>>)
      requires resample > 0
      ensures Feed(h, frames) == EchoFrom(h + Concat(frames), |h|)
      decreases |frames|
    {
      if |frames| == 0 {
        assert h + Concat(frames) == h;
      } else {
        var g, rest := h + frames[0], frames[1..];
        FramingIsInvisible(g, rest);
        var all := h + Concat(frames);
        assert g + Concat(rest) == all;
        assert forall i :: 0 <= i < |frames[0]| ==> EchoFrom(g, |h|)[i] == EchoFrom(all, |h|)[i];
      }
    }
  }

  function Concat(frames: seq<seq<real>>): seq<real> {
    if |frames| == 0 then [] else frames[0] + Concat(frames[1..])
  }

  lemma RemDistinct(a: nat, b: nat, n: nat)
    requires n > 0 && a < b < a + n
    ensures Rem(a, n) != Rem(b, n)
  {
    if Rem(a, n) == Rem(b, n) {
      var qa, qb := Quot(a, n), Quot(b, n);
      assert a == qa * n + Rem(a, n) && b == qb * n + Rem(b, n);
      if qb > qa { ProductGap(qa, qb, n); } else if qb < qa { ProductGap(qb, qa, n); }
    }
  }

  /** Moving on by one sample enters a new block or stays in the old one. */
  lemma NextQuot(t: nat, n: nat)
    requires n > 0 && t > 0
    ensures Rem(t, n) == 0 ==> Quot(t, n) == Quot(t - 1, n) + 1
    ensures Rem(t, n) != 0 ==> Quot(t, n) == Quot(t - 1, n)
  {
    var q, r := Quot(t, n), Rem(t, n);
    assert t == q * n + r;
    if r == 0 {
      assert t - 1 == (q - 1) * n + (n - 1);
      DivModUnique(t - 1, n, q - 1, n - 1);
    } else {
      DivModUnique(t - 1, n, q, r - 1);
    }
  }

  lemma QuotRemZero(n: nat)
    requires n > 0
    ensures Quot(0, n) == 0 && Rem(0, n) == 0
  {}

  lemma MaskIsRem(t: nat, k: nat)
    ensures And(t, Pow2(k) - 1) == Rem(t, Pow2(k))
  {
    MaskIsMod(t, k);
  }

  class DelayLine {
    const line: Line
    const ring: array<real>
    const mask: nat
    var pos: nat
    var cur: nat
    var drawn: nat
    ghost const bits: nat
    ghost var hist: seq<real>

    ghost predicate Valid()
      reads this, ring
    {
      && line.Valid()
      && ring.Length == Pow2(bits) && mask == ring.Length - 1
      && ring.Length > line.base + line.jitter
      && pos == |hist|
      && Held(ring[..], hist)
      && (if pos == 0 then cur == line.base && drawn == 0
          else cur == line.Delay(pos - 1)
               && (line.jitter > 0 ==> drawn == Quot(pos - 1, line.resample) + 1))
    }

    constructor (base: nat, jitter: nat, resample: int, frame: nat, draws: nat -> nat)
      requires resample > 0 || frame > 0
      requires forall i :: draws(i) <= jitter
      ensures Valid() && fresh(ring) && hist == []
      ensures line == Line(base, jitter, if resample <= 0 then frame else resample, draws)
    {
      var size, k := NextPow2(base + jitter + frame + 1);
      ring := new real[size](_ => 0.0);
      mask := size - 1;
      line := Line(base, jitter, if resample <= 0 then frame else resample, draws);
      cur := base;
      pos, drawn := 0, 0;
      bits := k;
      hist := [];
    }

    /** One frame in, one frame out. */
    method Exchange(input: array<real>, out: array<real>)
      requires Valid() && input != ring && out != ring && input.Length <= out.Length
      modifies this, ring, out
      ensures Valid() && hist == old(hist) + old(input[..])
      ensures out[..] == line.EchoFrom(hist, |old(hist)|) + old(out[input.Length..])
      ensures line.Carries(hist, |old(hist)|, out[..])
    {
      SpecStart(line, hist);
      hide *;
      ghost var before, in0, out0 := hist, input[..], out[..];
      var i := 0;
      while i < input.Length
        invariant 0 <= i <= input.Length
        invariant Valid() && hist == before + in0[..i]
        invariant forall j :: i <= j < input.Length ==> input[j] == in0[j]
        invariant |before| <= |hist| && line.resample > 0
        invariant out[..] == line.EchoFrom(hist, |before|) + out0[i..]
      {
        ghost var h := hist;
        assert input[i] == in0[i];
        assert in0[..i + 1] == in0[..i] + [in0[i]];
        ghost var was := out[..];
        var v := Step(input[i]);
        out[i] := v;
        ExtendEcho(line, before, h, in0[i], v, was, out0, i);
        assert out[..] == was[i := v];
        i := i + 1;
      }
      assert in0[..input.Length] == in0;
      line.CarriesEcho(hist, |before|, out[..], out0[i..]);
    }

    /** One sample through the ring. */
    method Step(x: real) returns (v: real)
      requires Valid()
      modifies this, ring
      ensures Valid() && hist == old(hist) + [x]
      ensures v == line.Echo(hist, |old(hist)|)
    {
      hide And, Or, Pow2, Held;
      var t := pos;
      if t > 0 { NextQuot(t, line.resample); } else { QuotRemZero(line.resample); }
      if Rem(t, line.resample) == 0 && line.jitter > 0 {
        cur := line.base + line.draws(drawn);
        drawn := drawn + 1;
      }
      MaskIsRem(t, bits);
      ring[And(t, mask)] := x;
      hist := hist + [x];
      HeldStep(old(ring[..]), old(hist), x);
      assert ring[..] == old(ring[..])[Rem(t, ring.Length) := x];
      v := 0.0;
      if t >= cur {
        MaskIsRem(t - cur, bits);
        HeldAt(ring[..], hist, t - cur);
        v := ring[And(t - cur, mask)];
      }
      pos := pos + 1;
    }
  }

  lemma SpecStart(line: Line, h: seq<real>)
    requires line.Valid()
    ensures line.resample > 0 && line.EchoFrom(h, |h|) == []
  {}

  lemma ExtendEcho(line: Line, before: seq<real>, h: seq<real>, x: real, v: real,
                   was: seq<real>, out0: seq<real>, i: nat)
    requires line.resample > 0 && |before| <= |h| && i < |out0| && i == |h| - |before|
    requires was == line.EchoFrom(h, |before|) + out0[i..]
    requires v == line.Echo(h + [x], |h|)
    ensures |was| == |out0| && was[i := v] == line.EchoFrom(h + [x], |before|) + out0[i + 1..]
  {
    var e := line.EchoFrom(h + [x], |before|);
    assert forall j :: 0 <= j < i ==> e[j] == line.EchoFrom(h, |before|)[j];
  }

  /** The ring holds the last |ring| samples of h, each at its index modulo the size. */
  ghost predicate Held(ring: seq<real>, h: seq<real>) {
    |ring| > 0 &&
    forall t: nat {:trigger h[t]} :: t < |h| && |h| - |ring| <= t ==> ring[Rem(t, |ring|)] == h[t]
  }

  lemma HeldStep(ring: seq<real>, h: seq<real>, x: real)
    requires Held(ring, h)
    ensures Held(ring[Rem(|h|, |ring|) := x], h + [x])
  {
    var n := |ring|;
    var g := h + [x];
    forall t: nat | t < |g| && |g| - n <= t
      ensures ring[Rem(|h|, n) := x][Rem(t, n)] == g[t]
    {
      if t < |h| {
        RemDistinct(t, |h|, n);
        assert h[t] == g[t];
      }
    }
  }

  lemma HeldAt(ring: seq<real>, h: seq<real>, t: nat)
    requires Held(ring, h) && t < |h| && |h| - |ring| <= t
    ensures ring[Rem(t, |ring|)] == h[t]
  {}
}
