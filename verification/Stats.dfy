/** Percentiles by nearest rank, on a sample sorted in place. */
module Statistics {

  ghost predicate Sorted(s: seq<real>) {
    forall i, j :: 0 <= i < j < |s| ==> s[i] <= s[j]
  }

  /** `sort.Float64s`: sorts in place. */
  method SortInPlace(a: array<real>)
    modifies a
    ensures Sorted(a[..]) && multiset(a[..]) == multiset(old(a[..]))
  {
    var n := 0;
    while n < a.Length
      invariant 0 <= n <= a.Length
      invariant Sorted(a[..n]) && multiset(a[..]) == multiset(old(a[..]))
    {
      n := n + 1;
      SinkLast(a, n);
    }
    assert a[..a.Length] == a[..];
  }

  /** Moves element n-1 down into the sorted prefix below it. */
  method SinkLast(a: array<real>, n: nat)
    requires 0 < n <= a.Length && Sorted(a[..n - 1])
    modifies a
    ensures Sorted(a[..n]) && multiset(a[..]) == multiset(old(a[..]))
  {
    hide Sorted;
    ghost var m := multiset(a[..]);
    SortedBelow(a[..], n);
    var j := n - 1;
    while j > 0 && a[j - 1] > a[j]
      invariant 0 <= j < n
      invariant SortedExcept(a[..], n, j)
      invariant multiset(a[..]) == m
    {
      ghost var s := a[..];
      a[j - 1], a[j] := a[j], a[j - 1];
      assert a[..] == s[j - 1 := s[j]][j := s[j - 1]];
      SwapKeeps(s, n, j);
      j := j - 1;
    }
    SortedAll(a[..], n, j);
  }

  /** The first n elements are in order, except that the j-th may be too small. */
  ghost predicate SortedExcept(s: seq<real>, n: nat, j: nat) {
    n <= |s| && forall x, y :: 0 <= x < y < n && y != j ==> s[x] <= s[y]
  }

  lemma SortedBelow(s: seq<real>, n: nat)
    requires 0 < n <= |s| && Sorted(s[..n - 1])
    ensures SortedExcept(s, n, n - 1)
  {
    assert forall x :: 0 <= x < n - 1 ==> s[..n - 1][x] == s[x];
  }

  lemma SortedAll(s: seq<real>, n: nat, j: nat)
    requires j < n && SortedExcept(s, n, j) && (j == 0 || s[j - 1] <= s[j])
    ensures Sorted(s[..n])
  {
    forall x, y | 0 <= x < y < n ensures s[x] <= s[y] {
      if y == j && x < j - 1 { assert s[x] <= s[j - 1]; }
    }
  }

  lemma SwapKeeps(s: seq<real>, n: nat, j: nat)
    requires 0 < j < n && SortedExcept(s, n, j) && s[j - 1] > s[j]
    ensures var z := s[j - 1 := s[j]][j := s[j - 1]];
      SortedExcept(z, n, j - 1) && multiset(z) == multiset(s)
  {
    var z := s[j - 1 := s[j]][j := s[j - 1]];
    assert s == s[..j - 1] + [s[j - 1]] + [s[j]] + s[j + 1..];
    assert z == s[..j - 1] + [s[j]] + [s[j - 1]] + s[j + 1..];
  }

  ghost function Without(s: seq<real>, i: nat): seq<real>
    requires i < |s|
  {
    s[..i] + s[i + 1..]
  }

  lemma WithoutIs(s: seq<real>, i: nat)
    requires i < |s|
    ensures multiset(s) == multiset(Without(s, i)) + multiset{s[i]} && |Without(s, i)| == |s| - 1
  {
    assert s == s[..i] + ([s[i]] + s[i + 1..]);
  }

  lemma FindIn(a: seq<real>, b: seq<real>)
    requires multiset(a) == multiset(b) && |a| > 0
    ensures |a| == |b| && exists i :: 0 <= i < |b| && b[i] == a[0]
  {
    assert |multiset(a)| == |multiset(b)|;
    assert a[0] in multiset(a);
    assert a[0] in multiset(b);
  }

  lemma {:induction false} SortedUnique(a: seq<real>, b: seq<real>)
    requires Sorted(a) && Sorted(b) && multiset(a) == multiset(b)
    ensures a == b
    decreases |a|
  {
    if |a| == 0 {
      assert |multiset(b)| == 0;
    } else {
      SameHead(a, b);
      SortedTail(a);
      SortedTail(b);
      hide *;
      WithoutIs(a, 0);
      WithoutIs(b, 0);
      SameRest(multiset(Without(a, 0)), multiset(Without(b, 0)), multiset{a[0]});
      SortedUnique(Without(a, 0), Without(b, 0));
    }
  }

  lemma SameHead(a: seq<real>, b: seq<real>)
    requires Sorted(a) && Sorted(b) && multiset(a) == multiset(b) && |a| > 0
    ensures |b| > 0 && a[0] == b[0]
  {
    FindIn(a, b);
    FindIn(b, a);
  }

  lemma SortedTail(a: seq<real>)
    requires Sorted(a) && |a| > 0
    ensures Sorted(Without(a, 0)) && a == [a[0]] + Without(a, 0)
  {
    assert Without(a, 0) == a[1..];
  }

  lemma SameRest(a: multiset<real>, b: multiset<real>, c: multiset<real>)
    requires a + c == b + c
    ensures a == b
  {
    assert a == (a + c) - c;
    assert b == (b + c) - c;
  }

  /** How many samples are at most v. */
  function AtMost(s: seq<real>, v: real): nat {
    if |s| == 0 then 0 else (if s[0] <= v then 1 else 0) + AtMost(s[1..], v)
  }

  lemma {:induction false} AtMostConcat(a: seq<real>, b: seq<real>, v: real)
    ensures AtMost(a + b, v) == AtMost(a, v) + AtMost(b, v)
  {
    if |a| == 0 {
      assert a + b == b;
    } else {
      assert (a + b)[1..] == a[1..] + b;
      AtMostConcat(a[1..], b, v);
    }
  }

  lemma AtMostWithout(s: seq<real>, i: nat, v: real)
    requires i < |s|
    ensures AtMost(s, v) == AtMost(Without(s, i), v) + if s[i] <= v then 1 else 0
  {
    var tail := [s[i]] + s[i + 1..];
    assert s == s[..i] + tail;
    assert tail[1..] == s[i + 1..];
    AtMostConcat(s[..i], tail, v);
    AtMostConcat(s[..i], s[i + 1..], v);
  }

  lemma {:induction false} AtMostPermutation(a: seq<real>, b: seq<real>, v: real)
    requires multiset(a) == multiset(b)
    ensures AtMost(a, v) == AtMost(b, v)
    decreases |a|
  {
    if |a| == 0 {
      assert |multiset(b)| == 0;
    } else {
      FindIn(a, b);
      var i :| 0 <= i < |b| && b[i] == a[0];
      hide *;
      WithoutIs(a, 0);
      WithoutIs(b, i);
      SameRest(multiset(Without(a, 0)), multiset(Without(b, i)), multiset{a[0]});
      AtMostPermutation(Without(a, 0), Without(b, i), v);
      AtMostWithout(a, 0, v);
      AtMostWithout(b, i, v);
    }
  }

  lemma {:induction false} AtMostBounds(s: seq<real>, v: real, k: nat)
    requires Sorted(s) && k <= |s|
    ensures (forall i :: 0 <= i < k ==> s[i] <= v) ==> AtMost(s, v) >= k
    ensures (forall i :: k <= i < |s| ==> s[i] > v) ==> AtMost(s, v) <= k
    decreases |s|
  {
    if |s| > 0 {
      var t := s[1..];
      if k > 0 {
        AtMostBounds(t, v, k - 1);
        assert forall i :: 0 <= i < |t| ==> t[i] == s[i + 1];
        if forall i :: 0 <= i < k ==> s[i] <= v { assert forall i :: 0 <= i < k - 1 ==> t[i] <= v; }
        if forall i :: k <= i < |s| ==> s[i] > v { assert forall i :: k - 1 <= i < |t| ==> t[i] > v; }
      } else {
        AtMostBounds(t, v, 0);
        if forall i :: 0 <= i < |s| ==> s[i] > v { assert forall i :: 0 <= i < |t| ==> t[i] > v; }
      }
    }
  }

  /** The count is of positions. */
  lemma {:induction false} AtMostCounts(s: seq<real>, v: real)
    ensures AtMost(s, v) == |set i | 0 <= i < |s| && s[i] <= v|
  {
    var here := set i | 0 <= i < |s| && s[i] <= v;
    if |s| > 0 {
      var init, last := s[..|s| - 1], |s| - 1;
      AtMostCounts(init, v);
      AtMostConcat(init, [s[last]], v);
      assert s == init + [s[last]];
      assert here == (set i | 0 <= i < |init| && init[i] <= v) + if s[last] <= v then {last} else {};
    } else {
      assert here == {};
    }
  }

  function Ceil(x: real): (c: int)
    ensures c as real - 1.0 < x <= c as real
  {
    -((-x).Floor)
  }

  /** The nearest rank of percentile p among n samples, kept within 1..n. */
  function Rank(p: real, n: nat): int {
    var r := Ceil(p / 100.0 * n as real);
    var low := if r < 1 then 1 else r;
    if low > n then n else low
  }

  lemma RankBounds(p: real, n: nat)
    requires n > 0
    ensures 1 <= Rank(p, n) <= n
    ensures 0.0 < p <= 100.0 ==> Rank(p, n) == Ceil(p / 100.0 * n as real)
  {
    if 0.0 < p <= 100.0 {
      var m := n as real;
      var f := p / 100.0;
      assert 0.0 < f <= 1.0;
      Fraction(f, m);
    }
  }

  /** So many samples reach the rank exactly where they are p percent of all. */
  lemma RankShare(p: real, n: nat, k: int)
    requires 0.0 < p <= 100.0 && n > 0
    ensures k >= Rank(p, n) <==> k as real * 100.0 >= p * n as real
  {
    RankBounds(p, n);
    hide Rank;
    var x := p / 100.0 * n as real;
    Percent(p, n as real);
    if k >= Ceil(x) { assert k as real >= x; }
    if k < Ceil(x) { assert k as real <= Ceil(x) as real - 1.0; }
  }

  lemma Percent(p: real, m: real)
    ensures p / 100.0 * m * 100.0 == p * m
  {}

  lemma Fraction(f: real, m: real)
    requires 0.0 < f <= 1.0 && m > 0.0
    ensures 0.0 < f * m <= m
  {}

  lemma RankMonotone(p: real, p': real, n: nat)
    requires p <= p'
    ensures Rank(p, n) <= Rank(p', n)
  {
    var m := n as real;
    ScaleMonotone(p / 100.0, p' / 100.0, m);
  }

  lemma ScaleMonotone(f: real, g: real, m: real)
    requires f <= g && m >= 0.0
    ensures f * m <= g * m
  {}

  /** In a sorted sample the element of rank r is the least with r samples at or below it. */
  lemma RankIsLeast(s: seq<real>, r: nat)
    requires Sorted(s) && 1 <= r <= |s|
    ensures AtMost(s, s[r - 1]) >= r
    ensures forall w :: w in s && AtMost(s, w) >= r ==> s[r - 1] <= w
  {
    AtMostBounds(s, s[r - 1], r);
    forall w | w in s && AtMost(s, w) >= r ensures s[r - 1] <= w {
      AtMostBounds(s, w, r - 1);
    }
  }

  datatype Figure = NaN | Number(value: real)

  /** v is the least sample with at least r samples at or below it. */
  ghost predicate NearestRank(s: seq<real>, r: int, v: real) {
    v in s && AtMost(s, v) >= r && forall w :: w in s && AtMost(s, w) >= r ==> v <= w
  }

  /** v is the least sample with p percent of all at or below it. */
  ghost predicate LeastWith(s: seq<real>, p: real, v: real) {
    v in s && AtMost(s, v) as real * 100.0 >= p * |s| as real
    && forall w :: w in s && AtMost(s, w) as real * 100.0 >= p * |s| as real ==> v <= w
  }

  /** f is the element of p's rank in s. */
  ghost predicate RankedAt(s: seq<real>, p: real, f: Figure) {
    1 <= Rank(p, |s|) <= |s| && f == Number(s[Rank(p, |s|) - 1])
  }

  /** The percentile by nearest rank: the least sample with at least the ranked
      number of samples at or below it, and no number for an empty sample. */
  method Percentile(xs: array<real>, p: real) returns (r: Figure)
    modifies xs
    ensures multiset(xs[..]) == multiset(old(xs[..]))
    ensures xs.Length == 0 ==> r.NaN?
    ensures xs.Length > 0 ==> Sorted(xs[..])
    ensures Sorted(old(xs[..])) ==> xs[..] == old(xs[..])
    ensures xs.Length > 0 ==> r.Number? && RankedAt(xs[..], p, r)
    ensures xs.Length > 0 ==> NearestRank(old(xs[..]), Rank(p, xs.Length), r.value)
    ensures xs.Length > 0 && 0.0 < p <= 100.0 ==> LeastWith(old(xs[..]), p, r.value)
    ensures xs.Length > 0 && p <= 0.0 ==> r.value == xs[0]
    ensures xs.Length > 0 && p > 100.0 ==> r.value == xs[xs.Length - 1]
  {
    if xs.Length == 0 {
      return NaN;
    }
    hide AtMost, Sorted, NearestRank, LeastWith;
    ghost var before := xs[..];
    SortInPlace(xs);
    var rank := Clamped(p, xs.Length);
    hide Rank;
    if Sorted(before) { SortedUnique(before, xs[..]); }
    RankBounds(p, xs.Length);
    r := Number(xs[rank - 1]);
    PercentileIsLeast(before, xs[..], rank);
    if 0.0 < p <= 100.0 { LeastShare(before, p, r.value); }
    RankOutside(p, xs.Length);
  }

  method Clamped(p: real, n: nat) returns (rank: int)
    requires n > 0
    ensures rank == Rank(p, n) && 1 <= rank <= n
  {
    rank := Ceil(p / 100.0 * n as real);
    if rank < 1 {
      rank := 1;
    }
    if rank > n {
      rank := n;
    }
  }

  lemma RankOutside(p: real, n: nat)
    requires n > 0
    ensures p <= 0.0 ==> Rank(p, n) == 1
    ensures p > 100.0 ==> Rank(p, n) == n
  {
    var m := n as real;
    if p <= 0.0 { ScaleMonotone(p / 100.0, 0.0, m); }
    if p > 100.0 { ScaleMonotone(1.0, p / 100.0, m); }
  }

  /** The nearest rank, without ranks: the least sample with p percent of all at or below. */
  lemma LeastShare(s: seq<real>, p: real, v: real)
    requires |s| > 0 && 0.0 < p <= 100.0 && NearestRank(s, Rank(p, |s|), v)
    ensures LeastWith(s, p, v)
  {
    hide Rank, AtMost;
    RankShare(p, |s|, AtMost(s, v));
    forall w | w in s && AtMost(s, w) as real * 100.0 >= p * |s| as real ensures v <= w {
      RankShare(p, |s|, AtMost(s, w));
    }
  }

  lemma PercentileIsLeast(before: seq<real>, sorted: seq<real>, r: nat)
    requires Sorted(sorted) && multiset(before) == multiset(sorted) && 1 <= r <= |sorted|
    ensures NearestRank(before, r, sorted[r - 1])
  {
    hide AtMost, Sorted;
    RankIsLeast(sorted, r);
    AtMostPermutation(before, sorted, sorted[r - 1]);
    assert sorted[r - 1] in multiset(before);
    forall w | w in before && AtMost(before, w) >= r ensures sorted[r - 1] <= w {
      assert w in multiset(sorted);
      AtMostPermutation(before, sorted, w);
    }
  }
}
