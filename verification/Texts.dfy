/** Cutting, splitting and joining text at a separator. */
module Texts {

  /** The index of the first separator, or the length where there is none. */
  function Index(s: string, c: char): (i: nat)
    ensures i <= |s| && c !in s[..i] && (i < |s| ==> s[i] == c) && (i == |s| <==> c !in s)
  {
    if |s| == 0 || s[0] == c then 0 else 1 + Index(s[1..], c)
  }

  lemma {:induction false} IndexAt(a: string, c: char, b: string)
    requires c !in a
    ensures Index(a + [c] + b, c) == |a|
  {
    var s := a + [c] + b;
    if |a| > 0 {
      assert s[1..] == a[1..] + [c] + b;
      assert a[0] in a;
      IndexAt(a[1..], c, b);
    }
  }

  function Split(s: string, c: char): (parts: seq<string>)
    ensures |parts| > 0
  {
    var i := Index(s, c);
    if i == |s| then [s] else [s[..i]] + Split(s[i + 1..], c)
  }

  function Join(parts: seq<string>, c: char): string {
    if |parts| == 0 then ""
    else if |parts| == 1 then parts[0]
    else Join(parts[..|parts| - 1], c) + [c] + parts[|parts| - 1]
  }

  lemma {:induction false} JoinHead(parts: seq<string>, c: char)
    requires |parts| > 1
    ensures Join(parts, c) == parts[0] + [c] + Join(parts[1..], c)
  {
    var init, last := parts[..|parts| - 1], parts[|parts| - 1];
    assert parts[1..][..|parts| - 2] == init[1..];
    if |parts| > 2 { JoinHead(init, c); }
  }

  lemma SplitAt(a: string, c: char, b: string)
    requires c !in a
    ensures Split(a + [c] + b, c) == [a] + Split(b, c)
  {
    hide Index;
    var s := a + [c] + b;
    IndexAt(a, c, b);
    assert s[..|a|] == a && s[|a| + 1..] == b;
  }

  lemma SplitNone(a: string, c: char)
    requires c !in a
    ensures Split(a, c) == [a]
  {}

  /** Splitting what was joined gives the parts back. */
  lemma {:induction false} SplitJoins(parts: seq<string>, c: char)
    requires |parts| > 0 && forall p :: p in parts ==> c !in p
    ensures Split(Join(parts, c), c) == parts
  {
    hide Split, Index;
    assert parts[0] in parts && forall p :: p in parts[1..] ==> p in parts;
    if |parts| > 1 {
      JoinHead(parts, c);
      SplitAt(parts[0], c, Join(parts[1..], c));
      SplitJoins(parts[1..], c);
      assert parts == [parts[0]] + parts[1..];
    } else {
      SplitNone(parts[0], c);
      assert parts == [parts[0]];
    }
  }
}
