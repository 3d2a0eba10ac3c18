/** The one strictly sorted listing of a finite set, and a sort that produces it.
    Go ranges over a map in no fixed order and then sorts what it collected; the
    listing is what that gives, whatever the order was. */
module Listings {

  ghost predicate Increasing<T(!new)>(s: seq<T>, less: (T, T) -> bool) {
    forall i, j :: 0 <= i < j < |s| ==> less(s[i], s[j])
  }

  /** `less` is a strict total order on e. */
  ghost predicate Ordered<T(!new)>(e: set<T>, less: (T, T) -> bool) {
    (forall a :: a in e ==> !less(a, a))
    && (forall a, b :: a in e && b in e && a != b ==> less(a, b) || less(b, a))
    && (forall a, b, c :: a in e && b in e && c in e && less(a, b) && less(b, c) ==> less(a, c))
  }

  function Elements<T>(s: seq<T>): set<T> { set x | x in s }

  ghost predicate Lists<T(!new)>(s: seq<T>, e: set<T>, less: (T, T) -> bool) {
    Increasing(s, less) && Elements(s) == e
  }

  /** A set has one sorted listing. */
  lemma {:induction false} ListingUnique<T(!new)>(s: seq<T>, t: seq<T>, e: set<T>, less: (T, T) -> bool)
    requires Ordered(e, less) && Lists(s, e, less) && Lists(t, e, less)
    ensures s == t
    decreases |s|
  {
    if |s| > 0 { assert s[0] in Elements(s); }
    if |t| > 0 { assert t[0] in Elements(t); }
    if |s| > 0 {
      assert s[0] == t[0];
      TailLists(s, e, less);
      TailLists(t, e, less);
      ListingUnique(s[1..], t[1..], e - {s[0]}, less);
      assert s == [s[0]] + s[1..] && t == [t[0]] + t[1..];
    }
  }

  lemma TailLists<T(!new)>(s: seq<T>, e: set<T>, less: (T, T) -> bool)
    requires Ordered(e, less) && Lists(s, e, less) && |s| > 0
    ensures Lists(s[1..], e - {s[0]}, less)
  {
    forall x | x in e - {s[0]} ensures x in s[1..] {
      assert x in Elements(s);
      var i :| 0 <= i < |s| && s[i] == x;
      assert s[1..][i - 1] == x;
    }
    forall x | x in s[1..] ensures x in e && x != s[0] {
      var i :| 0 <= i < |s[1..]| && s[1..][i] == x;
      assert s[i + 1] == x && x in Elements(s) && s[0] in Elements(s);
      assert less(s[0], s[i + 1]);
    }
  }

  /** Adding x at its place keeps a listing a listing. */
  lemma InsertLists<T(!new)>(s: seq<T>, e: set<T>, less: (T, T) -> bool, x: T, i: nat)
    requires Ordered(e + {x}, less) && Lists(s, e, less) && x !in e && i <= |s|
    requires forall j :: 0 <= j < i ==> less(s[j], x)
    requires i < |s| ==> less(x, s[i])
    ensures Lists(s[..i] + [x] + s[i..], e + {x}, less)
  {
    var t := s[..i] + [x] + s[i..];
    forall y | y in e + {x} ensures y in t {
      if y == x {
        assert t[i] == x;
      } else {
        assert y in Elements(s);
        var j :| 0 <= j < |s| && s[j] == y;
        assert t[if j < i then j else j + 1] == y;
      }
    }
    forall a, b | 0 <= a < b < |t| ensures less(t[a], t[b]) {
      assert forall k :: 0 <= k < |s| ==> s[k] in Elements(s);
      if a == i && b > i + 1 {
        assert less(s[i], s[b - 1]);
      }
    }
  }

  /** Collects a set in any order and sorts it by insertion. */
  method Sort<T(!new, ==)>(e: set<T>, less: (T, T) -> bool) returns (s: seq<T>)
    requires Ordered(e, less)
    ensures Lists(s, e, less)
  {
    s := [];
    var rest := e;
    while rest != {}
      invariant rest <= e && Lists(s, e - rest, less)
      decreases rest
    {
      var x :| x in rest;
      var i := 0;
      while i < |s| && less(s[i], x)
        invariant 0 <= i <= |s|
        invariant forall j :: 0 <= j < i ==> less(s[j], x)
      {
        i := i + 1;
      }
      assert i < |s| ==> s[i] in Elements(s);
      OrderedSubset(e, e - rest + {x}, less);
      InsertLists(s, e - rest, less, x, i);
      assert e - (rest - {x}) == e - rest + {x};
      s := s[..i] + [x] + s[i..];
      rest := rest - {x};
    }
    assert e - {} == e;
  }

  lemma OrderedSubset<T(!new)>(e: set<T>, f: set<T>, less: (T, T) -> bool)
    requires Ordered(e, less) && f <= e
    ensures Ordered(f, less)
  {}

  lemma {:induction false} ListingExists<T(!new)>(e: set<T>, less: (T, T) -> bool) returns (s: seq<T>)
    requires Ordered(e, less)
    ensures Lists(s, e, less)
    decreases |e|
  {
    if e == {} {
      s := [];
    } else {
      var x :| x in e;
      var f := e - {x};
      OrderedSubset(e, f, less);
      var t := ListingExists(f, less);
      var i := 0;
      while i < |t| && less(t[i], x)
        invariant 0 <= i <= |t|
        invariant forall j :: 0 <= j < i ==> less(t[j], x)
      {
        i := i + 1;
      }
      assert i < |t| ==> t[i] in Elements(t);
      assert f + {x} == e;
      InsertLists(t, f, less, x, i);
      s := t[..i] + [x] + t[i..];
    }
  }

  /** The listing of e. */
  ghost function Listing<T(!new)>(e: set<T>, less: (T, T) -> bool): (s: seq<T>)
    ensures Ordered(e, less) ==> Lists(s, e, less)
  {
    if Ordered(e, less) then
      assert exists s :: Lists(s, e, less) by { var s := ListingExists(e, less); }
      var s :| Lists(s, e, less);
      s
    else []
  }

  /** Whatever a sort returns is the listing. */
  lemma IsListing<T(!new)>(s: seq<T>, e: set<T>, less: (T, T) -> bool)
    requires Ordered(e, less) && Lists(s, e, less)
    ensures s == Listing(e, less)
  {
    ListingUnique(s, Listing(e, less), e, less);
  }
}
