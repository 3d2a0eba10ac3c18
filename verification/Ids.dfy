/** Identifiers, local@host, and the order their strings give. */
module Ids {
  import opened Listings
  import opened Texts

  datatype RawName = RawName(local: string, host: string)

  /** What a part of an identifier may hold. */
  predicate ValidPart(s: string) {
    |s| > 0 && forall c :: c in s ==> c != '@' && c > ' ' && c != '\U{7f}'
  }

  predicate ValidName(n: RawName) { ValidPart(n.local) && ValidPart(n.host) }

  type Name = n: RawName | ValidName(n) witness RawName("a", "b")

  /** An identifier is the zero value or has been through the constructor's checks. */
  datatype ID = NoID | Named(name: Name)

  datatype Parsed = Good(id: ID) | Bad

  function NewID(local: string, host: string): Parsed {
    if ValidPart(local) && ValidPart(host) then Good(Named(RawName(local, host))) else Bad
  }

  function String(id: ID): string {
    match id
    case NoID => ""
    case Named(n) => n.local + "@" + n.host
  }

  function ParseID(s: string): Parsed {
    var i := Index(s, '@');
    if i == |s| then Bad else NewID(s[..i], s[i + 1..])
  }

  /** A part may not be empty, nor hold the separator, a space, a control character or
      the delete character, and nothing else is refused. */
  lemma NewIDMeans(local: string, host: string)
    ensures NewID(local, host).Good? <==>
      |local| > 0 && |host| > 0
      && forall c :: c in local || c in host ==> c != '@' && c as int > 0x20 && c as int != 0x7f
    ensures NewID(local, host).Good? ==>
      var id := NewID(local, host).id; id != NoID && id.name.local == local && id.name.host == host
  {}

  /** Exactly the texts local@host of two such parts are parsed. */
  lemma ParseIDMeans(s: string)
    ensures ParseID(s).Good? <==> exists local, host :: NewID(local, host).Good? && s == local + "@" + host
  {
    var i := Index(s, '@');
    if ParseID(s).Good? { assert s == s[..i] + "@" + s[i + 1..]; }
    forall local, host | NewID(local, host).Good? && s == local + "@" + host
      ensures i == |local| && s[..i] == local && s[i + 1..] == host
    {
      IndexAt(local, '@', host);
    }
  }

  /** Parsing what was formatted gives the identifier back. */
  lemma ParseFormats(id: ID)
    requires id != NoID
    ensures ParseID(String(id)) == Good(id)
  {
    var s, n := String(id), id.name;
    IndexAt(n.local, '@', n.host);
    assert s[..|n.local|] == n.local && s[|n.local| + 1..] == n.host;
  }

  /** Formatting what was parsed gives the text back. */
  lemma FormatParses(s: string)
    requires ParseID(s).Good?
    ensures ParseID(s).id != NoID && String(ParseID(s).id) == s
  {
    var i := Index(s, '@');
    assert s == s[..i] + "@" + s[i + 1..];
  }

  /** Two identifiers written alike are one. */
  lemma StringInjective(a: ID, b: ID)
    requires String(a) == String(b)
    ensures a == b
  {
    if a != NoID && b != NoID {
      ParseFormats(a);
      ParseFormats(b);
    }
  }

  /** Go's `<` on strings. */
  predicate Before(a: string, b: string) {
    |b| > 0 && (|a| == 0 || a[0] < b[0] || (a[0] == b[0] && Before(a[1..], b[1..])))
  }

  /** The first difference decides, and a beginning comes before what it begins. */
  lemma {:induction false} BeforeMeans(a: string, b: string)
    ensures Before(a, b) <==>
      exists k: nat :: k <= |a| && k < |b| && a[..k] == b[..k] && (k == |a| || a[k] as int < b[k] as int)
  {
    if |b| > 0 && |a| > 0 && a[0] == b[0] {
      var s, t := a[1..], b[1..];
      BeforeMeans(s, t);
      if Before(s, t) {
        var k: nat :| k <= |s| && k < |t| && s[..k] == t[..k] && (k == |s| || s[k] as int < t[k] as int);
        assert a[..k + 1] == [a[0]] + s[..k] && b[..k + 1] == [b[0]] + t[..k];
        assert a[..k + 1] == b[..k + 1];
      }
      if k: nat :| k <= |a| && k < |b| && a[..k] == b[..k] && (k == |a| || a[k] as int < b[k] as int) {
        assert k > 0;
        assert s[..k - 1] == a[..k][1..] && t[..k - 1] == b[..k][1..];
      }
    } else if Before(a, b) {
      assert a[..0] == b[..0];
    } else if k: nat :| k <= |a| && k < |b| && a[..k] == b[..k] && (k == |a| || a[k] as int < b[k] as int) {
      if k > 0 { assert a[..k][0] == b[..k][0]; }
    }
  }

  lemma {:induction false} BeforeIrreflexive(a: string)
    ensures !Before(a, a)
  {
    if |a| > 0 { BeforeIrreflexive(a[1..]); }
  }

  lemma {:induction false} BeforeTotal(a: string, b: string)
    requires a != b
    ensures Before(a, b) || Before(b, a)
  {
    if |a| > 0 && |b| > 0 && a[0] == b[0] {
      assert a == [a[0]] + a[1..] && b == [b[0]] + b[1..];
      BeforeTotal(a[1..], b[1..]);
    }
  }

  lemma {:induction false} BeforeTransitive(a: string, b: string, c: string)
    requires Before(a, b) && Before(b, c)
    ensures Before(a, c)
  {
    if |a| > 0 && a[0] == b[0] == c[0] {
      BeforeTransitive(a[1..], b[1..], c[1..]);
    }
  }

  predicate IdBefore(a: ID, b: ID) { Before(String(a), String(b)) }

  /** The order of identifiers. */
  lemma IdsOrdered(e: set<ID>)
    ensures Ordered(e, IdBefore)
  {
    forall a, b | a in e && b in e && a != b ensures IdBefore(a, b) || IdBefore(b, a) {
      if String(a) == String(b) { StringInjective(a, b); }
      BeforeTotal(String(a), String(b));
    }
    forall a | a in e ensures !IdBefore(a, a) { BeforeIrreflexive(String(a)); }
    forall a, b, c | a in e && b in e && c in e && IdBefore(a, b) && IdBefore(b, c) ensures IdBefore(a, c) {
      BeforeTransitive(String(a), String(b), String(c));
    }
  }
}
