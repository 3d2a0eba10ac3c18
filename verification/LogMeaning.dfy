/** What a record says, word for word: the names, the values and their order. */
module LogMeaning {
  import opened Decimals
  import opened Texts
  import opened Logging

  /** The twelve events by number and name; any other number is of none. */
  lemma EventsAre(e: octet)
    ensures EventName(e) == "" <==> e < 1 || e > 12
    ensures e in EVENTS ==> EventName(e) == EVENTS[e]
  {}

  const EVENTS: map<int, string> :=
    map[1 := "protocol-agreed", 2 := "protocol-refused", 3 := "session-opened", 4 := "session-refused",
        5 := "session-closed", 6 := "client-attached", 7 := "client-detached", 8 := "channel-subscribed",
        9 := "channel-unsubscribed", 10 := "member-entered", 11 := "member-left", 12 := "presence-delivered"]

  function Signed(n: int): string { if n < 0 then "-" + Decimal(-n) else Decimal(n) }

  lemma FieldIs(x: Argument, k: key, s: string)
    requires k != NO_KEY
    ensures FieldOf(x) == Field(k, s) <==>
      match x
      case Space(id) => k == SPACE && id == s != ""
      case Channel(id) => k == CHANNEL && id == s != ""
      case Member(id) => k == MEMBER && id == s != ""
      case Client(id) => k == CLIENT && id == s != ""
      case Version(v) => k == VERSION && s == Decimal(v)
      case Count(n) => k == COUNT && s == Signed(n)
      case Held(d) => k == HELD && s == Signed(Milliseconds(d)) + "ms"
      case Zero => false
  {
    hide Milliseconds, Decimal;
  }

  lemma NamesSpelt()
    ensures KeyName(AT) == "at" && KeyName(EVENT) == "event" && KeyName(SPACE) == "space"
    ensures KeyName(CHANNEL) == "channel" && KeyName(MEMBER) == "member" && KeyName(CLIENT) == "client"
    ensures KeyName(VERSION) == "version" && KeyName(COUNT) == "count" && KeyName(HELD) == "held"
  {}

  lemma PairIn(values: Values, k: key, s: string)
    requires k != NO_KEY
    ensures (KeyName(k), s) in Pairs(values, DECLARED) <==> k in values && values[k] == s
  {
    hide KeyName, Pairs;
    DeclaredAll(k);
    if k in values { SomePair(values, DECLARED, k); }
    if (KeyName(k), s) in Pairs(values, DECLARED) {
      OnlyPairs(values, DECLARED, (KeyName(k), s));
      var j :| j in values && j in DECLARED && (KeyName(k), s) == (KeyName(j), values[j]);
      NamesDistinct(j, k);
    }
  }

  lemma FieldHeld(fs: seq<Field>, e: octet, stamp: string, k: key, s: string)
    requires Collect(fs).Given? && k !in {NO_KEY, AT, EVENT}
    ensures (KeyName(k), s) in Pairs(Stamped(Collect(fs).values, e, stamp), DECLARED) <==> Field(k, s) in fs
  {
    hide KeyName, Pairs, EventName;
    CollectMeans(fs);
    var given := Collect(fs).values;
    PairIn(Stamped(given, e, stamp), k, s);
    if k in given {
      var f :| f in fs && f.k == k;
      assert given[f.k] == f.v;
      if given[k] == s { assert f == Field(k, s); }
    }
    if Field(k, s) in fs { assert Field(k, s).k in Keys(fs); }
    hide Collect;
  }

  lemma ArgumentHeld(xs: seq<Argument>, k: key, s: string)
    ensures Field(k, s) in FieldsOf(xs) <==> exists x :: x in xs && FieldOf(x) == Field(k, s)
  {
    hide FieldOf;
    var fs := FieldsOf(xs);
    if Field(k, s) in fs {
      var i :| 0 <= i < |fs| && fs[i] == Field(k, s);
      assert xs[i] in xs;
    }
    if x :| x in xs && FieldOf(x) == Field(k, s) {
      var i :| 0 <= i < |xs| && xs[i] == x;
      assert fs[i] in fs;
    }
  }

  /** A record written. */
  ghost predicate Writes(a: Alphabet, e: octet, xs: seq<Argument>, stamp: string) {
    a.Standard() && AllConstructible(a, xs) && Clean(stamp) && RecordOf(e, FieldsOf(xs), stamp).Line?
  }

  lemma TellsArgument(a: Alphabet, e: octet, xs: seq<Argument>, stamp: string, k: key, s: string)
    requires Writes(a, e, xs, stamp) && k !in {NO_KEY, AT, EVENT}
    ensures (KeyName(k), s) in ParseLine(RecordOf(e, FieldsOf(xs), stamp).line) <==>
      exists x :: x in xs && FieldOf(x) == Field(k, s)
  {
    hide Clean, ParseLine, Pairs, LineOf, KeyName, AllConstructible, EventName, FieldOf, FieldsOf, Collect;
    RecordParsesBack(a, e, xs, stamp);
    FieldHeld(FieldsOf(xs), e, stamp, k, s);
    ArgumentHeld(xs, k, s);
  }

  /** A record tells each identifier it was given, under the name of what it identifies,
      and no other. */
  lemma RecordTellsIdentifiers(a: Alphabet, e: octet, xs: seq<Argument>, stamp: string, id: string)
    requires Writes(a, e, xs, stamp) && id != ""
    ensures var ps := ParseLine(RecordOf(e, FieldsOf(xs), stamp).line);
      (("space", id) in ps <==> Space(id) in xs)
      && (("channel", id) in ps <==> Channel(id) in xs)
      && (("member", id) in ps <==> Member(id) in xs)
      && (("client", id) in ps <==> Client(id) in xs)
  {
    TellsArgument(a, e, xs, stamp, SPACE, id);
    TellsArgument(a, e, xs, stamp, CHANNEL, id);
    TellsArgument(a, e, xs, stamp, MEMBER, id);
    TellsArgument(a, e, xs, stamp, CLIENT, id);
    NamesSpelt();
    forall x: Argument
      ensures FieldOf(x) == Field(SPACE, id) <==> x == Space(id)
      ensures FieldOf(x) == Field(CHANNEL, id) <==> x == Channel(id)
      ensures FieldOf(x) == Field(MEMBER, id) <==> x == Member(id)
      ensures FieldOf(x) == Field(CLIENT, id) <==> x == Client(id)
    {
      FieldIs(x, SPACE, id);
      FieldIs(x, CHANNEL, id);
      FieldIs(x, MEMBER, id);
      FieldIs(x, CLIENT, id);
    }
    hide *;
  }

  /** A count among the arguments, and how it is written. */
  predicate CountedAs(xs: seq<Argument>, n: int, s: string) {
    Count(n) in xs && s == if n < 0 then "-" + Decimal(-n) else Decimal(n)
  }

  /** A version and a count are told in decimal, */
  lemma RecordTellsVersions(a: Alphabet, e: octet, xs: seq<Argument>, stamp: string, s: string)
    requires Writes(a, e, xs, stamp)
    ensures ("version", s) in ParseLine(RecordOf(e, FieldsOf(xs), stamp).line) <==>
      exists v :: Version(v) in xs && s == Decimal(v)
  {
    TellsArgument(a, e, xs, stamp, VERSION, s);
    NamesSpelt();
    VersionGiven(xs, s);
    hide *;
  }

  lemma RecordTellsCounts(a: Alphabet, e: octet, xs: seq<Argument>, stamp: string, s: string)
    requires Writes(a, e, xs, stamp)
    ensures ("count", s) in ParseLine(RecordOf(e, FieldsOf(xs), stamp).line) <==>
      exists n :: CountedAs(xs, n, s)
  {
    TellsArgument(a, e, xs, stamp, COUNT, s);
    NamesSpelt();
    CountGiven(xs, s);
    hide *;
  }

  /** and a duration in whole milliseconds. */
  lemma RecordTellsDurations(a: Alphabet, e: octet, xs: seq<Argument>, stamp: string, s: string)
    requires Writes(a, e, xs, stamp)
    ensures ("held", s) in ParseLine(RecordOf(e, FieldsOf(xs), stamp).line) <==>
      exists d :: Held(d) in xs && var n := Milliseconds(d);
                  s == (if n < 0 then "-" + Decimal(-n) else Decimal(n)) + "ms"
  {
    TellsArgument(a, e, xs, stamp, HELD, s);
    NamesSpelt();
    HeldGiven(xs, s);
    hide *;
  }

  lemma VersionGiven(xs: seq<Argument>, s: string)
    ensures (exists x :: x in xs && FieldOf(x) == Field(VERSION, s)) <==>
      exists v :: Version(v) in xs && s == Decimal(v)
  {
    hide FieldOf;
    if x :| x in xs && FieldOf(x) == Field(VERSION, s) {
      FieldIs(x, VERSION, s);
      assert x == Version(x.version);
    }
    if v :| Version(v) in xs && s == Decimal(v) { FieldIs(Version(v), VERSION, s); }
  }

  lemma CountGiven(xs: seq<Argument>, s: string)
    ensures (exists x :: x in xs && FieldOf(x) == Field(COUNT, s)) <==>
      exists n :: CountedAs(xs, n, s)
  {
    hide FieldOf;
    forall x: Argument
      ensures FieldOf(x) == Field(COUNT, s) <==>
        x.Count? && s == if x.count < 0 then "-" + Decimal(-x.count) else Decimal(x.count)
    {
      FieldIs(x, COUNT, s);
    }
    if x :| x in xs && FieldOf(x) == Field(COUNT, s) {
      assert x == Count(x.count) && CountedAs(xs, x.count, s);
    }
    if n :| CountedAs(xs, n, s) {
      var x := Count(n);
      assert x in xs && FieldOf(x) == Field(COUNT, s);
    }
  }

  lemma HeldGiven(xs: seq<Argument>, s: string)
    ensures (exists x :: x in xs && FieldOf(x) == Field(HELD, s)) <==>
      exists d :: Held(d) in xs && var n := Milliseconds(d);
                  s == (if n < 0 then "-" + Decimal(-n) else Decimal(n)) + "ms"
  {
    hide FieldOf, Milliseconds;
    forall x: Argument
      ensures FieldOf(x) == Field(HELD, s) <==>
        x.Held? && var n := Milliseconds(x.duration);
        s == (if n < 0 then "-" + Decimal(-n) else Decimal(n)) + "ms"
    {
      FieldIs(x, HELD, s);
    }
    if x :| x in xs && FieldOf(x) == Field(HELD, s) { assert x == Held(x.duration); }
    if d :| (Held(d) in xs && var n := Milliseconds(d);
             s == (if n < 0 then "-" + Decimal(-n) else Decimal(n)) + "ms")
    {
      assert Held(d) in xs && FieldOf(Held(d)) == Field(HELD, s);
    }
  }

  /** A record tells its stamp and its event, once each. */
  lemma RecordTellsEvent(a: Alphabet, e: octet, xs: seq<Argument>, stamp: string, s: string)
    requires Writes(a, e, xs, stamp)
    ensures var ps := ParseLine(RecordOf(e, FieldsOf(xs), stamp).line);
      (("at", s) in ps <==> s == stamp) && e in EVENTS && (("event", s) in ps <==> s == EVENTS[e])
  {
    EventsAre(e);
    NamesSpelt();
    hide Clean, ParseLine, Pairs, LineOf, KeyName, AllConstructible, EventName, FieldsOf, Collect;
    RecordParsesBack(a, e, xs, stamp);
    var values := Stamped(Collect(FieldsOf(xs)).values, e, stamp);
    PairIn(values, AT, s);
    PairIn(values, EVENT, s);
  }

  // The text of a line.

  function Text(values: Values, keys: seq<key>): string { Join(PairTexts(Pairs(values, keys)), ' ') }

  /** One optional part of a line. */
  function Part(values: Values, k: key, name: string): string {
    if k in values then " " + name + "=" + values[k] else ""
  }

  lemma TextGrows(values: Values, keys: seq<key>, k: key)
    requires AT in values && |keys| > 0 && keys[0] == AT
    ensures Text(values, keys + [k]) == Text(values, keys) + Part(values, k, KeyName(k))
  {
    hide KeyName, Join, PairTexts;
    assert (keys + [k])[..|keys|] == keys;
    SomePair(values, keys, AT);
    if k in values {
      JoinSnoc(Pairs(values, keys), (KeyName(k), values[k]));
    }
  }

  lemma TextStarts(values: Values)
    requires AT in values
    ensures Text(values, [AT]) == "at=" + values[AT]
  {
    assert [AT][..0] == [];
    assert Pairs(values, [AT]) == [("at", values[AT])];
    assert PairText(("at", values[AT])) == "at=" + values[AT];
    assert PairTexts([("at", values[AT])]) == ["at=" + values[AT]];
  }

  /** A line, letter by letter: the stamp, the event, and what was given in one order. */
  lemma LineText(values: Values)
    requires AT in values && EVENT in values
    ensures LineOf(values) ==
      "at=" + values[AT] + (" event=" + values[EVENT])
      + Part(values, SPACE, "space") + Part(values, CHANNEL, "channel") + Part(values, MEMBER, "member")
      + Part(values, CLIENT, "client") + Part(values, VERSION, "version") + Part(values, COUNT, "count")
      + Part(values, HELD, "held") + "\n"
  {
    TextStarts(values);
    TextGrows(values, [AT], EVENT);
    TextGrows(values, [AT] + [EVENT], SPACE);
    TextGrows(values, [AT] + [EVENT] + [SPACE], CHANNEL);
    TextGrows(values, [AT] + [EVENT] + [SPACE] + [CHANNEL], MEMBER);
    TextGrows(values, [AT] + [EVENT] + [SPACE] + [CHANNEL] + [MEMBER], CLIENT);
    TextGrows(values, [AT] + [EVENT] + [SPACE] + [CHANNEL] + [MEMBER] + [CLIENT], VERSION);
    TextGrows(values, [AT] + [EVENT] + [SPACE] + [CHANNEL] + [MEMBER] + [CLIENT] + [VERSION], COUNT);
    TextGrows(values, [AT] + [EVENT] + [SPACE] + [CHANNEL] + [MEMBER] + [CLIENT] + [VERSION] + [COUNT], HELD);
    NamesSpelt();
    assert Part(values, EVENT, "event") == " event=" + values[EVENT];
    assert LineOf(values) == Text(values, DECLARED) + "\n";
    hide *;
    Listed();
  }

  lemma Listed()
    ensures DECLARED == [AT] + [EVENT] + [SPACE] + [CHANNEL] + [MEMBER] + [CLIENT] + [VERSION] + [COUNT] + [HELD]
  {}

  /** How a line is read: up to its end, part by part, each cut at its first equals sign. */
  lemma ReadsParts(name: string, value: string, more: string)
    requires ' ' !in name && '=' !in name && ' ' !in value
    ensures ParseLine(name + "=" + value + "\n") == [(name, value)]
    ensures ParseLine(name + "=" + value + " " + more + "\n") == [(name, value)] + ParseLine(more + "\n")
  {
    var p := (name, value);
    var s := PairText(p);
    assert s == name + "=" + value && ' ' !in s;
    PairParses(p);
    SplitNone(s, ' ');
    SplitAt(s, ' ', more);
    WithoutEnd(s);
    WithoutEnd(more);
    WithoutEnd(s + " " + more);
    PartsOf(s, []);
    PartsOf(s, Split(more, ' '));
    hide *;
    assert [s] + [] == [s] && [p] + [] == [p];
  }

  lemma WithoutEnd(s: string)
    ensures ParseLine(s + "\n") == ParsePairs(Split(s, ' '))
  {
    hide Split, ParsePairs;
    assert (s + "\n")[..|s + "\n"| - 1] == s;
  }

  lemma PartsOf(t: string, ts: seq<string>)
    ensures ParsePairs([]) == [] && ParsePairs([t] + ts) == [ParsePair(t)] + ParsePairs(ts)
  {
    hide ParsePair;
  }

  /** Half a millisecond goes away from zero, and past the last half one that a duration
      can hold the answer stays at the ends of the range. */
  lemma MillisecondsMeans(d: int)
    requires -9_223_372_036_854_775_808 <= d <= 9_223_372_036_854_775_807
    ensures var m := Milliseconds(d);
      (0 <= d < 9_223_372_036_854_500_000 ==> 1_000_000 * m - 500_000 <= d < 1_000_000 * m + 500_000)
      && (-9_223_372_036_854_500_000 < d < 0 ==> 1_000_000 * m - 500_000 < d <= 1_000_000 * m + 500_000)
      && (d >= 9_223_372_036_854_500_000 ==> m == 9_223_372_036_854)
      && (d <= -9_223_372_036_854_500_000 ==> m == -9_223_372_036_854)
  {
    var q, r := Magnitude(d) / MILLISECOND, Magnitude(d) % MILLISECOND;
    var n := if r + r < MILLISECOND then q else q + 1;
    assert n * MILLISECOND / MILLISECOND == n;
    if Magnitude(d) >= LAST_HALF {
      assert q == 9_223_372_036_854;
      assert Milliseconds(d) == if d < 0 then -q else q;
    } else {
      assert Milliseconds(d) == if d < 0 then -n else n;
    }
  }

  /** The length of text is the sum of its characters' own, of one to four bytes. */
  lemma {:induction false} LengthMeans(s: string, t: string, c: char)
    ensures Utf8Length("") == 0 && Utf8Length(s + t) == Utf8Length(s) + Utf8Length(t)
    ensures var n := c as int;
      Utf8Length([c]) == if n <= 127 then 1 else if n <= 2047 then 2 else if n <= 65535 then 3 else 4
    decreases |s|
  {
    if |s| == 0 {
      assert s + t == t;
    } else {
      assert (s + t)[1..] == s[1..] + t;
      LengthMeans(s[1..], t, c);
    }
  }

  // What is refused.

  /** An argument that gives no field: the zero value, or an identifier's. */
  predicate Nothing(x: Argument) { x.Zero? || ((x.Space? || x.Channel? || x.Member? || x.Client?) && x.id == "") }

  /** Two arguments of one name. */
  predicate Alike(x: Argument, y: Argument) {
    (x.Space? && y.Space?) || (x.Channel? && y.Channel?) || (x.Member? && y.Member?) || (x.Client? && y.Client?)
    || (x.Version? && y.Version?) || (x.Count? && y.Count?) || (x.Held? && y.Held?)
  }

  /** The argument at i gives nothing, or what one before it gave. */
  predicate Amiss(xs: seq<Argument>, i: nat)
    requires i < |xs|
  {
    Nothing(xs[i]) || exists j :: 0 <= j < i && Alike(xs[j], xs[i])
  }

  predicate FirstAmiss(xs: seq<Argument>, i: int) {
    0 <= i < |xs| && Amiss(xs, i) && forall j :: 0 <= j < i ==> !Amiss(xs, j)
  }

  /** A record is refused for its event first, and else for the first argument amiss. */
  lemma RefusedFor(e: octet, xs: seq<Argument>, stamp: string)
    ensures var r := RecordOf(e, FieldsOf(xs), stamp);
      (r == Refused(UnknownEvent) <==> e < 1 || e > 12)
      && (r.Line? <==> 1 <= e <= 12 && forall i :: 0 <= i < |xs| ==> !Amiss(xs, i))
      && (r == Refused(Nameless) <==> 1 <= e <= 12 && exists i :: FirstAmiss(xs, i) && Nothing(xs[i]))
      && (r == Refused(Twice) <==> 1 <= e <= 12 && exists i :: FirstAmiss(xs, i) && !Nothing(xs[i]))
  {
    EventsAre(e);
    CollectRefuses(xs);
    RecordBranches(e, FieldsOf(xs), stamp);
    hide *;
  }

  lemma RecordBranches(e: octet, fs: seq<Field>, stamp: string)
    ensures EventName(e) == "" ==> RecordOf(e, fs, stamp) == Refused(UnknownEvent)
    ensures EventName(e) != "" ==>
      var r, c := RecordOf(e, fs, stamp), Collect(fs);
      (c.Given? ==> r.Line?) && (c.Unfit? ==> r == Refused(c.refusal))
  {
    hide EventName, Collect, LineOf;
  }

  lemma {:induction false} CollectRefuses(xs: seq<Argument>)
    ensures var c := Collect(FieldsOf(xs));
      (c.Given? <==> forall i :: 0 <= i < |xs| ==> !Amiss(xs, i))
      && (c == Unfit(Nameless) <==> exists i :: FirstAmiss(xs, i) && Nothing(xs[i]))
      && (c == Unfit(Twice) <==> exists i :: FirstAmiss(xs, i) && !Nothing(xs[i]))
      && c != Unfit(UnknownEvent)
    decreases |xs|
  {
    hide Nothing, FieldOf, Amiss, Alike;
    if |xs| > 0 {
      var n := |xs| - 1;
      var init := xs[..n];
      CollectRefuses(init);
      assert FieldsOf(xs)[..n] == FieldsOf(init);
      forall i | 0 <= i < n ensures Amiss(xs, i) == Amiss(init, i) { SameAmiss(xs, i); }
      assert forall i :: 0 <= i < n ==> FirstAmiss(xs, i) == FirstAmiss(init, i);
      LastAmiss(xs);
      if Collect(FieldsOf(init)).Given? {
        if Amiss(xs, n) { assert FirstAmiss(xs, n); }
      } else {
        match Collect(FieldsOf(init)).refusal
        case UnknownEvent => assert false;
        case Nameless =>
          var i :| FirstAmiss(init, i) && Nothing(init[i]);
          assert FirstAmiss(xs, i);
        case Twice =>
          var i :| FirstAmiss(init, i) && !Nothing(init[i]);
          assert FirstAmiss(xs, i);
      }
    }
  }

  lemma SameAmiss(xs: seq<Argument>, i: nat)
    requires i < |xs| - 1
    ensures Amiss(xs, i) == Amiss(xs[..|xs| - 1], i)
  {
    hide Nothing, Alike;
  }

  lemma NothingNameless(x: Argument)
    ensures FieldOf(x).k == NO_KEY <==> Nothing(x)
  {
    hide Milliseconds, Decimal;
  }

  lemma AlikeNamed(x: Argument, y: Argument)
    requires !Nothing(x) && !Nothing(y)
    ensures FieldOf(x).k == FieldOf(y).k <==> Alike(x, y)
  {
    hide Milliseconds, Decimal;
  }

  lemma LastAmiss(xs: seq<Argument>)
    requires |xs| > 0
    ensures var init, f := Collect(FieldsOf(xs[..|xs| - 1])), FieldOf(xs[|xs| - 1]);
      (f.k == NO_KEY <==> Nothing(xs[|xs| - 1]))
      && (init.Given? && f.k != NO_KEY ==> (f.k in init.values <==> Amiss(xs, |xs| - 1)))
      && (Nothing(xs[|xs| - 1]) ==> Amiss(xs, |xs| - 1))
  {
    hide Collect, FieldOf, Nothing, Alike;
    var n := |xs| - 1;
    var fs, f := FieldsOf(xs[..n]), FieldOf(xs[n]);
    CollectMeans(fs);
    NothingNameless(xs[n]);
    if Collect(fs).Given? && f.k != NO_KEY {
      forall i | 0 <= i < n ensures fs[i].k == f.k <==> Alike(xs[i], xs[n]) {
        assert fs[i] == FieldOf(xs[i]) && fs[i] in fs && fs[i].k in Keys(fs);
        NothingNameless(xs[i]);
        AlikeNamed(xs[i], xs[n]);
      }
      if f.k in Collect(fs).values {
        var g :| g in fs && g.k == f.k;
        var i :| 0 <= i < n && fs[i] == g;
        assert Alike(xs[i], xs[n]);
      }
      if j :| 0 <= j < n && Alike(xs[j], xs[n]) {
        assert fs[j] in fs && fs[j].k in Keys(fs);
      }
    }
  }
}
