/** Log records: what may be a field, the line a record is, and reading it back. */
module Logging {
  import opened Decimals
  import opened Texts

  /** What the runtime says of a character; only two of its answers matter here. */
  datatype Alphabet = Alphabet(isSpace: char -> bool, isPrint: char -> bool) {
    predicate Accepts(c: char) { !isSpace(c) && isPrint(c) }

    predicate Standard() { isSpace(' ') && isSpace('\n') }
  }

  const MAX_IDENTIFIER_LENGTH := 128

  /** The length of text in bytes. */
  function Utf8Length(s: string): nat {
    if |s| == 0 then 0
    else (if s[0] as int < 0x80 then 1 else if s[0] as int < 0x800 then 2 else if s[0] as int < 0x1_0000 then 3 else 4)
         + Utf8Length(s[1..])
  }

  predicate ValidPart(a: Alphabet, s: string) { |s| > 0 && '@' !in s && forall c :: c in s ==> a.Accepts(c) }

  datatype Identified = Identifier(text: string) | NotAnIdentifier

  function NewIdentifier(a: Alphabet, s: string): Identified {
    var i := Index(s, '@');
    if Utf8Length(s) > MAX_IDENTIFIER_LENGTH || i == |s| then NotAnIdentifier
    else if !ValidPart(a, s[..i]) || !ValidPart(a, s[i + 1..]) then NotAnIdentifier
    else Identifier(s)
  }

  /** Exactly the texts local@host of two valid parts within the bound are admitted. */
  lemma IdentifierGrammar(a: Alphabet, s: string)
    ensures NewIdentifier(a, s) == Identifier(s) <==>
      Utf8Length(s) <= 128
      && exists local, host ::
           s == local + "@" + host && |local| > 0 && |host| > 0 && '@' !in local && '@' !in host
           && forall c :: c in local || c in host ==> !a.isSpace(c) && a.isPrint(c)
    ensures NewIdentifier(a, s) != Identifier(s) ==> NewIdentifier(a, s) == NotAnIdentifier
  {
    hide Utf8Length;
    var i := Index(s, '@');
    if NewIdentifier(a, s).Identifier? {
      assert s == s[..i] + "@" + s[i + 1..];
    }
    forall local, host | '@' !in local && s == local + "@" + host
      ensures i == |local| && s[..i] == local && s[i + 1..] == host
    {
      IndexAt(local, '@', host);
    }
  }

  // Events and fields.

  type octet = k: int | 0 <= k < 256

  /** The name of an event, empty for one this build does not define. */
  function EventName(e: octet): string {
    if e == 1 then "protocol-agreed"
    else if e == 2 then "protocol-refused"
    else if e == 3 then "session-opened"
    else if e == 4 then "session-refused"
    else if e == 5 then "session-closed"
    else if e == 6 then "client-attached"
    else if e == 7 then "client-detached"
    else if e == 8 then "channel-subscribed"
    else if e == 9 then "channel-unsubscribed"
    else if e == 10 then "member-entered"
    else if e == 11 then "member-left"
    else if e == 12 then "presence-delivered"
    else ""
  }

  type key = k: int | 0 <= k <= 9

  const NO_KEY: key := 0
  const AT: key := 1
  const EVENT: key := 2
  const SPACE: key := 3
  const CHANNEL: key := 4
  const MEMBER: key := 5
  const CLIENT: key := 6
  const VERSION: key := 7
  const COUNT: key := 8
  const HELD: key := 9

  function KeyName(k: key): string {
    if k == AT then "at"
    else if k == EVENT then "event"
    else if k == SPACE then "space"
    else if k == CHANNEL then "channel"
    else if k == MEMBER then "member"
    else if k == CLIENT then "client"
    else if k == VERSION then "version"
    else if k == COUNT then "count"
    else if k == HELD then "held"
    else ""
  }

  /** The order of a line. */
  const DECLARED: seq<key> := [AT, EVENT, SPACE, CHANNEL, MEMBER, CLIENT, VERSION, COUNT, HELD]

  datatype Field = Field(k: key, v: string)

  const ZERO_FIELD := Field(NO_KEY, "")

  /** What a caller can hand to a record: one of the constructors' results, or zero. */
  datatype Argument = Space(id: string) | Channel(id: string) | Member(id: string) | Client(id: string)
                    | Version(version: nat) | Count(count: int) | Held(duration: int) | Zero

  const MIN_DURATION := -0x8000_0000_0000_0000
  const MAX_DURATION := 0x7fff_ffff_ffff_ffff
  const MILLISECOND := 1_000_000

  predicate Constructible(a: Alphabet, x: Argument) {
    match x
    case Version(v) => v < 0x1_0000
    case Count(_) => true
    case Held(d) => MIN_DURATION <= d <= MAX_DURATION
    case Zero => true
    case _ => x.id == "" || NewIdentifier(a, x.id).Identifier?
  }

  function Integer(n: int): string { if n < 0 then "-" + Decimal(-n) else Decimal(n) }

  function Magnitude(d: int): nat { if d < 0 then -d else d }

  /** A duration in whole milliseconds: rounded half away from zero, held to the ends of
      the range, cut toward zero. */
  function Milliseconds(d: int): int {
    var r := Magnitude(d) % MILLISECOND;
    var up := r + r >= MILLISECOND;
    var rounded :=
      if d < 0 && !up then d + r
      else if d < 0 then (if d - MILLISECOND + r < MIN_DURATION then MIN_DURATION else d - MILLISECOND + r)
      else if !up then d - r
      else if d + MILLISECOND - r > MAX_DURATION then MAX_DURATION
      else d + MILLISECOND - r;
    if rounded < 0 then -(-rounded / MILLISECOND) else rounded / MILLISECOND
  }

  /** The last half millisecond a duration can hold. */
  const LAST_HALF := 9_223_372_036_854_500_000

  /** The nearest millisecond, exactly where that is a duration at all. */
  lemma MillisecondsNearest(d: int)
    requires MIN_DURATION <= d <= MAX_DURATION
    ensures 2 * Magnitude(Milliseconds(d) * MILLISECOND - d) <= MILLISECOND <==> Magnitude(d) <= LAST_HALF
  {
    var q, r := Magnitude(d) / MILLISECOND, Magnitude(d) % MILLISECOND;
    var n := if r + r < MILLISECOND then q else q + 1;
    assert n * MILLISECOND / MILLISECOND == n;
    if r + r >= MILLISECOND && Magnitude(d) >= LAST_HALF {
      assert q == 9_223_372_036_854;
      assert Milliseconds(d) == if d < 0 then -q else q;
    } else {
      assert Milliseconds(d) == if d < 0 then -n else n;
    }
  }

  function FieldOf(x: Argument): Field {
    match x
    case Space(id) => if id == "" then ZERO_FIELD else Field(SPACE, id)
    case Channel(id) => if id == "" then ZERO_FIELD else Field(CHANNEL, id)
    case Member(id) => if id == "" then ZERO_FIELD else Field(MEMBER, id)
    case Client(id) => if id == "" then ZERO_FIELD else Field(CLIENT, id)
    case Version(v) => Field(VERSION, Decimal(v))
    case Count(n) => Field(COUNT, Integer(n))
    case Held(d) => Field(HELD, Integer(Milliseconds(d)) + "ms")
    case Zero => ZERO_FIELD
  }

  function FieldsOf(xs: seq<Argument>): (fs: seq<Field>)
    ensures |fs| == |xs| && forall i :: 0 <= i < |xs| ==> fs[i] == FieldOf(xs[i])
  {
    seq(|xs|, i requires 0 <= i < |xs| => FieldOf(xs[i]))
  }

  // Records.

  type Values = map<key, string>

  datatype Refusal = UnknownEvent | Nameless | Twice

  datatype Collected = Given(values: Values) | Unfit(refusal: Refusal)

  function Collect(fs: seq<Field>): Collected {
    if |fs| == 0 then Given(map[])
    else
      var init, f := Collect(fs[..|fs| - 1]), fs[|fs| - 1];
      if init.Unfit? then init
      else if f.k == NO_KEY then Unfit(Nameless)
      else if f.k in init.values then Unfit(Twice)
      else Given(init.values[f.k := f.v])
  }

  type Pair = (string, string)

  /** The values under the keys, in the keys' order. */
  function Pairs(values: Values, keys: seq<key>): seq<Pair> {
    if |keys| == 0 then []
    else
      var init, k := Pairs(values, keys[..|keys| - 1]), keys[|keys| - 1];
      if k in values then init + [(KeyName(k), values[k])] else init
  }

  function PairText(p: Pair): string { p.0 + "=" + p.1 }

  function PairTexts(ps: seq<Pair>): (ts: seq<string>)
    ensures |ts| == |ps| && forall i :: 0 <= i < |ps| ==> ts[i] == PairText(ps[i])
  {
    seq(|ps|, i requires 0 <= i < |ps| => PairText(ps[i]))
  }

  function LineOf(values: Values): string { Join(PairTexts(Pairs(values, DECLARED)), ' ') + "\n" }

  datatype Recorded = Line(line: string) | Refused(refusal: Refusal)

  function Stamped(values: Values, e: octet, stamp: string): Values { values[AT := stamp][EVENT := EventName(e)] }

  function RecordOf(e: octet, fs: seq<Field>, stamp: string): Recorded {
    if EventName(e) == "" then Refused(UnknownEvent)
    else
      var c := Collect(fs);
      if c.Unfit? then Refused(c.refusal) else Line(LineOf(Stamped(c.values, e, stamp)))
  }

  // Reading back.

  function ParsePair(s: string): Pair {
    var i := Index(s, '=');
    if i == |s| then (s, "") else (s[..i], s[i + 1..])
  }

  function ParsePairs(ts: seq<string>): (ps: seq<Pair>)
    ensures |ps| == |ts| && forall i :: 0 <= i < |ts| ==> ps[i] == ParsePair(ts[i])
  {
    seq(|ts|, i requires 0 <= i < |ts| => ParsePair(ts[i]))
  }

  function ParseLine(line: string): seq<Pair>
    requires |line| > 0
  {
    ParsePairs(Split(line[..|line| - 1], ' '))
  }

  predicate Clean(s: string) { ' ' !in s && '\n' !in s }

  predicate Plain(s: string) { Clean(s) && '=' !in s }

  lemma NamesPlain(k: key)
    ensures Plain(KeyName(k))
  {}

  lemma PairParses(p: Pair)
    requires '=' !in p.0
    ensures ParsePair(PairText(p)) == p
  {
    IndexAt(p.0, '=', p.1);
    var s := PairText(p);
    assert s[..|p.0|] == p.0 && s[|p.0| + 1..] == p.1;
  }

  lemma {:induction false} PairsClean(values: Values, keys: seq<key>)
    requires forall k :: k in values ==> Clean(values[k])
    ensures forall p :: p in Pairs(values, keys) ==> Plain(p.0) && Clean(p.1)
    decreases |keys|
  {
    hide Clean, Plain, KeyName;
    if |keys| > 0 {
      PairsClean(values, keys[..|keys| - 1]);
      NamesPlain(keys[|keys| - 1]);
    }
  }

  lemma {:induction false} SomePair(values: Values, keys: seq<key>, k: key)
    requires k in values && k in keys
    ensures (KeyName(k), values[k]) in Pairs(values, keys)
    decreases |keys|
  {
    hide KeyName;
    if keys[|keys| - 1] != k { SomePair(values, keys[..|keys| - 1], k); }
  }

  lemma {:induction false} OnlyPairs(values: Values, keys: seq<key>, p: Pair)
    requires p in Pairs(values, keys)
    ensures exists k :: k in values && k in keys && p == (KeyName(k), values[k])
    decreases |keys|
  {
    hide KeyName;
    var init, k := keys[..|keys| - 1], keys[|keys| - 1];
    if !(k in values && p == (KeyName(k), values[k])) { OnlyPairs(values, init, p); }
  }

  lemma PairTextClean(p: Pair)
    requires Plain(p.0) && Clean(p.1)
    ensures Clean(PairText(p))
  {}

  lemma {:induction false} JoinClean(ts: seq<string>)
    requires forall t :: t in ts ==> '\n' !in t
    ensures '\n' !in Join(ts, ' ')
    decreases |ts|
  {
    if |ts| > 1 {
      assert ts[|ts| - 1] in ts && forall t :: t in ts[..|ts| - 1] ==> t in ts;
      JoinClean(ts[..|ts| - 1]);
    } else if |ts| == 1 {
      assert ts[0] in ts;
    }
  }

  /** A line is one line, and splitting it on spaces and cutting each part at its first
      equals sign gives exactly the values it was made of, in the declared order. */
  lemma LineParsesBack(values: Values)
    requires forall k :: k in values ==> Clean(values[k])
    requires AT in values
    ensures ParseLine(LineOf(values)) == Pairs(values, DECLARED)
    ensures var l := LineOf(values); |l| > 0 && l[|l| - 1] == '\n' && '\n' !in l[..|l| - 1]
  {
    hide Clean, Plain, Pairs, Join, Split, KeyName, ParsePair, PairText;
    var ps, line := Pairs(values, DECLARED), LineOf(values);
    var ts := PairTexts(ps);
    PairsClean(values, DECLARED);
    assert AT == DECLARED[0];
    SomePair(values, DECLARED, AT);
    TextsClean(ps);
    assert line[..|line| - 1] == Join(ts, ' ');
    JoinClean(ts);
    SplitJoins(ts, ' ');
    assert ParsePairs(ts) == ps;
  }

  lemma TextsClean(ps: seq<Pair>)
    requires forall p :: p in ps ==> Plain(p.0) && Clean(p.1)
    ensures forall t :: t in PairTexts(ps) ==> ' ' !in t && '\n' !in t
    ensures forall i :: 0 <= i < |ps| ==> ParsePair(PairTexts(ps)[i]) == ps[i]
  {
    hide Join, Split, KeyName, ParsePair, PairText;
    forall i | 0 <= i < |ps| ensures Clean(PairTexts(ps)[i]) && ParsePair(PairTexts(ps)[i]) == ps[i] {
      assert ps[i] in ps;
      PairTextClean(ps[i]);
      PairParses(ps[i]);
    }
  }

  predicate Declares(values: Values) { forall k :: k in values ==> k != NO_KEY }

  lemma DeclaredAll(k: key)
    ensures k in DECLARED <==> k != NO_KEY
  {
    assert DECLARED[0] == AT && DECLARED[1] == EVENT && DECLARED[2] == SPACE && DECLARED[3] == CHANNEL
      && DECLARED[4] == MEMBER && DECLARED[5] == CLIENT && DECLARED[6] == VERSION
      && DECLARED[7] == COUNT && DECLARED[8] == HELD;
  }

  lemma NamesDistinct(j: key, k: key)
    requires KeyName(j) == KeyName(k)
    ensures j == k
  {
    assert |KeyName(j)| == |KeyName(k)|;
    if |KeyName(j)| > 0 { assert KeyName(j)[0] == KeyName(k)[0]; }
    if |KeyName(j)| > 1 { assert KeyName(j)[1] == KeyName(k)[1]; }
  }

  /** The pairs of a line determine the values. */
  lemma PairsDetermine(v: Values, w: Values)
    requires Declares(v) && Declares(w) && Pairs(v, DECLARED) == Pairs(w, DECLARED)
    ensures v == w
  {
    PairsWithin(v, w);
    PairsWithin(w, v);
  }

  lemma PairsWithin(v: Values, w: Values)
    requires Declares(v) && Pairs(v, DECLARED) == Pairs(w, DECLARED)
    ensures forall k :: k in v ==> k in w && v[k] == w[k]
  {
    hide KeyName, Pairs;
    forall k | k in v ensures k in w && v[k] == w[k] {
      DeclaredAll(k);
      SomePair(v, DECLARED, k);
      OnlyPairs(w, DECLARED, (KeyName(k), v[k]));
      var j :| j in w && j in DECLARED && (KeyName(k), v[k]) == (KeyName(j), w[j]);
      NamesDistinct(j, k);
    }
  }

  // Any arguments.

  function Keys(fs: seq<Field>): set<key> { set f | f in fs :: f.k }

  /** A record is refused exactly where a field has no name or a name comes twice, and
      otherwise holds each field once. */
  lemma {:induction false} CollectMeans(fs: seq<Field>)
    ensures Collect(fs).Given? <==> NO_KEY !in Keys(fs) && |Keys(fs)| == |fs|
    ensures |Keys(fs)| <= |fs|
    ensures Collect(fs).Given? ==>
      Collect(fs).values.Keys == Keys(fs) && forall f :: f in fs ==> Collect(fs).values[f.k] == f.v
    decreases |fs|
  {
    if |fs| > 0 {
      var init, f := fs[..|fs| - 1], fs[|fs| - 1];
      CollectMeans(init);
      assert fs == init + [f];
      assert Keys(fs) == Keys(init) + {f.k};
    }
  }

  /** The order of the arguments changes neither whether a record is written nor its
      line. */
  lemma OrderIndependent(e: octet, fs: seq<Field>, gs: seq<Field>, stamp: string)
    requires multiset(fs) == multiset(gs)
    ensures RecordOf(e, fs, stamp).Line? <==> RecordOf(e, gs, stamp).Line?
    ensures RecordOf(e, fs, stamp).Line? ==> RecordOf(e, fs, stamp) == RecordOf(e, gs, stamp)
  {
    hide LineOf, Collect, EventName;
    CollectMeans(fs);
    CollectMeans(gs);
    assert |multiset(fs)| == |fs| && |multiset(gs)| == |gs|;
    assert forall f :: f in fs <==> f in multiset(fs);
    assert forall f :: f in gs <==> f in multiset(gs);
    assert Keys(fs) == Keys(gs);
    if Collect(fs).Given? {
      var v, w := Collect(fs).values, Collect(gs).values;
      forall k | k in v ensures v[k] == w[k] {
        var f :| f in fs && f.k == k;
        assert v[f.k] == f.v == w[f.k];
      }
      assert v == w;
    }
  }

  lemma DecimalClean(n: nat)
    ensures Clean(Decimal(n)) && '-' !in Decimal(n) && 'm' !in Decimal(n)
  {
    assert !IsDigit(' ') && !IsDigit('\n') && !IsDigit('-') && !IsDigit('m');
  }

  lemma IntegerClean(n: int)
    ensures Clean(Integer(n)) && Clean(Integer(n) + "ms")
  {
    DecimalClean(Magnitude(n));
  }

  lemma IdentifierClean(a: Alphabet, s: string)
    requires a.Standard() && NewIdentifier(a, s).Identifier?
    ensures Clean(s)
  {
    hide Utf8Length;
    var i := Index(s, '@');
    assert s == s[..i] + "@" + s[i + 1..];
    assert !a.Accepts(' ') && !a.Accepts('\n');
  }

  /** No constructor's value holds a space or a line's end. */
  lemma FieldClean(a: Alphabet, x: Argument)
    requires a.Standard() && Constructible(a, x)
    ensures Clean(FieldOf(x).v) && FieldOf(x).k !in {AT, EVENT}
  {
    hide NewIdentifier, Milliseconds;
    match x
    case Version(v) => DecimalClean(v);
    case Count(n) => IntegerClean(n);
    case Held(d) => IntegerClean(Milliseconds(d));
    case Zero =>
    case _ => if x.id != "" { IdentifierClean(a, x.id); }
  }

  lemma EventNameClean(e: octet)
    ensures Clean(EventName(e))
  {
    hide EventName, Clean;
    if e <= 3 {
      FirstNamesClean(e);
    } else if e <= 6 {
      SecondNamesClean(e);
    } else if e <= 9 {
      ThirdNamesClean(e);
    } else {
      LastNamesClean(e);
    }
  }

  lemma FirstNamesClean(e: octet)
    requires e <= 3
    ensures Clean(EventName(e))
  {}

  lemma SecondNamesClean(e: octet)
    requires 3 < e <= 6
    ensures Clean(EventName(e))
  {}

  lemma ThirdNamesClean(e: octet)
    requires 6 < e <= 9
    ensures Clean(EventName(e))
  {}

  lemma LastNamesClean(e: octet)
    requires 9 < e
    ensures Clean(EventName(e))
  {}

  ghost predicate AllConstructible(a: Alphabet, xs: seq<Argument>) { forall x :: x in xs ==> Constructible(a, x) }

  lemma CollectedClean(a: Alphabet, xs: seq<Argument>)
    requires a.Standard() && AllConstructible(a, xs) && Collect(FieldsOf(xs)).Given?
    ensures var v := Collect(FieldsOf(xs)).values;
      forall k :: k in v ==> Clean(v[k]) && k !in {NO_KEY, AT, EVENT}
  {
    hide Clean, Collect, FieldOf, Constructible;
    var fs := FieldsOf(xs);
    CollectMeans(fs);
    var v := Collect(fs).values;
    forall k | k in v ensures Clean(v[k]) && k !in {NO_KEY, AT, EVENT} {
      var f :| f in fs && f.k == k;
      var i :| 0 <= i < |fs| && fs[i] == f;
      assert xs[i] in xs;
      FieldClean(a, xs[i]);
    }
  }

  /** Every record written reads back as the stamp, the event and the arguments, in the
      declared order, and is one line. */
  lemma RecordParsesBack(a: Alphabet, e: octet, xs: seq<Argument>, stamp: string)
    requires a.Standard() && AllConstructible(a, xs) && Clean(stamp)
    ensures var fs, r := FieldsOf(xs), RecordOf(e, FieldsOf(xs), stamp);
      (r.Line? <==> EventName(e) != "" && NO_KEY !in Keys(fs) && |Keys(fs)| == |fs|)
      && (r.Line? ==>
            |r.line| > 0 && ParseLine(r.line) == Pairs(Stamped(Collect(fs).values, e, stamp), DECLARED)
            && r.line[|r.line| - 1] == '\n' && '\n' !in r.line[..|r.line| - 1])
  {
    hide Clean, Collect, LineOf, ParseLine, Pairs, EventName, AllConstructible, FieldsOf;
    CollectMeans(FieldsOf(xs));
    if RecordOf(e, FieldsOf(xs), stamp).Line? {
      CollectedClean(a, xs);
      EventNameClean(e);
      LineParsesBack(Stamped(Collect(FieldsOf(xs)).values, e, stamp));
    }
  }

  lemma EventsDistinct(d: octet, e: octet)
    requires EventName(d) == EventName(e) != ""
    ensures d == e
  {
    var s := EventName(d);
    assert |s| == |EventName(e)| && s[0] == EventName(e)[0] && s[8] == EventName(e)[8];
    assert s[|s| - 1] == EventName(e)[|s| - 1];
  }

  /** Two records written at the same stamp as the same line are the same event with
      the same arguments. */
  lemma RecordInjective(a: Alphabet, d: octet, xs: seq<Argument>, e: octet, ys: seq<Argument>, stamp: string)
    requires a.Standard() && AllConstructible(a, xs) && AllConstructible(a, ys) && Clean(stamp)
    requires RecordOf(d, FieldsOf(xs), stamp).Line?
    requires RecordOf(d, FieldsOf(xs), stamp) == RecordOf(e, FieldsOf(ys), stamp)
    ensures d == e && multiset(FieldsOf(xs)) == multiset(FieldsOf(ys))
  {
    hide Clean, Collect, LineOf, ParseLine, Pairs, EventName, AllConstructible, FieldsOf, Keys;
    RecordParsesBack(a, d, xs, stamp);
    RecordParsesBack(a, e, ys, stamp);
    var v, w := Collect(FieldsOf(xs)).values, Collect(FieldsOf(ys)).values;
    CollectedClean(a, xs);
    CollectedClean(a, ys);
    var sv, sw := Stamped(v, d, stamp), Stamped(w, e, stamp);
    PairsDetermine(sv, sw);
    assert sv[EVENT] == sw[EVENT];
    EventsDistinct(d, e);
    assert v == sv - {AT, EVENT} && w == sw - {AT, EVENT};
    CollectDetermines(FieldsOf(xs), FieldsOf(ys));
  }

  lemma CollectDetermines(fs: seq<Field>, gs: seq<Field>)
    requires Collect(fs).Given? && Collect(fs) == Collect(gs)
    ensures multiset(fs) == multiset(gs)
  {
    CollectOnce(fs);
    CollectOnce(gs);
  }

  lemma {:induction false} CollectOnce(fs: seq<Field>)
    requires Collect(fs).Given?
    ensures forall f :: multiset(fs)[f] == if f.k in Collect(fs).values && Collect(fs).values[f.k] == f.v then 1 else 0
    decreases |fs|
  {
    if |fs| > 0 {
      var init, f := fs[..|fs| - 1], fs[|fs| - 1];
      CollectOnce(init);
      assert fs == init + [f];
    }
  }

  lemma IntegerSign(n: int)
    ensures '-' in Integer(n) <==> n < 0
    ensures n < 0 ==> |Integer(n)| > 0 && Integer(n)[1..] == Decimal(-n)
  {
    DecimalClean(Magnitude(n));
    if n < 0 { assert Integer(n)[0] == '-'; }
  }

  lemma IntegersDistinct(m: int, n: int)
    requires Integer(m) == Integer(n)
    ensures m == n
  {
    IntegerSign(m);
    IntegerSign(n);
    DecimalValue(Magnitude(m));
    DecimalValue(Magnitude(n));
    hide Decimal, Value;
  }

  /** A field tells which argument it was, except that a duration is known to the
      millisecond. */
  lemma FieldTellsArgument(x: Argument, y: Argument)
    requires FieldOf(x) == FieldOf(y) != ZERO_FIELD
    ensures x == y || (x.Held? && y.Held? && Milliseconds(x.duration) == Milliseconds(y.duration))
  {
    hide Milliseconds, Decimal, Integer;
    match x
    case Version(v) => DecimalValue(v); DecimalValue(y.version);
    case Count(n) => IntegersDistinct(n, y.count);
    case Held(d) =>
      var m, n := Integer(Milliseconds(d)), Integer(Milliseconds(y.duration));
      assert m == (m + "ms")[..|m + "ms"| - 2] && n == (n + "ms")[..|n + "ms"| - 2];
      IntegersDistinct(Milliseconds(d), Milliseconds(y.duration));
    case _ =>
  }

  /** A log of whole lines splits into those lines. */
  lemma {:induction false} LogSplits(bodies: seq<string>)
    requires forall b :: b in bodies ==> '\n' !in b
    ensures Split(Lines(bodies), '\n') == bodies + [""]
  {
    hide Split;
    if |bodies| == 0 {
      SplitNone("", '\n');
    } else {
      assert bodies[0] in bodies && forall b :: b in bodies[1..] ==> b in bodies;
      LogSplits(bodies[1..]);
      SplitAt(bodies[0], '\n', Lines(bodies[1..]));
      assert bodies + [""] == [bodies[0]] + (bodies[1..] + [""]);
    }
  }

  function Lines(bodies: seq<string>): string {
    if |bodies| == 0 then "" else bodies[0] + ['\n'] + Lines(bodies[1..])
  }

  datatype Recording = Written | NotWritten(refusal: Refusal) | WriterFailed

  class Log {
    var written: string
    const writable: bool

    constructor (writable: bool)
      ensures written == "" && this.writable == writable
    {
      written, this.writable := "", writable;
    }

    /** Writes one line, or says why not. */
    method Record(e: octet, fields: seq<Field>, stamp: string) returns (r: Recording)
      modifies this
      ensures var s := RecordOf(e, fields, stamp);
        r == (if s.Refused? then NotWritten(s.refusal) else if writable then Written else WriterFailed)
        && written == old(written) + if r == Written then s.line else ""
    {
      hide EventName, KeyName, PairText;
      var name := EventName(e);
      if name == "" {
        return NotWritten(UnknownEvent);
      }
      var given: Values := map[];
      var i := 0;
      while i < |fields|
        invariant 0 <= i <= |fields| && written == old(written)
        invariant Collect(fields[..i]) == Given(given)
      {
        var f := fields[i];
        assert fields[..i + 1][..i] == fields[..i];
        if f.k == NO_KEY {
          StillUnfit(fields, i + 1);
          return NotWritten(Nameless);
        }
        if f.k in given {
          StillUnfit(fields, i + 1);
          return NotWritten(Twice);
        }
        given := given[f.k := f.v];
        i := i + 1;
      }
      assert fields[..|fields|] == fields;
      given := given[AT := stamp];
      given := given[EVENT := name];
      var b := Build(given, DECLARED);
      b := b + "\n";
      if !writable {
        return WriterFailed;
      }
      written := written + b;
      return Written;
    }

    /** The line without its end, key by key. */
    static method Build(given: Values, keys: seq<key>) returns (b: string)
      ensures b == Join(PairTexts(Pairs(given, keys)), ' ')
    {
      hide KeyName, Join, PairTexts;
      b := "";
      var i := 0;
      EmptyJoin();
      while i < |keys|
        invariant 0 <= i <= |keys|
        invariant b == Join(PairTexts(Pairs(given, keys[..i])), ' ')
        invariant |b| == 0 <==> |Pairs(given, keys[..i])| == 0
      {
        var k := keys[i];
        assert keys[..i + 1][..i] == keys[..i];
        if k in given {
          JoinSnoc(Pairs(given, keys[..i]), (KeyName(k), given[k]));
          if |b| > 0 {
            b := b + " ";
          }
          b := b + PairText((KeyName(k), given[k]));
        }
        i := i + 1;
      }
      assert keys[..|keys|] == keys;
    }
  }

  lemma EmptyJoin()
    ensures Join(PairTexts([]), ' ') == ""
  {}

  lemma JoinSnoc(ps: seq<Pair>, p: Pair)
    ensures Join(PairTexts(ps + [p]), ' ')
         == if |ps| == 0 then PairText(p) else Join(PairTexts(ps), ' ') + " " + PairText(p)
  {
    assert PairTexts(ps + [p]) == PairTexts(ps) + [PairText(p)];
    assert (PairTexts(ps) + [PairText(p)])[..|ps|] == PairTexts(ps);
  }

  lemma {:induction false} StillUnfit(fs: seq<Field>, n: nat)
    requires n <= |fs| && Collect(fs[..n]).Unfit?
    ensures Collect(fs) == Collect(fs[..n])
    decreases |fs|
  {
    if n < |fs| {
      assert fs[..|fs| - 1][..n] == fs[..n];
      StillUnfit(fs[..|fs| - 1], n);
    } else {
      assert fs[..n] == fs;
    }
  }
}
