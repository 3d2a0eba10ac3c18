/** Messages of fields, the version negotiation, and the gate on a connection. */
module Negotiations {
  import opened Frames
  import opened Decimals

  // Fields: two bytes of identifier, two of length, the value.

  type word = w: int | 0 <= w < 0x1_0000

  datatype Field = Field(id: word, value: seq<byte>)

  datatype Fields = Parsed(fields: seq<Field>) | Malformed

  const FIELD_HEADER := 4

  /** The length is cut to sixteen bits: nothing here refuses a longer value. */
  function FieldBytes(f: Field): seq<byte> {
    Bytes2(f.id) + Bytes2(|f.value| % 0x1_0000) + f.value
  }

  function FieldsBytes(fs: seq<Field>): seq<byte> {
    if |fs| == 0 then [] else FieldsBytes(fs[..|fs| - 1]) + FieldBytes(fs[|fs| - 1])
  }

  function ParseFields(p: seq<byte>): Fields
    decreases |p|
  {
    if |p| == 0 then Parsed([])
    else if |p| < FIELD_HEADER then Malformed
    else
      var id, length := Uint16(p[..2]), Uint16(p[2..4]);
      if |p| - FIELD_HEADER < length then Malformed
      else
        var rest := ParseFields(p[FIELD_HEADER + length..]);
        if rest.Malformed? then Malformed
        else Parsed([Field(id, p[FIELD_HEADER..FIELD_HEADER + length])] + rest.fields)
  }

  predicate Fits(f: Field) { |f.value| < 0x1_0000 }

  method EncodeFields(fs: seq<Field>) returns (out: seq<byte>)
    ensures out == FieldsBytes(fs)
  {
    out := [];
    var i := 0;
    while i < |fs|
      invariant 0 <= i <= |fs| && out == FieldsBytes(fs[..i])
    {
      var f := fs[i];
      var header := Bytes2(f.id) + Bytes2(|f.value| % 0x1_0000);
      assert fs[..i + 1][..i] == fs[..i];
      assert out + header + f.value == out + FieldBytes(f);
      out := out + header + f.value;
      i := i + 1;
    }
    assert fs[..|fs|] == fs;
  }

  function Prepend(fs: seq<Field>, r: Fields): Fields {
    if r.Malformed? then Malformed else Parsed(fs + r.fields)
  }

  /** One step of parsing, by offsets into the whole payload. */
  lemma ParseAt(p: seq<byte>, o: nat)
    requires o <= |p|
    ensures o == |p| ==> ParseFields(p[o..]) == Parsed([])
    ensures 0 < |p| - o < FIELD_HEADER ==> ParseFields(p[o..]).Malformed?
    ensures |p| - o >= FIELD_HEADER ==>
      var id, length, v := Uint16(p[o..o + 2]), Uint16(p[o + 2..o + FIELD_HEADER]), o + FIELD_HEADER;
      if |p| - v < length then ParseFields(p[o..]).Malformed?
      else ParseFields(p[o..]) == Prepend([Field(id, p[v..v + length])], ParseFields(p[v + length..]))
  {
    hide Uint16;
    var q := p[o..];
    if |q| >= FIELD_HEADER {
      assert q[..2] == p[o..o + 2] && q[2..4] == p[o + 2..o + FIELD_HEADER];
      var length := Uint16(q[2..4]);
      if |q| - FIELD_HEADER >= length {
        assert q[FIELD_HEADER..FIELD_HEADER + length] == p[o + FIELD_HEADER..o + FIELD_HEADER + length];
        assert q[FIELD_HEADER + length..] == p[o + FIELD_HEADER + length..];
      }
    }
  }

  lemma PrependTwice(a: seq<Field>, b: seq<Field>, r: Fields)
    ensures Prepend(a, Prepend(b, r)) == Prepend(a + b, r)
  {
    if r.Parsed? { assert a + (b + r.fields) == a + b + r.fields; }
  }

  lemma PrependNone(r: Fields)
    ensures Prepend([], r) == r
  {}

  method DecodeFields(p: seq<byte>) returns (r: Fields)
    ensures r == ParseFields(p)
  {
    hide ParseFields, Uint16;
    var fields: seq<Field> := [];
    var offset := 0;
    assert p[0..] == p;
    PrependNone(ParseFields(p));
    while offset < |p|
      invariant 0 <= offset <= |p|
      invariant ParseFields(p) == Prepend(fields, ParseFields(p[offset..]))
      decreases |p| - offset
    {
      ParseAt(p, offset);
      if |p| - offset < FIELD_HEADER {
        return Malformed;
      }
      var id := Uint16(p[offset..offset + 2]);
      var length := Uint16(p[offset + 2..offset + FIELD_HEADER]);
      offset := offset + FIELD_HEADER;
      if |p| - offset < length {
        return Malformed;
      }
      PrependTwice(fields, [Field(id, p[offset..offset + length])], ParseFields(p[offset + length..]));
      fields := fields + [Field(id, p[offset..offset + length])];
      offset := offset + length;
    }
    ParseAt(p, offset);
    return Parsed(fields);
  }

  lemma {:induction false} FieldsHead(fs: seq<Field>)
    requires |fs| > 0
    ensures FieldsBytes(fs) == FieldBytes(fs[0]) + FieldsBytes(fs[1..])
  {
    hide FieldBytes;
    if |fs| == 1 {
      assert fs[..0] == [] && fs[1..] == [];
    } else {
      var init, last := fs[..|fs| - 1], fs[|fs| - 1];
      FieldsHead(init);
      assert fs[1..][..|fs[1..]| - 1] == init[1..];
    }
  }

  lemma ParseHead(f: Field, rest: seq<byte>)
    requires Fits(f)
    ensures var p := FieldBytes(f) + rest;
      |p| >= FIELD_HEADER && p[..2] == Bytes2(f.id) && p[2..4] == Bytes2(|f.value|)
      && Uint16(p[..2]) == f.id && Uint16(p[2..4]) == |f.value|
      && |p| - FIELD_HEADER >= |f.value|
      && p[FIELD_HEADER..FIELD_HEADER + |f.value|] == f.value && p[FIELD_HEADER + |f.value|..] == rest
  {
    hide Bytes2, Uint16;
    var p := FieldBytes(f) + rest;
    assert p == Bytes2(f.id) + Bytes2(|f.value|) + f.value + rest;
    assert p[..2] == Bytes2(f.id) && p[2..4] == Bytes2(|f.value|);
    Big16(f.id);
    Big16(|f.value|);
  }

  /** Parsing what was laid out gives the fields back exactly when every value fits
      the length's sixteen bits. */
  lemma {:induction false} FieldsRoundTrip(fs: seq<Field>)
    ensures ParseFields(FieldsBytes(fs)) == Parsed(fs) <==> forall f :: f in fs ==> Fits(f)
  {
    if forall f :: f in fs ==> Fits(f) {
      FittingFieldsParse(fs);
    } else if ParseFields(FieldsBytes(fs)) == Parsed(fs) {
      ParsedFieldsFit(FieldsBytes(fs));
    }
  }

  lemma {:induction false} FittingFieldsParse(fs: seq<Field>)
    requires forall f :: f in fs ==> Fits(f)
    ensures ParseFields(FieldsBytes(fs)) == Parsed(fs)
  {
    hide FieldBytes, Uint16, Bytes2;
    if |fs| > 0 {
      FieldsHead(fs);
      FittingFieldsParse(fs[1..]);
      ParseHead(fs[0], FieldsBytes(fs[1..]));
      assert fs == [fs[0]] + fs[1..];
    }
  }

  lemma {:induction false} ParsedFieldsFit(p: seq<byte>)
    requires ParseFields(p).Parsed?
    ensures forall f :: f in ParseFields(p).fields ==> Fits(f)
    decreases |p|
  {
    if |p| > 0 {
      ParsedFieldsFit(p[FIELD_HEADER + Uint16(p[2..4])..]);
    }
  }

  /** Any accepted payload is laid out again as it was. */
  lemma {:induction false} FieldsReencode(p: seq<byte>)
    requires ParseFields(p).Parsed?
    ensures FieldsBytes(ParseFields(p).fields) == p
    decreases |p|
  {
    hide FieldBytes, Bytes2, Uint16;
    if |p| > 0 {
      var length := Uint16(p[2..4]);
      var tail := p[FIELD_HEADER + length..];
      var fs := ParseFields(p).fields;
      FieldsReencode(tail);
      FieldsHead(fs);
      assert fs[1..] == ParseFields(tail).fields;
      HeadReencodes(p);
    }
  }

  lemma HeadReencodes(p: seq<byte>)
    requires |p| >= FIELD_HEADER && |p| - FIELD_HEADER >= Uint16(p[2..4])
    ensures var length := Uint16(p[2..4]);
      FieldBytes(Field(Uint16(p[..2]), p[FIELD_HEADER..FIELD_HEADER + length])) + p[FIELD_HEADER + length..] == p
  {
    hide Bytes2, Uint16;
    Big16Back(p[..2]);
    Big16Back(p[2..4]);
    assert p == p[..2] + p[2..4] + p[FIELD_HEADER..];
  }

  /** What a field adds to the bytes laid out: two of identifier and two of length, each
      most significant first, and the value. */
  lemma FieldsLayout(fs: seq<Field>, f: Field)
    ensures FieldsBytes([]) == []
    ensures var n := |f.value|;
      FieldsBytes(fs + [f]) ==
        FieldsBytes(fs) + [f.id / 256, f.id % 256, n % 65536 / 256, n % 256] + f.value
  {
    assert (fs + [f])[..|fs|] == fs;
    assert |f.value| % 65536 % 256 == |f.value| % 256;
  }

  /** A payload parses as these fields exactly if it is what they are laid out as, none
      of them too long. */
  lemma ParsesExactly(p: seq<byte>, fs: seq<Field>)
    ensures ParseFields(p) == Parsed(fs) <==> FieldsBytes(fs) == p && forall f :: f in fs ==> |f.value| <= 65535
  {
    hide FieldsBytes, ParseFields;
    if ParseFields(p) == Parsed(fs) {
      FieldsReencode(p);
      ParsedFieldsFit(p);
    }
    FieldsRoundTrip(fs);
    assert forall f: Field :: Fits(f) <==> |f.value| <= 65535;
  }

  // Reading a version out of the fields.

  datatype Version = Agreed(version: word) | NoVersion

  /** The first field with the identifier, where it is two bytes wide. */
  function VersionField(fs: seq<Field>, id: word): Version {
    if |fs| == 0 then NoVersion
    else if fs[0].id == id then (if |fs[0].value| == 2 then Agreed(Uint16(fs[0].value)) else NoVersion)
    else VersionField(fs[1..], id)
  }

  method FindVersion(fs: seq<Field>, id: word) returns (v: Version)
    ensures v == VersionField(fs, id)
  {
    var i := 0;
    assert fs[0..] == fs;
    while i < |fs|
      invariant 0 <= i <= |fs| && VersionField(fs, id) == VersionField(fs[i..], id)
    {
      if fs[i].id == id {
        if |fs[i].value| != 2 {
          return NoVersion;
        }
        return Agreed(Uint16(fs[i].value));
      }
      assert fs[i..][1..] == fs[i + 1..];
      i := i + 1;
    }
    return NoVersion;
  }

  /** The first of the fields with this identifier has this value. */
  ghost predicate First(fs: seq<Field>, id: word, value: seq<byte>) {
    exists i :: 0 <= i < |fs| && fs[i].id == id && fs[i].value == value && forall j :: 0 <= j < i ==> fs[j].id != id
  }

  lemma FirstOf(fs: seq<Field>, id: word, value: seq<byte>)
    requires |fs| > 0
    ensures First(fs, id, value) <==> if fs[0].id == id then fs[0].value == value else First(fs[1..], id, value)
  {
    var rest := fs[1..];
    if First(fs, id, value) && fs[0].id != id {
      var i :| 0 <= i < |fs| && fs[i].id == id && fs[i].value == value && forall j :: 0 <= j < i ==> fs[j].id != id;
      assert rest[i - 1] == fs[i] && forall j :: 0 <= j < i - 1 ==> rest[j] == fs[j + 1];
      assert First(rest, id, value);
    }
    if fs[0].id != id && First(rest, id, value) {
      var i :| (0 <= i < |rest| && rest[i].id == id && rest[i].value == value
                && forall j :: 0 <= j < i ==> rest[j].id != id);
      assert fs[i + 1] == rest[i];
      forall j | 0 <= j < i + 1 ensures fs[j].id != id { if j > 0 { assert fs[j] == rest[j - 1]; } }
      assert First(fs, id, value);
    }
  }

  /** A version is read exactly where the first field with the identifier is its two
      bytes, most significant first. */
  lemma {:induction false} VersionMeans(fs: seq<Field>, id: word, v: word)
    ensures VersionField(fs, id) == Agreed(v) <==> First(fs, id, [v / 256, v % 256])
  {
    hide First;
    if |fs| > 0 {
      FirstOf(fs, id, [v / 256, v % 256]);
      VersionMeans(fs[1..], id, v);
      var x := fs[0].value;
      if |x| == 2 { assert x == [x[0], x[1]]; }
    } else {
      NoneFirst(id, [v / 256, v % 256]);
    }
  }

  lemma {:induction false} FirstValueMeans(fs: seq<Field>, id: word, value: seq<byte>)
    ensures (|FirstValue(fs, id)| > 0 && FirstValue(fs, id)[0].value == value) <==> First(fs, id, value)
  {
    hide First;
    if |fs| > 0 {
      FirstOf(fs, id, value);
      FirstValueMeans(fs[1..], id, value);
    } else {
      NoneFirst(id, value);
    }
  }

  lemma NoneFirst(id: word, value: seq<byte>)
    ensures !First([], id, value)
  {}

  /** The fields with one identifier, in order. */
  function Only(fs: seq<Field>, id: word): seq<Field> {
    if |fs| == 0 then [] else (if fs[0].id == id then [fs[0]] else []) + Only(fs[1..], id)
  }

  lemma {:induction false} VersionOfOnly(fs: seq<Field>, id: word)
    ensures VersionField(fs, id) == VersionField(Only(fs, id), id)
  {
    if |fs| > 0 {
      VersionOfOnly(fs[1..], id);
      if fs[0].id != id { assert Only(fs, id) == Only(fs[1..], id); }
    }
  }

  lemma {:induction false} OnlyConcat(a: seq<Field>, b: seq<Field>, id: word)
    ensures Only(a + b, id) == Only(a, id) + Only(b, id)
  {
    if |a| == 0 {
      assert a + b == b;
    } else {
      assert (a + b)[1..] == a[1..] + b;
      OnlyConcat(a[1..], b, id);
    }
  }

  // The messages.

  const KIND_AUTHENTICATE: byte := 1
  const KIND_SPACE_STATE: byte := 2
  const KIND_HELLO: byte := 3
  const KIND_VERSION_AGREED: byte := 4
  const KIND_VERSION_REFUSED: byte := 5

  const PROPOSED: word := 1
  const AGREED: word := 1
  const LOWEST: word := 1
  const HIGHEST: word := 2
  const REASON: word := 3

  predicate Known(k: byte) {
    k == KIND_AUTHENTICATE || k == KIND_SPACE_STATE || k == KIND_HELLO
    || k == KIND_VERSION_AGREED || k == KIND_VERSION_REFUSED
  }

  /** The versions a server speaks. */
  datatype Range = Range(min: word, max: word)

  function Ascii(s: string): seq<byte> {
    seq(|s|, i requires 0 <= i < |s| => s[i] as int % 0x100)
  }

  /** The sentence of a refusal. */
  function Reason(r: Range): seq<byte> {
    Ascii("this server speaks protocol versions " + Decimal(r.min) + " to " + Decimal(r.max))
  }

  function Hello(v: word): Frame { Frame(KIND_HELLO, FieldsBytes([Field(PROPOSED, Bytes2(v))])) }

  function Agreement(v: word): Frame { Frame(KIND_VERSION_AGREED, FieldsBytes([Field(AGREED, Bytes2(v))])) }

  function RefusalFields(r: Range): seq<Field> {
    [Field(LOWEST, Bytes2(r.min)), Field(HIGHEST, Bytes2(r.max)), Field(REASON, Reason(r))]
  }

  function Refusal(r: Range): Frame { Frame(KIND_VERSION_REFUSED, FieldsBytes(RefusalFields(r))) }

  /** The client's reading of an acceptance. */
  function AgreedVersion(f: Frame): Version {
    if f.kind != KIND_VERSION_AGREED || ParseFields(f.payload).Malformed? then NoVersion
    else VersionField(ParseFields(f.payload).fields, AGREED)
  }

  datatype Refused = RefusedWith(lowest: word, highest: word, reason: seq<byte>) | NotRefused

  function FirstValue(fs: seq<Field>, id: word): (v: seq<Field>) {
    if |fs| == 0 then [] else if fs[0].id == id then [fs[0]] else FirstValue(fs[1..], id)
  }

  /** The client's reading of a refusal. */
  function RefusedVersions(f: Frame): Refused {
    if f.kind != KIND_VERSION_REFUSED || ParseFields(f.payload).Malformed? then NotRefused
    else
      var fs := ParseFields(f.payload).fields;
      var low, high, reason := VersionField(fs, LOWEST), VersionField(fs, HIGHEST), FirstValue(fs, REASON);
      if low.NoVersion? || high.NoVersion? || |reason| == 0 then NotRefused
      else RefusedWith(low.version, high.version, reason[0].value)
  }

  lemma Latin(s: string, i: nat)
    requires forall c :: c in s ==> c as int < 0x100
    ensures |Ascii(s)| == |s| && (i < |s| ==> Ascii(s)[i] == s[i] as int)
  {
    if i < |s| { assert s[i] in s; }
  }

  lemma AgreementReadBack(v: word)
    ensures Writable(Agreement(v)) && AgreedVersion(Agreement(v)) == Agreed(v)
  {
    hide Bytes2, Uint16;
    var fs := [Field(AGREED, Bytes2(v))];
    FittingFieldsParse(fs);
    Big16(v);
    assert fs[..0] == [];
  }

  lemma HelloReadBack(v: word)
    ensures Writable(Hello(v)) && ParseFields(Hello(v).payload) == Parsed([Field(PROPOSED, Bytes2(v))])
    ensures VersionField([Field(PROPOSED, Bytes2(v))], PROPOSED) == Agreed(v)
  {
    hide Bytes2, Uint16;
    var fs := [Field(PROPOSED, Bytes2(v))];
    FittingFieldsParse(fs);
    Big16(v);
    assert fs[..0] == [];
  }

  lemma ReasonLength(r: Range)
    ensures |Reason(r)| <= 100
  {
    assert Ten(5) == 100000 by { assert Ten(2) == 100; assert Ten(3) == 1000; assert Ten(4) == 10000; }
    DecimalLength(r.min, 5, 100000);
    DecimalLength(r.max, 5, 100000);
  }

  lemma RefusalReadBack(r: Range)
    ensures Writable(Refusal(r)) && RefusedVersions(Refusal(r)) == RefusedWith(r.min, r.max, Reason(r))
  {
    ReasonLength(r);
    hide Bytes2, Uint16, Reason;
    var fs := RefusalFields(r);
    ThreeFields(fs[0], fs[1], fs[2]);
    FittingFieldsParse(fs);
    Big16(r.min);
    Big16(r.max);
    var two, one := fs[1..], fs[2..];
    assert two[1..] == one;
    assert VersionField(fs, HIGHEST) == VersionField(two, HIGHEST) == Agreed(r.max);
    assert FirstValue(fs, REASON) == FirstValue(two, REASON) == FirstValue(one, REASON) == [fs[2]];
  }

  lemma ThreeFields(a: Field, b: Field, c: Field)
    ensures |FieldsBytes([a, b, c])| == |FieldBytes(a)| + |FieldBytes(b)| + |FieldBytes(c)|
  {
    hide FieldBytes;
    assert [a, b, c][..2] == [a, b] && [a, b][..1] == [a] && [a][..0] == [];
    assert FieldsBytes([a, b]) == FieldsBytes([a]) + FieldBytes(b);
  }

  // The server's half of the negotiation.

  datatype NegotiationError = Framing(error: FrameError) | UnknownMessage | HelloExpected | MalformedMessage
                            | VersionUnsupported | CannotWrite

  datatype Negotiated = Speaks(version: word) | Ends(error: NegotiationError)

  /** What a first frame proposes. */
  function Proposal(f: Frame): (p: (Version, NegotiationError)) {
    if !Known(f.kind) then (NoVersion, UnknownMessage)
    else if f.kind != KIND_HELLO then (NoVersion, HelloExpected)
    else if ParseFields(f.payload).Malformed? then (NoVersion, MalformedMessage)
    else (VersionField(ParseFields(f.payload).fields, PROPOSED), MalformedMessage)
  }

  /** The outcome of a negotiation, the bytes left unread, and the bytes written. */
  function Negotiation(r: Range, incoming: seq<byte>, writable: bool): (Negotiated, seq<byte>, seq<byte>) {
    var d := DecodeFrame(incoming);
    if d.Failed? then (Ends(Framing(d.error)), d.rest, [])
    else
      var (v, error) := Proposal(d.frame);
      if v.NoVersion? then (Ends(error), d.rest, [])
      else
        var reply := if r.min <= v.version <= r.max then Agreement(v.version) else Refusal(r);
        if !writable || EncodeFrame(reply).Unencodable? then (Ends(CannotWrite), d.rest, [])
        else (if r.min <= v.version <= r.max then Speaks(v.version) else Ends(VersionUnsupported),
              d.rest, EncodeFrame(reply).bytes)
  }

  /** The first frame of these bytes is a readable hello proposing v. */
  predicate Proposes(incoming: seq<byte>, v: word) {
    var d := DecodeFrame(incoming);
    d.Got? && Proposal(d.frame).0 == Agreed(v)
  }

  /** A version in range is agreed on, exactly one frame is read and one written, and
      the client reads back the server's own result. */
  lemma ProposalInRange(r: Range, incoming: seq<byte>, v: word)
    requires Proposes(incoming, v) && r.min <= v <= r.max
    ensures var (n, rest, written) := Negotiation(r, incoming, true);
      n == Speaks(v) && rest == DecodeFrame(incoming).rest
      && DecodeFrame(written) == Got(Agreement(v), []) && AgreedVersion(Agreement(v)) == Agreed(v)
  {
    AgreementReadBack(v);
    hide Agreement, AgreedVersion, Proposal, Layout;
    var b := EncodeFrame(Agreement(v)).bytes;
    DecodeEncoded(Agreement(v), []);
    assert b + [] == b;
    hide DecodeFrame;
  }

  /** A version out of range is refused, exactly one frame is read and one written, and
      the client reads back exactly the range and the reason. */
  lemma ProposalOutOfRange(r: Range, incoming: seq<byte>, v: word)
    requires Proposes(incoming, v) && (v < r.min || v > r.max)
    ensures var (n, rest, written) := Negotiation(r, incoming, true);
      n == Ends(VersionUnsupported) && rest == DecodeFrame(incoming).rest
      && DecodeFrame(written) == Got(Refusal(r), [])
      && RefusedVersions(Refusal(r)) == RefusedWith(r.min, r.max, Reason(r))
  {
    RefusalReadBack(r);
    hide Refusal, RefusedVersions, Reason, Proposal, Layout;
    var b := EncodeFrame(Refusal(r)).bytes;
    DecodeEncoded(Refusal(r), []);
    assert b + [] == b;
    hide DecodeFrame;
  }

  /** Anything else ends the negotiation with nothing written, and still at most one
      frame is read. */
  lemma OtherwiseSilent(r: Range, incoming: seq<byte>, writable: bool)
    requires !writable || forall v :: !Proposes(incoming, v)
    ensures var (n, rest, written) := Negotiation(r, incoming, writable);
      n.Ends? && n.error != VersionUnsupported && written == [] && rest == DecodeFrame(incoming).rest
  {
    hide DecodeFrame, EncodeFrame, ParseFields, VersionField, Agreement, Refusal;
    var d := DecodeFrame(incoming);
    if d.Got? && Proposal(d.frame).0.Agreed? {
      assert Proposes(incoming, Proposal(d.frame).0.version);
    }
  }

  /** A first frame proposes v exactly if it is of kind 3 and its first field of
      identifier 1 is v. */
  lemma ProposesMeans(s: seq<byte>, v: word)
    ensures Proposes(s, v) <==>
      var d := DecodeFrame(s);
      d.Got? && d.frame.kind == 3
      && exists fs :: ParseFields(d.frame.payload) == Parsed(fs) && First(fs, 1, [v / 256, v % 256])
  {
    hide First, ParseFields, DecodeFrame, VersionField;
    var d := DecodeFrame(s);
    if d.Got? && ParseFields(d.frame.payload).Parsed? {
      VersionMeans(ParseFields(d.frame.payload).fields, 1, v);
    }
  }

  /** Every outcome, by what the first frame is: a version is spoken exactly if it is
      proposed and neither below the server's lowest nor above its highest. */
  lemma NegotiationMeans(r: Range, incoming: seq<byte>, writable: bool)
    ensures var n, d := Negotiation(r, incoming, writable).0, DecodeFrame(incoming);
      (forall v: word :: n == Speaks(v) <==> writable && Proposes(incoming, v) && r.min <= v <= r.max)
      && (n == Ends(VersionUnsupported) <==>
            writable && exists v: word :: Proposes(incoming, v) && (v < r.min || v > r.max))
      && (n == Ends(CannotWrite) <==> !writable && exists v :: Proposes(incoming, v))
      && (forall e :: n == Ends(Framing(e)) <==> d.Failed? && d.error == e)
      && (n == Ends(UnknownMessage) <==> d.Got? && d.frame.kind !in {1, 2, 3, 4, 5})
      && (n == Ends(HelloExpected) <==> d.Got? && d.frame.kind in {1, 2, 4, 5})
      && (n == Ends(MalformedMessage) <==> d.Got? && d.frame.kind == 3 && forall v :: !Proposes(incoming, v))
  {
    hide DecodeFrame, ParseFields, VersionField, Agreement, Refusal, EncodeFrame;
    var d := DecodeFrame(incoming);
    if d.Got? && Proposal(d.frame).0.Agreed? {
      var v := Proposal(d.frame).0.version;
      AgreementReadBack(v);
      RefusalReadBack(r);
      assert Proposes(incoming, v);
    }
  }

  /** What is written, byte for byte: the version agreed, or the range and the sentence. */
  lemma RepliesMean(r: Range, v: word)
    ensures EncodeFrame(Agreement(v)) == Bytes([0, 0, 0, 6, 4, 0, 1, 0, 2, v / 256, v % 256])
    ensures var low, high, why := [r.min / 256, r.min % 256], [r.max / 256, r.max % 256], Reason(r);
      |why| < 200
      && EncodeFrame(Refusal(r)) ==
        Bytes([0, 0, 0, 16 + |why|, 5] + ([0, 1, 0, 2] + low + [0, 2, 0, 2] + high + [0, 3, 0, |why|] + why))
  {
    ReasonLength(r);
    VersionLayout(1, v);
    EncodeMeans(Agreement(v));
    EncodeMeans(Refusal(r));
    RefusalLayout([r.min / 256, r.min % 256], [r.max / 256, r.max % 256], Reason(r));
    hide FieldsBytes, FieldBytes, Reason, EncodeFrame;
  }

  /** One field of a version. */
  lemma VersionLayout(id: word, v: word)
    requires id < 256
    ensures FieldsBytes([Field(id, [v / 256, v % 256])]) == [0, id, 0, 2, v / 256, v % 256]
  {
    var f := Field(id, [v / 256, v % 256]);
    FieldsLayout([], f);
    hide *;
    assert [] + [f] == [f];
  }

  lemma RefusalLayout(low: seq<byte>, high: seq<byte>, why: seq<byte>)
    requires |low| == |high| == 2 && |why| < 200
    ensures FieldsBytes([Field(1, low), Field(2, high), Field(3, why)]) ==
      [0, 1, 0, 2] + low + [0, 2, 0, 2] + high + [0, 3, 0, |why|] + why
  {
    hide *;
    var a, b, c := Field(1, low), Field(2, high), Field(3, why);
    FieldsLayout([], a);
    FieldsLayout([a], b);
    FieldsLayout([a, b], c);
    assert [] + [a] == [a] && [a] + [b] == [a, b] && [a, b] + [c] == [a, b, c];
  }

  /** The sentence, letter by letter. */
  lemma ReasonMeans(r: Range, i: nat)
    ensures var text := "this server speaks protocol versions " + Decimal(r.min) + " to " + Decimal(r.max);
      |Reason(r)| == |text| && (i < |text| ==> Reason(r)[i] == text[i] as int)
  {
    var text := "this server speaks protocol versions " + Decimal(r.min) + " to " + Decimal(r.max);
    Latin(text, i);
  }

  /** A client reads an acceptance exactly from kind 4 with a version in its first field
      1, and a refusal exactly from kind 5 with all three fields. */
  lemma ClientReads(f: Frame, v: word, w: word, why: seq<byte>)
    ensures AgreedVersion(f) == Agreed(v) <==>
      f.kind == 4 && exists fs :: ParseFields(f.payload) == Parsed(fs) && First(fs, 1, [v / 256, v % 256])
    ensures RefusedVersions(f) == RefusedWith(v, w, why) <==>
      f.kind == 5 && exists fs :: ParseFields(f.payload) == Parsed(fs) && First(fs, 1, [v / 256, v % 256])
                                  && First(fs, 2, [w / 256, w % 256]) && First(fs, 3, why)
  {
    hide First, ParseFields, VersionField, FirstValue;
    if ParseFields(f.payload).Parsed? {
      var fs := ParseFields(f.payload).fields;
      VersionMeans(fs, 1, v);
      VersionMeans(fs, 2, w);
      FirstValueMeans(fs, 3, why);
    }
  }

  /** A client that says hello with v and goes on is agreed with exactly when v is in
      range, and nothing it sent after the hello has been read. */
  lemma HelloNegotiates(r: Range, v: word, rest: seq<byte>)
    ensures EncodeFrame(Hello(v)) == Bytes([0, 0, 0, 6, 3, 0, 1, 0, 2, v / 256, v % 256])
    ensures var (n, left, _) := Negotiation(r, [0, 0, 0, 6, 3, 0, 1, 0, 2, v / 256, v % 256] + rest, true);
      left == rest && n == if r.min <= v <= r.max then Speaks(v) else Ends(VersionUnsupported)
  {
    HelloBytes(v);
    HelloReadBack(v);
    DecodeEncoded(Hello(v), rest);
    hide FieldsBytes, ParseFields, VersionField, DecodeFrame, EncodeFrame, Negotiation, Agreement, Refusal;
    var s := EncodeFrame(Hello(v)).bytes + rest;
    assert Proposes(s, v);
    if r.min <= v <= r.max { ProposalInRange(r, s, v); } else { ProposalOutOfRange(r, s, v); }
  }

  lemma HelloBytes(v: word)
    ensures EncodeFrame(Hello(v)) == Bytes([0, 0, 0, 6, 3, 0, 1, 0, 2, v / 256, v % 256])
  {
    VersionLayout(1, v);
    EncodeMeans(Hello(v));
    hide FieldsBytes, EncodeFrame;
  }

  /** Forward compatibility: two hellos whose fields agree on the proposed version's
      identifier get the same outcome and the same reply, whatever other fields they
      carry and wherever. */
  lemma UnknownFieldsIgnored(r: Range, fs: seq<Field>, gs: seq<Field>, rest: seq<byte>, writable: bool)
    requires Only(fs, PROPOSED) == Only(gs, PROPOSED)
    requires forall f :: f in fs + gs ==> Fits(f)
    requires |FieldsBytes(fs)| <= MAX_PAYLOAD && |FieldsBytes(gs)| <= MAX_PAYLOAD
    ensures Negotiation(r, EncodeFrame(Frame(KIND_HELLO, FieldsBytes(fs))).bytes + rest, writable)
         == Negotiation(r, EncodeFrame(Frame(KIND_HELLO, FieldsBytes(gs))).bytes + rest, writable)
  {
    hide FieldsBytes, ParseFields, DecodeFrame, Layout, VersionField, Only, Fits;
    assert forall f :: f in fs ==> f in fs + gs;
    assert forall f :: f in gs ==> f in fs + gs;
    var a, b := Frame(KIND_HELLO, FieldsBytes(fs)), Frame(KIND_HELLO, FieldsBytes(gs));
    DecodeEncoded(a, rest);
    DecodeEncoded(b, rest);
    FittingFieldsParse(fs);
    FittingFieldsParse(gs);
    VersionOfOnly(fs, PROPOSED);
    VersionOfOnly(gs, PROPOSED);
  }

  /** In particular, fields with other identifiers inserted between two others. */
  lemma InsertedFieldsIgnored(
    r: Range, a: seq<Field>, extra: seq<Field>, b: seq<Field>, rest: seq<byte>, writable: bool)
    requires forall f :: f in extra ==> f.id != PROPOSED
    requires forall f :: f in a + extra + b ==> Fits(f)
    requires |FieldsBytes(a + extra + b)| <= MAX_PAYLOAD && |FieldsBytes(a + b)| <= MAX_PAYLOAD
    ensures Negotiation(r, EncodeFrame(Frame(KIND_HELLO, FieldsBytes(a + extra + b))).bytes + rest, writable)
         == Negotiation(r, EncodeFrame(Frame(KIND_HELLO, FieldsBytes(a + b))).bytes + rest, writable)
  {
    hide *;
    OnlyConcat(a + extra, b, PROPOSED);
    OnlyConcat(a, extra, PROPOSED);
    OnlyConcat(a, b, PROPOSED);
    OnlyNone(extra, PROPOSED);
    assert Only(a, PROPOSED) + [] == Only(a, PROPOSED);
    forall f | f in a + extra + b + (a + b) ensures Fits(f) { assert f in a + extra + b; }
    UnknownFieldsIgnored(r, a + extra + b, a + b, rest, writable);
  }

  lemma {:induction false} OnlyNone(fs: seq<Field>, id: word)
    requires forall f :: f in fs ==> f.id != id
    ensures Only(fs, id) == []
  {
    if |fs| > 0 { OnlyNone(fs[1..], id); }
  }

  // The connection.

  datatype ReadError = Undecodable(error: FrameError) | Unauthenticated(kind: byte) | Unknown(kind: byte)

  datatype Read = Message(frame: Frame) | Error(error: ReadError)

  datatype Verdict = Clear | Closed(error: ReadError)

  /** A connection's gate and what it has still to read. */
  datatype Gate = Gate(incoming: seq<byte>, authenticated: bool, refused: Verdict) {
    function ReadFrame(): (Gate, Read) {
      if refused.Closed? then (this, Error(refused.error))
      else
        var d := DecodeFrame(incoming);
        if d.Failed? then (this.(incoming := d.rest), Error(Undecodable(d.error)))
        else if !authenticated && d.frame.kind != KIND_AUTHENTICATE then
          var e := Unauthenticated(d.frame.kind);
          (Gate(d.rest, authenticated, Closed(e)), Error(e))
        else if !Known(d.frame.kind) then
          var e := Unknown(d.frame.kind);
          (Gate(d.rest, authenticated, Closed(e)), Error(e))
        else (this.(incoming := d.rest), Message(d.frame))
    }

    function MarkAuthenticated(): Gate { this.(authenticated := true) }
  }

  /** What a gate does: a frame passes exactly if no refusal is kept, the bytes hold one, its
      kind is between 1 and 5, and the peer is authenticated or the kind is 1. Only a whole
      frame of another kind is kept as a refusal, and what was read of the bytes is gone. */
  lemma ReadFrameMeans(g: Gate, f: Frame)
    ensures var (h, r) := g.ReadFrame();
      var d := DecodeFrame(g.incoming);
      (r == Message(f) <==>
         g.refused == Clear && d.Got? && d.frame == f && 1 <= f.kind <= 5 && (g.authenticated || f.kind == 1))
      && h.authenticated == g.authenticated
      && h.incoming == (if g.refused == Clear then d.rest else g.incoming)
      && (r.Error? ==>
            (forall e :: g.refused == Closed(e) ==> r.error == e)
            && (g.refused == Clear ==>
                  (forall e :: r.error == Undecodable(e) <==> d.Failed? && d.error == e)
                  && (forall k :: r.error == Unauthenticated(k) <==>
                                    d.Got? && d.frame.kind == k && !g.authenticated && k != 1)
                  && (forall k :: r.error == Unknown(k) <==>
                                    d.Got? && d.frame.kind == k && g.authenticated && (k < 1 || k > 5))))
      && h.refused == (if g.refused == Clear && r.Error? && d.Got? then Closed(r.error) else g.refused)
      && g.MarkAuthenticated() == Gate(g.incoming, true, g.refused)
  {
    hide DecodeFrame;
  }

  datatype Use = Reading | Marking

  function Reads(g: Gate, uses: seq<Use>): seq<Read>
    decreases |uses|
  {
    if |uses| == 0 then []
    else if uses[0].Marking? then Reads(g.MarkAuthenticated(), uses[1..])
    else [g.ReadFrame().1] + Reads(g.ReadFrame().0, uses[1..])
  }

  function UsedUp(g: Gate, uses: seq<Use>): Gate
    decreases |uses|
  {
    if |uses| == 0 then g
    else UsedUp(if uses[0].Marking? then g.MarkAuthenticated() else g.ReadFrame().0, uses[1..])
  }

  lemma {:induction false} ReadsConcat(g: Gate, a: seq<Use>, b: seq<Use>)
    ensures Reads(g, a + b) == Reads(g, a) + Reads(UsedUp(g, a), b)
    decreases |a|
  {
    hide Gate.ReadFrame;
    if |a| == 0 {
      assert a + b == b;
    } else {
      assert (a + b)[1..] == a[1..] + b;
      ReadsConcat(if a[0].Marking? then g.MarkAuthenticated() else g.ReadFrame().0, a[1..], b);
    }
  }

  lemma {:induction false} KnownKinds(g: Gate, uses: seq<Use>)
    ensures forall r :: r in Reads(g, uses) && r.Message? ==> Known(r.frame.kind)
    decreases |uses|
  {
    hide DecodeFrame;
    if |uses| > 0 { KnownKinds(if uses[0].Marking? then g.MarkAuthenticated() else g.ReadFrame().0, uses[1..]); }
  }

  lemma {:induction false} UnmarkedReads(g: Gate, uses: seq<Use>)
    requires !g.authenticated && Marking !in uses
    ensures forall r :: r in Reads(g, uses) && r.Message? ==> r.frame.kind == KIND_AUTHENTICATE
    decreases |uses|
  {
    hide DecodeFrame;
    if |uses| > 0 {
      assert uses[0] in uses && forall u :: u in uses[1..] ==> u in uses;
      UnmarkedReads(g.ReadFrame().0, uses[1..]);
    }
  }

  /** Over any use of a connection, every frame it hands out is of a known kind, and of
      those handed out before it is first marked authenticated, each is the
      authentication frame, whatever follows. */
  lemma GateHolds(g: Gate, pre: seq<Use>, post: seq<Use>)
    requires Marking !in pre
    ensures var rs := Reads(g, pre + post);
      (forall r :: r in rs && r.Message? ==> Known(r.frame.kind))
      && rs == Reads(g, pre) + Reads(UsedUp(g, pre), post)
      && (!g.authenticated ==> forall r :: r in Reads(g, pre) && r.Message? ==> r.frame.kind == KIND_AUTHENTICATE)
  {
    hide Gate.ReadFrame, Reads, UsedUp;
    KnownKinds(g, pre + post);
    ReadsConcat(g, pre, post);
    if !g.authenticated { UnmarkedReads(g, pre); }
  }

  /** A refusal is terminal: every later read returns the same error, and no further
      byte is read. */
  lemma {:induction false} RefusalIsTerminal(g: Gate, uses: seq<Use>)
    requires g.refused.Closed?
    ensures forall r :: r in Reads(g, uses) ==> r == Error(g.refused.error)
    ensures UsedUp(g, uses).incoming == g.incoming && UsedUp(g, uses).refused == g.refused
    decreases |uses|
  {
    if |uses| > 0 {
      RefusalIsTerminal(if uses[0].Marking? then g.MarkAuthenticated() else g.ReadFrame().0, uses[1..]);
    }
  }

  /** What is handed out until the first error: frames of the wire, in their order. */
  lemma {:induction false} ReadsAreTheFrames(g: Gate, uses: seq<Use>)
    ensures Leading(Reads(g, uses)) <= DecodeAll(g.incoming).0
    decreases |uses|
  {
    hide DecodeFrame;
    if |uses| > 0 {
      var h := if uses[0].Marking? then g.MarkAuthenticated() else g.ReadFrame().0;
      ReadsAreTheFrames(h, uses[1..]);
      if uses[0].Reading? && g.ReadFrame().1.Message? {
        var rest := Reads(h, uses[1..]);
        assert Reads(g, uses)[1..] == rest;
        assert DecodeAll(g.incoming).0 == [g.ReadFrame().1.frame] + DecodeAll(h.incoming).0;
      }
    }
  }

  /** The messages before the first error. */
  function Leading(rs: seq<Read>): seq<Frame> {
    if |rs| == 0 || rs[0].Error? then [] else [rs[0].frame] + Leading(rs[1..])
  }

  /** After it, not always: a decoding error is not kept as a refusal is, and a frame
      whose declared length is refused has only its header consumed, so the next read
      hands out a frame from inside the refused one's payload. */
  lemma DecodingErrorIsNotTerminal(f: Frame, declared: nat, kind: byte)
    requires Writable(f) && f.kind == KIND_AUTHENTICATE
    requires MAX_PAYLOAD < declared < 0x1_0000_0000
    ensures var g := Gate(Bytes4(declared) + [kind] + EncodeFrame(f).bytes, false, Clear);
      Reads(g, [Reading, Reading]) == [Error(Undecodable(TooLarge)), Message(f)]
      && DecodeAll(g.incoming).0 == []
  {
    hide Bytes4, Uint32, Layout;
    var s := Bytes4(declared) + [kind] + EncodeFrame(f).bytes;
    Big32(declared);
    assert s[..4] == Bytes4(declared) && s[HEADER..] == EncodeFrame(f).bytes;
    assert DecodeFrame(s) == Failed(TooLarge, EncodeFrame(f).bytes);
    DecodeEncoded(f, []);
    assert EncodeFrame(f).bytes + [] == EncodeFrame(f).bytes;
    hide DecodeFrame, EncodeFrame;
    var g := Gate(s, false, Clear);
    var h := g.ReadFrame().0;
    assert Reads(h, [Reading]) == [Message(f)] + Reads(h.ReadFrame().0, []);
    assert [Reading, Reading][1..] == [Reading];
  }

  /** The read after a first error gives a message exactly where the error was a whole
      header refused for its length or its kind, and the gate passes the frame that
      starts right after it: a stream that ran out, and a frame refused by the gate,
      are final. */
  lemma AfterError(g: Gate)
    requires g.refused.Clear? && g.ReadFrame().1.Error?
    ensures g.ReadFrame().0.ReadFrame().1.Message? <==>
      |g.incoming| >= HEADER
      && (Uint32(g.incoming[..4]) > MAX_PAYLOAD || g.incoming[4] == KIND_RESERVED)
      && Gate(g.incoming[HEADER..], g.authenticated, Clear).ReadFrame().1.Message?
  {
    hide Uint32;
  }

  function Messages(rs: seq<Read>): seq<Frame> {
    if |rs| == 0 then [] else (if rs[0].Message? then [rs[0].frame] else []) + Messages(rs[1..])
  }

  /** Reading on past every header that is refused, the first frame is of a known kind. */
  predicate KnownBeyond(s: seq<byte>)
    decreases |s|
  {
    var d := DecodeFrame(s);
    if d.Got? then Known(d.frame.kind) else |d.rest| < |s| && KnownBeyond(d.rest)
  }

  /** A gate can be made to hand out a frame the wire does not hold: nothing on the wire
      closes it, and what the wire's frames leave holds a known one beyond a refused
      header. */
  predicate Slips(g: Gate) {
    g.refused.Clear? && (forall f :: f in DecodeAll(g.incoming).0 ==> Known(f.kind))
    && KnownBeyond(DecodeAll(g.incoming).1)
  }

  lemma ReadsUnfold(g: Gate, uses: seq<Use>)
    requires |uses| > 0
    ensures uses[0].Marking? ==> Reads(g, uses) == Reads(g.MarkAuthenticated(), uses[1..])
    ensures uses[0].Reading? ==>
      var (h, r) := g.ReadFrame();
      Messages(Reads(g, uses)) == (if r.Message? then [r.frame] else []) + Messages(Reads(h, uses[1..]))
  {
    if uses[0].Reading? {
      var (h, r) := g.ReadFrame();
      assert Reads(g, uses)[1..] == Reads(h, uses[1..]);
    }
    hide Gate.ReadFrame;
  }

  lemma {:induction false} ClosedIsSilent(g: Gate, uses: seq<Use>)
    requires g.refused.Closed?
    ensures Messages(Reads(g, uses)) == []
    decreases |uses|
  {
    if |uses| > 0 {
      ReadsUnfold(g, uses);
      ClosedIsSilent(if uses[0].Marking? then g.MarkAuthenticated() else g.ReadFrame().0, uses[1..]);
    }
  }

  lemma {:induction false} NothingBeyond(g: Gate, uses: seq<Use>)
    requires g.refused.Clear? && !KnownBeyond(g.incoming)
    ensures Messages(Reads(g, uses)) == []
    decreases |uses|
  {
    hide DecodeFrame;
    if |uses| > 0 {
      ReadsUnfold(g, uses);
      if uses[0].Marking? {
        NothingBeyond(g.MarkAuthenticated(), uses[1..]);
      } else if DecodeFrame(g.incoming).Got? {
        ClosedIsSilent(g.ReadFrame().0, uses[1..]);
      } else {
        StillNothing(g.incoming);
        NothingBeyond(g.ReadFrame().0, uses[1..]);
      }
    }
  }

  lemma StillNothing(s: seq<byte>)
    requires DecodeFrame(s).Failed? && !KnownBeyond(s)
    ensures !KnownBeyond(DecodeFrame(s).rest)
  {
    var rest := DecodeFrame(s).rest;
    if |rest| == |s| { assert rest == s; }
  }

  lemma {:induction false} NoSlip(g: Gate, uses: seq<Use>)
    requires !Slips(g)
    ensures Messages(Reads(g, uses)) <= DecodeAll(g.incoming).0
    decreases |uses|
  {
    hide DecodeFrame, KnownBeyond;
    if |uses| > 0 {
      ReadsUnfold(g, uses);
      var (h, r) := g.ReadFrame();
      var d := DecodeFrame(g.incoming);
      if uses[0].Marking? {
        NoSlip(g.MarkAuthenticated(), uses[1..]);
      } else if h.refused.Closed? {
        ClosedIsSilent(h, uses[1..]);
      } else if d.Failed? {
        StillNothing(g.incoming);
        NothingBeyond(h, uses[1..]);
      } else {
        var rest := DecodeAll(d.rest).0;
        assert DecodeAll(g.incoming).0 == [d.frame] + rest;
        NoSlip(h, uses[1..]);
      }
    }
  }

  /** Reading on, authenticated, to a frame beyond a refused header. */
  lemma {:induction false} ReachBeyond(g: Gate) returns (uses: seq<Use>)
    requires g.refused.Clear? && g.authenticated && KnownBeyond(g.incoming)
    ensures Messages(Reads(g, uses)) != []
    decreases |g.incoming|
  {
    hide DecodeFrame;
    var later := [];
    if DecodeFrame(g.incoming).Failed? { later := ReachBeyond(g.ReadFrame().0); }
    uses := [Reading] + later;
    assert uses[1..] == later;
    ReadsUnfold(g, uses);
  }

  lemma {:induction false} ReachSlip(g: Gate) returns (uses: seq<Use>)
    requires Slips(g) && g.authenticated
    ensures !(Messages(Reads(g, uses)) <= DecodeAll(g.incoming).0)
    decreases |g.incoming|
  {
    hide DecodeFrame, KnownBeyond;
    var d := DecodeFrame(g.incoming);
    if d.Failed? {
      uses := ReachBeyond(g);
    } else {
      var rest := DecodeAll(d.rest).0;
      assert DecodeAll(g.incoming) == ([d.frame] + rest, DecodeAll(d.rest).1);
      assert d.frame in [d.frame] + rest && forall f :: f in rest ==> f in [d.frame] + rest;
      var later := ReachSlip(g.ReadFrame().0);
      uses := [Reading] + later;
      assert uses[1..] == later;
      ReadsUnfold(g, uses);
      var ms := Messages(Reads(g.ReadFrame().0, later));
      if [d.frame] + ms <= [d.frame] + rest {
        assert ([d.frame] + ms)[1..] == ms && ([d.frame] + rest)[1..] == rest;
      }
    }
  }

  /** Every use of a gate hands out the wire's frames, in order and nothing else, if and
      only if what they leave, read on past each refused header, reaches no frame that
      the gate would pass. */
  lemma WireExact(g: Gate)
    ensures (forall uses :: Messages(Reads(g, uses)) <= DecodeAll(g.incoming).0) <==> !Slips(g)
  {
    if Slips(g) {
      var h := g.MarkAuthenticated();
      var later := ReachSlip(h);
      var uses := [Marking] + later;
      assert uses[1..] == later;
      ReadsUnfold(g, uses);
      assert !(Messages(Reads(g, uses)) <= DecodeAll(g.incoming).0);
    } else {
      forall uses ensures Messages(Reads(g, uses)) <= DecodeAll(g.incoming).0 { NoSlip(g, uses); }
    }
  }

  class Conn {
    const stream: Stream
    var authenticated: bool
    var refused: Verdict

    ghost function State(): Gate
      reads this, stream
    {
      Gate(stream.incoming, authenticated, refused)
    }

    constructor (stream: Stream)
      ensures this.stream == stream && State() == Gate(stream.incoming, false, Clear)
    {
      this.stream := stream;
      authenticated, refused := false, Clear;
    }

    method MarkAuthenticated()
      modifies this`authenticated
      ensures State() == old(State()).MarkAuthenticated()
    {
      authenticated := true;
    }

    /** Reads the next frame through the gate. */
    method ReadFrame() returns (r: Read)
      modifies this`refused, stream`incoming
      ensures (State(), r) == old(State()).ReadFrame()
    {
      if refused.Closed? {
        return Error(refused.error);
      }
      var d := stream.Decode();
      if d.Failed? {
        return Error(Undecodable(d.error));
      }
      if !authenticated && d.frame.kind != KIND_AUTHENTICATE {
        refused := Closed(Unauthenticated(d.frame.kind));
        return Error(refused.error);
      }
      if !Known(d.frame.kind) {
        refused := Closed(Unknown(d.frame.kind));
        return Error(refused.error);
      }
      return Message(d.frame);
    }

    /** The server's half of the negotiation, on the stream itself. */
    method Negotiate(r: Range) returns (n: Negotiated)
      modifies stream`incoming, stream`written
      ensures var (outcome, rest, written) := Negotiation(r, old(stream.incoming), stream.writable);
        n == outcome && stream.incoming == rest && stream.written == old(stream.written) + written
      ensures forall v: word ::
        n == Speaks(v) <==> stream.writable && Proposes(old(stream.incoming), v) && r.min <= v <= r.max
      ensures n == Ends(VersionUnsupported) <==>
        stream.writable && exists v: word :: Proposes(old(stream.incoming), v) && (v < r.min || v > r.max)
      ensures authenticated == old(authenticated) && refused == old(refused)
    {
      NegotiationMeans(r, stream.incoming, stream.writable);
      hide DecodeFrame, EncodeFrame, ParseFields, VersionField, Agreement, Refusal, Proposes;
      var d := stream.Decode();
      if d.Failed? {
        return Ends(Framing(d.error));
      }
      if !Known(d.frame.kind) {
        return Ends(UnknownMessage);
      }
      if d.frame.kind != KIND_HELLO {
        return Ends(HelloExpected);
      }
      var fields := DecodeFields(d.frame.payload);
      if fields.Malformed? {
        return Ends(MalformedMessage);
      }
      var v := FindVersion(fields.fields, PROPOSED);
      if v.NoVersion? {
        return Ends(MalformedMessage);
      }
      if v.version < r.min || v.version > r.max {
        var ok, _ := stream.Encode(Refusal(r));
        if !ok {
          return Ends(CannotWrite);
        }
        return Ends(VersionUnsupported);
      }
      var ok, _ := stream.Encode(Agreement(v.version));
      if !ok {
        return Ends(CannotWrite);
      }
      return Speaks(v.version);
    }
  }
}
