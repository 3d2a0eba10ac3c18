/** The frame codec: four bytes of big-endian length, one byte of kind, the payload. */
module Frames {

  type byte = b: int | 0 <= b < 256

  datatype Frame = Frame(kind: byte, payload: seq<byte>)

  const KIND_RESERVED: byte := 0
  const MAX_PAYLOAD := 0x1_0000
  const HEADER := 5

  datatype FrameError = ShortHeader | TooLarge | ReservedKind | ShortPayload | WriteFailed

  /** Big-endian sixteen bits. */
  function Bytes2(n: nat): (b: seq<byte>)
    requires n < 0x1_0000
    ensures |b| == 2
  {
    [n / 0x100, n % 0x100]
  }

  function Uint16(b: seq<byte>): (n: nat)
    requires |b| == 2
    ensures n < 0x1_0000
  {
    b[0] as int * 0x100 + b[1] as int
  }

  lemma Big16(n: nat)
    requires n < 0x1_0000
    ensures Uint16(Bytes2(n)) == n
  {}

  lemma Big16Back(b: seq<byte>)
    requires |b| == 2
    ensures Bytes2(Uint16(b)) == b
  {}

  /** Big-endian thirty-two bits. */
  function Bytes4(n: nat): (b: seq<byte>)
    requires n < 0x1_0000_0000
    ensures |b| == 4
  {
    Bytes2(n / 0x1_0000) + Bytes2(n % 0x1_0000)
  }

  function Uint32(b: seq<byte>): (n: nat)
    requires |b| == 4
    ensures n < 0x1_0000_0000
  {
    Uint16(b[..2]) * 0x1_0000 + Uint16(b[2..])
  }

  lemma Big32(n: nat)
    requires n < 0x1_0000_0000
    ensures Uint32(Bytes4(n)) == n
  {
    hide Bytes2, Uint16;
    var b := Bytes4(n);
    assert b[..2] == Bytes2(n / 0x1_0000) && b[2..] == Bytes2(n % 0x1_0000);
    Big16(n / 0x1_0000);
    Big16(n % 0x1_0000);
  }

  lemma Big32Back(b: seq<byte>)
    requires |b| == 4
    ensures Bytes4(Uint32(b)) == b
  {
    hide Bytes2, Uint16;
    Big16Back(b[..2]);
    Big16Back(b[2..]);
    assert b == b[..2] + b[2..];
  }

  /** A frame this package writes and reads. */
  predicate Writable(f: Frame) { |f.payload| <= MAX_PAYLOAD && f.kind != KIND_RESERVED }

  datatype Encoded = Bytes(bytes: seq<byte>) | Unencodable(error: FrameError)

  function Layout(f: Frame): seq<byte>
    requires |f.payload| < 0x1_0000_0000
  {
    Bytes4(|f.payload|) + [f.kind] + f.payload
  }

  /** A frame's bytes, or why it has none. */
  function EncodeFrame(f: Frame): (e: Encoded)
    ensures e.Bytes? <==> Writable(f)
  {
    if |f.payload| > MAX_PAYLOAD then Unencodable(TooLarge)
    else if f.kind == KIND_RESERVED then Unencodable(ReservedKind)
    else Bytes(Layout(f))
  }

  /** What reading one frame gives, and what it leaves unread. */
  datatype Decoded = Got(frame: Frame, rest: seq<byte>) | Failed(error: FrameError, rest: seq<byte>)

  function DecodeFrame(s: seq<byte>): (d: Decoded)
    ensures |d.rest| <= |s| && d.rest == s[|s| - |d.rest|..]
    ensures d.Got? ==> Writable(d.frame) && |d.rest| < |s|
  {
    if |s| < HEADER then Failed(ShortHeader, [])
    else
      var declared, kind, rest := Uint32(s[..4]), s[4], s[HEADER..];
      if declared > MAX_PAYLOAD then Failed(TooLarge, rest)
      else if kind == KIND_RESERVED then Failed(ReservedKind, rest)
      else if |rest| < declared then Failed(ShortPayload, [])
      else Got(Frame(kind, rest[..declared]), rest[declared..])
  }

  /** What the codec writes: nothing for more than 65536 bytes or for kind 0, else the
      length in four bytes, most significant first, the kind, and the payload. */
  lemma EncodeMeans(f: Frame)
    ensures var e, n := EncodeFrame(f), |f.payload|;
      (e == Unencodable(TooLarge) <==> n > 65536)
      && (e == Unencodable(ReservedKind) <==> n <= 65536 && f.kind == 0)
      && (n <= 65536 && f.kind != 0 ==>
            e == Bytes([n / 16777216, n / 65536 % 256, n / 256 % 256, n % 256, f.kind] + f.payload))
  {
    var n := |f.payload|;
    if Writable(f) {
      assert Bytes4(n) == [n / 16777216, n / 65536 % 256, n / 256 % 256, n % 256];
    }
  }

  /** What the codec reads: each refusal and the frame, by the bytes of the header alone. */
  lemma DecodeMeans(s: seq<byte>)
    ensures (DecodeFrame(s).Failed? && DecodeFrame(s).error == ShortHeader) <==> |s| < 5
    ensures |s| >= 5 ==>
      var d: Decoded := DecodeFrame(s);
      var n := s[0] as int * 16777216 + s[1] as int * 65536 + s[2] as int * 256 + s[3] as int;
      (d == Failed(TooLarge, s[5..]) <==> n > 65536)
      && (d == Failed(ReservedKind, s[5..]) <==> n <= 65536 && s[4] == 0)
      && (d == Failed(ShortPayload, []) <==> n <= 65536 && s[4] != 0 && |s| < 5 + n)
      && (d.Got? <==> n <= 65536 && s[4] != 0 && |s| >= 5 + n)
      && (d.Got? ==> d.frame.kind == s[4] && |d.frame.payload| == n && d.frame.payload + d.rest == s[5..])
  {
    if |s| >= 5 {
      var n := s[0] as int * 16777216 + s[1] as int * 65536 + s[2] as int * 256 + s[3] as int;
      assert Uint32(s[..4]) == n by {
        assert s[..4][..2] == [s[0], s[1]] && s[..4][2..] == [s[2], s[3]];
      }
      if n <= |s[5..]| { assert s[5..][..n] + s[5..][n..] == s[5..]; }
    }
  }

  /** Reading what was written gives the frame back and consumes exactly its bytes. */
  lemma DecodeEncoded(f: Frame, rest: seq<byte>)
    requires Writable(f)
    ensures DecodeFrame(EncodeFrame(f).bytes + rest) == Got(f, rest)
  {
    var b := EncodeFrame(f).bytes;
    var s := b + rest;
    Big32(|f.payload|);
    assert s[..4] == Bytes4(|f.payload|);
    assert s[4] == f.kind;
    assert s[HEADER..] == f.payload + rest;
  }

  /** Writing what was read gives exactly the bytes consumed. */
  lemma EncodeDecoded(s: seq<byte>)
    requires DecodeFrame(s).Got?
    ensures EncodeFrame(DecodeFrame(s).frame).Bytes?
    ensures EncodeFrame(DecodeFrame(s).frame).bytes + DecodeFrame(s).rest == s
  {
    var f, rest := DecodeFrame(s).frame, DecodeFrame(s).rest;
    Big32Back(s[..4]);
    assert s == s[..4] + [s[4]] + s[HEADER..];
    assert s[HEADER..] == f.payload + rest;
  }

  // Streams of frames.

  function EncodeAll(fs: seq<Frame>): seq<byte>
    requires forall f :: f in fs ==> Writable(f)
  {
    if |fs| == 0 then [] else EncodeFrame(fs[0]).bytes + EncodeAll(fs[1..])
  }

  /** The frames read until the stream ends or one is refused, and what is left then. */
  function DecodeAll(s: seq<byte>): (r: (seq<Frame>, seq<byte>))
    ensures forall f :: f in r.0 ==> Writable(f)
    decreases |s|
  {
    var d := DecodeFrame(s);
    if d.Failed? then ([], s)
    else
      var (fs, rest) := DecodeAll(d.rest);
      ([d.frame] + fs, rest)
  }

  /** The codec is a bijection between streams of frames and the byte streams that are
      read to their end: one direction, */
  lemma {:induction false} StreamRoundTrip(fs: seq<Frame>)
    requires forall f :: f in fs ==> Writable(f)
    ensures DecodeAll(EncodeAll(fs)) == (fs, [])
  {
    hide EncodeFrame, DecodeFrame;
    if |fs| > 0 {
      StreamRoundTrip(fs[1..]);
      DecodeEncoded(fs[0], EncodeAll(fs[1..]));
      assert DecodeAll(EncodeAll(fs)).0 == [fs[0]] + fs[1..] == fs;
    } else {
      NoFrame();
    }
  }

  lemma NoFrame()
    ensures DecodeFrame([]).Failed?
  {
  }

  /** and the other. */
  lemma {:induction false} StreamReencodes(s: seq<byte>)
    ensures EncodeAll(DecodeAll(s).0) + DecodeAll(s).1 == s
    decreases |s|
  {
    var d := DecodeFrame(s);
    if d.Got? {
      StreamReencodes(d.rest);
      EncodeDecoded(s);
      var (fs, rest) := DecodeAll(d.rest);
      assert ([d.frame] + fs)[1..] == fs;
    }
  }

  /** A byte stream the peer sends and the bytes sent back, on a connection whose
      writes may fail. */
  class Stream {
    var incoming: seq<byte>
    var written: seq<byte>
    const writable: bool

    constructor (incoming: seq<byte>, writable: bool)
      ensures this.incoming == incoming && this.written == [] && this.writable == writable
    {
      this.incoming, this.written, this.writable := incoming, [], writable;
    }

    /** Reads exactly n bytes, or all there are and fails. */
    method ReadFull(n: nat) returns (ok: bool, data: seq<byte>)
      modifies this`incoming
      ensures ok <==> n <= |old(incoming)|
      ensures if ok then data == old(incoming)[..n] && incoming == old(incoming)[n..] else incoming == []
    {
      if n <= |incoming| {
        data, incoming := incoming[..n], incoming[n..];
        return true, data;
      }
      incoming := [];
      return false, [];
    }

    /** One write: all of it or none. */
    method Write(data: seq<byte>) returns (ok: bool)
      modifies this`written
      ensures ok == writable && written == old(written) + if ok then data else []
    {
      if !writable {
        return false;
      }
      written := written + data;
      return true;
    }

    /** Reads one frame. The declared length is compared with the bound before any
        payload is read. */
    method Decode() returns (d: Decoded)
      modifies this`incoming
      ensures d == DecodeFrame(old(incoming)) && incoming == d.rest
    {
      var ok, header := ReadFull(HEADER);
      if !ok {
        return Failed(ShortHeader, incoming);
      }
      assert header[..4] == old(incoming)[..4];
      var declared := Uint32(header[..4]);
      if declared > MAX_PAYLOAD {
        return Failed(TooLarge, incoming);
      }
      var kind := header[4];
      if kind == KIND_RESERVED {
        return Failed(ReservedKind, incoming);
      }
      var full, payload := ReadFull(declared);
      if !full {
        return Failed(ShortPayload, incoming);
      }
      return Got(Frame(kind, payload), incoming);
    }

    /** Writes one frame as one write, through a buffer filled in place. */
    method Encode(f: Frame) returns (ok: bool, error: FrameError)
      modifies this`written
      ensures ok <==> writable && EncodeFrame(f).Bytes?
      ensures written == old(written) + if ok then EncodeFrame(f).bytes else []
      ensures !ok ==> error == if EncodeFrame(f).Bytes? then WriteFailed else EncodeFrame(f).error
    {
      hide Bytes4;
      error := WriteFailed;
      if |f.payload| > MAX_PAYLOAD {
        return false, TooLarge;
      }
      if f.kind == KIND_RESERVED {
        return false, ReservedKind;
      }
      var buf := new byte[HEADER + |f.payload|](_ => 0);
      var n := |f.payload|;
      var length := Bytes4(n);
      buf[0], buf[1], buf[2], buf[3] := length[0], length[1], length[2], length[3];
      buf[4] := f.kind;
      var i := 0;
      while i < n
        invariant 0 <= i <= n && written == old(written)
        invariant buf[..HEADER] == Bytes4(n) + [f.kind]
        invariant forall j :: 0 <= j < i ==> buf[HEADER + j] == f.payload[j]
      {
        buf[HEADER + i] := f.payload[i];
        i := i + 1;
      }
      assert buf[..] == Layout(f);
      ok := Write(buf[..]);
    }
  }
}
