/**
 Length-prefixed framing: a 4-byte little-endian length, then the payload.
 The format is parsed twice, by `decode` over a growing buffer and by the blocking loop of
 `handleClient`; both are proved against the one specification `Parse`.
 */
module MessageFramer {

  type Byte = b: int | 0 <= b < 256

  const U32: int := 0x1_0000_0000
  const HEADER_SIZE: int := 4
  const MAX_MESSAGE_SIZE: int := 1024 * 1024

  // ---- The header codec ----

  function ReadU32LE(p: seq<Byte>): (v: int)
    requires |p| == HEADER_SIZE
    ensures 0 <= v < U32
  {
    var b0: int, b1: int, b2: int, b3: int := p[0], p[1], p[2], p[3];
    b0 + 0x100 * (b1 + 0x100 * (b2 + 0x100 * b3))
  }

  function WriteU32LE(v: int): (p: seq<Byte>)
    requires 0 <= v < U32
    ensures |p| == HEADER_SIZE
  {
    [v % 0x100, v / 0x100 % 0x100, v / 0x100 / 0x100 % 0x100, v / 0x100 / 0x100 / 0x100]
  }

  lemma ReadWrite(v: int)
    requires 0 <= v < U32
    ensures ReadU32LE(WriteU32LE(v)) == v
  {
  }

  lemma LowByte(b: Byte, high: int)
    requires high >= 0
    ensures (b + 0x100 * high) % 0x100 == b && (b + 0x100 * high) / 0x100 == high
  {
  }

  lemma WriteRead(p: seq<Byte>)
    requires |p| == HEADER_SIZE
    ensures WriteU32LE(ReadU32LE(p)) == p
  {
    var b1: int, b2: int, b3: int := p[1], p[2], p[3];
    LowByte(p[0], b1 + 0x100 * (b2 + 0x100 * b3));
    LowByte(p[1], b2 + 0x100 * b3);
    LowByte(p[2], b3);
  }

  function ByteOf(a: bv8): Byte {
    a as int
  }

  /** Bytes shifted into place and or-ed make up the positional value. */
  lemma ValueOfOr(a: bv8, b: bv8, c: bv8, d: bv8)
    ensures ((a as bv32) | ((b as bv32) << 8) | ((c as bv32) << 16) | ((d as bv32) << 24)) as int
         == (a as int) + 0x100 * (b as int) + 0x1_0000 * (c as int) + 0x100_0000 * (d as int)
  {
  }

  lemma ReadIsPositional(a: Byte, b: Byte, c: Byte, d: Byte, v: int)
    requires v == a + 0x100 * b + 0x1_0000 * c + 0x100_0000 * d
    ensures ReadU32LE([a, b, c, d]) == v
  {
  }

  /** Or-ing the shifted bytes is what `ReadU32LE` computes. */
  lemma ReadIsOrOfShifts(a: bv8, b: bv8, c: bv8, d: bv8, v: bv32)
    requires v == (a as bv32) | ((b as bv32) << 8) | ((c as bv32) << 16) | ((d as bv32) << 24)
    ensures ReadU32LE([ByteOf(a), ByteOf(b), ByteOf(c), ByteOf(d)]) == v as int
  {
    ValueOfOr(a, b, c, d);
    ReadIsPositional(ByteOf(a), ByteOf(b), ByteOf(c), ByteOf(d), v as int);
  }

  /** The byte at a shift of a word, as `writeU32LE` masks it out. */
  function Masked(v: bv32, shift: bv6): bv8
    requires shift < 32
  {
    ((v >> shift) & 0xFF) as bv8
  }

  lemma MaskedMakeUp(v: bv32, a: bv8, b: bv8, c: bv8, d: bv8)
    requires a == Masked(v, 0) && b == Masked(v, 8) && c == Masked(v, 16) && d == Masked(v, 24)
    ensures v == (a as bv32) | ((b as bv32) << 8) | ((c as bv32) << 16) | ((d as bv32) << 24)
  {
  }

  /** Shifting and masking is what `WriteU32LE` computes. */
  lemma WriteIsShiftAndMask(v: bv32)
    ensures 0 <= v as int < U32
    ensures WriteU32LE(v as int)
         == [ByteOf(Masked(v, 0)), ByteOf(Masked(v, 8)), ByteOf(Masked(v, 16)), ByteOf(Masked(v, 24))]
  {
    var a, b, c, d := Masked(v, 0), Masked(v, 8), Masked(v, 16), Masked(v, 24);
    MaskedMakeUp(v, a, b, c, d);
    ReadIsOrOfShifts(a, b, c, d, v);
    WriteRead([ByteOf(a), ByteOf(b), ByteOf(c), ByteOf(d)]);
  }

  // ---- The specification ----

  type Payload = seq<Byte>

  datatype Outcome = NeedMore | TooLarge | Message(payload: Payload)

  /** What the front of a byte sequence holds. */
  function First(s: seq<Byte>): (r: Outcome)
    ensures r.Message? ==> HEADER_SIZE + |r.payload| <= |s|
  {
    if |s| < HEADER_SIZE then NeedMore
    else
      var len := ReadU32LE(s[..HEADER_SIZE]);
      if len > MAX_MESSAGE_SIZE then TooLarge
      else if |s| < HEADER_SIZE + len then NeedMore
      else Message(s[HEADER_SIZE..HEADER_SIZE + len])
  }

  datatype Parsed = Parsed(payloads: seq<Payload>, rest: seq<Byte>, stop: Outcome)

  function Prepend(ps: seq<Payload>, r: Parsed): Parsed {
    Parsed(ps + r.payloads, r.rest, r.stop)
  }

  /** All the messages of a stream, the bytes left over, and why parsing stopped there. */
  function Parse(s: seq<Byte>): Parsed
    decreases |s|
  {
    match First(s)
    case Message(p) => Prepend([p], Parse(s[HEADER_SIZE + |p|..]))
    case stop => Parsed([], s, stop)
  }

  /** The length field is 32 bits wide, and only that many bytes of the payload are copied. */
  function EncodedLen(p: Payload): (n: int)
    ensures 0 <= n < U32 && n <= |p|
  {
    |p| % U32
  }

  function Encode(p: Payload): (f: seq<Byte>)
    ensures |f| == HEADER_SIZE + EncodedLen(p)
  {
    WriteU32LE(EncodedLen(p)) + p[..EncodedLen(p)]
  }

  function EncodeAll(ps: seq<Payload>): seq<Byte> {
    if ps == [] then [] else Encode(ps[0]) + EncodeAll(ps[1..])
  }

  predicate Fit(ps: seq<Payload>) {
    forall i :: 0 <= i < |ps| ==> |ps[i]| <= MAX_MESSAGE_SIZE
  }

  // ---- Encoding and parsing are inverse ----

  lemma FirstOfEncode(p: Payload, rest: seq<Byte>)
    requires |p| <= MAX_MESSAGE_SIZE
    ensures First(Encode(p) + rest) == Message(p)
    ensures (Encode(p) + rest)[HEADER_SIZE + |p|..] == rest
  {
    var s := Encode(p) + rest;
    assert s[..HEADER_SIZE] == WriteU32LE(|p|);
    ReadWrite(|p|);
    assert s[HEADER_SIZE..HEADER_SIZE + |p|] == p;
  }

  /** Whatever is recognised was the encoding of the payload, and nothing else is removed. */
  lemma FirstIsEncode(s: seq<Byte>)
    requires First(s).Message?
    ensures var p := First(s).payload;
            |p| <= MAX_MESSAGE_SIZE && s == Encode(p) + s[HEADER_SIZE + |p|..]
  {
    WriteRead(s[..HEADER_SIZE]);
  }

  lemma ParseOfEncode(p: Payload, rest: seq<Byte>)
    requires |p| <= MAX_MESSAGE_SIZE
    ensures Parse(Encode(p) + rest) == Prepend([p], Parse(rest))
  {
    FirstOfEncode(p, rest);
  }

  lemma EncodeAllCons(p: Payload, ps: seq<Payload>, rest: seq<Byte>)
    ensures EncodeAll([p] + ps) + rest == Encode(p) + (EncodeAll(ps) + rest)
  {
    assert ([p] + ps)[1..] == ps;
  }

  lemma PrependTwice(a: seq<Payload>, b: seq<Payload>, r: Parsed)
    ensures Prepend(a, Prepend(b, r)) == Prepend(a + b, r)
  {
    assert a + (b + r.payloads) == a + b + r.payloads;
  }

  lemma PrependNothing(r: Parsed)
    ensures Prepend([], r) == r
  {
    assert [] + r.payloads == r.payloads;
  }

  /** Taking the message at the front of what is left to parse. */
  lemma TakeNext(whole: Parsed, taken: seq<Payload>, s: seq<Byte>)
    requires First(s).Message? && whole == Prepend(taken, Parse(s))
    ensures var p := First(s).payload;
            && whole == Prepend(taken + [p], Parse(s[HEADER_SIZE + |p|..]))
            && taken + [p] <= whole.payloads
  {
    PrependTwice(taken, [First(s).payload], Parse(s[HEADER_SIZE + |First(s).payload|..]));
  }

  /** Nothing is left to take. */
  lemma TakeNone(whole: Parsed, taken: seq<Payload>, s: seq<Byte>)
    requires !First(s).Message? && whole == Prepend(taken, Parse(s))
    ensures whole == Parsed(taken, s, First(s))
  {
    assert taken + [] == taken;
  }

  /** Framing is transparent: the encoded payloads come out, and parsing goes on with what follows. */
  lemma {:induction false} ParseOfEncodeAll(ps: seq<Payload>, rest: seq<Byte>)
    requires Fit(ps)
    ensures Parse(EncodeAll(ps) + rest) == Prepend(ps, Parse(rest))
  {
    if ps == [] {
      assert EncodeAll(ps) + rest == rest;
      assert ps + Parse(rest).payloads == Parse(rest).payloads;
    } else {
      var p, more := ps[0], ps[1..];
      assert ps == [p] + more;
      EncodeAllCons(p, more, rest);
      ParseOfEncode(p, EncodeAll(more) + rest);
      ParseOfEncodeAll(more, rest);
      PrependTwice([p], more, Parse(rest));
    }
  }

  /** Every stream is the encoding of what was parsed, then a rest that holds no further message. */
  lemma {:induction false} ParseIsEncodeAll(s: seq<Byte>)
    ensures Fit(Parse(s).payloads) && s == EncodeAll(Parse(s).payloads) + Parse(s).rest
    ensures First(Parse(s).rest) == Parse(s).stop && !Parse(s).stop.Message?
    decreases |s|
  {
    if First(s).Message? {
      var p := First(s).payload;
      var tail := s[HEADER_SIZE + |p|..];
      FirstIsEncode(s);
      ParseIsEncodeAll(tail);
      EncodeAllCons(p, Parse(tail).payloads, Parse(tail).rest);
    } else {
      assert EncodeAll([]) + s == s;
    }
  }

  /** The parse is the only way to read a stream as encoded messages and a rest without one. */
  lemma ParseUnique(s: seq<Byte>, ps: seq<Payload>, rest: seq<Byte>)
    requires Fit(ps) && s == EncodeAll(ps) + rest && !First(rest).Message?
    ensures Parse(s) == Parsed(ps, rest, First(rest))
  {
    ParseOfEncodeAll(ps, rest);
  }

  /** The bijection on lists of payloads: all of them come back and nothing is left. */
  lemma RoundTrip(ps: seq<Payload>)
    requires Fit(ps)
    ensures Parse(EncodeAll(ps)) == Parsed(ps, [], NeedMore)
  {
    assert EncodeAll(ps) + [] == EncodeAll(ps);
    ParseUnique(EncodeAll(ps), ps, []);
  }

  /** `encode` checks no limit, so a payload survives exactly when it is at most 1 MiB. */
  lemma RoundTripIff(p: Payload)
    ensures Parse(Encode(p)).payloads == [p] <==> |p| <= 0x10_0000
  {
    if |p| <= MAX_MESSAGE_SIZE {
      RoundTrip([p]);
      assert EncodeAll([p]) == Encode(p);
    } else {
      var n := EncodedLen(p);
      assert Encode(p)[..HEADER_SIZE] == WriteU32LE(n);
      ReadWrite(n);
      if n <= MAX_MESSAGE_SIZE {
        assert |First(Encode(p)).payload| == n < |p|;
        assert Parse(Encode(p)).payloads[0] != p;
      }
    }
  }

  /** A later arrival never changes what an earlier prefix of the stream was parsed to. */
  lemma ParseAppend(a: seq<Byte>, b: seq<Byte>)
    ensures Parse(a + b) == Prepend(Parse(a).payloads, Parse(Parse(a).rest + b))
  {
    ParseIsEncodeAll(a);
    var r := Parse(a);
    Regroup(EncodeAll(r.payloads), r.rest, b);
    ParseOfEncodeAll(r.payloads, r.rest + b);
  }

  lemma {:induction false} EncodeAllSnoc(ps: seq<Payload>, p: Payload)
    ensures EncodeAll(ps + [p]) == EncodeAll(ps) + Encode(p)
  {
    if ps == [] {
      assert [] + [p] == [p] && [p][1..] == [];
      assert Encode(p) + [] == Encode(p) == [] + Encode(p);
    } else {
      assert (ps + [p])[1..] == ps[1..] + [p];
      EncodeAllSnoc(ps[1..], p);
      Regroup(Encode(ps[0]), EncodeAll(ps[1..]), Encode(p));
    }
  }

  lemma Regroup(x: seq<Byte>, y: seq<Byte>, z: seq<Byte>)
    ensures (x + y) + z == x + (y + z)
  {
  }

  /** Once a header is oversized, no further bytes revive the stream. */
  lemma TooLargeIsFinal(rest: seq<Byte>, b: seq<Byte>)
    requires First(rest) == TooLarge
    ensures Parse(rest + b) == Parsed([], rest + b, TooLarge)
  {
    assert (rest + b)[..HEADER_SIZE] == rest[..HEADER_SIZE];
  }

  // ---- Encoding into a byte array ----

  method WriteU32(p: array<Byte>, v: int)
    requires p.Length >= HEADER_SIZE && 0 <= v < U32
    modifies p
    ensures p[..HEADER_SIZE] == WriteU32LE(v)
    ensures p[HEADER_SIZE..] == old(p[HEADER_SIZE..])
  {
    p[0] := v % 0x100;
    p[1] := v / 0x100 % 0x100;
    p[2] := v / 0x100 / 0x100 % 0x100;
    p[3] := v / 0x100 / 0x100 / 0x100;
  }

  method EncodeFrame(payload: Payload) returns (frame: array<Byte>)
    ensures fresh(frame) && frame[..] == Encode(payload)
  {
    var len := |payload| % U32;
    frame := new Byte[HEADER_SIZE + len];
    WriteU32(frame, len);
    for i := 0 to len
      invariant frame[..HEADER_SIZE] == WriteU32LE(len)
      invariant frame[HEADER_SIZE..HEADER_SIZE + i] == payload[..i]
    {
      frame[HEADER_SIZE + i] := payload[i];
    }
    assert frame[..] == frame[..HEADER_SIZE] + frame[HEADER_SIZE..];
  }

  // ---- The incremental parser ----

  class ByteBuffer {
    var bytes: seq<Byte>

    constructor ()
      ensures bytes == []
    {
      bytes := [];
    }

    /** A refusal leaves the buffer alone; a message leaves exactly the bytes behind its encoding. */
    method Decode() returns (r: Outcome)
      modifies this
      ensures r == First(old(bytes))
      ensures r.Message? ==> |r.payload| <= MAX_MESSAGE_SIZE && old(bytes) == Encode(r.payload) + bytes
      ensures r.Message? ==> bytes == old(bytes)[HEADER_SIZE + |r.payload|..]
      ensures !r.Message? ==> bytes == old(bytes)
      ensures r.TooLarge? <==> |old(bytes)| >= 4 && ReadU32LE(old(bytes)[..4]) > 0x10_0000
    {
      if |bytes| < HEADER_SIZE {
        return NeedMore;
      }
      var payloadLen := ReadU32LE(bytes[..HEADER_SIZE]);
      if payloadLen > MAX_MESSAGE_SIZE {
        return TooLarge;
      }
      var totalNeeded := HEADER_SIZE + payloadLen;
      if |bytes| < totalNeeded {
        return NeedMore;
      }
      r := Message(bytes[HEADER_SIZE..totalNeeded]);
      FirstIsEncode(bytes);
      bytes := bytes[totalNeeded..];
    }

    /** Decoding until nothing more comes out. */
    method Drain() returns (payloads: seq<Payload>, stop: Outcome)
      modifies this
      ensures Parse(old(bytes)) == Parsed(payloads, bytes, stop)
    {
      ghost var whole := Parse(bytes);
      payloads := [];
      PrependNothing(whole);
      ghost var before := bytes;
      stop := Decode();
      while stop.Message?
        invariant stop == First(before) && whole == Prepend(payloads, Parse(before))
        invariant bytes == if stop.Message? then before[HEADER_SIZE + |stop.payload|..] else before
        decreases |before|
      {
        TakeNext(whole, payloads, before);
        payloads := payloads + [stop.payload];
        before := bytes;
        stop := Decode();
      }
      TakeNone(whole, payloads, before);
    }
  }

  function Concat(chunks: seq<seq<Byte>>): seq<Byte> {
    if chunks == [] then [] else chunks[0] + Concat(chunks[1..])
  }

  lemma {:induction false} ConcatAppend(a: seq<seq<Byte>>, b: seq<seq<Byte>>)
    ensures Concat(a + b) == Concat(a) + Concat(b)
  {
    if a == [] {
      assert a + b == b;
    } else {
      assert (a + b)[1..] == a[1..] + b;
      ConcatAppend(a[1..], b);
    }
  }

  /** Feeding `decode` chunk by chunk, up to the exception, finds the messages of the whole stream. */
  method FeedChunks(chunks: seq<seq<Byte>>) returns (payloads: seq<Payload>, stop: Outcome)
    ensures payloads == Parse(Concat(chunks)).payloads
    ensures stop == Parse(Concat(chunks)).stop
  {
    var buffer := new ByteBuffer();
    payloads, stop := [], NeedMore;
    var i := 0;
    while i < |chunks| && stop != TooLarge
      invariant 0 <= i <= |chunks|
      invariant Parse(Concat(chunks[..i])) == Parsed(payloads, buffer.bytes, stop)
      decreases |chunks| - i
    {
      assert chunks[..i + 1] == chunks[..i] + [chunks[i]];
      ConcatAppend(chunks[..i], [chunks[i]]);
      assert Concat([chunks[i]]) == chunks[i] + [] == chunks[i];
      ParseAppend(Concat(chunks[..i]), chunks[i]);
      buffer.bytes := buffer.bytes + chunks[i];
      var more;
      more, stop := buffer.Drain();
      payloads := payloads + more;
      i := i + 1;
    }
    assert chunks == chunks[..i] + chunks[i..];
    ConcatAppend(chunks[..i], chunks[i..]);
    ParseAppend(Concat(chunks[..i]), Concat(chunks[i..]));
    ParseIsEncodeAll(Concat(chunks[..i]));
    if stop == TooLarge {
      TooLargeIsFinal(buffer.bytes, Concat(chunks[i..]));
    } else {
      assert chunks[i..] == [] && buffer.bytes + [] == buffer.bytes;
      assert Concat(chunks[..i]) + [] == Concat(chunks[..i]);
    }
  }
}
