/**
 The frame format of a structured stream (stream/stream.go): one flag byte, a
 big-endian 32-bit payload length, the payload. Encoding and decoding are given as
 functions on byte sequences; ByteIO.dfy proves the imperative writer and reader
 against them.
 */
module FrameCodec {
  import opened Prelude

  const FLAG_DATA: Byte := 0x0
  const FLAG_FINAL: Byte := 0x1
  const FLAG_ERROR: Byte := 0x2
  const FLAG_HEARTBEAT: Byte := 0x3

  const HEADER_SIZE: nat := 5

  datatype Frame = Frame(flag: Byte, payload: seq<Byte>)

  /** What one ReadFrame call finds at the front of the bytes left to read. */
  datatype Parsed =
    | Got(frame: Frame, rest: seq<Byte>)
    | AtEof
    | Truncated
    | TooLarge

  /** The frames a byte sequence holds, and how it ends. */
  datatype Decoded = Decoded(frames: seq<Frame>, end: Parsed)

  function PutUint32(n: nat): (r: seq<Byte>)
    requires n < TWO_32
    ensures |r| == 4
  {
    [n / 0x100_0000, n / 0x1_0000 % 0x100, n / 0x100 % 0x100, n % 0x100]
  }

  function Uint32(b: seq<Byte>): (n: nat)
    requires |b| == 4
    ensures n < TWO_32
  {
    var b0: int, b1: int, b2: int := b[0], b[1], b[2];
    ((b0 * 0x100 + b1) * 0x100 + b2) * 0x100 + b[3]
  }

  lemma Uint32RoundTrip(n: nat)
    requires n < TWO_32
    ensures Uint32(PutUint32(n)) == n
  {
    assert n / 0x1_0000 == n / 0x100 / 0x100;
    assert n / 0x100_0000 == n / 0x1_0000 / 0x100;
  }

  lemma PutUint32RoundTrip(b: seq<Byte>)
    requires |b| == 4
    ensures PutUint32(Uint32(b)) == b
  {
    var b0: int, b1: int := b[0], b[1];
    var hi: int := (b0 * 0x100 + b1) * 0x100 + b[2];
    var n := hi * 0x100 + b[3];
    assert n / 0x100 == hi && n % 0x100 == b[3];
    assert hi / 0x100 == b0 * 0x100 + b1 && hi % 0x100 == b[2];
    assert n / 0x1_0000 == n / 0x100 / 0x100;
    assert n / 0x100_0000 == n / 0x1_0000 / 0x100;
  }

  /** The header WriteFrame sends: the length is truncated to 32 bits. */
  function Header(flag: Byte, length: nat): (h: seq<Byte>)
    ensures |h| == HEADER_SIZE
  {
    [flag] + PutUint32(length % TWO_32)
  }

  function Encode(f: Frame): seq<Byte> {
    Header(f.flag, |f.payload|) + f.payload
  }

  /** The layout of docs/streaming.md: the flag, the payload length with its most significant byte first, the payload. */
  lemma WireFormat(f: Frame)
    requires Fits(f)
    ensures var b := Encode(f);
            && |b| == 5 + |f.payload| && b[0] == f.flag && b[5..] == f.payload
            && 0x100_0000 * (b[1] as int) + 0x1_0000 * (b[2] as int) + 0x100 * (b[3] as int) + b[4] as int == |f.payload|
  {
    Uint32RoundTrip(|f.payload|);
    assert Encode(f)[1..HEADER_SIZE] == PutUint32(|f.payload|);
  }

  /** A heartbeat is these five bytes. */
  lemma HeartbeatBytes()
    ensures Encode(Frame(FLAG_HEARTBEAT, [])) == [0x3, 0, 0, 0, 0]
  {
  }

  function EncodeAll(frames: seq<Frame>): seq<Byte> {
    if frames == [] then [] else EncodeAll(frames[..|frames| - 1]) + Encode(frames[|frames| - 1])
  }

  /** The payload length survives the 32-bit length field. */
  predicate Fits(f: Frame) {
    |f.payload| < TWO_32
  }

  /** A reader whose limit is `limit` accepts the frame; a limit of zero or less is no limit. */
  predicate Within(f: Frame, limit: int) {
    Fits(f) && (limit <= 0 || |f.payload| <= limit)
  }

  predicate AllFit(frames: seq<Frame>) {
    forall i :: 0 <= i < |frames| ==> Fits(frames[i])
  }

  predicate AllWithin(frames: seq<Frame>, limit: int) {
    forall i :: 0 <= i < |frames| ==> Within(frames[i], limit)
  }

  function ParseFrame(data: seq<Byte>, limit: int): Parsed {
    if data == [] then AtEof
    else if |data| < HEADER_SIZE then Truncated
    else
      var length := Uint32(data[1..HEADER_SIZE]);
      if limit > 0 && length > limit then TooLarge
      else if |data| < HEADER_SIZE + length then Truncated
      else Got(Frame(data[0], data[HEADER_SIZE..HEADER_SIZE + length]), data[HEADER_SIZE + length..])
  }

  /** Repeated ReadFrame, up to the first call that returns no frame. */
  function Decode(data: seq<Byte>, limit: int): (d: Decoded)
    ensures !d.end.Got?
    decreases |data|
  {
    match ParseFrame(data, limit)
    case Got(f, rest) =>
      var d := Decode(rest, limit);
      Decoded([f] + d.frames, d.end)
    case end => Decoded([], end)
  }

  // ---- one frame ----

  lemma HeaderReencodes(data: seq<Byte>)
    requires |data| >= HEADER_SIZE
    ensures Header(data[0], Uint32(data[1..HEADER_SIZE])) == data[..HEADER_SIZE]
  {
    PutUint32RoundTrip(data[1..HEADER_SIZE]);
  }

  /** What a successful parse returns re-encodes to exactly the bytes it consumed. */
  lemma ParsedReencodes(data: seq<Byte>, limit: int)
    requires ParseFrame(data, limit).Got?
    ensures var p := ParseFrame(data, limit);
            Encode(p.frame) + p.rest == data && Within(p.frame, limit)
            && |p.rest| + HEADER_SIZE <= |data|
  {
    var p := ParseFrame(data, limit);
    HeaderReencodes(data);
    assert data == data[..HEADER_SIZE] + (p.frame.payload + p.rest);
    assert Encode(p.frame) + p.rest == data[..HEADER_SIZE] + (p.frame.payload + p.rest);
  }

  /** A reader gets a frame back, and nothing of what follows it, exactly when the frame is within its limit. */
  lemma FrameRoundTrip(f: Frame, tail: seq<Byte>, limit: int)
    ensures ParseFrame(Encode(f) + tail, limit) == Got(f, tail) <==> Within(f, limit)
  {
    var data := Encode(f) + tail;
    var length := |f.payload| % TWO_32;
    assert data[1..HEADER_SIZE] == PutUint32(length);
    Uint32RoundTrip(length);
    if Fits(f) {
      assert data[HEADER_SIZE..HEADER_SIZE + length] == f.payload;
      assert data[HEADER_SIZE + length..] == tail;
    }
  }

  /** A frame that fits its length field but not the limit stops the reader. */
  lemma OversizeFrame(f: Frame, tail: seq<Byte>, limit: int)
    requires Fits(f) && !Within(f, limit)
    ensures ParseFrame(Encode(f) + tail, limit) == TooLarge
  {
    assert (Encode(f) + tail)[1..HEADER_SIZE] == PutUint32(|f.payload|);
    Uint32RoundTrip(|f.payload|);
  }

  /** A proper prefix of a frame holds no frame: it is the end of the input at a boundary, or a truncation. */
  lemma PartialFrame(f: Frame, n: nat, limit: int)
    requires Fits(f) && n < |Encode(f)|
    ensures var p := ParseFrame(Encode(f)[..n], limit);
            p == (if n == 0 then AtEof
                  else if n >= HEADER_SIZE && !Within(f, limit) then TooLarge
                  else Truncated)
  {
    if n >= HEADER_SIZE {
      assert Encode(f)[..n][1..HEADER_SIZE] == PutUint32(|f.payload|);
      Uint32RoundTrip(|f.payload|);
    }
  }

  /** ParseFrame in terms of the header and what follows it. */
  lemma ParseSplit(data: seq<Byte>, header: seq<Byte>, rest: seq<Byte>, limit: int)
    requires |header| == HEADER_SIZE && data == header + rest
    ensures var length := Uint32(header[1..]);
            ParseFrame(data, limit) ==
              if limit > 0 && length > limit then TooLarge
              else if |rest| < length then Truncated
              else Got(Frame(header[0], rest[..length]), rest[length..])
  {
  }

  // ---- sequences of frames ----

  lemma EncodeAllFront(f: Frame, frames: seq<Frame>)
    ensures EncodeAll([f] + frames) == Encode(f) + EncodeAll(frames)
  {
    if frames != [] {
      var front := frames[..|frames| - 1];
      assert ([f] + frames)[..|frames|] == [f] + front;
      EncodeAllFront(f, front);
    }
  }

  lemma EncodeAllConcat(a: seq<Frame>, b: seq<Frame>)
    ensures EncodeAll(a + b) == EncodeAll(a) + EncodeAll(b)
  {
    if b == [] {
      assert a + b == a;
    } else {
      assert (a + b)[..|a + b| - 1] == a + b[..|b| - 1];
      EncodeAllConcat(a, b[..|b| - 1]);
    }
  }

  lemma DecodeStep(f: Frame, tail: seq<Byte>, limit: int)
    requires Within(f, limit)
    ensures Decode(Encode(f) + tail, limit)
         == Decoded([f] + Decode(tail, limit).frames, Decode(tail, limit).end)
  {
    FrameRoundTrip(f, tail, limit);
  }

  /** Frames that fit, followed by any bytes, decode to those frames and then whatever the bytes hold. */
  lemma {:induction false} DecodeAppend(frames: seq<Frame>, tail: seq<Byte>, limit: int)
    requires AllWithin(frames, limit)
    ensures Decode(EncodeAll(frames) + tail, limit)
         == Decoded(frames + Decode(tail, limit).frames, Decode(tail, limit).end)
    decreases |frames|
  {
    if frames == [] {
      assert EncodeAll(frames) + tail == tail;
    } else {
      var front, f := frames[..|frames| - 1], frames[|frames| - 1];
      var after := Encode(f) + tail;
      assert EncodeAll(frames) + tail == EncodeAll(front) + after;
      DecodeAppend(front, after, limit);
      DecodeStep(f, tail, limit);
      LastInFront(frames, Decode(tail, limit).frames);
    }
  }

  /** Round trip: a list of frames within the limit decodes to itself and then io.EOF. */
  lemma DecodeRoundTrip(frames: seq<Frame>, limit: int)
    requires AllWithin(frames, limit)
    ensures Decode(EncodeAll(frames), limit) == Decoded(frames, AtEof)
  {
    DecodeAppend(frames, [], limit);
    assert EncodeAll(frames) + [] == EncodeAll(frames);
  }

  /** Different lists of frames have different encodings. */
  lemma EncodeAllInjective(a: seq<Frame>, b: seq<Frame>)
    requires AllFit(a) && AllFit(b) && EncodeAll(a) == EncodeAll(b)
    ensures a == b
  {
    DecodeRoundTrip(a, 0);
    DecodeRoundTrip(b, 0);
  }

  /** What is decoded re-encodes to a prefix of the input, and to all of it when the input ends at a boundary. */
  lemma {:induction false} DecodedReencodes(data: seq<Byte>, limit: int)
    ensures var d := Decode(data, limit);
            && AllWithin(d.frames, limit)
            && EncodeAll(d.frames) <= data
            && (d.end.AtEof? <==> EncodeAll(d.frames) == data)
    decreases |data|
  {
    var p := ParseFrame(data, limit);
    if p.Got? {
      ParsedReencodes(data, limit);
      DecodedReencodes(p.rest, limit);
      EncodeAllFront(p.frame, Decode(p.rest, limit).frames);
    }
  }

  /** How many of `frames` lie wholly within the first `n` bytes of their encoding. */
  function WholeFrames(frames: seq<Frame>, n: nat): (k: nat)
    ensures k <= |frames|
    ensures |EncodeAll(frames[..k])| <= n
    ensures k < |frames| ==> n < |EncodeAll(frames[..k + 1])|
    decreases |frames|
  {
    if |EncodeAll(frames)| <= n then
      assert frames[..|frames|] == frames;
      |frames|
    else
      var front := frames[..|frames| - 1];
      var k := WholeFrames(front, n);
      assert front[..k] == frames[..k];
      assert k < |front| ==> front[..k + 1] == frames[..k + 1];
      assert k == |front| ==> frames[..k + 1] == frames && front[..k] == front;
      k
  }

  /**
   Truncation: the first `n` bytes of an encoding decode to exactly the wholly contained
   frames, and then to io.EOF when the cut is at a frame boundary and to
   io.ErrUnexpectedEOF anywhere else.
   */
  lemma DecodeTruncated(frames: seq<Frame>, n: nat, limit: int)
    requires AllWithin(frames, limit) && n <= |EncodeAll(frames)|
    ensures var k := WholeFrames(frames, n);
            Decode(EncodeAll(frames)[..n], limit)
            == Decoded(frames[..k], if |EncodeAll(frames[..k])| == n then AtEof else Truncated)
  {
    var k := WholeFrames(frames, n);
    var whole := EncodeAll(frames[..k]);
    if k == |frames| {
      assert frames[..k] == frames;
      assert EncodeAll(frames)[..n] == whole;
      DecodeRoundTrip(frames, limit);
    } else {
      var f, m := frames[k], n - |whole|;
      CutInside(frames, k, n);
      PartialFrame(f, m, limit);
      DecodeAppend(frames[..k], Encode(f)[..m], limit);
    }
  }

  /** A cut inside frame `k` leaves the frames before it and a piece of that frame. */
  lemma CutInside(frames: seq<Frame>, k: nat, n: nat)
    requires k < |frames|
    requires |EncodeAll(frames[..k])| <= n < |EncodeAll(frames[..k + 1])|
    ensures n <= |EncodeAll(frames)|
    ensures n - |EncodeAll(frames[..k])| < |Encode(frames[k])|
    ensures EncodeAll(frames)[..n] == EncodeAll(frames[..k]) + Encode(frames[k])[..n - |EncodeAll(frames[..k])|]
  {
    var upTo := frames[..k + 1];
    assert upTo[..k] == frames[..k];
    assert upTo + frames[k + 1..] == frames;
    EncodeAllConcat(upTo, frames[k + 1..]);
  }

  /**
   Any prefix of a wire that holds complete frames and then part of one more decodes,
   under any limit, to a prefix of those frames.
   */
  lemma {:induction false} DecodePrefix(frames: seq<Frame>, torn: Frame, data: seq<Byte>, limit: int)
    requires AllFit(frames) && Fits(torn)
    requires data <= EncodeAll(frames) + Encode(torn) && |data| < |EncodeAll(frames)| + |Encode(torn)|
    ensures Decode(data, limit).frames <= frames
    decreases |frames|
  {
    if frames == [] {
      assert EncodeAll(frames) + Encode(torn) == Encode(torn);
      assert data == Encode(torn)[..|data|];
      PartialFrame(torn, |data|, limit);
    } else {
      var f, more := frames[0], frames[1..];
      var after := EncodeAll(more) + Encode(torn);
      assert EncodeAll(frames) + Encode(torn) == Encode(f) + after by {
        assert frames == [f] + more;
        EncodeAllFront(f, more);
      }
      if |data| < |Encode(f)| {
        assert data == Encode(f)[..|data|];
        PartialFrame(f, |data|, limit);
      } else {
        var tail := data[|Encode(f)|..];
        assert data == Encode(f) + tail && tail <= after;
        if Within(f, limit) {
          DecodePrefix(more, torn, tail, limit);
          DecodeStep(f, tail, limit);
        } else {
          OversizeFrame(f, tail, limit);
        }
      }
    }
  }
}
