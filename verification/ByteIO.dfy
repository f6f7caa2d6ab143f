/**
 Readers and writers that misbehave in every way Go's io contracts allow, and the frame
 writer and reader of stream/stream.go on top of them.
 */
module ByteIO {
  import opened Prelude
  import opened FrameCodec

  // ---- io.Writer ----

  /**
   A writer and the bytes it has taken. With a fuse of `n` it takes `n` more bytes and fails:
   in the write that would take more than that or, unless it is `late`, already in the write
   that takes the last of them. A failed writer takes nothing more.
   */
  datatype Sink = Sink(wire: seq<Byte>, fuse: Option<nat>, late: bool, broken: bool)

  predicate Blows(s: Sink, size: nat) {
    s.fuse.Some? && (s.fuse.value < size || (s.fuse.value == size && !s.late))
  }

  function Write(s: Sink, p: seq<Byte>): (r: (Sink, bool))
    ensures r.1 <==> !r.0.broken
    ensures s.wire <= r.0.wire <= s.wire + p
    ensures r.1 ==> r.0.wire == s.wire + p
    ensures s.broken ==> r.0 == s
  {
    if s.broken then (s, false)
    else if Blows(s, |p|) then
      (s.(wire := s.wire + p[..s.fuse.value], broken := true), false)
    else
      (s.(wire := s.wire + p, fuse := if s.fuse.Some? then Some(s.fuse.value - |p|) else None), true)
  }

  function WriteAll(s: Sink, chunks: seq<seq<Byte>>): Sink
    decreases |chunks|
  {
    if chunks == [] then s else WriteAll(Write(s, chunks[0]).0, chunks[1..])
  }

  function Flatten(chunks: seq<seq<Byte>>): seq<Byte> {
    if chunks == [] then [] else chunks[0] + Flatten(chunks[1..])
  }

  lemma {:induction false} WritesSucceed(s: Sink, chunks: seq<seq<Byte>>)
    requires !s.broken && s.fuse.Some?
    requires |Flatten(chunks)| < s.fuse.value || (s.late && |Flatten(chunks)| == s.fuse.value)
    ensures WriteAll(s, chunks) ==
              s.(wire := s.wire + Flatten(chunks), fuse := Some(s.fuse.value - |Flatten(chunks)|))
    decreases |chunks|
  {
    if chunks == [] {
      assert s.wire + [] == s.wire;
    } else {
      WritesSucceed(Write(s, chunks[0]).0, chunks[1..]);
      assert s.wire + chunks[0] + Flatten(chunks[1..]) == s.wire + Flatten(chunks);
    }
  }

  /** Every failure io.Writer allows: after any successful writes, one that takes any `k` of its bytes, none and all included. */
  lemma AnyFailure(chunks: seq<seq<Byte>>, p: seq<Byte>, k: nat) returns (s: Sink)
    requires k <= |p| && p != []
    ensures s.wire == [] && !s.broken
    ensures var t := WriteAll(s, chunks);
            && !t.broken && t.wire == Flatten(chunks)
            && !Write(t, p).1 && Write(t, p).0.wire == Flatten(chunks) + p[..k]
  {
    s := Sink([], Some(|Flatten(chunks)| + k), k < |p|, false);
    WritesSucceed(s, chunks);
  }

  /** The two writes of a frame. */
  function WriteFrameTo(s: Sink, f: Frame): Sink {
    var r := Write(s, Header(f.flag, |f.payload|));
    if r.1 && f.payload != [] then Write(r.0, f.payload).0 else r.0
  }

  class FrameWriter {
    var sink: Sink

    constructor (s: Sink)
      ensures sink == s
    {
      sink := s;
    }

    /** Success puts exactly the frame on the wire; failure leaves a prefix of it and a broken writer. */
    method WriteFrame(flag: Byte, payload: seq<Byte>) returns (ok: bool)
      modifies this
      ensures sink == WriteFrameTo(old(sink), Frame(flag, payload))
      ensures ok <==> !sink.broken
      ensures old(sink.broken) ==> sink == old(sink)
      ensures ok ==> sink.wire == old(sink.wire) + Encode(Frame(flag, payload))
      ensures old(sink.wire) <= sink.wire <= old(sink.wire) + Encode(Frame(flag, payload))
    {
      var header := new Byte[HEADER_SIZE];
      header[0] := flag;
      var length := PutUint32(|payload| % TWO_32);
      header[1], header[2], header[3], header[4] := length[0], length[1], length[2], length[3];
      assert header[..] == Header(flag, |payload|);
      ghost var start := sink.wire;

      var r := Write(sink, header[..]);
      sink, ok := r.0, r.1;
      assert start + header[..] <= start + Encode(Frame(flag, payload));
      if !ok {
        return;
      }
      if |payload| > 0 {
        r := Write(sink, payload);
        sink, ok := r.0, r.1;
        assert start + header[..] + payload == start + Encode(Frame(flag, payload));
      } else {
        assert header[..] == Encode(Frame(flag, payload));
      }
    }
  }

  // ---- io.Reader ----

  datatype IoError = EOF | UnexpectedEOF | Broken

  /** What comes with the bytes of one read. */
  datatype Companion = NoError | LastWithEof | Fails

  /** One read: at most `n` bytes, what comes with them, and whether the request's context ends before it. */
  datatype Event = Event(n: nat, with: Companion, cancels: bool)

  /**
   A reader: the bytes still to come, and a script that splits them into reads, inserts
   empty reads, returns io.EOF with the last bytes or after them, cancels the context,
   or fails. When the script is used up every read is served in full.
   */
  datatype Source = Source(rest: seq<Byte>, script: seq<Event>, broken: bool, cancelled: bool, lastWithEof: bool)

  datatype Chunk = Chunk(src: Source, got: seq<Byte>, err: Option<IoError>)

  /** The reader never fails: it delivers all its bytes and then io.EOF. */
  predicate Calm(s: Source) {
    !s.broken && forall i :: 0 <= i < |s.script| ==> !s.script[i].with.Fails?
  }

  function Work(s: Source): nat {
    |s.rest| + |s.script|
  }

  /** One Read call with room for `max` bytes. */
  function Read(s: Source, max: nat): (c: Chunk)
    ensures c.got + c.src.rest == s.rest && |c.got| <= max
    ensures c.src.broken ==> c.err.Some?
    ensures c.err.Some? ==> if c.src.broken then c.err.value.Broken? else c.err.value.EOF? && c.src.rest == []
    ensures s.rest == [] ==> c.err.Some?
    ensures Work(c.src) <= Work(s)
    ensures c.err.None? && max > 0 ==> Work(c.src) < Work(s)
  {
    if s.broken then Chunk(s, [], Some(Broken))
    else
      var e := if s.script == [] then Event(|s.rest|, NoError, false) else s.script[0];
      var k := Min(e.n, Min(max, |s.rest|));
      var eof := s.rest == [] || (e.with.LastWithEof? && k == |s.rest|);
      var fails := e.with.Fails?;
      Chunk(Source(s.rest[k..], if s.script == [] then [] else s.script[1..], fails, s.cancelled || e.cancels,
                   s.lastWithEof || (eof && !fails && k > 0)),
            s.rest[..k],
            if fails then Some(Broken) else if eof then Some(EOF) else None)
  }

  /** The bytes of `n` successive reads with room for `max` bytes each. */
  function ReadMany(s: Source, max: nat, n: nat): seq<seq<Byte>>
    decreases n
  {
    if n == 0 then [] else [Read(s, max).got] + ReadMany(Read(s, max).src, max, n - 1)
  }

  /** A source can split its bytes in any way at all, empty reads included. */
  lemma {:induction false} AnySplitting(pieces: seq<seq<Byte>>, max: nat) returns (s: Source)
    requires forall i :: 0 <= i < |pieces| ==> |pieces[i]| <= max
    ensures Calm(s) && !s.cancelled && !s.lastWithEof && s.rest == Flatten(pieces) && ReadMany(s, max, |pieces|) == pieces
    decreases |pieces|
  {
    s := Source([], [], false, false, false);
    if pieces != [] {
      var more := AnySplitting(pieces[1..], max);
      var n := |pieces[0]|;
      s := more.(rest := pieces[0] + more.rest, script := [Event(n, NoError, false)] + more.script);
      SplitOne(s, more, pieces[0], max);
    }
  }

  lemma SplitOne(s: Source, more: Source, piece: seq<Byte>, max: nat)
    requires |piece| <= max && !s.broken && !more.broken && !more.lastWithEof
    requires s == more.(rest := piece + more.rest, script := [Event(|piece|, NoError, false)] + more.script)
    ensures Read(s, max).got == piece && Read(s, max).src == more
  {
  }

  class FrameReader {
    var src: Source
    const limit: int

    constructor (s: Source, maxPayloadSize: int)
      ensures src == s && limit == maxPayloadSize
    {
      src := s;
      limit := maxPayloadSize;
    }

    /** One Read into buf[n..]. */
    method Fill(buf: array<Byte>, n: nat) returns (m: nat, err: Option<IoError>)
      requires n < buf.Length
      modifies this, buf
      ensures n <= m <= buf.Length && buf[..n] == old(buf[..n])
      ensures buf[n..m] + src.rest == old(src.rest)
      ensures err.Some? ==> if src.broken then err.value.Broken? else err.value.EOF? && src.rest == []
      ensures Calm(old(src)) ==> Calm(src)
      ensures old(src.cancelled) ==> src.cancelled
      ensures Work(src) + (if err.None? then 1 else 0) <= old(Work(src))
    {
      var c := Read(src, buf.Length - n);
      m := n + |c.got|;
      forall i | n <= i < m {
        buf[i] := c.got[i - n];
      }
      assert buf[n..m] == c.got;
      src, err := c.src, c.err;
    }

    /** io.ReadFull: fills the buffer however the reader splits its bytes, or reports why it could not. */
    method ReadFull(buf: array<Byte>) returns (err: Option<IoError>)
      requires buf.Length > 0
      modifies this, buf
      ensures Calm(old(src)) ==> Calm(src)
      ensures old(src.cancelled) ==> src.cancelled
      ensures EndsWith(old(src.rest), src.rest)
      ensures err.None? ==> buf[..] + src.rest == old(src.rest)
      ensures err.Some? ==> src.broken || |old(src.rest)| < buf.Length
      ensures err == Some(EOF) <==> old(src.rest) == [] && !src.broken
    {
      var n := 0;
      err := None;
      while n < buf.Length && err.None?
        invariant 0 <= n <= buf.Length
        invariant buf[..n] + src.rest == old(src.rest)
        invariant Calm(old(src)) ==> Calm(src)
        invariant old(src.cancelled) ==> src.cancelled
        invariant err.Some? ==> if src.broken then err.value.Broken? else err.value.EOF? && src.rest == []
        decreases Work(src) + (if err.None? then 1 else 0)
      {
        ghost var before := buf[..n];
        ghost var k := n;
        n, err := Fill(buf, n);
        assert buf[..n] == before + buf[k..n];
      }
      assert |old(src.rest)| == n + |src.rest| && old(src.rest)[n..] == src.rest;
      if n == buf.Length {
        err := None;
        assert buf[..] == buf[..n];
      } else if n > 0 && err == Some(EOF) {
        err := Some(UnexpectedEOF);
      }
    }

    /**
     ReadFrame finds what the bytes left to read hold, whatever the splitting; only a
     reader that fails can make it report a truncation instead.
     */
    method ReadFrame() returns (p: Parsed)
      modifies this
      ensures Calm(old(src)) ==> Calm(src)
      ensures old(src.cancelled) ==> src.cancelled
      ensures EndsWith(old(src.rest), src.rest)
      ensures p == ParseFrame(old(src.rest), limit) || (p.Truncated? && src.broken)
      ensures p.Got? ==> src.rest == p.rest
    {
      ghost var data := src.rest;
      var header := new Byte[HEADER_SIZE];
      var err := ReadFull(header);
      if err.Some? {
        return if err == Some(EOF) then AtEof else Truncated;
      }
      ghost var rest := src.rest;
      ParseSplit(data, header[..], rest, limit);
      var flag := header[0];
      var length := Uint32(header[1..]);
      if limit > 0 && length > limit {
        return TooLarge;
      }
      if length == 0 {
        return Got(Frame(flag, []), src.rest);
      }
      var payload := new Byte[length];
      err := ReadFull(payload);
      if err.Some? {
        return Truncated;
      }
      assert payload[..] == rest[..length];
      p := Got(Frame(flag, payload[..]), src.rest);
    }

    /** Calling ReadFrame until it returns no frame yields, for every splitting, the decoding of the input. */
    method ReadAll() returns (frames: seq<Frame>, end: Parsed)
      requires Calm(src)
      modifies this
      ensures Decoded(frames, end) == Decode(old(src.rest), limit)
    {
      frames := [];
      while true
        invariant Calm(src)
        invariant var left := Decode(src.rest, limit);
                  Decode(old(src.rest), limit) == Decoded(frames + left.frames, left.end)
        decreases |src.rest|
      {
        ghost var data := src.rest;
        end := ReadFrame();
        if !end.Got? {
          return;
        }
        assert frames + Decode(data, limit).frames == frames + [end.frame] + Decode(src.rest, limit).frames;
        frames := frames + [end.frame];
      }
    }
  }
}
