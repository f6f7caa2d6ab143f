/** The size limit on request bodies (reader.go:24-45, service.go:49-65). */
module LimitReader {
  import opened Prelude
  import opened ByteIO

  datatype LimitError = Io(error: IoError) | DataLimitExceeded(max: int)

  /** Go's int64 addition wraps around. */
  function Add64(a: int, b: int): int {
    (a + b + TWO_63) % TWO_64 - TWO_63
  }

  /** A source that always reports io.EOF by itself: for it the limit is exact. */
  predicate EofAlone(s: Source) {
    !s.lastWithEof && forall i :: 0 <= i < |s.script| ==> !s.script[i].with.LastWithEof?
  }

  /** A source that always returns io.EOF together with its last bytes: for it the limit is one byte more. */
  predicate EofJoined(s: Source) {
    && !s.broken && |s.rest| <= |s.script|
    && forall i :: 0 <= i < |s.script| ==> s.script[i].with.LastWithEof? && s.script[i].n > 0
  }

  lemma ReadKeeps(s: Source, room: nat)
    ensures Calm(s) ==> Calm(Read(s, room).src)
    ensures EofAlone(s) ==> EofAlone(Read(s, room).src)
  {
  }

  lemma ReadJoined(s: Source, room: nat)
    requires EofJoined(s) && s.rest != [] && room > 0
    ensures EofJoined(Read(s, room).src) && (Read(s, room).err.None? ==> Read(s, room).src.rest != [])
  {
  }

  /** One Read of a source, known by what io.Reader promises. */
  method Pull(s: Source, room: nat) returns (c: Chunk)
    ensures c.got + c.src.rest == s.rest && |c.got| <= room
    ensures c.err.Some? ==> if c.src.broken then c.err.value.Broken? else c.err.value.EOF? && c.src.rest == []
    ensures s.rest == [] ==> c.err.Some?
    ensures !s.lastWithEof ==> (c.src.lastWithEof <==> c.err == Some(EOF) && c.got != [])
    ensures Calm(s) ==> Calm(c.src)
    ensures EofAlone(s) ==> EofAlone(c.src)
    ensures EofJoined(s) && s.rest != [] && room > 0 ==> EofJoined(c.src) && (c.err.None? ==> c.src.rest != [])
    ensures Work(c.src) <= Work(s) && (c.err.None? && room > 0 ==> Work(c.src) < Work(s))
  {
    c := Read(s, room);
    ReadKeeps(s, room);
    if EofJoined(s) && s.rest != [] && room > 0 {
      ReadJoined(s, room);
    }
  }

  class LimitReader {
    var src: Source
    var remain: int
    const max: int

    constructor (s: Source, n: int)
      ensures src == s && max == n && remain == Add64(n, 1)
    {
      src := s;
      remain := Add64(n, 1);
      max := n;
    }

    /** One Read with room for `room` bytes: never more than remain bytes, and an error once remain is used up. */
    method Read(room: nat) returns (got: seq<Byte>, err: Option<LimitError>)
      modifies this
      ensures old(remain) <= 0 ==>
                got == [] && err == Some(DataLimitExceeded(max)) && src == old(src) && remain == old(remain)
      ensures old(remain) > 0 ==>
                && got + src.rest == old(src.rest) && |got| <= Min(room, old(remain))
                && remain == old(remain) - |got|
                && (err.Some? ==> err == Some(Io(if src.broken then Broken else EOF)) && (src.broken || src.rest == []))
                && (old(src.rest) == [] ==> err.Some?)
                && (!old(src.lastWithEof) ==> (src.lastWithEof <==> err == Some(Io(EOF)) && got != []))
                && (err.None? && room > 0 ==> Work(src) < old(Work(src)))
      ensures Calm(old(src)) ==> Calm(src)
      ensures EofAlone(old(src)) ==> EofAlone(src)
      ensures EofJoined(old(src)) && old(src.rest) != [] && room > 0 ==> EofJoined(src) && (err.None? ==> src.rest != [])
      ensures Work(src) <= old(Work(src))
    {
      if remain <= 0 {
        return [], Some(DataLimitExceeded(max));
      }
      var c := Pull(src, Min(room, remain));
      src, got := c.src, c.got;
      remain := remain - |got|;
      err := if c.err.Some? then Some(Io(c.err.value)) else None;
    }
  }

  /** What a body of `data` gets under a limit, when its source does not fail. */
  predicate Accepts(limit: int, data: seq<Byte>, lastWithEof: bool) {
    |data| <= limit || (|data| == limit + 1 && lastWithEof)
  }

  /** A copy of `s` under way: `body` is read, `src` and `remain` are left, and `err` is what the last read returned. */
  predicate Copying(s: Source, limit: int, src: Source, remain: int, body: seq<Byte>, err: Option<LimitError>) {
    && body + src.rest == s.rest && |body| <= limit + 1
    && (if limit == TWO_63 - 1 then remain < 0 && src == s else remain == limit + 1 - |body|)
    && (Calm(s) ==> Calm(src))
    && (EofAlone(s) ==> EofAlone(src))
    && (EofJoined(s) && s.rest != [] && limit < TWO_63 - 1 ==> EofJoined(src) && (err != Some(Io(EOF)) ==> src.rest != []))
    && match err
       case None => !src.lastWithEof
       case Some(DataLimitExceeded(m)) => m == limit && remain <= 0 && !src.lastWithEof
       case Some(Io(e)) =>
         && limit < TWO_63 - 1
         && (if src.broken then e.Broken? else e.EOF? && src.rest == [] && (|body| > limit ==> src.lastWithEof))
  }

  /** One read of io.Copy. */
  method CopyOne(ghost s: Source, reader: LimitReader, body: seq<Byte>, room: nat)
    returns (longer: seq<Byte>, err: Option<LimitError>)
    requires room > 0 && 0 < reader.max < TWO_63
    requires Copying(s, reader.max, reader.src, reader.remain, body, None)
    modifies reader
    ensures Copying(s, reader.max, reader.src, reader.remain, longer, err)
    ensures Work(reader.src) + (if err.None? then 1 else 0) <= old(Work(reader.src))
  {
    var got;
    got, err := reader.Read(room);
    longer := body + got;
  }

  /** io.Copy from a limited source into a buffer that offers room for sizes(i) bytes at the i-th read. */
  method CopyLimited(s: Source, limit: int, sizes: nat -> nat)
    returns (body: seq<Byte>, err: Option<LimitError>, after: Source)
    requires 0 < limit < TWO_63 && !s.lastWithEof && forall i: nat :: sizes(i) > 0
    ensures body + after.rest == s.rest && |body| <= limit + 1
    ensures EofAlone(s) ==> EofAlone(after)
    ensures err.None? ==> body == s.rest && Accepts(limit, s.rest, after.lastWithEof)
    ensures err.Some? && err.value.Io? ==> err == Some(Io(Broken)) && after.broken
    ensures limit < TWO_63 - 1 && EofJoined(s) && |s.rest| <= limit + 1 ==> err.None?
    ensures limit < TWO_63 - 1 && Calm(s) ==>
              if Accepts(limit, s.rest, after.lastWithEof) then err.None? && body == s.rest
              else err == Some(DataLimitExceeded(limit))
    ensures limit == TWO_63 - 1 ==> err == Some(DataLimitExceeded(limit)) && after == s
  {
    var reader := new LimitReader(s, limit);
    body, err := [], None;
    var i := 0;
    while err.None?
      invariant reader.max == limit && Copying(s, limit, reader.src, reader.remain, body, err)
      decreases Work(reader.src) + (if err.None? then 1 else 0)
    {
      body, err := CopyOne(s, reader, body, sizes(i));
      i := i + 1;
    }
    after := reader.src;
    if err == Some(Io(EOF)) {
      err := None;
    }
  }

  /** io.Copy from a source without a limit. */
  method CopyAll(s: Source, sizes: nat -> nat) returns (body: seq<Byte>, err: Option<LimitError>, after: Source)
    requires forall i: nat :: sizes(i) > 0
    ensures body + after.rest == s.rest
    ensures err.None? ==> body == s.rest
    ensures err.Some? ==> err == Some(Io(Broken)) && after.broken
    ensures Calm(s) ==> err.None?
  {
    after, body, err := s, [], None;
    var i := 0;
    while err.None?
      invariant body + after.rest == s.rest
      invariant Calm(s) ==> Calm(after)
      invariant err.Some? ==>
                  if after.broken then err == Some(Io(Broken)) else err == Some(Io(EOF)) && after.rest == []
      decreases Work(after) + (if err.None? then 1 else 0)
    {
      var c := Pull(after, sizes(i));
      assert body + (c.got + c.src.rest) == (body + c.got) + c.src.rest;
      after, body := c.src, body + c.got;
      err := if c.err.Some? then Some(Io(c.err.value)) else None;
      i := i + 1;
    }
    if err == Some(Io(EOF)) {
      err := None;
    }
  }

  /**
   The body read of ReadRequest. At most limit + 1 bytes are taken. A body is never cut short
   without an error, and never accepted beyond the limit but for one byte that comes with
   io.EOF, even from a source that fails, and an error that is not about the size is the
   source's. From a source that does not fail, a body is copied intact exactly when it has
   at most `limit` bytes, or one more and the source returned its last byte together with
   io.EOF; every other body is refused for its size. The largest int64 as a limit refuses
   every body, because limit + 1 wraps around; a limit of zero or less is none.
   */
  method ReadBody(s: Source, limit: int, sizes: nat -> nat)
    returns (body: seq<Byte>, err: Option<LimitError>, after: Source)
    requires IsInt64(limit) && !s.lastWithEof && forall i: nat :: sizes(i) > 0
    ensures body + after.rest == s.rest
    ensures err.None? ==> body == s.rest && (limit > 0 ==> Accepts(limit, s.rest, after.lastWithEof))
    ensures err.Some? && err.value.Io? ==> err == Some(Io(Broken)) && after.broken
    ensures 0 < limit < TWO_63 - 1 ==> |body| <= limit + 1
    ensures 0 < limit < TWO_63 - 1 && Calm(s) ==>
              if Accepts(limit, s.rest, after.lastWithEof) then err.None? && body == s.rest
              else err == Some(DataLimitExceeded(limit))
    ensures limit == TWO_63 - 1 ==> err == Some(DataLimitExceeded(limit)) && after == s
    ensures 0 < limit < TWO_63 - 1 && Calm(s) && EofAlone(s) ==> (err.None? <==> |s.rest| <= limit)
    ensures 0 < limit < TWO_63 - 1 && EofJoined(s) ==> (err.None? <==> |s.rest| <= limit + 1)
    ensures limit <= 0 && Calm(s) ==> err.None? && body == s.rest
  {
    if limit > 0 {
      body, err, after := CopyLimited(s, limit, sizes);
    } else {
      body, err, after := CopyAll(s, sizes);
    }
  }

  /** The same body of limit + 1 bytes, read through the same buffers, is accepted or refused by how its source reports the end. */
  method OneByteOver(data: seq<Byte>, sizes: nat -> nat) returns (joined: Option<LimitError>, alone: Option<LimitError>)
    requires 1 < |data| < TWO_63 && forall i: nat :: sizes(i) > 0
    ensures joined.None?
    ensures alone == Some(DataLimitExceeded(|data| - 1))
  {
    var limit := |data| - 1;
    var script := seq(|data|, i => Event(1, LastWithEof, false));
    var body, after;
    body, joined, after := ReadBody(Source(data, script, false, false, false), limit, sizes);
    body, alone, after := ReadBody(Source(data, [], false, false, false), limit, sizes);
  }
}
