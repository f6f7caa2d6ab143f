/**
 The client side of a structured stream (streaming.go:252-346). Recv is given twice: as a
 relation between client states, which allows every outcome that the network and the
 heartbeat timer can bring about, and as the method that is proved to stay within it.
 */
module StreamClient {
  import opened Prelude
  import opened FrameCodec
  import opened ByteIO
  import opened Errors
  import opened StreamServer

  datatype Cause =
    | UnexpectedEof
    | FrameTooLarge
    | HeartbeatTimeout
    | BadPayload
    | BadErrorFrame
    | UnknownFlag(flag: Byte)
    | Remote(error: ClientError)

  /** What Recv returns: nil with a message, io.EOF, or another error. */
  datatype Outcome<M> = Message(msg: M) | Eof | Failure(cause: Cause)

  /** The fixed part of a streamReader; `timed` is whether its heartbeat timeout is positive. */
  datatype Setup<!M> = Setup(enc: Encoding<M>, limit: int, timed: bool, status: int)

  /** The changing part: the bytes still to be read, the two flags, and whether the context has ended. */
  datatype Reading = Reading(rest: seq<Byte>, done: bool, pending: bool, cancelled: bool)

  datatype Handled<M> = Handled(out: Outcome<M>, done: bool, pending: bool)

  function RemoteError(reply: Reply, status: int): ClientError {
    ClientError(reply.code, status, reply.message, reply.details, false, None)
  }

  /** The switch on the frame's flag, for all but heartbeats. */
  function Handle<M>(cfg: Setup<M>, f: Frame): Handled<M> {
    var m := cfg.enc.messages.unmarshal(f.payload);
    if f.flag == FLAG_DATA then
      if m.None? then Handled(Failure(BadPayload), true, false) else Handled(Message(m.value), false, false)
    else if f.flag == FLAG_FINAL then
      if f.payload == [] then Handled(Eof, true, false)
      else if m.None? then Handled(Failure(BadPayload), true, false)
      else Handled(Message(m.value), false, true)
    else if f.flag == FLAG_ERROR then
      var reply := cfg.enc.replies.unmarshal(f.payload);
      Handled(Failure(if reply.None? then BadErrorFrame else Remote(RemoteError(reply.value, cfg.status))), true, false)
    else Handled(Failure(UnknownFlag(f.flag)), true, false)
  }

  /** A read error is reported as a heartbeat timeout when the context has ended. */
  function Report<M>(cfg: Setup<M>, cancelled: bool, cause: Cause): Cause {
    if cfg.timed && cancelled then HeartbeatTimeout else cause
  }

  predicate Fails<M(==)>(data: seq<Byte>, d: Reading, out: Outcome<M>, cause: Cause) {
    out == Failure(cause) && d.done && !d.pending && EndsWith(data, d.rest)
  }

  /** The loop of Recv over `data`, the bytes to come. A reader that is not `calm` may fail at any byte. */
  predicate Reads<M(==)>(cfg: Setup<M>, calm: bool, data: seq<Byte>, d: Reading, out: Outcome<M>)
    decreases |data|
  {
    || (!calm && Fails(data, d, out, Report(cfg, d.cancelled, UnexpectedEof)))
    || match ParseFrame(data, cfg.limit)
       case AtEof => Fails(data, d, out, UnexpectedEof)
       case Truncated => Fails(data, d, out, Report(cfg, d.cancelled, UnexpectedEof))
       case TooLarge => Fails(data, d, out, Report(cfg, d.cancelled, FrameTooLarge))
       case Got(f, rest) =>
         if f.flag == FLAG_HEARTBEAT then Reads(cfg, calm, rest, d, out)
         else Handle(cfg, f) == Handled(out, d.done, d.pending) && d.rest == rest
  }

  lemma CalmReads<M>(cfg: Setup<M>, data: seq<Byte>, d: Reading, out: Outcome<M>)
    requires Reads(cfg, true, data, d, out)
    ensures Reads(cfg, false, data, d, out)
    decreases |data|
  {
  }

  predicate Recvs<M(==)>(cfg: Setup<M>, calm: bool, c: Reading, d: Reading, out: Outcome<M>) {
    if c.pending then out.Eof? && d == c.(pending := false, done := true)
    else if c.done then out.Eof? && d == c
    else Reads(cfg, calm, c.rest, d, out)
  }

  class StreamReader<M(==, !new)> {
    const cfg: Setup<M>
    const frames: FrameReader
    var done: bool
    var hasPending: bool

    ghost predicate Valid()
      reads this
    {
      frames.limit == cfg.limit
    }

    ghost function State(): Reading
      reads this, frames
    {
      Reading(frames.src.rest, done, hasPending, frames.src.cancelled)
    }

    constructor (cfg: Setup<M>, src: Source)
      ensures Valid() && fresh(frames)
      ensures this.cfg == cfg && frames.src == src && !done && !hasPending
    {
      this.cfg := cfg;
      done, hasPending := false, false;
      frames := new FrameReader(src, cfg.limit);
    }

    /** One iteration of Recv's loop: a heartbeat is consumed, anything else ends the call. */
    method ReadOne() returns (r: Option<Outcome<M>>)
      requires Valid() && !done && !hasPending
      modifies this, frames
      ensures Valid()
      ensures Calm(old(frames.src)) ==> Calm(frames.src)
      ensures r.None? ==> !done && !hasPending && |frames.src.rest| + HEADER_SIZE <= |old(frames.src.rest)|
      ensures r.None? ==>
                var p := ParseFrame(old(frames.src.rest), cfg.limit);
                p.Got? && p.frame.flag == FLAG_HEARTBEAT && p.rest == frames.src.rest
      ensures r.Some? ==> Reads(cfg, Calm(old(frames.src)), old(frames.src.rest), State(), r.value)
    {
      var p := frames.ReadFrame();
      var failure := None;
      match p {
        case AtEof => failure := Some(UnexpectedEof);
        case Truncated => failure := Some(Report(cfg, frames.src.cancelled, UnexpectedEof));
        case TooLarge => failure := Some(Report(cfg, frames.src.cancelled, FrameTooLarge));
        case Got(f, _) =>
      }
      if failure.Some? {
        done := true;
        return Some(Failure(failure.value));
      }
      if p.frame.flag == FLAG_HEARTBEAT {
        return None;
      }
      var h := Handle(cfg, p.frame);
      done, hasPending := h.done, h.pending;
      return Some(h.out);
    }

    method Recv() returns (out: Outcome<M>)
      requires Valid()
      modifies this, frames
      ensures Valid()
      ensures Calm(old(frames.src)) ==> Calm(frames.src)
      ensures Recvs(cfg, Calm(old(frames.src)), old(State()), State(), out)
    {
      if done && !hasPending {
        return Eof;
      }
      if hasPending {
        hasPending, done := false, true;
        return Eof;
      }
      ghost var calm, start := Calm(frames.src), frames.src.rest;
      while true
        invariant !done && !hasPending
        invariant calm ==> Calm(frames.src)
        invariant forall d, o :: Reads(cfg, calm, frames.src.rest, d, o) ==> Reads(cfg, calm, start, d, o)
        decreases |frames.src.rest|
      {
        ghost var calmNow, data := Calm(frames.src), frames.src.rest;
        var r := ReadOne();
        if r.Some? {
          if calmNow && !calm {
            CalmReads(cfg, data, State(), r.value);
          }
          return r.value;
        }
      }
    }

    method Close()
      requires Valid()
      modifies this, frames
      ensures Valid()
      ensures State() == old(State()).(done := true, cancelled := true)
      ensures Calm(old(frames.src)) ==> Calm(frames.src)
    {
      frames.src := frames.src.(cancelled := true);
      done := true;
    }
  }
}
