/**
 The server side of a structured stream (streaming.go:50-225) as a state machine over the
 steps of two goroutines: the one that runs HandleStream and its handler, and the
 heartbeat. They share a mutex, two channels, a sync.Once and the response writer.
 */
module StreamServer {
  import opened Prelude
  import opened FrameCodec
  import opened ByteIO
  import opened Errors

  datatype Codec<!T> = Codec(marshal: T -> Option<seq<Byte>>, unmarshal: seq<Byte> -> Option<T>)

  /** Unmarshal undoes marshal wherever marshal succeeds, and payload lengths fit 32 bits. */
  ghost predicate Lawful<T(!new)>(c: Codec<T>) {
    forall m :: c.marshal(m).Some? ==>
      |c.marshal(m).value| < TWO_32 && c.unmarshal(c.marshal(m).value) == Some(m)
  }

  /** One wire encoding, for the stream's messages and for the Reply of an error frame. */
  datatype Encoding<!M> = Encoding(messages: Codec<M>, replies: Codec<Reply>)

  ghost predicate LawfulEncoding<M(!new)>(enc: Encoding<M>) {
    Lawful(enc.messages) && Lawful(enc.replies)
  }

  /** What a goroutine wants the mutex for. */
  datatype Job<M> =
    | Send(msg: M)
    | Close(last: Option<M>)
    | Tail(result: Option<Err>)  // HandleStream after the handler returned
    | Beat

  datatype Pc<M> =
    | Running                              // handler code between calls
    | Stopping(job: Job<M>)                // before stopOnce.Do
    | Joining(job: Job<M>)                 // inside it, receiving from stopped
    | Waiting                              // heartbeat: the select
    | Locking(job: Job<M>)                 // before mu.Lock
    | Locked(job: Job<M>)                  // holding mu, as are the next four
    | AtHeader(job: Job<M>, frame: Frame)
    | AtBody(job: Job<M>, frame: Frame)
    | Flushing(job: Job<M>)
    | Unlocking(job: Job<M>, ok: bool)
    | Leaving                              // heartbeat: before the deferred close(stopped)
    | Gone

  datatype Owner = Free | ByMain | ByHeart

  datatype Once = Fresh | Entered | Finished

  /** The response writer: its bytes, how many of them are flushed, and the frames that are there in full. */
  datatype Output = Output(sink: Sink, flushed: nat, log: seq<Frame>)

  datatype Server<M> = Server(
    main: Pc<M>,
    heart: Pc<M>,
    mu: Owner,
    once: Once,
    stop: bool,                // the channels, true when closed
    stopped: bool,
    closed: bool,
    out: Output,
    ticks: nat,                // ticks the ticker has still to deliver
    panicked: bool,            // a channel closed twice or a mutex unlocked by a non-holder
    // history
    written: seq<M>,           // the messages of the Data frames that are on the wire in full
    accepted: seq<M>,          // the messages whose Send returned nil
    closing: Option<Option<M>>,// the argument of the Close that found the stream open
    result: Option<Option<Err>>// what the handler returned
  )

  predicate Holds<M>(pc: Pc<M>) {
    pc.Locked? || pc.AtHeader? || pc.AtBody? || pc.Flushing? || pc.Unlocking?
  }

  /** A server at the call of the handler; `beats` is whether the heartbeat interval is positive. */
  function Start<M>(beats: bool, ticks: nat, fuse: Option<nat>, late: bool): Server<M> {
    Server(Running, if beats then Waiting else Gone, Free, Fresh, false, !beats, false,
           Output(Sink([], fuse, late, false), 0, []), ticks, false, [], [], None, None)
  }

  datatype Action<M> =
    | Call(job: Job<M>)     // the handler calls Send or Close, or returns
    | MainStep
    | HeartTick             // the select receives a tick
    | HeartStop             // the select sees stop closed
    | HeartStep

  predicate Runnable<M>(s: Server<M>, pc: Pc<M>) {
    match pc
    case Running => false
    case Waiting => false
    case Gone => false
    case Joining(_) => s.stopped
    case Locking(_) => s.mu.Free?
    case _ => true
  }

  predicate Enabled<M>(s: Server<M>, a: Action<M>) {
    match a
    case Call(job) => s.main.Running? && !job.Beat?
    case MainStep => Runnable(s, s.main)
    case HeartTick => s.heart.Waiting? && s.ticks > 0
    case HeartStop => s.heart.Waiting? && s.stop
    case HeartStep => Runnable(s, s.heart)
  }

  /** Where a call goes first: Close and the return path stop the heartbeat, Send does not. */
  function Entry<M>(job: Job<M>): Pc<M> {
    if job.Send? then Locking(job) else Stopping(job)
  }

  /** After stopHeartbeat: the return path takes the lock only to report an error on an open stream. */
  function AfterJoin<M>(s: Server<M>, job: Job<M>): Pc<M> {
    if job.Tail? && (job.result.None? || s.closed) then Gone else Locking(job)
  }

  function FinalPayload<M>(enc: Encoding<M>, last: Option<M>): Option<seq<Byte>> {
    if last.None? then Some([]) else enc.messages.marshal(last.value)
  }

  /** The frame a job writes, when its message marshals. */
  function FrameFor<M>(enc: Encoding<M>, job: Job<M>): Option<Frame> {
    match job
    case Send(m) =>
      var p := enc.messages.marshal(m);
      if p.Some? then Some(Frame(FLAG_DATA, p.value)) else None
    case Close(last) =>
      var p := FinalPayload(enc, last);
      if p.Some? then Some(Frame(FLAG_FINAL, p.value)) else None
    case Tail(result) =>
      if result.None? then None
      else
        var p := enc.replies.marshal(BuildErrorReply(result.value));
        if p.Some? then Some(Frame(FLAG_ERROR, p.value)) else None
    case Beat => Some(Frame(FLAG_HEARTBEAT, []))
  }

  /** The step of a lock holder up to its first write: the closed check, then the marshalling. */
  function Prepare<M>(enc: Encoding<M>, s: Server<M>, job: Job<M>): Pc<M> {
    if s.closed && !job.Tail? then Unlocking(job, false)
    else if FrameFor(enc, job).None? then Unlocking(job, false)
    else AtHeader(job, FrameFor(enc, job).value)
  }

  /** One Write call of `chunk`; it completes the frame when it is the last one and is taken whole. */
  function Put(o: Output, f: Frame, chunk: seq<Byte>, last: bool): Output {
    var sink := Write(o.sink, chunk).0;
    var whole := last && |sink.wire| == |o.sink.wire| + |chunk|;
    Output(sink, o.flushed, if whole then o.log + [f] else o.log)
  }

  /** The header write of a frame, which is all of it when the payload is empty. */
  function PutHeader(o: Output, f: Frame): Output {
    Put(o, f, Header(f.flag, |f.payload|), f.payload == [])
  }

  function PutBody(o: Output, f: Frame): Output {
    Put(o, f, f.payload, true)
  }

  function Wrote<M>(s: Server<M>, job: Job<M>, out: Output): Server<M> {
    s.(out := out,
       written := if job.Send? && |out.log| > |s.out.log| then s.written + [job.msg] else s.written)
  }

  /** The next program point after a write: the heartbeat ignores errors, everyone else returns them. */
  function AfterWrite<M>(job: Job<M>, ok: bool): Pc<M> {
    if ok || job.Beat? then Flushing(job) else Unlocking(job, false)
  }

  function AfterUnlock<M>(job: Job<M>, ok: bool): Pc<M> {
    match job
    case Beat => if ok then Waiting else Leaving
    case Tail(_) => Gone
    case _ => Running
  }

  function Unlock<M>(s: Server<M>, me: Owner, job: Job<M>, ok: bool): Server<M> {
    s.(mu := Free,
       panicked := s.panicked || s.mu != me,
       accepted := if job.Send? && ok then s.accepted + [job.msg] else s.accepted)
  }

  /** A step of the goroutine `me` from program point `pc`: its next program point and the new shared state. */
  function Advance<M>(enc: Encoding<M>, s: Server<M>, me: Owner, pc: Pc<M>): (Pc<M>, Server<M>)
    requires Runnable(s, pc)
  {
    match pc
    case Stopping(job) =>
      if s.once.Finished? then (AfterJoin(s, job), s)
      else (Joining(job), s.(once := Entered, stop := true, panicked := s.panicked || s.stop))
    case Joining(job) => (AfterJoin(s, job), s.(once := Finished))
    case Locking(job) => (Locked(job), s.(mu := me))
    case Locked(job) =>
      (Prepare(enc, s, job),
       if job.Close? && !s.closed then s.(closed := true, closing := Some(job.last)) else s)
    case AtHeader(job, f) =>
      var out := PutHeader(s.out, f);
      (if !out.sink.broken && f.payload != [] then AtBody(job, f) else AfterWrite(job, !out.sink.broken),
       Wrote(s, job, out))
    case AtBody(job, f) =>
      var out := PutBody(s.out, f);
      (AfterWrite(job, !out.sink.broken), Wrote(s, job, out))
    case Flushing(job) => (Unlocking(job, true), s.(out := s.out.(flushed := |s.out.sink.wire|)))
    case Unlocking(job, ok) => (AfterUnlock(job, ok), Unlock(s, me, job, ok))
    case Leaving => (Gone, s.(stopped := true, panicked := s.panicked || s.stopped))
  }

  function Do<M>(enc: Encoding<M>, s: Server<M>, a: Action<M>): Server<M>
    requires Enabled(s, a)
  {
    match a
    case Call(job) => s.(main := Entry(job), result := if job.Tail? then Some(job.result) else s.result)
    case MainStep => var (pc, t) := Advance(enc, s, ByMain, s.main); t.(main := pc)
    case HeartTick => s.(heart := Locking(Beat), ticks := s.ticks - 1)
    case HeartStop => s.(heart := Leaving)
    case HeartStep => var (pc, t) := Advance(enc, s, ByHeart, s.heart); t.(heart := pc)
  }

  /** A run: the states of an interleaving, from the handler's call on. */
  ghost predicate IsRun<M(!new)>(enc: Encoding<M>, run: seq<Server<M>>) {
    && |run| > 0
    && (exists beats, ticks: nat, fuse, late :: run[0] == Start(beats, ticks, fuse, late))
    && forall i, j :: 0 <= i && j == i + 1 < |run| ==> Step(enc, run[i], run[j])
  }

  ghost predicate Step<M(!new)>(enc: Encoding<M>, s: Server<M>, t: Server<M>) {
    exists a :: Enabled(s, a) && t == Do(enc, s, a)
  }
}
