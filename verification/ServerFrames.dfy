/** Which frames are on the wire in every state of every run, and whose messages they carry. */
module ServerFrames {
  import opened Prelude
  import opened FrameCodec
  import opened StreamServer
  import opened ServerSafety

  predicate IsTerminal(f: Frame) {
    f.flag == FLAG_FINAL || f.flag == FLAG_ERROR
  }

  predicate Ended(log: seq<Frame>) {
    log != [] && IsTerminal(log[|log| - 1])
  }

  predicate Tidy(log: seq<Frame>) {
    forall i :: 0 <= i < |log| - 1 ==> !IsTerminal(log[i])
  }

  lemma PutLog(o: Output, f: Frame)
    ensures var t := PutHeader(o, f);
            && (t.log == o.log || t.log == o.log + [f])
            && (o.sink.broken || f.payload != [] ==> t.log == o.log)
            && (!t.sink.broken ==> !o.sink.broken && (f.payload == [] ==> t.log == o.log + [f]))
    ensures f.payload != [] ==>
              var t := PutBody(o, f);
              && (t.log == o.log || t.log == o.log + [f])
              && (o.sink.broken ==> t.log == o.log)
              && (!t.sink.broken ==> !o.sink.broken && t.log == o.log + [f])
  {
  }

  // ---- the terminal frame ----

  predicate Engaged<M>(pc: Pc<M>) {
    pc.Locking? || Holds(pc)
  }

  /** The call of a main goroutine that is writing, or has written, the whole frame of its job. */
  predicate Succeeding<M>(pc: Pc<M>) {
    Writing(pc) || pc.Flushing? || (pc.Unlocking? && pc.ok)
  }

  predicate TailWritten<M>(pc: Pc<M>) {
    (pc.Flushing? || pc.Unlocking?) && pc.job.Tail?
  }

  /** Nothing will be written any more. */
  predicate Retired<M>(s: Server<M>) {
    s.once.Finished? && !Writing(s.main) && (s.closed || s.main.Gone? || TailWritten(s.main))
  }

  /** The job that ends this stream: the Close that found it open, or else the handler's return. */
  function LastJob<M>(s: Server<M>): Job<M> {
    if s.closing.Some? then Close(s.closing.value)
    else if s.result.Some? then Tail(s.result.value)
    else Tail(None)
  }

  /** What each call remembers while it runs. */
  predicate Remembered<M(==)>(s: Server<M>) {
    && (s.closed <==> s.closing.Some?)
    && (Engaged(s.main) && s.main.job.Tail? ==> !s.closed && s.result == Some(s.main.job.result))
    && ((s.main.Stopping? || s.main.Joining?) && s.main.job.Tail? ==> s.result == Some(s.main.job.result))
    && (s.main.Gone? ==> s.result.Some?)
    && (Succeeding(s.main) && s.main.job.Close? ==> s.closing == Some(s.main.job.last))
    && (Succeeding(s.main) && s.main.job.Send? ==> !s.closed)
  }

  /** At most one terminal frame, last on the wire, and the one its call asked for. */
  predicate OneTerminal<M(==)>(enc: Encoding<M>, s: Server<M>) {
    && Tidy(s.out.log)
    && (Ended(s.out.log) ==> Retired(s) && FrameFor(enc, LastJob(s)) == Some(s.out.log[|s.out.log| - 1]))
    && (!s.out.sink.broken && Retired(s) ==> (Ended(s.out.log) <==> FrameFor(enc, LastJob(s)).Some?))
  }

  lemma RememberedMain<M>(enc: Encoding<M>, s: Server<M>)
    requires Synchronized(enc, s) && Remembered(s) && Enabled(s, MainStep)
    ensures Remembered(Do(enc, s, MainStep))
  {
  }

  lemma RememberedStep<M>(enc: Encoding<M>, s: Server<M>, a: Action<M>)
    requires Synchronized(enc, s) && Remembered(s) && Enabled(s, a)
    ensures Remembered(Do(enc, s, a))
  {
    if a.MainStep? {
      RememberedMain(enc, s);
    }
  }

  lemma OneTerminalWrite<M>(enc: Encoding<M>, s: Server<M>)
    requires Synchronized(enc, s) && Remembered(s) && OneTerminal(enc, s) && Writing(s.main)
    ensures OneTerminal(enc, Do(enc, s, MainStep))
  {
  }

  lemma OneTerminalMain<M>(enc: Encoding<M>, s: Server<M>)
    requires Synchronized(enc, s) && Remembered(s) && OneTerminal(enc, s)
    requires Enabled(s, MainStep) && !Writing(s.main)
    ensures OneTerminal(enc, Do(enc, s, MainStep))
  {
  }

  lemma OneTerminalHeart<M>(enc: Encoding<M>, s: Server<M>)
    requires Synchronized(enc, s) && Remembered(s) && OneTerminal(enc, s) && Enabled(s, HeartStep)
    ensures OneTerminal(enc, Do(enc, s, HeartStep))
  {
  }

  lemma OneTerminalStep<M>(enc: Encoding<M>, s: Server<M>, a: Action<M>)
    requires Synchronized(enc, s) && Remembered(s) && OneTerminal(enc, s) && Enabled(s, a)
    ensures OneTerminal(enc, Do(enc, s, a))
  {
    match a
    case MainStep => if Writing(s.main) { OneTerminalWrite(enc, s); } else { OneTerminalMain(enc, s); }
    case HeartStep => OneTerminalHeart(enc, s);
    case _ =>
  }

  // ---- what is flushed ----

  /** The frames that have been flushed: all but one that is waiting for its flush. */
  function FlushedLog<M>(s: Server<M>): seq<Frame> {
    if (s.main.Flushing? || s.heart.Flushing?) && s.out.log != [] then s.out.log[..|s.out.log| - 1] else s.out.log
  }

  /** While no write has failed, whole frames are flushed, and the one that waits for it is that of the flushing goroutine. */
  predicate Pushed<M(==)>(enc: Encoding<M>, s: Server<M>) {
    !s.out.sink.broken ==>
      && s.out.flushed == |EncodeAll(FlushedLog(s))|
      && (s.main.Flushing? ==> s.out.log != [] && FrameFor(enc, s.main.job) == Some(s.out.log[|s.out.log| - 1]))
      && (s.heart.Flushing? ==> s.out.log != [] && s.out.log[|s.out.log| - 1].flag == FLAG_HEARTBEAT)
  }

  /** One write: the frame is complete and waits for its flush, or its header is out, or the writer broke. */
  lemma PutPushed(o: Output, f: Frame)
    ensures PutHeader(o, f).flushed == o.flushed == PutBody(o, f).flushed
    ensures (o.log + [f])[..|o.log|] == o.log && (o.log + [f])[|o.log|] == f
  {
  }

  lemma PushedWrite<M>(enc: Encoding<M>, s: Server<M>)
    requires Synchronized(enc, s) && Pushed(enc, s) && Writing(s.main)
    ensures Pushed(enc, Do(enc, s, MainStep))
  {
    PutLog(s.out, s.main.frame);
    PutPushed(s.out, s.main.frame);
  }

  lemma PushedFlush<M>(enc: Encoding<M>, s: Server<M>)
    requires Synchronized(enc, s) && Atomic(s) && Pushed(enc, s) && s.main.Flushing?
    ensures Pushed(enc, Do(enc, s, MainStep))
  {
    WireIsLog(s);
  }

  /** The other steps of main neither write nor flush. */
  lemma PushedMain<M>(enc: Encoding<M>, s: Server<M>)
    requires Synchronized(enc, s) && Pushed(enc, s) && Enabled(s, MainStep)
    requires !Writing(s.main) && !s.main.Flushing?
    ensures Pushed(enc, Do(enc, s, MainStep))
  {
    var t := Do(enc, s, MainStep);
    assert t.out == s.out && t.heart == s.heart && !t.main.Flushing?;
  }

  lemma PushedBeat<M>(enc: Encoding<M>, s: Server<M>)
    requires Synchronized(enc, s) && Pushed(enc, s) && Writing(s.heart)
    ensures Pushed(enc, Do(enc, s, HeartStep))
  {
    PutLog(s.out, s.heart.frame);
    PutPushed(s.out, s.heart.frame);
  }

  lemma PushedHeart<M>(enc: Encoding<M>, s: Server<M>)
    requires Synchronized(enc, s) && Atomic(s) && Pushed(enc, s) && Enabled(s, HeartStep) && !Writing(s.heart)
    ensures Pushed(enc, Do(enc, s, HeartStep))
  {
    if s.heart.Flushing? {
      WireIsLog(s);
    }
  }

  lemma WireIsLog<M>(s: Server<M>)
    requires Atomic(s)
    ensures !s.out.sink.broken && !s.main.AtBody? ==> s.out.sink.wire == EncodeAll(s.out.log)
  {
    var part, f :| Framed(s.out, part, f) && (!s.out.sink.broken ==> part == UnderWay(s.main));
  }

  lemma PushedStep<M>(enc: Encoding<M>, s: Server<M>, a: Action<M>)
    requires Synchronized(enc, s) && Atomic(s) && Pushed(enc, s) && Enabled(s, a)
    ensures Pushed(enc, Do(enc, s, a))
  {
    match a
    case MainStep =>
      if Writing(s.main) {
        PushedWrite(enc, s);
      } else if s.main.Flushing? {
        PushedFlush(enc, s);
      } else {
        PushedMain(enc, s);
      }
    case HeartStep => if Writing(s.heart) { PushedBeat(enc, s); } else { PushedHeart(enc, s); }
    case _ =>
  }

  // ---- the messages ----

  /** The Data frames of `log` carry exactly `msgs`, in order. */
  predicate Carries<M>(enc: Encoding<M>, log: seq<Frame>, msgs: seq<M>)
    decreases |log|
  {
    if log == [] then msgs == []
    else
      var f, front := log[|log| - 1], log[..|log| - 1];
      if f.flag == FLAG_DATA then
        && |msgs| > 0 && enc.messages.marshal(msgs[|msgs| - 1]) == Some(f.payload)
        && Carries(enc, front, msgs[..|msgs| - 1])
      else Carries(enc, front, msgs)
  }

  predicate KnownFlags(log: seq<Frame>) {
    forall i :: 0 <= i < |log| ==> FLAG_DATA <= log[i].flag <= FLAG_HEARTBEAT
  }

  function InFlight<M>(pc: Pc<M>): seq<M> {
    if (pc.Flushing? || (pc.Unlocking? && pc.ok)) && pc.job.Send? then [pc.job.msg] else []
  }

  /** The messages on the wire are those whose Send returned nil, and the one whose Send is still to return. */
  predicate Accounted<M(==)>(s: Server<M>) {
    && (!s.out.sink.broken ==> s.written == s.accepted + InFlight(s.main))
    && (s.out.sink.broken ==> s.accepted <= s.written && |s.written| <= |s.accepted| + 1)
    && (s.main.Flushing? || (s.main.Unlocking? && s.main.ok) ==> !s.out.sink.broken)
    && (Ended(s.out.log) ==> s.written == s.accepted)
  }

  predicate Faithful<M(==)>(enc: Encoding<M>, s: Server<M>) {
    Carries(enc, s.out.log, s.written) && KnownFlags(s.out.log)
  }

  /** The effect of one write on the frames and messages of the wire. */
  lemma FaithfulWrote<M>(enc: Encoding<M>, s: Server<M>, job: Job<M>, f: Frame, out: Output)
    requires Faithful(enc, s) && FrameFor(enc, job) == Some(f)
    requires out.log == s.out.log || out.log == s.out.log + [f]
    ensures Faithful(enc, Wrote(s, job, out))
  {
  }

  lemma FaithfulStep<M>(enc: Encoding<M>, s: Server<M>, a: Action<M>)
    requires Synchronized(enc, s) && Faithful(enc, s) && Enabled(s, a)
    ensures Faithful(enc, Do(enc, s, a))
  {
    if (a.MainStep? && Writing(s.main)) || (a.HeartStep? && Writing(s.heart)) {
      var pc := if a.MainStep? then s.main else s.heart;
      var out := if pc.AtHeader? then PutHeader(s.out, pc.frame) else PutBody(s.out, pc.frame);
      PutLog(s.out, pc.frame);
      FaithfulWrote(enc, s, pc.job, pc.frame, out);
    }
  }

  lemma AccountedWrite<M>(enc: Encoding<M>, s: Server<M>)
    requires Synchronized(enc, s) && Remembered(s) && OneTerminal(enc, s) && Accounted(s) && Writing(s.main)
    ensures Accounted(Do(enc, s, MainStep))
  {
    PutLog(s.out, s.main.frame);
    assert !Ended(s.out.log);
  }

  lemma AccountedMain<M>(enc: Encoding<M>, s: Server<M>)
    requires Synchronized(enc, s) && Remembered(s) && OneTerminal(enc, s) && Accounted(s)
    requires Enabled(s, MainStep) && !Writing(s.main)
    ensures Accounted(Do(enc, s, MainStep))
  {
  }

  lemma AccountedHeart<M>(enc: Encoding<M>, s: Server<M>)
    requires Synchronized(enc, s) && Accounted(s) && Enabled(s, HeartStep)
    ensures Accounted(Do(enc, s, HeartStep))
  {
  }

  lemma AccountedStep<M>(enc: Encoding<M>, s: Server<M>, a: Action<M>)
    requires Synchronized(enc, s) && Remembered(s) && OneTerminal(enc, s) && Accounted(s) && Enabled(s, a)
    ensures Accounted(Do(enc, s, a))
  {
    match a
    case MainStep => if Writing(s.main) { AccountedWrite(enc, s); } else { AccountedMain(enc, s); }
    case HeartStep => AccountedHeart(enc, s);
    case _ =>
  }

  lemma CarriesFront<M>(enc: Encoding<M>, log: seq<Frame>, msgs: seq<M>)
    requires log != [] && Carries(enc, log, msgs)
    ensures var front := log[..|log| - 1];
            if log[|log| - 1].flag == FLAG_DATA then msgs != [] && Carries(enc, front, msgs[..|msgs| - 1])
            else Carries(enc, front, msgs)
  {
  }

  lemma AcceptedPrefix<M>(s: Server<M>)
    requires Accounted(s)
    ensures s.accepted <= s.written
    ensures !s.out.sink.broken && s.main.Flushing? && s.main.job.Send? ==>
              s.written != [] && s.written[..|s.written| - 1] == s.accepted
  {
  }

  /** The flushed frames carry every message whose Send returned nil. */
  lemma FlushedCarries<M>(enc: Encoding<M>, s: Server<M>) returns (msgs: seq<M>)
    requires Synchronized(enc, s) && Pushed(enc, s) && Faithful(enc, s) && Accounted(s) && !s.out.sink.broken
    ensures s.accepted <= msgs && Carries(enc, FlushedLog(s), msgs)
  {
    AcceptedPrefix(s);
    msgs := s.written;
    if s.main.Flushing? {
      CarriesFront(enc, s.out.log, s.written);
      if s.main.job.Send? {
        msgs := s.accepted;
      }
    } else if s.heart.Flushing? {
      CarriesFront(enc, s.out.log, s.written);
    }
  }
}
