/** What holds in every state of every run of the server, for any handler, scheduling and write failure. */
module ServerSafety {
  import opened Prelude
  import opened FrameCodec
  import opened ByteIO
  import opened StreamServer

  // ---- the lock, the channels and the join ----

  /** Which program points each goroutine visits, and what it carries there. */
  predicate MainPoint<M(==)>(enc: Encoding<M>, pc: Pc<M>) {
    match pc
    case Stopping(job) => job.Close? || job.Tail?
    case Joining(job) => job.Close? || job.Tail?
    case Locking(job) => !job.Beat? && job != Tail(None)
    case Locked(job) => !job.Beat? && job != Tail(None)
    case AtHeader(job, f) => !job.Beat? && FrameFor(enc, job) == Some(f)
    case AtBody(job, f) => !job.Beat? && FrameFor(enc, job) == Some(f) && f.payload != []
    case Flushing(job) => !job.Beat? && FrameFor(enc, job).Some?
    case Unlocking(job, _) => !job.Beat?
    case Running => true
    case Gone => true
    case _ => false
  }

  predicate HeartPoint<M(==)>(pc: Pc<M>) {
    match pc
    case Locking(job) => job.Beat?
    case Locked(job) => job.Beat?
    case AtHeader(job, f) => job.Beat? && f == Frame(FLAG_HEARTBEAT, [])
    case Flushing(job) => job.Beat?
    case Unlocking(job, ok) => job.Beat? && ok
    case Waiting => true
    case Leaving => true
    case Gone => true
    case _ => false
  }

  /** Program points that main reaches only after the heartbeat has been joined. */
  predicate AfterStop<M>(pc: Pc<M>) {
    match pc
    case Locking(job) => !job.Send?
    case Locked(job) => !job.Send?
    case AtHeader(job, _) => !job.Send?
    case AtBody(job, _) => !job.Send?
    case Flushing(job) => !job.Send?
    case Unlocking(job, _) => !job.Send?
    case Gone => true
    case _ => false
  }

  /** Mutual exclusion, a single close of each channel, and the join before `closed` is ever set. */
  predicate Synchronized<M(==)>(enc: Encoding<M>, s: Server<M>) {
    && MainPoint(enc, s.main) && HeartPoint(s.heart)
    && (s.mu.ByMain? <==> Holds(s.main))
    && (s.mu.ByHeart? <==> Holds(s.heart))
    && (s.stop <==> !s.once.Fresh?)
    && (s.once.Entered? <==> s.main.Joining?)
    && (s.stopped <==> s.heart.Gone?)
    && (s.once.Finished? ==> s.heart.Gone?)
    && (AfterStop(s.main) || s.closed ==> s.once.Finished?)
    && (s.heart.Leaving? ==> s.stop)
    && !s.panicked
  }

  predicate Writing<M>(pc: Pc<M>) {
    pc.AtHeader? || pc.AtBody?
  }

  lemma SynchronizedWrite<M>(enc: Encoding<M>, s: Server<M>)
    requires Synchronized(enc, s) && Enabled(s, MainStep) && Writing(s.main)
    ensures Synchronized(enc, Do(enc, s, MainStep))
  {
  }

  lemma SynchronizedMain<M>(enc: Encoding<M>, s: Server<M>)
    requires Synchronized(enc, s) && Enabled(s, MainStep) && !Writing(s.main)
    ensures Synchronized(enc, Do(enc, s, MainStep))
  {
  }

  lemma SynchronizedHeart<M>(enc: Encoding<M>, s: Server<M>)
    requires Synchronized(enc, s) && Enabled(s, HeartStep)
    ensures Synchronized(enc, Do(enc, s, HeartStep))
  {
  }

  lemma SynchronizedStep<M>(enc: Encoding<M>, s: Server<M>, a: Action<M>)
    requires Synchronized(enc, s) && Enabled(s, a)
    ensures Synchronized(enc, Do(enc, s, a))
  {
    match a
    case MainStep => if Writing(s.main) { SynchronizedWrite(enc, s); } else { SynchronizedMain(enc, s); }
    case HeartStep => SynchronizedHeart(enc, s);
    case _ =>
  }

  // ---- bytes ----

  /** `part` is what the wire holds after its complete frames: a piece of the frame `f`. */
  predicate Framed(o: Output, part: seq<Byte>, f: Frame) {
    && o.sink.wire == EncodeAll(o.log) + part
    && Fits(f) && |part| < |Encode(f)| && part == Encode(f)[..|part|]
  }

  /**
   The wire is complete frames and a piece of at most one more. While no write has failed
   that piece is `underWay`, and everything is flushed when `settled`.
   */
  ghost predicate Sound(o: Output, underWay: seq<Byte>, settled: bool) {
    && AllFit(o.log)
    && o.flushed <= |o.sink.wire|
    && (!o.sink.broken && settled ==> o.flushed == |o.sink.wire|)
    && exists part, f :: Framed(o, part, f) && (!o.sink.broken ==> part == underWay)
  }

  /** The bytes of the frame that a goroutine has under way. */
  function UnderWay<M>(pc: Pc<M>): seq<Byte> {
    if pc.AtBody? then Header(pc.frame.flag, |pc.frame.payload|) else []
  }

  predicate Unflushed<M>(pc: Pc<M>) {
    pc.AtBody? || pc.Flushing?
  }

  ghost predicate Atomic<M>(s: Server<M>) {
    && Sound(s.out, UnderWay(s.main), !Unflushed(s.main) && !Unflushed(s.heart))
    && (s.main.AtBody? ==> !s.out.sink.broken)
  }

  lemma FramesFit<M(!new)>(enc: Encoding<M>, job: Job<M>)
    requires LawfulEncoding(enc) && FrameFor(enc, job).Some?
    ensures Fits(FrameFor(enc, job).value)
  {
  }

  /** Writing the next chunk of `all` leaves a prefix of `all` behind `base`. */
  lemma WritePiece(sink: Sink, base: seq<Byte>, part: seq<Byte>, chunk: seq<Byte>, all: seq<Byte>)
    requires sink.wire == base + part && part + chunk <= all
    ensures var after := Write(sink, chunk).0;
            var n := |after.wire| - |base|;
            && 0 <= n <= |all| && after.wire == base + all[..n]
            && (!after.broken ==> n == |part| + |chunk|)
  {
  }

  lemma LogOne(log: seq<Frame>, f: Frame)
    ensures EncodeAll(log + [f]) == EncodeAll(log) + Encode(f)
  {
  }

  /** One Write call of a frame keeps the wire's shape; the frame is logged when it is complete. */
  lemma PutSound(o: Output, f: Frame, part: seq<Byte>, chunk: seq<Byte>, all: seq<Byte>)
    requires Fits(f) && all == Encode(f) && chunk != [] && part + chunk <= all
    requires AllFit(o.log) && !o.sink.broken && o.flushed <= |o.sink.wire|
    requires o.sink.wire == EncodeAll(o.log) + part
    ensures Sound(Put(o, f, chunk, part + chunk == all), if part + chunk == all then [] else part + chunk, false)
  {
    var t := Put(o, f, chunk, part + chunk == all);
    WritePiece(o.sink, EncodeAll(o.log), part, chunk, all);
    if |t.log| == |o.log| {
      var part' := all[..|t.sink.wire| - |EncodeAll(o.log)|];
      assert Framed(t, part', f);
    } else {
      LogOne(o.log, f);
      assert Framed(t, [], f);
    }
  }

  lemma PutHeaderSound(o: Output, f: Frame)
    requires Fits(f) && Sound(o, [], true)
    ensures var t := PutHeader(o, f);
            Sound(t, if f.payload == [] then [] else Header(f.flag, |f.payload|), false)
            && (o.sink.broken ==> t == o)
  {
    if !o.sink.broken {
      var h := Header(f.flag, |f.payload|);
      assert [] + h == h && (h == Encode(f) <==> f.payload == []) && h <= Encode(f);
      PutSound(o, f, [], h, Encode(f));
    }
  }

  lemma PutBodySound(o: Output, f: Frame)
    requires Fits(f) && f.payload != [] && !o.sink.broken
    requires Sound(o, Header(f.flag, |f.payload|), false)
    ensures Sound(PutBody(o, f), [], false)
  {
    PutSound(o, f, Header(f.flag, |f.payload|), f.payload, Encode(f));
  }

  /** The writes of a goroutine, one step each, are those of FrameWriter.WriteFrame. */
  lemma PutIsWriteFrame(o: Output, f: Frame)
    ensures var h := PutHeader(o, f);
            WriteFrameTo(o.sink, f) == if !h.sink.broken && f.payload != [] then PutBody(h, f).sink else h.sink
  {
  }

  lemma FlushSound(o: Output, underWay: seq<Byte>)
    requires Sound(o, underWay, false)
    ensures Sound(o.(flushed := |o.sink.wire|), underWay, true)
  {
    var part, f :| Framed(o, part, f) && (!o.sink.broken ==> part == underWay);
    assert Framed(o.(flushed := |o.sink.wire|), part, f);
  }

  lemma AtomicWrite<M(!new)>(enc: Encoding<M>, s: Server<M>)
    requires LawfulEncoding(enc) && Synchronized(enc, s) && Atomic(s) && Writing(s.main)
    ensures Atomic(Do(enc, s, MainStep))
  {
    FramesFit(enc, s.main.job);
    if s.main.AtHeader? {
      PutHeaderSound(s.out, s.main.frame);
    } else {
      PutBodySound(s.out, s.main.frame);
    }
  }

  lemma AtomicHeart<M>(enc: Encoding<M>, s: Server<M>)
    requires Synchronized(enc, s) && Atomic(s) && Enabled(s, HeartStep)
    ensures Atomic(Do(enc, s, HeartStep))
  {
    if Writing(s.heart) {
      PutHeaderSound(s.out, s.heart.frame);
    } else if s.heart.Flushing? {
      FlushSound(s.out, []);
    }
  }

  lemma AtomicStep<M(!new)>(enc: Encoding<M>, s: Server<M>, a: Action<M>)
    requires LawfulEncoding(enc) && Synchronized(enc, s) && Atomic(s) && Enabled(s, a)
    ensures Atomic(Do(enc, s, a))
  {
    if a.MainStep? && Writing(s.main) {
      AtomicWrite(enc, s);
    } else if a.HeartStep? {
      AtomicHeart(enc, s);
    } else if a.MainStep? && s.main.Flushing? {
      FlushSound(s.out, []);
    }
  }
}
