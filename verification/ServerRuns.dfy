/** The guarantees of a stream server, for every run of any length. */
module ServerRuns {
  import opened Prelude
  import opened FrameCodec
  import opened Errors
  import opened StreamServer
  import opened ServerSafety
  import opened ServerFrames

  ghost predicate Inv<M>(enc: Encoding<M>, s: Server<M>) {
    && Synchronized(enc, s) && Atomic(s)
    && Remembered(s) && OneTerminal(enc, s)
    && Pushed(enc, s)
    && Faithful(enc, s) && Accounted(s)
  }

  lemma StartInv<M>(enc: Encoding<M>, beats: bool, ticks: nat, fuse: Option<nat>, late: bool)
    ensures Inv(enc, Start(beats, ticks, fuse, late))
  {
    var s: Server<M> := Start(beats, ticks, fuse, late);
    assert Framed(s.out, [], Frame(FLAG_DATA, []));
  }

  lemma InvStep<M(!new)>(enc: Encoding<M>, s: Server<M>, t: Server<M>)
    requires LawfulEncoding(enc) && Inv(enc, s) && Step(enc, s, t)
    ensures Inv(enc, t)
  {
    var a :| Enabled(s, a) && t == Do(enc, s, a);
    SynchronizedStep(enc, s, a);
    AtomicStep(enc, s, a);
    RememberedStep(enc, s, a);
    OneTerminalStep(enc, s, a);
    PushedStep(enc, s, a);
    FaithfulStep(enc, s, a);
    AccountedStep(enc, s, a);
  }

  lemma {:induction false} RunInv<M(!new)>(enc: Encoding<M>, run: seq<Server<M>>, i: nat)
    requires LawfulEncoding(enc) && IsRun(enc, run) && i < |run|
    ensures Inv(enc, run[i])
  {
    if i == 0 {
      var beats, ticks: nat, fuse, late :| run[0] == Start(beats, ticks, fuse, late);
      StartInv(enc, beats, ticks, fuse, late);
    } else {
      RunInv(enc, run, i - 1);
      InvStep(enc, run[i - 1], run[i]);
    }
  }

  /**
   Frame atomicity. The wire decodes to the frames logged as complete; what follows them
   is a piece of one frame, which is either being written by the holder of the lock or was
   torn by a failed write. With the lock free and no failure there is no piece and
   everything is flushed.
   */
  lemma FrameAtomicity<M(!new)>(enc: Encoding<M>, run: seq<Server<M>>, i: nat)
    requires LawfulEncoding(enc) && IsRun(enc, run) && i < |run|
    ensures var s := run[i];
            && Decode(s.out.sink.wire, 0).frames == s.out.log
            && EncodeAll(s.out.log) <= s.out.sink.wire
            && (s.out.sink.wire != EncodeAll(s.out.log) ==>
                  s.out.sink.broken || (s.mu.ByMain? && s.main.AtBody?
                    && s.out.sink.wire == EncodeAll(s.out.log) + UnderWay(s.main)))
            && (s.mu.Free? && !s.out.sink.broken ==>
                  s.out.sink.wire == EncodeAll(s.out.log) && s.out.flushed == |s.out.sink.wire|)
  {
    RunInv(enc, run, i);
    var s := run[i];
    var part, f :| Framed(s.out, part, f) && (!s.out.sink.broken ==> part == UnderWay(s.main));
    PartialFrame(f, |part|, 0);
    DecodeAppend(s.out.log, part, 0);
  }

  /**
   The Data frames on the wire carry, in order, the messages whose Send returned nil, and at
   most one more whose Send has not returned or has failed; none more while the handler runs
   and no write has failed.
   */
  lemma SendsOnWire<M(!new)>(enc: Encoding<M>, run: seq<Server<M>>, i: nat)
    requires LawfulEncoding(enc) && IsRun(enc, run) && i < |run|
    ensures var s := run[i];
            && Carries(enc, Decode(s.out.sink.wire, 0).frames, s.written)
            && s.accepted <= s.written && |s.written| <= |s.accepted| + 1
            && (s.main.Running? && !s.out.sink.broken ==> s.written == s.accepted)
  {
    RunInv(enc, run, i);
    FrameAtomicity(enc, run, i);
  }

  /**
   A message is flushed before its Send returns nil: in every state of every run without a
   write failure, whoever holds the mutex, the flushed bytes are whole frames that carry at
   least the accepted messages.
   */
  lemma AcceptedFlushed<M(!new)>(enc: Encoding<M>, run: seq<Server<M>>, i: nat) returns (msgs: seq<M>)
    requires LawfulEncoding(enc) && IsRun(enc, run) && i < |run| && !run[i].out.sink.broken
    ensures var s := run[i];
            && s.out.flushed <= |s.out.sink.wire|
            && s.accepted <= msgs
            && Carries(enc, Decode(s.out.sink.wire[..s.out.flushed], 0).frames, msgs)
            && Decode(s.out.sink.wire[..s.out.flushed], 0).end == AtEof
  {
    RunInv(enc, run, i);
    var s := run[i];
    msgs := FlushedCarries(enc, s);
    FrameAtomicity(enc, run, i);
    FlushedBytes(s);
    DecodeRoundTrip(FlushedLog(s), 0);
  }

  lemma FlushedBytes<M>(s: Server<M>)
    requires EncodeAll(s.out.log) <= s.out.sink.wire && s.out.flushed == |EncodeAll(FlushedLog(s))| <= |s.out.sink.wire|
    ensures s.out.sink.wire[..s.out.flushed] == EncodeAll(FlushedLog(s))
  {
    assert EncodeAll(FlushedLog(s)) <= EncodeAll(s.out.log);
    PrefixTransitive(EncodeAll(FlushedLog(s)), EncodeAll(s.out.log), s.out.sink.wire);
  }

  // ---- terminal silence ----

  /** A wire only grows, not at all after a terminal frame, and a write failure is for good. */
  predicate Extends(o: Output, p: Output) {
    && o.log <= p.log && o.sink.wire <= p.sink.wire
    && (o.sink.broken ==> p.sink.broken)
    && (Ended(o.log) ==> p.log == o.log && p.sink == o.sink)
  }

  /** One write extends the wire. */
  lemma PutExtends(o: Output, f: Frame)
    requires !Ended(o.log)
    ensures Extends(o, PutHeader(o, f)) && Extends(o, PutBody(o, f))
  {
  }

  lemma MainExtends<M>(enc: Encoding<M>, s: Server<M>)
    requires Synchronized(enc, s) && OneTerminal(enc, s) && Enabled(s, MainStep)
    ensures Extends(s.out, Do(enc, s, MainStep).out)
  {
    if Writing(s.main) {
      PutExtends(s.out, s.main.frame);
    }
  }

  lemma HeartExtends<M>(enc: Encoding<M>, s: Server<M>)
    requires Synchronized(enc, s) && OneTerminal(enc, s) && Enabled(s, HeartStep)
    ensures Extends(s.out, Do(enc, s, HeartStep).out)
  {
    if Writing(s.heart) {
      PutExtends(s.out, s.heart.frame);
    }
  }

  lemma StepExtends<M(!new)>(enc: Encoding<M>, s: Server<M>, t: Server<M>)
    requires Synchronized(enc, s) && OneTerminal(enc, s) && Step(enc, s, t)
    ensures Extends(s.out, t.out)
  {
    var a :| Enabled(s, a) && t == Do(enc, s, a);
    match a
    case MainStep => MainExtends(enc, s);
    case HeartStep => HeartExtends(enc, s);
    case _ =>
  }

  lemma ExtendsTransitive(o: Output, p: Output, q: Output)
    requires Extends(o, p) && Extends(p, q)
    ensures Extends(o, q)
  {
  }

  lemma {:induction false} ChainExtends(outs: seq<Output>, i: nat, j: nat)
    requires i <= j < |outs|
    requires forall k, m :: 0 <= k && m == k + 1 < |outs| ==> Extends(outs[k], outs[m])
    ensures Extends(outs[i], outs[j])
    decreases j
  {
    if i < j {
      ChainExtends(outs, i, j - 1);
      ExtendsTransitive(outs[i], outs[j - 1], outs[j]);
    }
  }

  /** Every run puts at most one Final or Error frame on the wire, and not a byte after it. */
  lemma TerminalSilence<M(!new)>(enc: Encoding<M>, run: seq<Server<M>>, i: nat, j: nat)
    requires LawfulEncoding(enc) && IsRun(enc, run) && i <= j < |run|
    ensures Tidy(run[i].out.log) && Extends(run[i].out, run[j].out)
  {
    RunInv(enc, run, i);
    var outs := seq(|run|, k requires 0 <= k < |run| => run[k].out);
    forall k, m | 0 <= k && m == k + 1 < |outs| ensures Extends(outs[k], outs[m]) {
      RunInv(enc, run, k);
      StepExtends(enc, run[k], run[m]);
    }
    ChainExtends(outs, i, j);
  }

  /**
   When the handler has returned and HandleStream too, and no write failed, the stream has
   a terminal frame exactly when the message that was to end it marshals: the argument of
   the first Close or, if Close was never called, the reply built from a non-nil error.
   */
  lemma TerminalFrameIff<M(!new)>(enc: Encoding<M>, run: seq<Server<M>>, i: nat)
    requires LawfulEncoding(enc) && IsRun(enc, run) && i < |run|
    requires run[i].main.Gone? && !run[i].out.sink.broken
    ensures run[i].result.Some?
    ensures var s := run[i];
            && (Ended(s.out.log) <==>
                 if s.closing.Some? then FinalPayload(enc, s.closing.value).Some?
                 else s.result.value.Some? && enc.replies.marshal(BuildErrorReply(s.result.value.value)).Some?)
            && (Ended(s.out.log) ==>
                 s.out.log[|s.out.log| - 1] ==
                   if s.closing.Some? then Frame(FLAG_FINAL, FinalPayload(enc, s.closing.value).value)
                   else Frame(FLAG_ERROR, enc.replies.marshal(BuildErrorReply(s.result.value.value)).value))
  {
    RunInv(enc, run, i);
  }

  /** A Close whose message does not marshal, as the first call of a handler. */
  lemma FailedClose<M(!new)>(enc: Encoding<M>, m: M) returns (run: seq<Server<M>>)
    requires enc.messages.marshal(m).None?
    ensures IsRun(enc, run)
    ensures run[|run| - 1] ==
              Start<M>(false, 0, None, true).(once := Finished, stop := true, closed := true, closing := Some(Some(m)))
  {
    var s: Server<M> := Start(false, 0, None, true);
    run := Extend(enc, [s], Call(Close(Some(m))));
    run := Extend(enc, run, MainStep);
    run := Extend(enc, run, MainStep);
    assert run[|run| - 1] == s.(main := Locking(Close(Some(m))), once := Finished, stop := true);
    run := Extend(enc, run, MainStep);
    run := Extend(enc, run, MainStep);
    run := Extend(enc, run, MainStep);
  }

  /** It leaves a stream without a terminal frame, even if the handler then returns an error. */
  lemma SilentClose<M(!new)>(enc: Encoding<M>, m: M, e: Err) returns (run: seq<Server<M>>)
    requires enc.messages.marshal(m).None?
    ensures IsRun(enc, run)
    ensures var s := run[|run| - 1];
            s.main.Gone? && s.closing == Some(Some(m)) && s.result == Some(Some(e)) && s.out.sink.wire == []
  {
    run := FailedClose(enc, m);
    run := Extend(enc, run, Call(Tail(Some(e))));
    run := Extend(enc, run, MainStep);
  }

  lemma Extend<M(!new)>(enc: Encoding<M>, run: seq<Server<M>>, a: Action<M>) returns (longer: seq<Server<M>>)
    requires IsRun(enc, run) && Enabled(run[|run| - 1], a)
    ensures IsRun(enc, longer)
    ensures longer[|longer| - 1] == Do(enc, run[|run| - 1], a)
  {
    longer := run + [Do(enc, run[|run| - 1], a)];
    assert Step(enc, run[|run| - 1], longer[|run|]);
  }

  // ---- the join ----

  /**
   No channel is closed twice and no mutex released by a non-holder; Close and the return
   path wait for the heartbeat without the lock; the heartbeat never finds the stream
   closed; and once HandleStream has returned no goroutine can take a step.
   */
  lemma JoinSafety<M(!new)>(enc: Encoding<M>, run: seq<Server<M>>, i: nat)
    requires LawfulEncoding(enc) && IsRun(enc, run) && i < |run|
    ensures var s := run[i];
            && !s.panicked
            && !(Holds(s.main) && Holds(s.heart))
            && (s.main.Joining? ==> !s.mu.ByMain?)
            && (s.closed ==> s.heart.Gone?)
            && (s.main.Gone? ==> s.heart.Gone? && forall a :: !Enabled(s, a))
  {
    RunInv(enc, run, i);
  }

  /** No deadlock: until HandleStream has returned, some goroutine can step. */
  lemma NoDeadlock<M(!new)>(enc: Encoding<M>, run: seq<Server<M>>, i: nat) returns (a: Action<M>)
    requires LawfulEncoding(enc) && IsRun(enc, run) && i < |run|
    requires !run[i].main.Gone?
    ensures Enabled(run[i], a)
    ensures run[i].main.Joining? && !run[i].stopped ==> a.HeartStep? || a.HeartStop?
  {
    RunInv(enc, run, i);
    var s := run[i];
    a := if s.main.Running? then Call(Tail(None))
         else if Runnable(s, s.main) then MainStep
         else if s.heart.Waiting? then HeartStop
         else HeartStep;
  }

  function Rank<M>(pc: Pc<M>): nat {
    match pc
    case Running => 0
    case Gone => 0
    case Leaving => 1
    case Waiting => 2
    case Unlocking(_, _) => 3
    case Flushing(_) => 4
    case AtBody(_, _) => 5
    case AtHeader(_, _) => 6
    case Locked(_) => 7
    case Locking(_) => 8
    case Joining(_) => 9
    case Stopping(_) => 10
  }

  /** An upper bound on the steps until the handler runs again or HandleStream returns. */
  function StepsLeft<M>(s: Server<M>): nat {
    Rank(s.main) + Rank(s.heart) + 9 * s.ticks
  }

  lemma MainStepDecreases<M>(enc: Encoding<M>, s: Server<M>)
    requires Enabled(s, MainStep) && MainPoint(enc, s.main)
    ensures StepsLeft(Do(enc, s, MainStep)) < StepsLeft(s)
  {
  }

  lemma HeartStepDecreases<M>(enc: Encoding<M>, s: Server<M>)
    requires Enabled(s, HeartStep) && HeartPoint(s.heart)
    ensures StepsLeft(Do(enc, s, HeartStep)) < StepsLeft(s)
  {
  }

  lemma StepDecreases<M(!new)>(enc: Encoding<M>, s: Server<M>, t: Server<M>)
    requires Step(enc, s, t) && !s.main.Running?
    requires HeartPoint(s.heart) && MainPoint(enc, s.main)
    ensures StepsLeft(t) < StepsLeft(s)
  {
    var a :| Enabled(s, a) && t == Do(enc, s, a);
    match a
    case MainStep => MainStepDecreases(enc, s);
    case HeartStep => HeartStepDecreases(enc, s);
    case _ =>
  }

  /**
   Every Send, every Close and the return path finish: a stretch of a run during which the
   handler does not run has at most StepsLeft steps, whatever the scheduling, and it can
   only get stuck with both goroutines gone.
   */
  lemma {:induction false} CallsFinish<M(!new)>(enc: Encoding<M>, run: seq<Server<M>>, i: nat, j: nat)
    requires LawfulEncoding(enc) && IsRun(enc, run) && i <= j < |run|
    requires forall k :: i <= k < j ==> !run[k].main.Running?
    ensures j - i + StepsLeft(run[j]) <= StepsLeft(run[i])
    ensures (forall a :: !Enabled(run[j], a)) ==> run[j].main.Gone? && run[j].heart.Gone?
    decreases j
  {
    RunInv(enc, run, j);
    if i < j {
      var k := j - 1;
      CallsFinish(enc, run, i, k);
      RunInv(enc, run, k);
      StepDecreases(enc, run[k], run[k + 1]);
    }
    if !run[j].main.Gone? {
      var a := NoDeadlock(enc, run, j);
    }
  }
}
