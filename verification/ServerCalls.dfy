/**
 What the handler's calls make of a stream. A run is labelled with its actions, and the
 server's answer to every Send, Close and return is compared with plain functions of the
 list of calls, which know nothing of goroutines, locks or frames. Likewise every tick of
 the heartbeat's ticker is compared with the heartbeat frames on the wire.
 */
module ServerCalls {
  import opened Prelude
  import opened FrameCodec
  import opened Errors
  import opened StreamServer
  import opened ServerSafety
  import opened ServerFrames
  import opened ServerRuns

  /** A run together with the action of each of its steps. */
  ghost predicate IsTrace<M(!new)>(enc: Encoding<M>, run: seq<Server<M>>, acts: seq<Action<M>>) {
    && |run| == |acts| + 1
    && (exists beats, ticks: nat, fuse, late :: run[0] == Start(beats, ticks, fuse, late))
    && forall i, j :: 0 <= i < |acts| && j == i + 1 ==> Takes(enc, run[i], acts[i], run[j])
  }

  predicate Takes<M(==)>(enc: Encoding<M>, s: Server<M>, a: Action<M>, t: Server<M>) {
    Enabled(s, a) && t == Do(enc, s, a)
  }

  lemma TakesIsStep<M(!new)>(enc: Encoding<M>, s: Server<M>, a: Action<M>, t: Server<M>)
    requires Takes(enc, s, a, t)
    ensures Step(enc, s, t)
  {
  }

  lemma StepTakes<M(!new)>(enc: Encoding<M>, s: Server<M>, t: Server<M>) returns (a: Action<M>)
    requires Step(enc, s, t)
    ensures Takes(enc, s, a, t)
  {
    a :| Enabled(s, a) && t == Do(enc, s, a);
  }

  lemma TraceIsRun<M(!new)>(enc: Encoding<M>, run: seq<Server<M>>, acts: seq<Action<M>>)
    requires IsTrace(enc, run, acts)
    ensures IsRun(enc, run)
  {
    forall i, j | 0 <= i && j == i + 1 < |run| ensures Step(enc, run[i], run[j]) {
      TakesIsStep(enc, run[i], acts[i], run[j]);
    }
  }

  lemma FrontIsRun<M(!new)>(enc: Encoding<M>, run: seq<Server<M>>)
    requires IsRun(enc, run) && |run| > 1
    ensures IsRun(enc, run[..|run| - 1]) && Step(enc, run[|run| - 2], run[|run| - 1])
  {
  }

  lemma TraceExtends<M(!new)>(enc: Encoding<M>, run: seq<Server<M>>, acts: seq<Action<M>>, a: Action<M>, t: Server<M>)
    requires IsTrace(enc, run, acts) && Takes(enc, run[|acts|], a, t)
    ensures IsTrace(enc, run + [t], acts + [a])
  {
  }

  /** Every run can be labelled. */
  lemma {:induction false} RunHasTrace<M(!new)>(enc: Encoding<M>, run: seq<Server<M>>) returns (acts: seq<Action<M>>)
    requires IsRun(enc, run)
    ensures IsTrace(enc, run, acts)
    decreases |run|
  {
    acts := [];
    if |run| > 1 {
      var front, t := run[..|run| - 1], run[|run| - 1];
      FrontIsRun(enc, run);
      acts := RunHasTrace(enc, front);
      var a := StepTakes(enc, run[|run| - 2], t);
      TraceExtends(enc, front, acts, a, t);
      assert front + [t] == run;
      acts := acts + [a];
    }
  }

  // ---- the calls, without the server ----

  /** The calls of the handler, its return last. */
  function Calls<M>(acts: seq<Action<M>>): seq<Job<M>>
    decreases |acts|
  {
    if acts == [] then []
    else
      var a := acts[|acts| - 1];
      Calls(acts[..|acts| - 1]) + if a.Call? then [a.job] else []
  }

  /** The argument of the first Close. */
  function FirstClose<M>(calls: seq<Job<M>>): Option<Option<M>>
    decreases |calls|
  {
    if calls == [] then None
    else
      var before, job := FirstClose(calls[..|calls| - 1]), calls[|calls| - 1];
      if before.None? && job.Close? then Some(job.last) else before
  }

  /** The messages given to Send before any Close, without those that do not marshal. */
  function Sent<M>(enc: Encoding<M>, calls: seq<Job<M>>): seq<M>
    decreases |calls|
  {
    if calls == [] then []
    else
      var front, job := calls[..|calls| - 1], calls[|calls| - 1];
      Sent(enc, front) +
        if job.Send? && FirstClose(front).None? && enc.messages.marshal(job.msg).Some? then [job.msg] else []
  }

  /** What the handler returned, once it has. */
  function Returned<M>(calls: seq<Job<M>>): Option<Option<Err>> {
    if calls != [] && calls[|calls| - 1].Tail? then Some(calls[|calls| - 1].result) else None
  }

  lemma OneMoreCall<M>(enc: Encoding<M>, calls: seq<Job<M>>, job: Job<M>)
    ensures FirstClose(calls + [job]) == if FirstClose(calls).None? && job.Close? then Some(job.last) else FirstClose(calls)
    ensures Sent(enc, calls + [job]) == Sent(enc, calls) +
              if job.Send? && FirstClose(calls).None? && enc.messages.marshal(job.msg).Some? then [job.msg] else []
    ensures Returned(calls + [job]) == if job.Tail? then Some(job.result) else None
  {
    assert (calls + [job])[..|calls|] == calls;
  }

  lemma OneMoreAction<M>(acts: seq<Action<M>>, k: nat)
    requires k < |acts|
    ensures Calls(acts[..k + 1]) == Calls(acts[..k]) + if acts[k].Call? then [acts[k].job] else []
  {
    assert acts[..k + 1][..k] == acts[..k];
  }

  // ---- the server against its calls ----

  /** The Close that has been called and has not yet found the stream open. */
  function Shutting<M>(pc: Pc<M>): Option<Option<M>> {
    if (pc.Stopping? || pc.Joining? || pc.Locking? || pc.Locked?) && pc.job.Close? then Some(pc.job.last) else None
  }

  /** The message whose Send is under way and will succeed unless a write fails. */
  function Pending<M>(enc: Encoding<M>, s: Server<M>): seq<M> {
    if Engaged(s.main) && s.main.job.Send?
       && (if s.main.Unlocking? then s.main.ok else !s.closed && enc.messages.marshal(s.main.job.msg).Some?)
    then [s.main.job.msg] else []
  }

  predicate Returning<M>(pc: Pc<M>) {
    pc.Gone? || ((Engaged(pc) || pc.Stopping? || pc.Joining?) && pc.job.Tail?)
  }

  predicate Tally<M(==)>(enc: Encoding<M>, s: Server<M>, calls: seq<Job<M>>) {
    && FirstClose(calls) == (if s.closing.Some? then s.closing else Shutting(s.main))
    && s.result == Returned(calls) && (s.result.Some? ==> Returning(s.main))
    && (if s.out.sink.broken then s.written <= Sent(enc, calls)
        else s.accepted + Pending(enc, s) == Sent(enc, calls))
  }

  lemma TallyCall<M>(enc: Encoding<M>, s: Server<M>, job: Job<M>, calls: seq<Job<M>>)
    requires Synchronized(enc, s) && Remembered(s) && Tally(enc, s, calls) && Enabled(s, Call(job))
    ensures Tally(enc, Do(enc, s, Call(job)), calls + [job])
  {
    OneMoreCall(enc, calls, job);
  }

  lemma TallyWrite<M>(enc: Encoding<M>, s: Server<M>, calls: seq<Job<M>>)
    requires Synchronized(enc, s) && Remembered(s) && Accounted(s) && Tally(enc, s, calls) && Writing(s.main)
    ensures Tally(enc, Do(enc, s, MainStep), calls)
  {
  }

  lemma TallyUnlock<M>(enc: Encoding<M>, s: Server<M>, calls: seq<Job<M>>)
    requires Accounted(s) && Tally(enc, s, calls) && s.main.Unlocking?
    ensures Tally(enc, Do(enc, s, MainStep), calls)
  {
  }

  lemma TallyLocked<M>(enc: Encoding<M>, s: Server<M>, calls: seq<Job<M>>)
    requires MainPoint(enc, s.main) && Remembered(s) && Tally(enc, s, calls) && s.main.Locked?
    ensures Tally(enc, Do(enc, s, MainStep), calls)
  {
  }

  lemma TallyStop<M>(enc: Encoding<M>, s: Server<M>, calls: seq<Job<M>>)
    requires MainPoint(enc, s.main) && Tally(enc, s, calls)
    requires Enabled(s, MainStep) && (s.main.Stopping? || s.main.Joining?)
    ensures Tally(enc, Do(enc, s, MainStep), calls)
  {
  }

  /** The other steps of main change no message and neither open nor close the stream. */
  lemma TallyMain<M>(enc: Encoding<M>, s: Server<M>, calls: seq<Job<M>>)
    requires MainPoint(enc, s.main) && Remembered(s) && Tally(enc, s, calls)
    requires Enabled(s, MainStep) && (s.main.Locking? || s.main.Flushing?)
    ensures Tally(enc, Do(enc, s, MainStep), calls)
  {
  }

  lemma TallyHeart<M>(enc: Encoding<M>, s: Server<M>, calls: seq<Job<M>>)
    requires Synchronized(enc, s) && Accounted(s) && Tally(enc, s, calls) && Enabled(s, HeartStep)
    ensures Tally(enc, Do(enc, s, HeartStep), calls)
  {
    var t := Do(enc, s, HeartStep);
    assert t.main == s.main && t.closing == s.closing && t.closed == s.closed && t.result == s.result;
    assert t.accepted == s.accepted && t.written == s.written;
    assert Writing(s.heart) ==> InFlight(s.main) == [];
  }

  lemma TallyStep<M>(enc: Encoding<M>, s: Server<M>, a: Action<M>, t: Server<M>, calls: seq<Job<M>>)
    requires Synchronized(enc, s) && Remembered(s) && Accounted(s) && Tally(enc, s, calls) && Takes(enc, s, a, t)
    ensures Tally(enc, t, calls + if a.Call? then [a.job] else [])
  {
    assert calls + [] == calls;
    match a
    case Call(job) => TallyCall(enc, s, job, calls);
    case MainStep =>
      if Writing(s.main) {
        TallyWrite(enc, s, calls);
      } else if s.main.Unlocking? {
        TallyUnlock(enc, s, calls);
      } else if s.main.Locked? {
        TallyLocked(enc, s, calls);
      } else if s.main.Stopping? || s.main.Joining? {
        TallyStop(enc, s, calls);
      } else {
        TallyMain(enc, s, calls);
      }
    case HeartStep => TallyHeart(enc, s, calls);
    case _ =>
  }

  /** A terminal frame comes after every message that was to be sent. */
  predicate Whole<M(==)>(enc: Encoding<M>, s: Server<M>, calls: seq<Job<M>>) {
    Ended(s.out.log) ==> s.accepted == Sent(enc, calls)
  }

  lemma WholeCall<M>(enc: Encoding<M>, s: Server<M>, job: Job<M>, calls: seq<Job<M>>)
    requires Remembered(s) && OneTerminal(enc, s) && Tally(enc, s, calls) && Whole(enc, s, calls)
    requires Enabled(s, Call(job))
    ensures Whole(enc, Do(enc, s, Call(job)), calls + [job])
  {
    OneMoreCall(enc, calls, job);
  }

  lemma WholeWrite<M>(enc: Encoding<M>, s: Server<M>, calls: seq<Job<M>>)
    requires MainPoint(enc, s.main) && OneTerminal(enc, s) && Tally(enc, s, calls) && Writing(s.main)
    ensures Whole(enc, Do(enc, s, MainStep), calls)
  {
    PutLog(s.out, s.main.frame);
    assert !Ended(s.out.log);
  }

  lemma WholeMain<M>(enc: Encoding<M>, s: Server<M>, calls: seq<Job<M>>)
    requires Remembered(s) && OneTerminal(enc, s) && Whole(enc, s, calls)
    requires Enabled(s, MainStep) && !Writing(s.main)
    ensures Whole(enc, Do(enc, s, MainStep), calls)
  {
  }

  lemma WholeHeart<M>(enc: Encoding<M>, s: Server<M>, calls: seq<Job<M>>)
    requires HeartPoint(s.heart) && Whole(enc, s, calls) && Enabled(s, HeartStep)
    ensures Whole(enc, Do(enc, s, HeartStep), calls)
  {
    if Writing(s.heart) {
      PutLog(s.out, s.heart.frame);
    }
  }

  lemma WholeStep<M>(enc: Encoding<M>, s: Server<M>, a: Action<M>, t: Server<M>, calls: seq<Job<M>>)
    requires Synchronized(enc, s) && Remembered(s) && OneTerminal(enc, s)
    requires Tally(enc, s, calls) && Whole(enc, s, calls) && Takes(enc, s, a, t)
    ensures Whole(enc, t, calls + if a.Call? then [a.job] else [])
  {
    assert calls + [] == calls;
    match a
    case Call(job) => WholeCall(enc, s, job, calls);
    case MainStep => if Writing(s.main) { WholeWrite(enc, s, calls); } else { WholeMain(enc, s, calls); }
    case HeartStep => WholeHeart(enc, s, calls);
    case _ =>
  }

  lemma {:induction false} TraceTally<M(!new)>(enc: Encoding<M>, run: seq<Server<M>>, acts: seq<Action<M>>, i: nat)
    requires LawfulEncoding(enc) && IsTrace(enc, run, acts) && i < |run|
    ensures Tally(enc, run[i], Calls(acts[..i])) && Whole(enc, run[i], Calls(acts[..i]))
  {
    if i > 0 {
      var k := i - 1;
      TraceIsRun(enc, run, acts);
      TraceTally(enc, run, acts, k);
      RunInv(enc, run, k);
      TallyStep(enc, run[k], acts[k], run[i], Calls(acts[..k]));
      WholeStep(enc, run[k], acts[k], run[i], Calls(acts[..k]));
      OneMoreAction(acts, k);
    }
  }

  /**
   Every Send that can succeed does. Between calls, and after HandleStream has returned, the
   messages whose Send returned nil are exactly those that marshal and were given to Send
   before any Close, and the Data frames on the wire carry them in that order; a failed
   write only makes the list end early.
   */
  lemma EverySendAccepted<M(!new)>(enc: Encoding<M>, run: seq<Server<M>>, acts: seq<Action<M>>, i: nat)
    requires LawfulEncoding(enc) && IsTrace(enc, run, acts) && i < |run|
    ensures var s, calls := run[i], Calls(acts[..i]);
            && s.accepted <= s.written <= Sent(enc, calls)
            && ((s.main.Running? || s.main.Gone?) && !s.out.sink.broken ==>
                  && s.accepted == Sent(enc, calls)
                  && Carries(enc, Decode(s.out.sink.wire, 0).frames, Sent(enc, calls)))
  {
    TraceIsRun(enc, run, acts);
    TraceTally(enc, run, acts, i);
    RunInv(enc, run, i);
    SendsOnWire(enc, run, i);
  }

  lemma OnlyRunningCalls<M>(enc: Encoding<M>, s: Server<M>, a: Action<M>, t: Server<M>)
    requires Takes(enc, s, a, t) && !s.main.Running?
    ensures !a.Call?
  {
  }

  /** No call is made while another is under way. */
  lemma {:induction false} NoNewCalls<M(!new)>(enc: Encoding<M>, run: seq<Server<M>>, acts: seq<Action<M>>, i: nat, j: nat)
    requires IsTrace(enc, run, acts) && i <= j < |run|
    requires forall k :: i <= k < j ==> !run[k].main.Running?
    ensures Calls(acts[..j]) == Calls(acts[..i])
    decreases j
  {
    if i < j {
      var k := j - 1;
      NoNewCalls(enc, run, acts, i, k);
      OnlyRunningCalls(enc, run[k], acts[k], run[j]);
      OneMoreAction(acts, k);
    }
  }

  /**
   One Send, from the moment it asks for the mutex until the handler runs again, among any
   steps of the heartbeat: without a write failure it returns nil exactly when the stream
   was open and the message marshals.
   */
  lemma SendReturnsNilIff<M(!new)>(enc: Encoding<M>, run: seq<Server<M>>, i: nat, j: nat, m: M)
    requires LawfulEncoding(enc) && IsRun(enc, run) && i <= j < |run|
    requires run[i].main == Locking(Send(m)) && run[j].main.Running? && !run[j].out.sink.broken
    requires forall k :: i <= k < j ==> !run[k].main.Running?
    ensures run[j].accepted ==
              run[i].accepted + if !run[i].closed && enc.messages.marshal(m).Some? then [m] else []
  {
    var acts := RunHasTrace(enc, run);
    TerminalSilence(enc, run, i, j);
    NoNewCalls(enc, run, acts, i, j);
    TraceTally(enc, run, acts, i);
    TraceTally(enc, run, acts, j);
  }

  /** The frame of a Send or Close can be made: its message marshals, or it is a Close without one. */
  predicate Marshals<M>(enc: Encoding<M>, job: Job<M>) {
    match job
    case Send(m) => enc.messages.marshal(m).Some?
    case Close(Some(m)) => enc.messages.marshal(m).Some?
    case Close(None) => true
    case _ => false
  }

  /** A Send or Close under way, on a stream that was `open` when it asked for the mutex. */
  predicate Calling<M(==)>(enc: Encoding<M>, s: Server<M>, job: Job<M>, open: bool) {
    && Engaged(s.main) && s.main.job == job
    && (s.main.Locking? || s.main.Locked? ==> s.closed == !open)
    && (Writing(s.main) || s.main.Flushing? ==> open && Marshals(enc, job))
    && (s.main.Unlocking? && !s.out.sink.broken ==> (s.main.ok <==> open && Marshals(enc, job)))
  }

  lemma CallingWrite<M>(enc: Encoding<M>, s: Server<M>, job: Job<M>, open: bool)
    requires (job.Send? || job.Close?) && Writing(s.main) && Calling(enc, s, job, open)
    ensures Calling(enc, Do(enc, s, MainStep), job, open)
  {
  }

  lemma CallingMain<M>(enc: Encoding<M>, s: Server<M>, job: Job<M>, open: bool)
    requires (job.Send? || job.Close?) && Enabled(s, MainStep) && !Writing(s.main) && Calling(enc, s, job, open)
    ensures var t := Do(enc, s, MainStep);
            t.main.Running? || Calling(enc, t, job, open)
  {
  }

  lemma CallingStep<M>(enc: Encoding<M>, s: Server<M>, a: Action<M>, t: Server<M>, job: Job<M>, open: bool)
    requires (job.Send? || job.Close?) && Synchronized(enc, s) && Takes(enc, s, a, t) && Calling(enc, s, job, open)
    ensures t.main.Running? || Calling(enc, t, job, open)
  {
    if a.MainStep? && Writing(s.main) {
      CallingWrite(enc, s, job, open);
    } else if a.MainStep? {
      CallingMain(enc, s, job, open);
    } else {
      assert t.main == s.main && t.closed == s.closed;
      assert s.main.Unlocking? ==> t.out == s.out;
    }
  }

  lemma {:induction false} CallUnderWay<M(!new)>(enc: Encoding<M>, run: seq<Server<M>>, i: nat, j: nat, job: Job<M>)
    requires LawfulEncoding(enc) && IsRun(enc, run) && i <= j < |run|
    requires run[i].main == Locking(job) && (job.Send? || job.Close?)
    requires forall k :: i <= k <= j ==> !run[k].main.Running?
    ensures Calling(enc, run[j], job, !run[i].closed)
    decreases j
  {
    if i < j {
      var k, open := j - 1, !run[i].closed;
      CallUnderWay(enc, run, i, k, job);
      RunInv(enc, run, k);
      var a := StepTakes(enc, run[k], run[j]);
      CallingStep(enc, run[k], a, run[j], job, open);
    }
  }

  /**
   One Send or Close, from the moment it asks for the mutex until it is about to return,
   among any steps of the heartbeat: without a write failure it returns nil exactly when the
   stream was open and the message, if there is one, marshals.
   */
  lemma ReturnsNilIff<M(!new)>(enc: Encoding<M>, run: seq<Server<M>>, i: nat, j: nat, job: Job<M>)
    requires LawfulEncoding(enc) && IsRun(enc, run) && i <= j < |run|
    requires run[i].main == Locking(job) && (job.Send? || job.Close?)
    requires forall k :: i <= k <= j ==> !run[k].main.Running?
    requires run[j].main.Unlocking? && !run[j].out.sink.broken
    ensures run[j].main.job == job && (run[j].main.ok <==> !run[i].closed && Marshals(enc, job))
  {
    CallUnderWay(enc, run, i, j, job);
  }

  // ---- the heartbeat ----

  /** The number of Heartbeat frames. */
  function Beats(frames: seq<Frame>): nat
    decreases |frames|
  {
    if frames == [] then 0
    else Beats(frames[..|frames| - 1]) + if frames[|frames| - 1].flag == 0x3 then 1 else 0
  }

  lemma OneMoreFrame(frames: seq<Frame>, f: Frame)
    ensures Beats(frames + [f]) == Beats(frames) + if f.flag == 0x3 then 1 else 0
  {
    assert (frames + [f])[..|frames|] == frames;
  }

  /** A tick that the heartbeat has received and not yet written. */
  function Received<M>(heart: Pc<M>): nat {
    if heart.Locking? || heart.Locked? || heart.AtHeader? then 1 else 0
  }

  predicate Ticked<M>(s: Server<M>, ticks: nat) {
    var seen := Beats(s.out.log) + Received(s.heart) + s.ticks;
    if s.out.sink.broken then seen <= ticks else seen == ticks
  }

  lemma TickedWrite<M>(enc: Encoding<M>, s: Server<M>, ticks: nat)
    requires MainPoint(enc, s.main) && Ticked(s, ticks) && Writing(s.main)
    ensures Ticked(Do(enc, s, MainStep), ticks)
  {
    var t := Do(enc, s, MainStep);
    PutLog(s.out, s.main.frame);
    OneMoreFrame(s.out.log, s.main.frame);
    assert s.main.frame.flag != 0x3;
    assert t.heart == s.heart && t.ticks == s.ticks && Beats(t.out.log) == Beats(s.out.log);
  }

  lemma TickedBeat<M>(enc: Encoding<M>, s: Server<M>, ticks: nat)
    requires HeartPoint(s.heart) && Ticked(s, ticks) && Writing(s.heart)
    ensures Ticked(Do(enc, s, HeartStep), ticks)
  {
    var t := Do(enc, s, HeartStep);
    PutLog(s.out, s.heart.frame);
    OneMoreFrame(s.out.log, s.heart.frame);
    assert t.heart.Flushing? && t.ticks == s.ticks;
  }

  lemma TickedStep<M>(enc: Encoding<M>, s: Server<M>, a: Action<M>, t: Server<M>, ticks: nat)
    requires Synchronized(enc, s) && Ticked(s, ticks) && Takes(enc, s, a, t)
    ensures Ticked(t, ticks)
  {
    if a.MainStep? && Writing(s.main) {
      TickedWrite(enc, s, ticks);
    } else if a.HeartStep? && Writing(s.heart) {
      TickedBeat(enc, s, ticks);
    }
  }

  lemma {:induction false} RunTicked<M(!new)>(enc: Encoding<M>, run: seq<Server<M>>, i: nat)
    requires LawfulEncoding(enc) && IsRun(enc, run) && i < |run|
    ensures Ticked(run[i], run[0].ticks)
  {
    if i > 0 {
      RunTicked(enc, run, i - 1);
      RunInv(enc, run, i - 1);
      var a := StepTakes(enc, run[i - 1], run[i]);
      TickedStep(enc, run[i - 1], a, run[i], run[0].ticks);
    }
  }

  /**
   Every tick is a heartbeat. In every state of every run without a write failure, the ticks
   delivered so far are the Heartbeat frames on the wire and the one the heartbeat is about
   to write; with a failure there are at most that many.
   */
  lemma EveryTickBeats<M(!new)>(enc: Encoding<M>, run: seq<Server<M>>, i: nat)
    requires LawfulEncoding(enc) && IsRun(enc, run) && i < |run|
    ensures var s := run[i];
            var beats := Beats(Decode(s.out.sink.wire, 0).frames)
                         + if s.heart.Locking? || s.heart.Locked? || s.heart.AtHeader? then 1 else 0;
            if s.out.sink.broken then beats <= run[0].ticks - s.ticks else beats == run[0].ticks - s.ticks
  {
    RunTicked(enc, run, i);
    FrameAtomicity(enc, run, i);
  }

  /** The place of the `k`-th heartbeat. */
  predicate IsBeat(frames: seq<Frame>, k: nat, n: nat) {
    n < |frames| && frames[n].flag == 0x3 && Beats(frames[..n]) + 1 == k
  }

  lemma {:induction false} FindBeat(frames: seq<Frame>, k: nat) returns (n: nat)
    requires 1 <= k <= Beats(frames)
    ensures IsBeat(frames, k, n)
    decreases |frames|
  {
    var front := frames[..|frames| - 1];
    if k <= Beats(front) {
      n := FindBeat(front, k);
      assert frames[..n] == front[..n];
    } else {
      n := |front|;
    }
  }

  /**
   The heartbeat of a tick. Once the k-th tick is delivered and written, and from then on for
   the rest of the run, some frame of the stream is its heartbeat, always the same one.
   */
  lemma TickHasFrame<M(!new)>(enc: Encoding<M>, run: seq<Server<M>>, i: nat, k: nat) returns (n: nat)
    requires LawfulEncoding(enc) && IsRun(enc, run) && i < |run| && !run[i].out.sink.broken
    requires 1 <= k <= run[0].ticks - run[i].ticks
    requires !(run[i].heart.Locking? || run[i].heart.Locked? || run[i].heart.AtHeader?)
    ensures forall j :: i <= j < |run| ==> IsBeat(Decode(run[j].out.sink.wire, 0).frames, k, n)
  {
    EveryTickBeats(enc, run, i);
    FrameAtomicity(enc, run, i);
    n := FindBeat(run[i].out.log, k);
    forall j | i <= j < |run| ensures IsBeat(Decode(run[j].out.sink.wire, 0).frames, k, n) {
      TerminalSilence(enc, run, i, j);
      FrameAtomicity(enc, run, j);
      SamePlace(run[i].out.log, run[j].out.log, k, n);
    }
  }

  lemma SamePlace(frames: seq<Frame>, more: seq<Frame>, k: nat, n: nat)
    requires frames <= more && IsBeat(frames, k, n)
    ensures IsBeat(more, k, n)
  {
    assert more[..n] == frames[..n];
  }
}
