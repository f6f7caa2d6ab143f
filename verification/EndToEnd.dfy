/** Server, network and client together: what Recv returns is what Send was given. */
module EndToEnd {
  import opened Prelude
  import opened FrameCodec
  import opened ByteIO
  import opened Errors
  import opened ErrorChains
  import opened StreamServer
  import opened ServerSafety
  import opened ServerFrames
  import opened ServerRuns
  import opened ServerCalls
  import opened StreamClient
  import opened ClientRuns

  /** The meaning of two lists of frames, one after the other. */
  lemma {:induction false} MeaningConcat<M>(cfg: Setup<M>, a: seq<Frame>, b: seq<Frame>)
    ensures var v := Meaning(cfg, a);
            var w := Meaning(cfg, b);
            Meaning(cfg, a + b) == if v.fate.Cut? then View(v.msgs + w.msgs, w.fate) else v
  {
    if a == [] {
      assert a + b == b;
    } else {
      assert (a + b)[1..] == a[1..] + b;
      MeaningConcat(cfg, a[1..], b);
    }
  }

  /** A client that sees only the first frames sees the first messages, and an end only if it is the true one. */
  lemma MeaningPrefix<M>(cfg: Setup<M>, some: seq<Frame>, all: seq<Frame>)
    requires some <= all
    ensures Meaning(cfg, some).msgs <= Meaning(cfg, all).msgs
    ensures !Meaning(cfg, some).fate.Cut? ==> Meaning(cfg, some) == Meaning(cfg, all)
  {
  }

  /** The message of a Close, unless it marshals to no bytes at all. */
  function FinalMessage<M>(enc: Encoding<M>, last: Option<M>): seq<M> {
    if last.Some? && enc.messages.marshal(last.value) != Some([]) then [last.value] else []
  }

  /** What the frames of a server mean to a client with the same encoding. */
  function Told<M>(cfg: Setup<M>, s: Server<M>): View<M> {
    if !Ended(s.out.log) then View(s.written, Cut)
    else if s.closing.Some? then View(s.accepted + FinalMessage(cfg.enc, s.closing.value), Complete)
    else if s.result.Some? && s.result.value.Some? then
      View(s.accepted, Fatal(Remote(RemoteError(BuildErrorReply(s.result.value.value), cfg.status))))
    else View(s.accepted, Complete)
  }

  /** What a client should get from a handler that made these calls, its return last, and nothing else. */
  function Promised<M>(cfg: Setup<M>, calls: seq<Job<M>>): View<M> {
    var sent := Sent(cfg.enc, calls);
    match FirstClose(calls)
    case Some(None) => View(sent, Complete)
    case Some(Some(m)) =>
      (match cfg.enc.messages.marshal(m)
       case None => View(sent, Cut)
       case Some(payload) => View(if payload == [] then sent else sent + [m], Complete))
    case None =>
      match Returned(calls)
      case Some(Some(e)) =>
        var reply := BuildErrorReply(e);
        if cfg.enc.replies.marshal(reply).None? then View(sent, Cut)
        else View(sent, Fatal(Remote(ClientError(reply.code, cfg.status, reply.message, reply.details, false, None))))
      case _ => View(sent, Cut)
  }

  lemma {:induction false} CarriedMeaning<M(!new)>(cfg: Setup<M>, log: seq<Frame>, msgs: seq<M>)
    requires LawfulEncoding(cfg.enc) && Carries(cfg.enc, log, msgs) && KnownFlags(log)
    requires forall i :: 0 <= i < |log| ==> !IsTerminal(log[i])
    ensures Meaning(cfg, log) == View(msgs, Cut)
    decreases |log|
  {
    if log != [] {
      var front, f := log[..|log| - 1], log[|log| - 1];
      assert log == front + [f];
      if f.flag == FLAG_DATA {
        var m := msgs[|msgs| - 1];
        assert cfg.enc.messages.marshal(m) == Some(f.payload);
        CarriedMeaning(cfg, front, msgs[..|msgs| - 1]);
        assert Meaning(cfg, [f]) == View([m], Cut) by { assert [f][1..] == []; }
        assert msgs == msgs[..|msgs| - 1] + [m];
      } else {
        CarriedMeaning(cfg, front, msgs);
        assert Meaning(cfg, [f]) == View([], Cut) by { assert [f][1..] == []; }
      }
      MeaningConcat(cfg, front, [f]);
    }
  }

  lemma TerminalMeaning<M(!new)>(cfg: Setup<M>, job: Job<M>, f: Frame)
    requires LawfulEncoding(cfg.enc) && FrameFor(cfg.enc, job) == Some(f)
    ensures job.Close? ==> Meaning(cfg, [f]) == View(FinalMessage(cfg.enc, job.last), Complete)
    ensures job.Tail? ==>
      Meaning(cfg, [f]) == View([], Fatal(Remote(RemoteError(BuildErrorReply(job.result.value), cfg.status))))
  {
  }

  /** The frames of every reachable server mean what its calls said. */
  lemma ServerTells<M(!new)>(cfg: Setup<M>, s: Server<M>)
    requires LawfulEncoding(cfg.enc)
    requires Faithful(cfg.enc, s) && OneTerminal(cfg.enc, s) && Accounted(s)
    ensures Meaning(cfg, s.out.log) == Told(cfg, s)
  {
    var log := s.out.log;
    if Ended(log) {
      var front, f := log[..|log| - 1], log[|log| - 1];
      assert log == front + [f];
      CarriedMeaning(cfg, front, s.written);
      TerminalMeaning(cfg, LastJob(s), f);
      MeaningConcat(cfg, front, [f]);
      assert s.written + [] == s.written;
    } else {
      assert forall i :: 0 <= i < |log| ==> !IsTerminal(log[i]);
      CarriedMeaning(cfg, log, s.written);
    }
  }

  /** Any prefix of the wire, under any limit, decodes to the first frames of the log. */
  lemma NetworkPrefix<M(!new)>(enc: Encoding<M>, s: Server<M>, data: seq<Byte>, limit: int)
    requires Atomic(s) && data <= s.out.sink.wire
    ensures Decode(data, limit).frames <= s.out.log
  {
    var part, f :| Framed(s.out, part, f) && (!s.out.sink.broken ==> part == UnderWay(s.main));
    var all := EncodeAll(s.out.log) + Encode(f);
    assert s.out.sink.wire <= all;
    PrefixTransitive(data, s.out.sink.wire, all);
    DecodePrefix(s.out.log, f, data, limit);
  }

  lemma ClientSees<M(!new)>(cfg: Setup<M>, run: seq<Server<M>>, i: nat, data: seq<Byte>)
    requires LawfulEncoding(cfg.enc) && IsRun(cfg.enc, run) && i < |run| && data <= run[i].out.sink.wire
    ensures Ahead(cfg, data).msgs <= Told(cfg, run[i]).msgs
    ensures !Ahead(cfg, data).fate.Cut? ==> Ahead(cfg, data) == Told(cfg, run[i])
  {
    RunInv(cfg.enc, run, i);
    NetworkPrefix(cfg.enc, run[i], data, cfg.limit);
    ServerTells(cfg, run[i]);
    MeaningPrefix(cfg, Decode(data, cfg.limit).frames, run[i].out.log);
  }

  /** The end of a stream that a client has seen is the one its handler asked for. */
  lemma SeenEnd<M(!new)>(cfg: Setup<M>, run: seq<Server<M>>, acts: seq<Action<M>>, i: nat, v: View<M>)
    requires LawfulEncoding(cfg.enc) && IsTrace(cfg.enc, run, acts) && i < |run|
    requires v == Told(cfg, run[i]) && !v.fate.Cut?
    ensures v == Promised(cfg, Calls(acts[..i]))
  {
    TraceIsRun(cfg.enc, run, acts);
    RunInv(cfg.enc, run, i);
    TraceTally(cfg.enc, run, acts, i);
  }

  /**
   End to end, for every interleaving on the server, every failure of its writes, every
   prefix of its wire that arrives, every splitting and failure of the client's reads, and
   every session: the messages returned are in order the first of those that were given to
   Send before any Close and marshal, and the message of the first Close.
   */
  lemma EndToEndOrder<M(!new)>(cfg: Setup<M>, run: seq<Server<M>>, acts: seq<Action<M>>, i: nat,
                               states: seq<Reading>, ops: seq<Op<M>>)
    requires LawfulEncoding(cfg.enc) && IsTrace(cfg.enc, run, acts) && i < |run|
    requires IsSession(cfg, false, states, ops) && !Over(states[0]) && states[0].rest <= run[i].out.sink.wire
    ensures var calls := Calls(acts[..i]);
            Messages(ops) <= Sent(cfg.enc, calls) + match FirstClose(calls)
                                                    case None => []
                                                    case Some(last) => FinalMessage(cfg.enc, last)
  {
    TraceIsRun(cfg.enc, run, acts);
    ClientSees(cfg, run, i, states[0].rest);
    SessionPrefix(cfg, false, states, ops);
    PrefixTransitive(Messages(ops), Ahead(cfg, states[0].rest).msgs, Told(cfg, run[i]).msgs);
    ToldOfCalls(cfg, run, acts, i);
  }

  lemma ToldOfCalls<M(!new)>(cfg: Setup<M>, run: seq<Server<M>>, acts: seq<Action<M>>, i: nat)
    requires LawfulEncoding(cfg.enc) && IsTrace(cfg.enc, run, acts) && i < |run|
    ensures var calls := Calls(acts[..i]);
            Told(cfg, run[i]).msgs <= Sent(cfg.enc, calls) + match FirstClose(calls)
                                                            case None => []
                                                            case Some(last) => FinalMessage(cfg.enc, last)
  {
    var v := Told(cfg, run[i]);
    if v.fate.Cut? {
      EverySendAccepted(cfg.enc, run, acts, i);
      PrefixOfSum(v.msgs, Sent(cfg.enc, Calls(acts[..i])));
    } else {
      SeenEnd(cfg, run, acts, i, v);
      PromisedMessages(cfg, Calls(acts[..i]));
    }
  }

  lemma PromisedMessages<M>(cfg: Setup<M>, calls: seq<Job<M>>)
    ensures Promised(cfg, calls).msgs <= Sent(cfg.enc, calls) + match FirstClose(calls)
                                                               case None => []
                                                               case Some(last) => FinalMessage(cfg.enc, last)
  {
  }

  lemma PrefixOfSum<M>(a: seq<M>, b: seq<M>)
    requires a <= b
    ensures forall c :: a <= b + c
  {
  }

  /** `e` is what a client is told of a handler's error: its first duh error, or its text under the code 500. */
  ghost predicate Reports(status: int, err: Err, e: ClientError) {
    && e.httpCode == status && !e.infra && e.cause.None?
    && (ShowsNothing(err) ==> !IsDuh(err) && e.code == "500" && e.msg == err.text && e.details == map[])
    && (!ShowsNothing(err) ==> exists f :: Shows(err, f) && e.code == f.code && e.msg == f.message && e.details == f.details)
  }

  lemma ReportsReply(status: int, err: Err)
    ensures var reply := BuildErrorReply(err);
            Reports(status, err, ClientError(reply.code, status, reply.message, reply.details, false, None))
  {
    ChainShows(err);
    ReplyOfChain(err, Face(0, "", "", map[]));
  }

  /**
   End to end, the end of the stream. If the first result that is not a message is io.EOF,
   the handler called Close and the client has every message that was given to Send before
   it and marshals, and then the message of the first Close unless that marshals to nothing.
   If it is the server's error, the handler returned that error without calling Close, and
   again no message is missing. This holds with any write and read failures.
   */
  lemma EndToEndComplete<M(!new)>(cfg: Setup<M>, run: seq<Server<M>>, acts: seq<Action<M>>, i: nat,
                                  states: seq<Reading>, ops: seq<Op<M>>, k: nat)
    requires LawfulEncoding(cfg.enc) && IsTrace(cfg.enc, run, acts) && i < |run|
    requires IsSession(cfg, false, states, ops) && !Over(states[0]) && states[0].rest <= run[i].out.sink.wire
    requires k < |ops| && AllMessages(ops[..k]) && ops[k].Recv? && !ops[k].out.Message?
    ensures var calls := Calls(acts[..i]);
            match ops[k].out
            case Eof =>
              && FirstClose(calls).Some?
              && Messages(ops[..k]) == Sent(cfg.enc, calls) + FinalMessage(cfg.enc, FirstClose(calls).value)
            case Failure(Remote(e)) =>
              && FirstClose(calls).None? && Returned(calls).Some? && Returned(calls).value.Some?
              && Messages(ops[..k]) == Sent(cfg.enc, calls)
              && Reports(cfg.status, Returned(calls).value.value, e)
            case Failure(cause) => Transport(cause)
            case Message(_) => true
  {
    TraceIsRun(cfg.enc, run, acts);
    ClientSees(cfg, run, i, states[0].rest);
    SessionEnd(cfg, false, states, ops, k);
    if !Ahead(cfg, states[0].rest).fate.Cut? {
      SeenEnd(cfg, run, acts, i, Ahead(cfg, states[0].rest));
    }
    if Returned(Calls(acts[..i])).Some? && Returned(Calls(acts[..i])).value.Some? {
      ReportsReply(cfg.status, Returned(Calls(acts[..i])).value.value);
    }
  }

  /** Without a write failure the frames of a finished server mean what the handler's calls promised. */
  lemma ToldAsPromised<M(!new)>(cfg: Setup<M>, run: seq<Server<M>>, acts: seq<Action<M>>, i: nat)
    requires LawfulEncoding(cfg.enc) && IsTrace(cfg.enc, run, acts) && i < |run|
    requires run[i].main.Gone? && !run[i].out.sink.broken
    ensures Told(cfg, run[i]) == Promised(cfg, Calls(acts[..i]))
  {
    TraceIsRun(cfg.enc, run, acts);
    RunInv(cfg.enc, run, i);
    TraceTally(cfg.enc, run, acts, i);
    TerminalFrameIff(cfg.enc, run, i);
  }

  lemma WholeWire<M(!new)>(cfg: Setup<M>, run: seq<Server<M>>, acts: seq<Action<M>>, i: nat)
    requires LawfulEncoding(cfg.enc) && IsTrace(cfg.enc, run, acts) && i < |run|
    requires run[i].main.Gone? && !run[i].out.sink.broken && AllWithin(run[i].out.log, cfg.limit)
    ensures Ahead(cfg, run[i].out.sink.wire) == Promised(cfg, Calls(acts[..i]))
  {
    TraceIsRun(cfg.enc, run, acts);
    RunInv(cfg.enc, run, i);
    FrameAtomicity(cfg.enc, run, i);
    DecodeRoundTrip(run[i].out.log, cfg.limit);
    ServerTells(cfg, run[i]);
    ToldAsPromised(cfg, run, acts, i);
  }

  lemma PromisedSent<M>(cfg: Setup<M>, calls: seq<Job<M>>)
    ensures Sent(cfg.enc, calls) <= Promised(cfg, calls).msgs
  {
  }

  /**
   Nothing is lost: if HandleStream has returned, no write failed, the whole wire arrives
   over a network that does not fail and every frame is within the client's limit, then
   enough Recv calls return every message that was given to Send before any Close and
   marshals, the message of Close, and then io.EOF, the handler's error, or a transport
   error when there is no terminal frame.
   */
  lemma NothingLost<M(!new)>(cfg: Setup<M>, run: seq<Server<M>>, acts: seq<Action<M>>, i: nat,
                             states: seq<Reading>, ops: seq<Op<M>>)
    requires LawfulEncoding(cfg.enc) && IsTrace(cfg.enc, run, acts) && i < |run|
    requires run[i].main.Gone? && !run[i].out.sink.broken && AllWithin(run[i].out.log, cfg.limit)
    requires IsSession(cfg, true, states, ops) && !Over(states[0]) && states[0].rest == run[i].out.sink.wire
    requires forall j :: 0 <= j < |ops| ==> ops[j].Recv?
    requires |ops| > |Promised(cfg, Calls(acts[..i])).msgs|
    ensures var calls := Calls(acts[..i]);
            var v := Promised(cfg, calls);
            && AllMessages(ops[..|v.msgs|]) && Messages(ops[..|v.msgs|]) == v.msgs
            && Sent(cfg.enc, calls) <= v.msgs
            && match v.fate
               case Complete => ops[|v.msgs|].out == Eof
               case Fatal(cause) => ops[|v.msgs|].out == Failure(cause)
               case Cut => ops[|v.msgs|].out.Failure? && Transport(ops[|v.msgs|].out.cause)
  {
    WholeWire(cfg, run, acts, i);
    CalmSession(cfg, states, ops);
    PromisedSent(cfg, Calls(acts[..i]));
  }

  /**
   The same for the class: whatever calls are made of a StreamReader whose source holds any
   prefix of a server's wire, its messages are in order the first of those that were sent,
   and io.EOF comes after all of them.
   */
  method Consume<M(!new)>(ghost run: seq<Server<M>>, ghost acts: seq<Action<M>>, ghost i: nat,
                          reader: StreamReader<M>, closes: seq<bool>)
    returns (ops: seq<Op<M>>)
    requires LawfulEncoding(reader.cfg.enc) && IsTrace(reader.cfg.enc, run, acts) && i < |run|
    requires reader.Valid() && !reader.done && !reader.hasPending
    requires reader.frames.src.rest <= run[i].out.sink.wire
    modifies reader, reader.frames
    ensures |ops| == |closes|
    ensures var calls := Calls(acts[..i]);
            Messages(ops) <= Sent(reader.cfg.enc, calls) + match FirstClose(calls)
                                                           case None => []
                                                           case Some(last) => FinalMessage(reader.cfg.enc, last)
    ensures forall k :: 0 <= k < |ops| && AllMessages(ops[..k]) && ops[k] == Recv(Eof) ==>
              var calls := Calls(acts[..i]);
              FirstClose(calls).Some?
              && Messages(ops[..k]) == Sent(reader.cfg.enc, calls) + FinalMessage(reader.cfg.enc, FirstClose(calls).value)
  {
    ghost var calm, states := Calm(reader.frames.src), [];
    ops, states := Drive(reader, closes);
    if calm {
      SessionWeaker(reader.cfg, states, ops);
    }
    EndToEndOrder(reader.cfg, run, acts, i, states, ops);
    forall k | 0 <= k < |ops| && AllMessages(ops[..k]) && ops[k] == Recv(Eof)
      ensures var calls := Calls(acts[..i]);
              FirstClose(calls).Some?
              && Messages(ops[..k]) == Sent(reader.cfg.enc, calls) + FinalMessage(reader.cfg.enc, FirstClose(calls).value)
    {
      EndToEndComplete(reader.cfg, run, acts, i, states, ops, k);
    }
  }

  lemma SessionWeaker<M>(cfg: Setup<M>, states: seq<Reading>, ops: seq<Op<M>>)
    requires IsSession(cfg, true, states, ops)
    ensures IsSession(cfg, false, states, ops)
  {
    forall i, j | 0 <= i < |ops| && j == i + 1 ensures Performs(cfg, false, states[i], states[j], ops[i]) {
      CalmPerforms(cfg, states[i], states[j], ops[i]);
    }
  }
}
