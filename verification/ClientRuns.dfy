/** What a client gets out of a stream, for every sequence of Recv and Close calls it may make. */
module ClientRuns {
  import opened Prelude
  import opened FrameCodec
  import opened ByteIO
  import opened Errors
  import opened StreamClient

  datatype Op<M> = Recv(out: Outcome<M>) | CloseCall

  predicate Performs<M(==)>(cfg: Setup<M>, calm: bool, c: Reading, d: Reading, op: Op<M>) {
    match op
    case Recv(out) => Recvs(cfg, calm, c, d, out)
    case CloseCall => d == c.(done := true, cancelled := true)
  }

  /** A session: the calls in order and the state before and after each. */
  predicate IsSession<M(==)>(cfg: Setup<M>, calm: bool, states: seq<Reading>, ops: seq<Op<M>>) {
    && |states| == |ops| + 1
    && forall i, j :: 0 <= i < |ops| && j == i + 1 ==> Performs(cfg, calm, states[i], states[j], ops[i])
  }

  lemma CalmPerforms<M>(cfg: Setup<M>, c: Reading, d: Reading, op: Op<M>)
    requires Performs(cfg, true, c, d, op)
    ensures Performs(cfg, false, c, d, op)
  {
    if op.Recv? && !c.pending && !c.done {
      CalmReads(cfg, c.rest, d, op.out);
    }
  }

  /** Any sequence of calls of a StreamReader, Close where `closes` says so and Recv elsewhere, is a session. */
  method Drive<M(!new)>(reader: StreamReader<M>, closes: seq<bool>) returns (ops: seq<Op<M>>, ghost states: seq<Reading>)
    requires reader.Valid()
    modifies reader, reader.frames
    ensures reader.Valid() && |ops| == |closes|
    ensures forall i :: 0 <= i < |ops| ==> (ops[i].CloseCall? <==> closes[i])
    ensures IsSession(reader.cfg, old(Calm(reader.frames.src)), states, ops)
    ensures states[0] == old(reader.State()) && states[|ops|] == reader.State()
  {
    ghost var calm := Calm(reader.frames.src);
    ops, states := [], [reader.State()];
    for i := 0 to |closes|
      invariant reader.Valid() && |ops| == i
      invariant calm ==> Calm(reader.frames.src)
      invariant forall j :: 0 <= j < i ==> (ops[j].CloseCall? <==> closes[j])
      invariant IsSession(reader.cfg, calm, states, ops)
      invariant states[0] == old(reader.State()) && states[i] == reader.State()
    {
      ghost var before, calmNow := reader.State(), Calm(reader.frames.src);
      var op: Op<M> := CloseCall;
      if closes[i] {
        reader.Close();
      } else {
        var out := reader.Recv();
        op := Recv(out);
      }
      if !calm && calmNow {
        CalmPerforms(reader.cfg, before, reader.State(), op);
      }
      SessionExtends(reader.cfg, calm, states, ops, reader.State(), op);
      ops, states := ops + [op], states + [reader.State()];
    }
  }

  lemma SessionExtends<M>(cfg: Setup<M>, calm: bool, states: seq<Reading>, ops: seq<Op<M>>, d: Reading, op: Op<M>)
    requires IsSession(cfg, calm, states, ops) && Performs(cfg, calm, states[|ops|], d, op)
    ensures IsSession(cfg, calm, states + [d], ops + [op])
  {
  }

  // ---- absorption ----

  predicate Over(c: Reading) {
    c.done || c.pending
  }

  /** A call after which the stream is over. */
  predicate Ends<M>(op: Op<M>) {
    op.CloseCall? || !op.out.Message?
  }

  lemma EndingOp<M>(cfg: Setup<M>, calm: bool, c: Reading, d: Reading, op: Op<M>)
    requires Performs(cfg, calm, c, d, op)
    ensures Ends(op) ==> Over(d)
    ensures Over(c) ==> Over(d) && d.rest == c.rest && (op.Recv? ==> op.out.Eof?)
  {
    if !Over(c) && op.Recv? {
      ReadsEnds(cfg, calm, c.rest, d, op.out);
    }
  }

  lemma {:induction false} ReadsEnds<M>(cfg: Setup<M>, calm: bool, data: seq<Byte>, d: Reading, out: Outcome<M>)
    requires Reads(cfg, calm, data, d, out)
    ensures !out.Message? ==> Over(d)
    decreases |data|
  {
    var p := ParseFrame(data, cfg.limit);
    if p.Got? && p.frame.flag == FLAG_HEARTBEAT && Reads(cfg, calm, p.rest, d, out) {
      ReadsEnds(cfg, calm, p.rest, d, out);
    }
  }

  /**
   Absorption: after io.EOF, any error, the payload of a Final frame, or Close, every later
   Recv returns io.EOF and reads nothing.
   */
  lemma {:induction false} Absorption<M>(cfg: Setup<M>, calm: bool, states: seq<Reading>, ops: seq<Op<M>>, i: nat, j: nat)
    requires IsSession(cfg, calm, states, ops) && i < j <= |ops|
    requires Ends(ops[i]) || states[i + 1].pending
    ensures Over(states[j]) && states[j].rest == states[i + 1].rest
    ensures j < |ops| && ops[j].Recv? ==> ops[j].out.Eof?
    decreases j
  {
    EndingOp(cfg, calm, states[j - 1], states[j], ops[j - 1]);
    if i + 1 < j {
      Absorption(cfg, calm, states, ops, i, j - 1);
    }
    if j < |ops| {
      EndingOp(cfg, calm, states[j], states[j + 1], ops[j]);
    }
  }

  // ---- what the frames say ----

  datatype Fate = Cut | Complete | Fatal(cause: Cause)

  /** What a list of frames means to a client: the messages, and how the stream ends. */
  datatype View<M> = View(msgs: seq<M>, fate: Fate)

  function Meaning<M>(cfg: Setup<M>, frames: seq<Frame>): View<M> {
    if frames == [] then View([], Cut)
    else
      var f, more := frames[0], frames[1..];
      if f.flag == FLAG_HEARTBEAT then Meaning(cfg, more)
      else
        match Handle(cfg, f).out
        case Eof => View([], Complete)
        case Failure(cause) => View([], Fatal(cause))
        case Message(m) =>
          if f.flag == FLAG_FINAL then View([m], Complete)
          else var v := Meaning(cfg, more); View([m] + v.msgs, v.fate)
  }

  function Ahead<M>(cfg: Setup<M>, data: seq<Byte>): View<M> {
    Meaning(cfg, Decode(data, cfg.limit).frames)
  }

  /** The three errors that come from the transport rather than from a frame. */
  predicate Transport(cause: Cause) {
    cause.UnexpectedEof? || cause.FrameTooLarge? || cause.HeartbeatTimeout?
  }

  /** What is still ahead of a client that has not finished. */
  function Left<M>(cfg: Setup<M>, c: Reading): View<M> {
    if c.pending then View([], Complete) else Ahead(cfg, c.rest)
  }

  lemma AheadStep<M>(cfg: Setup<M>, data: seq<Byte>)
    ensures match ParseFrame(data, cfg.limit)
            case Got(f, rest) =>
              Ahead(cfg, data) ==
                if f.flag == FLAG_HEARTBEAT then Ahead(cfg, rest)
                else (match Handle(cfg, f).out
                      case Eof => View([], Complete)
                      case Failure(cause) => View([], Fatal(cause))
                      case Message(m) =>
                        if f.flag == FLAG_FINAL then View([m], Complete)
                        else View([m] + Ahead(cfg, rest).msgs, Ahead(cfg, rest).fate))
            case _ => Ahead(cfg, data) == View([], Cut)
  {
  }

  /** How the outcome of one Recv relates to the meaning of the bytes before and after it. */
  predicate Explains<M(==)>(cfg: Setup<M>, calm: bool, before: View<M>, d: Reading, out: Outcome<M>) {
    match out
    case Message(m) => !d.done && before == View([m] + Left(cfg, d).msgs, Left(cfg, d).fate)
    case Eof => before == View([], Complete)
    case Failure(cause) =>
      if Transport(cause) then calm ==> before == View([], Cut) else before == View([], Fatal(cause))
  }

  lemma {:induction false} ReadsExplained<M>(cfg: Setup<M>, calm: bool, data: seq<Byte>, d: Reading, out: Outcome<M>)
    requires Reads(cfg, calm, data, d, out)
    ensures Explains(cfg, calm, Ahead(cfg, data), d, out)
    decreases |data|
  {
    AheadStep(cfg, data);
    var p := ParseFrame(data, cfg.limit);
    if p.Got? && p.frame.flag == FLAG_HEARTBEAT && Reads(cfg, calm, p.rest, d, out) {
      ReadsExplained(cfg, calm, p.rest, d, out);
    }
  }

  lemma RecvExplained<M>(cfg: Setup<M>, calm: bool, c: Reading, d: Reading, out: Outcome<M>)
    requires Recvs(cfg, calm, c, d, out) && !c.done
    ensures Explains(cfg, calm, Left(cfg, c), d, out)
  {
    if !c.pending {
      ReadsExplained(cfg, calm, c.rest, d, out);
    }
  }

  /**
   The error of a read that fails. It is a heartbeat timeout exactly when timeouts are
   enforced and the context has ended, except at the end of the input; otherwise it is
   io.ErrUnexpectedEOF, or the size error for a frame over the limit.
   */
  predicate ReadError<M(==)>(cfg: Setup<M>, calm: bool, end: Parsed, d: Reading, cause: Cause) {
    var timeout := cfg.timed && d.cancelled;
    || (!calm && cause == if timeout then HeartbeatTimeout else UnexpectedEof)
    || (end.AtEof? && cause == UnexpectedEof)
    || (end.Truncated? && cause == if timeout then HeartbeatTimeout else UnexpectedEof)
    || (end.TooLarge? && cause == if timeout then HeartbeatTimeout else FrameTooLarge)
  }

  /**
   A transport error of a Recv on an open stream is the error of a read that fails; on a
   network that does not fail, it is that of the place where the bytes stop making frames,
   and only heartbeats come before it.
   */
  lemma TransportReport<M>(cfg: Setup<M>, calm: bool, c: Reading, d: Reading, cause: Cause)
    requires Recvs(cfg, calm, c, d, Failure(cause)) && !Over(c) && Transport(cause)
    ensures ReadError(cfg, calm, Decode(c.rest, cfg.limit).end, d, cause)
    ensures calm ==> forall i :: 0 <= i < |Decode(c.rest, cfg.limit).frames| ==>
                       Decode(c.rest, cfg.limit).frames[i].flag == 0x3
  {
    ReadsReport(cfg, calm, c.rest, d, cause);
  }

  lemma {:induction false} ReadsReport<M>(cfg: Setup<M>, calm: bool, data: seq<Byte>, d: Reading, cause: Cause)
    requires Reads(cfg, calm, data, d, Failure(cause)) && Transport(cause)
    ensures ReadError(cfg, calm, Decode(data, cfg.limit).end, d, cause)
    ensures calm ==> forall i :: 0 <= i < |Decode(data, cfg.limit).frames| ==>
                       Decode(data, cfg.limit).frames[i].flag == 0x3
    decreases |data|
  {
    var p := ParseFrame(data, cfg.limit);
    if p.Got? && p.frame.flag == FLAG_HEARTBEAT && Reads(cfg, calm, p.rest, d, Failure(cause)) {
      ReadsReport(cfg, calm, p.rest, d, cause);
    }
  }

  // ---- whole sessions ----

  function Messages<M>(ops: seq<Op<M>>): seq<M> {
    if ops == [] then []
    else if ops[0].Recv? && ops[0].out.Message? then [ops[0].out.msg] + Messages(ops[1..])
    else Messages(ops[1..])
  }

  predicate AllMessages<M>(ops: seq<Op<M>>) {
    forall i :: 0 <= i < |ops| ==> ops[i].Recv? && ops[i].out.Message?
  }

  lemma SessionTail<M>(cfg: Setup<M>, calm: bool, states: seq<Reading>, ops: seq<Op<M>>)
    requires IsSession(cfg, calm, states, ops) && ops != []
    ensures IsSession(cfg, calm, states[1..], ops[1..])
    ensures Performs(cfg, calm, states[0], states[1], ops[0])
  {
  }

  /** Once a stream is over no call returns a message. */
  lemma {:induction false} OverIsSilent<M>(cfg: Setup<M>, calm: bool, states: seq<Reading>, ops: seq<Op<M>>)
    requires IsSession(cfg, calm, states, ops) && Over(states[0])
    ensures Messages(ops) == []
    decreases |ops|
  {
    if ops != [] {
      SessionTail(cfg, calm, states, ops);
      EndingOp(cfg, calm, states[0], states[1], ops[0]);
      OverIsSilent(cfg, calm, states[1..], ops[1..]);
    }
  }

  /** The messages a session returns are, in order, the first of those its bytes hold. */
  lemma {:induction false} SessionPrefix<M>(cfg: Setup<M>, calm: bool, states: seq<Reading>, ops: seq<Op<M>>)
    requires IsSession(cfg, calm, states, ops) && !states[0].done
    ensures Messages(ops) <= Left(cfg, states[0]).msgs
    decreases |ops|
  {
    if ops != [] {
      SessionTail(cfg, calm, states, ops);
      if ops[0].Recv? && ops[0].out.Message? {
        RecvExplained(cfg, calm, states[0], states[1], ops[0].out);
        SessionPrefix(cfg, calm, states[1..], ops[1..]);
      } else {
        EndingOp(cfg, calm, states[0], states[1], ops[0]);
        OverIsSilent(cfg, calm, states[1..], ops[1..]);
      }
    }
  }

  /**
   The first result that is not a message tells how the stream ended: io.EOF and the errors
   carried by frames come only when every message before them has been returned.
   */
  lemma {:induction false} SessionEnd<M>(cfg: Setup<M>, calm: bool, states: seq<Reading>, ops: seq<Op<M>>, i: nat)
    requires IsSession(cfg, calm, states, ops) && !states[0].done
    requires i < |ops| && AllMessages(ops[..i]) && ops[i].Recv? && !ops[i].out.Message?
    ensures var v := Left(cfg, states[0]);
            match ops[i].out
            case Eof => v == View(Messages(ops[..i]), Complete)
            case Failure(cause) =>
              if Transport(cause) then calm ==> v == View(Messages(ops[..i]), Cut)
              else v == View(Messages(ops[..i]), Fatal(cause))
            case Message(_) => true
    decreases |ops|
  {
    SessionTail(cfg, calm, states, ops);
    RecvExplained(cfg, calm, states[0], states[1], ops[0].out);
    if i > 0 {
      assert ops[0] == ops[..i][0];
      assert ops[1..][..i - 1] == ops[..i][1..];
      SessionEnd(cfg, calm, states[1..], ops[1..], i - 1);
    }
  }

  lemma {:induction false} CompleteHasFinal<M>(cfg: Setup<M>, frames: seq<Frame>) returns (i: nat)
    requires Meaning(cfg, frames).fate.Complete?
    ensures i < |frames| && frames[i].flag == FLAG_FINAL
  {
    if frames[0].flag == FLAG_FINAL {
      i := 0;
    } else {
      i := CompleteHasFinal(cfg, frames[1..]);
      i := i + 1;
    }
  }

  /** io.EOF is the first result that is not a message only if a complete Final frame was there to be read. */
  lemma EofNeedsFinal<M>(cfg: Setup<M>, calm: bool, states: seq<Reading>, ops: seq<Op<M>>, k: nat)
    requires IsSession(cfg, calm, states, ops) && !Over(states[0])
    requires k < |ops| && AllMessages(ops[..k]) && ops[k] == Recv(Eof)
    ensures exists i :: 0 <= i < |Decode(states[0].rest, cfg.limit).frames|
                        && Decode(states[0].rest, cfg.limit).frames[i].flag == FLAG_FINAL
  {
    SessionEnd(cfg, calm, states, ops, k);
    var i := CompleteHasFinal(cfg, Decode(states[0].rest, cfg.limit).frames);
  }

  /** The first frame that is not a heartbeat. */
  predicate Leads(frames: seq<Frame>, k: nat) {
    && k < |frames| && frames[k].flag != 0x3
    && forall i :: 0 <= i < k ==> frames[i].flag == 0x3
  }

  /** What a Recv makes of the first frame that is not a heartbeat. */
  predicate Answers<M(==)>(cfg: Setup<M>, f: Frame, d: Reading, out: Outcome<M>) {
    if f.flag == 0x0 || (f.flag == 0x1 && f.payload != []) then
      match cfg.enc.messages.unmarshal(f.payload)
      case Some(m) => out == Message(m) && !d.done && (d.pending <==> f.flag == 0x1)
      case None => out == Failure(BadPayload) && Over(d)
    else if f.flag == 0x1 then out == Eof && Over(d)
    else if f.flag == 0x2 then
      match cfg.enc.replies.unmarshal(f.payload)
      case Some(reply) =>
        out == Failure(Remote(ClientError(reply.code, cfg.status, reply.message, reply.details, false, None))) && Over(d)
      case None => out == Failure(BadErrorFrame) && Over(d)
    else out == Failure(UnknownFlag(f.flag)) && Over(d)
  }

  lemma HandleAnswers<M>(cfg: Setup<M>, f: Frame, d: Reading, out: Outcome<M>)
    ensures f.flag != 0x3 && Handle(cfg, f) == Handled(out, d.done, d.pending) ==> Answers(cfg, f, d, out)
  {
  }

  lemma LeadsTail(frames: seq<Frame>, k: nat)
    requires Leads(frames, k) && frames[0].flag == 0x3
    ensures k > 0 && Leads(frames[1..], k - 1)
  {
  }

  lemma {:induction false} ReadsFirst<M>(cfg: Setup<M>, calm: bool, data: seq<Byte>, d: Reading, out: Outcome<M>, k: nat)
    requires Reads(cfg, calm, data, d, out) && Leads(Decode(data, cfg.limit).frames, k)
    ensures Answers(cfg, Decode(data, cfg.limit).frames[k], d, out)
            || (!calm && Over(d) && out.Failure? && Transport(out.cause))
    decreases k
  {
    var p := ParseFrame(data, cfg.limit);
    var frames := Decode(data, cfg.limit).frames;
    assert frames == [p.frame] + Decode(p.rest, cfg.limit).frames;
    assert frames[0] == p.frame;
    if p.frame.flag != FLAG_HEARTBEAT {
      HandleAnswers(cfg, p.frame, d, out);
    } else if Reads(cfg, calm, p.rest, d, out) {
      LeadsTail(frames, k);
      ReadsFirst(cfg, calm, p.rest, d, out, k - 1);
    }
  }

  /**
   The frame that decides. A Recv on an open stream passes over heartbeats and answers the
   first other frame by its flag: 0 with its message, 1 with its message, and io.EOF on the
   next call, or with io.EOF at once, 2 with the server's error, anything else with an error
   that ends the stream, although docs/streaming.md says that the frame should be skipped.
   Only a failing reader can bring about another result, which ends the stream too.
   */
  lemma FirstFrameDecides<M>(cfg: Setup<M>, calm: bool, c: Reading, d: Reading, out: Outcome<M>, k: nat)
    requires Recvs(cfg, calm, c, d, out) && !Over(c) && Leads(Decode(c.rest, cfg.limit).frames, k)
    ensures Answers(cfg, Decode(c.rest, cfg.limit).frames[k], d, out)
            || (!calm && Over(d) && out.Failure? && Transport(out.cause))
  {
    ReadsFirst(cfg, calm, c.rest, d, out, k);
  }

  /** On a network that does not fail, enough Recv calls return every message and then how the stream ended. */
  lemma {:induction false} CalmSession<M>(cfg: Setup<M>, states: seq<Reading>, ops: seq<Op<M>>)
    requires IsSession(cfg, true, states, ops) && !states[0].done
    requires forall i :: 0 <= i < |ops| ==> ops[i].Recv?
    requires |ops| > |Left(cfg, states[0]).msgs|
    ensures var v := Left(cfg, states[0]);
            && AllMessages(ops[..|v.msgs|]) && Messages(ops[..|v.msgs|]) == v.msgs
            && match v.fate
               case Complete => ops[|v.msgs|].out == Eof
               case Fatal(cause) => ops[|v.msgs|].out == Failure(cause)
               case Cut => ops[|v.msgs|].out.Failure? && Transport(ops[|v.msgs|].out.cause)
    decreases |ops|
  {
    var v := Left(cfg, states[0]);
    SessionTail(cfg, true, states, ops);
    RecvExplained(cfg, true, states[0], states[1], ops[0].out);
    NotTransport(cfg, states[0]);
    if v.msgs != [] {
      CalmSession(cfg, states[1..], ops[1..]);
      assert ops[1..][..|v.msgs| - 1] == ops[..|v.msgs|][1..];
      forall i | 0 <= i < |v.msgs| ensures ops[..|v.msgs|][i].Recv? && ops[..|v.msgs|][i].out.Message? {
        assert i > 0 ==> ops[i] == ops[1..][..|v.msgs| - 1][i - 1];
      }
    } else {
      assert ops[..0] == [];
    }
  }

  /** No frame makes a client report a transport error. */
  lemma {:induction false} MeaningNotTransport<M>(cfg: Setup<M>, frames: seq<Frame>)
    ensures Meaning(cfg, frames).fate.Fatal? ==> !Transport(Meaning(cfg, frames).fate.cause)
  {
    if frames != [] {
      MeaningNotTransport(cfg, frames[1..]);
    }
  }

  lemma NotTransport<M>(cfg: Setup<M>, c: Reading)
    ensures Left(cfg, c).fate.Fatal? ==> !Transport(Left(cfg, c).fate.cause)
  {
    MeaningNotTransport(cfg, Decode(c.rest, cfg.limit).frames);
  }
}
