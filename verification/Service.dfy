/**
 Replies (service.go:84-139) and the opening of a stream (streaming.go:136-159): content
 negotiation, the recursion through error replies, and the one status each request gets.
 */
module Service {
  import opened Prelude
  import opened Errors
  import opened ErrorChains
  import opened MediaType

  const VERSION := "2.0"

  /** The message of a response: the service's own, or a Reply. */
  datatype Body<T> = App(value: T) | Note(reply: Reply)

  datatype Marshalled = Bytes(bytes: seq<Byte>) | Refused(text: string)

  /** The two encodings; unmarshal is into a Reply. */
  datatype Wires<!T> = Wires(
    marshal: (Format, Body<T>) -> Marshalled, unmarshal: (Format, seq<Byte>) -> Option<Reply>)

  /** A response as the server wrote it. */
  datatype Written = Written(status: int, format: Format, bytes: seq<Byte>)

  function CodeReply<T>(code: int, msg: string): Body<T> {
    Note(Reply(Itoa(code), msg, map[]))
  }

  function NotAcceptable(mime: string): string {
    "Accept header '" + mime + "' is invalid format or unrecognized content type, only ["
    + JSON + "," + PROTOBUF + "] are supported by this method"
  }

  /** The reply that reports a marshalling error can itself be marshalled. */
  ghost predicate ErrorTextMarshals<T(!new)>(w: Wires<T>) {
    forall f, m :: w.marshal(f, m).Refused? ==>
      w.marshal(f, CodeReply(CODE_INTERNAL_ERROR, w.marshal(f, m).text)).Bytes?
  }

  /** The response to a message in a given encoding: itself or, if it is refused, a 500 that says why. */
  function Settle<T>(w: Wires<T>, f: Format, code: int, resp: Body<T>): Option<Written> {
    match w.marshal(f, resp)
    case Bytes(b) => Some(Written(code, f, b))
    case Refused(text) =>
      match w.marshal(f, CodeReply(CODE_INTERNAL_ERROR, text))
      case Bytes(b) => Some(Written(CODE_INTERNAL_ERROR, f, b))
      case Refused(_) => None
  }

  /** The response to a request with the given Accept header; 455 when the header asks for anything else. */
  function Settled<T>(w: Wires<T>, accept: string, code: int, resp: Body<T>): Option<Written> {
    var mime := Normalize(accept);
    var f := ReplyFormat(mime);
    if f.Some? then Settle(w, f.value, code, resp)
    else Settle(w, Json, CODE_CLIENT_CONTENT_ERROR, CodeReply(CODE_CLIENT_CONTENT_ERROR, NotAcceptable(mime)))
  }

  function Rank<T>(w: Wires<T>, accept: string, resp: Body<T>): nat {
    var f := ReplyFormat(Normalize(accept));
    if f.None? then 2 else if w.marshal(f.value, resp).Refused? then 1 else 0
  }

  /** What both sides of ReplyError put in an error response. */
  function ErrorStatus(err: Err): int {
    if AsDuh(err).Some? then HttpCode(AsDuh(err).value) else CODE_INTERNAL_ERROR
  }

  lemma StatusOfChain(err: Err, f: Face)
    ensures Shows(err, f) ==> ErrorStatus(err) == f.status
    ensures ShowsNothing(err) ==> ErrorStatus(err) == 500
  {
    ChainShows(err);
    if AsDuh(err).Some? {
      var e := AsDuh(err).value;
      var g := Face(HttpCode(e), ProtoMessage(e).code, ProtoMessage(e).message, ProtoMessage(e).details);
      ShowsOne(err, g, g);
      if Shows(err, f) {
        ShowsOne(err, f, g);
      }
    }
  }

  /** A request's Accept header and the response being written to it. */
  class Exchange<T(!new)> {
    var accept: string
    var contentType: string
    var version: string
    var statuses: seq<int>     // one entry per WriteHeader
    var bytes: seq<Byte>

    constructor (accept: string)
      ensures this.accept == accept && statuses == [] && bytes == []
    {
      this.accept := accept;
      contentType, version, statuses, bytes := "", "", [], [];
    }

    twostate predicate Answered(w: Written)
      reads this
    {
      && statuses == old(statuses) + [w.status] && bytes == old(bytes) + w.bytes
      && contentType == (if w.format.Json? then "application/json" else "application/protobuf")
      && version == "2.0"
    }

    /** Reply terminates within three calls and writes exactly one status, for every header, code and message. */
    method Reply(w: Wires<T>, code: int, resp: Body<T>)
      requires ErrorTextMarshals(w)
      modifies this
      ensures Settled(w, old(accept), code, resp).Some?
      ensures Answered(Settled(w, old(accept), code, resp).value)
      decreases Rank(w, accept, resp), 0
    {
      var mime := Normalize(accept);
      var f := ReplyFormat(mime);
      if f.None? {
        accept := JSON;
        MediaAgrees(Json);
        ReplyWithCode(w, CODE_CLIENT_CONTENT_ERROR, NotAcceptable(mime));
        return;
      }
      var b := w.marshal(f.value, resp);
      if b.Refused? {
        ReplyWithCode(w, CODE_INTERNAL_ERROR, b.text);
        return;
      }
      contentType := Media(f.value);
      version := VERSION;
      statuses := statuses + [code];
      bytes := bytes + b.bytes;
    }

    method ReplyWithCode(w: Wires<T>, code: int, msg: string)
      requires ErrorTextMarshals(w)
      modifies this
      ensures var r := Settled(w, old(accept), code, Note(Errors.Reply(Itoa(code), msg, map[])));
              r.Some? && Answered(r.value)
      decreases Rank(w, accept, CodeReply(code, msg)), 1
    {
      Reply(w, code, CodeReply(code, msg));
    }

    /** ReplyError: the status and Reply of the first duh Error in the chain, else a 500 with its text. */
    method ReplyError(w: Wires<T>, err: Err)
      requires ErrorTextMarshals(w)
      modifies this
      ensures var r := Settled(w, old(accept), ErrorStatus(err), Note(BuildErrorReply(err)));
              r.Some? && Answered(r.value)
      ensures forall f :: Shows(err, f) ==>
                var r := Settled(w, old(accept), f.status, Note(Errors.Reply(f.code, f.message, f.details)));
                r.Some? && Answered(r.value)
      ensures ShowsNothing(err) ==>
                !IsDuh(err)
                && var r := Settled(w, old(accept), 500, Note(Errors.Reply("500", err.text, map[])));
                   r.Some? && Answered(r.value)
    {
      forall f ensures Shows(err, f) ==>
                         ErrorStatus(err) == f.status && BuildErrorReply(err) == Errors.Reply(f.code, f.message, f.details) {
        StatusOfChain(err, f);
        ReplyOfChain(err, f);
      }
      StatusOfChain(err, Face(0, "", "", map[]));
      ReplyOfChain(err, Face(0, "", "", map[]));
      var e := AsDuh(err);
      if e.Some? {
        Reply(w, HttpCode(e.value), Note(ProtoMessage(e.value)));
      } else {
        ReplyWithCode(w, CODE_INTERNAL_ERROR, PlainText(err));
      }
    }

    /**
     The part of HandleStream before the stream: it either selects an encoding and writes no
     status, or answers the request with exactly one reply.
     */
    method OpenStream(w: Wires<T>, flusher: bool) returns (f: Option<Format>)
      requires ErrorTextMarshals(w)
      modifies this
      ensures f == Some(Json) <==> flusher && Normalize(old(accept)) == "application/duh-stream+json"
      ensures f == Some(Proto) <==> flusher && Normalize(old(accept)) == "application/duh-stream+protobuf"
      ensures f.Some? ==> statuses == old(statuses) && bytes == old(bytes)
                          && contentType == Normalize(old(accept)) && version == "2.0"
      ensures f.None? ==>
                var r := Refusal(w, flusher, old(accept));
                r.Some? && Answered(r.value)
    {
      if !flusher {
        ReplyWithCode(w, CODE_INTERNAL_ERROR, NO_FLUSHER);
        return None;
      }
      var mime := Normalize(accept);
      StreamFormatIff(accept);
      f := StreamFormat(mime);
      if f.None? {
        ReplyWithCode(w, CODE_BAD_REQUEST, NotAStream(accept));
        return;
      }
      contentType := mime;
      version := VERSION;
    }
  }

  const NO_FLUSHER := "response writer does not support streaming"

  function NotAStream(accept: string): string {
    "Accept header '" + accept + "' is not a supported streaming content type; expected '"
    + STREAM_JSON + "' or '" + STREAM_PROTOBUF + "'"
  }

  /** The reply to a request that cannot be streamed. */
  function Refusal<T>(w: Wires<T>, flusher: bool, accept: string): Option<Written> {
    if !flusher then Settled(w, accept, CODE_INTERNAL_ERROR, CodeReply(CODE_INTERNAL_ERROR, NO_FLUSHER))
    else Settled(w, accept, CODE_BAD_REQUEST, CodeReply(CODE_BAD_REQUEST, NotAStream(accept)))
  }

  /** `r` is the answer to a message in encoding `f`: the message itself or, if it is refused, a 500 that says why. */
  predicate AnswerTo<T>(w: Wires<T>, f: Format, code: int, resp: Body<T>, r: Written) {
    && r.format == f
    && match w.marshal(f, resp)
       case Bytes(b) => r.status == code && r.bytes == b
       case Refused(text) => r.status == 500 && w.marshal(f, Note(Reply("500", text, map[]))) == Bytes(r.bytes)
  }

  lemma SettleAnswers<T>(w: Wires<T>, f: Format, code: int, resp: Body<T>)
    ensures Settle(w, f, code, resp).Some? ==> AnswerTo(w, f, code, resp, Settle(w, f, code, resp).value)
  {
    ItoaStatuses();
  }

  /** The answers of Reply by Accept header: JSON by default, protobuf on request, and a 455 in JSON for any other. */
  lemma AnswerByAccept<T>(w: Wires<T>, accept: string, code: int, resp: Body<T>)
    requires Settled(w, accept, code, resp).Some?
    ensures var mime, r := Normalize(accept), Settled(w, accept, code, resp).value;
            if mime in {"", "*/*", "application/*", "application/json"} then AnswerTo(w, Json, code, resp, r)
            else if mime == "application/protobuf" then AnswerTo(w, Proto, code, resp, r)
            else AnswerTo(w, Json, 455, Note(Reply("455", NotAcceptable(mime), map[])), r)
  {
    ReplyFormatIff(accept);
    ItoaStatuses();
    var f := ReplyFormat(Normalize(accept));
    if f.Some? {
      SettleAnswers(w, f.value, code, resp);
    } else {
      SettleAnswers(w, Json, 455, Note(Reply("455", NotAcceptable(Normalize(accept)), map[])));
    }
  }

  /**
   The status of a refused stream request. docs/streaming.md promises 400; the code sends it
   exactly when Reply supports the Accept header and the text marshals, 455 when Reply does
   not support the header either, and 500 when the text does not marshal. A response writer
   that cannot stream makes the 400 a 500.
   */
  lemma RefusalStatus<T(!new)>(w: Wires<T>, accept: string, flusher: bool)
    requires ErrorTextMarshals(w)
    ensures var mime := Normalize(accept);
            var f := ReplyFormat(mime);
            var r := Refusal(w, flusher, accept);
            && r.Some?
            && (r.value.status == 400 <==>
                  flusher && f.Some? && w.marshal(f.value, Note(Reply("400", NotAStream(accept), map[]))).Bytes?)
            && (r.value.status == 455 <==>
                  f.None? && w.marshal(Json, Note(Reply("455", NotAcceptable(mime), map[]))).Bytes?)
            && (r.value.status in {400, 455, 500})
  {
    ItoaStatuses();
  }

  /** A request for text/html is refused with 455, not 400. */
  lemma RefusedWith455<T(!new)>(w: Wires<T>)
    requires ErrorTextMarshals(w)
    requires w.marshal(Json, Note(Reply("455", NotAcceptable("text/html"), map[]))).Bytes?
    ensures Refusal(w, true, "text/html").Some? && Refusal(w, true, "text/html").value.status == 455
  {
    CanonicalIsNormal("text/html");
    RefusalStatus(w, "text/html", true);
  }

  /** The client picks the encoding that the server writes the stream in, from the Content-Type that announces it. */
  lemma StreamFormatsAgree(accept: string)
    ensures StreamFormat(Normalize(Normalize(accept))) == StreamFormat(Normalize(accept))
    ensures StreamFormat(Normalize(accept)) == Some(Json) <==> Normalize(accept) == "application/duh-stream+json"
    ensures StreamFormat(Normalize(accept)) == Some(Proto) <==> Normalize(accept) == "application/duh-stream+protobuf"
  {
    NormalizeCanonical(accept);
    StreamFormatIff(accept);
  }

  // ---- the recursion without the assumption ----

  /** One call of Reply: it writes a response, or calls itself with another header, code and message. */
  datatype Turn<T> = Wrote(response: Written) | Again(accept: string, code: int, resp: Body<T>)

  function OneCall<T>(w: Wires<T>, accept: string, code: int, resp: Body<T>): Turn<T> {
    var mime := Normalize(accept);
    var f := ReplyFormat(mime);
    if f.None? then Again(JSON, CODE_CLIENT_CONTENT_ERROR, CodeReply(CODE_CLIENT_CONTENT_ERROR, NotAcceptable(mime)))
    else
      match w.marshal(f.value, resp)
      case Bytes(b) => Wrote(Written(code, f.value, b))
      case Refused(text) => Again(accept, CODE_INTERNAL_ERROR, CodeReply(CODE_INTERNAL_ERROR, text))
  }

  function Calls<T>(w: Wires<T>, turn: Turn<T>, n: nat): Turn<T>
    decreases n
  {
    if n == 0 || turn.Wrote? then turn else Calls(w, OneCall(w, turn.accept, turn.code, turn.resp), n - 1)
  }

  lemma TwoCalls<T(!new)>(w: Wires<T>, accept: string, f: Format, code: int, resp: Body<T>, n: nat)
    requires ErrorTextMarshals(w) && ReplyFormat(Normalize(accept)) == Some(f) && n >= 2
    ensures Settle(w, f, code, resp).Some?
    ensures Calls(w, Again(accept, code, resp), n) == Wrote(Settle(w, f, code, resp).value)
  {
    var t1 := OneCall(w, accept, code, resp);
    assert Calls(w, Again(accept, code, resp), n) == Calls(w, t1, n - 1);
    if t1.Again? {
      var t2 := OneCall(w, t1.accept, t1.code, t1.resp);
      assert t2.Wrote? && Calls(w, t1, n - 1) == Calls(w, t2, n - 2) == t2;
    }
  }

  /** Three calls are enough when error texts marshal. */
  lemma ThreeCalls<T(!new)>(w: Wires<T>, accept: string, code: int, resp: Body<T>)
    requires ErrorTextMarshals(w)
    ensures Settled(w, accept, code, resp).Some?
    ensures Calls(w, Again(accept, code, resp), 3) == Wrote(Settled(w, accept, code, resp).value)
  {
    var f := ReplyFormat(Normalize(accept));
    if f.Some? {
      TwoCalls(w, accept, f.value, code, resp, 3);
    } else {
      MediaAgrees(Json);
      var t1 := OneCall(w, accept, code, resp);
      TwoCalls(w, JSON, Json, t1.code, t1.resp, 2);
      assert Calls(w, Again(accept, code, resp), 3) == Calls(w, t1, 2);
    }
  }

  /** What Reply first tries to send, in which encoding. */
  function FirstTry<T>(accept: string, code: int, resp: Body<T>): (Format, int, Body<T>) {
    var mime := Normalize(accept);
    var f := ReplyFormat(mime);
    if f.Some? then (f.value, code, resp)
    else (Json, CODE_CLIENT_CONTENT_ERROR, CodeReply(CODE_CLIENT_CONTENT_ERROR, NotAcceptable(mime)))
  }

  /** What it tries after `n` refusals: each time a 500 that says why. */
  function Try<T>(w: Wires<T>, f: Format, resp: Body<T>, n: nat): Body<T>
    decreases n
  {
    if n == 0 then resp
    else
      match w.marshal(f, resp)
      case Bytes(_) => resp
      case Refused(text) => Try(w, f, CodeReply(CODE_INTERNAL_ERROR, text), n - 1)
  }

  lemma {:induction false} TriesAreCalls<T>(w: Wires<T>, accept: string, f: Format, code: int, resp: Body<T>, n: nat)
    requires ReplyFormat(Normalize(accept)) == Some(f)
    ensures Calls(w, Again(accept, code, resp), n + 1).Wrote? <==> w.marshal(f, Try(w, f, resp, n)).Bytes?
    decreases n
  {
    var t := OneCall(w, accept, code, resp);
    assert Calls(w, Again(accept, code, resp), n + 1) == Calls(w, t, n);
    if t.Again? && n > 0 {
      TriesAreCalls(w, accept, f, t.code, t.resp, n - 1);
    }
  }

  ghost predicate Returns<T>(w: Wires<T>, t: Turn<T>) {
    exists n: nat :: Calls(w, t, n).Wrote?
  }

  ghost predicate SomeTryMarshals<T>(w: Wires<T>, f: Format, resp: Body<T>) {
    exists n: nat :: w.marshal(f, Try(w, f, resp, n)).Bytes?
  }

  /** For every encoder, header and message Reply returns if and only if one of its successive tries can be marshalled. */
  lemma ReplyReturnsIff<T>(w: Wires<T>, accept: string, code: int, resp: Body<T>)
    ensures var (f, c, m) := FirstTry(accept, code, resp);
            Returns(w, Again(accept, code, resp)) <==> SomeTryMarshals(w, f, m)
  {
    var (f, c, m) := FirstTry(accept, code, resp);
    if ReplyFormat(Normalize(accept)).Some? {
      ReturnsWhenSupported(w, accept, f, code, resp);
    } else {
      MediaAgrees(Json);
      ReturnsWhenSupported(w, JSON, Json, c, m);
      CallsShift(w, Again(accept, code, resp));
    }
  }

  lemma CallsOnce<T>(w: Wires<T>, t: Turn<T>, n: nat)
    requires t.Again?
    ensures Calls(w, t, n + 1) == Calls(w, OneCall(w, t.accept, t.code, t.resp), n)
    ensures Calls(w, t, 0).Again?
  {
  }

  /** A call that only calls again returns exactly when that one does. */
  lemma CallsShift<T>(w: Wires<T>, t: Turn<T>)
    requires t.Again?
    ensures Returns(w, t) <==> Returns(w, OneCall(w, t.accept, t.code, t.resp))
  {
    var next := OneCall(w, t.accept, t.code, t.resp);
    CallsOnce(w, t, 0);
    if Returns(w, t) {
      var n: nat :| Calls(w, t, n).Wrote?;
      CallsOnce(w, t, n - 1);
    }
    if Returns(w, next) {
      var n: nat :| Calls(w, next, n).Wrote?;
      CallsOnce(w, t, n);
    }
  }

  lemma ReturnsWhenSupported<T>(w: Wires<T>, accept: string, f: Format, code: int, resp: Body<T>)
    requires ReplyFormat(Normalize(accept)) == Some(f)
    ensures Returns(w, Again(accept, code, resp)) <==> SomeTryMarshals(w, f, resp)
  {
    if Returns(w, Again(accept, code, resp)) {
      var n: nat :| Calls(w, Again(accept, code, resp), n).Wrote?;
      CallsOnce(w, Again(accept, code, resp), 0);
      TriesAreCalls(w, accept, f, code, resp, n - 1);
    }
    if SomeTryMarshals(w, f, resp) {
      var n: nat :| w.marshal(f, Try(w, f, resp, n)).Bytes?;
      TriesAreCalls(w, accept, f, code, resp, n);
    }
  }

  /** An encoder that always gives the same reason ends it exactly when it accepts the first try or that reason. */
  lemma OneReasonIff<T(!new)>(w: Wires<T>, accept: string, text: string, code: int, resp: Body<T>)
    requires forall f, m :: w.marshal(f, m).Refused? ==> w.marshal(f, m).text == text
    ensures var (f, c, m) := FirstTry(accept, code, resp);
            Returns(w, Again(accept, code, resp)) <==>
              w.marshal(f, m).Bytes? || w.marshal(f, CodeReply(CODE_INTERNAL_ERROR, text)).Bytes?
  {
    var (f, c, m) := FirstTry(accept, code, resp);
    ReplyReturnsIff(w, accept, code, resp);
    OneReasonTries(w, f, text, m);
  }

  lemma OneReasonTries<T>(w: Wires<T>, f: Format, text: string, m: Body<T>)
    requires w.marshal(f, m).Refused? ==> w.marshal(f, m).text == text
    requires var reason: Body<T> := CodeReply(CODE_INTERNAL_ERROR, text);
             w.marshal(f, reason).Refused? ==> w.marshal(f, reason).text == text
    ensures SomeTryMarshals(w, f, m) <==>
              w.marshal(f, m).Bytes? || w.marshal(f, CodeReply(CODE_INTERNAL_ERROR, text)).Bytes?
  {
    assert Try(w, f, m, 0) == m;
    if w.marshal(f, m).Refused? {
      forall n: nat | n > 0 ensures Try(w, f, m, n) == CodeReply(CODE_INTERNAL_ERROR, text) {
        StaysReason(w, f, text, n - 1);
      }
      assert Try(w, f, m, 1) == CodeReply(CODE_INTERNAL_ERROR, text);
    }
  }

  lemma {:induction false} StaysReason<T>(w: Wires<T>, f: Format, text: string, n: nat)
    requires var reason: Body<T> := CodeReply(CODE_INTERNAL_ERROR, text);
             w.marshal(f, reason).Refused? ==> w.marshal(f, reason).text == text
    ensures Try(w, f, CodeReply(CODE_INTERNAL_ERROR, text), n) == CodeReply(CODE_INTERNAL_ERROR, text)
    decreases n
  {
    if n > 0 {
      StaysReason(w, f, text, n - 1);
    }
  }
}
