/** How the client turns a response that is not 200 into an error (client.go:148-191, client.go:327-407), and what retry makes of it. */
module Classify {
  import opened Prelude
  import opened Errors
  import opened ErrorChains
  import opened MediaType
  import opened Retry
  import opened Service

  const HTTP_CODE := "http.code"
  const HTTP_URL := "http.url"
  const HTTP_METHOD := "http.method"
  const HTTP_STATUS := "http.status"
  const HTTP_BODY := "http.body"
  const CODE_TEXT := "duh.code-text"

  /** A response as the client reads it; the body is missing when reading it failed. */
  datatype Response = Response(
    status: int, statusText: string, contentType: string, version: string, retryAfter: string, body: Option<seq<Byte>>)

  datatype Request = Request(url: string, method_: string, codeText: int -> string)

  function Text(bytes: seq<Byte>): string {
    seq(|bytes|, i requires 0 <= i < |bytes| => bytes[i] as char)
  }

  function BaseDetails(req: Request, resp: Response): Details {
    map[HTTP_CODE := Itoa(resp.status), CODE_TEXT := req.codeText(resp.status),
        HTTP_URL := req.url, HTTP_METHOD := req.method_]
  }

  /** The Retry-After header, kept only on a 429. */
  function RetryAfterDetail(resp: Response): Details {
    if resp.status == CODE_TOO_MANY_REQUESTS && resp.retryAfter != "" then map[RETRY_AFTER := resp.retryAfter] else map[]
  }

  function ReplyError(req: Request, resp: Response, reply: Reply): ClientError {
    ClientError(reply.code, resp.status, reply.message,
                BaseDetails(req, resp) + reply.details + RetryAfterDetail(resp), false, None)
  }

  /** The range loop that copies one map over another, in any order of its keys. */
  method Overlay(base: Details, extra: Details) returns (details: Details)
    ensures details == base + extra
  {
    details := base;
    var keys := extra.Keys;
    while keys != {}
      invariant keys <= extra.Keys
      invariant details == base + (extra - keys)
      decreases keys
    {
      var k :| k in keys;
      assert extra - (keys - {k}) == (extra - keys)[k := extra[k]];
      details, keys := details[k := extra[k]], keys - {k};
    }
    assert extra - keys == extra;
  }

  method NewReplyError(req: Request, resp: Response, reply: Reply) returns (e: ClientError)
    ensures e == ReplyError(req, resp, reply)
    ensures e.code == reply.code && e.httpCode == resp.status && e.msg == reply.message && !e.infra
    ensures ServiceDetails(req, resp, reply.details, e.details)
  {
    var details := Overlay(BaseDetails(req, resp), reply.details);
    if resp.status == CODE_TOO_MANY_REQUESTS && resp.retryAfter != "" {
      details := details[RETRY_AFTER := resp.retryAfter];
    }
    e := ClientError(reply.code, resp.status, reply.message, details, false, None);
    ReplyDetails(req, resp, reply);
  }

  function BodyError(req: Request, resp: Response, body: seq<Byte>, infra: bool): ClientError {
    ClientError(Itoa(resp.status), resp.status, Text(body),
                map[HTTP_CODE := Itoa(resp.status), HTTP_BODY := Text(body), HTTP_URL := req.url,
                    HTTP_STATUS := resp.statusText, HTTP_METHOD := req.method_],
                infra, None)
  }

  function HandleErrorResponse<T>(w: Wires<T>, req: Request, resp: Response): ClientError {
    if resp.body.None? then
      ClientError(Itoa(CODE_CLIENT_ERROR), CODE_CLIENT_ERROR, "",
                  map[HTTP_URL := req.url, HTTP_METHOD := req.method_, HTTP_STATUS := resp.statusText],
                  false, Some("while reading response body"))
    else
      var body := resp.body.value;
      var f := BodyFormat(Normalize(resp.contentType));
      if f.Some? then
        var reply := w.unmarshal(f.value, body);
        if reply.None? then BodyError(req, resp, body, true) else ReplyError(req, resp, reply.value)
      else if resp.version != "" then
        var json, proto := w.unmarshal(Json, body), w.unmarshal(Proto, body);
        if json.Some? then ReplyError(req, resp, json.value)
        else if proto.Some? then ReplyError(req, resp, proto.value)
        else BodyError(req, resp, body, true)
      else BodyError(req, resp, body, resp.status / 100 == 5 || resp.status == CODE_NOT_FOUND)
  }

  // ---- where an error comes from ----

  /**
   The body holds this Reply: in the encoding its Content-Type names or, when that names
   neither and X-DUH-Version is there, in JSON, or else in protobuf.
   */
  predicate Holds<T>(w: Wires<T>, resp: Response, reply: Reply) {
    && resp.body.Some?
    && var mime, body := Normalize(resp.contentType), resp.body.value;
       if mime == "application/json" then w.unmarshal(Json, body) == Some(reply)
       else if mime == "application/protobuf" then w.unmarshal(Proto, body) == Some(reply)
       else
         && resp.version != ""
         && (w.unmarshal(Json, body) == Some(reply)
             || (w.unmarshal(Json, body).None? && w.unmarshal(Proto, body) == Some(reply)))
  }

  ghost predicate HoldsReply<T>(w: Wires<T>, resp: Response) {
    exists reply :: Holds(w, resp, reply)
  }

  /** A response without a Reply is infrastructure's if it claimed to have one, or has a status infrastructure uses. */
  ghost predicate FromInfra<T>(w: Wires<T>, resp: Response) {
    && resp.body.Some? && !HoldsReply(w, resp)
    && (Normalize(resp.contentType) == "application/json" || Normalize(resp.contentType) == "application/protobuf"
        || resp.version != "" || 500 <= resp.status <= 599 || resp.status == 404)
  }

  /**
   The details of a service error: those of the service, the Retry-After header over them on
   a 429 that has one, and four of the request and response where the service has no such key.
   */
  predicate ServiceDetails(req: Request, resp: Response, sent: Details, got: Details) {
    var limited := resp.status == 429 && resp.retryAfter != "";
    && got.Keys == sent.Keys + {"http.code", "duh.code-text", "http.url", "http.method"}
                   + (if limited then {"http.retry-after"} else {})
    && (limited ==> got["http.retry-after"] == resp.retryAfter)
    && (forall k :: k in sent && !(limited && k == "http.retry-after") ==> got[k] == sent[k])
    && ("http.code" !in sent ==> got["http.code"] == Itoa(resp.status))
    && ("duh.code-text" !in sent ==> got["duh.code-text"] == req.codeText(resp.status))
    && ("http.url" !in sent ==> got["http.url"] == req.url)
    && ("http.method" !in sent ==> got["http.method"] == req.method_)
  }

  /** The keys differ, by their lengths. */
  lemma DetailKeys()
    ensures |"http.url"| == 8 && |"http.code"| == 9 && |"http.method"| == 11
    ensures |"duh.code-text"| == 13 && |"ratelimit-reset"| == 15 && |"http.retry-after"| == 16
  {
  }

  lemma BaseValues(req: Request, resp: Response)
    ensures var base := BaseDetails(req, resp);
            && base.Keys == {"http.code", "duh.code-text", "http.url", "http.method"}
            && base["http.code"] == Itoa(resp.status) && base["duh.code-text"] == req.codeText(resp.status)
            && base["http.url"] == req.url && base["http.method"] == req.method_
  {
    DetailKeys();
  }

  lemma ReplyDetails(req: Request, resp: Response, reply: Reply)
    ensures ServiceDetails(req, resp, reply.details, ReplyError(req, resp, reply).details)
  {
    BaseValues(req, resp);
    DetailKeys();
    var base, sent := BaseDetails(req, resp), reply.details;
    var both := base + sent;
    assert both.Keys == base.Keys + sent.Keys;
    assert ReplyError(req, resp, reply).details == both + RetryAfterDetail(resp);
  }

  /** A response that holds a Reply becomes a service error with its status, the Reply's code and message, and the details above. */
  lemma ReplyBecomesError<T>(w: Wires<T>, req: Request, resp: Response, reply: Reply)
    requires Holds(w, resp, reply)
    ensures var e := HandleErrorResponse(w, req, resp);
            && !e.infra && e.cause.None?
            && e.httpCode == resp.status && e.code == reply.code && e.msg == reply.message
            && ServiceDetails(req, resp, reply.details, e.details)
  {
    ReplyDetails(req, resp, reply);
  }

  const RETRYABLE_CODES := [CODE_TOO_MANY_REQUESTS, CODE_RETRY_REQUEST, CODE_INTERNAL_ERROR]
  const RETRYABLE_INFRA_CODES := [CODE_NOT_FOUND, 502, 503, 504]

  function OnRetryable(interval: int -> int): Policy {
    Policy(Some(interval), Some(RETRYABLE_CODES), Some(RETRYABLE_INFRA_CODES), 0)
  }

  /**
   The classification alone: a response that holds a Reply is never infrastructure's, any
   other response that can be read is reported with its text as the message, and one that
   cannot be read is the client's 452.
   */
  lemma ClassifiedAs<T>(w: Wires<T>, req: Request, resp: Response)
    ensures var e := HandleErrorResponse(w, req, resp);
            && (e.infra <==> FromInfra(w, resp))
            && e.httpCode == (if resp.body.Some? then resp.status else 452)
            && (resp.body.None? ==>
                  && e.code == "452" && e.cause.Some?
                  && e.details == map["http.url" := req.url, "http.method" := req.method_, "http.status" := resp.statusText])
            && (resp.body.Some? && !HoldsReply(w, resp) ==>
                  && e.msg == Text(resp.body.value) && e.code == Itoa(resp.status) && e.cause.None?
                  && e.details == map["http.code" := Itoa(resp.status), "http.body" := Text(resp.body.value),
                                      "http.url" := req.url, "http.status" := resp.statusText,
                                      "http.method" := req.method_])
  {
    ItoaStatuses();
    HoldsIff(w, resp);
  }

  /** There is no Reply exactly when the decoders that the headers select find none. */
  lemma HoldsIff<T>(w: Wires<T>, resp: Response)
    ensures HoldsReply(w, resp) <==>
              && resp.body.Some?
              && var f, body := BodyFormat(Normalize(resp.contentType)), resp.body.value;
                 if f.Some? then w.unmarshal(f.value, body).Some?
                 else resp.version != "" && (w.unmarshal(Json, body).Some? || w.unmarshal(Proto, body).Some?)
  {
    if resp.body.Some? {
      var json, proto := w.unmarshal(Json, resp.body.value), w.unmarshal(Proto, resp.body.value);
      if json.Some? {
        assert Holds(w, resp, json.value) || !Holds(w, resp, json.value);
      }
      if proto.Some? {
        assert Holds(w, resp, proto.value) || !Holds(w, resp, proto.value);
      }
    }
  }

  /**
   One decision table for the classifier and the OnRetryable policy: a response is retried,
   however its error is wrapped, exactly when its body could be read and it is
   infrastructure's with 404, 502, 503 or 504, or not and with 429, 454 or 500.
   */
  lemma RetryDecision<T>(w: Wires<T>, req: Request, resp: Response, interval: int -> int, err: Err)
    requires Wraps(err, Client(HandleErrorResponse(w, req, resp)))
    ensures ShouldRetry(err, OnRetryable(interval)) <==>
              && resp.body.Some?
              && resp.status in Retried(FromInfra(w, resp))
  {
    var e := HandleErrorResponse(w, req, resp);
    ClassifiedAs(w, req, resp);
    WrapTransparent(err, Client(e));
    OnLists(e.httpCode);
  }

  lemma Contains3(s: seq<int>, x: int)
    requires |s| == 3
    ensures x in s <==> x == s[0] || x == s[1] || x == s[2]
  {
  }

  lemma Contains4(s: seq<int>, x: int)
    requires |s| == 4
    ensures x in s <==> x == s[0] || x == s[1] || x == s[2] || x == s[3]
  {
  }

  /** A 404 that carries a Reply is never retried, and an infrastructure 404 always is. */
  lemma NotFoundDecision<T>(w: Wires<T>, req: Request, resp: Response, interval: int -> int, err: Err)
    requires Wraps(err, Client(HandleErrorResponse(w, req, resp)))
    requires resp.status == 404 && resp.body.Some?
    ensures ShouldRetry(err, OnRetryable(interval)) <==> !HoldsReply(w, resp)
  {
    RetryDecision(w, req, resp, interval, err);
  }

  // ---- every error chain ----

  /** The statuses OnRetryable retries, by where the chain says that the error comes from. */
  function Retried(infra: bool): set<int> {
    if infra then {404, 502, 503, 504} else {429, 454, 500}
  }

  /**
   The decision table over every error chain, joins included: an error is retried exactly
   when its first duh error has a status that is retried for the origin that its first
   ClientError gives.
   */
  lemma RetryDecisionEveryChain(interval: int -> int, err: Err)
    ensures ShouldRetry(err, OnRetryable(interval)) <==>
              exists f :: Shows(err, f) && f.status in Retried(InfraChain(Leaves(err)))
  {
    ShouldRetryIff(err, OnRetryable(interval));
    forall f | Shows(err, f)
      ensures f.status in Retried(InfraChain(Leaves(err)))
              <==> f.status in if InfraChain(Leaves(err)) then RETRYABLE_INFRA_CODES else RETRYABLE_CODES
    {
      OnLists(f.status);
    }
  }

  lemma OnLists(code: int)
    ensures code in RETRYABLE_INFRA_CODES <==> code in Retried(true)
    ensures code in RETRYABLE_CODES <==> code in Retried(false)
  {
    Contains4(RETRYABLE_INFRA_CODES, code);
    Contains3(RETRYABLE_CODES, code);
  }

  /**
   Exactly when a chain is treated like its first duh error alone: always, except when that
   error is not a ClientError, the first ClientError behind it is infrastructure's, and its
   status is in either list.
   */
  lemma FirstErrorDecidesIff(interval: int -> int, err: Err)
    requires AsDuh(err).Some?
    ensures var e := AsDuh(err).value;
            (ShouldRetry(err, OnRetryable(interval)) == ShouldRetry(e, OnRetryable(interval)))
            <==> (e.Client? || !InfraChain(Leaves(err)) || HttpCode(e) !in Retried(true) + Retried(false))
  {
    InfraChainIff(err);
    OnLists(HttpCode(AsDuh(err).value));
    FirstDuhIsFirstClient(err);
  }

  /** A chain whose first duh error is a service 404 is retried exactly when it also holds a ClientError, the first of which is infrastructure's. */
  lemma ServiceNotFoundIff(interval: int -> int, err: Err)
    requires AsDuh(err).Some? && AsDuh(err).value.Service? && AsDuh(err).value.httpCode == 404
    ensures ShouldRetry(err, OnRetryable(interval)) <==> InfraChain(Leaves(err))
  {
    InfraChainIff(err);
    OnLists(404);
  }

  /** Joined errors escape the table: a service 404 joined with an infrastructure error is retried. */
  lemma JoinedNotFoundRetried(interval: int -> int, service: Err, infra: ClientError, text: string)
    requires service.Service? && service.httpCode == 404 && infra.infra
    ensures !ShouldRetry(service, OnRetryable(interval))
    ensures ShouldRetry(Join(text, service, Client(infra)), OnRetryable(interval))
  {
  }

  // ---- the round trip of a service error ----

  /** The encodings give back the Reply they were given. */
  ghost predicate LawfulReplies<T>(w: Wires<T>) {
    forall f, r :: w.marshal(f, Note(r)).Bytes? ==> w.unmarshal(f, w.marshal(f, Note(r)).bytes) == Some(r)
  }

  /** A response on its way to the client; something in between may have set Retry-After. */
  function Transmit(written: Written, statusText: string, retryAfter: string): Response {
    Response(written.status, statusText, Media(written.format), VERSION, retryAfter, Some(written.bytes))
  }

  /**
   Error round trip: what ReplyError sends for any error chain, to a client that asked for an
   encoding Reply supports, comes back as a service error with the status, code, message and
   details of the chain's first duh error, or as a 500 with the error's text if there is none.
   */
  lemma ErrorRoundTrip<T(!new)>(w: Wires<T>, req: Request, accept: string, err: Err, statusText: string, retryAfter: string)
    requires LawfulReplies(w)
    requires var f := ReplyFormat(Normalize(accept));
             f.Some? && w.marshal(f.value, Note(BuildErrorReply(err))).Bytes?
    ensures var sent := Settled(w, accept, ErrorStatus(err), Note(BuildErrorReply(err)));
            sent.Some?
            && var resp := Transmit(sent.value, statusText, retryAfter);
               var got := HandleErrorResponse(w, req, resp);
               && !got.infra
               && (forall f :: Shows(err, f) ==>
                     && got.httpCode == f.status && got.code == f.code && got.msg == f.message
                     && ServiceDetails(req, resp, f.details, got.details))
               && (ShowsNothing(err) ==>
                     && got.httpCode == 500 && got.code == "500" && !IsDuh(err) && got.msg == err.text
                     && ServiceDetails(req, resp, map[], got.details))
  {
    var f := ReplyFormat(Normalize(accept)).value;
    MediaAgrees(f);
    var sent := Settled(w, accept, ErrorStatus(err), Note(BuildErrorReply(err))).value;
    var resp := Transmit(sent, statusText, retryAfter);
    ReplyBecomesError(w, req, resp, BuildErrorReply(err));
    forall f | Shows(err, f) ensures ErrorStatus(err) == f.status && BuildErrorReply(err) == Reply(f.code, f.message, f.details) {
      ReplyOfChain(err, f);
      StatusOfChain(err, f);
    }
    if ShowsNothing(err) {
      ReplyOfChain(err, Face(0, "", "", map[]));
      StatusOfChain(err, Face(0, "", "", map[]));
    }
  }

  /** With an Accept header that Reply does not support the caller gets a 455 instead of the error. */
  lemma UnsupportedAcceptHidesError<T(!new)>(w: Wires<T>, req: Request, accept: string, err: Err, statusText: string, retryAfter: string)
    requires LawfulReplies(w) && ReplyFormat(Normalize(accept)).None?
    requires w.marshal(Json, CodeReply(CODE_CLIENT_CONTENT_ERROR, NotAcceptable(Normalize(accept)))).Bytes?
    ensures var sent := Settled(w, accept, ErrorStatus(err), Note(BuildErrorReply(err)));
            sent.Some?
            && var got := HandleErrorResponse(w, req, Transmit(sent.value, statusText, retryAfter));
               !got.infra && got.httpCode == 455 && got.code == "455"
  {
    ItoaStatuses();
    MediaAgrees(Json);
  }

  // ---- a rate limit, from the header to the sleep ----

  lemma LimitKept(num: Numbers, req: Request, resp: Response, sent: Details, got: Details)
    requires ServiceDetails(req, resp, sent, got)
    ensures Usable(num, got, "ratelimit-reset") <==> Usable(num, sent, "ratelimit-reset")
    ensures "ratelimit-reset" in sent ==> "ratelimit-reset" in got && got["ratelimit-reset"] == sent["ratelimit-reset"]
  {
    DetailKeys();
  }

  /**
   A 429 with a Reply and a Retry-After of a positive number of seconds, retried by On however
   its error is wrapped, is followed by a sleep of that many seconds, unless the service
   itself names a usable "ratelimit-reset", which then comes first.
   */
  lemma RetryAfterSleeps<T>(wires: Wires<T>, req: Request, resp: Response, reply: Reply,
                            p: Policy, w: World, n: nat, t: Trace, i: nat)
    requires EndsAt(p, w, n, t) && 1 <= i <= |t.sleeps| && w.op(i).Some?
    requires Wraps(w.op(i).value, Client(HandleErrorResponse(wires, req, resp)))
    requires Holds(wires, resp, reply) && resp.status == 429 && resp.retryAfter != ""
    requires w.num.parse(resp.retryAfter).Some? && w.num.parse(resp.retryAfter).value > 0.0
    ensures Waits(w.num,
                  if Usable(w.num, reply.details, "ratelimit-reset") then reply.details["ratelimit-reset"] else resp.retryAfter,
                  p.interval.value(i), t.sleeps[i - 1])
  {
    var e := HandleErrorResponse(wires, req, resp);
    ReplyBecomesError(wires, req, resp, reply);
    ClientShows(w.op(i).value, e);
    SleepAfter(p, w, n, t, i);
    LimitKept(w.num, req, resp, reply.details, e.details);
  }
}
