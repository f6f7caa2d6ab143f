/** The error values of errors.go, reader.go and client.go, and the v1.Reply body that carries them. */
module Errors {
  import opened Prelude

  const CODE_BAD_REQUEST := 400
  const CODE_NOT_FOUND := 404
  const CODE_TOO_MANY_REQUESTS := 429
  const CODE_CLIENT_ERROR := 452
  const CODE_RETRY_REQUEST := 454
  const CODE_CLIENT_CONTENT_ERROR := 455
  const CODE_INTERNAL_ERROR := 500

  type Details = map<string, string>

  datatype Reply = Reply(code: string, message: string, details: Details)

  datatype ClientError = ClientError(
    code: string, httpCode: int, msg: string, details: Details, infra: bool, cause: Option<string>)

  /**
   An error chain. Service, Client and DataLimit satisfy the duh Error interface and have
   no Unwrap method; Wrap is fmt.Errorf with one %w and Join is errors.Join or several.
   */
  datatype Err =
    | Plain(text: string)
    | Service(httpCode: int, code: string, cause: Option<string>, details: Details)
    | Client(error: ClientError)
    | DataLimit(max: int, message: string)
    | Wrap(text: string, inner: Err)
    | Join(text: string, left: Err, right: Err)

  type DuhError = e: Err | e.Service? || e.Client? || e.DataLimit? witness DataLimit(0, "")

  /** errors.As with a target of type Error, httpCoder or detailer: the first match in the chain, depth first. */
  function AsDuh(err: Err): Option<DuhError> {
    match err
    case Plain(_) => None
    case Wrap(_, inner) => AsDuh(inner)
    case Join(_, left, right) => if AsDuh(left).Some? then AsDuh(left) else AsDuh(right)
    case _ => Some(err)
  }

  /** errors.As with a target of type infraChecker, which only ClientError satisfies. */
  function AsClient(err: Err): Option<ClientError> {
    match err
    case Client(e) => Some(e)
    case Wrap(_, inner) => AsClient(inner)
    case Join(_, left, right) => if AsClient(left).Some? then AsClient(left) else AsClient(right)
    case _ => None
  }

  function HttpCode(e: DuhError): int {
    match e
    case Service(httpCode, _, _, _) => httpCode
    case Client(c) => c.httpCode
    case DataLimit(_, _) => CODE_BAD_REQUEST
  }

  function DetailsOf(e: DuhError): Details {
    match e
    case Service(_, _, _, details) => details
    case Client(c) => c.details
    case DataLimit(_, _) => map[]
  }

  function TextOr(cause: Option<string>, fallback: string): string {
    if cause.Some? then cause.value else fallback
  }

  function ProtoMessage(e: DuhError): Reply {
    match e
    case Service(_, code, cause, details) => Reply(code, TextOr(cause, ""), details)
    case Client(c) => Reply(c.code, if c.msg == "" then TextOr(c.cause, "") else c.msg, c.details)
    case DataLimit(_, message) => Reply(Itoa(CODE_BAD_REQUEST), message, map[])
  }

  /** err.Error() of a chain that holds no duh Error. */
  function PlainText(err: Err): string {
    match err
    case Plain(text) => text
    case Wrap(text, _) => text
    case Join(text, _, _) => text
    case _ => ""
  }

  /** The payload of an error frame. */
  function BuildErrorReply(err: Err): Reply {
    if AsDuh(err).Some? then ProtoMessage(AsDuh(err).value)
    else Reply(Itoa(CODE_INTERNAL_ERROR), PlainText(err), map[])
  }

  function Digits(n: nat): (s: string)
    ensures |s| > 0
  {
    var last := ['0' + (n % 10) as char];
    if n < 10 then last else Digits(n / 10) + last
  }

  /** strconv.Itoa */
  function Itoa(n: int): string {
    if n < 0 then "-" + Digits(-n) else Digits(n)
  }
}
