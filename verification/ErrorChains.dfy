/**
 Error chains as the caller sees them. What the service, the client and retry do with an
 error is stated through the leaves of its chain: flat lists, without errors.As.
 */
module ErrorChains {
  import opened Prelude
  import opened Errors

  /** The errors of a chain in the order in which errors.As visits them. */
  function Leaves(err: Err): seq<Err> {
    match err
    case Wrap(_, inner) => Leaves(inner)
    case Join(_, left, right) => Leaves(left) + Leaves(right)
    case _ => [err]
  }

  predicate IsDuh(e: Err) {
    e.Service? || e.Client? || e.DataLimit?
  }

  predicate IsClient(e: Err) {
    e.Client?
  }

  /** Position `i` is the first that satisfies `kind`. */
  predicate IsFirst(leaves: seq<Err>, kind: Err -> bool, i: nat) {
    i < |leaves| && kind(leaves[i]) && forall j :: 0 <= j < i ==> !kind(leaves[j])
  }

  function Find(leaves: seq<Err>, kind: Err -> bool): Option<Err> {
    if leaves == [] then None else if kind(leaves[0]) then Some(leaves[0]) else Find(leaves[1..], kind)
  }

  lemma {:induction false} FindConcat(a: seq<Err>, b: seq<Err>, kind: Err -> bool)
    ensures Find(a + b, kind) == if Find(a, kind).Some? then Find(a, kind) else Find(b, kind)
  {
    if a == [] {
      assert a + b == b;
    } else {
      assert (a + b)[1..] == a[1..] + b;
      FindConcat(a[1..], b, kind);
    }
  }

  lemma {:induction false} FindIsFirst(leaves: seq<Err>, kind: Err -> bool) returns (i: nat)
    ensures Find(leaves, kind).Some? ==> IsFirst(leaves, kind, i) && Find(leaves, kind) == Some(leaves[i])
    ensures Find(leaves, kind).None? ==> forall j :: 0 <= j < |leaves| ==> !kind(leaves[j])
  {
    i := 0;
    if leaves != [] && !kind(leaves[0]) {
      i := FindIsFirst(leaves[1..], kind);
      assert forall j :: 0 < j < |leaves| ==> leaves[j] == leaves[1..][j - 1];
      i := i + 1;
    }
  }

  /** errors.As finds the first matching leaf, whatever the nesting. */
  lemma {:induction false} AsIsFind(err: Err)
    ensures AsDuh(err) == Find(Leaves(err), IsDuh)
    ensures Find(Leaves(err), IsClient) == if AsClient(err).Some? then Some(Client(AsClient(err).value)) else None
  {
    match err
    case Wrap(_, inner) => AsIsFind(inner);
    case Join(_, left, right) =>
      AsIsFind(left);
      AsIsFind(right);
      FindConcat(Leaves(left), Leaves(right), IsDuh);
      FindConcat(Leaves(left), Leaves(right), IsClient);
    case _ =>
      assert Leaves(err)[1..] == [];
  }

  /** The first ClientError of the chain is infrastructure's. */
  predicate InfraChain(leaves: seq<Err>) {
    exists i :: 0 <= i < |leaves| && IsFirst(leaves, IsClient, i) && leaves[i].error.infra
  }

  lemma InfraChainIff(err: Err)
    ensures InfraChain(Leaves(err)) <==> AsClient(err).Some? && AsClient(err).value.infra
  {
    AsIsFind(err);
    var i := FindIsFirst(Leaves(err), IsClient);
  }

  lemma {:induction false} FirstDuhIsFirstClient(err: Err)
    ensures AsDuh(err).Some? && AsDuh(err).value.Client? ==> AsClient(err) == Some(AsDuh(err).value.error)
    ensures AsDuh(err).None? ==> AsClient(err).None?
  {
    match err
    case Wrap(_, inner) => FirstDuhIsFirstClient(inner);
    case Join(_, left, right) =>
      FirstDuhIsFirstClient(left);
      FirstDuhIsFirstClient(right);
    case _ =>
  }

  // ---- what a chain shows ----

  /** The four things that the duh Error interface shows of an error. */
  datatype Face = Face(status: int, code: string, message: string, details: Details)

  /** The message of a ClientError is its own or else its cause's; a body over its limit is a 400 without details. */
  predicate HasFace(e: Err, f: Face) {
    match e
    case Service(httpCode, code, cause, details) =>
      f == Face(httpCode, code, if cause.Some? then cause.value else "", details)
    case Client(c) =>
      f == Face(c.httpCode, c.code, if c.msg == "" && c.cause.Some? then c.cause.value else c.msg, c.details)
    case DataLimit(_, message) => f == Face(400, "400", message, map[])
    case _ => false
  }

  /** The face of the first duh error of the chain. */
  predicate Shows(err: Err, f: Face) {
    exists i :: 0 <= i < |Leaves(err)| && IsFirst(Leaves(err), IsDuh, i) && HasFace(Leaves(err)[i], f)
  }

  predicate ShowsNothing(err: Err) {
    forall i :: 0 <= i < |Leaves(err)| ==> !IsDuh(Leaves(err)[i])
  }

  /** strconv.Itoa of the statuses that the package writes itself. */
  lemma ItoaStatuses()
    ensures Itoa(400) == "400" && Itoa(452) == "452" && Itoa(455) == "455" && Itoa(500) == "500"
  {
    assert Digits(4) == "4" && Digits(5) == "5";
    assert Digits(40) == "40" && Digits(45) == "45" && Digits(50) == "50";
  }

  /** The decimal number that a string of digits is. */
  function Value(s: string): int {
    if s == "" then 0 else 10 * Value(s[..|s| - 1]) + (s[|s| - 1] as int - '0' as int)
  }

  predicate AllDigits(s: string) {
    forall i :: 0 <= i < |s| ==> '0' <= s[i] <= '9'
  }

  /** Itoa writes the decimal number, without a leading zero. */
  lemma {:induction false} ItoaValue(n: nat)
    ensures var s := Itoa(n);
            s != "" && AllDigits(s) && Value(s) == n && (s[0] == '0' ==> n == 0)
  {
    if n >= 10 {
      ItoaValue(n / 10);
      var front := Digits(n / 10);
      assert Digits(n)[..|Digits(n)| - 1] == front;
    }
  }

  /** errors.As and the interface's methods show the face of the first duh error. */
  lemma ChainShows(err: Err)
    ensures AsDuh(err).Some? ==>
              var e := AsDuh(err).value;
              var r := ProtoMessage(e);
              Shows(err, Face(HttpCode(e), r.code, r.message, r.details)) && DetailsOf(e) == r.details
    ensures AsDuh(err).None? ==> ShowsNothing(err)
  {
    ItoaStatuses();
    AsIsFind(err);
    var i := FindIsFirst(Leaves(err), IsDuh);
    if AsDuh(err).Some? {
      var e := AsDuh(err).value;
      assert HasFace(e, Face(HttpCode(e), ProtoMessage(e).code, ProtoMessage(e).message, ProtoMessage(e).details));
    }
  }

  lemma ShowsOne(err: Err, f: Face, g: Face)
    requires Shows(err, f) && Shows(err, g)
    ensures f == g && !ShowsNothing(err)
  {
  }

  /** `err` is `core` under any number of plain wrappings. */
  predicate Wraps(err: Err, core: Err) {
    err == core || (err.Wrap? && Wraps(err.inner, core))
  }

  lemma {:induction false} WrapTransparent(err: Err, core: Err)
    requires Wraps(err, core)
    ensures Leaves(err) == Leaves(core) && AsDuh(err) == AsDuh(core) && AsClient(err) == AsClient(core)
  {
    if err != core {
      WrapTransparent(err.inner, core);
    }
  }

  lemma ClientShows(err: Err, e: ClientError)
    requires Wraps(err, Client(e)) && e.cause.None?
    ensures Shows(err, Face(e.httpCode, e.code, e.msg, e.details))
  {
    WrapTransparent(err, Client(e));
    assert IsFirst(Leaves(err), IsDuh, 0) && HasFace(Leaves(err)[0], Face(e.httpCode, e.code, e.msg, e.details));
  }

  /**
   The payload of an error frame, and of an error response, is the face of the first duh
   error, or the error's text under the code 500.
   */
  lemma ReplyOfChain(err: Err, f: Face)
    ensures Shows(err, f) ==> BuildErrorReply(err) == Reply(f.code, f.message, f.details)
    ensures ShowsNothing(err) ==>
              (err.Plain? || err.Wrap? || err.Join?) && BuildErrorReply(err) == Reply("500", err.text, map[])
  {
    ChainShows(err);
    ItoaStatuses();
    if AsDuh(err).Some? {
      var e := AsDuh(err).value;
      var g := Face(HttpCode(e), ProtoMessage(e).code, ProtoMessage(e).message, ProtoMessage(e).details);
      ShowsOne(err, g, g);
      if Shows(err, f) {
        ShowsOne(err, f, g);
      }
    }
  }
}
