/** The retry loop (retry/retry.go): which errors are retried, how long it sleeps, and when it returns. */
module Retry {
  import opened Prelude
  import opened Errors
  import opened ErrorChains

  const RATE_LIMIT_RESET := "ratelimit-reset"
  const RETRY_AFTER := "http.retry-after"

  datatype Policy = Policy(
    interval: Option<int -> int>, onCodes: Option<seq<int>>, onInfraCodes: Option<seq<int>>, attempts: int)

  predicate ShouldRetry(err: Err, p: Policy) {
    if p.onCodes.None? && p.onInfraCodes.None? then true
    else
      var coder := AsDuh(err);
      if coder.None? then false
      else
        var infra := AsClient(err);
        if infra.Some? && infra.value.infra then
          p.onInfraCodes.Some? && HttpCode(coder.value) in p.onInfraCodes.value
        else p.onCodes.Some? && HttpCode(coder.value) in p.onCodes.value
  }

  /**
   Every policy over every chain. Without lists every error is retried. With a list only a
   chain that holds a duh error is, and by one list: that for infrastructure's statuses when
   the chain's first ClientError is infrastructure's, and the other one if not; a list that
   is nil holds no status.
   */
  lemma ShouldRetryIff(err: Err, p: Policy)
    ensures ShouldRetry(err, p) <==>
              || (p.onCodes.None? && p.onInfraCodes.None?)
              || exists f :: Shows(err, f)
                             && var list := if InfraChain(Leaves(err)) then p.onInfraCodes else p.onCodes;
                                list.Some? && f.status in list.value
  {
    ChainShows(err);
    InfraChainIff(err);
    forall f, g | Shows(err, f) && Shows(err, g) ensures f == g && !ShowsNothing(err) {
      ShowsOne(err, f, g);
    }
  }

  /** An infrastructure error is never retried by a policy that lists only service statuses, nor the reverse. */
  lemma OneListOnly(err: Err, p: Policy)
    ensures p.onCodes.Some? && p.onInfraCodes.None? && InfraChain(Leaves(err)) ==> !ShouldRetry(err, p)
    ensures p.onCodes.None? && p.onInfraCodes.Some? && !InfraChain(Leaves(err)) ==> !ShouldRetry(err, p)
  {
    ShouldRetryIff(err, p);
  }

  // ---- rate limits ----

  /**
   The float64 operations: strconv.ParseFloat, multiplication, math.Pow, and the conversions
   from int64, which rounds, and to int64, whose value is arbitrary out of range.
   */
  datatype Numbers = Numbers(
    parse: string -> Option<real>, mul: (real, real) -> real, pow: (real, nat) -> real,
    fromInt64: int -> real, toInt64: real -> int)

  const NANOS: real := 1000000000.0

  /** A detail that holds a positive number of seconds, as a duration. */
  function Seconds(num: Numbers, details: Details, key: string): Option<int> {
    if key in details && num.parse(details[key]).Some? && num.parse(details[key]).value > 0.0
    then Some(num.toInt64(num.mul(num.parse(details[key]).value, NANOS)))
    else None
  }

  /** The rate limit of an error: ratelimit-reset where it is usable, else Retry-After, else none. */
  function RateLimit(num: Numbers, err: Err): int {
    if AsDuh(err).None? then 0
    else
      var details := DetailsOf(AsDuh(err).value);
      var reset, after := Seconds(num, details, RATE_LIMIT_RESET), Seconds(num, details, RETRY_AFTER);
      if reset.Some? then reset.value else if after.Some? then after.value else 0
  }

  method RateLimitDuration(num: Numbers, err: Err) returns (d: int)
    ensures d == RateLimit(num, err)
  {
    var e := AsDuh(err);
    if e.None? {
      return 0;
    }
    var details := DetailsOf(e.value);
    var keys := [RATE_LIMIT_RESET, RETRY_AFTER];
    for i := 0 to |keys|
      invariant forall j :: 0 <= j < i ==> Seconds(num, details, keys[j]).None?
    {
      var key := keys[i];
      if key in details {
        var seconds := num.parse(details[key]);
        if seconds.Some? && seconds.value > 0.0 {
          assert i == 1 ==> Seconds(num, details, keys[0]).None?;
          return num.toInt64(num.mul(seconds.value, NANOS));
        }
      }
    }
    assert Seconds(num, details, keys[0]).None? && Seconds(num, details, keys[1]).None?;
    return 0;
  }

  // ---- the loop ----

  /**
   Everything the loop meets: the result of the operation at each attempt, and whether the
   context is found done before attempt i or wins the wait after it.
   */
  datatype World = World(op: nat -> Option<Err>, doneBefore: nat -> bool, doneAfter: nat -> bool, num: Numbers)

  datatype Verdict = Returned(err: Option<Err>) | ContextError | Panicked

  /** What a call of On does: its result, the attempt numbers it passes to the operation, the sleeps it starts. */
  datatype Trace = Trace(verdict: Verdict, calls: seq<nat>, sleeps: seq<int>)

  predicate Stops(p: Policy, w: World, i: nat) {
    || w.op(i).None?
    || (p.attempts != 0 && i >= p.attempts)
    || !ShouldRetry(w.op(i).value, p)
  }

  /** Attempt `i` is made, fails, is retried, and the sleep after it is not cut short. */
  predicate Continues(p: Policy, w: World, i: nat) {
    !w.doneBefore(i) && !Stops(p, w, i) && !w.doneAfter(i)
  }

  /** The sleep after a failed attempt `i`. */
  function Pause(p: Policy, w: World, i: nat): int
    requires p.interval.Some? && w.op(i).Some?
  {
    var d := RateLimit(w.num, w.op(i).value);
    if d == 0 then p.interval.value(i) else d
  }

  /** `n` is the first attempt that does not lead to another. */
  ghost predicate LastAttempt(p: Policy, w: World, n: nat) {
    && n >= 1 && !Continues(p, w, n)
    && forall i: nat :: 1 <= i < n ==> Continues(p, w, i)
  }

  /** The call described by its last attempt `n`. */
  ghost predicate EndsAt(p: Policy, w: World, n: nat, t: Trace) {
    && p.interval.Some? && LastAttempt(p, w, n)
    && t.calls == seq(|t.calls|, i => i + 1)
    && (if w.doneBefore(n) then
          t.verdict == ContextError && |t.calls| == n - 1 && |t.sleeps| == n - 1
        else if Stops(p, w, n) then
          t.verdict == Returned(w.op(n)) && |t.calls| == n && |t.sleeps| == n - 1
        else
          t.verdict == ContextError && |t.calls| == n && |t.sleeps| == n)
    && forall i: nat :: 1 <= i <= |t.sleeps| ==> w.op(i).Some? && t.sleeps[i - 1] == Pause(p, w, i)
  }

  /** The loop returns at all: some attempt does not lead to another. */
  ghost predicate Terminates(p: Policy, w: World) {
    exists n: nat :: n >= 1 && !Continues(p, w, n)
  }

  /** A limit on the attempts is enough for that, and a negative one behaves as one attempt. */
  lemma LimitTerminates(p: Policy, w: World, n: nat)
    requires p.attempts != 0
    ensures Terminates(p, w)
    ensures LastAttempt(p, w, n) ==> n <= Max(1, p.attempts)
  {
    assert !Continues(p, w, Max(1, p.attempts));
  }

  method On(p: Policy, w: World) returns (t: Trace)
    requires p.interval.Some? ==> Terminates(p, w)
    ensures p.interval.None? ==> t == Trace(Panicked, [], [])
    ensures p.interval.Some? ==> exists n: nat :: EndsAt(p, w, n, t)
  {
    if p.interval.None? {
      return Trace(Panicked, [], []);
    }
    var attempt: nat := 1;
    var calls: seq<nat>, sleeps: seq<int> := [], [];
    ghost var bound: nat :| bound >= 1 && !Continues(p, w, bound);
    while true
      invariant 1 <= attempt <= bound && |calls| == |sleeps| == attempt - 1
      invariant forall i: nat :: 1 <= i < attempt ==> Continues(p, w, i)
      invariant calls == seq(|calls|, i => i + 1)
      invariant forall i: nat :: 1 <= i <= |sleeps| ==> w.op(i).Some? && sleeps[i - 1] == Pause(p, w, i)
      decreases bound - attempt
    {
      if w.doneBefore(attempt) {
        t := Trace(ContextError, calls, sleeps);
        assert EndsAt(p, w, attempt, t);
        return;
      }
      var err := w.op(attempt);
      calls := calls + [attempt];
      if err.None? || (p.attempts != 0 && attempt >= p.attempts) {
        t := Trace(Returned(err), calls, sleeps);
        assert EndsAt(p, w, attempt, t);
        return;
      }
      if ShouldRetry(err.value, p) {
        var sleep := RateLimitDuration(w.num, err.value);
        if sleep == 0 {
          sleep := p.interval.value(attempt);
        }
        sleeps := sleeps + [sleep];
        if w.doneAfter(attempt) {
          t := Trace(ContextError, calls, sleeps);
          assert EndsAt(p, w, attempt, t);
          return;
        }
        attempt := attempt + 1;
      } else {
        t := Trace(Returned(err), calls, sleeps);
        assert EndsAt(p, w, attempt, t);
        return;
      }
    }
  }

  /** The description leaves nothing open: two traces of the same call are the same. */
  lemma TraceUnique(p: Policy, w: World, m: nat, s: Trace, n: nat, t: Trace)
    requires EndsAt(p, w, m, s) && EndsAt(p, w, n, t)
    ensures m == n && s == t
  {
    assert m == n;
    forall i | 0 <= i < |s.sleeps| ensures s.sleeps[i] == t.sleeps[i] {
      assert s.sleeps[(i + 1) - 1] == Pause(p, w, i + 1) == t.sleeps[(i + 1) - 1];
    }
  }

  /** Attempt `i` failed with an error that the policy retries, within its limit. */
  predicate Retryable(p: Policy, w: World, i: nat) {
    w.op(i).Some? && ShouldRetry(w.op(i).value, p) && (p.attempts == 0 || i < p.attempts)
  }

  /**
   What a call of On did, from its trace alone. Every attempt but the last failed, was
   retried within the limit, and neither it nor the sleep after it found the context done.
   The result is that of the last attempt, which succeeded or was not to be retried, or the
   context's error, found before the next attempt or during the sleep after the last one.
   */
  lemma OnOutcome(p: Policy, w: World, n: nat, t: Trace)
    requires EndsAt(p, w, n, t)
    ensures var k := |t.calls|;
            && (forall i :: 0 <= i < k ==> t.calls[i] == i + 1)
            && (forall i: nat :: 1 <= i < k ==> Retryable(p, w, i) && !w.doneBefore(i) && !w.doneAfter(i))
            && match t.verdict
               case Returned(err) =>
                 k >= 1 && !w.doneBefore(k) && !Retryable(p, w, k) && err == w.op(k) && |t.sleeps| == k - 1
               case ContextError =>
                 && (k >= 1 ==> Retryable(p, w, k) && !w.doneBefore(k)) && |t.sleeps| == k
                 && (w.doneBefore(k + 1) || (k >= 1 && w.doneAfter(k)))
               case Panicked => false
  {
    forall i: nat | 1 <= i < n ensures Retryable(p, w, i) && !w.doneBefore(i) && !w.doneAfter(i) {
      assert Continues(p, w, i);
    }
  }

  /** A detail that is there and is a positive number. */
  predicate Usable(num: Numbers, details: Details, key: string) {
    key in details && num.parse(details[key]).Some? && num.parse(details[key]).value > 0.0
  }

  /** `sleep` is that many seconds in nanoseconds, or `otherwise` if that comes to none. */
  predicate Waits(num: Numbers, seconds: string, otherwise: int, sleep: int) {
    && num.parse(seconds).Some?
    && var ns := num.toInt64(num.mul(num.parse(seconds).value, 1000000000.0));
       sleep == if ns != 0 then ns else otherwise
  }

  /**
   How long On sleeps after a failed attempt `i`: the seconds of "ratelimit-reset" in the
   details of the chain's first duh error if that is a positive number, or else those of
   "http.retry-after" if that is, or else what the interval says.
   */
  lemma SleepAfter(p: Policy, w: World, n: nat, t: Trace, i: nat)
    requires EndsAt(p, w, n, t) && 1 <= i <= |t.sleeps|
    ensures w.op(i).Some?
    ensures var sleep, next := t.sleeps[i - 1], p.interval.value(i);
            && (ShowsNothing(w.op(i).value) ==> sleep == next)
            && forall f :: Shows(w.op(i).value, f) ==>
                 if Usable(w.num, f.details, "ratelimit-reset") then
                   Waits(w.num, f.details["ratelimit-reset"], next, sleep)
                 else if Usable(w.num, f.details, "http.retry-after") then
                   Waits(w.num, f.details["http.retry-after"], next, sleep)
                 else sleep == next
  {
    var err := w.op(i).value;
    assert t.sleeps[i - 1] == Pause(p, w, i);
    ChainShows(err);
    forall f, g | Shows(err, f) && Shows(err, g) ensures f == g && !ShowsNothing(err) {
      ShowsOne(err, f, g);
    }
  }

  /** Once the context is found done no further attempt is made, and none at all if that is so at the start. */
  lemma NoAttemptOnceDone(p: Policy, w: World, n: nat, t: Trace, k: nat)
    requires EndsAt(p, w, n, t) && k >= 1 && (w.doneBefore(k) || (k > 1 && w.doneAfter(k - 1)))
    ensures |t.calls| < k
    ensures k == 1 ==> t == Trace(ContextError, [], [])
  {
    assert k < n ==> Continues(p, w, k);
    assert 1 < k <= n ==> Continues(p, w, k - 1);
  }

  /** When every error before the first success at `k` is retryable, On returns that success, or the last error once the attempts are used up. */
  lemma FirstSuccess(p: Policy, w: World, n: nat, t: Trace, k: nat)
    requires EndsAt(p, w, n, t)
    requires forall i: nat :: !w.doneBefore(i) && !w.doneAfter(i)
    requires k >= 1 && w.op(k).None? && forall i: nat :: 1 <= i < k ==> w.op(i).Some? && ShouldRetry(w.op(i).value, p)
    ensures var limit := if p.attempts == 0 then k else Min(k, Max(1, p.attempts));
            t.verdict == Returned(w.op(limit)) && |t.calls| == limit
  {
    var limit := if p.attempts == 0 then k else Min(k, Max(1, p.attempts));
    assert !Continues(p, w, limit);
    assert forall i: nat :: 1 <= i < limit ==> Continues(p, w, i);
    assert n == limit;
  }

  /** A policy without code lists retries every error: UntilSuccess returns the first success, whatever fails before it. */
  lemma UntilSuccess(p: Policy, w: World, n: nat, t: Trace, k: nat)
    requires EndsAt(p, w, n, t) && p.onCodes.None? && p.onInfraCodes.None? && p.attempts == 0
    requires forall i: nat :: !w.doneBefore(i) && !w.doneAfter(i)
    requires k >= 1 && w.op(k).None? && forall i: nat :: 1 <= i < k ==> w.op(i).Some?
    ensures t.verdict == Returned(None) && |t.calls| == k && |t.sleeps| == k - 1
  {
    FirstSuccess(p, w, n, t, k);
  }

  function Sum(xs: seq<int>): int {
    if xs == [] then 0 else Sum(xs[..|xs| - 1]) + xs[|xs| - 1]
  }

  lemma {:induction false} SumBounds(xs: seq<int>, lo: int, hi: int)
    requires forall i :: 0 <= i < |xs| ==> lo <= xs[i] <= hi
    ensures |xs| * lo <= Sum(xs) <= |xs| * hi
    decreases |xs|
  {
    if xs != [] {
      var n := |xs| - 1;
      SumBounds(xs[..n], lo, hi);
      assert (n + 1) * lo == n * lo + lo && (n + 1) * hi == n * hi + hi;
    }
  }

  /** k attempts whose errors carry no rate limit sleep between (k-1) and (k-1) times the interval's bounds. */
  lemma TotalSleep(p: Policy, w: World, n: nat, t: Trace, lo: int, hi: int)
    requires EndsAt(p, w, n, t) && t.verdict.Returned?
    requires forall i: nat :: 1 <= i < n ==> lo <= p.interval.value(i) <= hi
    requires forall i: nat :: 1 <= i < n && w.op(i).Some? ==> RateLimit(w.num, w.op(i).value) == 0
    ensures (|t.calls| - 1) * lo <= Sum(t.sleeps) <= (|t.calls| - 1) * hi
  {
    forall j | 0 <= j < |t.sleeps| ensures lo <= t.sleeps[j] <= hi {
      assert t.sleeps[(j + 1) - 1] == Pause(p, w, j + 1);
    }
    SumBounds(t.sleeps, lo, hi);
  }
}
