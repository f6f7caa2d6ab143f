/**
 Heartbeat timing (streaming.go:170-195, streaming.go:273-297, client.go:251-254). The
 server writes a heartbeat at every tick of its interval; the client arms a timer before
 each ReadFrame and gives the stream up when no frame has come by the time it fires.
 */
module KeepAlive {
  import opened Prelude

  const SECOND: nat := 1_000_000_000
  const DEFAULT_INTERVAL: nat := 30 * SECOND
  const DEFAULT_TIMEOUT: nat := 60 * SECOND

  /** The interval of HandleStream: a missing or zero setting is the default, a negative one disables. */
  function Interval(conf: Option<int>): int {
    if conf.Some? && conf.value != 0 then conf.value else DEFAULT_INTERVAL
  }

  /** The timeout of DoStream. */
  function Timeout(setting: int): int {
    if setting == 0 then DEFAULT_TIMEOUT else setting
  }

  /** The frames of a stream that stays open: when frame `n` has arrived, and which frame is the heartbeat of tick `k`. */
  datatype Arrivals = Arrivals(at: nat -> nat, tick: nat -> nat)

  /** When tick `k` of the ticker is due. */
  function Due(k: nat, interval: nat): nat {
    if k == 0 then 0 else Due(k - 1, interval) + interval
  }

  lemma {:induction false} DueGrows(j: nat, k: nat, interval: nat)
    requires interval > 0 && j <= k
    ensures k <= Due(k, interval) && Due(j, interval) <= Due(k, interval)
    decreases k
  {
    if j < k {
      DueGrows(j, k - 1, interval);
    } else if k > 0 {
      DueGrows(j - 1, k - 1, interval);
    }
  }

  /** Frames arrive in order, and the heartbeat of tick k arrives no more than `delay` after it is due. */
  ghost predicate Timely(s: Arrivals, interval: nat, delay: nat) {
    && (forall m: nat, n: nat :: m <= n ==> s.at(m) <= s.at(n))
    && (forall k: nat :: k >= 1 ==> Due(k, interval) <= s.at(s.tick(k)) <= Due(k, interval) + delay)
  }

  /** The `n`-th ReadFrame, started at starts[n], returns when its frame is there. */
  function Finish(s: Arrivals, starts: seq<nat>, n: nat): nat
    requires n < |starts|
  {
    Max(starts[n], s.at(n))
  }

  /** The reads of one client: each starts, at any time, after the one before it has returned. */
  predicate IsReading(s: Arrivals, starts: seq<nat>) {
    forall m, n :: 0 <= m < n < |starts| ==> Finish(s, starts, m) <= starts[n]
  }

  /** The timer of the `n`-th read fires before the read returns, or at the same moment. */
  predicate MayTimeOut(s: Arrivals, starts: seq<nat>, n: nat, timeout: int)
    requires n < |starts|
  {
    timeout > 0 && Finish(s, starts, n) >= starts[n] + timeout
  }

  /** The first tick whose heartbeat arrives after time `t`. */
  lemma NextTick(s: Arrivals, interval: nat, delay: nat, t: nat, from: nat) returns (k: nat)
    requires Timely(s, interval, delay) && from >= 1 && s.at(s.tick(from)) > t
    ensures k >= 1 && s.at(s.tick(k)) > t
    ensures k == 1 || s.at(s.tick(k - 1)) <= t
    decreases from
  {
    if from == 1 || s.at(s.tick(from - 1)) <= t {
      k := from;
    } else {
      k := NextTick(s, interval, delay, t, from - 1);
    }
  }

  /** A frame that has not arrived at time `t`, with every earlier one there, arrives within interval + delay. */
  lemma FrameSoon(s: Arrivals, interval: nat, delay: nat, t: nat, n: nat)
    requires interval > 0 && Timely(s, interval, delay)
    requires forall m: nat :: m < n ==> s.at(m) <= t
    ensures s.at(n) <= t + interval + delay
  {
    DueGrows(t + 1, t + 1, interval);
    var k := NextTick(s, interval, delay, t, t + 1);
    assert s.tick(k) >= n;
    assert s.at(n) <= s.at(s.tick(k)) <= Due(k, interval) + delay;
    assert k > 1 ==> Due(k - 1, interval) <= t;
  }

  /** Keep-alive: with a timeout above interval + delay no Recv of an open stream times out, whenever it is called. */
  lemma NoTimeout(s: Arrivals, interval: nat, delay: nat, timeout: int, starts: seq<nat>, n: nat)
    requires interval > 0 && Timely(s, interval, delay) && timeout > interval + delay
    requires IsReading(s, starts) && n < |starts|
    ensures !MayTimeOut(s, starts, n, timeout)
  {
    forall m: nat | m < n ensures s.at(m) <= starts[n] {
      assert Finish(s, starts, m) <= starts[n];
    }
    FrameSoon(s, interval, delay, starts[n], n);
  }

  /** When frame `n` arrives if the first heartbeat is on time, every later one as late as allowed, and nothing else is sent. */
  function LateAt(interval: nat, delay: nat, n: nat): nat {
    if n == 0 then interval else Due(n + 1, interval) + delay
  }

  function Late(interval: nat, delay: nat): Arrivals {
    Arrivals((n: nat) => LateAt(interval, delay, n), (k: nat) => if k == 0 then 0 else k - 1)
  }

  lemma LateInOrder(interval: nat, delay: nat, m: nat, n: nat)
    requires interval > 0 && m <= n
    ensures LateAt(interval, delay, m) <= LateAt(interval, delay, n)
  {
    DueGrows(1, m + 1, interval);
    DueGrows(m + 1, n + 1, interval);
  }

  lemma LateIsTimely(interval: nat, delay: nat)
    requires interval > 0
    ensures Timely(Late(interval, delay), interval, delay)
  {
    var s := Late(interval, delay);
    forall m: nat, n: nat | m <= n ensures s.at(m) <= s.at(n) {
      LateInOrder(interval, delay, m, n);
    }
    forall k: nat | k >= 1 ensures Due(k, interval) <= s.at(s.tick(k)) <= Due(k, interval) + delay {
      assert s.at(s.tick(k)) == LateAt(interval, delay, k - 1);
    }
  }

  /** A smaller timeout is not enough: a client that reads the first heartbeat at once may give up before the second. */
  lemma LateHeartbeat(interval: nat, delay: nat, timeout: int)
    requires interval > 0 && 0 < timeout <= interval + delay
    ensures IsReading(Late(interval, delay), [0, interval])
    ensures MayTimeOut(Late(interval, delay), [0, interval], 1, timeout)
  {
    assert Due(1, interval) == Due(0, interval) + interval;
    assert Due(2, interval) == Due(1, interval) + interval;
  }

  ghost predicate AlwaysAlive(interval: nat, delay: nat, timeout: int) {
    forall s: Arrivals, starts: seq<nat>, n: nat ::
      Timely(s, interval, delay) && IsReading(s, starts) && n < |starts| ==> !MayTimeOut(s, starts, n, timeout)
  }

  /** For a positive timeout, interval + delay is the exact bound. */
  lemma KeepAliveIff(interval: nat, delay: nat, timeout: int)
    requires interval > 0 && timeout > 0
    ensures AlwaysAlive(interval, delay, timeout) <==> timeout > interval + delay
  {
    if timeout > interval + delay {
      forall s: Arrivals, starts: seq<nat>, n: nat
        | Timely(s, interval, delay) && IsReading(s, starts) && n < |starts|
        ensures !MayTimeOut(s, starts, n, timeout)
      {
        NoTimeout(s, interval, delay, timeout, starts, n);
      }
    } else {
      LateIsTimely(interval, delay);
      LateHeartbeat(interval, delay, timeout);
    }
  }

  /** What the two settings come to: zero or nothing is 30 seconds for the interval and 60 for the timeout. */
  lemma SettingsKeepAlive(conf: Option<int>, setting: int, delay: nat, interval: nat, timeout: int)
    requires interval == (if conf in {None, Some(0)} then 30_000_000_000 else conf.value) > 0
    requires timeout == (if setting == 0 then 60_000_000_000 else setting) > 0
    ensures Interval(conf) == interval && Timeout(setting) == timeout
    ensures AlwaysAlive(interval, delay, timeout) <==> timeout > interval + delay
  {
    KeepAliveIff(interval, delay, timeout);
  }

  /** With both settings left alone a stream survives exactly the delays below 30 seconds. */
  lemma DefaultsKeepAlive(delay: nat)
    ensures AlwaysAlive(Interval(None), delay, Timeout(0)) <==> delay < 30_000_000_000
  {
    KeepAliveIff(Interval(None), delay, Timeout(0));
  }

  /** A timeout of twice the interval survives exactly the delays below one interval. */
  lemma TwiceTheInterval(interval: nat, delay: nat)
    requires interval > 0
    ensures AlwaysAlive(interval, delay, 2 * interval) <==> delay < interval
  {
    KeepAliveIff(interval, delay, 2 * interval);
  }
}
