/** The cursor iterator (pagination.go), with its fetches retried by retry.On. */
module Pagination {
  import opened Prelude
  import opened Errors
  import opened Retry

  datatype Page = Page(endCursor: string, hasNext: bool)

  /**
   An endpoint and how its calls go: what it holds behind each cursor, and which of the
   fetches, counted over the life of the iterator, fail.
   */
  datatype Endpoint<T> = Endpoint(items: string -> seq<T>, page: string -> Page, fails: nat -> Option<Err>, num: Numbers)

  /** When the context of one Next call ends, as seen by the retry loop. */
  datatype Context = Context(doneBefore: nat -> bool, doneAfter: nat -> bool)

  /** The changing part of an iterator; `calls` counts its fetches. */
  datatype State = State(cursor: string, err: Option<Verdict>, done: bool, calls: nat)

  function Fetching<T>(e: Endpoint<T>, ctx: Context, calls: nat): World {
    World((attempt: nat) => e.fails(calls + attempt), ctx.doneBefore, ctx.doneAfter, e.num)
  }

  /** The fetches of one Next: a single one or, with a policy, those of retry.On. */
  ghost predicate Fetches<T>(e: Endpoint<T>, policy: Option<Policy>, ctx: Context, calls: nat, verdict: Verdict, count: nat) {
    if policy.None? then count == 1 && verdict == Returned(e.fails(calls + 1))
    else exists n: nat, t: Trace ::
           EndsAt(policy.value, Fetching(e, ctx, calls), n, t) && t.verdict == verdict && |t.calls| == count
  }

  /** The state after fetches that ended with `verdict`. */
  function Moved<T>(e: Endpoint<T>, s: State, verdict: Verdict, count: nat): State {
    if verdict == Returned(None) then
      State(e.page(s.cursor).endCursor, s.err, !e.page(s.cursor).hasNext, s.calls + count)
    else State(s.cursor, Some(verdict), true, s.calls + count)
  }

  /** One Next: the page it hands out, if any, and the new state. */
  ghost predicate Nexts<T>(e: Endpoint<T>, policy: Option<Policy>, ctx: Context, s: State, t: State, out: Option<seq<T>>) {
    if s.done then t == s && out.None?
    else exists verdict, count: nat ::
           && Fetches(e, policy, ctx, s.calls, verdict, count)
           && t == Moved(e, s, verdict, count)
           && out == if verdict == Returned(None) then Some(e.items(s.cursor)) else None
  }

  /** The caller's slice. */
  class Slot<T> {
    var items: seq<T>

    constructor (items: seq<T>)
      ensures this.items == items
    {
      this.items := items;
    }
  }

  class Iterator<T> {
    const endpoint: Endpoint<T>
    const policy: Option<Policy>
    var state: State

    constructor (endpoint: Endpoint<T>, policy: Option<Policy>)
      ensures this.endpoint == endpoint && this.policy == policy && state == State("", None, false, 0)
    {
      this.endpoint := endpoint;
      this.policy := policy;
      state := State("", None, false, 0);
    }

    /** The policy, if any, has an interval, and its retries come to an end in this context. */
    ghost predicate CanFetch(ctx: Context)
      reads this
    {
      policy.Some? ==> policy.value.interval.Some? && Terminates(policy.value, Fetching(endpoint, ctx, state.calls))
    }

    method Next(ctx: Context, page: Slot<T>) returns (ok: bool)
      requires CanFetch(ctx)
      modifies this, page
      ensures Nexts(endpoint, policy, ctx, old(state), state, if ok then Some(page.items) else None)
      ensures !ok ==> page.items == old(page.items)
    {
      if state.done {
        return false;
      }
      var verdict: Verdict, count: nat;
      if policy.Some? {
        var t := On(policy.value, Fetching(endpoint, ctx, state.calls));
        verdict, count := t.verdict, |t.calls|;
      } else {
        verdict, count := Returned(endpoint.fails(state.calls + 1)), 1;
      }
      assert Fetches(endpoint, policy, ctx, state.calls, verdict, count);
      if verdict != Returned(None) {
        state := state.(err := Some(verdict), done := true, calls := state.calls + count);
        return false;
      }
      page.items := endpoint.items(state.cursor);
      var pg := endpoint.page(state.cursor);
      state := state.(cursor := pg.endCursor, calls := state.calls + count);
      if !pg.hasNext {
        state := state.(done := true);
      }
      return true;
    }
  }

  // ---- draining ----

  /** A session of Next calls: their contexts, the states around them and what they hand out. */
  ghost predicate IsDrain<T>(e: Endpoint<T>, policy: Option<Policy>,
                             ctxs: seq<Context>, states: seq<State>, outs: seq<Option<seq<T>>>) {
    && |ctxs| == |outs| && |states| == |outs| + 1
    && states[0] == State("", None, false, 0)
    && forall i, j :: 0 <= i < |outs| && j == i + 1 ==> Nexts(e, policy, ctxs[i], states[i], states[j], outs[i])
  }

  /** The endpoint holds exactly `pages`, each behind the end cursor of the one before it. */
  predicate Holds<T(==)>(e: Endpoint<T>, cursors: seq<string>, pages: seq<seq<T>>) {
    && |cursors| == |pages| >= 1 && cursors[0] == ""
    && (forall i :: 0 <= i < |pages| ==> e.items(cursors[i]) == pages[i])
    && (forall i :: 0 <= i < |pages| ==> e.page(cursors[i]).hasNext == (i + 1 < |pages|))
    && (forall i, j :: 0 <= i && j == i + 1 < |pages| ==> e.page(cursors[i]).endCursor == cursors[j])
  }

  function Collected<T>(outs: seq<Option<seq<T>>>): seq<seq<T>> {
    if outs == [] then []
    else
      var last := outs[|outs| - 1];
      Collected(outs[..|outs| - 1]) + (if last.Some? then [last.value] else [])
  }

  /** What a drain has reached: `k` pages, and either the next cursor, the end, or an error. */
  predicate Reached<T>(cursors: seq<string>, s: State, k: nat, pages: seq<seq<T>>) {
    && k <= |pages| == |cursors|
    && (!s.done ==> k < |pages| && s.cursor == cursors[k] && s.err.None?)
    && (s.done ==> (s.err.None? <==> k == |pages|))
  }

  /** The pages come in order, none lost and none repeated, for any failures and cancellations. */
  lemma {:induction false} DrainOrder<T>(e: Endpoint<T>, policy: Option<Policy>, cursors: seq<string>, pages: seq<seq<T>>,
                                         ctxs: seq<Context>, states: seq<State>, outs: seq<Option<seq<T>>>, n: nat)
    requires Holds(e, cursors, pages) && IsDrain(e, policy, ctxs, states, outs) && n <= |outs|
    ensures Collected(outs[..n]) <= pages
    ensures Reached(cursors, states[n], |Collected(outs[..n])|, pages)
    decreases n
  {
    if n > 0 {
      DrainOrder(e, policy, cursors, pages, ctxs, states, outs, n - 1);
      assert outs[..n][..n - 1] == outs[..n - 1];
      assert Nexts(e, policy, ctxs[n - 1], states[n - 1], states[n], outs[n - 1]);
    }
  }

  /** Once the iterator is done, no call hands out a page or fetches anything. */
  lemma {:induction false} DoneStays<T>(e: Endpoint<T>, policy: Option<Policy>,
                                        ctxs: seq<Context>, states: seq<State>, outs: seq<Option<seq<T>>>, i: nat, j: nat)
    requires IsDrain(e, policy, ctxs, states, outs) && i <= j <= |outs| && states[i].done
    ensures states[j] == states[i] && (j < |outs| ==> outs[j].None?)
    decreases j
  {
    if i < j {
      DoneStays(e, policy, ctxs, states, outs, i, j - 1);
      assert Nexts(e, policy, ctxs[j - 1], states[j - 1], states[j], outs[j - 1]);
    }
    if j < |outs| {
      assert Nexts(e, policy, ctxs[j], states[j], states[j + 1], outs[j]);
    }
  }

  /**
   Pagination under failure. When Next first returns false, Err is unset and every page has
   been handed out, or Err is set and the pages so far are a proper prefix; either way no
   later call hands out a page or fetches anything.
   */
  lemma DrainEnd<T>(e: Endpoint<T>, policy: Option<Policy>, cursors: seq<string>, pages: seq<seq<T>>,
                    ctxs: seq<Context>, states: seq<State>, outs: seq<Option<seq<T>>>, i: nat, j: nat)
    requires Holds(e, cursors, pages) && IsDrain(e, policy, ctxs, states, outs)
    requires i <= j < |outs| && outs[i].None?
    ensures states[i + 1].err.None? <==> Collected(outs[..i]) == pages
    ensures states[i + 1].err.Some? ==> Collected(outs[..i]) < pages
    ensures outs[j].None? && states[j + 1] == states[i + 1]
  {
    assert Nexts(e, policy, ctxs[i], states[i], states[i + 1], outs[i]);
    if i < j {
      DoneStays(e, policy, ctxs, states, outs, i + 1, j);
      DoneStays(e, policy, ctxs, states, outs, i + 1, j + 1);
    }
    DrainOrder(e, policy, cursors, pages, ctxs, states, outs, i + 1);
    assert outs[..i + 1][..i] == outs[..i];
  }

  /**
   The error that Err reports, at any time of a drain, is the one with which the fetches of a
   single Next ended, the last that fetched at all: without a policy the error of its one
   fetch, and with a policy what retry.On returned, be it the last error or the context's.
   */
  lemma {:induction false} ErrIsLastFetch<T>(e: Endpoint<T>, policy: Option<Policy>, ctxs: seq<Context>,
                                             states: seq<State>, outs: seq<Option<seq<T>>>, n: nat) returns (k: nat)
    requires IsDrain(e, policy, ctxs, states, outs) && n <= |outs| && states[n].err.Some?
    ensures k < n && !states[k].done && outs[k].None? && states[n] == states[k + 1] && states[n].cursor == states[k].cursor
    ensures states[k].calls <= states[n].calls && states[n].err.value != Returned(None)
    ensures match policy
            case None => states[n].err == Some(Returned(e.fails(states[n].calls))) && states[n].calls == states[k].calls + 1
            case Some(p) =>
              exists last: nat, t: Trace ::
                && EndsAt(p, Fetching(e, ctxs[k], states[k].calls), last, t)
                && t.verdict == states[n].err.value && |t.calls| == states[n].calls - states[k].calls
    decreases n
  {
    k := n - 1;
    assert Nexts(e, policy, ctxs[k], states[k], states[n], outs[k]);
    if states[k].done {
      k := ErrIsLastFetch(e, policy, ctxs, states, outs, n - 1);
    } else {
      NoErrBefore(e, policy, ctxs, states, outs, k);
    }
  }

  /** An iterator that is not done has met no error. */
  lemma {:induction false} NoErrBefore<T>(e: Endpoint<T>, policy: Option<Policy>, ctxs: seq<Context>,
                                          states: seq<State>, outs: seq<Option<seq<T>>>, n: nat)
    requires IsDrain(e, policy, ctxs, states, outs) && n <= |outs| && !states[n].done
    ensures states[n].err.None?
    decreases n
  {
    if n > 0 {
      assert Nexts(e, policy, ctxs[n - 1], states[n - 1], states[n], outs[n - 1]);
      NoErrBefore(e, policy, ctxs, states, outs, n - 1);
    }
  }

  ghost predicate SucceedsAfter<T>(e: Endpoint<T>, i: nat) {
    exists j: nat :: j > i && e.fails(j).None?
  }

  /** Every failure is one the policy retries, without limit, and some later fetch succeeds. */
  ghost predicate Transient<T>(e: Endpoint<T>, p: Policy) {
    && p.interval.Some? && p.attempts == 0
    && (forall i: nat :: e.fails(i).Some? ==> ShouldRetry(e.fails(i).value, p))
    && (forall i: nat :: SucceedsAfter(e, i))
  }

  ghost predicate NeverDone(ctx: Context) {
    forall i: nat :: !ctx.doneBefore(i) && !ctx.doneAfter(i)
  }

  /** Transient failures are invisible: every Next before the end hands out its page. */
  lemma TransientHidden<T>(e: Endpoint<T>, p: Policy, ctx: Context, s: State, t: State, out: Option<seq<T>>)
    requires Transient(e, p) && NeverDone(ctx) && !s.done
    requires Nexts(e, Some(p), ctx, s, t, out)
    ensures out == Some(e.items(s.cursor)) && t.err == s.err
  {
  }

  /** Such an iterator can always fetch, and |pages| calls of Next hand out exactly the pages. */
  lemma {:induction false} TransientDrain<T>(e: Endpoint<T>, p: Policy, cursors: seq<string>, pages: seq<seq<T>>,
                                             ctxs: seq<Context>, states: seq<State>, outs: seq<Option<seq<T>>>, n: nat)
    requires Transient(e, p) && Holds(e, cursors, pages) && IsDrain(e, Some(p), ctxs, states, outs)
    requires forall i :: 0 <= i < |ctxs| ==> NeverDone(ctxs[i])
    requires n <= |outs| && n <= |pages|
    ensures Collected(outs[..n]) == pages[..n] && states[n].err.None? && (states[n].done <==> n == |pages|)
    decreases n
  {
    DrainOrder(e, Some(p), cursors, pages, ctxs, states, outs, n);
    if n > 0 {
      TransientDrain(e, p, cursors, pages, ctxs, states, outs, n - 1);
      TransientPage(e, p, ctxs, states, outs, n - 1);
      CollectedOne(outs, n - 1);
    }
  }

  lemma CollectedOne<T>(outs: seq<Option<seq<T>>>, k: nat)
    requires k < |outs| && outs[k].Some?
    ensures Collected(outs[..k + 1]) == Collected(outs[..k]) + [outs[k].value]
  {
    assert outs[..k + 1][..k] == outs[..k];
  }

  lemma TransientPage<T>(e: Endpoint<T>, p: Policy,
                         ctxs: seq<Context>, states: seq<State>, outs: seq<Option<seq<T>>>, k: nat)
    requires Transient(e, p) && IsDrain(e, Some(p), ctxs, states, outs) && k < |outs|
    requires NeverDone(ctxs[k]) && !states[k].done
    ensures outs[k].Some? && states[k + 1].err == states[k].err
  {
    TransientHidden(e, p, ctxs[k], states[k], states[k + 1], outs[k]);
  }

  lemma TransientTerminates<T>(e: Endpoint<T>, p: Policy, ctx: Context, calls: nat)
    requires Transient(e, p)
    ensures Terminates(p, Fetching(e, ctx, calls))
  {
    assert SucceedsAfter(e, calls);
    var j: nat :| j > calls && e.fails(j).None?;
    assert !Continues(p, Fetching(e, ctx, calls), j - calls);
  }
}
