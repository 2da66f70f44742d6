/** The pull loop (internal/desired/poller.go): what each answer makes the agent remember and do. */
module Poller {
  import opened Common
  import opened Fleet
  import opened DesiredClient
  import opened ExecutorSpec
  import opened ExecutorRuns
  import opened ExecutorObject
  import Unwedge
  import B = Backoff

  // ---------------------------------------------------------------- one poll, as a function

  /** What one poll meets: the server's answer, the token at its source, the jitter, and everything a
      reconciliation would read. */
  datatype Poll = Poll(answer: Request -> Response, source: TokenSource, jitter: real, seen: Reads)

  /** `turns` are the reconciliations so far; they determine the executor's memory and trace. */
  datatype State = State(token: string, etag: string, cached: Option<Doc>, retry: bool, failures: nat, turns: seq<Turn>)

  function Start(token: string): State { State(token, "", None, false, 0, []) }

  function Answered(st: State, p: Poll): (Fetched, string) { Outcome(st.etag, p.answer(Request(st.token, st.etag))) }

  function Acted(s: Settings, st: State, doc: Doc, order: seq<string>, p: Poll): State {
    var t := Turn(doc, order, p.seen);
    st.(turns := st.turns + [t], retry := Took(ExecutorRuns.Run(s, st.turns), s, t).retry)
  }

  function Step(s: Settings, st: State, order: seq<string>, p: Poll): State {
    var (f, etag) := Answered(st, p);
    match f
    case FetchFailed => st.(failures := st.failures + 1)
    case AuthRejected =>
      if TokenChanges(st.token, p.source) then st.(token := p.source.value, failures := 0)
      else st.(failures := st.failures + 1)
    case Unchanged =>
      if st.retry && st.cached.Some? then Acted(s, st.(failures := 0), st.cached.value, order, p) else st.(failures := 0)
    case Changed(doc) => Acted(s, st.(failures := 0, etag := etag, cached := Some(doc)), doc, order, p)
  }

  function Steps(s: Settings, token: string, orders: seq<seq<string>>, polls: seq<Poll>): State
    requires |orders| == |polls|
    decreases |polls|
  {
    if polls == [] then Start(token)
    else
      var n := |polls| - 1;
      Step(s, Steps(s, token, orders[..n], polls[..n]), orders[n], polls[n])
  }

  datatype Timing = Timing(interval: int, base: int, max: int)

  /** The random slice that keeps a fleet of agents out of step. */
  function Slice(interval: int, jitter: real): int { (jitter * 0.1 * interval as real).Floor }

  /** The pause after a poll; None when it is repeated at once. */
  function Pause(t: Timing, st: State, p: Poll): Option<int> {
    match Answered(st, p).0
    case FetchFailed => Some(B.Wait(t.base, t.max, st.failures, p.jitter))
    case AuthRejected =>
      if TokenChanges(st.token, p.source) then None else Some(B.Wait(t.base, t.max, st.failures, p.jitter))
    case _ => Some(t.interval + Slice(t.interval, p.jitter))
  }

  // ---------------------------------------------------------------- legal turns

  /** The API server names machines uniquely. */
  ghost predicate Distinct(p: Poll) {
    p.seen.healMachines.Some? ==> UniqueBy(p.seen.healMachines.value, MachineName)
  }

  /** The reconciliations so far are legal, and the cached document is fit for the next one. */
  ghost predicate Lawful(s: Settings, st: State) {
    Legal(s, st.turns) && (st.cached.Some? ==> Validate(st.cached.value))
  }

  lemma StartLawful(s: Settings, token: string)
    ensures Lawful(s, Start(token))
  {
  }

  lemma ActedLawful(s: Settings, st: State, doc: Doc, order: seq<string>, p: Poll)
    requires Lawful(s, st) && Validate(doc) && Distinct(p)
    requires HealingArmed(doc) && p.seen.HealReadable() ==>
               Unwedge.Enumerates(order, ExecutorRuns.Run(s, st.turns).memory.tracked)
    ensures Lawful(s, Acted(s, st, doc, order, p))
  {
    hide Validate, Took, ExecutorRuns.Run, Unwedge.Enumerates;
    var t := Turn(doc, order, p.seen);
    assert (st.turns + [t])[..|st.turns|] == st.turns;
  }

  /** What the guardrails over time mean for a trace: a machine is deleted only once its pool's cooldown
      is served, and unwedged only after, at most once per, and the timeout after an accepted deletion. */
  ghost predicate Guarded(s: Settings, trace: seq<Event>) {
    && (forall i, j ::
          (0 <= i < j < |trace| && trace[i].Removed() && trace[j].DeleteMachine? && trace[i].pool == trace[j].pool)
          ==> trace[j].at - trace[i].at >= trace[j].cooldown)
    && (forall k: nat :: k < |trace| && trace[k].UnwedgeAttempt? ==> exists i: nat :: Justifies(s, trace, i, k))
  }

  ghost predicate Justifies(s: Settings, trace: seq<Event>, i: nat, k: nat)
    requires k < |trace| && trace[k].UnwedgeAttempt?
  {
    && i < k && trace[i].AcceptedDelete() && trace[i].machine == trace[k].machine
    && trace[k].at - trace[i].at >= s.evictionTimeout
    && forall j :: i < j < k && trace[j].UnwedgeAttempt? ==> trace[j].machine != trace[k].machine
  }

  lemma LegalGuarded(s: Settings, turns: seq<Turn>)
    requires Legal(s, turns)
    ensures Guarded(s, ExecutorRuns.Run(s, turns).trace)
  {
    var trace := ExecutorRuns.Run(s, turns).trace;
    hide Legal, ExecutorRuns.Run;
    forall i, j | 0 <= i < j < |trace| && trace[i].Removed() && trace[j].DeleteMachine? && trace[i].pool == trace[j].pool
      ensures trace[j].at - trace[i].at >= trace[j].cooldown
    {
      RunCooldown(s, turns, i, j);
    }
    forall k: nat | k < |trace| && trace[k].UnwedgeAttempt? ensures exists i: nat :: Justifies(s, trace, i, k) {
      var i := RunUnwedge(s, turns, k);
      assert Justifies(s, trace, i, k);
    }
  }

  /** After each poll the loop paused as the state before it says. */
  ghost predicate Paused(t: Timing, s: Settings, token: string, orders: seq<seq<string>>, polls: seq<Poll>,
                         pauses: seq<Option<int>>) {
    && |pauses| == |orders| == |polls|
    && forall k :: 0 <= k < |polls| ==> pauses[k] == Pause(t, Steps(s, token, orders[..k], polls[..k]), polls[k])
  }

  lemma NotPaused(t: Timing, s: Settings, token: string)
    ensures Paused(t, s, token, [], [], [])
  {
  }

  lemma PausedNext(t: Timing, s: Settings, token: string, orders: seq<seq<string>>, polls: seq<Poll>,
                   pauses: seq<Option<int>>, order: seq<string>, p: Poll)
    requires Paused(t, s, token, orders, polls, pauses)
    ensures |orders| == |polls|
    ensures Paused(t, s, token, orders + [order], polls + [p], pauses + [Pause(t, Steps(s, token, orders, polls), p)])
  {
    hide Pause, Steps;
    var orders', polls' := orders + [order], polls + [p];
    forall k | 0 <= k <= |polls| ensures orders'[..k] == orders[..k] && polls'[..k] == polls[..k] {}
    assert orders[..|polls|] == orders && polls[..|polls|] == polls;
  }

  // ---------------------------------------------------------------- the loop

  class Poller {
    const client: Client
    const executor: Executor
    const timing: Timing

    constructor (client: Client, executor: Executor, timing: Timing)
      ensures this.client == client && this.executor == executor && this.timing == timing
    {
      this.client, this.executor, this.timing := client, executor, timing;
    }

    /** The executor stands where the reconciliations so far have led it. */
    ghost predicate Led(st: State)
      reads client, executor, executor.store
    {
      && executor.Valid()
      && executor.Memory() == ExecutorRuns.Run(executor.settings, st.turns).memory
      && executor.trace == ExecutorRuns.Run(executor.settings, st.turns).trace
      && client.token == st.token && client.etag == st.etag
    }

    method Act(doc: Doc, p: Poll, ghost st: State) returns (retry: bool, ghost order: seq<string>)
      requires Led(st) && Lawful(executor.settings, st) && Validate(doc) && Distinct(p)
      modifies executor`trace, executor`lastHeal, executor`rollFrom, executor`healDeleted, executor.store
      ensures Led(Acted(executor.settings, st, doc, order, p)) && retry == Acted(executor.settings, st, doc, order, p).retry
      ensures Lawful(executor.settings, Acted(executor.settings, st, doc, order, p))
    {
      hide ExecutorSpec.Reconcile, Executor.Valid, Lawful, Distinct, Validate, Unwedge.Enumerates;
      retry, order := executor.Reconcile(doc, p.seen);
      ActedLawful(executor.settings, st, doc, order, p);
      ghost var t := Turn(doc, order, p.seen);
      assert (st.turns + [t])[..|st.turns|] == st.turns;
    }

    /** The loop over any sequence of polls; `orders` are the orders in which the healer happened to
        walk its map. With machines named uniquely its reconciliations are legal, so that every law of
        the executor's runs holds of the trace it leaves. */
    method Run(polls: seq<Poll>) returns (ghost orders: seq<seq<string>>, ghost st: State, pauses: seq<Option<int>>)
      requires Led(Start(client.token)) && 0 < timing.base <= timing.max
      requires forall k :: 0 <= k < |polls| ==> Distinct(polls[k])
      modifies client, executor`trace, executor`lastHeal, executor`rollFrom, executor`healDeleted, executor.store
      ensures |orders| == |polls| == |pauses| && st == Steps(executor.settings, old(client.token), orders, polls) && Led(st)
      ensures Paused(timing, executor.settings, old(client.token), orders, polls, pauses)
      ensures Legal(executor.settings, st.turns) && Guarded(executor.settings, executor.trace)
    {
      hide Led, Acted, Legal, Distinct, Guarded, Paused;
      NotPaused(timing, executor.settings, client.token);
      StartLawful(executor.settings, client.token);
      var backoff := new B.Backoff(timing.base, timing.max);
      var cached: Option<Doc>, retryPending := None, false;
      orders, pauses, st := [], [], Start(client.token);
      for i := 0 to |polls|
        invariant |orders| == |pauses| == i && Led(st) && Lawful(executor.settings, st) && fresh(backoff)
        invariant backoff.base == timing.base && backoff.max == timing.max
        invariant st == Steps(executor.settings, old(client.token), orders, polls[..i])
        invariant cached == st.cached && retryPending == st.retry && backoff.attempt == st.failures
        invariant Paused(timing, executor.settings, old(client.token), orders, polls[..i], pauses)
      {
        var p := polls[i];
        assert polls[..i + 1][..i] == polls[..i];
        ghost var before, order := st, [];
        var pause: Option<int>;
        cached, retryPending, pause, order := Once(p, cached, retryPending, backoff, st);
        st := Step(executor.settings, before, order, p);
        PausedNext(timing, executor.settings, old(client.token), orders, polls[..i], pauses, order, p);
        pauses := pauses + [pause];
        assert polls[..i + 1] == polls[..i] + [p];
        assert (orders + [order])[..i] == orders;
        orders := orders + [order];
      }
      assert polls[..|polls|] == polls;
      LegalGuarded(executor.settings, st.turns);
      LedTrace(st);
    }

    lemma LedTrace(st: State)
      requires Led(st)
      ensures executor.trace == ExecutorRuns.Run(executor.settings, st.turns).trace
    {
    }

    /** One round of the loop. */
    method Once(p: Poll, cached: Option<Doc>, retryPending: bool, backoff: B.Backoff, ghost st: State)
      returns (cached': Option<Doc>, retry': bool, pause: Option<int>, ghost order: seq<string>)
      requires Led(st) && cached == st.cached && retryPending == st.retry && backoff.attempt == st.failures
      requires backoff.base == timing.base <= timing.max == backoff.max && Lawful(executor.settings, st) && Distinct(p)
      modifies client, backoff, executor`trace, executor`lastHeal, executor`rollFrom, executor`healDeleted, executor.store
      ensures var st' := Step(executor.settings, st, order, p);
              Led(st') && cached' == st'.cached && retry' == st'.retry && backoff.attempt == st'.failures
      ensures pause == Pause(timing, st, p) && Lawful(executor.settings, Step(executor.settings, st, order, p))
    {
      hide Legal, Distinct, Took, ExecutorRuns.Run, Executor.Valid, Slice, B.Wait, Fleet.Validate;
      cached', retry', order := cached, retryPending, [];
      var f := client.Fetch(p.answer);
      match f {
        case FetchFailed =>
          var wait := backoff.Next(p.jitter);
          pause := Some(wait);
        case AuthRejected =>
          var changed := client.ReloadToken(p.source);
          if changed {
            backoff.Reset();
            pause := None;
          } else {
            var wait := backoff.Next(p.jitter);
            pause := Some(wait);
          }
        case Unchanged =>
          backoff.Reset();
          if retryPending && cached.Some? {
            retry', order := Act(cached.value, p, st.(failures := 0));
          }
          pause := Some(timing.interval + Slice(timing.interval, p.jitter));
        case Changed(doc) =>
          backoff.Reset();
          cached' := Some(doc);
          retry', order := Act(doc, p, st.(failures := 0, etag := client.etag, cached := Some(doc)));
          pause := Some(timing.interval + Slice(timing.interval, p.jitter));
      }
    }
  }
}
