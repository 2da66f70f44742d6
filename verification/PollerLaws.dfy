/** What the pull loop guarantees over every sequence of polls. */
module PollerLaws {
  import opened Common
  import opened Fleet
  import opened DesiredClient
  import opened ExecutorSpec
  import opened ExecutorRuns
  import opened ActionStore
  import opened Poller
  import Unwedge
  import Scaling
  import Ordering
  import B = Backoff
  import R = ReconcileLaws

  // ---------------------------------------------------------------- runs against a conforming server

  datatype Journal = Journal(s: Settings, token: string, orders: seq<seq<string>>, polls: seq<Poll>, servers: seq<Server>)
  {
    ghost predicate Conforming(named: string -> Doc) {
      && |orders| == |polls| == |servers|
      && forall k: nat :: k < |polls| ==> Conforms(servers[k], named, polls[k].answer)
    }

    /** The poller's state before poll `k`. */
    function At(k: nat): State
      requires k <= |polls| == |orders|
    {
      Steps(s, token, orders[..k], polls[..k])
    }
  }

  lemma AtNext(j: Journal, k: nat)
    requires k < |j.polls| == |j.orders|
    ensures j.At(k + 1) == Step(j.s, j.At(k), j.orders[k], j.polls[k])
  {
    assert j.polls[..k + 1][..k] == j.polls[..k] && j.orders[..k + 1][..k] == j.orders[..k];
  }

  /** A remembered tag stands for the remembered document, and that document was validated. */
  ghost predicate CacheInv(st: State, named: string -> Doc) {
    && (st.etag != "" ==> st.cached.Some? && st.cached.value == named(st.etag))
    && (st.cached.Some? ==> Validate(st.cached.value))
  }

  /** `retry` is the last reconciliation's own answer. */
  ghost predicate RetryInv(s: Settings, st: State) {
    && (st.retry <==> st.turns != [] && LastAnswer(s, st))
    && (st.turns != [] ==> st.cached == Some(st.turns[|st.turns| - 1].doc))
  }

  function LastAnswer(s: Settings, st: State): bool
    requires st.turns != []
  {
    var n := |st.turns| - 1;
    Took(ExecutorRuns.Run(s, st.turns[..n]), s, st.turns[n]).retry
  }

  lemma ActedRetry(s: Settings, st: State, doc: Doc, order: seq<string>, p: Poll)
    requires st.cached == Some(doc)
    ensures RetryInv(s, Acted(s, st, doc, order, p))
  {
    var t := Turn(doc, order, p.seen);
    assert (st.turns + [t])[..|st.turns|] == st.turns;
  }

  /** What a conforming server's answer to this very request can mean. */
  lemma AnswerMeans(st: State, p: Poll, server: Server, named: string -> Doc)
    requires Conforms(server, named, p.answer)
    ensures var (f, etag) := Answered(st, p);
            && (f.Changed? ==> f.doc == server.doc && Validate(f.doc) && (etag == "" || named(etag) == f.doc))
            && (f.Unchanged? ==> st.etag == server.etag != "" && named(st.etag) == server.doc)
  {
    hide Validate;
    var r := p.answer(Request(st.token, st.etag));
  }

  lemma StepKeepsCache(s: Settings, st: State, order: seq<string>, p: Poll, server: Server, named: string -> Doc)
    requires CacheInv(st, named) && Conforms(server, named, p.answer)
    ensures CacheInv(Step(s, st, order, p), named)
  {
    AnswerMeans(st, p, server, named);
    hide Took, ExecutorRuns.Run, Validate, Conforms, Answered;
  }

  lemma StepKeepsRetry(s: Settings, st: State, order: seq<string>, p: Poll)
    requires RetryInv(s, st)
    ensures RetryInv(s, Step(s, st, order, p))
  {
    hide Took, ExecutorRuns.Run, Answered, Acted;
    match Answered(st, p).0
    case Changed(doc) =>
      ActedRetry(s, st.(failures := 0, etag := Answered(st, p).1, cached := Some(doc)), doc, order, p);
    case Unchanged =>
      if st.retry { ActedRetry(s, st.(failures := 0), st.cached.value, order, p); }
    case _ =>
  }

  lemma {:induction false} Kept(j: Journal, named: string -> Doc, k: nat)
    requires |j.orders| == |j.polls| && j.Conforming(named) && k <= |j.polls|
    ensures CacheInv(j.At(k), named) && RetryInv(j.s, j.At(k))
  {
    hide *;
    if k == 0 {
      StartKept(j, named);
    } else {
      ConformsAt(j, named, k - 1);
      Kept(j, named, k - 1);
      AtNext(j, k - 1);
      StepKeepsCache(j.s, j.At(k - 1), j.orders[k - 1], j.polls[k - 1], j.servers[k - 1], named);
      StepKeepsRetry(j.s, j.At(k - 1), j.orders[k - 1], j.polls[k - 1]);
    }
  }

  lemma StartKept(j: Journal, named: string -> Doc)
    requires |j.polls| == |j.orders|
    ensures CacheInv(j.At(0), named) && RetryInv(j.s, j.At(0))
  {
  }

  lemma ConformsAt(j: Journal, named: string -> Doc, k: nat)
    requires j.Conforming(named) && k < |j.polls|
    ensures |j.orders| == |j.polls| == |j.servers| && Conforms(j.servers[k], named, j.polls[k].answer)
  {
    hide Conforms;
  }

  // ---------------------------------------------------------------- the cache refines plain fetching

  /** What a GET without If-None-Match would have to be answered with, if answered with a document. */
  ghost predicate PlainAnswer(server: Server, doc: Doc) { doc == server.doc }

  /** A 304 stands for the very document an unconditional GET would have fetched. */
  lemma NotModifiedIsCurrent(j: Journal, named: string -> Doc, k: nat)
    requires j.Conforming(named) && k < |j.polls| && Answered(j.At(k), j.polls[k]).0.Unchanged?
    ensures j.At(k).cached.Some? && PlainAnswer(j.servers[k], j.At(k).cached.value)
  {
    Kept(j, named, k);
    AnswerMeans(j.At(k), j.polls[k], j.servers[k], named);
    hide Steps, Validate, Conforms, Answered;
  }

  /** Every document reconciled is validated and is the server's document at that very response,
      whether it came with a 200 or stood behind a 304. */
  lemma ReconciledIsCurrent(j: Journal, named: string -> Doc, k: nat)
    requires j.Conforming(named) && k < |j.polls|
    ensures var before, after := j.At(k), j.At(k + 1);
            after.turns == before.turns
            || (&& after.turns == before.turns + [Turn(j.servers[k].doc, j.orders[k], j.polls[k].seen)]
                && Validate(j.servers[k].doc) && after.cached == Some(j.servers[k].doc))
  {
    Kept(j, named, k);
    AtNext(j, k);
    AnswerMeans(j.At(k), j.polls[k], j.servers[k], named);
    hide Steps, Took, ExecutorRuns.Run, Validate, Conforms, Answered;
    if Answered(j.At(k), j.polls[k]).0.Unchanged? { NotModifiedIsCurrent(j, named, k); }
  }

  /** A 304 re-runs the executor exactly when the last reconciliation asked for it. */
  lemma NotModifiedRerunsIff(j: Journal, named: string -> Doc, k: nat)
    requires j.Conforming(named) && k < |j.polls| && Answered(j.At(k), j.polls[k]).0.Unchanged?
    ensures j.At(k + 1).turns != j.At(k).turns <==> j.At(k).turns != [] && LastAnswer(j.s, j.At(k))
  {
    Kept(j, named, k);
    AtNext(j, k);
    hide Steps, Took, ExecutorRuns.Run, Validate, Conforms, Answered;
  }

  // ---------------------------------------------------------------- exactly when it acts

  /** What the server says to the request the poller makes. */
  function AnswerAt(j: Journal, k: nat): Response
    requires k < |j.polls| == |j.orders|
  {
    j.polls[k].answer(Request(j.At(k).token, j.At(k).etag))
  }

  lemma {:induction false} AlwaysRetryInv(j: Journal, k: nat)
    requires k <= |j.polls| == |j.orders|
    ensures RetryInv(j.s, j.At(k))
  {
    hide RetryInv, Steps, Step;
    if k > 0 {
      AlwaysRetryInv(j, k - 1);
      AtNext(j, k - 1);
      StepKeepsRetry(j.s, j.At(k - 1), j.orders[k - 1], j.polls[k - 1]);
    } else {
      StartRetryInv(j.s, j.token);
      StartsAt(j);
    }
  }

  lemma StartRetryInv(s: Settings, token: string)
    ensures RetryInv(s, Start(token))
  {
  }

  lemma StartsAt(j: Journal)
    requires |j.polls| == |j.orders|
    ensures j.At(0) == Start(j.token)
  {
  }

  /** A poll acts on a document exactly when the answer delivers it, or is a 304 and the last reconciliation,
      which was of that document, asked to be run again; it acts once, and on nothing else. */
  lemma PollActsIff(j: Journal, k: nat, doc: Doc)
    requires k < |j.polls| == |j.orders|
    ensures var before, after, r := j.At(k), j.At(k + 1), AnswerAt(j, k);
            && (after.turns == before.turns + [Turn(doc, j.orders[k], j.polls[k].seen)] <==>
                  || Delivers(r, doc)
                  || (&& r.Response? && r.status == 304 && before.turns != []
                      && before.turns[|before.turns| - 1].doc == doc && LastAnswer(j.s, before)))
            && (after.turns == before.turns
                || exists d :: after.turns == before.turns + [Turn(d, j.orders[k], j.polls[k].seen)])
  {
    AlwaysRetryInv(j, k);
    AtNext(j, k);
    var before := j.At(k);
    AnswerIff(before.etag, AnswerAt(j, k));
    hide Steps, Took, ExecutorRuns.Run, Outcome, Delivers, LastAnswer;
    var f := Answered(before, j.polls[k]).0;
    assert forall d :: f == Changed(d) <==> Delivers(AnswerAt(j, k), d);
    TurnAdded(before.turns, doc, j.orders[k], j.polls[k].seen);
  }

  lemma TurnAdded(turns: seq<Turn>, doc: Doc, order: seq<string>, seen: Reads)
    ensures turns != turns + [Turn(doc, order, seen)]
    ensures forall d :: turns + [Turn(d, order, seen)] == turns + [Turn(doc, order, seen)] ==> d == doc
  {
    assert |turns + [Turn(doc, order, seen)]| == |turns| + 1;
    assert forall d :: (turns + [Turn(d, order, seen)])[|turns|] == Turn(d, order, seen);
  }

  /** While the document last reconciled arms healing, every 304 runs the executor again on it: a node that
      fails between two revisions is looked at within one poll. */
  lemma HealingRerunsEveryPoll(j: Journal, k: nat)
    requires k < |j.polls| == |j.orders| && AnswerAt(j, k).Response? && AnswerAt(j, k).status == 304
    requires var turns := j.At(k).turns;
             turns != [] && turns[|turns| - 1].doc.execution.healing && turns[|turns| - 1].doc.healing.enabled
    ensures var turns := j.At(k).turns;
            j.At(k + 1).turns == turns + [Turn(turns[|turns| - 1].doc, j.orders[k], j.polls[k].seen)]
  {
    var st := j.At(k);
    var n := |st.turns| - 1;
    var last := st.turns[n];
    R.HealingAlwaysRetries(ExecutorRuns.Run(j.s, st.turns[..n]).memory, j.s, last.doc, last.order, last.view);
    assert LastAnswer(j.s, st);
    hide Steps, LastAnswer, ExecutorRuns.Run, Took;
    PollActsIff(j, k, st.turns[n].doc);
  }

  /** And in general a 304 runs it again exactly when the last call had something to come back for: healing
      armed, a listing that failed, a patch that was not accepted, a control plane to wait for, or a pool to
      start or still rolling. */
  lemma NotModifiedRerunsWhen(j: Journal, k: nat)
    requires k < |j.polls| == |j.orders| && AnswerAt(j, k).Response? && AnswerAt(j, k).status == 304
    requires j.At(k).turns != [] && R.Named(j.At(k).turns[|j.At(k).turns| - 1].view)
    ensures var last := j.At(k).turns[|j.At(k).turns| - 1];
            j.At(k + 1).turns != j.At(k).turns <==>
              || (last.doc.execution.healing && last.doc.healing.enabled)
              || R.ScaleAgain(j.s, last.doc, last.view) || R.RollAgain(last.doc, last.view)
  {
    var st := j.At(k);
    var n := |st.turns| - 1;
    var last := st.turns[n];
    R.RetryIff(ExecutorRuns.Run(j.s, st.turns[..n]).memory, j.s, last.doc, last.order, last.view);
    assert LastAnswer(j.s, st) == Took(ExecutorRuns.Run(j.s, st.turns[..n]), j.s, last).retry;
    hide Steps, LastAnswer, ExecutorRuns.Run, Took, Reconcile, R.ScaleAgain, R.RollAgain, R.Named;
    AlwaysRetryInv(j, k);
    AtNext(j, k);
    AnswerIff(st.etag, AnswerAt(j, k));
    hide Outcome;
    TurnAdded(st.turns, last.doc, j.orders[k], j.polls[k].seen);
  }

  // ---------------------------------------------------------------- the token and the failures

  /** A poll that makes the next wait longer: no usable answer, or a rejection with no other token at hand. */
  predicate Fails(j: Journal, k: nat)
    requires k < |j.polls| == |j.orders|
  {
    var f := Answered(j.At(k), j.polls[k]).0;
    f.FetchFailed? || (f.AuthRejected? && !(j.polls[k].source.Token? && j.polls[k].source.value != j.At(k).token))
  }

  /** The token is the source's after a rejection, if it can be read there, and is never changed otherwise. */
  lemma TokenFollows(j: Journal, k: nat)
    requires k < |j.polls| == |j.orders|
    ensures j.At(k + 1).token
         == if Answered(j.At(k), j.polls[k]).0.AuthRejected? && j.polls[k].source.Token? then j.polls[k].source.value
            else j.At(k).token
  {
    AtNext(j, k);
    hide Steps, Took, ExecutorRuns.Run, Answered;
  }

  /** The last `f` polls before `k` failed, and the one before them, if any, did not. */
  ghost predicate InARow(j: Journal, k: nat, f: nat)
    requires k <= |j.polls| == |j.orders|
  {
    f <= k && (forall i: nat :: k - f <= i < k ==> Fails(j, i)) && (f < k ==> !Fails(j, k - f - 1))
  }

  lemma RowNext(j: Journal, k: nat, f: nat)
    requires k < |j.polls| == |j.orders| && InARow(j, k, f)
    ensures InARow(j, k + 1, if Fails(j, k) then f + 1 else 0)
  {
    hide Fails;
  }

  lemma RowStarts(j: Journal)
    requires |j.polls| == |j.orders|
    ensures InARow(j, 0, j.At(0).failures)
  {
    StartsAt(j);
  }

  /** The failures counted are those since the last poll that did not fail. */
  lemma {:induction false} FailuresInARow(j: Journal, k: nat)
    requires k <= |j.polls| == |j.orders|
    ensures InARow(j, k, j.At(k).failures)
  {
    hide *;
    if k == 0 {
      RowStarts(j);
    } else {
      FailuresInARow(j, k - 1);
      RowNext(j, k - 1, j.At(k - 1).failures);
      FailureNext(j, k - 1);
    }
  }

  lemma FailureNext(j: Journal, k: nat)
    requires k < |j.polls| == |j.orders|
    ensures j.At(k + 1).failures == if Fails(j, k) then j.At(k).failures + 1 else 0
  {
    AtNext(j, k);
    hide Steps, Took, ExecutorRuns.Run, Answered;
  }

  // ---------------------------------------------------------------- authority

  function TraceAt(j: Journal, k: nat): seq<Event>
    requires k <= |j.polls| == |j.orders|
  {
    ExecutorRuns.Run(j.s, j.At(k).turns).trace
  }

  lemma StepGrows(s: Settings, st: State, order: seq<string>, p: Poll)
    ensures st.turns <= Step(s, st, order, p).turns
  {
    hide Took, ExecutorRuns.Run, Answered, TokenChanges;
  }

  /** The turns so far are a prefix of all the turns. */
  lemma {:induction false} TurnsGrow(j: Journal, k: nat, n: nat)
    requires k <= n <= |j.polls| == |j.orders|
    ensures j.At(k).turns <= j.At(n).turns
    decreases n
  {
    hide *;
    if k < n {
      TurnsGrow(j, k, n - 1);
      AtNext(j, n - 1);
      StepGrows(j.s, j.At(n - 1), j.orders[n - 1], j.polls[n - 1]);
    }
  }

  lemma {:induction false} LegalPrefix(s: Settings, turns: seq<Turn>, k: nat)
    requires Legal(s, turns) && k <= |turns|
    ensures Legal(s, turns[..k])
  {
    if k == |turns| {
      assert turns[..k] == turns;
    } else {
      LegalPrefix(s, turns[..|turns| - 1], k);
      assert turns[..|turns| - 1][..k] == turns[..k];
    }
  }

  /** Whatever a poll of a legal run adds to the trace is authorised by the document the server held
      when it answered: a flag withdrawn at the server stops the next poll's writes. */
  lemma AuthorisedByCurrent(j: Journal, named: string -> Doc, k: nat)
    requires j.Conforming(named) && k < |j.polls| && Legal(j.s, j.At(|j.polls|).turns)
    ensures TraceAt(j, k) <= TraceAt(j, k + 1)
    ensures forall e :: e in TraceAt(j, k + 1)[|TraceAt(j, k)|..] ==> Authorised(j.servers[k].doc, e)
  {
    hide Steps, Took, Plausible, Authorised, Conforms, Step, Validate;
    ReconciledIsCurrent(j, named, k);
    var before, after := j.At(k), j.At(k + 1);
    if after.turns != before.turns {
      var t := Turn(j.servers[k].doc, j.orders[k], j.polls[k].seen);
      TurnsGrow(j, k + 1, |j.polls|);
      LegalPrefix(j.s, j.At(|j.polls|).turns, |after.turns|);
      assert j.At(|j.polls|).turns[..|after.turns|] == after.turns;
      assert (before.turns + [t])[..|before.turns|] == before.turns;
      TurnAuthorised(ExecutorRuns.Run(j.s, before.turns), j.s, t);
    }
  }

  // ---------------------------------------------------------------- rejections

  function ReportsAt(j: Journal, k: nat): Reports
    requires k <= |j.polls| == |j.orders|
  {
    Replay(EMPTY, TraceAt(j, k))
  }

  /** A rejected or failed poll acts on nothing at all: the trace stays as it is, and with it every
      report; tag and cached document are kept. */
  lemma RejectionActsOnNothing(j: Journal, k: nat)
    requires k < |j.polls| == |j.orders|
    requires var f := Answered(j.At(k), j.polls[k]).0; f.AuthRejected? || f.FetchFailed?
    ensures TraceAt(j, k + 1) == TraceAt(j, k) && ReportsAt(j, k + 1) == ReportsAt(j, k)
            && j.At(k + 1).etag == j.At(k).etag && j.At(k + 1).cached == j.At(k).cached
  {
    hide Steps, Took, ExecutorRuns.Run, Replay;
    AtNext(j, k);
  }

  function KeptDoc(): Doc {
    Doc(1, None, [WorkerPool("a", "", 1)], Execution(true, false, false), Fleet.Healing(false, 0, 0, 0, 0))
  }

  function KeptReads(): Reads {
    Reads(None, (i: nat) => Ok, None, None, "", (i: nat) => Ok, 0, None, None, None, (n: string) => Unwedge.Unwired,
          (n: string, i: nat) => Ok, (i: nat) => Ok)
  }

  function KeptJournal(s: Settings): Journal {
    Journal(s, "token", [[], []],
            [Poll((r: Request) => Response(200, "tag", Some(KeptDoc())), NoReloader, 0.0, KeptReads()),
             Poll((r: Request) => Response(403, "", None), NoReloader, 0.0, KeptReads())],
            [Server(KeptDoc(), "tag"), Server(KeptDoc(), "tag")])
  }

  lemma KeptEvents(s: Settings)
    ensures Took(History(Memory(map[], map[], map[]), []), s, Turn(KeptDoc(), [], KeptReads())).events
         == [BeginRevision(1), Report(Action(Scale, "a", Rejected, CannotList, 1))]
  {
    var pools := KeptDoc().pools;
    assert pools[1..] == [] && Ordering.Sort(pools, Scaling.PoolLe) == pools;
    assert Scaling.PassPools(pools) == pools;
    assert Scaling.CannotListAll(1, Scale, pools, 1) == [Report(Action(Scale, "a", Rejected, CannotList, 1))];
  }

  lemma KeptTurns(s: Settings)
    ensures var j, t := KeptJournal(s), Turn(KeptDoc(), [], KeptReads());
            j.At(1).turns == [t] && j.At(2).turns == [t] && Answered(j.At(1), j.polls[1]).0.AuthRejected?
  {
    hide Took, ExecutorRuns.Run;
    var j := KeptJournal(s);
    AtNext(j, 0);
    AtNext(j, 1);
    assert j.At(0) == Start("token");
    assert Validate(KeptDoc());
  }

  /** The reports of an earlier pass survive a 403. */
  lemma RejectionKeepsReports(s: Settings)
    ensures var j := KeptJournal(s);
            Answered(j.At(1), j.polls[1]).0.AuthRejected? && ReportsAt(j, 2).items != []
  {
    KeptTurns(s);
    KeptEvents(s);
    KeptReplay();
    hide Took, Replay, Steps;
    var t := Turn(KeptDoc(), [], KeptReads());
    assert [t][..|[t]| - 1] == [];
    assert ExecutorRuns.Run(s, [t]).trace == [] + Took(ExecutorRuns.Run(s, []), s, t).events;
    assert TraceAt(KeptJournal(s), 2) == [BeginRevision(1), Report(Action(Scale, "a", Rejected, CannotList, 1))];
  }

  lemma KeptReplay()
    ensures Replay(EMPTY, [BeginRevision(1), Report(Action(Scale, "a", Rejected, CannotList, 1))]).items != []
  {
    var trace := [BeginRevision(1), Report(Action(Scale, "a", Rejected, CannotList, 1))];
    assert trace[..1] == [BeginRevision(1)] && [BeginRevision(1)][..0] == [];
  }

  // ---------------------------------------------------------------- pauses

  /** Failures and rejections with an unchanged token wait within the backoff's bounds, for the jittered part
      of an envelope that has doubled with every failure in a row; a changed token is tried at once, and a
      success waits the interval plus the jittered part of a tenth of it. */
  lemma PauseBounds(t: Timing, st: State, p: Poll)
    requires 0 < t.base <= t.max && t.interval > 0 && 0.0 <= p.jitter < 1.0
    ensures var f := Answered(st, p).0;
            && (Pause(t, st, p).None? <==> f.AuthRejected? && p.source.Token? && p.source.value != st.token)
            && ((f.FetchFailed? || f.AuthRejected?) && Pause(t, st, p).Some? ==>
                  && t.base <= Pause(t, st, p).value <= t.max
                  && Pause(t, st, p).value as real > p.jitter * B.Envelope(t.base, t.max, st.failures) - 1.0
                  && (Pause(t, st, p).value == t.base
                      || Pause(t, st, p).value as real <= p.jitter * B.Envelope(t.base, t.max, st.failures)))
            && (f.Changed? || f.Unchanged? ==>
                  && t.interval <= Pause(t, st, p).value && 10 * (Pause(t, st, p).value - t.interval) <= t.interval
                  && (Pause(t, st, p).value - t.interval + 1) as real > p.jitter * 0.1 * t.interval as real)
  {
    hide Answered;
    B.WaitBounds(t.base, t.max, st.failures, p.jitter);
    JitterBounds(t.interval, p.jitter);
    hide B.Wait, B.Envelope, Slice;
  }

  lemma JitterBounds(interval: int, jitter: real)
    requires interval > 0 && 0.0 <= jitter < 1.0
    ensures 0 <= Slice(interval, jitter) && 10 * Slice(interval, jitter) <= interval
    ensures (Slice(interval, jitter) + 1) as real > jitter * 0.1 * interval as real
  {
    var x := jitter * 0.1 * interval as real;
    B.TimesMonotone(interval as real, 0.0, jitter * 0.1);
    B.TimesMonotone(interval as real, jitter * 0.1, 0.1);
    assert x == interval as real * (jitter * 0.1);
    FloorTenth(x, interval);
    assert Slice(interval, jitter) == x.Floor;
  }

  lemma FloorTenth(x: real, interval: int)
    requires 0.0 <= x <= interval as real * 0.1
    ensures 0 <= x.Floor && 10 * x.Floor <= interval && (x.Floor + 1) as real > x
  {
    assert x.Floor as real <= x;
    assert (10 * x.Floor) as real == 10.0 * x.Floor as real;
  }
}
