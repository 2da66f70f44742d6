/** How often a scaling pass wakes the heartbeat (internal/executor/executor.go, internal/actions/store.go). */
module ScalingReports {
  import opened Common
  import opened Fleet
  import opened ActionStore
  import opened Scaling

  /** The notifications the store sends while it takes in the events: one per visible change. */
  function Notified(r: Reports, events: seq<Event>): nat {
    if events == [] then 0
    else
      var before := Replay(r, events[..|events| - 1]);
      Notified(r, events[..|events| - 1]) + if Apply(before, events[|events| - 1]).items != before.items then 1 else 0
  }

  lemma {:induction false} UpsertSame(items: seq<Action>, a: Action)
    requires Keyed(items) && a in items
    ensures Upserted(items, a) == items
  {
    assert items == [items[0]] + items[1..];
    KeyedCons(items[0], items[1..]);
    if KeyOf(items[0]) != KeyOf(a) { UpsertSame(items[1..], a); }
  }

  /** The later of two reports under one key decides. */
  lemma {:induction false} UpsertTwice(items: seq<Action>, a: Action, b: Action)
    requires KeyOf(a) == KeyOf(b)
    ensures Upserted(Upserted(items, a), b) == Upserted(items, b)
  {
    if items != [] && KeyOf(items[0]) != KeyOf(a) {
      UpsertTwice(items[1..], a, b);
    }
  }

  /** Putting another report in an entry's place is visible. */
  lemma {:induction false} UpsertOther(items: seq<Action>, a: Action, b: Action)
    requires Keyed(items) && a in items && KeyOf(b) == KeyOf(a) && b != a
    ensures Upserted(items, b) != items
  {
    assert items == [items[0]] + items[1..];
    KeyedCons(items[0], items[1..]);
    if KeyOf(items[0]) != KeyOf(a) {
      UpsertOther(items[1..], a, b);
      assert Upserted(items, b)[1..] == Upserted(items[1..], b);
    }
  }

  lemma {:induction false} NotifiedAppend(r: Reports, a: seq<Event>, b: seq<Event>)
    ensures Notified(r, a + b) == Notified(r, a) + Notified(Replay(r, a), b)
  {
    if b == [] {
      assert a + b == a;
    } else {
      assert (a + b)[..|a + b| - 1] == a + b[..|b| - 1];
      NotifiedAppend(r, a, b[..|b| - 1]);
      ReplayAppend(r, a, b[..|b| - 1]);
    }
  }

  // ---------------------------------------------------------------- what one pool adds

  /** Reports under one key, and patches. */
  ghost predicate About(events: seq<Event>, k: Key) {
    forall e :: e in events ==> (e.Report? && KeyOf(e.action) == k) || e.PatchReplicas?
  }

  /** The store already shows how these events end. */
  ghost predicate Shows(r: Reports, events: seq<Event>, k: Key) {
    LastReport(events, k).Some? ==> LastReport(events, k).value in r.items
  }

  /** Events about one key come down to the last report. */
  lemma {:induction false} ReplayAbout(r: Reports, events: seq<Event>, k: Key)
    requires About(events, k)
    ensures Replay(r, events)
         == match LastReport(events, k) { case None => r case Some(a) => Apply(r, Report(a)) }
  {
    if events != [] {
      var init, last := events[..|events| - 1], events[|events| - 1];
      assert events == init + [last];
      ReplayAbout(r, init, k);
      LastReportMember(init, k);
      if last.Report? && LastReport(init, k).Some? {
        UpsertTwice(r.items, LastReport(init, k).value, last.action);
      }
    }
  }

  /** Repeating them on a store that shows their end leaves it as it is. */
  lemma AboutRepeats(r: Reports, events: seq<Event>, k: Key)
    requires Keyed(r.items) && About(events, k) && Shows(r, events, k)
    ensures Replay(r, events) == r
  {
    ReplayAbout(r, events, k);
    if LastReport(events, k).Some? { UpsertSame(r.items, LastReport(events, k).value); }
  }

  /** Events that begin with another report than the one shown are heard. */
  lemma FirstHeard(r: Reports, events: seq<Event>, k: Key)
    requires Keyed(r.items) && About(events, k) && Shows(r, events, k)
    requires events != [] && events[0].Report? && LastReport(events, k) != Some(events[0].action)
    requires LastReport(events, k).Some?
    ensures Notified(r, events) > 0
  {
    LastReportMember(events, k);
    UpsertOther(r.items, LastReport(events, k).value, events[0].action);
    assert events == [events[0]] + events[1..] && [events[0]][..0] == [];
    NotifiedAppend(r, [events[0]], events[1..]);
    assert Notified(r, [events[0]]) == 1;
  }

  lemma OneRepeats(r: Reports, a: Action)
    requires Keyed(r.items) && a in r.items
    ensures Replay(r, [Report(a)]) == r && Notified(r, [Report(a)]) == 0
  {
    UpsertSame(r.items, a);
    assert [Report(a)][..0] == [];
  }

  /** A pool's own events: a valid name is reported pending first and something else last. */
  lemma ScaleOneShape(revision: int, pool: WorkerPool, md: Option<Deployment>, maxReplicas: int, result: CallResult)
    ensures var events := ScaleOne(revision, pool, md, maxReplicas, result);
            && About(events, (Scale, pool.name))
            && (if IsDNS1123Subdomain(pool.name) then
                  && events != [] && events[0] == ScaleReport(revision, pool, Pending, NoDetail)
                  && LastReport(events, (Scale, pool.name)).Some?
                  && LastReport(events, (Scale, pool.name)) != Some(events[0].action)
                else events == [] || exists a :: events == [Report(a)] && LastReport(events, (Scale, pool.name)) == Some(a))
  {
    hide IsControlPlane, AutoscalerKey;
    var events := ScaleOne(revision, pool, md, maxReplicas, result);
    if events != [] {
      var last := events[|events| - 1];
      assert last.Report? && LastReport(events, (Scale, pool.name)) == Some(last.action);
      if !IsDNS1123Subdomain(pool.name) { assert events == [Report(last.action)]; }
    }
  }

  lemma ScaleOneRepeats(r: Reports, revision: int, pool: WorkerPool, md: Option<Deployment>, maxReplicas: int,
                        result: CallResult)
    requires Keyed(r.items) && Shows(r, ScaleOne(revision, pool, md, maxReplicas, result), (Scale, pool.name))
    ensures var events := ScaleOne(revision, pool, md, maxReplicas, result);
            && Replay(r, events) == r
            && (Notified(r, events) == 0 <==> !IsDNS1123Subdomain(pool.name))
  {
    hide ScaleOne, IsDNS1123Subdomain, Keyed, About;
    var events := ScaleOne(revision, pool, md, maxReplicas, result);
    ScaleOneShape(revision, pool, md, maxReplicas, result);
    AboutRepeats(r, events, (Scale, pool.name));
    if IsDNS1123Subdomain(pool.name) {
      FirstHeard(r, events, (Scale, pool.name));
    } else if events != [] {
      var a :| events == [Report(a)] && LastReport(events, (Scale, pool.name)) == Some(a);
      OneRepeats(r, a);
    }
  }

  /** A replay shows how it ended. */
  lemma ReplayShows(r: Reports, events: seq<Event>, k: Key)
    requires Keyed(r.items) && OnlyReports(events)
    ensures Keyed(Replay(r, events).items) && Shows(Replay(r, events), events, k)
  {
    ReplayHoldsLastReports(r, events);
    LastReportMember(events, k);
  }

  /** Running one pool again on a store that already shows its outcome, whatever the outcome, leaves
      the store as it is, yet stays silent exactly when the pool has no valid name: every other pool
      is first set back to pending. */
  lemma RescaleSilentIff(r: Reports, revision: int, pool: WorkerPool, md: Option<Deployment>, maxReplicas: int,
                         result: CallResult)
    requires Keyed(r.items)
    ensures var events := ScaleOne(revision, pool, md, maxReplicas, result);
            var once := Replay(r, events);
            && Replay(once, events) == once
            && (Notified(once, events) == 0 <==> !IsDNS1123Subdomain(pool.name))
  {
    hide ScaleOne, IsDNS1123Subdomain, Keyed;
    var events := ScaleOne(revision, pool, md, maxReplicas, result);
    ScaleOneShape(revision, pool, md, maxReplicas, result);
    ReplayShows(r, events, (Scale, pool.name));
    ScaleOneRepeats(Replay(r, events), revision, pool, md, maxReplicas, result);
  }

  // ---------------------------------------------------------------- what "done" means

  /** The events the k-th pool adds. */
  function AddedBy(revision: int, pools: seq<WorkerPool>, k: nat, mds: seq<Deployment>, maxReplicas: int,
                   fate: nat -> CallResult): seq<Event>
    requires 0 < k <= |pools|
  {
    if ScaleAll(revision, pools, k - 1, mds, maxReplicas, fate).halted then
      [ScaleReport(revision, pools[k - 1], Pending, QueuedBehindFailure)]
    else ScaleOne(revision, pools[k - 1], Lookup(mds, pools[k - 1].name), maxReplicas, fate(k - 1))
  }

  /** They are all about that pool. */
  lemma AddedAbout(revision: int, pools: seq<WorkerPool>, k: nat, mds: seq<Deployment>, maxReplicas: int,
                   fate: nat -> CallResult)
    requires 0 < k <= |pools|
    ensures var added := AddedBy(revision, pools, k, mds, maxReplicas, fate);
            && ScaleAll(revision, pools, k, mds, maxReplicas, fate).events
                 == ScaleAll(revision, pools, k - 1, mds, maxReplicas, fate).events + added
            && forall e :: e in added ==>
                 && (e.Report? ==> KeyOf(e.action) == (Scale, pools[k - 1].name))
                 && !e.PatchKubelet? && (e.PatchReplicas? ==> e.pool == pools[k - 1].name)
  {
    hide IsControlPlane, AutoscalerKey, IsDNS1123Subdomain, Lookup;
  }

  /** A pool's own events end in "done" only when its deployment is, or was just set, at its number. */
  lemma {:induction false} DoneOnce(revision: int, pool: WorkerPool, md: Deployment, maxReplicas: int,
                        result: CallResult)
    requires pool.name == md.name
    requires var last := LastReport(ScaleOne(revision, pool, Some(md), maxReplicas, result), (Scale, pool.name));
             last.Some? && last.value.status == Done
    ensures AfterEvents(md, ScaleOne(revision, pool, Some(md), maxReplicas, result)).replicas == Some(pool.desiredReplicas)
  {
    var v := Judge(pool, Some(md), maxReplicas);
    var events := ScaleOne(revision, pool, Some(md), maxReplicas, result);
    hide Judge;
    assert events != [] && LastReport(events, (Scale, pool.name)) == Some(events[|events| - 1].action);
    if v.Patch? {
      assert result == Ok;
    }
    ScaleOneReaches(revision, pool, md, maxReplicas);
  }

  lemma NoReport(events: seq<Event>, k: Key)
    requires forall e :: e in events && e.Report? ==> ActionStore.KeyOf(e.action) != k
    ensures LastReport(events, k) == None
  {
    LastReportMember(events, k);
  }

  /** "done" is true: whatever fails along the way, a pool whose last report of a pass is done has its
      deployment at the desired number when the pass ends. */
  lemma {:induction false} DoneIsTrue(revision: int, pools: seq<WorkerPool>, k: nat, mds: seq<Deployment>,
                                      maxReplicas: int, fate: nat -> CallResult, at: nat, md: Deployment)
    requires at < k <= |pools| && UniqueBy(pools, PoolName)
    requires Lookup(mds, pools[at].name) == Some(md) && md.name == pools[at].name
    requires var last := LastReport(ScaleAll(revision, pools, k, mds, maxReplicas, fate).events, (Scale, pools[at].name));
             last.Some? && last.value.status == Done
    ensures AfterEvents(md, ScaleAll(revision, pools, k, mds, maxReplicas, fate).events).replicas
         == Some(pools[at].desiredReplicas)
  {
    hide *;
    var key := (Scale, pools[at].name);
    var before := ScaleAll(revision, pools, k - 1, mds, maxReplicas, fate).events;
    var added := AddedBy(revision, pools, k, mds, maxReplicas, fate);
    AddedAbout(revision, pools, k, mds, maxReplicas, fate);
    LastReportAppend(before, added, key);
    AfterEventsAppend(md, before, added);
    if at < k - 1 {
      NamesDiffer(pools, at, k - 1);
      NotThisKey(added, pools[k - 1].name, pools[at].name);
      DoneIsTrue(revision, pools, k - 1, mds, maxReplicas, fate, at, md);
      AfterEventsUntouched(AfterEvents(md, before), added);
    } else {
      LastPoolDone(revision, pools, k, mds, maxReplicas, fate, md);
    }
  }

  lemma NotThisKey(events: seq<Event>, other: string, name: string)
    requires other != name && forall e :: e in events && e.Report? ==> KeyOf(e.action) == (Scale, other)
    ensures LastReport(events, (Scale, name)) == None
  {
    NoReport(events, (Scale, name));
  }

  lemma LastPoolDone(revision: int, pools: seq<WorkerPool>, k: nat, mds: seq<Deployment>, maxReplicas: int,
                     fate: nat -> CallResult, md: Deployment)
    requires 0 < k <= |pools| && UniqueBy(pools, PoolName)
    requires Lookup(mds, pools[k - 1].name) == Some(md) && md.name == pools[k - 1].name
    requires var last := LastReport(ScaleAll(revision, pools, k, mds, maxReplicas, fate).events, (Scale, pools[k - 1].name));
             last.Some? && last.value.status == Done
    ensures AfterEvents(md, ScaleAll(revision, pools, k, mds, maxReplicas, fate).events).replicas
         == Some(pools[k - 1].desiredReplicas)
  {
    hide ScaleAll, ScaleOne, Lookup, AfterEvents, LastReport;
    var key := (Scale, pools[k - 1].name);
    var before := ScaleAll(revision, pools, k - 1, mds, maxReplicas, fate).events;
    var added := AddedBy(revision, pools, k, mds, maxReplicas, fate);
    AddedAbout(revision, pools, k, mds, maxReplicas, fate);
    LastReportAppend(before, added, key);
    AfterEventsAppend(md, before, added);
    forall i: nat | i < k - 1 ensures pools[i].name != md.name { NamesDiffer(pools, i, k - 1); }
    ScaleAllUntouched(revision, pools, k - 1, mds, maxReplicas, fate, md);
    EarlierSilent(revision, pools, k - 1, mds, maxReplicas, fate, pools[k - 1].name);
    QueuedIsPending(revision, pools[k - 1]);
    DoneOnce(revision, pools[k - 1], md, maxReplicas, fate(k - 1));
  }

  lemma QueuedIsPending(revision: int, pool: WorkerPool)
    ensures LastReport([ScaleReport(revision, pool, Pending, QueuedBehindFailure)], (Scale, pool.name))
         == Some(Action(Scale, pool.name, Pending, QueuedBehindFailure, revision))
  {
  }

  lemma NothingYet(revision: int, pools: seq<WorkerPool>, mds: seq<Deployment>, maxReplicas: int,
                   fate: nat -> CallResult, name: string)
    ensures LastReport(ScaleAll(revision, pools, 0, mds, maxReplicas, fate).events, (Scale, name)) == None
  {
  }

  /** Earlier pools say nothing under a later pool's name. */
  lemma {:induction false} EarlierSilent(revision: int, pools: seq<WorkerPool>, k: nat, mds: seq<Deployment>,
                                         maxReplicas: int, fate: nat -> CallResult, name: string)
    requires k <= |pools| && forall i :: 0 <= i < k ==> pools[i].name != name
    ensures LastReport(ScaleAll(revision, pools, k, mds, maxReplicas, fate).events, (Scale, name)) == None
  {
    hide *;
    if k == 0 {
      NothingYet(revision, pools, mds, maxReplicas, fate, name);
    } else {
      var added := AddedBy(revision, pools, k, mds, maxReplicas, fate);
      AddedAbout(revision, pools, k, mds, maxReplicas, fate);
      EarlierSilent(revision, pools, k - 1, mds, maxReplicas, fate, name);
      LastReportAppend(ScaleAll(revision, pools, k - 1, mds, maxReplicas, fate).events, added, (Scale, name));
      NotThisKey(added, pools[k - 1].name, name);
    }
  }

  // ---------------------------------------------------------------- repeating a whole pass

  lemma AddedIsAbout(revision: int, pools: seq<WorkerPool>, k: nat, mds: seq<Deployment>, maxReplicas: int,
                     fate: nat -> CallResult)
    requires 0 < k <= |pools|
    ensures About(AddedBy(revision, pools, k, mds, maxReplicas, fate), (Scale, pools[k - 1].name))
  {
    hide ScaleOne, ScaleAll;
    ScaleOneShape(revision, pools[k - 1], Lookup(mds, pools[k - 1].name), maxReplicas, fate(k - 1));
  }

  /** Under a pool's name a pass reports what that pool's turn adds. */
  lemma {:induction false} LastOfPool(revision: int, pools: seq<WorkerPool>, k: nat, mds: seq<Deployment>,
                                      maxReplicas: int, fate: nat -> CallResult, at: nat)
    requires at < k <= |pools| && UniqueBy(pools, PoolName)
    ensures LastReport(ScaleAll(revision, pools, k, mds, maxReplicas, fate).events, (Scale, pools[at].name))
         == LastReport(AddedBy(revision, pools, at + 1, mds, maxReplicas, fate), (Scale, pools[at].name))
  {
    hide *;
    var before := ScaleAll(revision, pools, k - 1, mds, maxReplicas, fate).events;
    var added := AddedBy(revision, pools, k, mds, maxReplicas, fate);
    AddedAbout(revision, pools, k, mds, maxReplicas, fate);
    LastReportAppend(before, added, (Scale, pools[at].name));
    if at < k - 1 {
      NamesDiffer(pools, at, k - 1);
      NotThisKey(added, pools[k - 1].name, pools[at].name);
      LastOfPool(revision, pools, k - 1, mds, maxReplicas, fate, at);
    } else {
      forall i | 0 <= i < k - 1 ensures pools[i].name != pools[at].name { NamesDiffer(pools, i, at); }
      EarlierSilent(revision, pools, k - 1, mds, maxReplicas, fate, pools[at].name);
    }
  }

  /** The store shows how every pool's turn ended. */
  ghost predicate ShowsPass(r: Reports, revision: int, pools: seq<WorkerPool>, mds: seq<Deployment>, maxReplicas: int,
                            fate: nat -> CallResult) {
    && Keyed(r.items)
    && forall k: nat :: 0 < k <= |pools| ==>
         Shows(r, AddedBy(revision, pools, k, mds, maxReplicas, fate), (Scale, pools[k - 1].name))
  }

  lemma PassShown(r: Reports, revision: int, pools: seq<WorkerPool>, mds: seq<Deployment>, maxReplicas: int,
                  fate: nat -> CallResult)
    requires Keyed(r.items) && UniqueBy(pools, PoolName)
    ensures ShowsPass(Replay(r, ScaleAll(revision, pools, |pools|, mds, maxReplicas, fate).events), revision, pools, mds,
                      maxReplicas, fate)
  {
    hide ScaleAll, AddedBy, Keyed, Replay, UniqueBy, OnlyReports, Shows;
    var events := ScaleAll(revision, pools, |pools|, mds, maxReplicas, fate).events;
    ActingReports(revision, pools, mds, maxReplicas, fate);
    ReplayHoldsLastReports(r, events);
    forall k: nat | 0 < k <= |pools|
      ensures Shows(Replay(r, events), AddedBy(revision, pools, k, mds, maxReplicas, fate), (Scale, pools[k - 1].name))
    {
      LastOfPool(revision, pools, |pools|, mds, maxReplicas, fate, k - 1);
      ReplayShows(r, events, (Scale, pools[k - 1].name));
      ShowsSame(Replay(r, events), events, AddedBy(revision, pools, k, mds, maxReplicas, fate), (Scale, pools[k - 1].name));
    }
  }

  lemma ShowsSame(r: Reports, a: seq<Event>, b: seq<Event>, k: Key)
    requires Shows(r, a, k) && LastReport(a, k) == LastReport(b, k)
    ensures Shows(r, b, k)
  {
    hide LastReport;
  }

  lemma ActingReports(revision: int, pools: seq<WorkerPool>, mds: seq<Deployment>, maxReplicas: int,
                      fate: nat -> CallResult)
    ensures OnlyReports(ScaleAll(revision, pools, |pools|, mds, maxReplicas, fate).events)
  {
    hide ScaleAll, Judge, Lookup;
    ScaleAllEvents(revision, pools, |pools|, mds, maxReplicas, fate);
  }

  ghost predicate NoValidName(pools: seq<WorkerPool>, k: nat)
    requires k <= |pools|
  {
    forall i :: 0 <= i < k ==> !IsDNS1123Subdomain(pools[i].name)
  }

  /** Whoever is queued, is queued behind a pool with a valid name. */
  lemma {:induction false} HaltedBehind(revision: int, pools: seq<WorkerPool>, k: nat, mds: seq<Deployment>,
                                        maxReplicas: int, fate: nat -> CallResult)
    requires k <= |pools| && ScaleAll(revision, pools, k, mds, maxReplicas, fate).halted
    ensures !NoValidName(pools, k)
  {
    hide IsControlPlane, AutoscalerKey, IsDNS1123Subdomain, Lookup, ScaleOne;
    if ScaleAll(revision, pools, k - 1, mds, maxReplicas, fate).halted {
      HaltedBehind(revision, pools, k - 1, mds, maxReplicas, fate);
    } else {
      assert Transient(pools[k - 1], Lookup(mds, pools[k - 1].name), maxReplicas, fate(k - 1));
    }
  }

  /** One pool's turn, repeated. */
  lemma AddedRepeats(r: Reports, revision: int, pools: seq<WorkerPool>, k: nat, mds: seq<Deployment>, maxReplicas: int,
                     fate: nat -> CallResult)
    requires ShowsPass(r, revision, pools, mds, maxReplicas, fate) && 0 < k <= |pools|
    ensures var added := AddedBy(revision, pools, k, mds, maxReplicas, fate);
            && Replay(r, added) == r
            && (!ScaleAll(revision, pools, k - 1, mds, maxReplicas, fate).halted ==>
                  (Notified(r, added) == 0 <==> !IsDNS1123Subdomain(pools[k - 1].name)))
  {
    var added := AddedBy(revision, pools, k, mds, maxReplicas, fate);
    assert Shows(r, added, (Scale, pools[k - 1].name));
    hide ScaleAll, ScaleOne, IsDNS1123Subdomain, Keyed, Shows, About, ShowsPass;
    AddedIsAbout(revision, pools, k, mds, maxReplicas, fate);
    AboutRepeats(r, added, (Scale, pools[k - 1].name));
    if !ScaleAll(revision, pools, k - 1, mds, maxReplicas, fate).halted {
      ScaleOneRepeats(r, revision, pools[k - 1], Lookup(mds, pools[k - 1].name), maxReplicas, fate(k - 1));
    }
  }

  lemma NothingRepeats(r: Reports)
    ensures Replay(r, []) == r && Notified(r, []) == 0
  {
  }

  /** Two parts that each leave the store as it is. */
  lemma PartsRepeat(r: Reports, a: seq<Event>, b: seq<Event>)
    requires Replay(r, a) == r && Replay(r, b) == r
    ensures Replay(r, a + b) == r && Notified(r, a + b) == Notified(r, a) + Notified(r, b)
  {
    hide Replay, Notified;
    ReplayAppend(r, a, b);
    NotifiedAppend(r, a, b);
  }

  lemma NoPoolsRepeat(r: Reports, revision: int, pools: seq<WorkerPool>, mds: seq<Deployment>, maxReplicas: int,
                      fate: nat -> CallResult)
    ensures var events := ScaleAll(revision, pools, 0, mds, maxReplicas, fate).events;
            Replay(r, events) == r && Notified(r, events) == 0 && NoValidName(pools, 0)
  {
  }

  lemma NoValidNameStep(pools: seq<WorkerPool>, k: nat)
    requires 0 < k <= |pools|
    ensures NoValidName(pools, k) <==> NoValidName(pools, k - 1) && !IsDNS1123Subdomain(pools[k - 1].name)
  {
    hide IsDNS1123Subdomain;
  }

  lemma {:induction false} ActingPassRepeats(r: Reports, revision: int, pools: seq<WorkerPool>, k: nat,
                                             mds: seq<Deployment>, maxReplicas: int, fate: nat -> CallResult)
    requires ShowsPass(r, revision, pools, mds, maxReplicas, fate) && k <= |pools|
    ensures var events := ScaleAll(revision, pools, k, mds, maxReplicas, fate).events;
            Replay(r, events) == r && (Notified(r, events) == 0 <==> NoValidName(pools, k))
  {
    hide *;
    if k == 0 {
      NoPoolsRepeat(r, revision, pools, mds, maxReplicas, fate);
    } else {
      var before := ScaleAll(revision, pools, k - 1, mds, maxReplicas, fate);
      var added := AddedBy(revision, pools, k, mds, maxReplicas, fate);
      ActingPassRepeats(r, revision, pools, k - 1, mds, maxReplicas, fate);
      AddedAbout(revision, pools, k, mds, maxReplicas, fate);
      AddedRepeats(r, revision, pools, k, mds, maxReplicas, fate);
      PartsRepeat(r, before.events, added);
      NoValidNameStep(pools, k);
      if before.halted { HaltedBehind(revision, pools, k - 1, mds, maxReplicas, fate); }
    }
  }

  function CannotListReport(revision: int, pool: WorkerPool): Action {
    Action(Scale, pool.name, Rejected, CannotList, revision)
  }

  lemma {:induction false} FailedPassShown(revision: int, pools: seq<WorkerPool>, k: nat, at: nat)
    requires at < k <= |pools|
    ensures LastReport(CannotListAll(revision, Scale, pools, k), (Scale, pools[at].name))
         == Some(CannotListReport(revision, pools[at]))
  {
    if at < k - 1 { FailedPassShown(revision, pools, k - 1, at); }
  }

  lemma {:induction false} FailedPassRepeats(r: Reports, revision: int, pools: seq<WorkerPool>, k: nat)
    requires k <= |pools| && Keyed(r.items)
    requires forall i :: 0 <= i < |pools| ==> CannotListReport(revision, pools[i]) in r.items
    ensures Replay(r, CannotListAll(revision, Scale, pools, k)) == r
    ensures Notified(r, CannotListAll(revision, Scale, pools, k)) == 0
  {
    hide Replay, Notified, Keyed;
    if k == 0 {
      NothingRepeats(r);
    } else {
      var a := CannotListReport(revision, pools[k - 1]);
      FailedPassRepeats(r, revision, pools, k - 1);
      OneRepeats(r, a);
      PartsRepeat(r, CannotListAll(revision, Scale, pools, k - 1), [Report(a)]);
    }
  }

  lemma {:induction false} CannotListReports(revision: int, pools: seq<WorkerPool>, k: nat)
    requires k <= |pools|
    ensures OnlyReports(CannotListAll(revision, Scale, pools, k))
  {
    if k > 0 { CannotListReports(revision, pools, k - 1); }
  }

  lemma FailedPassSilent(r: Reports, revision: int, pools: seq<WorkerPool>)
    requires Keyed(r.items)
    ensures var events := CannotListAll(revision, Scale, pools, |pools|);
            var once := Replay(r, events);
            Replay(once, events) == once && Notified(once, events) == 0
  {
    hide Keyed, Replay, Notified, CannotListAll;
    var events := CannotListAll(revision, Scale, pools, |pools|);
    CannotListReports(revision, pools, |pools|);
    ReplayHoldsLastReports(r, events);
    forall i | 0 <= i < |pools| ensures CannotListReport(revision, pools[i]) in Replay(r, events).items {
      FailedPassShown(revision, pools, |pools|, i);
    }
    FailedPassRepeats(Replay(r, events), revision, pools, |pools|);
  }

  /** Repeating a whole pass, with the same listing and the same answers, leaves the store as it is.
      It is silent, so that no heartbeat is sent early, exactly when the listing fails again or no
      pool of the pass has a valid name. */
  lemma RepeatedPassSilentIff(r: Reports, doc: Doc, listing: Option<seq<Deployment>>, maxReplicas: int,
                              fate: nat -> CallResult)
    requires Keyed(r.items) && UniqueBy(doc.pools, PoolName)
    ensures var events := ScalePass(doc, listing, maxReplicas, fate).events;
            var once := Replay(r, events);
            && Replay(once, events) == once
            && (Notified(once, events) == 0 <==>
                  listing.None? || forall p :: p in PassPools(doc.pools) ==> !IsDNS1123Subdomain(p.name))
  {
    hide PassPools, ScaleAll, CannotListAll, IsDNS1123Subdomain, Keyed, ShowsPass, UniqueBy;
    var pools := PassPools(doc.pools);
    PassPoolsUnique(doc.pools);
    if pools == [] {
      assert Replay(r, []) == r && Notified(r, []) == 0;
    } else if listing.None? {
      FailedPassSilent(r, doc.revision, pools);
    } else {
      hide Replay, Notified;
      var events := ScaleAll(doc.revision, pools, |pools|, listing.value, maxReplicas, fate).events;
      PassShown(r, doc.revision, pools, listing.value, maxReplicas, fate);
      ActingPassRepeats(Replay(r, events), doc.revision, pools, |pools|, listing.value, maxReplicas, fate);
      assert NoValidName(pools, |pools|) <==> forall p :: p in pools ==> !IsDNS1123Subdomain(p.name);
    }
  }
}
