/** Worker scaling (internal/executor/executor.go): one replica patch per pool, in name order,
    halting on the first transient failure. */
module Scaling {
  import opened Common
  import opened Fleet
  import opened FleetLaws
  import opened Ordering

  const MAX_POOLS_PER_PASS: nat := 100

  predicate PoolLe(a: WorkerPool, b: WorkerPool) { StringLe(a.name, b.name) }

  /** The pools one pass processes. */
  function PassPools(pools: seq<WorkerPool>): seq<WorkerPool> {
    var sorted := Sort(pools, PoolLe);
    if |sorted| > MAX_POOLS_PER_PASS then sorted[..MAX_POOLS_PER_PASS] else sorted
  }

  function Lookup(mds: seq<Deployment>, name: string): Option<Deployment> {
    var byName := IndexBy(mds, DeploymentName);
    if name in byName then Some(byName[name]) else None
  }

  datatype Verdict =
    | Unnamed
    | Refuse(detail: Detail)
    | AtDesired
    | Patch

  /** What the executor decides about one pool before it writes. */
  function Judge(pool: WorkerPool, md: Option<Deployment>, maxReplicas: int): Verdict {
    if pool.name == "" then Unnamed
    else if !IsDNS1123Subdomain(pool.name) then Refuse(InvalidName)
    else if md.None? then Refuse(NoSuchDeployment)
    else if IsControlPlane(md.value) then Refuse(ControlPlanePool)
    else if AutoscalerKey(md.value).Some? then Refuse(AutoscalerPool(AutoscalerKey(md.value).value))
    else if pool.desiredReplicas < 0 || pool.desiredReplicas > maxReplicas then
      Refuse(ReplicasOutOfRange(pool.desiredReplicas, maxReplicas))
    else if md.value.replicas == Some(pool.desiredReplicas) then AtDesired
    else Patch
  }

  function ScaleReport(revision: int, pool: WorkerPool, status: Status, detail: Detail): Event {
    Report(Action(Scale, pool.name, status, detail, revision))
  }

  /** The events of one pool; a valid name is reported pending first. */
  function ScaleOne(revision: int, pool: WorkerPool, md: Option<Deployment>, maxReplicas: int,
                    result: CallResult): seq<Event> {
    var pending := ScaleReport(revision, pool, Pending, NoDetail);
    match Judge(pool, md, maxReplicas)
    case Unnamed => []
    case Refuse(detail) =>
      (if detail.InvalidName? then [] else [pending]) + [ScaleReport(revision, pool, Rejected, detail)]
    case AtDesired => [pending, ScaleReport(revision, pool, Done, AlreadyAt(pool.desiredReplicas))]
    case Patch =>
      [pending, ScaleReport(revision, pool, InProgress, PatchingReplicas(pool.desiredReplicas)),
       PatchReplicas(pool.name, pool.desiredReplicas, result),
       if result.Ok? && md.Some? then ScaleReport(revision, pool, Done, Scaled(md.value.replicas, pool.desiredReplicas))
       else ScaleReport(revision, pool, Rejected, PatchFailed(result))]
  }

  predicate Transient(pool: WorkerPool, md: Option<Deployment>, maxReplicas: int, result: CallResult) {
    Judge(pool, md, maxReplicas).Patch? && !result.Ok?
  }

  /** `halted` is also the retry answer: only a transient failure asks for a retry. */
  datatype Progress = Progress(halted: bool, events: seq<Event>)

  function ScaleStep(st: Progress, revision: int, pool: WorkerPool, md: Option<Deployment>, maxReplicas: int,
                     result: CallResult): Progress {
    if st.halted then st.(events := st.events + [ScaleReport(revision, pool, Pending, QueuedBehindFailure)])
    else Progress(Transient(pool, md, maxReplicas, result),
                  st.events + ScaleOne(revision, pool, md, maxReplicas, result))
  }

  function ScaleAll(revision: int, pools: seq<WorkerPool>, k: nat, mds: seq<Deployment>, maxReplicas: int,
                    fate: nat -> CallResult): Progress
    requires k <= |pools|
  {
    if k == 0 then Progress(false, [])
    else
      ScaleStep(ScaleAll(revision, pools, k - 1, mds, maxReplicas, fate), revision, pools[k - 1],
                Lookup(mds, pools[k - 1].name), maxReplicas, fate(k - 1))
  }

  function CannotListAll(revision: int, kind: Kind, pools: seq<WorkerPool>, k: nat): seq<Event>
    requires k <= |pools|
  {
    if k == 0 then []
    else CannotListAll(revision, kind, pools, k - 1)
         + [Report(Action(kind, pools[k - 1].name, Rejected, CannotList, revision))]
  }

  /** The whole pass; `listing` is None when the deployments could not be listed. */
  function ScalePass(doc: Doc, listing: Option<seq<Deployment>>, maxReplicas: int, fate: nat -> CallResult): Progress {
    var pools := PassPools(doc.pools);
    if pools == [] then Progress(false, [])
    else if listing.None? then Progress(true, CannotListAll(doc.revision, Scale, pools, |pools|))
    else ScaleAll(doc.revision, pools, |pools|, listing.value, maxReplicas, fate)
  }

  // ---------------------------------------------------------------- effect on the cluster

  /** A deployment after one event: an effective patch changes its one field and nothing else. */
  function AfterEvent(md: Deployment, e: Event): Deployment {
    if e.PatchReplicas? && e.pool == md.name && e.result.TookEffect() then md.(replicas := Some(e.replicas))
    else if e.PatchKubelet? && e.pool == md.name && e.result.TookEffect() then md.(kubelet := e.version)
    else md
  }

  function AfterEvents(md: Deployment, events: seq<Event>): Deployment {
    if events == [] then md
    else AfterEvent(AfterEvents(md, events[..|events| - 1]), events[|events| - 1])
  }

  lemma {:induction false} AfterEventsAppend(md: Deployment, a: seq<Event>, b: seq<Event>)
    ensures AfterEvents(md, a + b) == AfterEvents(AfterEvents(md, a), b)
    ensures AfterEvents(md, a).name == md.name
  {
    if b != [] {
      assert (a + b)[..|a + b| - 1] == a + b[..|b| - 1];
      AfterEventsAppend(md, a, b[..|b| - 1]);
    } else {
      assert a + b == a;
      if a != [] { AfterEventsAppend(md, a[..|a| - 1], []); }
    }
  }

  /** Events that patch nobody of this name leave the deployment alone. */
  lemma {:induction false} AfterEventsUntouched(md: Deployment, events: seq<Event>)
    requires forall e :: e in events && (e.PatchReplicas? || e.PatchKubelet?) ==> e.pool != md.name
    ensures AfterEvents(md, events) == md
  {
    if events != [] {
      assert events[|events| - 1] in events;
      AfterEventsUntouched(md, events[..|events| - 1]);
    }
  }

  function AfterPass(mds: seq<Deployment>, events: seq<Event>): (r: seq<Deployment>)
    ensures |r| == |mds|
  {
    seq(|mds|, i requires 0 <= i < |mds| => AfterEvents(mds[i], events))
  }

  // ---------------------------------------------------------------- laws

  /** A deployment under the pool's valid name is listed, may be acted on, and declares another number,
      and the desired one is within bounds. */
  ghost predicate Scalable(pool: WorkerPool, mds: seq<Deployment>, maxReplicas: int) {
    && Labels(pool.name) && |pool.name| <= 253 && 0 <= pool.desiredReplicas <= maxReplicas
    && exists md :: md in mds && md.name == pool.name && Eligible(md) && md.replicas != Some(pool.desiredReplicas)
  }

  /** The same with the number already declared. */
  ghost predicate Sized(pool: WorkerPool, mds: seq<Deployment>, maxReplicas: int) {
    && Labels(pool.name) && |pool.name| <= 253 && 0 <= pool.desiredReplicas <= maxReplicas
    && exists md :: md in mds && md.name == pool.name && Eligible(md) && md.replicas == Some(pool.desiredReplicas)
  }

  lemma PatchIsScalable(pool: WorkerPool, mds: seq<Deployment>, maxReplicas: int)
    requires Judge(pool, Lookup(mds, pool.name), maxReplicas).Patch?
    ensures Scalable(pool, mds, maxReplicas)
  {
    hide IsControlPlane, AutoscalerKey, IsDNS1123Subdomain;
    SubdomainIff(pool.name);
    IndexByFinds(mds, DeploymentName, pool.name);
  }

  /** What is decided, on the listing: a pool is patched exactly when it is scalable, and let be exactly
      when it has its size. */
  lemma JudgeIff(pool: WorkerPool, mds: seq<Deployment>, maxReplicas: int)
    requires UniqueBy(mds, DeploymentName)
    ensures Judge(pool, Lookup(mds, pool.name), maxReplicas).Patch? <==> Scalable(pool, mds, maxReplicas)
    ensures Judge(pool, Lookup(mds, pool.name), maxReplicas).AtDesired? <==> Sized(pool, mds, maxReplicas)
  {
    hide IsControlPlane, AutoscalerKey, IsDNS1123Subdomain, Lookup;
    SubdomainIff(pool.name);
    LookupUnique(mds, pool.name);
    if Labels(pool.name) { LabelsAreDotted(pool.name); }
  }

  /** A pool the executor accepts: it can be brought to its desired size. */
  ghost predicate Acceptable(pool: WorkerPool, mds: seq<Deployment>, maxReplicas: int) {
    Judge(pool, Lookup(mds, pool.name), maxReplicas).Patch?
    || Judge(pool, Lookup(mds, pool.name), maxReplicas).AtDesired?
  }

  lemma PassPoolsUnique(pools: seq<WorkerPool>)
    requires UniqueBy(pools, PoolName)
    ensures UniqueBy(PassPools(pools), PoolName)
    ensures forall p :: p in PassPools(pools) ==> p in pools
  {
    RearrangedUnique(pools, Sort(pools, PoolLe), PoolName);
    SortMembers(pools, PoolLe);
  }

  lemma ScaleOneEvents(revision: int, pool: WorkerPool, md: Option<Deployment>, maxReplicas: int, result: CallResult)
    ensures forall e :: e in ScaleOne(revision, pool, md, maxReplicas, result) ==>
              && (e.Report? || e.PatchReplicas?)
              && (e.PatchReplicas? ==> e == PatchReplicas(pool.name, pool.desiredReplicas, result)
                                       && Judge(pool, md, maxReplicas).Patch?)
              && (e.Report? ==> e.action.revision == revision && e.action.kind == Scale)
    ensures Judge(pool, md, maxReplicas).Patch? ==>
              PatchReplicas(pool.name, pool.desiredReplicas, result)
                in ScaleOne(revision, pool, md, maxReplicas, result)
  {
    if Judge(pool, md, maxReplicas).Patch? {
      assert ScaleOne(revision, pool, md, maxReplicas, result)[2]
          == PatchReplicas(pool.name, pool.desiredReplicas, result);
    }
  }

  /** Every replica patch goes to a pool of the pass, with that pool's number, and the deployment listed
      under its valid name may be acted on, declares another number, and the number is within bounds. */
  lemma {:induction false} ScaleAllEvents(revision: int, pools: seq<WorkerPool>, k: nat, mds: seq<Deployment>,
                                          maxReplicas: int, fate: nat -> CallResult)
    requires k <= |pools|
    ensures forall e :: e in ScaleAll(revision, pools, k, mds, maxReplicas, fate).events ==>
              && (e.Report? || e.PatchReplicas?)
              && (e.Report? ==> e.action.revision == revision && e.action.kind == Scale)
              && (e.PatchReplicas? ==>
                    exists i: nat :: i < k && e == PatchReplicas(pools[i].name, pools[i].desiredReplicas, fate(i))
                                     && Judge(pools[i], Lookup(mds, pools[i].name), maxReplicas).Patch?
                                     && Scalable(pools[i], mds, maxReplicas))
  {
    hide ScaleOne, Judge, Scalable;
    if k > 0 {
      ScaleAllEvents(revision, pools, k - 1, mds, maxReplicas, fate);
      ScaleOneEvents(revision, pools[k - 1], Lookup(mds, pools[k - 1].name), maxReplicas, fate(k - 1));
      if Judge(pools[k - 1], Lookup(mds, pools[k - 1].name), maxReplicas).Patch? {
        PatchIsScalable(pools[k - 1], mds, maxReplicas);
      }
    }
  }

  /** "pending" for the pools with index from..k. */
  function Queued(revision: int, pools: seq<WorkerPool>, from: nat, k: nat): seq<Event>
    requires k <= |pools|
  {
    if from >= k then []
    else Queued(revision, pools, from, k - 1) + [ScaleReport(revision, pools[k - 1], Pending, QueuedBehindFailure)]
  }

  ghost predicate TransientAt(pools: seq<WorkerPool>, mds: seq<Deployment>, maxReplicas: int,
                        fate: nat -> CallResult, i: nat)
    requires i < |pools|
  {
    Transient(pools[i], Lookup(mds, pools[i].name), maxReplicas, fate(i))
  }

  /** The first `k` pools are an acted prefix up to the first transient failure, if any, and then nothing but
      "pending". */
  ghost predicate HaltsAt(revision: int, pools: seq<WorkerPool>, k: nat, mds: seq<Deployment>, maxReplicas: int,
                          fate: nat -> CallResult, cut: nat)
    requires k <= |pools|
  {
    && cut <= k && (forall i: nat :: i < cut ==> !TransientAt(pools, mds, maxReplicas, fate, i))
    && (ScaleAll(revision, pools, k, mds, maxReplicas, fate).halted <==> cut < k)
    && (cut < k ==>
          && TransientAt(pools, mds, maxReplicas, fate, cut)
          && ScaleAll(revision, pools, k, mds, maxReplicas, fate).events
               == ScaleAll(revision, pools, cut + 1, mds, maxReplicas, fate).events
                  + Queued(revision, pools, cut + 1, k))
  }

  lemma HaltStep(revision: int, pools: seq<WorkerPool>, k: nat, mds: seq<Deployment>, maxReplicas: int,
                 fate: nat -> CallResult, cut: nat)
    requires 0 < k <= |pools| && HaltsAt(revision, pools, k - 1, mds, maxReplicas, fate, cut)
    ensures HaltsAt(revision, pools, k, mds, maxReplicas, fate,
                    if cut == k - 1 && !TransientAt(pools, mds, maxReplicas, fate, k - 1) then k else cut)
  {
    hide ScaleOne, Transient, Lookup, Judge;
    var st := ScaleAll(revision, pools, k - 1, mds, maxReplicas, fate);
    assert cut < k - 1 ==> st.halted;
  }

  /** Halt on failure: the pass is an acted prefix ending in the first transient failure, followed
      by nothing but "pending", and it asks for a retry exactly when there was such a failure. */
  lemma {:induction false} ScaleHaltsAtFirstFailure(revision: int, pools: seq<WorkerPool>, k: nat, mds: seq<Deployment>,
                                                    maxReplicas: int, fate: nat -> CallResult)
    returns (cut: nat)
    requires k <= |pools|
    ensures HaltsAt(revision, pools, k, mds, maxReplicas, fate, cut)
  {
    hide *;
    if k == 0 {
      NoHaltYet(revision, pools, mds, maxReplicas, fate);
      return 0;
    }
    cut := ScaleHaltsAtFirstFailure(revision, pools, k - 1, mds, maxReplicas, fate);
    HaltStep(revision, pools, k, mds, maxReplicas, fate, cut);
    if cut == k - 1 && !TransientAt(pools, mds, maxReplicas, fate, k - 1) { cut := k; }
  }

  lemma NoHaltYet(revision: int, pools: seq<WorkerPool>, mds: seq<Deployment>, maxReplicas: int, fate: nat -> CallResult)
    ensures HaltsAt(revision, pools, 0, mds, maxReplicas, fate, 0)
  {
  }

  lemma {:induction false} NoFaultNoHalt(revision: int, pools: seq<WorkerPool>, k: nat, mds: seq<Deployment>,
                                         maxReplicas: int, fate: nat -> CallResult)
    requires k <= |pools| && forall i: nat :: fate(i).Ok?
    ensures !ScaleAll(revision, pools, k, mds, maxReplicas, fate).halted
  {
    if k > 0 { NoFaultNoHalt(revision, pools, k - 1, mds, maxReplicas, fate); }
  }

  /** A deployment no patched pool is named after keeps every field. */
  lemma ScaleAllUntouched(revision: int, pools: seq<WorkerPool>, k: nat, mds: seq<Deployment>, maxReplicas: int,
                          fate: nat -> CallResult, md: Deployment)
    requires k <= |pools|
    requires forall i: nat :: i < k && pools[i].name == md.name ==>
               !Judge(pools[i], Lookup(mds, md.name), maxReplicas).Patch?
    ensures AfterEvents(md, ScaleAll(revision, pools, k, mds, maxReplicas, fate).events) == md
  {
    ScaleAllEvents(revision, pools, k, mds, maxReplicas, fate);
    AfterEventsUntouched(md, ScaleAll(revision, pools, k, mds, maxReplicas, fate).events);
  }

  /** A pass without API faults brings the deployment of an acceptable pool to its number. */
  lemma {:induction false} ScaleAllReaches(revision: int, pools: seq<WorkerPool>, k: nat, mds: seq<Deployment>,
                                           maxReplicas: int, fate: nat -> CallResult, md: Deployment, at: nat)
    requires at < k <= |pools| && UniqueBy(pools, PoolName) && pools[at].name == md.name
    requires Lookup(mds, md.name) == Some(md) && Acceptable(pools[at], mds, maxReplicas)
    requires forall i: nat :: fate(i).Ok?
    ensures AfterEvents(md, ScaleAll(revision, pools, k, mds, maxReplicas, fate).events)
         == md.(replicas := Some(pools[at].desiredReplicas))
  {
    hide *;
    if at == k - 1 {
      ReachesLast(revision, pools, k, mds, maxReplicas, fate, md);
    } else {
      ScaleStepEffect(revision, pools, k, mds, maxReplicas, fate, md);
      NamesDiffer(pools, at, k - 1);
      ScaleAllReaches(revision, pools, k - 1, mds, maxReplicas, fate, md, at);
    }
  }

  lemma NamesDiffer(pools: seq<WorkerPool>, i: nat, j: nat)
    requires UniqueBy(pools, PoolName) && i < j < |pools|
    ensures pools[i].name != pools[j].name
  {
    assert PoolName(pools[i]) != PoolName(pools[j]);
  }

  lemma ReachesLast(revision: int, pools: seq<WorkerPool>, k: nat, mds: seq<Deployment>, maxReplicas: int,
                    fate: nat -> CallResult, md: Deployment)
    requires 0 < k <= |pools| && UniqueBy(pools, PoolName) && pools[k - 1].name == md.name
    requires Lookup(mds, md.name) == Some(md) && Acceptable(pools[k - 1], mds, maxReplicas)
    requires forall i: nat :: fate(i).Ok?
    ensures AfterEvents(md, ScaleAll(revision, pools, k, mds, maxReplicas, fate).events)
         == md.(replicas := Some(pools[k - 1].desiredReplicas))
  {
    hide ScaleAll, ScaleOne, Lookup, AfterEvents, IsControlPlane, AutoscalerKey;
    ScaleStepEffect(revision, pools, k, mds, maxReplicas, fate, md);
    forall i: nat | i < k - 1 ensures pools[i].name != md.name {
      assert PoolName(pools[i]) != PoolName(pools[k - 1]);
    }
    ScaleAllUntouched(revision, pools, k - 1, mds, maxReplicas, fate, md);
    ScaleOneReaches(revision, pools[k - 1], md, maxReplicas);
  }

  /** The k-th pool of a fault-free pass acts on what the first k - 1 left, and on its own
      deployment only. */
  lemma ScaleStepEffect(revision: int, pools: seq<WorkerPool>, k: nat, mds: seq<Deployment>, maxReplicas: int,
                        fate: nat -> CallResult, md: Deployment)
    requires 0 < k <= |pools| && forall i: nat :: fate(i).Ok?
    ensures var before := AfterEvents(md, ScaleAll(revision, pools, k - 1, mds, maxReplicas, fate).events);
            && AfterEvents(md, ScaleAll(revision, pools, k, mds, maxReplicas, fate).events)
                 == AfterEvents(before, ScaleOne(revision, pools[k - 1], Lookup(mds, pools[k - 1].name), maxReplicas, Ok))
            && (pools[k - 1].name != md.name ==>
                  AfterEvents(md, ScaleAll(revision, pools, k, mds, maxReplicas, fate).events) == before)
  {
    var st, pool := ScaleAll(revision, pools, k - 1, mds, maxReplicas, fate), pools[k - 1];
    NoFaultNoHalt(revision, pools, k - 1, mds, maxReplicas, fate);
    assert fate(k - 1) == Ok;
    var one := ScaleOne(revision, pool, Lookup(mds, pool.name), maxReplicas, Ok);
    assert ScaleAll(revision, pools, k, mds, maxReplicas, fate).events == st.events + one;
    AfterEventsAppend(md, st.events, one);
    if pool.name != md.name {
      ScaleOneEvents(revision, pool, Lookup(mds, pool.name), maxReplicas, Ok);
      AfterEventsUntouched(AfterEvents(md, st.events), one);
    }
  }

  lemma ScaleOneReaches(revision: int, pool: WorkerPool, md: Deployment, maxReplicas: int)
    requires pool.name == md.name
    ensures AfterEvents(md, ScaleOne(revision, pool, Some(md), maxReplicas, Ok))
         == if Judge(pool, Some(md), maxReplicas).Patch? then md.(replicas := Some(pool.desiredReplicas)) else md
    ensures Judge(pool, Some(md), maxReplicas).AtDesired? ==> md == md.(replicas := Some(pool.desiredReplicas))
  {
    var events := ScaleOne(revision, pool, Some(md), maxReplicas, Ok);
    if Judge(pool, Some(md), maxReplicas).Patch? {
      var first := events[..2];
      assert events == first + [events[2]] + [events[3]];
      AfterEventsUntouched(md, first);
      assert (first + [events[2]] + [events[3]])[..3] == first + [events[2]];
      assert (first + [events[2]])[..2] == first;
    } else {
      ScaleOneEvents(revision, pool, Some(md), maxReplicas, Ok);
      AfterEventsUntouched(md, events);
    }
  }

  /** The deployment a pool name finds, before and after a pass. */
  lemma LookupUnique(mds: seq<Deployment>, name: string)
    requires UniqueBy(mds, DeploymentName)
    ensures Lookup(mds, name).Some? ==> Lookup(mds, name).value in mds && Lookup(mds, name).value.name == name
    ensures forall md :: md in mds && md.name == name ==> Lookup(mds, name) == Some(md)
  {
    IndexByFinds(mds, DeploymentName, name);
    forall md | md in mds && md.name == name ensures Lookup(mds, name) == Some(md) {
      IndexByUnique(mds, DeploymentName, md);
    }
  }

  /** Scaling converges: a pass without faults leaves every acceptable pool at its desired number
      and every other deployment, and every other field, untouched. */
  lemma ScaleConverges(doc: Doc, mds: seq<Deployment>, maxReplicas: int, fate: nat -> CallResult)
    requires UniqueBy(doc.pools, PoolName) && UniqueBy(mds, DeploymentName)
    requires forall i: nat :: fate(i).Ok?
    ensures var pools, out := PassPools(doc.pools), ScalePass(doc, Some(mds), maxReplicas, fate);
            && !out.halted
            && (forall md, pool :: md in mds && pool in pools && pool.name == md.name && Acceptable(pool, mds, maxReplicas)
                  ==> AfterEvents(md, out.events) == md.(replicas := Some(pool.desiredReplicas)))
            && (forall md :: md in mds
                   && (forall pool :: pool in pools && pool.name == md.name ==> !Acceptable(pool, mds, maxReplicas))
                  ==> AfterEvents(md, out.events) == md)
  {
    var pools := PassPools(doc.pools);
    PassPoolsUnique(doc.pools);
    var out := ScalePass(doc, Some(mds), maxReplicas, fate);
    if pools != [] {
      var cut := ScaleHaltsAtFirstFailure(doc.revision, pools, |pools|, mds, maxReplicas, fate);
      forall md, pool | md in mds && pool in pools && pool.name == md.name && Acceptable(pool, mds, maxReplicas)
        ensures AfterEvents(md, out.events) == md.(replicas := Some(pool.desiredReplicas))
      {
        IndexByUnique(mds, DeploymentName, md);
        var at :| 0 <= at < |pools| && pools[at] == pool;
        ScaleAllReaches(doc.revision, pools, |pools|, mds, maxReplicas, fate, md, at);
      }
      forall md | md in mds
          && (forall pool :: pool in pools && pool.name == md.name ==> !Acceptable(pool, mds, maxReplicas))
        ensures AfterEvents(md, out.events) == md
      {
        ScaleAllUntouched(doc.revision, pools, |pools|, mds, maxReplicas, fate, md);
      }
    }
  }

  /** Refusals look at nothing a replica patch changes, so a patched pool is next seen at its
      desired number. */
  lemma JudgeAfterPatch(pool: WorkerPool, md: Deployment, replicas: Option<int>, maxReplicas: int)
    requires Judge(pool, Some(md), maxReplicas).Patch? || Judge(pool, Some(md), maxReplicas).AtDesired?
    ensures Judge(pool, Some(md.(replicas := replicas)), maxReplicas)
         == if replicas == Some(pool.desiredReplicas) then AtDesired else Patch
  {
  }

  /** Scaling is idempotent: on the cluster a fault-free pass leaves behind, the next pass writes nothing. */
  lemma ScaleIdempotent(doc: Doc, mds: seq<Deployment>, maxReplicas: int, fate: nat -> CallResult,
                        fate': nat -> CallResult)
    requires UniqueBy(doc.pools, PoolName) && UniqueBy(mds, DeploymentName)
    requires forall i: nat :: fate(i).Ok?
    ensures var mds' := AfterPass(mds, ScalePass(doc, Some(mds), maxReplicas, fate).events);
            && forall e :: e in ScalePass(doc, Some(mds'), maxReplicas, fate').events ==> !e.IsWrite()
  {
    var pools, out := PassPools(doc.pools), ScalePass(doc, Some(mds), maxReplicas, fate);
    var mds' := AfterPass(mds, out.events);
    ScaleConverges(doc, mds, maxReplicas, fate);
    forall i | 0 <= i < |mds| ensures mds'[i].name == mds[i].name {
      AfterEventsAppend(mds[i], out.events, []);
    }
    forall i, j | 0 <= i < j < |mds'| ensures DeploymentName(mds'[i]) != DeploymentName(mds'[j]) {
      assert DeploymentName(mds[i]) != DeploymentName(mds[j]);
    }
    forall pool | pool in pools ensures !Judge(pool, Lookup(mds', pool.name), maxReplicas).Patch? {
      LookupUnique(mds', pool.name);
      LookupUnique(mds, pool.name);
      if Lookup(mds', pool.name).Some? {
        var i :| 0 <= i < |mds'| && mds'[i] == Lookup(mds', pool.name).value;
        assert mds[i] in mds && Lookup(mds, pool.name) == Some(mds[i]);
        if Acceptable(pool, mds, maxReplicas) {
          JudgeAfterPatch(pool, mds[i], Some(pool.desiredReplicas), maxReplicas);
        } else {
          AcceptableStays(pool, mds[i], out.events, maxReplicas);
        }
      }
    }
    if pools != [] { ScaleAllEvents(doc.revision, pools, |pools|, mds', maxReplicas, fate'); }
  }

  /** Scaling patches change neither what is refused nor what is accepted. */
  lemma {:induction false} AcceptableStays(pool: WorkerPool, md: Deployment, events: seq<Event>, maxReplicas: int)
    ensures var md' := AfterEvents(md, events);
            Judge(pool, Some(md'), maxReplicas).Patch? || Judge(pool, Some(md'), maxReplicas).AtDesired?
            <==> Judge(pool, Some(md), maxReplicas).Patch? || Judge(pool, Some(md), maxReplicas).AtDesired?
  {
    if events != [] { AcceptableStays(pool, md, events[..|events| - 1], maxReplicas); }
  }

  // ---------------------------------------------------------------- over several passes

  /** Between two listings nobody but this agent edited replica counts or pool identity. */
  ghost predicate NoOutsideEdits(mds: seq<Deployment>, events: seq<Event>, mds': seq<Deployment>) {
    forall name :: Lookup(mds, name).Some? ==>
      && Lookup(mds', name).Some?
      && Lookup(mds', name).value.replicas == AfterEvents(Lookup(mds, name).value, events).replicas
  }

  ghost predicate Follows(doc: Doc, listings: seq<seq<Deployment>>, maxReplicas: int,
                        fates: nat -> (nat -> CallResult), t: nat)
    requires t + 1 < |listings|
  {
    NoOutsideEdits(listings[t], ScalePass(doc, Some(listings[t]), maxReplicas, fates(t)).events, listings[t + 1])
  }

  lemma PatchAttemptMeans(doc: Doc, mds: seq<Deployment>, maxReplicas: int, fate: nat -> CallResult, pool: WorkerPool,
                          e: Event)
    requires UniqueBy(doc.pools, PoolName) && pool in doc.pools
    requires e in ScalePass(doc, Some(mds), maxReplicas, fate).events && e.PatchReplicas? && e.pool == pool.name
    ensures e.replicas == pool.desiredReplicas && Judge(pool, Lookup(mds, pool.name), maxReplicas).Patch?
    ensures Lookup(mds, pool.name).Some? && Lookup(mds, pool.name).value.replicas != Some(pool.desiredReplicas)
  {
    hide PassPools, Lookup, ScaleAll, IsControlPlane, AutoscalerKey, IsDNS1123Subdomain;
    var pools := PassPools(doc.pools);
    PassPoolsUnique(doc.pools);
    ScaleAllEvents(doc.revision, pools, |pools|, mds, maxReplicas, fate);
    var i: nat :| i < |pools| && e == PatchReplicas(pools[i].name, pools[i].desiredReplicas, fate(i))
                  && Judge(pools[i], Lookup(mds, pools[i].name), maxReplicas).Patch?;
    assert pools[i] in pools;
    UniqueSame(doc.pools, PoolName, pools[i], pool);
  }

  lemma LookupNamed(mds: seq<Deployment>, name: string)
    ensures Lookup(mds, name).Some? ==> Lookup(mds, name).value.name == name
  {
    IndexByFinds(mds, DeploymentName, name);
  }

  /** Patches that all ask for one number leave that number once one of them took effect. */
  lemma {:induction false} EffectiveLeaves(md: Deployment, events: seq<Event>, replicas: int)
    requires forall e :: e in events && e.PatchReplicas? && e.pool == md.name ==> e.replicas == replicas
    ensures md.replicas == Some(replicas) ==> AfterEvents(md, events).replicas == Some(replicas)
    ensures (exists e :: e in events && e.PatchReplicas? && e.pool == md.name && e.result.TookEffect()) ==>
              AfterEvents(md, events).replicas == Some(replicas)
  {
    if events != [] {
      var init, last := events[..|events| - 1], events[|events| - 1];
      assert events == init + [last];
      EffectiveLeaves(md, init, replicas);
      AfterEventsAppend(md, init, []);
    }
  }

  /** Over any number of passes for one revision, with any API faults and no outside edits: once a
      patch of a pool took effect (acknowledged or not), no later pass patches that pool again. */
  lemma {:induction false} PatchedAtMostOnce(doc: Doc, listings: seq<seq<Deployment>>, maxReplicas: int,
                                             fates: nat -> (nat -> CallResult), pool: WorkerPool, i: nat, j: nat, e: Event)
    requires UniqueBy(doc.pools, PoolName) && pool in doc.pools && i < j < |listings|
    requires forall t: nat :: t + 1 < |listings| ==> Follows(doc, listings, maxReplicas, fates, t)
    requires e in ScalePass(doc, Some(listings[i]), maxReplicas, fates(i)).events
             && e.PatchReplicas? && e.pool == pool.name && e.result.TookEffect()
    ensures Lookup(listings[j], pool.name).Some?
            && Lookup(listings[j], pool.name).value.replicas == Some(pool.desiredReplicas)
    ensures forall e' :: e' in ScalePass(doc, Some(listings[j]), maxReplicas, fates(j)).events && e'.PatchReplicas? ==>
              e'.pool != pool.name
    decreases j
  {
    hide ScalePass, Judge, Lookup, AfterEvents;
    var prev := listings[j - 1];
    var events := ScalePass(doc, Some(prev), maxReplicas, fates(j - 1)).events;
    if i < j - 1 { PatchedAtMostOnce(doc, listings, maxReplicas, fates, pool, i, j - 1, e); }
    else { PatchAttemptMeans(doc, prev, maxReplicas, fates(i), pool, e); }
    LookupNamed(prev, pool.name);
    forall x | x in events && x.PatchReplicas? && x.pool == pool.name ensures x.replicas == pool.desiredReplicas {
      PatchAttemptMeans(doc, prev, maxReplicas, fates(j - 1), pool, x);
    }
    EffectiveLeaves(Lookup(prev, pool.name).value, events, pool.desiredReplicas);
    assert Follows(doc, listings, maxReplicas, fates, j - 1);
    forall x | x in ScalePass(doc, Some(listings[j]), maxReplicas, fates(j)).events && x.PatchReplicas?
      ensures x.pool != pool.name
    {
      if x.pool == pool.name { PatchAttemptMeans(doc, listings[j], maxReplicas, fates(j), pool, x); }
    }
  }
}
