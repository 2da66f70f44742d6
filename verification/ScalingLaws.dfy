/** What a scaling pass does, exactly, in terms of the document, the listing and the answers. */
module ScalingLaws {
  import opened Common
  import opened Fleet
  import opened FleetLaws
  import opened Ordering
  import opened Scaling

  // ---------------------------------------------------------------- the pools of a pass

  /** A pass takes its pools in name order, all of them or the first 100. */
  lemma PassPoolsAreFirst(pools: seq<WorkerPool>)
    ensures var pass := PassPools(pools);
            && (forall i, j :: 0 <= i < j < |pass| ==> StringLe(pass[i].name, pass[j].name))
            && (forall p, q :: p in pass && q in pools && q !in pass ==> |pass| == 100 && StringLe(p.name, q.name))
            && (forall p :: p in pass ==> p in pools)
            && (|pools| <= 100 ==> multiset(pass) == multiset(pools))
  {
    var all, pass := Sort(pools, PoolLe), PassPools(pools);
    ByKeyPreorder(PoolName, PoolLe);
    SortSorted(pools, PoolLe);
    SortMembers(pools, PoolLe);
    hide Sort, StringLe;
    assert |pass| <= |all| && pass == all[..|pass|] && (|pass| < |all| ==> |pass| == 100);
    hide PassPools;
    assert all[..|all|] == all;
    forall i, j | 0 <= i < j < |all| ensures StringLe(all[i].name, all[j].name) { assert PoolLe(all[i], all[j]); }
    assert forall k :: 0 <= k < |pass| ==> pass[k] == all[k] && all[k] in pass;
    forall p, q | p in pass && q in pools && q !in pass ensures |pass| == 100 && StringLe(p.name, q.name) {
      var i :| 0 <= i < |pass| && pass[i] == p;
      var j :| 0 <= j < |all| && all[j] == q;
    }
  }

  // ---------------------------------------------------------------- one turn per pool

  /** The patch of this pool was sent and not accepted. */
  ghost predicate PatchFails(pools: seq<WorkerPool>, mds: seq<Deployment>, maxReplicas: int, fate: nat -> CallResult, i: nat)
    requires i < |pools|
  {
    Scalable(pools[i], mds, maxReplicas) && fate(i) != Ok
  }

  ghost predicate FailedBefore(pools: seq<WorkerPool>, mds: seq<Deployment>, maxReplicas: int, fate: nat -> CallResult,
                               k: nat)
    requires k <= |pools|
  {
    exists i: nat :: i < k && PatchFails(pools, mds, maxReplicas, fate, i)
  }

  function Say(revision: int, pool: WorkerPool, status: Status, detail: Detail): Event {
    Report(Action(Scale, pool.name, status, detail, revision))
  }

  /** What is said of a pool that is neither scalable nor sized, and why. */
  ghost predicate Refused(pool: WorkerPool, mds: seq<Deployment>, maxReplicas: int, detail: Detail) {
    match detail
    case NoSuchDeployment => forall md :: md in mds ==> md.name != pool.name
    case ControlPlanePool => exists md :: md in mds && md.name == pool.name && LooksControlPlane(md)
    case AutoscalerPool(key) =>
      exists md :: && md in mds && md.name == pool.name && !LooksControlPlane(md)
                   && key in md.annotations && AutoscalerAnnotation(key)
    case ReplicasOutOfRange(wanted, max) =>
      && wanted == pool.desiredReplicas && max == maxReplicas && !(0 <= wanted <= max)
      && exists md :: md in mds && md.name == pool.name && Eligible(md)
    case _ => false
  }

  /** What the pass adds for a pool it gets to. A nameless pool is passed over in silence, an invalid name
      refused outright; any other is pending first and then refused, confirmed, or patched. */
  ghost predicate ActsOn(revision: int, pool: WorkerPool, mds: seq<Deployment>, maxReplicas: int, result: CallResult,
                         added: seq<Event>) {
    if pool.name == "" then added == []
    else if |pool.name| > 253 || !Labels(pool.name) then added == [Say(revision, pool, Rejected, InvalidName)]
    else if Sized(pool, mds, maxReplicas) then
      added == [Say(revision, pool, Pending, NoDetail), Say(revision, pool, Done, AlreadyAt(pool.desiredReplicas))]
    else if Scalable(pool, mds, maxReplicas) then
      exists md :: md in mds && md.name == pool.name && Patches(revision, pool, md, result, added)
    else
      exists detail :: Refused(pool, mds, maxReplicas, detail)
                       && added == [Say(revision, pool, Pending, NoDetail), Say(revision, pool, Rejected, detail)]
  }

  ghost predicate Patches(revision: int, pool: WorkerPool, md: Deployment, result: CallResult, added: seq<Event>) {
    added == [Say(revision, pool, Pending, NoDetail),
              Say(revision, pool, InProgress, PatchingReplicas(pool.desiredReplicas)),
              PatchReplicas(pool.name, pool.desiredReplicas, result),
              if result == Ok then Say(revision, pool, Done, Scaled(md.replicas, pool.desiredReplicas))
              else Say(revision, pool, Rejected, PatchFailed(result))]
  }

  lemma RefusedMeans(pool: WorkerPool, mds: seq<Deployment>, maxReplicas: int)
    requires UniqueBy(mds, DeploymentName) && pool.name != "" && IsDNS1123Subdomain(pool.name)
    requires Judge(pool, Lookup(mds, pool.name), maxReplicas).Refuse?
    ensures Refused(pool, mds, maxReplicas, Judge(pool, Lookup(mds, pool.name), maxReplicas).detail)
  {
    hide IsControlPlane, AutoscalerKey, IsDNS1123Subdomain, Lookup, LooksControlPlane, AutoscalerAnnotation;
    LookupUnique(mds, pool.name);
    var found := Lookup(mds, pool.name);
    if found.Some? {
      ControlPlaneIff(found.value);
      AutoscalerIff(found.value);
    }
  }

  lemma ActsOnPool(revision: int, pool: WorkerPool, mds: seq<Deployment>, maxReplicas: int, result: CallResult)
    requires UniqueBy(mds, DeploymentName)
    ensures ActsOn(revision, pool, mds, maxReplicas, result,
                   ScaleOne(revision, pool, Lookup(mds, pool.name), maxReplicas, result))
  {
    hide IsControlPlane, AutoscalerKey, IsDNS1123Subdomain, Lookup, Scalable, Sized, Labels, Refused;
    SubdomainIff(pool.name);
    JudgeIff(pool, mds, maxReplicas);
    LookupUnique(mds, pool.name);
    var verdict := Judge(pool, Lookup(mds, pool.name), maxReplicas);
    var added := ScaleOne(revision, pool, Lookup(mds, pool.name), maxReplicas, result);
    if verdict.Patch? {
      assert Patches(revision, pool, Lookup(mds, pool.name).value, result, added);
    } else if verdict.Refuse? && IsDNS1123Subdomain(pool.name) {
      RefusedMeans(pool, mds, maxReplicas);
    }
  }

  ghost predicate PoolTurn(revision: int, pools: seq<WorkerPool>, mds: seq<Deployment>, maxReplicas: int,
                           fate: nat -> CallResult, i: nat, added: seq<Event>)
    requires i < |pools|
  {
    if FailedBefore(pools, mds, maxReplicas, fate, i) then
      added == [Say(revision, pools[i], Pending, QueuedBehindFailure)]
    else ActsOn(revision, pools[i], mds, maxReplicas, fate(i), added)
  }

  lemma {:induction false} HaltedIff(revision: int, pools: seq<WorkerPool>, k: nat, mds: seq<Deployment>, maxReplicas: int,
                                     fate: nat -> CallResult)
    requires k <= |pools| && UniqueBy(mds, DeploymentName)
    ensures ScaleAll(revision, pools, k, mds, maxReplicas, fate).halted <==> FailedBefore(pools, mds, maxReplicas, fate, k)
  {
    hide ScaleOne, Judge, Lookup, Scalable;
    if k > 0 {
      HaltedIff(revision, pools, k - 1, mds, maxReplicas, fate);
      JudgeIff(pools[k - 1], mds, maxReplicas);
      assert FailedBefore(pools, mds, maxReplicas, fate, k) <==>
               FailedBefore(pools, mds, maxReplicas, fate, k - 1) || PatchFails(pools, mds, maxReplicas, fate, k - 1);
    }
  }

  /** A pass over readable deployments is one turn per pool, in order: nothing but "queued" behind a patch
      that was not accepted, and otherwise what the document and the listing call for. */
  lemma TurnExact(revision: int, pools: seq<WorkerPool>, i: nat, mds: seq<Deployment>, maxReplicas: int,
                  fate: nat -> CallResult) returns (added: seq<Event>)
    requires i < |pools| && UniqueBy(mds, DeploymentName)
    ensures ScaleAll(revision, pools, i + 1, mds, maxReplicas, fate).events
         == ScaleAll(revision, pools, i, mds, maxReplicas, fate).events + added
    ensures PoolTurn(revision, pools, mds, maxReplicas, fate, i, added)
  {
    hide ScaleOne, Lookup, ActsOn, FailedBefore;
    HaltedIff(revision, pools, i, mds, maxReplicas, fate);
    ActsOnPool(revision, pools[i], mds, maxReplicas, fate(i));
    var st := ScaleAll(revision, pools, i, mds, maxReplicas, fate);
    added := if st.halted then [Say(revision, pools[i], Pending, QueuedBehindFailure)]
             else ScaleOne(revision, pools[i], Lookup(mds, pools[i].name), maxReplicas, fate(i));
  }

  // ---------------------------------------------------------------- which pools are patched

  /** The i-th pool of the pass is scalable and no patch before it has failed. */
  ghost predicate PatchedAt(pools: seq<WorkerPool>, mds: seq<Deployment>, maxReplicas: int, fate: nat -> CallResult, i: nat,
                            e: Event)
    requires i < |pools|
  {
    && e == PatchReplicas(pools[i].name, pools[i].desiredReplicas, fate(i))
    && Scalable(pools[i], mds, maxReplicas) && !FailedBefore(pools, mds, maxReplicas, fate, i)
  }

  /** A pool is not both; a scalable one has a valid name. */
  lemma ScalableNotSized(pool: WorkerPool, mds: seq<Deployment>, maxReplicas: int)
    requires UniqueBy(mds, DeploymentName) && Scalable(pool, mds, maxReplicas)
    ensures !Sized(pool, mds, maxReplicas) && pool.name != "" && |pool.name| <= 253 && Labels(pool.name)
  {
    LabelsAreDotted(pool.name);
    hide Labels, Judge, Lookup;
    JudgeIff(pool, mds, maxReplicas);
  }

  lemma TurnPatches(revision: int, pools: seq<WorkerPool>, mds: seq<Deployment>, maxReplicas: int, fate: nat -> CallResult,
                    i: nat, added: seq<Event>, e: Event)
    requires i < |pools| && PoolTurn(revision, pools, mds, maxReplicas, fate, i, added) && e.PatchReplicas?
    requires UniqueBy(mds, DeploymentName)
    ensures e in added <==> PatchedAt(pools, mds, maxReplicas, fate, i, e)
  {
    var pool := pools[i];
    hide FailedBefore, Refused, Scalable, Sized, Labels, UniqueBy;
    if Scalable(pool, mds, maxReplicas) {
      ScalableNotSized(pool, mds, maxReplicas);
      if !FailedBefore(pools, mds, maxReplicas, fate, i) {
        var md :| md in mds && md.name == pool.name && Patches(revision, pool, md, fate(i), added);
        assert added[2] == PatchReplicas(pool.name, pool.desiredReplicas, fate(i));
      }
    }
  }

  /** One of the first `k` pools was patched with this outcome. */
  ghost predicate PatchedBy(pools: seq<WorkerPool>, k: nat, mds: seq<Deployment>, maxReplicas: int,
                            fate: nat -> CallResult, e: Event)
    requires k <= |pools|
  {
    exists i: nat :: i < k && PatchedAt(pools, mds, maxReplicas, fate, i, e)
  }

  lemma PatchedNext(pools: seq<WorkerPool>, k: nat, mds: seq<Deployment>, maxReplicas: int, fate: nat -> CallResult,
                    e: Event)
    requires 0 < k <= |pools|
    ensures PatchedBy(pools, k, mds, maxReplicas, fate, e)
            <==> PatchedBy(pools, k - 1, mds, maxReplicas, fate, e) || PatchedAt(pools, mds, maxReplicas, fate, k - 1, e)
  {
    hide PatchedAt;
  }

  lemma {:induction false} PatchesSoFar(revision: int, pools: seq<WorkerPool>, k: nat, mds: seq<Deployment>,
                                        maxReplicas: int, fate: nat -> CallResult, e: Event)
    requires k <= |pools| && UniqueBy(mds, DeploymentName) && e.PatchReplicas?
    ensures e in ScaleAll(revision, pools, k, mds, maxReplicas, fate).events
            <==> PatchedBy(pools, k, mds, maxReplicas, fate, e)
  {
    if k == 0 {
      NothingYet(revision, pools, mds, maxReplicas, fate);
    } else {
      hide *;
      PatchesSoFar(revision, pools, k - 1, mds, maxReplicas, fate, e);
      var added := TurnExact(revision, pools, k - 1, mds, maxReplicas, fate);
      TurnPatches(revision, pools, mds, maxReplicas, fate, k - 1, added, e);
      PatchedNext(pools, k, mds, maxReplicas, fate, e);
    }
  }

  lemma NothingYet(revision: int, pools: seq<WorkerPool>, mds: seq<Deployment>, maxReplicas: int, fate: nat -> CallResult)
    ensures ScaleAll(revision, pools, 0, mds, maxReplicas, fate) == Progress(false, [])
  {
  }

  /** Exactly the scalable pools of the pass are patched, to the document's numbers, up to and including the
      first patch that is not accepted; that one, or an unreadable listing, is what asks for a retry. With a
      listing the pass is its turns (see TurnExact), without one it is a failure per pool. */
  lemma ScaledIff(doc: Doc, listing: Option<seq<Deployment>>, maxReplicas: int, fate: nat -> CallResult)
    requires listing.Some? ==> UniqueBy(listing.value, DeploymentName)
    ensures var pools, out := PassPools(doc.pools), ScalePass(doc, listing, maxReplicas, fate);
            && (forall e: Event :: e.PatchReplicas? ==>
                  (e in out.events <==>
                     listing.Some? && PatchedBy(pools, |pools|, listing.value, maxReplicas, fate, e)))
            && out.events ==
                 (if listing.Some? then ScaleAll(doc.revision, pools, |pools|, listing.value, maxReplicas, fate).events
                  else seq(|pools|, i requires 0 <= i < |pools| => Say(doc.revision, pools[i], Rejected, CannotList)))
            && (out.halted <==>
                  && doc.pools != []
                  && (listing.None? || FailedBefore(pools, listing.value, maxReplicas, fate, |pools|)))
  {
    var pools, out := PassPools(doc.pools), ScalePass(doc, listing, maxReplicas, fate);
    NoPools(doc.pools);
    hide ScaleAll, PatchedBy, PassPools, FailedBefore, UniqueBy;
    if listing.None? {
      CannotListEach(doc.revision, Scale, pools, |pools|);
      assert out.events == seq(|pools|, i requires 0 <= i < |pools| => Say(doc.revision, pools[i], Rejected, CannotList));
    } else {
      HaltedIff(doc.revision, pools, |pools|, listing.value, maxReplicas, fate);
      forall e: Event | e.PatchReplicas?
        ensures e in ScaleAll(doc.revision, pools, |pools|, listing.value, maxReplicas, fate).events
                <==> PatchedBy(pools, |pools|, listing.value, maxReplicas, fate, e)
      {
        PatchesSoFar(doc.revision, pools, |pools|, listing.value, maxReplicas, fate, e);
      }
      NothingYet(doc.revision, pools, listing.value, maxReplicas, fate);
    }
  }

  lemma NoPools(pools: seq<WorkerPool>)
    ensures PassPools(pools) == [] <==> pools == []
  {
  }

  /** When the listing fails, so does every pool of the pass, once each. */
  lemma {:induction false} CannotListEach(revision: int, kind: Kind, pools: seq<WorkerPool>, k: nat)
    requires k <= |pools|
    ensures CannotListAll(revision, kind, pools, k)
         == seq(k, i requires 0 <= i < k => Report(Action(kind, pools[i].name, Rejected, CannotList, revision)))
  {
    if k > 0 { CannotListEach(revision, kind, pools, k - 1); }
  }
}
