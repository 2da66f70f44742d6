/** What an upgrade pass does, exactly, in terms of the document, the listings and the answers. */
module RolloutExact {
  import opened Common
  import opened Fleet
  import opened FleetLaws
  import opened Ordering
  import opened Versions
  import opened PoolResolution
  import opened Scaling
  import opened ScalingLaws
  import opened Rollout
  import opened RolloutLaws

  // ---------------------------------------------------------------- the pre-flight

  lemma PreflightIff(target: string, observed: string)
    ensures CheckPreflight(target, observed).Proceed? <==> MayRoll(target, observed)
    ensures ParseMajorMinor(target).None? ==> CheckPreflight(target, observed) == Abort(false, InvalidTarget(target))
    ensures ParseMajorMinor(target).Some? && ParseMajorMinor(observed).None? ==>
              CheckPreflight(target, observed) == Abort(true, VersionUnknown)
    ensures ParseMajorMinor(target).Some? && ParseMajorMinor(observed).Some? && !MayRoll(target, observed) ==>
              CheckPreflight(target, observed) == Abort(true, BehindTarget(observed, target))
  {
    hide ParseMajorMinor;
  }

  /** On printed versions the pre-flight compares the numbers: it lets pass exactly a control plane whose
      (major, minor) is not behind the target's, and waits for any other. */
  lemma PreflightOnPrinted(v: bool, tMajor: nat, tMinor: nat, tRest: string, w: bool, oMajor: nat, oMinor: nat, oRest: string)
    requires tMajor <= MAX_INT && tMinor <= MAX_INT && (tRest == [] || !IsDigit(tRest[0]))
    requires oMajor <= MAX_INT && oMinor <= MAX_INT && (oRest == [] || !IsDigit(oRest[0]))
    ensures var target, observed := Printed(v, tMajor, tMinor) + tRest, Printed(w, oMajor, oMinor) + oRest;
            CheckPreflight(target, observed)
              == if oMajor > tMajor || (oMajor == tMajor && oMinor >= tMinor) then Proceed
                 else Abort(true, BehindTarget(observed, target))
  {
    ParseRecoversPrinted(v, tMajor, tMinor, tRest);
    ParseRecoversPrinted(w, oMajor, oMinor, oRest);
    hide ParseMajorMinor, Printed;
    PreflightIff(Printed(v, tMajor, tMinor) + tRest, Printed(w, oMajor, oMinor) + oRest);
  }

  // ---------------------------------------------------------------- a pool, on the listings

  /** The machine's owner has that name; a machine nobody owns belongs to "". */
  ghost predicate Belongs(mds: seq<Deployment>, m: Machine, pool: string) {
    match OwnerOf(mds, m) case Some(md) => md.name == pool case None => pool == ""
  }

  /** Where the pool's live machines are listed. */
  ghost function LiveAt(machines: seq<Machine>, mds: seq<Deployment>, pool: string): set<nat> {
    set i: nat | i < |machines| && !machines[i].deleting && Belongs(mds, machines[i], pool)
  }

  /** And where those of them that run the version with a node. */
  ghost function JoinedAt(machines: seq<Machine>, mds: seq<Deployment>, pool: string, version: string): set<nat> {
    set i: nat | && i < |machines| && !machines[i].deleting && Belongs(mds, machines[i], pool)
                 && SameVersion(machines[i].kubelet, version) && machines[i].nodeRef != ""
  }

  lemma BelongsIs(mds: seq<Deployment>, m: Machine, pool: string)
    ensures Belongs(mds, m, pool) <==> PoolNameOf(mds, m) == pool
  {
    hide OwnerOf;
  }

  lemma AtNext(machines: seq<Machine>, mds: seq<Deployment>, pool: string, version: string)
    requires machines != []
    ensures var n: nat, last := |machines| - 1, machines[|machines| - 1];
            var live := !last.deleting && Belongs(mds, last, pool);
            && LiveAt(machines, mds, pool) == LiveAt(machines[..n], mds, pool) + (if live then {n} else {})
            && JoinedAt(machines, mds, pool, version)
                 == JoinedAt(machines[..n], mds, pool, version)
                    + if live && SameVersion(last.kubelet, version) && last.nodeRef != "" then {n} else {}
  {
    hide Belongs, SameVersion;
  }

  /** The counting loop counts machines: all live ones of the pool, and those on the version with a node. */
  lemma {:induction false} CountIs(machines: seq<Machine>, mds: seq<Deployment>, pool: string, version: string)
    ensures CountPool(machines, mds, pool, version)
         == Count(|JoinedAt(machines, mds, pool, version)|, |LiveAt(machines, mds, pool)|)
  {
    hide PoolNameOf, Belongs, SameVersion;
    if machines == [] {
      assert LiveAt(machines, mds, pool) == {} == JoinedAt(machines, mds, pool, version);
    } else {
      var n: nat := |machines| - 1;
      CountIs(machines[..n], mds, pool, version);
      AtNext(machines, mds, pool, version);
      BelongsIs(mds, machines[n], pool);
      hide LiveAt, JoinedAt;
      assert n !in LiveAt(machines[..n], mds, pool) && n !in JoinedAt(machines[..n], mds, pool, version) by {
        BelowEnd(machines, n, mds, pool, version);
      }
    }
  }

  lemma BelowEnd(machines: seq<Machine>, n: nat, mds: seq<Deployment>, pool: string, version: string)
    requires n <= |machines|
    ensures n !in LiveAt(machines[..n], mds, pool) && n !in JoinedAt(machines[..n], mds, pool, version)
  {
  }

  /** A listed deployment under that name. */
  ghost predicate Listed(mds: seq<Deployment>, name: string, md: Deployment) { md in mds && md.name == name }

  /** May be acted on, and declares another version than the target. */
  ghost predicate ToRoll(md: Deployment, target: string) {
    Eligible(md) && md.kubelet != "" && !SameVersion(md.kubelet, target)
  }

  /** Fewer machines have joined on the version than live, or than are declared. */
  ghost predicate Lacking(machines: seq<Machine>, mds: seq<Deployment>, md: Deployment, version: string) {
    || |JoinedAt(machines, mds, md.name, version)| < |LiveAt(machines, mds, md.name)|
    || (md.replicas.Some? && |JoinedAt(machines, mds, md.name, version)| < md.replicas.value)
  }

  /** May be acted on, declares the target, and is not done. */
  ghost predicate IsRolling(machines: seq<Machine>, mds: seq<Deployment>, md: Deployment, target: string) {
    Eligible(md) && md.kubelet != "" && SameVersion(md.kubelet, target) && Lacking(machines, mds, md, target)
  }

  /** A pool's status, on the deployment listed under its name and the machines listed. */
  ghost predicate StatusOf(st: PoolStatus, mds: seq<Deployment>, machines: seq<Machine>, md: Deployment, target: string) {
    && st.found && st.current == md.kubelet
    && (st.controlPlane <==> LooksControlPlane(md))
    && (st.autoscaler.None? <==> forall key :: key in md.annotations ==> !AutoscalerAnnotation(key))
    && (st.autoscaler.Some? ==> st.autoscaler.value in md.annotations && AutoscalerAnnotation(st.autoscaler.value))
    && (st.atTarget <==> md.kubelet != "" && SameVersion(md.kubelet, target))
    && CountsOf(st, mds, machines, md, target)
  }

  ghost predicate CountsOf(st: PoolStatus, mds: seq<Deployment>, machines: seq<Machine>, md: Deployment, target: string) {
    var live := |LiveAt(machines, mds, md.name)|;
    && st.n == |JoinedAt(machines, mds, md.name, target)|
    && st.m == if md.replicas.Some? then Max(md.replicas.value, live) else live
  }

  lemma FoundStatus(md: Deployment, mds: seq<Deployment>, machines: seq<Machine>, target: string)
    requires Lookup(mds, md.name) == Some(md)
    ensures StatusOf(Observe(md.name, mds, machines, target), mds, machines, md, target)
  {
    hide CountPool, IsControlPlane, AutoscalerKey, LooksControlPlane, AutoscalerAnnotation, SameVersion, Lookup, LiveAt,
         JoinedAt;
    CountIs(machines, mds, md.name, target);
    ControlPlaneIff(md);
    AutoscalerIff(md);
  }

  /** A status in terms of the deployment alone: to be started, still rolling, or in need of the pre-flight. */
  lemma StatusMeans(st: PoolStatus, mds: seq<Deployment>, machines: seq<Machine>, md: Deployment, target: string)
    requires StatusOf(st, mds, machines, md, target)
    ensures st.Manageable() <==> Eligible(md)
    ensures st.Startable() <==> ToRoll(md, target)
    ensures st.MidRoll() <==> IsRolling(machines, mds, md, target)
    ensures st.NeedsRoll() <==> md.kubelet != "" && !SameVersion(md.kubelet, target)
    ensures st.Converged() <==> md.kubelet != "" && SameVersion(md.kubelet, target) && !Lacking(machines, mds, md, target)
  {
    hide IsControlPlane, AutoscalerKey, LooksControlPlane, AutoscalerAnnotation, SameVersion, LiveAt, JoinedAt;
    EligibleIff(md);
  }

  /** What is observed of the i-th pool. */
  lemma ObservedMeans(pools: seq<WorkerPool>, i: nat, mds: seq<Deployment>, machines: seq<Machine>, target: string)
    requires i < |pools| && UniqueBy(mds, DeploymentName)
    ensures var st := ObserveAll(pools, mds, machines, target)[i];
            && st.name == pools[i].name
            && (st.found <==> exists md :: Listed(mds, pools[i].name, md))
            && (forall md :: Listed(mds, pools[i].name, md) ==> StatusOf(st, mds, machines, md, target))
            && (!st.found ==> !st.Startable() && !st.MidRoll() && !st.NeedsRoll() && !st.Converged())
  {
    hide Lookup, StatusOf, RollProgress, IsControlPlane, AutoscalerKey, SameVersion;
    LookupUnique(mds, pools[i].name);
    if Lookup(mds, pools[i].name).Some? { assert Listed(mds, pools[i].name, Lookup(mds, pools[i].name).value); }
    forall md | Listed(mds, pools[i].name, md)
      ensures StatusOf(ObserveAll(pools, mds, machines, target)[i], mds, machines, md, target)
    {
      FoundStatus(md, mds, machines, target);
    }
  }

  ghost predicate PoolToRoll(mds: seq<Deployment>, pool: WorkerPool, target: string) {
    exists md :: Listed(mds, pool.name, md) && ToRoll(md, target)
  }

  ghost predicate PoolRolling(mds: seq<Deployment>, machines: seq<Machine>, pool: WorkerPool, target: string) {
    exists md :: Listed(mds, pool.name, md) && IsRolling(machines, mds, md, target)
  }

  ghost predicate PoolOff(mds: seq<Deployment>, pool: WorkerPool, target: string) {
    exists md :: Listed(mds, pool.name, md) && md.kubelet != "" && !SameVersion(md.kubelet, target)
  }

  lemma ObservedIff(pools: seq<WorkerPool>, i: nat, mds: seq<Deployment>, machines: seq<Machine>, target: string)
    requires i < |pools| && UniqueBy(mds, DeploymentName)
    ensures var st := ObserveAll(pools, mds, machines, target)[i];
            && st.name == pools[i].name
            && (st.Startable() <==> PoolToRoll(mds, pools[i], target))
            && (st.MidRoll() <==> PoolRolling(mds, machines, pools[i], target))
            && (st.NeedsRoll() <==> PoolOff(mds, pools[i], target))
  {
    ObservedMeans(pools, i, mds, machines, target);
    hide StatusOf, ToRoll, IsRolling, SameVersion, ObserveAll, UniqueBy;
    var st := ObserveAll(pools, mds, machines, target)[i];
    if st.found {
      var md :| Listed(mds, pools[i].name, md);
      StatusMeans(st, mds, machines, md, target);
      forall other | Listed(mds, pools[i].name, other) ensures StatusOf(st, mds, machines, other, target) {}
      forall other | Listed(mds, pools[i].name, other)
        ensures (st.Startable() <==> ToRoll(other, target)) && (st.MidRoll() <==> IsRolling(machines, mds, other, target))
        ensures st.NeedsRoll() <==> other.kubelet != "" && !SameVersion(other.kubelet, target)
      {
        StatusMeans(st, mds, machines, other, target);
      }
    }
  }

  // ---------------------------------------------------------------- which pool is patched

  /** The first pool that a pass has to start, with nothing still rolling. */
  ghost predicate NextToRoll(statuses: seq<PoolStatus>, i: nat) {
    && i < |statuses| && statuses[i].Startable() && !AnyMidRoll(statuses)
    && forall j :: 0 <= j < i ==> !statuses[j].Startable()
  }

  /** What the loop has done after `k` pools. */
  ghost predicate Patched(s: Roll, statuses: seq<PoolStatus>, k: nat, target: string, v: RollView) {
    && (forall e: Event :: e.PatchKubelet? ==>
          (e in s.events <==>
             exists i: nat :: i < k && NextToRoll(statuses, i) && e == PatchKubelet(statuses[i].name, target, v.fate(i))))
    && (s.halted <==> exists i: nat :: i < k && NextToRoll(statuses, i) && v.fate(i) != Ok)
    && (s.halted || s.rolling <==> AnyMidRoll(statuses) || exists i: nat :: i < k && NextToRoll(statuses, i))
  }

  lemma NextIsOne(statuses: seq<PoolStatus>, i: nat, j: nat)
    requires NextToRoll(statuses, i) && NextToRoll(statuses, j)
    ensures i == j
  {
  }

  lemma NextHere(statuses: seq<PoolStatus>, k: nat)
    requires k < |statuses| && statuses[k].Startable() && !AnyMidRoll(statuses)
    requires forall i: nat :: i < k ==> !NextToRoll(statuses, i)
    ensures NextToRoll(statuses, k)
  {
    if j: nat :| j < k && statuses[j].Startable() {
      var first := 0;
      while !statuses[first].Startable()
        invariant 0 <= first <= j && forall i :: 0 <= i < first ==> !statuses[i].Startable()
        decreases j - first
      {
        first := first + 1;
      }
      assert NextToRoll(statuses, first);
    }
  }

  lemma PatchedStep(s: Roll, revision: int, statuses: seq<PoolStatus>, k: nat, target: string, v: RollView)
    requires k < |statuses| && Patched(s, statuses, k, target, v)
    ensures Patched(RollStep(s, revision, statuses[k], target, v, v.fate(k)), statuses, k + 1, target, v)
    ensures Starts(s, statuses[k]) <==> NextToRoll(statuses, k)
  {
    hide RollStep, RollAdded, AnyMidRoll, NextToRoll;
    RollStepShape(s, revision, statuses[k], target, v, v.fate(k));
    RollAddedEvents(s, revision, statuses[k], target, v, v.fate(k));
    StartsIffNext(s, statuses, k, target, v);
    StartAdds(s, revision, statuses[k], target, v, v.fate(k));
    HaltsWhen(s, revision, statuses[k], target, v, v.fate(k));
  }

  lemma HaltsWhen(s: Roll, revision: int, st: PoolStatus, target: string, v: RollView, result: CallResult)
    ensures RollStep(s, revision, st, target, v, result).halted == (s.halted || (Starts(s, st) && result != Ok))
  {
    hide RollAdded, FromVersion;
  }

  lemma StartsIffNext(s: Roll, statuses: seq<PoolStatus>, k: nat, target: string, v: RollView)
    requires k < |statuses| && Patched(s, statuses, k, target, v)
    ensures Starts(s, statuses[k]) <==> NextToRoll(statuses, k)
  {
    hide AnyMidRoll;
    if Starts(s, statuses[k]) { NextHere(statuses, k); }
    if NextToRoll(statuses, k) {
      forall i: nat | i < k ensures !NextToRoll(statuses, i) {}
    }
  }

  lemma StartAdds(s: Roll, revision: int, st: PoolStatus, target: string, v: RollView, result: CallResult)
    ensures Starts(s, st) ==> PatchKubelet(st.name, target, result) in RollAdded(s, revision, st, target, v, result)
  {
    if Starts(s, st) {
      assert RollAdded(s, revision, st, target, v, result)[1] == PatchKubelet(st.name, target, result);
    }
  }

  lemma {:induction false} RollPatches(rollFrom: RollFrom, revision: int, statuses: seq<PoolStatus>, k: nat, target: string,
                                       v: RollView)
    requires k <= |statuses|
    ensures Patched(RollAll(rollFrom, revision, statuses, k, target, v), statuses, k, target, v)
  {
    hide *;
    if k == 0 {
      NonePatched(rollFrom, revision, statuses, target, v);
    } else {
      RollPatches(rollFrom, revision, statuses, k - 1, target, v);
      RollAllStep(rollFrom, revision, statuses, k, target, v);
      PatchedStep(RollAll(rollFrom, revision, statuses, k - 1, target, v), revision, statuses, k - 1, target, v);
    }
  }

  lemma NonePatched(rollFrom: RollFrom, revision: int, statuses: seq<PoolStatus>, target: string, v: RollView)
    ensures Patched(RollAll(rollFrom, revision, statuses, 0, target, v), statuses, 0, target, v)
  {
    hide AnyMidRoll, NextToRoll, RollStep;
    assert RollAll(rollFrom, revision, statuses, 0, target, v) == Roll(rollFrom, AnyMidRoll(statuses), false, false, []);
  }

  lemma RollAllStep(rollFrom: RollFrom, revision: int, statuses: seq<PoolStatus>, k: nat, target: string, v: RollView)
    requires 0 < k <= |statuses|
    ensures RollAll(rollFrom, revision, statuses, k, target, v)
         == RollStep(RollAll(rollFrom, revision, statuses, k - 1, target, v), revision, statuses[k - 1], target, v,
                     v.fate(k - 1))
  {
    hide RollStep;
  }

  /** The i-th pool is the first that declares another version, no pool of the pass is still rolling, and
      the control plane is not behind. */
  ghost predicate RollsNext(pools: seq<WorkerPool>, i: nat, target: string, v: RollView) {
    && i < |pools| && MayRoll(target, v.observed) && PoolToRoll(v.mds, pools[i], target)
    && (forall j: nat :: j < i ==> !PoolToRoll(v.mds, pools[j], target))
    && (forall j: nat :: j < |pools| ==> !PoolRolling(v.mds, v.machines, pools[j], target))
  }

  lemma NextMeans(pools: seq<WorkerPool>, i: nat, target: string, v: RollView)
    requires UniqueBy(v.mds, DeploymentName)
    ensures var statuses := ObserveAll(pools, v.mds, v.machines, target);
            NextToRoll(statuses, i) <==>
              && i < |pools| && PoolToRoll(v.mds, pools[i], target)
              && (forall j: nat :: j < i ==> !PoolToRoll(v.mds, pools[j], target))
              && (forall j: nat :: j < |pools| ==> !PoolRolling(v.mds, v.machines, pools[j], target))
  {
    hide PoolToRoll, PoolRolling, UniqueBy;
    var statuses := ObserveAll(pools, v.mds, v.machines, target);
    forall j: nat | j < |pools|
      ensures statuses[j].Startable() <==> PoolToRoll(v.mds, pools[j], target)
      ensures statuses[j].MidRoll() <==> PoolRolling(v.mds, v.machines, pools[j], target)
    {
      ObservedIff(pools, j, v.mds, v.machines, target);
    }
    hide ObserveAll;
    if i < |pools| && forall j: nat :: j < |pools| ==> !PoolRolling(v.mds, v.machines, pools[j], target) {
      assert !AnyMidRoll(statuses);
    }
    if j: nat :| j < |pools| && PoolRolling(v.mds, v.machines, pools[j], target) {
      assert statuses[j].MidRoll() && AnyMidRoll(statuses);
    }
  }

  lemma StatusNames(pools: seq<WorkerPool>, mds: seq<Deployment>, machines: seq<Machine>, target: string)
    ensures |ObserveAll(pools, mds, machines, target)| == |pools|
    ensures forall i :: 0 <= i < |pools| ==> ObserveAll(pools, mds, machines, target)[i].name == pools[i].name
  {
  }

  // ---------------------------------------------------------------- when it asks to be run again

  /** What the loop has answered after `k` pools. */
  ghost predicate Answered(s: Roll, statuses: seq<PoolStatus>, k: nat)
    requires k <= |statuses|
  {
    && (s.halted ==> s.retry)
    && (s.retry <==> exists i :: 0 <= i < k && (statuses[i].Startable() || statuses[i].MidRoll()))
  }

  lemma AnsweredStep(s: Roll, revision: int, statuses: seq<PoolStatus>, k: nat, target: string, v: RollView)
    requires k < |statuses| && Answered(s, statuses, k) && (statuses[k].atTarget ==> statuses[k].current != "")
    ensures Answered(RollStep(s, revision, statuses[k], target, v, v.fate(k)), statuses, k + 1)
  {
    hide RollAdded, FromVersion;
  }

  lemma {:induction false} RollAnswers(rollFrom: RollFrom, revision: int, statuses: seq<PoolStatus>, k: nat, target: string,
                                       v: RollView)
    requires k <= |statuses| && forall i :: 0 <= i < |statuses| ==> (statuses[i].atTarget ==> statuses[i].current != "")
    ensures Answered(RollAll(rollFrom, revision, statuses, k, target, v), statuses, k)
  {
    if k > 0 {
      hide Answered, RollStep;
      RollAnswers(rollFrom, revision, statuses, k - 1, target, v);
      AnsweredStep(RollAll(rollFrom, revision, statuses, k - 1, target, v), revision, statuses, k - 1, target, v);
    } else {
      hide AnyMidRoll;
    }
  }

  /** Some pool of the pass has to be started or is still rolling. */
  ghost predicate Unfinished(pools: seq<WorkerPool>, target: string, v: RollView) {
    exists i: nat :: i < |pools| && (PoolToRoll(v.mds, pools[i], target) || PoolRolling(v.mds, v.machines, pools[i], target))
  }

  /** Some pool of the pass declares another version, refused or not. */
  ghost predicate AnyOff(pools: seq<WorkerPool>, target: string, v: RollView) {
    exists i: nat :: i < |pools| && PoolOff(v.mds, pools[i], target)
  }

  lemma ObservedRetryIff(rollFrom: RollFrom, doc: Doc, v: RollView)
    requires UniqueBy(v.mds, DeploymentName)
    ensures var pools, target := RollPools(doc.pools), Target(doc);
            RollObserved(rollFrom, doc, v).retry <==>
              if AnyOff(pools, target, v) && !MayRoll(target, v.observed) then ParseMajorMinor(target).Some?
              else Unfinished(pools, target, v)
  {
    hide RollPools, Target, RollAll, PoolToRoll, PoolRolling, PoolOff, UniqueBy, CheckPreflight, MayRoll, ParseMajorMinor;
    var target, pools := Target(doc), RollPools(doc.pools);
    var statuses := ObserveAll(pools, v.mds, v.machines, target);
    PreflightIff(target, v.observed);
    forall i: nat | i < |pools|
      ensures statuses[i].Startable() <==> PoolToRoll(v.mds, pools[i], target)
      ensures statuses[i].MidRoll() <==> PoolRolling(v.mds, v.machines, pools[i], target)
      ensures statuses[i].NeedsRoll() <==> PoolOff(v.mds, pools[i], target)
      ensures statuses[i].atTarget ==> statuses[i].current != ""
    {
      ObservedIff(pools, i, v.mds, v.machines, target);
      AtTargetNamed(pools[i].name, v.mds, v.machines, target);
    }
    StatusNames(pools, v.mds, v.machines, target);
    hide ObserveAll;
    RollAnswers(rollFrom, doc.revision, statuses, |statuses|, target, v);
  }

  lemma AtTargetNamed(name: string, mds: seq<Deployment>, machines: seq<Machine>, target: string)
    ensures Observe(name, mds, machines, target).atTarget ==> Observe(name, mds, machines, target).current != ""
  {
    hide RollProgress, IsControlPlane, AutoscalerKey, SameVersion, Lookup;
  }

  /** The pass asks to be run again exactly when it has pools and a target and either cannot list, or waits
      for the control plane, or, behind the pre-flight, finds a pool to start or still rolling; started,
      failed and queued pools are among these. */
  lemma RollRetryIff(rollFrom: RollFrom, doc: Doc, mds: Option<seq<Deployment>>, machines: Option<seq<Machine>>,
                     observed: string, fate: nat -> CallResult)
    requires mds.Some? ==> UniqueBy(mds.value, DeploymentName)
    ensures var pools, target := RollPools(doc.pools), Target(doc);
            UpgradePass(rollFrom, doc, mds, machines, observed, fate).retry <==>
              && target != "" && pools != []
              && (mds.Some? && machines.Some? ==>
                    var v := RollView(mds.value, machines.value, observed, fate);
                    if AnyOff(pools, target, v) && !MayRoll(target, observed) then ParseMajorMinor(target).Some?
                    else Unfinished(pools, target, v))
  {
    hide RollPools, RollObserved, Target, AnyOff, Unfinished, CannotListAll, MayRoll, ParseMajorMinor;
    if mds.Some? && machines.Some? { ObservedRetryIff(rollFrom, doc, RollView(mds.value, machines.value, observed, fate)); }
  }

  // ---------------------------------------------------------------- what is reported

  function Tell(revision: int, pool: WorkerPool, status: Status, detail: Detail): Event {
    Report(Action(Upgrade, pool.name, status, detail, revision))
  }

  /** From which version to which, how many machines have joined there, out of how many. */
  ghost function Progress(from: string, md: Deployment, target: string, v: RollView): Detail {
    var live := |LiveAt(v.machines, v.mds, md.name)|;
    Rolling(from, target, |JoinedAt(v.machines, v.mds, md.name, target)|,
            if md.replicas.Some? then Max(md.replicas.value, live) else live)
  }

  /** Why a pool on another version is not rolled. */
  ghost predicate NotOurs(md: Deployment, detail: Detail) {
    if LooksControlPlane(md) then detail == ControlPlanePool
    else detail.AutoscalerPool? && detail.key in md.annotations && AutoscalerAnnotation(detail.key)
  }

  /** What is reported of a listed pool that is not started now, and remembered. Done is a pool of ours whose
      machines have all joined on the target, if its roll was seen; in progress is one that lacks some; and
      a pool on another version is refused or waits for its turn. */
  ghost predicate Remarked(memory: RollFrom, memory': RollFrom, revision: int, pool: WorkerPool, md: Deployment,
                           target: string, v: RollView, added: seq<Event>) {
    var same := SameVersion(md.kubelet, target);
    if md.kubelet != "" && Eligible(md) && same && Lacking(v.machines, v.mds, md, target) then
      var from := if pool.name in memory then memory[pool.name]
                  else DeriveFromVersion(v.machines, v.mds, pool.name, target);
      && added == [Tell(revision, pool, InProgress, Progress(from, md, target, v))]
      && memory' == memory[pool.name := from]
    else
      && memory' == memory
      && if md.kubelet == "" then added == [Tell(revision, pool, Rejected, NoKubeletVersion)]
         else if !Eligible(md) then
           if same then added == []
           else exists detail :: NotOurs(md, detail) && added == [Tell(revision, pool, Rejected, detail)]
         else if same then
           added == if pool.name !in memory then []
                    else [Tell(revision, pool, Done, Progress(memory[pool.name], md, target, v))]
         else added == [Tell(revision, pool, Pending, OnePoolAtATime)]
  }

  /** What is reported of the pool that is started, and remembered. */
  ghost predicate Started(memory: RollFrom, memory': RollFrom, revision: int, pool: WorkerPool, md: Deployment,
                          target: string, v: RollView, result: CallResult, added: seq<Event>) {
    var text := Progress(md.kubelet, md, target, v);
    && added == [Tell(revision, pool, InProgress, text), PatchKubelet(pool.name, target, result),
                 if result == Ok then Tell(revision, pool, InProgress, text)
                 else Tell(revision, pool, Rejected, PatchFailed(result))]
    && memory' == if result == Ok then memory[pool.name := md.kubelet] else memory
  }

  /** One pool's turn in the acting phase. */
  ghost predicate RollTurn(memory: RollFrom, memory': RollFrom, revision: int, pools: seq<WorkerPool>, k: nat,
                           target: string, v: RollView, added: seq<Event>)
    requires k < |pools|
  {
    var pool := pools[k];
    if RollsNext(pools, k, target, v) then
      exists md :: Listed(v.mds, pool.name, md) && Started(memory, memory', revision, pool, md, target, v, v.fate(k), added)
    else if exists i: nat :: i < k && RollsNext(pools, i, target, v) && v.fate(i) != Ok then
      added == [Tell(revision, pool, Pending, QueuedBehindFailure)] && memory' == memory
    else if forall md :: !Listed(v.mds, pool.name, md) then
      added == [Tell(revision, pool, Rejected, NoSuchDeployment)] && memory' == memory
    else
      exists md :: Listed(v.mds, pool.name, md) && Remarked(memory, memory', revision, pool, md, target, v, added)
  }

  lemma StartedMeans(s: Roll, revision: int, pool: WorkerPool, st: PoolStatus, md: Deployment, target: string, v: RollView,
                     result: CallResult)
    requires st.name == pool.name == md.name && StatusOf(st, v.mds, v.machines, md, target) && Starts(s, st)
    ensures Started(s.rollFrom, RollStep(s, revision, st, target, v, result).rollFrom, revision, pool, md, target, v, result,
                    RollAdded(s, revision, st, target, v, result))
  {
    hide LooksControlPlane, AutoscalerAnnotation, SameVersion, LiveAt, JoinedAt, FromVersion;
  }

  lemma RemarkedMeans(s: Roll, revision: int, pool: WorkerPool, st: PoolStatus, md: Deployment, target: string, v: RollView,
                      result: CallResult)
    requires st.name == pool.name == md.name && StatusOf(st, v.mds, v.machines, md, target) && !Starts(s, st) && !s.halted
    ensures Remarked(s.rollFrom, RollStep(s, revision, st, target, v, result).rollFrom, revision, pool, md, target, v,
                     RollAdded(s, revision, st, target, v, result))
  {
    hide LooksControlPlane, AutoscalerAnnotation, SameVersion, LiveAt, JoinedAt, DeriveFromVersion, IsControlPlane,
         AutoscalerKey;
    EligibleIff(md);
    StatusMeans(st, v.mds, v.machines, md, target);
    if md.kubelet != "" && !Eligible(md) && !SameVersion(md.kubelet, target) {
      var detail := if st.controlPlane then ControlPlanePool else AutoscalerPool(st.autoscaler.value);
      assert NotOurs(md, detail);
      assert RollAdded(s, revision, st, target, v, result) == [Tell(revision, pool, Rejected, detail)];
    }
  }

  lemma PassedOver(s: Roll, revision: int, pool: WorkerPool, st: PoolStatus, target: string, v: RollView, result: CallResult)
    requires st.name == pool.name && !Starts(s, st) && (s.halted || !st.found)
    ensures RollStep(s, revision, st, target, v, result).rollFrom == s.rollFrom
    ensures RollAdded(s, revision, st, target, v, result)
         == [if s.halted then Tell(revision, pool, Pending, QueuedBehindFailure)
             else Tell(revision, pool, Rejected, NoSuchDeployment)]
  {
    hide FromVersion;
  }

  lemma NextInPass(pools: seq<WorkerPool>, i: nat, target: string, v: RollView)
    requires UniqueBy(v.mds, DeploymentName) && (AnyOff(pools, target, v) ==> MayRoll(target, v.observed))
    ensures RollsNext(pools, i, target, v) <==> NextToRoll(ObserveAll(pools, v.mds, v.machines, target), i)
  {
    hide ObserveAll, NextToRoll, PoolRolling, MayRoll, UniqueBy;
    NextMeans(pools, i, target, v);
    if i < |pools| && PoolToRoll(v.mds, pools[i], target) { assert PoolOff(v.mds, pools[i], target); }
  }

  lemma TurnMeans(s: Roll, revision: int, pools: seq<WorkerPool>, k: nat, target: string, v: RollView)
    requires k < |pools| && UniqueBy(v.mds, DeploymentName) && (AnyOff(pools, target, v) ==> MayRoll(target, v.observed))
    requires var statuses := ObserveAll(pools, v.mds, v.machines, target);
             |statuses| == |pools| && Patched(s, statuses, k, target, v)
    ensures var st := ObserveAll(pools, v.mds, v.machines, target)[k];
            RollTurn(s.rollFrom, RollStep(s, revision, st, target, v, v.fate(k)).rollFrom, revision, pools, k, target, v,
                     RollAdded(s, revision, st, target, v, v.fate(k)))
  {
    var statuses := ObserveAll(pools, v.mds, v.machines, target);
    var st, pool := statuses[k], pools[k];
    PatchedStep(s, revision, statuses, k, target, v);
    ObservedMeans(pools, k, v.mds, v.machines, target);
    forall i: nat ensures RollsNext(pools, i, target, v) <==> NextToRoll(statuses, i) { NextInPass(pools, i, target, v); }
    hide ObserveAll, NextToRoll, RollsNext, RollStep, RollAdded, Remarked, Started, StatusOf, UniqueBy, AnyMidRoll;
    if Starts(s, st) {
      assert st.found;
      var md :| Listed(v.mds, pool.name, md);
      StartedMeans(s, revision, pool, st, md, target, v, v.fate(k));
    } else if s.halted || !st.found {
      PassedOver(s, revision, pool, st, target, v, v.fate(k));
    } else {
      var md :| Listed(v.mds, pool.name, md);
      RemarkedMeans(s, revision, pool, st, md, target, v, v.fate(k));
    }
  }

  /** Past the pre-flight the pass is one turn per pool, in name order. */
  lemma TurnExact(rollFrom: RollFrom, doc: Doc, v: RollView, k: nat) returns (added: seq<Event>)
    requires UniqueBy(v.mds, DeploymentName) && k < |RollPools(doc.pools)|
    requires AnyOff(RollPools(doc.pools), Target(doc), v) ==> MayRoll(Target(doc), v.observed)
    ensures var pools, target := RollPools(doc.pools), Target(doc);
            var statuses := ObserveAll(pools, v.mds, v.machines, target);
            |statuses| == |pools| &&
            var s, s' := RollAll(rollFrom, doc.revision, statuses, k, target, v),
                         RollAll(rollFrom, doc.revision, statuses, k + 1, target, v);
            && s'.events == s.events + added
            && RollTurn(s.rollFrom, s'.rollFrom, doc.revision, pools, k, target, v, added)
  {
    hide RollPools, Target, RollStep, RollAdded, RollTurn, AnyOff, MayRoll, AnyMidRoll;
    var pools, target := RollPools(doc.pools), Target(doc);
    var statuses := ObserveAll(pools, v.mds, v.machines, target);
    StatusNames(pools, v.mds, v.machines, target);
    RollPatches(rollFrom, doc.revision, statuses, k, target, v);
    var s := RollAll(rollFrom, doc.revision, statuses, k, target, v);
    added := RollAdded(s, doc.revision, statuses[k], target, v, v.fate(k));
    hide ObserveAll, Patched;
    RollAllStep(rollFrom, doc.revision, statuses, k + 1, target, v);
    RollStepShape(s, doc.revision, statuses[k], target, v, v.fate(k));
    TurnMeans(s, doc.revision, pools, k, target, v);
  }

  /** The failure of the i-th pool, if it is listed and not at the target. */
  ghost predicate FailsAt(revision: int, pools: seq<WorkerPool>, i: nat, mds: seq<Deployment>, target: string,
                          detail: Detail, e: Event)
    requires i < |pools|
  {
    && e == Tell(revision, pools[i], Rejected, detail)
    && exists md :: Listed(mds, pools[i].name, md) && (md.kubelet == "" || !SameVersion(md.kubelet, target))
  }

  ghost predicate FailsOne(revision: int, pools: seq<WorkerPool>, k: nat, mds: seq<Deployment>, target: string,
                           detail: Detail, e: Event)
    requires k <= |pools|
  {
    exists i: nat :: i < k && FailsAt(revision, pools, i, mds, target, detail, e)
  }

  lemma FailsNext(revision: int, pools: seq<WorkerPool>, k: nat, mds: seq<Deployment>, target: string, detail: Detail,
                  e: Event)
    requires 0 < k <= |pools|
    ensures FailsOne(revision, pools, k, mds, target, detail, e)
            <==> FailsOne(revision, pools, k - 1, mds, target, detail, e)
                 || FailsAt(revision, pools, k - 1, mds, target, detail, e)
  {
    hide FailsAt;
  }

  /** What an abort says of the pools. */
  ghost predicate Told(revision: int, pools: seq<WorkerPool>, mds: seq<Deployment>, target: string, detail: Detail,
                       events: seq<Event>) {
    forall e :: e in events <==> FailsOne(revision, pools, |pools|, mds, target, detail, e)
  }

  /** Before it the pass is its turns, or, with a pool on another version and the pre-flight not passed, one
      failure for each listed pool that is not at the target: the reason is the unreadable target, the
      unknown version, or the control plane that is behind. */
  lemma PassExact(rollFrom: RollFrom, doc: Doc, v: RollView)
    requires UniqueBy(v.mds, DeploymentName)
    ensures var pools, target := RollPools(doc.pools), Target(doc);
            var out, statuses := RollObserved(rollFrom, doc, v), ObserveAll(pools, v.mds, v.machines, target);
            if AnyOff(pools, target, v) && !MayRoll(target, v.observed) then
              && out.rollFrom == rollFrom
              && Told(doc.revision, pools, v.mds, target,
                      if ParseMajorMinor(target).None? then InvalidTarget(target)
                      else if ParseMajorMinor(v.observed).None? then VersionUnknown
                      else BehindTarget(v.observed, target),
                      out.events)
            else
              var s := RollAll(rollFrom, doc.revision, statuses, |statuses|, target, v);
              out.rollFrom == s.rollFrom && out.events == s.events
  {
    hide RollPools, Target, RollAll, PoolToRoll, PoolRolling, UniqueBy, CheckPreflight, MayRoll, ParseMajorMinor, Told;
    var target, pools := Target(doc), RollPools(doc.pools);
    var statuses := ObserveAll(pools, v.mds, v.machines, target);
    PreflightIff(target, v.observed);
    forall i: nat | i < |pools| ensures statuses[i].NeedsRoll() <==> PoolOff(v.mds, pools[i], target) {
      ObservedIff(pools, i, v.mds, v.machines, target);
    }
    StatusNames(pools, v.mds, v.machines, target);
    hide ObserveAll;
    var check := CheckPreflight(target, v.observed);
    if check.Abort? { AbortTells(doc.revision, pools, v.mds, v.machines, target, check.detail); }
  }

  ghost function AbortOf(revision: int, pools: seq<WorkerPool>, k: nat, mds: seq<Deployment>, machines: seq<Machine>,
                         target: string, detail: Detail): seq<Event>
    requires k <= |pools|
  {
    AbortReports(revision, ObserveAll(pools, mds, machines, target), k, detail)
  }

  lemma AbortTells(revision: int, pools: seq<WorkerPool>, mds: seq<Deployment>, machines: seq<Machine>, target: string,
                   detail: Detail)
    requires UniqueBy(mds, DeploymentName)
    ensures Told(revision, pools, mds, target, detail, AbortOf(revision, pools, |pools|, mds, machines, target, detail))
  {
    hide FailsOne, UniqueBy, AbortOf;
    forall e ensures e in AbortOf(revision, pools, |pools|, mds, machines, target, detail)
                     <==> FailsOne(revision, pools, |pools|, mds, target, detail, e) {
      AbortSays(revision, pools, |pools|, mds, machines, target, detail, e);
    }
  }

  lemma {:induction false} AbortSays(revision: int, pools: seq<WorkerPool>, k: nat, mds: seq<Deployment>,
                                     machines: seq<Machine>, target: string, detail: Detail, e: Event)
    requires k <= |pools| && UniqueBy(mds, DeploymentName)
    ensures e in AbortOf(revision, pools, k, mds, machines, target, detail)
            <==> FailsOne(revision, pools, k, mds, target, detail, e)
  {
    hide *;
    if k == 0 {
      NoneFails(revision, pools, mds, machines, target, detail, e);
    } else {
      AbortSays(revision, pools, k - 1, mds, machines, target, detail, e);
      AbortAt(revision, pools, k, mds, machines, target, detail, e);
      AbortStep(revision, pools, k, mds, machines, target, detail);
      FailsNext(revision, pools, k, mds, target, detail, e);
    }
  }

  lemma NoneFails(revision: int, pools: seq<WorkerPool>, mds: seq<Deployment>, machines: seq<Machine>, target: string,
                  detail: Detail, e: Event)
    ensures e !in AbortOf(revision, pools, 0, mds, machines, target, detail)
    ensures !FailsOne(revision, pools, 0, mds, target, detail, e)
  {
    hide ObserveAll, FailsAt;
  }

  /** What the abort adds for the k-th pool. */
  ghost function AbortAdds(revision: int, pools: seq<WorkerPool>, k: nat, mds: seq<Deployment>, machines: seq<Machine>,
                           target: string, detail: Detail): seq<Event>
    requires k < |pools|
  {
    var st := Observe(pools[k].name, mds, machines, target);
    if st.found && !st.atTarget then [UpgradeReport(revision, st.name, Rejected, detail)] else []
  }

  lemma AbortStep(revision: int, pools: seq<WorkerPool>, k: nat, mds: seq<Deployment>, machines: seq<Machine>,
                  target: string, detail: Detail)
    requires 0 < k <= |pools|
    ensures AbortOf(revision, pools, k, mds, machines, target, detail)
         == AbortOf(revision, pools, k - 1, mds, machines, target, detail)
            + AbortAdds(revision, pools, k - 1, mds, machines, target, detail)
  {
    hide Observe;
  }

  lemma AbortAt(revision: int, pools: seq<WorkerPool>, k: nat, mds: seq<Deployment>, machines: seq<Machine>, target: string,
                detail: Detail, e: Event)
    requires 0 < k <= |pools| && UniqueBy(mds, DeploymentName)
    ensures e in AbortAdds(revision, pools, k - 1, mds, machines, target, detail)
            <==> FailsAt(revision, pools, k - 1, mds, target, detail, e)
  {
    ObservedMeans(pools, k - 1, mds, machines, target);
    hide Observe, UniqueBy, SameVersion, StatusOf;
    OffOrUnversioned(ObserveAll(pools, mds, machines, target)[k - 1], pools[k - 1].name, mds, machines, target);
  }

  lemma OffOrUnversioned(st: PoolStatus, name: string, mds: seq<Deployment>, machines: seq<Machine>, target: string)
    requires st.found <==> exists md :: Listed(mds, name, md)
    requires forall md :: Listed(mds, name, md) ==> StatusOf(st, mds, machines, md, target)
    ensures st.found && !st.atTarget <==>
              exists md :: Listed(mds, name, md) && (md.kubelet == "" || !SameVersion(md.kubelet, target))
  {
    hide SameVersion, JoinedAt, LiveAt, LooksControlPlane, AutoscalerAnnotation;
  }

  // ---------------------------------------------------------------- which patch is sent

  /** The upgrade pass sends at most one patch: to the target, of the first pool that declares another
      version, exactly when the listings are readable, no pool of the pass is still rolling and the
      observed control plane is not behind. */
  lemma KubeletPatchedIff(rollFrom: RollFrom, doc: Doc, mds: Option<seq<Deployment>>, machines: Option<seq<Machine>>,
                          observed: string, fate: nat -> CallResult, e: Event)
    requires (mds.Some? ==> UniqueBy(mds.value, DeploymentName)) && e.PatchKubelet?
    ensures e in UpgradePass(rollFrom, doc, mds, machines, observed, fate).events <==>
              && Target(doc) != "" && mds.Some? && machines.Some?
              && exists i: nat ::
                   && RollsNext(RollPools(doc.pools), i, Target(doc), RollView(mds.value, machines.value, observed, fate))
                   && e == PatchKubelet(RollPools(doc.pools)[i].name, Target(doc), fate(i))
  {
    hide RollPools, RollObserved, Target, RollsNext, CannotListAll;
    var pools := RollPools(doc.pools);
    CannotListOnly(doc.revision, Upgrade, pools, |pools|);
    if mds.Some? && machines.Some? {
      ObservedPatchedIff(rollFrom, doc, RollView(mds.value, machines.value, observed, fate), e);
    }
    assert pools == [] ==> forall i: nat, v :: !RollsNext(pools, i, Target(doc), v) by { NothingNext(Target(doc)); }
  }

  lemma NothingNext(target: string)
    ensures forall i: nat, v :: !RollsNext([], i, target, v)
  {
  }

  lemma ObservedPatchedIff(rollFrom: RollFrom, doc: Doc, v: RollView, e: Event)
    requires UniqueBy(v.mds, DeploymentName) && e.PatchKubelet?
    ensures e in RollObserved(rollFrom, doc, v).events <==>
              exists i: nat :: && RollsNext(RollPools(doc.pools), i, Target(doc), v)
                               && e == PatchKubelet(RollPools(doc.pools)[i].name, Target(doc), v.fate(i))
  {
    var target, pools := Target(doc), RollPools(doc.pools);
    hide RollPools, Target, ObserveAll, RollAll, RollObserved, UniqueBy, NextToRoll, AnyOff, PoolToRoll, PoolRolling, MayRoll;
    PassExact(rollFrom, doc, v);
    if AnyOff(pools, target, v) && !MayRoll(target, v.observed) {
      assert forall i: nat :: !RollsNext(pools, i, target, v);
      assert e !in RollObserved(rollFrom, doc, v).events;
    } else {
      var statuses := ObserveAll(pools, v.mds, v.machines, target);
      RollPatches(rollFrom, doc.revision, statuses, |statuses|, target, v);
      StatusNames(pools, v.mds, v.machines, target);
      forall i: nat ensures RollsNext(pools, i, target, v) <==> NextToRoll(statuses, i) { NextInPass(pools, i, target, v); }
      hide RollsNext;
      assert forall i: nat :: NextToRoll(statuses, i) ==> i < |statuses| by { NextInRange(statuses); }
    }
  }

  lemma NextInRange(statuses: seq<PoolStatus>)
    ensures forall i: nat :: NextToRoll(statuses, i) ==> i < |statuses|
  {
  }

  // ---------------------------------------------------------------- which pools, and to what

  /** A pass rolls the validly named pools of the document, in name order, all of them or the first 100. */
  lemma RollPoolsAreFirst(pools: seq<WorkerPool>)
    ensures var pass := RollPools(pools);
            && (forall i, j :: 0 <= i < j < |pass| ==> StringLe(pass[i].name, pass[j].name))
            && (forall p :: p in pass ==> p in pools && |p.name| <= 253 && Labels(p.name))
            && (forall p, q :: p in pass && q in pools && |q.name| <= 253 && Labels(q.name) && q !in pass ==>
                  |pass| == 100 && StringLe(p.name, q.name))
            && (pass == [] ==> forall q :: q in pools ==> |q.name| > 253 || !Labels(q.name))
  {
    hide StringLe, PassPools, IsDNS1123Subdomain, Labels;
    var valid := Filter(pools, ValidName);
    PassPoolsAreFirst(valid);
    NoPools(valid);
    forall q ensures ValidName(q) <==> |q.name| <= 253 && Labels(q.name) { NameIsValid(q); }
  }

  lemma NameIsValid(q: WorkerPool)
    ensures ValidName(q) <==> |q.name| <= 253 && Labels(q.name)
  {
    SubdomainIff(q.name);
    if Labels(q.name) { LabelsAreDotted(q.name); }
  }

  /** The target is the declared version without its padding; none is declared by a blank one. */
  lemma TargetTrims(doc: Doc, pre: string, core: string, post: string)
    requires AllBlank(pre) && AllBlank(post) && Bare(core)
    ensures doc.kubernetesVersion == Some(pre + core + post) ==> Target(doc) == core
    ensures doc.kubernetesVersion == None ==> Target(doc) == ""
  {
    TrimUndoes(pre, core, post);
  }
}
