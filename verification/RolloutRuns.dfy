/** One roll at a time over whole runs: the stages of Reconcile calls, interleaved with a machine
    controller that replaces machines but neither edits versions nor un-converges a pool. */
module RolloutRuns {
  import opened Common
  import opened Fleet
  import opened Versions
  import opened PoolResolution
  import opened Scaling
  import opened Rollout
  import opened RolloutLaws
  import opened Unwedge
  import E = ExecutorSpec
  import P = Healing
  import H = HealingLaws

  datatype Cluster = Cluster(mds: seq<Deployment>, machines: seq<Machine>)

  function At(c: Cluster, doc: Doc, name: string): PoolStatus {
    Observe(name, c.mds, c.machines, Target(doc))
  }

  function DesiredNames(doc: Doc): set<string> {
    set p | p in RollPools(doc.pools) :: p.name
  }

  ghost function MidRollNames(c: Cluster, doc: Doc): set<string> {
    set n | n in DesiredNames(doc) && At(c, doc, n).MidRoll()
  }

  ghost predicate WellFormed(c: Cluster) { UniqueBy(c.mds, DeploymentName) }

  // ---------------------------------------------------------------- the environment

  /** Machines come and go, but nobody else edits a desired pool's version or its manageability,
      and a converged pool stays converged. */
  ghost predicate EnvStep(c: Cluster, c': Cluster, doc: Doc) {
    && WellFormed(c')
    && forall n :: n in DesiredNames(doc) ==>
         var s, s' := At(c, doc, n), At(c', doc, n);
         && s'.found == s.found && s'.controlPlane == s.controlPlane && s'.autoscaler == s.autoscaler
         && s'.current == s.current && (s.Converged() ==> s'.Converged())
  }

  lemma AtTargetMeans(c: Cluster, doc: Doc, n: string)
    ensures var s := At(c, doc, n);
            s.atTarget <==> s.found && s.current != "" && SameVersion(s.current, Target(doc))
  {
  }

  lemma EnvKeeps(c: Cluster, c': Cluster, doc: Doc, n: string)
    requires EnvStep(c, c', doc) && n in DesiredNames(doc)
    ensures At(c', doc, n).Manageable() == At(c, doc, n).Manageable()
    ensures At(c', doc, n).atTarget == At(c, doc, n).atTarget && At(c', doc, n).Startable() == At(c, doc, n).Startable()
    ensures At(c', doc, n).MidRoll() ==> At(c, doc, n).MidRoll()
  {
    AtTargetMeans(c, doc, n);
    AtTargetMeans(c', doc, n);
  }

  // ---------------------------------------------------------------- the steps

  datatype Stage = Scales | Rolls | Heals

  /** What a stage starts from and meets: the executor's memory and settings, the order in which the
      healer walks its map, and everything read and answered. */
  datatype Inputs = Inputs(memory: E.Memory, settings: E.Settings, order: seq<string>, view: E.Reads)

  function StageEvents(stage: Stage, doc: Doc, i: Inputs): seq<Event> {
    match stage
    case Scales => E.ScaleStage(i.memory, i.settings, doc, i.view).events
    case Rolls => E.UpgradeStage(i.memory, doc, i.view).events
    case Heals => E.HealStage(i.memory, i.settings, doc, i.order, i.view).events
  }

  predicate Fresh<T(==)>(listing: Option<T>, actual: T) { listing.None? || listing.value == actual }

  /** What the stage lists, when the listing succeeds, is the cluster; healing visits every
      tracked deletion. */
  ghost predicate Lists(c: Cluster, doc: Doc, stage: Stage, i: Inputs) {
    match stage
    case Scales => Fresh(i.view.scaleMds, c.mds)
    case Rolls => Fresh(i.view.rollMds, c.mds) && Fresh(i.view.rollMachines, c.machines)
    case Heals =>
      && Fresh(i.view.healMds, c.mds) && Fresh(i.view.healMachines, c.machines)
      && (HealingArmed(doc) && i.view.HealReadable() ==> Enumerates(i.order, i.memory.tracked))
  }

  /** The events are those of the stage, run on the cluster with some inputs. */
  ghost predicate Performs(c: Cluster, doc: Doc, stage: Stage, events: seq<Event>) {
    exists i :: Lists(c, doc, stage, i) && events == StageEvents(stage, doc, i)
  }

  /** The environment moves, or one stage of a Reconcile call runs: it lists the cluster and writes,
      and by the time its writes land the environment may have moved on to `live`. */
  datatype Step = Env | Act(stage: Stage, events: seq<Event>, live: Cluster)

  /** The cluster once the writes that took effect have done so. */
  ghost function Effect(c: Cluster, events: seq<Event>): Cluster {
    Cluster(AfterPass(c.mds, events), H.AfterDeletions(c.machines, H.Hits(events)))
  }

  ghost predicate Next(c: Cluster, doc: Doc, s: Step, c': Cluster) {
    match s
    case Env => EnvStep(c, c', doc)
    case Act(stage, events, live) =>
      Performs(c, doc, stage, events) && EnvStep(c, live, doc) && c' == Effect(live, events)
  }

  ghost predicate StepAt(run: seq<Cluster>, doc: Doc, steps: seq<Step>, k: nat)
    requires k < |steps| == |run| - 1
  {
    Next(run[k], doc, steps[k], run[k + 1])
  }

  /** A run: every state follows from the one before by its step. */
  ghost predicate IsRun(run: seq<Cluster>, doc: Doc, steps: seq<Step>) {
    |run| == |steps| + 1 && forall k: nat :: k < |steps| ==> StepAt(run, doc, steps, k)
  }

  // ---------------------------------------------------------------- the effect of a patch

  /** Patches change neither names nor selectors, so machines keep their pools. */
  lemma {:induction false} AfterEventsFrame(md: Deployment, events: seq<Event>)
    ensures var md' := AfterEvents(md, events);
            md'.name == md.name && md'.selector == md.selector && md'.labelKeys == md.labelKeys
            && md'.annotations == md.annotations
  {
    if events != [] { AfterEventsFrame(md, events[..|events| - 1]); }
  }

  lemma AfterPassUnique(mds: seq<Deployment>, events: seq<Event>)
    requires UniqueBy(mds, DeploymentName)
    ensures UniqueBy(AfterPass(mds, events), DeploymentName)
  {
    var mds' := AfterPass(mds, events);
    forall i, j | 0 <= i < j < |mds'| ensures DeploymentName(mds'[i]) != DeploymentName(mds'[j]) {
      AfterEventsFrame(mds[i], events);
      AfterEventsFrame(mds[j], events);
      assert DeploymentName(mds[i]) != DeploymentName(mds[j]);
    }
  }

  lemma IsOwnerCarries(mds: seq<Deployment>, events: seq<Event>, m: Machine, md: Deployment)
    requires UniqueBy(mds, DeploymentName) && IsOwner(mds, m, md)
    ensures IsOwner(AfterPass(mds, events), m, AfterEvents(md, events))
  {
    var mds', md' := AfterPass(mds, events), AfterEvents(md, events);
    AfterEventsFrame(md, events);
    var at :| 0 <= at < |mds| && mds[at] == md;
    assert mds'[at] == md';
    forall other' | other' in mds'
      ensures exists other :: other in mds && other.name == other'.name && (Claims(other', m) <==> Claims(other, m))
    {
      var j :| 0 <= j < |mds'| && mds'[j] == other';
      AfterEventsFrame(mds[j], events);
      assert mds[j] in mds;
    }
    if !Claims(md, m) {
      var i: nat :| NamedByOwner(mds, m, i, md) && forall j: nat, other :: j < i ==> !NamedByOwner(mds, m, j, other);
      assert NamedByOwner(mds', m, i, md');
      NotNamedCarries(mds, mds', m, i);
    }
  }

  /** Which owner references name a deployment depends on the deployments' names alone. */
  lemma NotNamedCarries(mds: seq<Deployment>, mds': seq<Deployment>, m: Machine, i: nat)
    requires forall other' :: other' in mds' ==> exists other :: other in mds && other.name == other'.name
    requires forall j: nat, other :: j < i ==> !NamedByOwner(mds, m, j, other)
    ensures forall j: nat, other' :: j < i ==> !NamedByOwner(mds', m, j, other')
  {
    forall j: nat, other' | j < i && other' in mds' ensures !NamedByOwner(mds', m, j, other') {
      var other :| other in mds && other.name == other'.name;
      assert !NamedByOwner(mds, m, j, other);
    }
  }

  lemma PoolNameStable(mds: seq<Deployment>, events: seq<Event>, m: Machine)
    requires UniqueBy(mds, DeploymentName)
    ensures PoolNameOf(AfterPass(mds, events), m) == PoolNameOf(mds, m)
  {
    var mds' := AfterPass(mds, events);
    AfterPassUnique(mds, events);
    PoolForSound(mds, m);
    PoolForSound(mds', m);
    if OwnerOf(mds, m).Some? {
      var md := OwnerOf(mds, m).value;
      AfterEventsFrame(md, events);
      IsOwnerCarries(mds, events, m, md);
      OwnerUnique(mds', m, AfterEvents(md, events), OwnerOf(mds', m).value);
    } else if OwnerOf(mds', m).Some? {
      NoOwnerCarries(mds, events, m, OwnerOf(mds', m).value);
    }
  }

  /** Backwards: an owner after the patches was one before. */
  lemma NoOwnerCarries(mds: seq<Deployment>, events: seq<Event>, m: Machine, md': Deployment)
    requires UniqueBy(mds, DeploymentName) && IsOwner(AfterPass(mds, events), m, md')
    ensures exists md :: IsOwner(mds, m, md)
  {
    var mds' := AfterPass(mds, events);
    var at :| 0 <= at < |mds'| && mds'[at] == md';
    var md := mds[at];
    forall j | 0 <= j < |mds| ensures mds'[j].name == mds[j].name && (Claims(mds'[j], m) <==> Claims(mds[j], m)) {
      AfterEventsFrame(mds[j], events);
    }
    forall other | other in mds ensures exists other' :: other' in mds' && other'.name == other.name
                                          && (Claims(other', m) <==> Claims(other, m)) {
      var j :| 0 <= j < |mds| && mds[j] == other;
      assert mds'[j] in mds';
    }
    if !Claims(md', m) {
      var i: nat :| NamedByOwner(mds', m, i, md') && forall j: nat, other :: j < i ==> !NamedByOwner(mds', m, j, other);
      assert NamedByOwner(mds, m, i, md);
      NotNamedCarries(mds', mds, m, i);
    }
    assert IsOwner(mds, m, md);
  }

  // ---------------------------------------------------------------- the effect of a stage

  /** No event but a kubelet patch to the target changes a version. */
  ghost predicate TargetOnly(doc: Doc, events: seq<Event>) {
    forall e :: e in events && e.PatchKubelet? ==> e.version == Target(doc)
  }

  /** The live machines the stage leaves. */
  function Spared(machines: seq<Machine>, hit: set<string>): seq<Machine> {
    if machines == [] then []
    else Spared(machines[..|machines| - 1], hit)
         + if machines[|machines| - 1].name in hit then [] else [machines[|machines| - 1]]
  }

  function CountOne(mds: seq<Deployment>, pool: string, target: string, m: Machine): Count {
    if !InPool(mds, pool, m) then Count(0, 0) else Count(if AtVersion(m, target) then 1 else 0, 1)
  }

  lemma CountSnoc(init: seq<Machine>, last: Machine, mds: seq<Deployment>, pool: string, target: string)
    ensures var a, b := CountPool(init, mds, pool, target), CountOne(mds, pool, target, last);
            CountPool(init + [last], mds, pool, target) == Count(a.n + b.n, a.m + b.m)
  {
    hide PoolNameOf, SameVersion;
    assert (init + [last])[..|init|] == init;
  }

  /** One machine counts after a stage as it did before, unless it was deleted. */
  lemma CountOneAfter(m: Machine, mds: seq<Deployment>, events: seq<Event>, pool: string, target: string)
    requires UniqueBy(mds, DeploymentName)
    ensures CountOne(AfterPass(mds, events), pool, target, m) == CountOne(mds, pool, target, m)
    ensures CountOne(AfterPass(mds, events), pool, target, m.(deleting := true)) == Count(0, 0)
  {
    hide AfterPass, PoolNameOf, SameVersion, UniqueBy;
    PoolNameStable(mds, events, m);
  }

  lemma LastMarked(init: seq<Machine>, last: Machine, hit: set<string>)
    ensures H.AfterDeletions(init + [last], hit)
         == H.AfterDeletions(init, hit) + [if last.name in hit then last.(deleting := true) else last]
    ensures Spared(init + [last], hit) == Spared(init, hit) + if last.name in hit then [] else [last]
  {
    assert (init + [last])[..|init|] == init;
  }

  lemma NoneCounted(hit: set<string>, mds: seq<Deployment>, events: seq<Event>, pool: string, target: string)
    ensures CountPool(H.AfterDeletions([], hit), AfterPass(mds, events), pool, target) == Count(0, 0)
    ensures CountPool(Spared([], hit), mds, pool, target) == Count(0, 0)
  {
    hide AfterPass;
  }

  /** A pool's machines are counted as if the deleted ones were gone, whatever was patched. */
  lemma {:induction false} CountAfter(machines: seq<Machine>, hit: set<string>, mds: seq<Deployment>,
                                      events: seq<Event>, pool: string, target: string)
    requires UniqueBy(mds, DeploymentName)
    ensures CountPool(H.AfterDeletions(machines, hit), AfterPass(mds, events), pool, target)
         == CountPool(Spared(machines, hit), mds, pool, target)
  {
    hide *;
    if machines == [] {
      NoneCounted(hit, mds, events, pool, target);
    } else {
      var init, last := machines[..|machines| - 1], machines[|machines| - 1];
      assert machines == init + [last];
      LastMarked(init, last, hit);
      CountAfter(init, hit, mds, events, pool, target);
      CountOneAfter(last, mds, events, pool, target);
      CountSnoc(H.AfterDeletions(init, hit), if last.name in hit then last.(deleting := true) else last,
                AfterPass(mds, events), pool, target);
      if last.name in hit {
        assert Spared(machines, hit) == Spared(init, hit);
      } else {
        CountSnoc(Spared(init, hit), last, mds, pool, target);
      }
    }
  }

  lemma LookupAfter(mds: seq<Deployment>, events: seq<Event>, name: string)
    requires UniqueBy(mds, DeploymentName)
    ensures Lookup(AfterPass(mds, events), name)
         == (match Lookup(mds, name) case None => None case Some(md) => Some(AfterEvents(md, events)))
  {
    var mds' := AfterPass(mds, events);
    AfterPassUnique(mds, events);
    LookupUnique(mds, name);
    LookupUnique(mds', name);
    if Lookup(mds, name).Some? {
      var i :| 0 <= i < |mds| && mds[i] == Lookup(mds, name).value;
      AfterEventsFrame(mds[i], events);
      assert mds'[i] in mds';
    } else {
      forall i | 0 <= i < |mds'| ensures mds'[i].name != name {
        AfterEventsFrame(mds[i], events);
        assert mds[i] in mds;
      }
    }
  }

  /** A name in DesiredNames is not a control-plane verdict away: manageability reads only what
      patches leave alone. */
  lemma ManageabilityFrame(md: Deployment, md': Deployment)
    requires md'.name == md.name && md'.labelKeys == md.labelKeys && md'.annotations == md.annotations
    ensures IsControlPlane(md') == IsControlPlane(md) && AutoscalerKey(md') == AutoscalerKey(md)
  {
  }

  ghost predicate PatchedBy(events: seq<Event>, n: string) {
    exists e :: e in events && e.PatchKubelet? && e.pool == n
  }

  ghost predicate RolledBy(events: seq<Event>, n: string) {
    exists e :: e in events && e.PatchKubelet? && e.pool == n && e.result.TookEffect()
  }

  lemma {:induction false} KubeletAfter(md: Deployment, events: seq<Event>, target: string)
    requires forall e :: e in events && e.PatchKubelet? ==> e.version == target
    ensures var md' := AfterEvents(md, events);
            (if RolledBy(events, md.name) then md'.kubelet == target else md'.kubelet == md.kubelet)
  {
    if events != [] {
      var init, last := events[..|events| - 1], events[|events| - 1];
      assert events == init + [last] && last in events;
      KubeletAfter(md, init, target);
      AfterEventsFrame(md, init);
      assert RolledBy(events, md.name) <==>
             RolledBy(init, md.name) || (last.PatchKubelet? && last.pool == md.name && last.result.TookEffect());
    }
  }

  /** What a stage changes in one pool's status: the version only by a kubelet patch of that pool,
      the counts only by deletions and the declared number. */
  lemma StatusAfter(c: Cluster, events: seq<Event>, doc: Doc, n: string)
    requires WellFormed(c) && TargetOnly(doc, events)
    ensures WellFormed(Effect(c, events))
    ensures var s, s' := At(c, doc, n), At(Effect(c, events), doc, n);
            && s'.found == s.found && s'.controlPlane == s.controlPlane && s'.autoscaler == s.autoscaler
            && s'.current == (if s.found && RolledBy(events, n) then Target(doc) else s.current)
            && (s.found ==>
                  var count := CountPool(Spared(c.machines, H.Hits(events)), c.mds, n, Target(doc));
                  s'.n == count.n && s'.m == Floored(count.m, AfterEvents(Lookup(c.mds, n).value, events).replicas))
  {
    AfterPassUnique(c.mds, events);
    LookupAfter(c.mds, events, n);
    LookupUnique(c.mds, n);
    if Lookup(c.mds, n).Some? {
      var md := Lookup(c.mds, n).value;
      AfterEventsFrame(md, events);
      ManageabilityFrame(md, AfterEvents(md, events));
      KubeletAfter(md, events, Target(doc));
      CountAfter(c.machines, H.Hits(events), c.mds, events, n, Target(doc));
    }
  }

  /** At least the declared number. */
  function Floored(count: int, declared: Option<int>): int {
    if declared.Some? && declared.value > count then declared.value else count
  }

  // ---------------------------------------------------------------- what each stage writes

  predicate ScaleEvent(e: Event) { e.Report? || e.PatchReplicas? }

  predicate HealEvent(e: Event) { !e.PatchReplicas? && !e.PatchKubelet? }

  lemma ScaleStageEvents(doc: Doc, i: Inputs)
    ensures forall e :: e in StageEvents(Scales, doc, i) ==> ScaleEvent(e)
  {
    hide PassPools, ScaleAll, Judge;
    var pools := PassPools(doc.pools);
    CannotListOnly(doc.revision, Scale, pools, |pools|);
    if i.view.scaleMds.Some? {
      ScaleAllEvents(doc.revision, pools, |pools|, i.view.scaleMds.value, i.settings.maxReplicas, i.view.scaleFate);
    }
  }

  /** The rolling stage got its listings. */
  predicate Reads(doc: Doc, i: Inputs) {
    doc.execution.upgrades && i.view.rollMds.Some? && i.view.rollMachines.Some?
  }

  function ViewOf(c: Cluster, i: Inputs): RollView { RollView(c.mds, c.machines, i.view.observed, i.view.rollFate) }

  /** Without listings nothing is patched; with them the pass works on the cluster it listed. */
  lemma RollStageEvents(c: Cluster, doc: Doc, i: Inputs)
    requires Lists(c, doc, Rolls, i)
    ensures var events := StageEvents(Rolls, doc, i);
            || (forall e :: e in events ==> e.Report?)
            || (Reads(doc, i) && Target(doc) != "" && events == RollObserved(i.memory.rollFrom, doc, ViewOf(c, i)).events)
    ensures Reads(doc, i) && Target(doc) != "" && RollPools(doc.pools) != [] ==>
              StageEvents(Rolls, doc, i) == RollObserved(i.memory.rollFrom, doc, ViewOf(c, i)).events
  {
    hide RollPools, RollObserved, Target, CannotListAll, ObserveAll;
    var pools := RollPools(doc.pools);
    CannotListOnly(doc.revision, Upgrade, pools, |pools|);
  }

  lemma HealPassEvents(m: E.Memory, baseline: int, doc: Doc, order: seq<string>, v: View)
    requires Enumerates(order, m.tracked)
    ensures forall e :: e in P.HealPass(m.lastHeal, m.tracked, baseline, doc, order, v).events ==> HealEvent(e)
  {
    hide P.Candidates, SweepAll, P.TreatAll, P.BrakeAll;
    var sweep, cands := SweepAll(m.tracked, doc.revision, order, v), P.Candidates(v, doc.healing);
    var cfg := P.ConfigOf(doc, v.now, baseline);
    SweepSound(m.tracked, doc.revision, order, v);
    H.BrakeAllEvents(cands, |cands|, cfg);
    H.TreatAllEvents(cands, |cands|, P.StartLoop(m.lastHeal, sweep.tracked, cfg, v.machines), cfg, v.deleteFate);
  }

  lemma HealStageEvents(c: Cluster, doc: Doc, i: Inputs)
    requires Lists(c, doc, Heals, i)
    ensures forall e :: e in StageEvents(Heals, doc, i) ==> HealEvent(e)
  {
    hide P.HealPass;
    if HealingArmed(doc) && i.view.HealReadable() {
      HealPassEvents(i.memory, i.settings.baseline, doc, i.order, E.ViewOf(i.settings, i.view));
    }
  }

  // ---------------------------------------------------------------- what the laws need of a stage

  /** A kubelet patch goes to the target and to one startable desired pool, with nothing mid-roll. */
  ghost predicate Justified(c: Cluster, doc: Doc, events: seq<Event>, e: Event)
    requires e.PatchKubelet?
  {
    && e.version == Target(doc) != "" && MidRollNames(c, doc) == {}
    && e.pool in DesiredNames(doc) && At(c, doc, e.pool).Startable()
    && forall x :: x in events && x.PatchKubelet? ==> x == e
  }

  /** Scaling writes replica counts, rolling writes a justified version, healing deletes. */
  ghost predicate Behaves(c: Cluster, doc: Doc, stage: Stage, events: seq<Event>) {
    match stage
    case Scales => forall e :: e in events ==> ScaleEvent(e)
    case Rolls => forall e :: e in events ==> e.Report? || (e.PatchKubelet? && Justified(c, doc, events, e))
    case Heals => forall e :: e in events ==> HealEvent(e)
  }

  lemma DesiredStatus(c: Cluster, doc: Doc, n: string)
    requires n in DesiredNames(doc)
    ensures var statuses := ObserveAll(RollPools(doc.pools), c.mds, c.machines, Target(doc));
            exists i :: 0 <= i < |statuses| && statuses[i] == At(c, doc, n)
  {
    var pools := RollPools(doc.pools);
    var p :| p in pools && p.name == n;
    var i :| 0 <= i < |pools| && pools[i] == p;
    assert ObserveAll(pools, c.mds, c.machines, Target(doc))[i] == At(c, doc, n);
  }

  /** A pass that patches found no desired pool mid-roll, and patches one startable desired pool. */
  lemma RollJustified(c: Cluster, doc: Doc, rollFrom: RollFrom, v: RollView, e: Event)
    requires v.mds == c.mds && v.machines == c.machines && Target(doc) != ""
    requires e in RollObserved(rollFrom, doc, v).events && e.PatchKubelet?
    ensures Justified(c, doc, RollObserved(rollFrom, doc, v).events, e)
  {
    var events := RollObserved(rollFrom, doc, v).events;
    PatchImpliesPreflight(rollFrom, doc, v);
    hide RollObserved, RollPools, Target, Observe;
    var pools := RollPools(doc.pools);
    var statuses := ObserveAll(pools, c.mds, c.machines, Target(doc));
    var i :| 0 <= i < |statuses| && statuses[i].name == e.pool && statuses[i].Startable();
    assert statuses[i] == At(c, doc, pools[i].name) && pools[i] in pools;
    assert statuses[i].name == pools[i].name by { NameObserved(pools[i].name, c, doc); }
    forall n | n in DesiredNames(doc) ensures !At(c, doc, n).MidRoll() { DesiredStatus(c, doc, n); }
    forall x | x in events && x.PatchKubelet? ensures x == e {
      SinglePatch(events, x, e);
    }
  }

  lemma NameObserved(n: string, c: Cluster, doc: Doc)
    ensures At(c, doc, n).name == n
  {
  }

  lemma {:induction false} SinglePatch(events: seq<Event>, x: Event, e: Event)
    requires PatchCount(events) <= 1 && x in events && e in events && x.PatchKubelet? && e.PatchKubelet?
    ensures x == e
  {
    var init, last := events[..|events| - 1], events[|events| - 1];
    assert events == init + [last];
    if last.PatchKubelet? {
      PatchesCounted(init);
    } else {
      SinglePatch(init, x, e);
    }
  }

  lemma {:induction false} PatchesCounted(events: seq<Event>)
    ensures PatchCount(events) == 0 ==> forall e :: e in events ==> !e.PatchKubelet?
  {
    if events != [] {
      assert events == events[..|events| - 1] + [events[|events| - 1]];
      PatchesCounted(events[..|events| - 1]);
    }
  }

  lemma StageBehaves(c: Cluster, doc: Doc, stage: Stage, i: Inputs)
    requires Lists(c, doc, stage, i)
    ensures Behaves(c, doc, stage, StageEvents(stage, doc, i))
  {
    hide StageEvents, Lists, Justified;
    match stage {
      case Scales => ScaleStageEvents(doc, i);
      case Heals => HealStageEvents(c, doc, i);
      case Rolls => RollStageBehaves(c, doc, i);
    }
  }

  lemma RollStageBehaves(c: Cluster, doc: Doc, i: Inputs)
    requires Lists(c, doc, Rolls, i)
    ensures Behaves(c, doc, Rolls, StageEvents(Rolls, doc, i))
  {
    var events := StageEvents(Rolls, doc, i);
    RollStageEvents(c, doc, i);
    hide StageEvents, Lists, RollObserved, Justified, Target;
    if e :| e in events && !e.Report? {
      PatchImpliesPreflight(i.memory.rollFrom, doc, ViewOf(c, i));
      forall x | x in events && x.PatchKubelet? ensures Justified(c, doc, events, x) {
        RollJustified(c, doc, i.memory.rollFrom, ViewOf(c, i), x);
      }
    }
  }

  /** A step as the laws see it. */
  ghost predicate Moves(c: Cluster, doc: Doc, s: Step, c': Cluster) {
    match s
    case Env => EnvStep(c, c', doc)
    case Act(stage, events, live) =>
      Behaves(c, doc, stage, events) && EnvStep(c, live, doc) && c' == Effect(live, events)
  }

  lemma NextMoves(c: Cluster, doc: Doc, s: Step, c': Cluster)
    requires Next(c, doc, s, c')
    ensures Moves(c, doc, s, c')
  {
    hide EnvStep, Effect, Behaves, Lists, StageEvents;
    if s.Act? {
      var i :| Lists(c, doc, s.stage, i) && s.events == StageEvents(s.stage, doc, i);
      StageBehaves(c, doc, s.stage, i);
    }
  }

  lemma RunStep(run: seq<Cluster>, doc: Doc, steps: seq<Step>, k: nat)
    requires IsRun(run, doc, steps) && k < |steps|
    ensures Moves(run[k], doc, steps[k], run[k + 1])
  {
    hide Next, Moves;
    assert StepAt(run, doc, steps, k);
    NextMoves(run[k], doc, steps[k], run[k + 1]);
  }

  lemma StageTargetOnly(c: Cluster, doc: Doc, s: Step)
    requires s.Act? && Behaves(c, doc, s.stage, s.events)
    ensures TargetOnly(doc, s.events)
  {
  }

  // ---------------------------------------------------------------- a whole Reconcile call

  /** The inputs of one stage of a call: scaling and rolling find the memory as it was, healing finds
      what rolling left. */
  function StageInputs(stage: Stage, doc: Doc, i: Inputs): Inputs {
    if stage.Heals? then i.(memory := E.UpgradeStage(i.memory, doc, i.view).memory) else i
  }

  lemma EffectAppend(c: Cluster, a: seq<Event>, b: seq<Event>)
    ensures Effect(Effect(c, a), b) == Effect(c, a + b)
  {
    forall i | 0 <= i < |c.mds| ensures AfterEvents(AfterEvents(c.mds[i], a), b) == AfterEvents(c.mds[i], a + b) {
      AfterEventsAppend(c.mds[i], a, b);
    }
    assert AfterPass(AfterPass(c.mds, a), b) == AfterPass(c.mds, a + b);
    assert H.Hits(a + b) == H.Hits(a) + H.Hits(b);
    assert H.AfterDeletions(H.AfterDeletions(c.machines, H.Hits(a)), H.Hits(b))
        == H.AfterDeletions(c.machines, H.Hits(a + b));
  }

  lemma EffectOfMarker(c: Cluster, e: Event)
    requires !e.IsWrite()
    ensures Effect(c, [e]) == c
  {
    forall i | 0 <= i < |c.mds| ensures AfterEvents(c.mds[i], [e]) == c.mds[i] {
      AfterEventsUntouched(c.mds[i], [e]);
    }
    assert AfterPass(c.mds, [e]) == c.mds;
    assert H.Hits([e]) == {};
    assert H.AfterDeletions(c.machines, {}) == c.machines;
  }

  /** A Reconcile call writes what its three stages write, in that order. */
  lemma ReconcileIsThreeStages(c: Cluster, doc: Doc, i: Inputs)
    ensures var events := E.Reconcile(i.memory, i.settings, doc, i.order, i.view).events;
            var scaled := Effect(c, StageEvents(Scales, doc, StageInputs(Scales, doc, i)));
            var rolled := Effect(scaled, StageEvents(Rolls, doc, StageInputs(Rolls, doc, i)));
            Effect(c, events) == Effect(rolled, StageEvents(Heals, doc, StageInputs(Heals, doc, i)))
  {
    hide Effect, Scaling.ScalePass, Rollout.UpgradePass, P.HealPass;
    var a := E.ScaleStage(i.memory, i.settings, doc, i.view);
    var b := E.UpgradeStage(a.memory, doc, i.view);
    var h := E.HealStage(b.memory, i.settings, doc, i.order, i.view);
    var head := if E.ReportOnly(doc) then ClearReports else BeginRevision(doc.revision);
    assert E.Reconcile(i.memory, i.settings, doc, i.order, i.view).events == [head] + a.events + b.events + h.events;
    EffectOfMarker(c, head);
    EffectAppend(c, [head], a.events);
    EffectAppend(c, [head] + a.events, b.events);
    EffectAppend(c, [head] + a.events + b.events, h.events);
  }
}
