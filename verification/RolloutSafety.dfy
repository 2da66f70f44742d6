/** What keeps two rolls apart, exactly: in every run at most one desired pool is at the target but
    unconverged as long as no scaling or healing stage leaves two such pools short of machines. */
module RolloutSafety {
  import opened Common
  import opened Fleet
  import opened Ordering
  import opened Versions
  import opened PoolResolution
  import opened Scaling
  import opened Rollout
  import opened RolloutLaws
  import opened RolloutRuns
  import Unwedge
  import E = ExecutorSpec
  import P = Healing
  import H = HealingLaws

  // ---------------------------------------------------------------- pools left short of machines

  /** The number the last effective patch of the pool asked for. */
  function LastSize(events: seq<Event>, n: string): Option<int> {
    if events == [] then None
    else
      var last := events[|events| - 1];
      if last.PatchReplicas? && last.pool == n && last.result.TookEffect() then Some(last.replicas)
      else LastSize(events[..|events| - 1], n)
  }

  /** The number a deployment declares after a stage with these writes. */
  function NumberAfter(events: seq<Event>, md: Deployment): Option<int> {
    if LastSize(events, md.name).Some? then LastSize(events, md.name) else md.replicas
  }

  /** The live machines of the pool that run the version with a node are fewer than all of them, or
      than the declared number. */
  ghost predicate FallsShort(c: Cluster, events: seq<Event>, md: Deployment, version: string) {
    var count := CountPool(Spared(c.machines, H.Hits(events)), c.mds, md.name, version);
    count.n < Floored(count.m, NumberAfter(events, md))
  }

  predicate DeclaresTarget(doc: Doc, md: Deployment) {
    Eligible(md) && md.kubelet != "" && SameVersion(md.kubelet, Target(doc))
  }

  /** The desired pools at the target that a stage with these writes leaves short, read off the
      document, the listing and the answers. */
  ghost function Shortfall(c: Cluster, doc: Doc, events: seq<Event>): set<string> {
    set n | n in DesiredNames(doc) && Lookup(c.mds, n).Some?
            && DeclaresTarget(doc, Lookup(c.mds, n).value)
            && FallsShort(c, events, Lookup(c.mds, n).value, Target(doc))
  }

  lemma {:induction false} ReplicasAfter(md: Deployment, events: seq<Event>)
    ensures AfterEvents(md, events).replicas == NumberAfter(events, md)
  {
    if events != [] {
      ReplicasAfter(md, events[..|events| - 1]);
      AfterEventsFrame(md, events[..|events| - 1]);
    }
  }

  lemma {:induction false} LastSizeFrom(events: seq<Event>, n: string)
    ensures LastSize(events, n).None? ==>
              forall e :: e in events ==> !(e.PatchReplicas? && e.pool == n && e.result.TookEffect())
    ensures LastSize(events, n).Some? ==>
              exists e :: e in events && e.PatchReplicas? && e.pool == n && e.result.TookEffect()
                          && LastSize(events, n) == Some(e.replicas)
  {
    if events != [] {
      var init, last := events[..|events| - 1], events[|events| - 1];
      assert events == init + [last];
      LastSizeFrom(init, n);
    }
  }

  /** The document's number for a pool. */
  function NumberOf(pools: seq<WorkerPool>, n: string): Option<int> {
    var byName := IndexBy(pools, PoolName);
    if n in byName then Some(byName[n].desiredReplicas) else None
  }

  /** Every replica patch of a scaling stage carries the document's number for its pool. */
  lemma ResizesToNumber(doc: Doc, i: Inputs, e: Event)
    requires UniqueBy(doc.pools, PoolName) && e in StageEvents(Scales, doc, i) && e.PatchReplicas?
    ensures NumberOf(doc.pools, e.pool) == Some(e.replicas)
  {
    hide PassPools, ScaleAll, Judge, Lookup;
    var pools := PassPools(doc.pools);
    PassPoolsUnique(doc.pools);
    CannotListOnly(doc.revision, Scale, pools, |pools|);
    if i.view.scaleMds.Some? {
      ScaleAllEvents(doc.revision, pools, |pools|, i.view.scaleMds.value, i.settings.maxReplicas, i.view.scaleFate);
      var at: nat :| at < |pools| && e == PatchReplicas(pools[at].name, pools[at].desiredReplicas, i.view.scaleFate(at));
      assert pools[at] in pools;
      IndexByUnique(doc.pools, PoolName, pools[at]);
    }
  }

  /** So where a patch took effect the declared number is the document's, if it lists the pool once. */
  lemma NumberIsTheDocuments(doc: Doc, i: Inputs, n: string)
    requires UniqueBy(doc.pools, PoolName)
    ensures var events := StageEvents(Scales, doc, i);
            LastSize(events, n).Some? ==> LastSize(events, n) == NumberOf(doc.pools, n)
  {
    hide StageEvents, NumberOf;
    var events := StageEvents(Scales, doc, i);
    LastSizeFrom(events, n);
    if LastSize(events, n).Some? {
      var e :| e in events && e.PatchReplicas? && e.pool == n && e.result.TookEffect()
               && LastSize(events, n) == Some(e.replicas);
      ResizesToNumber(doc, i, e);
    }
  }

  lemma UnrolledByStage(c: Cluster, doc: Doc, s: Step, n: string)
    requires s.Act? && !s.stage.Rolls? && Behaves(c, doc, s.stage, s.events)
    ensures !RolledBy(s.events, n)
  {
  }

  lemma MidRollAfter(c: Cluster, doc: Doc, s: Step, n: string)
    requires s.Act? && !s.stage.Rolls? && Behaves(c, doc, s.stage, s.events) && WellFormed(s.live)
    ensures var events := s.events;
            At(Effect(s.live, events), doc, n).MidRoll() <==>
              && Lookup(s.live.mds, n).Some? && DeclaresTarget(doc, Lookup(s.live.mds, n).value)
              && FallsShort(s.live, events, Lookup(s.live.mds, n).value, Target(doc))
  {
    hide CountPool, Spared, IsControlPlane, AutoscalerKey, Target, SameVersion, RollProgress;
    var events, live := s.events, s.live;
    StageTargetOnly(c, doc, s);
    StatusAfter(live, events, doc, n);
    UnrolledByStage(c, doc, s, n);
    LookupUnique(live.mds, n);
    AtTargetMeans(live, doc, n);
    AtTargetMeans(Effect(live, events), doc, n);
    if Lookup(live.mds, n).Some? { ReplicasAfter(Lookup(live.mds, n).value, events); }
  }

  /** The pools that are mid-roll after a scaling or healing stage are exactly those it leaves short. */
  lemma ShortfallExact(c: Cluster, doc: Doc, s: Step, c': Cluster)
    requires Moves(c, doc, s, c') && s.Act? && !s.stage.Rolls?
    ensures MidRollNames(c', doc) == Shortfall(s.live, doc, s.events)
  {
    hide FallsShort, DeclaresTarget, At, Lookup;
    forall n | n in DesiredNames(doc)
      ensures n in MidRollNames(c', doc) <==> n in Shortfall(s.live, doc, s.events)
    {
      MidRollAfter(c, doc, s, n);
    }
  }

  // ---------------------------------------------------------------- one roll at a time

  ghost predicate IsRoll(c: Cluster, doc: Doc, s: Step) { s.Act? && s.stage.Rolls? && Behaves(c, doc, Rolls, s.events) }

  lemma PatchingPass(c: Cluster, doc: Doc, s: Step, e: Event)
    requires IsRoll(c, doc, s) && e in s.events && e.PatchKubelet?
    ensures MidRollNames(c, doc) == {} && e.pool in DesiredNames(doc) && At(c, doc, e.pool).Startable()
    ensures (forall x :: x in s.events && x.PatchKubelet? ==> x == e) && Target(doc) != ""
  {
    hide At, DesiredNames, MidRollNames, Target;
    assert Justified(c, doc, s.events, e);
  }

  /** A rolling stage starts at most one roll, and only when none is under way. */
  lemma RollMidRolls(c: Cluster, doc: Doc, s: Step, c': Cluster)
    requires Moves(c, doc, s, c') && IsRoll(c, doc, s)
    ensures MidRollNames(c', doc) <= MidRollNames(c, doc)
            || (MidRollNames(c, doc) == {} && exists n :: MidRollNames(c', doc) <= {n})
  {
    hide Target;
    var events := s.events;
    forall n | n in DesiredNames(doc) && At(c', doc, n).MidRoll()
      ensures At(c, doc, n).MidRoll() || RolledBy(events, n)
    {
      EnvKeeps(c, s.live, doc, n);
      if !RolledBy(events, n) { UnrolledKeeps(c, doc, s, c', n); }
    }
    if e :| e in events && e.PatchKubelet? {
      PatchingPass(c, doc, s, e);
      assert MidRollNames(c', doc) <= {e.pool};
    }
  }

  lemma {:induction false} SparedNone(machines: seq<Machine>)
    ensures Spared(machines, {}) == machines
  {
    if machines != [] {
      SparedNone(machines[..|machines| - 1]);
    }
  }

  /** A rolling stage leaves the status of a pool it does not patch with effect as it was. */
  lemma UnrolledKeeps(c: Cluster, doc: Doc, s: Step, c': Cluster, n: string)
    requires Moves(c, doc, s, c') && IsRoll(c, doc, s) && !RolledBy(s.events, n)
    ensures At(c', doc, n) == At(s.live, doc, n)
  {
    hide Target, CountPool, SameVersion, IsControlPlane, AutoscalerKey;
    var events, live := s.events, s.live;
    StatusAfter(live, events, doc, n);
    assert H.Hits(events) == {};
    SparedNone(live.machines);
    AtTargetMeans(live, doc, n);
    AtTargetMeans(c', doc, n);
    NameObserved(n, live, doc);
    NameObserved(n, c', doc);
    if Lookup(live.mds, n).Some? {
      LookupUnique(live.mds, n);
      ReplicasAfter(Lookup(live.mds, n).value, events);
      LastSizeFrom(events, n);
    }
  }

  lemma EnvMidRolls(c: Cluster, c': Cluster, doc: Doc)
    requires EnvStep(c, c', doc)
    ensures MidRollNames(c', doc) <= MidRollNames(c, doc)
  {
    forall n | n in DesiredNames(doc) ensures At(c', doc, n).MidRoll() ==> At(c, doc, n).MidRoll() {
      EnvKeeps(c, c', doc, n);
    }
  }

  /** A scaling or healing stage leaves at most one desired pool at the target short of machines. */
  ghost predicate LeavesOneShort(doc: Doc, s: Step) {
    s.Act? && !s.stage.Rolls? ==> |Shortfall(s.live, doc, s.events)| <= 1
  }

  lemma StepKeepsOneRoll(c: Cluster, doc: Doc, s: Step, c': Cluster)
    requires Moves(c, doc, s, c')
    requires LeavesOneShort(doc, s) && |MidRollNames(c, doc)| <= 1
    ensures |MidRollNames(c', doc)| <= 1
  {
    hide MidRollNames, Shortfall, EnvStep, Effect, Lists;
    var before, after := MidRollNames(c, doc), MidRollNames(c', doc);
    if s.Env? {
      EnvMidRolls(c, c', doc);
      SubsetSize(after, before);
    } else if !s.stage.Rolls? {
      ShortfallExact(c, doc, s, c');
    } else {
      RollMidRolls(c, doc, s, c');
      if after <= before {
        SubsetSize(after, before);
      } else {
        var n :| after <= {n};
        SubsetSize(after, {n});
      }
    }
  }

  lemma RunLength(run: seq<Cluster>, doc: Doc, steps: seq<Step>)
    requires IsRun(run, doc, steps)
    ensures |run| == |steps| + 1
  {
    hide StepAt;
  }

  lemma {:induction false} OneRollFrom(run: seq<Cluster>, doc: Doc, steps: seq<Step>, i: nat)
    requires i < |run| && IsRun(run, doc, steps)
    requires |MidRollNames(run[0], doc)| <= 1
    requires forall k: nat :: k < |steps| ==> LeavesOneShort(doc, steps[k])
    ensures |MidRollNames(run[i], doc)| <= 1
  {
    hide *;
    RunLength(run, doc, steps);
    if i == 0 {
    } else {
      OneRollFrom(run, doc, steps, i - 1);
      RunStep(run, doc, steps, i - 1);
      StepKeepsOneRoll(run[i - 1], doc, steps[i - 1], run[i]);
    }
  }

  /** One roll at a time: in a run that starts with at most one desired pool mid-roll, every state
      has at most one exactly when every scaling and healing stage leaves at most one short,
      whatever the API answers and however the environment moves. */
  lemma OneRollAtATimeIff(run: seq<Cluster>, doc: Doc, steps: seq<Step>)
    requires IsRun(run, doc, steps) && |MidRollNames(run[0], doc)| <= 1
    ensures (forall i: nat :: i < |run| ==> |MidRollNames(run[i], doc)| <= 1)
            <==> (forall k: nat :: k < |steps| ==> LeavesOneShort(doc, steps[k]))
  {
    assert |run| == |steps| + 1;
    hide MidRollNames, LeavesOneShort, IsRun;
    if forall k: nat :: k < |steps| ==> LeavesOneShort(doc, steps[k]) {
      forall i: nat | i < |run| ensures |MidRollNames(run[i], doc)| <= 1 { OneRollFrom(run, doc, steps, i); }
    }
    if forall i: nat :: i < |run| ==> |MidRollNames(run[i], doc)| <= 1 {
      forall k: nat | k < |steps| ensures LeavesOneShort(doc, steps[k]) {
        RunStep(run, doc, steps, k);
        assert |MidRollNames(run[k + 1], doc)| <= 1;
        OneRollLeft(run[k], doc, steps[k], run[k + 1]);
      }
    }
  }

  lemma OneRollLeft(c: Cluster, doc: Doc, s: Step, c': Cluster)
    requires Moves(c, doc, s, c') && |MidRollNames(c', doc)| <= 1
    ensures LeavesOneShort(doc, s)
  {
    hide MidRollNames, Shortfall;
    if s.Act? && !s.stage.Rolls? { ShortfallExact(c, doc, s, c'); }
  }

  // ---------------------------------------------------------------- a fault-free scaling stage

  /** What a fault-free scaling stage will leave declared: the document's number for a pool it
      accepts, else the listing's. */
  ghost function NumberAhead(c: Cluster, doc: Doc, md: Deployment, maxReplicas: int): Option<int> {
    if exists p :: p in PassPools(doc.pools) && p.name == md.name && Acceptable(p, c.mds, maxReplicas)
    then NumberOf(doc.pools, md.name) else md.replicas
  }

  /** The pools it will leave short, from the document and the listing alone. */
  ghost function ShortAhead(c: Cluster, doc: Doc, maxReplicas: int): set<string> {
    set n | n in DesiredNames(doc) && Lookup(c.mds, n).Some?
            && var md := Lookup(c.mds, n).value;
               var count := CountPool(c.machines, c.mds, n, Target(doc));
               DeclaresTarget(doc, md) && count.n < Floored(count.m, NumberAhead(c, doc, md, maxReplicas))
  }

  /** A scaling stage that gets its listing, meets no fault and is not raced. */
  ghost predicate CleanScale(c: Cluster, doc: Doc, s: Step, i: Inputs) {
    && s.Act? && s.stage.Scales? && s.live == c && s.events == StageEvents(Scales, doc, i)
    && doc.execution.scaling && i.view.scaleMds == Some(c.mds) && forall k: nat :: i.view.scaleFate(k).Ok?
  }

  lemma DeclaredAhead(c: Cluster, doc: Doc, s: Step, i: Inputs, md: Deployment)
    requires CleanScale(c, doc, s, i) && UniqueBy(doc.pools, PoolName) && WellFormed(c) && md in c.mds
    ensures AfterEvents(md, s.events).replicas == NumberAhead(c, doc, md, i.settings.maxReplicas)
  {
    hide PassPools, Judge, ScaleAll, ScalePass, AfterEvents, Lookup;
    var max := i.settings.maxReplicas;
    ScaleConverges(doc, c.mds, max, i.view.scaleFate);
    PassPoolsUnique(doc.pools);
    assert s.events == ScalePass(doc, Some(c.mds), max, i.view.scaleFate).events;
    if p :| p in PassPools(doc.pools) && p.name == md.name && Acceptable(p, c.mds, max) {
      IndexByUnique(doc.pools, PoolName, p);
    }
  }

  /** After a clean scaling stage the mid-roll pools are those the document and the listing show. */
  lemma CleanScaleShort(c: Cluster, doc: Doc, s: Step, i: Inputs, c': Cluster)
    requires CleanScale(c, doc, s, i) && UniqueBy(doc.pools, PoolName) && WellFormed(c) && c' == Effect(c, s.events)
    ensures MidRollNames(c', doc) == ShortAhead(c, doc, i.settings.maxReplicas)
  {
    hide StageEvents, CountPool, Lookup, DeclaresTarget, Effect;
    ScaleStageEvents(doc, i);
    EnvIdles(c, doc);
    ShortfallExact(c, doc, s, c');
    assert H.Hits(s.events) == {};
    SparedNone(c.machines);
    forall n | n in DesiredNames(doc) && Lookup(c.mds, n).Some?
      ensures NumberAfter(s.events, Lookup(c.mds, n).value)
           == NumberAhead(c, doc, Lookup(c.mds, n).value, i.settings.maxReplicas)
      ensures Lookup(c.mds, n).value.name == n
    {
      LookupUnique(c.mds, n);
      ReplicasAfter(Lookup(c.mds, n).value, s.events);
      DeclaredAhead(c, doc, s, i, Lookup(c.mds, n).value);
    }
  }

  lemma EnvIdles(c: Cluster, doc: Doc)
    requires WellFormed(c)
    ensures EnvStep(c, c, doc)
  {
  }

  // ---------------------------------------------------------------- bounds before any stage

  function Larger(a: Option<int>, b: Option<int>): Option<int> {
    if a.None? then b else if b.None? then a else Some(Max(a.value, b.value))
  }

  /** The pools at the target with fewer joined machines at it than live ones, than they declare, or
      than the document asks for: all that a scaling stage can leave short. */
  ghost function ScaleRisk(c: Cluster, doc: Doc): set<string> {
    set n | n in DesiredNames(doc) && Lookup(c.mds, n).Some?
            && var md := Lookup(c.mds, n).value;
               var count := CountPool(c.machines, c.mds, n, Target(doc));
               DeclaresTarget(doc, md) && count.n < Floored(count.m, Larger(md.replicas, NumberOf(doc.pools, n)))
  }

  /** Whatever the answers, even unacknowledged ones, a scaling stage leaves only those pools short. */
  lemma ScaleBound(doc: Doc, s: Step, i: Inputs)
    requires s.Act? && s.stage.Scales? && s.events == StageEvents(Scales, doc, i)
    requires UniqueBy(doc.pools, PoolName) && WellFormed(s.live)
    ensures Shortfall(s.live, doc, s.events) <= ScaleRisk(s.live, doc)
    ensures |ScaleRisk(s.live, doc)| <= 1 ==> LeavesOneShort(doc, s)
  {
    hide StageEvents, CountPool, Lookup, DeclaresTarget, NumberOf, Target, DesiredNames;
    ScaleStageEvents(doc, i);
    assert H.Hits(s.events) == {};
    SparedNone(s.live.machines);
    forall n | n in Shortfall(s.live, doc, s.events) ensures n in ScaleRisk(s.live, doc) {
      LookupUnique(s.live.mds, n);
      NumberIsTheDocuments(doc, i, n);
    }
    SubsetSize(Shortfall(s.live, doc, s.events), ScaleRisk(s.live, doc));
  }

  /** The pools at the target that are short already, or own a machine that is sick by what the healing
      stage reads. */
  ghost function HealRisk(c: Cluster, doc: Doc, i: Inputs): set<string> {
    set n | n in DesiredNames(doc) && Lookup(c.mds, n).Some?
            && var md := Lookup(c.mds, n).value;
               var count := CountPool(c.machines, c.mds, n, Target(doc));
               DeclaresTarget(doc, md) && (count.n < Floored(count.m, md.replicas) || OwnsSick(c, doc, i, n))
  }

  ghost predicate OwnsSick(c: Cluster, doc: Doc, i: Inputs, n: string) {
    && HealingArmed(doc) && i.view.HealReadable()
    && exists m :: m in c.machines && InPool(c.mds, n, m)
                   && m.name in H.SickNames(E.ViewOf(i.settings, i.view), doc.healing)
  }

  lemma HitsAreSick(c: Cluster, doc: Doc, i: Inputs)
    requires Lists(c, doc, Heals, i)
    ensures H.Hits(StageEvents(Heals, doc, i))
         <= if HealingArmed(doc) && i.view.HealReadable() then H.SickNames(E.ViewOf(i.settings, i.view), doc.healing) else {}
  {
    hide P.HealPass, P.Candidates;
    var events := StageEvents(Heals, doc, i);
    if HealingArmed(doc) && i.view.HealReadable() {
      var v := E.ViewOf(i.settings, i.view);
      H.CandidatesAreTheSick(v, doc.healing);
      forall e | e in events && e.DeleteMachine? ensures e.machine in P.Names(P.Candidates(v, doc.healing)) {
        H.DeletionFate(i.memory.lastHeal, i.memory.tracked, i.settings.baseline, doc, i.order, v, e);
      }
    }
  }

  lemma SparedEmpty(hit: set<string>)
    ensures Spared([], hit) == []
  {
  }

  lemma {:induction false} SparedSame(machines: seq<Machine>, hit: set<string>, mds: seq<Deployment>, pool: string,
                                      version: string)
    requires forall m :: m in machines && InPool(mds, pool, m) ==> m.name !in hit
    ensures CountPool(Spared(machines, hit), mds, pool, version) == CountPool(machines, mds, pool, version)
  {
    hide *;
    if machines == [] {
      SparedEmpty(hit);
    } else {
      var init, last := machines[..|machines| - 1], machines[|machines| - 1];
      assert machines == init + [last];
      SparedSame(init, hit, mds, pool, version);
      LastMarked(init, last, hit);
      CountSnoc(init, last, mds, pool, version);
      OneInPool(mds, pool, version, last);
      if last.name in hit {
        assert Spared(machines, hit) == Spared(init, hit);
      } else {
        CountSnoc(Spared(init, hit), last, mds, pool, version);
      }
    }
  }

  /** Nor does a healing stage leave others short than those it might have to delete from. */
  lemma HealBound(c: Cluster, doc: Doc, s: Step, i: Inputs)
    requires s.Act? && s.stage.Heals? && s.events == StageEvents(Heals, doc, i) && Lists(c, doc, Heals, i)
    requires WellFormed(s.live)
    ensures Shortfall(s.live, doc, s.events) <= HealRisk(s.live, doc, i)
    ensures |HealRisk(s.live, doc, i)| <= 1 ==> LeavesOneShort(doc, s)
  {
    hide StageEvents, CountPool, Lookup, DeclaresTarget, Target, DesiredNames, InPool, Lists, Spared, H.SickNames;
    HitsAreSick(c, doc, i);
    HealStageEvents(c, doc, i);
    forall n | n in Shortfall(s.live, doc, s.events) ensures n in HealRisk(s.live, doc, i) {
      LookupUnique(s.live.mds, n);
      LastSizeFrom(s.events, n);
      if !OwnsSick(s.live, doc, i, n) {
        SparedSame(s.live.machines, H.Hits(s.events), s.live.mds, n, Target(doc));
      }
    }
    SubsetSize(Shortfall(s.live, doc, s.events), HealRisk(s.live, doc, i));
  }

  // ---------------------------------------------------------------- each pool once

  lemma TargetAfter(c: Cluster, events: seq<Event>, doc: Doc, n: string)
    requires WellFormed(c) && At(c, doc, n).atTarget && Target(doc) != "" && TargetOnly(doc, events)
    ensures At(Effect(c, events), doc, n).atTarget
  {
    StatusAfter(c, events, doc, n);
    AtTargetMeans(c, doc, n);
    AtTargetMeans(Effect(c, events), doc, n);
  }

  /** Whatever happens, a desired pool that reached the target version never leaves it. */
  lemma TargetStays(c: Cluster, doc: Doc, s: Step, c': Cluster, n: string)
    requires Moves(c, doc, s, c') && n in DesiredNames(doc) && At(c, doc, n).atTarget && Target(doc) != ""
    ensures At(c', doc, n).atTarget
  {
    if s.Env? {
      EnvKeeps(c, c', doc, n);
    } else {
      StageTargetOnly(c, doc, s);
      EnvKeeps(c, s.live, doc, n);
      TargetAfter(s.live, s.events, doc, n);
    }
  }

  lemma PatchReachesTarget(c: Cluster, doc: Doc, s: Step, c': Cluster, e: Event)
    requires Moves(c, doc, s, c') && IsRoll(c, doc, s) && Target(doc) != ""
    requires e in s.events && e.PatchKubelet? && e.result.TookEffect()
    ensures e.pool in DesiredNames(doc) && At(c', doc, e.pool).atTarget
  {
    PatchingPass(c, doc, s, e);
    StageTargetOnly(c, doc, s);
    EnvKeeps(c, s.live, doc, e.pool);
    StatusAfter(s.live, s.events, doc, e.pool);
    AtTargetMeans(Effect(s.live, s.events), doc, e.pool);
  }

  /** Only a rolling stage patches versions. */
  lemma PatchIsRoll(c: Cluster, doc: Doc, s: Step, e: Event)
    requires s.Act? && Behaves(c, doc, s.stage, s.events) && e in s.events && e.PatchKubelet?
    ensures IsRoll(c, doc, s)
  {
  }

  ghost predicate RollsPool(doc: Doc, s: Step, pool: string) {
    s.Act? && RolledBy(s.events, pool)
  }

  lemma RollsStays(c: Cluster, doc: Doc, s: Step, c': Cluster, pool: string)
    requires Moves(c, doc, s, c') && RollsPool(doc, s, pool) && Target(doc) != ""
    ensures pool in DesiredNames(doc) && At(c', doc, pool).atTarget
  {
    hide At, DesiredNames, Target, EnvStep, Effect, Lists;
    var e :| e in s.events && e.PatchKubelet? && e.pool == pool && e.result.TookEffect();
    PatchIsRoll(c, doc, s, e);
    PatchReachesTarget(c, doc, s, c', e);
  }

  lemma {:induction false} StaysFrom(run: seq<Cluster>, doc: Doc, steps: seq<Step>, i: nat, j: nat, pool: string)
    requires i < j <= |steps| && IsRun(run, doc, steps) && Target(doc) != "" && RollsPool(doc, steps[i], pool)
    ensures pool in DesiredNames(doc) && At(run[j], doc, pool).atTarget
    decreases j
  {
    hide Moves, RollsPool, At, DesiredNames, Target;
    RunStep(run, doc, steps, i);
    RollsStays(run[i], doc, steps[i], run[i + 1], pool);
    if i + 1 < j {
      StaysFrom(run, doc, steps, i, j - 1, pool);
      RunStep(run, doc, steps, j - 1);
      TargetStays(run[j - 1], doc, steps[j - 1], run[j], pool);
    }
  }

  /** Over any run each pool is patched at most once with effect: after such a patch no later stage
      even tries. */
  lemma EachPoolPatchedOnce(run: seq<Cluster>, doc: Doc, steps: seq<Step>, i: nat, j: nat, pool: string)
    requires i < j < |steps| && IsRun(run, doc, steps) && Target(doc) != ""
    requires RollsPool(doc, steps[i], pool) && steps[j].Act?
    ensures !PatchedBy(steps[j].events, pool)
  {
    StaysFrom(run, doc, steps, i, j, pool);
    RunStep(run, doc, steps, j);
    hide At, DesiredNames, Target, EnvStep, Effect, Lists;
    if x :| x in steps[j].events && x.PatchKubelet? && x.pool == pool {
      PatchIsRoll(run[j], doc, steps[j], x);
      PatchingPass(run[j], doc, steps[j], x);
      assert false;
    }
  }

  // ---------------------------------------------------------------- two rolls at once

  function PoolsAB(): seq<WorkerPool> { [WorkerPool("a", "", 1), WorkerPool("b", "", 1)] }

  function DocAB(): Doc {
    Doc(1, Some("1.31"), PoolsAB(), Execution(true, true, false), Healing(false, 0, 0, 0, 0))
  }

  lemma SortTwo(a: WorkerPool, b: WorkerPool)
    requires PoolLe(a, b)
    ensures Sort([a, b], PoolLe) == [a, b]
  {
    hide StringLe;
    assert [a, b][1..] == [b] && [b][1..] == [] && Sort([b], PoolLe) == [b];
  }

  lemma PoolsABValid()
    ensures ValidName(PoolsAB()[0]) && ValidName(PoolsAB()[1])
    ensures PoolLe(PoolsAB()[0], PoolsAB()[1]) && UniqueBy(PoolsAB(), PoolName)
  {
    assert PoolName(PoolsAB()[0]) != PoolName(PoolsAB()[1]);
  }

  lemma PoolsABPass()
    ensures RollPools(PoolsAB()) == PassPools(PoolsAB()) == PoolsAB()
  {
    var a, b := PoolsAB()[0], PoolsAB()[1];
    PoolsABValid();
    hide ValidName, PoolLe, UniqueBy;
    SortTwo(a, b);
    assert [a, b][..1] == [a] && [a][..0] == [] && Filter([a], ValidName) == [a];
    assert Filter([a, b], ValidName) == [a, b];
  }

  lemma DocABMeans()
    ensures RollPools(PoolsAB()) == PassPools(PoolsAB()) == PoolsAB() && UniqueBy(PoolsAB(), PoolName)
    ensures Target(DocAB()) == "1.31" && DesiredNames(DocAB()) == {"a", "b"}
    ensures NumberOf(PoolsAB(), "a") == Some(1) && NumberOf(PoolsAB(), "b") == Some(1)
  {
    PoolsABPass();
    PoolsABValid();
    hide RollPools, PassPools, ValidName, PoolLe, UniqueBy;
    var a, b := PoolsAB()[0], PoolsAB()[1];
    assert TrimLeft("1.31") == "1.31" && TrimRight("1.31") == "1.31";
    assert a in PoolsAB() && b in PoolsAB();
    IndexByUnique(PoolsAB(), PoolName, a);
    IndexByUnique(PoolsAB(), PoolName, b);
  }

  function EmptyPool(name: string): Deployment { Deployment(name, {}, {}, None, Some(0), "1.31") }

  function EmptyPools(): Cluster { Cluster([EmptyPool("a"), EmptyPool("b")], []) }

  /** A fault-free scaling stage on two empty pools that already declare the target. */
  function RaiseInputs(): Inputs {
    Inputs(E.Memory(map[], map[], map[]), E.Settings(10, 0, 0), [],
           E.Reads(Some(EmptyPools().mds), (i: nat) => Ok, None, None, "", (i: nat) => Ok, 0, None, None, None,
                   (n: string) => Unwedge.Unwired, (n: string, i: nat) => Ok, (i: nat) => Ok))
  }

  function RaiseBoth(): Step { Act(Scales, StageEvents(Scales, DocAB(), RaiseInputs()), EmptyPools()) }

  lemma EmptyPoolFound(n: string)
    requires n == "a" || n == "b"
    ensures WellFormed(EmptyPools()) && Lookup(EmptyPools().mds, n) == Some(EmptyPool(n))
  {
    var mds := EmptyPools().mds;
    assert DeploymentName(mds[0]) != DeploymentName(mds[1]) && mds[0] in mds && mds[1] in mds;
    hide Lookup;
    LookupUnique(mds, n);
  }

  lemma PlainNameEligible(n: string, md: Deployment)
    requires (n == "a" || n == "b") && md.name == n && md.labelKeys == {} && md.annotations == {}
    ensures Eligible(md)
  {
    assert Lower(n) == n;
  }

  lemma EmptyPoolMeans(n: string)
    requires n == "a" || n == "b"
    ensures DeclaresTarget(DocAB(), EmptyPool(n)) && !At(EmptyPools(), DocAB(), n).MidRoll()
  {
    DocABMeans();
    EmptyPoolFound(n);
    PlainNameEligible(n, EmptyPool(n));
    hide Lookup, IsControlPlane, AutoscalerKey, RollPools, PassPools, DesiredNames, NumberOf, Target;
  }

  lemma RaisedAccepted(n: string)
    requires n == "a" || n == "b"
    ensures Acceptable(WorkerPool(n, "", 1), EmptyPools().mds, 10)
  {
    EmptyPoolFound(n);
    PlainNameEligible(n, EmptyPool(n));
    hide Lookup, IsControlPlane, AutoscalerKey;
    assert IsDNS1123Subdomain(n);
  }

  lemma RaisedPool(n: string)
    requires n == "a" || n == "b"
    ensures n in ShortAhead(EmptyPools(), DocAB(), 10)
  {
    hide *;
    DocABMeans();
    EmptyPoolFound(n);
    EmptyPoolMeans(n);
    RaisedAccepted(n);
    RaisedShort(n);
  }

  lemma RaisedShort(n: string)
    requires n == "a" || n == "b"
    requires PassPools(PoolsAB()) == PoolsAB() && DesiredNames(DocAB()) == {"a", "b"}
    requires NumberOf(PoolsAB(), n) == Some(1) && Lookup(EmptyPools().mds, n) == Some(EmptyPool(n))
    requires DeclaresTarget(DocAB(), EmptyPool(n)) && Acceptable(WorkerPool(n, "", 1), EmptyPools().mds, 10)
    ensures n in ShortAhead(EmptyPools(), DocAB(), 10)
  {
    hide PassPools, DesiredNames, NumberOf, Lookup, DeclaresTarget, Acceptable, Target;
    assert PoolsAB()[0] in PoolsAB() && PoolsAB()[1] in PoolsAB();
    assert WorkerPool(n, "", 1) in PassPools(DocAB().pools);
  }

  /** Raising the numbers of two converged pools un-converges both at once: the scaling stage alone
      leaves two pools mid-roll. */
  lemma ScalingUnconvergesTwo(c': Cluster)
    requires c' == Effect(EmptyPools(), RaiseBoth().events)
    ensures Next(EmptyPools(), DocAB(), RaiseBoth(), c') && CleanScale(EmptyPools(), DocAB(), RaiseBoth(), RaiseInputs())
    ensures MidRollNames(EmptyPools(), DocAB()) == {} && MidRollNames(c', DocAB()) == {"a", "b"}
  {
    hide StageEvents, Effect, At, Target, RollPools, PassPools;
    DocABMeans();
    EmptyPoolFound("a");
    EmptyPoolMeans("a");
    EmptyPoolMeans("b");
    RaisedPool("a");
    RaisedPool("b");
    assert Lists(EmptyPools(), DocAB(), Scales, RaiseInputs());
    EnvIdles(EmptyPools(), DocAB());
    CleanScaleShort(EmptyPools(), DocAB(), RaiseBoth(), RaiseInputs(), c');
    assert MidRollNames(c', DocAB()) <= DesiredNames(DocAB());
  }

  lemma {:induction false} SparedCount(machines: seq<Machine>, hit: set<string>, mds: seq<Deployment>, pool: string,
                                       version: string)
    ensures var all, left := CountPool(machines, mds, pool, version),
                             CountPool(Spared(machines, hit), mds, pool, version);
            && left.n <= left.m <= all.m
            && (AnyHit(machines, hit, mds, pool) ==> left.m < all.m)
  {
    hide *;
    if machines == [] {
      NoneSpared(hit, mds, pool, version);
    } else {
      var init, last := machines[..|machines| - 1], machines[|machines| - 1];
      assert machines == init + [last];
      SparedCount(init, hit, mds, pool, version);
      LastMarked(init, last, hit);
      CountSnoc(init, last, mds, pool, version);
      CountSnoc(Spared(init, hit), last, mds, pool, version);
      assert Spared(init, hit) + [] == Spared(init, hit);
      OneInPool(mds, pool, version, last);
      AnyHitSnoc(init, last, hit, mds, pool);
    }
  }

  ghost predicate AnyHit(machines: seq<Machine>, hit: set<string>, mds: seq<Deployment>, pool: string) {
    exists m :: m in machines && InPool(mds, pool, m) && m.name in hit
  }

  lemma AnyHitSnoc(init: seq<Machine>, last: Machine, hit: set<string>, mds: seq<Deployment>, pool: string)
    ensures AnyHit(init + [last], hit, mds, pool) ==>
              AnyHit(init, hit, mds, pool) || (InPool(mds, pool, last) && last.name in hit)
  {
    hide InPool;
  }

  lemma NoneSpared(hit: set<string>, mds: seq<Deployment>, pool: string, version: string)
    ensures CountPool([], mds, pool, version) == Count(0, 0) == CountPool(Spared([], hit), mds, pool, version)
    ensures !AnyHit([], hit, mds, pool)
  {
  }

  lemma OneInPool(mds: seq<Deployment>, pool: string, version: string, m: Machine)
    ensures CountOne(mds, pool, version, m).n <= CountOne(mds, pool, version, m).m
    ensures CountOne(mds, pool, version, m).m == if InPool(mds, pool, m) then 1 else 0
  {
    hide PoolNameOf, SameVersion;
  }

  /** So does a deletion: a pool at the target with no more live machines than it declares is
      mid-roll once the healer has deleted one of them. */
  lemma DeletionUnconverges(c: Cluster, doc: Doc, s: Step, c': Cluster, n: string, m: Machine)
    requires Moves(c, doc, s, c') && s.Act? && s.stage.Heals?
    requires n in DesiredNames(doc) && Lookup(s.live.mds, n).Some? && DeclaresTarget(doc, Lookup(s.live.mds, n).value)
    requires Lookup(s.live.mds, n).value.replicas.Some?
    requires CountPool(s.live.machines, s.live.mds, n, Target(doc)).m <= Lookup(s.live.mds, n).value.replicas.value
    requires m in s.live.machines && InPool(s.live.mds, n, m) && m.name in H.Hits(s.events)
    ensures n in MidRollNames(c', doc)
  {
    hide DeclaresTarget, InPool, CountPool, Spared;
    ShortfallExact(c, doc, s, c');
    LastSizeFrom(s.events, n);
    LookupUnique(s.live.mds, n);
    SparedCount(s.live.machines, H.Hits(s.events), s.live.mds, n, Target(doc));
    assert AnyHit(s.live.machines, H.Hits(s.events), s.live.mds, n);
  }
}
