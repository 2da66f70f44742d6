/** One roll at a time across changes of the document. The executor counts only pools rolling to the
    current target, so a change can make two roll: a sufficient rule, and exactly when. */
module RolloutTargets {
  import opened Common
  import opened Fleet
  import opened Versions
  import opened PoolResolution
  import opened Scaling
  import opened Rollout
  import opened RolloutLaws
  import opened RolloutRuns
  import opened RolloutSafety
  import opened RolloutFinish
  import E = ExecutorSpec
  import H = HealingLaws
  import Unwedge

  /** The pool runs its own declared version everywhere. */
  ghost predicate Settled(c: Cluster, n: string) {
    Lookup(c.mds, n).Some? && Observe(n, c.mds, c.machines, Lookup(c.mds, n).value.kubelet).Converged()
  }

  /** A pool the executor may roll, whether or not it still has to. */
  ghost predicate Versioned(c: Cluster, doc: Doc, n: string) {
    At(c, doc, n).Manageable() && At(c, doc, n).current != ""
  }

  lemma VersionedFound(c: Cluster, doc: Doc, n: string)
    requires Versioned(c, doc, n)
    ensures Lookup(c.mds, n).Some?
  {
  }

  lemma {:induction false} SameTargetCounts(machines: seq<Machine>, mds: seq<Deployment>, pool: string, a: string,
                        b: string)
    requires SameVersion(a, b)
    ensures CountPool(machines, mds, pool, a) == CountPool(machines, mds, pool, b)
  {
    if machines != [] { SameTargetCounts(machines[..|machines| - 1], mds, pool, a, b); }
  }

  lemma AtTargetSettled(c: Cluster, doc: Doc, n: string)
    requires At(c, doc, n).atTarget
    ensures Settled(c, n) <==> At(c, doc, n).Converged()
  {
    SameTargetCounts(c.machines, c.mds, n, Target(doc), Lookup(c.mds, n).value.kubelet);
  }

  /** Desired pools the executor may roll that are still rolling, whatever the version. */
  ghost function Unsettled(c: Cluster, doc: Doc): set<string> {
    set n | n in DesiredNames(doc) && Versioned(c, doc, n) && !Settled(c, n)
  }

  /** Of the pools at the target, the unsettled ones are those mid-roll. */
  lemma MidRollUnsettled(c: Cluster, doc: Doc, n: string)
    requires n in DesiredNames(doc) && At(c, doc, n).atTarget
    ensures n in MidRollNames(c, doc) <==> n in Unsettled(c, doc)
  {
    AtTargetSettled(c, doc, n);
  }

  /** The pass that starts a roll leaves unsettled, besides the pool it starts, exactly the pools
      waiting for their turn that had not settled on the version they declare. */
  lemma OthersUnsettled(c: Cluster, doc: Doc, s: Step, e: Event)
    requires IsRoll(c, doc, s) && e in s.events && e.PatchKubelet?
    ensures Unsettled(c, doc) - {e.pool} == set n | n in ToStart(c, doc) && n != e.pool && !Settled(c, n)
  {
    PatchingPass(c, doc, s, e);
    forall n | n in DesiredNames(doc) && n !in ToStart(c, doc) ensures n !in Unsettled(c, doc) {
      assert n !in MidRollNames(c, doc);
      if At(c, doc, n).atTarget { MidRollUnsettled(c, doc, n); }
    }
  }

  // ---------------------------------------------------------------- a sufficient rule

  /** A pool settled on the version it declares stays settled. */
  ghost predicate KeepsSettled(c: Cluster, c': Cluster, doc: Doc) {
    forall n :: n in DesiredNames(doc) && Versioned(c, doc, n) && Settled(c, n) ==> Settled(c', n)
  }

  /** The desired pools a stage leaves short of machines at the version each declares. */
  ghost function Lacking(c: Cluster, doc: Doc, events: seq<Event>): set<string> {
    set n | n in DesiredNames(doc) && Lookup(c.mds, n).Some?
            && var md := Lookup(c.mds, n).value;
               Eligible(md) && md.kubelet != "" && FallsShort(c, events, md, md.kubelet)
  }

  /** The environment un-settles no pool; a scaling or healing stage leaves at most one pool short,
      and none that is still waiting for its turn. */
  ghost predicate Gentle(c: Cluster, doc: Doc, s: Step, c': Cluster) {
    match s
    case Env => KeepsSettled(c, c', doc)
    case Act(stage, events, live) =>
      && KeepsSettled(c, live, doc)
      && (!stage.Rolls? ==>
            && |Lacking(live, doc, events)| <= 1
            && forall n :: n in Lacking(live, doc, events) ==> n !in ToStart(c, doc))
  }

  /** At most one pool is rolling, and it rolls to the current target. */
  ghost predicate OneAtTarget(c: Cluster, doc: Doc) {
    |Unsettled(c, doc)| <= 1 && forall n :: n in Unsettled(c, doc) ==> At(c, doc, n).atTarget
  }

  /** Settledness after a stage, read off the cluster its writes landed on. */
  lemma SettledAfter(c: Cluster, doc: Doc, s: Step, n: string)
    requires s.Act? && Behaves(c, doc, s.stage, s.events) && WellFormed(s.live) && !RolledBy(s.events, n)
    requires Lookup(s.live.mds, n).Some?
    ensures var events, md := s.events, Lookup(s.live.mds, n).value;
            var count := CountPool(Spared(s.live.machines, H.Hits(events)), s.live.mds, n, md.kubelet);
            Settled(Effect(s.live, events), n) <==>
              md.kubelet != "" && count.n >= Floored(count.m, AfterEvents(md, events).replicas)
  {
    hide CountPool, IsControlPlane, AutoscalerKey, Target;
    var events, live := s.events, s.live;
    var md := Lookup(live.mds, n).value;
    StageTargetOnly(c, doc, s);
    LookupUnique(live.mds, n);
    LookupAfter(live.mds, events, n);
    KubeletAfter(md, events, Target(doc));
    CountAfter(live.machines, H.Hits(events), live.mds, events, n, md.kubelet);
    SameAsItself(md.kubelet);
    hide SameVersion;
  }

  /** A rolling stage changes nothing about the pools it does not start. */
  lemma RollSettles(c: Cluster, doc: Doc, s: Step, c': Cluster, n: string)
    requires Moves(c, doc, s, c') && IsRoll(c, doc, s) && !RolledBy(s.events, n)
    requires Lookup(s.live.mds, n).Some?
    ensures Settled(c', n) <==> Settled(s.live, n)
  {
    var events, md := s.events, Lookup(s.live.mds, n).value;
    SettledAfter(c, doc, s, n);
    hide CountPool, IsControlPlane, AutoscalerKey, Target, SameVersion, Lookup;
    assert H.Hits(events) == {};
    SparedNone(s.live.machines);
    ReplicasAfter(md, events);
    LastSizeFrom(events, md.name);
    SameAsItself(md.kubelet);
  }

  lemma VersionedNext(c: Cluster, doc: Doc, s: Step, c': Cluster, n: string)
    requires Moves(c, doc, s, c') && n in DesiredNames(doc) && (s.Act? ==> !RolledBy(s.events, n))
    ensures Versioned(c', doc, n) <==> Versioned(c, doc, n)
    ensures s.Act? ==> (Versioned(s.live, doc, n) <==> Versioned(c, doc, n))
    ensures At(c', doc, n).atTarget == At(c, doc, n).atTarget
  {
    hide Target, SameVersion, CountPool, Effect;
    if s.Env? {
      EnvKeeps(c, c', doc, n);
    } else {
      EnvKeeps(c, s.live, doc, n);
      StageTargetOnly(c, doc, s);
      StatusAfter(s.live, s.events, doc, n);
      AtTargetMeans(c, doc, n);
      AtTargetMeans(c', doc, n);
    }
  }

  /** After a scaling or healing stage the unsettled pools are exactly those it leaves short. */
  lemma LackingExact(c: Cluster, doc: Doc, s: Step, c': Cluster)
    requires Moves(c, doc, s, c') && s.Act? && !s.stage.Rolls?
    ensures Unsettled(c', doc) == Lacking(s.live, doc, s.events)
  {
    forall n | n in DesiredNames(doc)
      ensures n in Unsettled(c', doc) <==> n in Lacking(s.live, doc, s.events)
    {
      LackingOne(c, doc, s, c', n);
    }
  }

  lemma LackingOne(c: Cluster, doc: Doc, s: Step, c': Cluster, n: string)
    requires Moves(c, doc, s, c') && s.Act? && !s.stage.Rolls?
    requires n in DesiredNames(doc)
    ensures n in Unsettled(c', doc) <==> n in Lacking(s.live, doc, s.events)
  {
    hide CountPool, IsControlPlane, AutoscalerKey, Target, SameVersion, Lookup, Settled;
    UnrolledByStage(c, doc, s, n);
    VersionedNext(c, doc, s, c', n);
    LookupUnique(s.live.mds, n);
    if Lookup(s.live.mds, n).Some? {
      SettledAfter(c, doc, s, n);
      ReplicasAfter(Lookup(s.live.mds, n).value, s.events);
    }
  }

  lemma EnvUnsettled(c: Cluster, c': Cluster, doc: Doc)
    requires EnvStep(c, c', doc) && KeepsSettled(c, c', doc)
    ensures Unsettled(c', doc) <= Unsettled(c, doc)
    ensures OneAtTarget(c, doc) ==> OneAtTarget(c', doc)
  {
    hide Settled;
    forall n | n in DesiredNames(doc)
      ensures n in Unsettled(c', doc) ==> n in Unsettled(c, doc)
      ensures At(c', doc, n).atTarget == At(c, doc, n).atTarget
    {
      EnvKeeps(c, c', doc, n);
    }
    SubsetSize(Unsettled(c', doc), Unsettled(c, doc));
  }

  /** A rolling stage: either nothing new is unsettled, or only the pool it starts is. */
  lemma RollUnsettled(c: Cluster, doc: Doc, s: Step, c': Cluster)
    requires Moves(c, doc, s, c') && IsRoll(c, doc, s) && KeepsSettled(c, s.live, doc) && OneAtTarget(c, doc)
    ensures OneAtTarget(c', doc)
  {
    hide Settled, Target, Effect, At, Lists;
    var events := s.events;
    EnvUnsettled(c, s.live, doc);
    forall n | n in DesiredNames(doc) && !RolledBy(events, n)
      ensures n in Unsettled(c', doc) ==> n in Unsettled(c, doc)
      ensures At(c', doc, n).atTarget == At(c, doc, n).atTarget
    {
      VersionedNext(c, doc, s, c', n);
      if Versioned(s.live, doc, n) {
        VersionedFound(s.live, doc, n);
        RollSettles(c, doc, s, c', n);
      }
    }
    if e :| e in events && e.PatchKubelet? && e.result.TookEffect() {
      PatchingPass(c, doc, s, e);
      OneRolled(c, doc, s, c', e);
      assert Unsettled(c, doc) == {} by { QuietSettled(c, doc); }
      assert Unsettled(c', doc) <= {e.pool};
      SubsetSize(Unsettled(c', doc), {e.pool});
    } else {
      assert Unsettled(c', doc) <= Unsettled(c, doc);
      SubsetSize(Unsettled(c', doc), Unsettled(c, doc));
    }
  }

  lemma QuietSettled(c: Cluster, doc: Doc)
    requires MidRollNames(c, doc) == {} && OneAtTarget(c, doc)
    ensures Unsettled(c, doc) == {}
  {
    if n :| n in Unsettled(c, doc) {
      MidRollUnsettled(c, doc, n);
      assert false;
    }
  }

  lemma OneRolled(c: Cluster, doc: Doc, s: Step, c': Cluster, e: Event)
    requires Moves(c, doc, s, c') && IsRoll(c, doc, s)
    requires e in s.events && e.PatchKubelet? && e.result.TookEffect()
    ensures forall n :: RolledBy(s.events, n) <==> n == e.pool
    ensures At(c', doc, e.pool).atTarget
  {
    hide Effect;
    PatchingPass(c, doc, s, e);
    PatchReachesTarget(c, doc, s, c', e);
  }

  lemma StepKeepsOneAtTarget(c: Cluster, doc: Doc, s: Step, c': Cluster)
    requires Moves(c, doc, s, c') && Gentle(c, doc, s, c') && OneAtTarget(c, doc)
    ensures OneAtTarget(c', doc)
  {
    hide Settled, Target, Effect, Lacking, Lists;
    if s.Env? {
      EnvUnsettled(c, c', doc);
    } else if s.stage.Rolls? {
      RollUnsettled(c, doc, s, c');
    } else {
      LackingExact(c, doc, s, c');
      ToStartNext(c, doc, s, c');
      forall n | n in Unsettled(c', doc) ensures At(c', doc, n).atTarget {
        assert n !in ToStart(c, doc);
        assert n !in ToStart(c', doc);
      }
    }
  }

  /** A new document, if it changes the target or the desired pools, arrives while every desired pool
      runs the version it declares. */
  ghost predicate ChangesSettled(c: Cluster, doc: Doc, doc': Doc) {
    || (Target(doc') == Target(doc) && DesiredNames(doc') == DesiredNames(doc))
    || Unsettled(c, doc') == {}
  }

  /** One step under the document of the moment, after which the next document takes over. */
  ghost predicate TargetStep(run: seq<Cluster>, docs: seq<Doc>, steps: seq<Step>, k: nat)
    requires k < |steps| && |run| == |docs| == |steps| + 1
  {
    && Next(run[k], docs[k], steps[k], run[k + 1]) && Gentle(run[k], docs[k], steps[k], run[k + 1])
    && ChangesSettled(run[k + 1], docs[k], docs[k + 1])
  }

  lemma ChangeKeeps(c: Cluster, doc: Doc, doc': Doc)
    requires OneAtTarget(c, doc) && ChangesSettled(c, doc, doc')
    ensures OneAtTarget(c, doc')
  {
    hide Target, DesiredNames, Observe;
    if Unsettled(c, doc') != {} {
      forall n ensures At(c, doc', n) == At(c, doc, n) {}
      assert Unsettled(c, doc') == Unsettled(c, doc);
    }
  }

  /** One roll at a time across targets: if every change of target or pools happens when no pool of the
      new document is unsettled, then at every moment at most one is, whatever version it rolls to. */
  lemma {:induction false} OneRollAcrossTargets(run: seq<Cluster>, docs: seq<Doc>, steps: seq<Step>, i: nat)
    requires i < |run| == |docs| == |steps| + 1
    requires forall k: nat :: k < |steps| ==> TargetStep(run, docs, steps, k)
    requires Unsettled(run[0], docs[0]) == {}
    ensures OneAtTarget(run[i], docs[i])
  {
    hide TargetStep, OneAtTarget, Unsettled;
    if i == 0 {
      NoneUnsettled(run[0], docs[0]);
    } else {
      OneRollAcrossTargets(run, docs, steps, i - 1);
      assert TargetStep(run, docs, steps, i - 1);
      OneTargetStep(run, docs, steps, i - 1);
    }
  }

  lemma NoneUnsettled(c: Cluster, doc: Doc)
    requires Unsettled(c, doc) == {}
    ensures OneAtTarget(c, doc)
  {
  }

  lemma OneTargetStep(run: seq<Cluster>, docs: seq<Doc>, steps: seq<Step>, k: nat)
    requires k < |steps| && |run| == |docs| == |steps| + 1
    requires TargetStep(run, docs, steps, k) && OneAtTarget(run[k], docs[k])
    ensures OneAtTarget(run[k + 1], docs[k + 1])
  {
    hide OneAtTarget, Next, Moves, Gentle, ChangesSettled;
    NextMoves(run[k], docs[k], steps[k], run[k + 1]);
    StepKeepsOneAtTarget(run[k], docs[k], steps[k], run[k + 1]);
    ChangeKeeps(run[k + 1], docs[k], docs[k + 1]);
  }

  // ---------------------------------------------------------------- exactly when two pools roll

  /** What starting a roll of `p` leaves rolling: what was rolling, and `p` unless its machines run the
      target already. */
  ghost function RollLeaves(live: Cluster, doc: Doc, p: string): set<string> {
    (Unsettled(live, doc) - {p}) + if At(live, doc, p).n < At(live, doc, p).m then {p} else {}
  }

  /** A pool that is started rolls exactly if not all its machines run the target already. */
  lemma StartedRolls(c: Cluster, doc: Doc, s: Step, c': Cluster, p: string)
    requires Moves(c, doc, s, c') && IsRoll(c, doc, s) && RolledBy(s.events, p)
    ensures p in DesiredNames(doc) && Versioned(c', doc, p)
    ensures !Settled(c', p) <==> At(s.live, doc, p).n < At(s.live, doc, p).m
  {
    hide CountPool, IsControlPlane, AutoscalerKey, Target, SameVersion, Settled, Effect;
    var live, events := s.live, s.events;
    var e :| e in events && e.PatchKubelet? && e.pool == p && e.result.TookEffect();
    PatchingPass(c, doc, s, e);
    OneRolled(c, doc, s, c', e);
    EnvKeeps(c, live, doc, p);
    StageTargetOnly(c, doc, s);
    StatusAfter(live, events, doc, p);
    assert H.Hits(events) == {};
    SparedNone(live.machines);
    LookupUnique(live.mds, p);
    ReplicasAfter(Lookup(live.mds, p).value, events);
    LastSizeFrom(events, p);
    AtTargetSettled(c', doc, p);
  }

  lemma OtherKeeps(c: Cluster, doc: Doc, s: Step, c': Cluster, n: string)
    requires Moves(c, doc, s, c') && IsRoll(c, doc, s) && n in DesiredNames(doc) && !RolledBy(s.events, n)
    ensures n in Unsettled(c', doc) <==> n in Unsettled(s.live, doc)
  {
    hide Settled, Target, Effect, At;
    VersionedNext(c, doc, s, c', n);
    if Versioned(s.live, doc, n) {
      VersionedFound(s.live, doc, n);
      RollSettles(c, doc, s, c', n);
    }
  }

  /** After a rolling stage that started `p`, exactly these pools are rolling. */
  lemma RollLeavesExact(c: Cluster, doc: Doc, s: Step, c': Cluster, p: string)
    requires Moves(c, doc, s, c') && IsRoll(c, doc, s) && RolledBy(s.events, p)
    ensures Unsettled(c', doc) == RollLeaves(s.live, doc, p)
  {
    assert s.Act?;
    hide Versioned, Settled, At, Moves, IsRoll, DesiredNames;
    var e :| e in s.events && e.PatchKubelet? && e.pool == p && e.result.TookEffect();
    OneRolled(c, doc, s, c', e);
    StartedRolls(c, doc, s, c', p);
    hide RolledBy;
    forall n | n in DesiredNames(doc) && n != p ensures n in Unsettled(c', doc) <==> n in Unsettled(s.live, doc) {
      OtherKeeps(c, doc, s, c', n);
    }
  }

  /** A rolling stage that started nothing leaves rolling what was. */
  lemma RollLeavesAsWas(c: Cluster, doc: Doc, s: Step, c': Cluster)
    requires Moves(c, doc, s, c') && IsRoll(c, doc, s) && forall p :: !RolledBy(s.events, p)
    ensures Unsettled(c', doc) == Unsettled(s.live, doc)
  {
    assert s.Act?;
    hide Versioned, Settled, At, Moves, IsRoll, RolledBy, DesiredNames;
    forall n | n in DesiredNames(doc) ensures n in Unsettled(c', doc) <==> n in Unsettled(s.live, doc) {
      OtherKeeps(c, doc, s, c', n);
    }
  }

  /** By what a stage finds and writes it leaves at most one pool rolling. */
  ghost predicate LeavesOneRolling(doc: Doc, s: Step) {
    match s
    case Env => true
    case Act(stage, events, live) =>
      if stage.Rolls? then forall p :: RolledBy(events, p) ==> |RollLeaves(live, doc, p)| <= 1
      else |Lacking(live, doc, events)| <= 1
  }

  /** The environment un-settles no pool. */
  ghost predicate EnvCalm(c: Cluster, doc: Doc, s: Step, c': Cluster) {
    KeepsSettled(c, if s.Env? then c' else s.live, doc)
  }

  lemma StepLeavesOneIff(c: Cluster, doc: Doc, s: Step, c': Cluster)
    requires Moves(c, doc, s, c') && EnvCalm(c, doc, s, c') && |Unsettled(c, doc)| <= 1
    ensures |Unsettled(c', doc)| <= 1 <==> LeavesOneRolling(doc, s)
  {
    hide Unsettled, KeepsSettled, EnvStep, Effect, Behaves, Lacking, RollLeaves, RolledBy;
    if s.Env? {
      EnvUnsettled(c, c', doc);
      SubsetSize(Unsettled(c', doc), Unsettled(c, doc));
    } else if !s.stage.Rolls? {
      LackingExact(c, doc, s, c');
    } else if p :| RolledBy(s.events, p) {
      forall q | RolledBy(s.events, q) ensures Unsettled(c', doc) == RollLeaves(s.live, doc, q) {
        RollLeavesExact(c, doc, s, c', q);
      }
    } else {
      RollLeavesAsWas(c, doc, s, c');
      EnvUnsettled(c, s.live, doc);
      SubsetSize(Unsettled(s.live, doc), Unsettled(c, doc));
    }
  }

  /** One step under the document of the moment, in a calm environment; then the next document takes over. */
  ghost predicate CalmStep(run: seq<Cluster>, docs: seq<Doc>, steps: seq<Step>, k: nat)
    requires k < |steps| && |run| == |docs| == |steps| + 1
  {
    Next(run[k], docs[k], steps[k], run[k + 1]) && EnvCalm(run[k], docs[k], steps[k], run[k + 1])
  }

  /** At most one pool is rolling after step `k`, before and after the next document takes over. */
  ghost predicate OneRolling(run: seq<Cluster>, docs: seq<Doc>, k: nat)
    requires k + 1 < |run| == |docs|
  {
    |Unsettled(run[k + 1], docs[k])| <= 1 && |Unsettled(run[k + 1], docs[k + 1])| <= 1
  }

  /** The step leaves at most one pool rolling, and new desired pools come with at most one rolling. */
  ghost predicate AllowsOne(run: seq<Cluster>, docs: seq<Doc>, steps: seq<Step>, k: nat)
    requires k < |steps| && |run| == |docs| == |steps| + 1
  {
    && LeavesOneRolling(docs[k], steps[k])
    && (DesiredNames(docs[k + 1]) != DesiredNames(docs[k]) ==> |Unsettled(run[k + 1], docs[k + 1])| <= 1)
  }

  /** Which pools are rolling does not depend on the target. */
  lemma TargetFree(c: Cluster, doc: Doc, doc': Doc)
    requires DesiredNames(doc') == DesiredNames(doc)
    ensures Unsettled(c, doc') == Unsettled(c, doc)
  {
    hide Target, DesiredNames, RollProgress, IsControlPlane, AutoscalerKey, Settled;
    forall n ensures Versioned(c, doc', n) <==> Versioned(c, doc, n) {}
  }

  lemma AllowsOneIff(run: seq<Cluster>, docs: seq<Doc>, steps: seq<Step>, k: nat)
    requires k < |steps| && |run| == |docs| == |steps| + 1
    requires CalmStep(run, docs, steps, k) && |Unsettled(run[k], docs[k])| <= 1
    ensures OneRolling(run, docs, k) <==> AllowsOne(run, docs, steps, k)
  {
    hide Next, Moves, EnvCalm, Unsettled, LeavesOneRolling, DesiredNames;
    NextMoves(run[k], docs[k], steps[k], run[k + 1]);
    StepLeavesOneIff(run[k], docs[k], steps[k], run[k + 1]);
    if DesiredNames(docs[k + 1]) == DesiredNames(docs[k]) { TargetFree(run[k + 1], docs[k], docs[k + 1]); }
  }

  lemma {:induction false} AllowedSoFar(run: seq<Cluster>, docs: seq<Doc>, steps: seq<Step>, i: nat)
    requires i < |run| == |docs| == |steps| + 1 && |Unsettled(run[0], docs[0])| <= 1
    requires forall k: nat :: k < |steps| ==> CalmStep(run, docs, steps, k)
    requires forall k: nat :: k < |steps| ==> AllowsOne(run, docs, steps, k)
    ensures |Unsettled(run[i], docs[i])| <= 1
  {
    hide CalmStep, AllowsOne, Unsettled;
    if i > 0 {
      AllowedSoFar(run, docs, steps, i - 1);
      assert CalmStep(run, docs, steps, i - 1) && AllowsOne(run, docs, steps, i - 1);
      AllowsOneIff(run, docs, steps, i - 1);
    }
  }

  lemma {:induction false} RollingSoFar(run: seq<Cluster>, docs: seq<Doc>, i: nat)
    requires i < |run| == |docs| && |Unsettled(run[0], docs[0])| <= 1
    requires forall k: nat :: k + 1 < |run| ==> OneRolling(run, docs, k)
    ensures |Unsettled(run[i], docs[i])| <= 1
  {
    hide Unsettled;
    if i > 0 { assert OneRolling(run, docs, i - 1); }
  }

  /** One roll at a time across targets, exactly. In a run in which the environment un-settles nobody and
      which starts with at most one pool rolling, at most one is rolling at every moment, to whatever
      version, before and after every change of document, if and only if no scaling or healing stage
      leaves two pools lacking machines, no roll is started beside a pool still rolling, and no new
      desired pools come with two rolling. */
  lemma OneRollAcrossTargetsIff(run: seq<Cluster>, docs: seq<Doc>, steps: seq<Step>)
    requires |run| == |docs| == |steps| + 1 && |Unsettled(run[0], docs[0])| <= 1
    requires forall k: nat :: k < |steps| ==> CalmStep(run, docs, steps, k)
    ensures (forall k: nat :: k < |steps| ==> OneRolling(run, docs, k))
            <==> (forall k: nat :: k < |steps| ==> AllowsOne(run, docs, steps, k))
  {
    hide CalmStep, AllowsOne, OneRolling, Unsettled;
    if forall k: nat :: k < |steps| ==> AllowsOne(run, docs, steps, k) {
      forall k: nat | k < |steps| ensures OneRolling(run, docs, k) {
        AllowedSoFar(run, docs, steps, k);
        AllowsOneIff(run, docs, steps, k);
      }
    }
    if forall k: nat :: k < |steps| ==> OneRolling(run, docs, k) {
      forall k: nat | k < |steps| ensures AllowsOne(run, docs, steps, k) {
        RollingSoFar(run, docs, k);
        AllowsOneIff(run, docs, steps, k);
      }
    }
  }

  /** A good pass that is not raced, read off the document and the listing alone: it starts the first pool
      to start, so afterwards exactly these pools are rolling. */
  lemma NextRollLeaves(c: Cluster, doc: Doc, s: Step, i: Inputs, c': Cluster, first: nat)
    requires AbleWith(c, doc, s, i) && MidRollNames(c, doc) == {} && s.live == c && WellFormed(c) && c' == Effect(c, s.events)
    requires first < |RollPools(doc.pools)| && At(c, doc, RollPools(doc.pools)[first].name).Startable()
    requires forall j :: 0 <= j < first ==> !At(c, doc, RollPools(doc.pools)[j].name).Startable()
    ensures Unsettled(c', doc) == RollLeaves(c, doc, RollPools(doc.pools)[first].name)
  {
    hide Observe, RollPools, Target, RollAll, CheckPreflight, StageEvents, Lists, Behaves, Effect, EnvStep;
    var pools := RollPools(doc.pools);
    var statuses := ObserveAll(pools, c.mds, c.machines, Target(doc));
    assert forall j :: 0 <= j < |pools| ==> statuses[j] == At(c, doc, pools[j].name);
    NoMidRollStatuses(c, doc);
    FirstStartablePatched(i.memory.rollFrom, doc.revision, statuses, |statuses|, first, Target(doc), ViewOf(c, i));
    ProceedingPass(c, doc, s, i);
    NameObserved(pools[first].name, c, doc);
    var e := PatchKubelet(pools[first].name, Target(doc), i.view.rollFate(first));
    assert e in s.events && RolledBy(s.events, pools[first].name);
    EnvIdles(c, doc);
    hide RollLeaves, Unsettled;
    RollLeavesExact(c, doc, s, c', pools[first].name);
  }

  // ---------------------------------------------------------------- a target that moves too early

  function GapPool(name: string): Deployment { Deployment(name, {}, {}, None, None, "1.30") }

  function GapMachine(pool: string, version: string): Machine {
    Machine(pool + "1", map[], map[], [OwnerRef("MachineSet", pool + "-x")], false, "n", None, version, "", "")
  }

  /** Pool a runs what it declares; pool b still has a machine on an older version. */
  function GapCluster(): Cluster {
    Cluster([GapPool("a"), GapPool("b")], [GapMachine("a", "1.30"), GapMachine("b", "1.29")])
  }

  lemma GapMachinePool(pool: string, version: string)
    requires pool == "a" || pool == "b"
    ensures PoolNameOf(GapCluster().mds, GapMachine(pool, version)) == pool
  {
    var mds, m, md := GapCluster().mds, GapMachine(pool, version), GapPool(pool);
    var owner := pool + "-x";
    assert owner[..2] == pool + "-" && (pool + "-")[..1] == pool;
    assert StripLastSegment(owner) == StripLastSegment(pool + "-") == pool;
    assert mds[0] == GapPool("a") && mds[1] == GapPool("b") && md in mds;
    assert NamedByOwner(mds, m, 0, md);
    assert forall j: nat, other :: j < 0 ==> !NamedByOwner(mds, m, j, other);
    assert IsOwner(mds, m, md);
    assert DeploymentName(mds[0]) != DeploymentName(mds[1]);
    PoolForSound(mds, m);
    OwnerUnique(mds, m, md, OwnerOf(mds, m).value);
  }

  /** A rolling stage that may act, on a cluster it has listed. */
  function GapInputs(): Inputs {
    Inputs(E.Memory(map[], map[], map[]), E.Settings(10, 0, 0), [],
           E.Reads(None, (i: nat) => Ok, Some(GapCluster().mds), Some(GapCluster().machines), "1.31", (i: nat) => Ok, 0,
                   None, None, None, (n: string) => Unwedge.Unwired, (n: string, i: nat) => Ok, (i: nat) => Ok))
  }

  function GapRoll(): Step { Act(Stage.Rolls, StageEvents(Stage.Rolls, DocAB(), GapInputs()), GapCluster()) }

  lemma GapLookup()
    ensures Lookup(GapCluster().mds, "a") == Some(GapPool("a")) && Lookup(GapCluster().mds, "b") == Some(GapPool("b"))
    ensures WellFormed(GapCluster()) && Eligible(GapPool("a")) && Eligible(GapPool("b"))
  {
    var mds := GapCluster().mds;
    assert DeploymentName(mds[0]) != DeploymentName(mds[1]) && mds[0] in mds && mds[1] in mds;
    LookupUnique(mds, "a");
    LookupUnique(mds, "b");
    PlainNameEligible("a", GapPool("a"));
    PlainNameEligible("b", GapPool("b"));
  }

  lemma GapStartable(n: string)
    requires n == "a" || n == "b"
    ensures At(GapCluster(), DocAB(), n).Startable()
  {
    DocABMeans();
    GapLookup();
    assert TrimV("1.30") == "1.30" && TrimV("1.31") == "1.31" && "1.30"[3] != "1.31"[3];
    AtTargetMeans(GapCluster(), DocAB(), n);
  }

  /** A pool with a live machine on another version has machines to replace. */
  lemma Replaces(c: Cluster, pool: string, md: Deployment, version: string, m: Machine)
    requires m in c.machines && InPool(c.mds, pool, m) && !AtVersion(m, version)
    ensures var (n, all) := RollProgress(c.machines, c.mds, md, pool, version); n < all
  {
    hide InPool, AtVersion;
    RollProgressMeans(c.machines, c.mds, md, pool, version);
  }

  lemma GapVersions()
    ensures SameVersion("1.30", "1.30") && !SameVersion("1.29", "1.30") && !SameVersion("1.30", "1.31")
  {
    assert TrimV("1.30") == "1.30" && TrimV("1.31") == "1.31" && TrimV("1.29") == "1.29";
    assert "1.30"[3] != "1.31"[3] && "1.29"[2] != "1.30"[2];
  }

  lemma GapMachines(m: Machine)
    requires m in GapCluster().machines
    ensures m == GapMachine("a", "1.30") || m == GapMachine("b", "1.29")
  {
  }

  /** Before the stage only pool b is rolling. */
  lemma GapSettledness()
    ensures Settled(GapCluster(), "a") && !Settled(GapCluster(), "b")
    ensures At(GapCluster(), DocAB(), "a").n < At(GapCluster(), DocAB(), "a").m
  {
    var c := GapCluster();
    DocABMeans();
    GapLookup();
    GapVersions();
    GapMachinePool("a", "1.30");
    GapMachinePool("b", "1.29");
    hide Lookup, PoolNameOf, SameVersion, Target, RollPools, PassPools, DesiredNames, CountPool, IsControlPlane,
         AutoscalerKey;
    assert c.machines[0] == GapMachine("a", "1.30") && c.machines[1] == GapMachine("b", "1.29");
    assert GapMachine("a", "1.30") in c.machines && GapMachine("b", "1.29") in c.machines;
    Replaces(c, "b", GapPool("b"), "1.30", GapMachine("b", "1.29"));
    Replaces(c, "a", GapPool("a"), "1.31", GapMachine("a", "1.30"));
    RollProgressMeans(c.machines, c.mds, GapPool("a"), "a", "1.30");
    forall m | m in c.machines && InPool(c.mds, "a", m) ensures AtVersion(m, "1.30") { GapMachines(m); }
  }

  lemma GapPreflight()
    ensures CheckPreflight("1.31", "1.31").Proceed?
  {
    assert Decimal(1) == "1" && Decimal(3) == "3" && Decimal(31) == "31";
    assert Printed(false, 1, 31) + [] == "1.31";
    ParseRecoversPrinted(false, 1, 31, []);
  }

  lemma GapAble()
    ensures AbleWith(GapCluster(), DocAB(), GapRoll(), GapInputs())
  {
    DocABMeans();
    GapPreflight();
    hide Target, CheckPreflight, StageEvents;
  }

  lemma GapMoves(c': Cluster)
    requires AbleWith(GapCluster(), DocAB(), GapRoll(), GapInputs()) && c' == Effect(GapCluster(), GapRoll().events)
    ensures Next(GapCluster(), DocAB(), GapRoll(), c') && IsRoll(GapCluster(), DocAB(), GapRoll())
  {
    hide Target, CheckPreflight, StageEvents, Lists, EnvStep, Effect, Behaves;
    GapLookup();
    EnvIdles(GapCluster(), DocAB());
    StageBehaves(GapCluster(), DocAB(), Stage.Rolls, GapInputs());
  }

  /** With the target moved from 1.30 to 1.31 while pool b still replaces its 1.29 machine, the stage
      starts pool a: before it one pool is rolling, after it two are. */
  lemma ChangedTargetRollsTwo(c': Cluster)
    requires c' == Effect(GapCluster(), GapRoll().events)
    ensures Next(GapCluster(), DocAB(), GapRoll(), c') && RolledBy(GapRoll().events, "a")
    ensures Unsettled(GapCluster(), DocAB()) == {"b"} && Unsettled(c', DocAB()) == {"a", "b"}
  {
    var c, doc, s := GapCluster(), DocAB(), GapRoll();
    assert s.live == c && doc.pools == PoolsAB() && GapInputs().view.rollFate(0) == Ok;
    hide *;
    DocABMeans();
    GapStartable("a");
    GapStartable("b");
    GapAble();
    GapMoves(c');
    NextMoves(c, doc, s, c');
    TwoStartable(c, doc, s, GapInputs(), "a", "b");
    OnlyA(c, doc, s);
    RollLeavesExact(c, doc, s, c', "a");
    GapBefore();
    GapAfter();
  }

  lemma GapBefore()
    ensures Unsettled(GapCluster(), DocAB()) == {"b"}
  {
    DocABMeans();
    GapSettledness();
    GapStartable("a");
    GapStartable("b");
    hide Settled, At, DesiredNames;
  }

  lemma GapAfter()
    ensures RollLeaves(GapCluster(), DocAB(), "a") == {"a", "b"}
  {
    GapSettledness();
    GapBefore();
    hide Unsettled, At;
  }

  lemma OnlyA(c: Cluster, doc: Doc, s: Step)
    requires IsRoll(c, doc, s) && PatchKubelet("a", Target(doc), Ok) in s.events
    ensures RolledBy(s.events, "a") && !RolledBy(s.events, "b")
  {
    hide Lists, Target;
    PatchingPass(c, doc, s, PatchKubelet("a", Target(doc), Ok));
  }

  lemma TwoStatuses(c: Cluster, doc: Doc, a: string, b: string)
    requires |RollPools(doc.pools)| == 2 && RollPools(doc.pools)[0].name == a && RollPools(doc.pools)[1].name == b
    ensures ObserveAll(RollPools(doc.pools), c.mds, c.machines, Target(doc)) == [At(c, doc, a), At(c, doc, b)]
  {
    hide Observe, RollPools, Target;
  }

  /** Two startable pools, nothing mid-roll: the pass starts the first and leaves the second. */
  lemma TwoStartable(c: Cluster, doc: Doc, s: Step, i: Inputs, a: string, b: string)
    requires |RollPools(doc.pools)| == 2 && RollPools(doc.pools)[0].name == a && RollPools(doc.pools)[1].name == b
    requires At(c, doc, a).Startable() && At(c, doc, b).Startable()
    requires AbleWith(c, doc, s, i) && i.view.rollFate(0) == Ok
    ensures PatchKubelet(a, Target(doc), Ok) in s.events && b in ToStart(c, doc)
  {
    var statuses := ObserveAll(RollPools(doc.pools), c.mds, c.machines, Target(doc));
    NameObserved(a, c, doc);
    TwoStatuses(c, doc, a, b);
    assert RollPools(doc.pools)[1] in RollPools(doc.pools);
    hide Observe, RollPools, Target, RollAll, CheckPreflight, AbleWith, StageEvents, IsRoll;
    FirstStartablePatched(i.memory.rollFrom, doc.revision, statuses, 2, 0, Target(doc), ViewOf(c, i));
    ProceedingPass(c, doc, s, i);
  }
}
