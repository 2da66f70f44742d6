/** What one Reconcile call does, exactly: which writes it sends, in which order, and when it asks to be
    run again, in terms of the document, the readings and the answers. */
module ReconcileLaws {
  import opened Common
  import opened Fleet
  import opened FleetLaws
  import opened Unwedge
  import opened Healing
  import opened HealingLaws
  import opened ExecutorSpec
  import opened ExecutorRuns
  import Scaling
  import ScalingLaws
  import Rollout
  import RolloutLaws
  import RolloutExact
  import Versions

  /** The API server names objects uniquely within a listing. */
  ghost predicate Named(r: Reads) {
    && (r.scaleMds.Some? ==> UniqueBy(r.scaleMds.value, DeploymentName))
    && (r.rollMds.Some? ==> UniqueBy(r.rollMds.value, DeploymentName))
    && (r.healMachines.Some? ==> UniqueBy(r.healMachines.value, MachineName))
    && (r.healNodes.Some? ==> UniqueBy(r.healNodes.value, NodeName))
  }

  /** The stages of a call, each behind its own flag of the document, in the order scale, roll, heal; a
      document with every flag off clears the reports and does nothing else. */
  lemma StagesInOrder(m: Memory, s: Settings, doc: Doc, order: seq<string>, r: Reads)
    ensures var healing := doc.execution.healing && doc.healing.enabled;
            var out := Reconcile(m, s, doc, order, r);
            var scale := Scaling.ScalePass(doc, r.scaleMds, s.maxReplicas, r.scaleFate);
            var roll := Rollout.UpgradePass(m.rollFrom, doc, r.rollMds, r.rollMachines, r.observed, r.rollFate);
            if !doc.execution.scaling && !doc.execution.upgrades && !healing then
              out == Result(m, false, [ClearReports])
            else
              && out.memory.rollFrom == (if doc.execution.upgrades then roll.rollFrom else m.rollFrom)
              && out.retry == (|| (doc.execution.scaling && scale.halted)
                               || (doc.execution.upgrades && roll.retry) || healing)
              && if healing && r.HealReadable() then
                   var heal := HealPass(m.lastHeal, m.tracked, s.baseline, doc, order, ViewOf(s, r));
                   && out.memory.lastHeal == heal.lastHeal && out.memory.tracked == heal.tracked
                   && out.events == [BeginRevision(doc.revision)]
                                    + (if doc.execution.scaling then scale.events else [])
                                    + (if doc.execution.upgrades then roll.events else []) + heal.events
                 else
                   && out.memory.lastHeal == m.lastHeal && out.memory.tracked == m.tracked
                   && out.events == [BeginRevision(doc.revision)]
                                    + (if doc.execution.scaling then scale.events else [])
                                    + (if doc.execution.upgrades then roll.events else [])
  {
    hide Scaling.ScalePass, Rollout.UpgradePass, HealPass;
    var a := ScaleStage(m, s, doc, r);
    var b := UpgradeStage(a.memory, doc, r);
    var c := HealStage(b.memory, s, doc, order, r);
    assert !ReportOnly(doc) ==>
             Reconcile(m, s, doc, order, r).events == [BeginRevision(doc.revision)] + a.events + b.events + c.events;
  }

  /** The scaling stage has something to come back for. */
  ghost predicate ScaleAgain(s: Settings, doc: Doc, r: Reads) {
    var pools := Scaling.PassPools(doc.pools);
    && doc.execution.scaling && doc.pools != []
    && (r.scaleMds.None?
        || ScalingLaws.FailedBefore(pools, r.scaleMds.value, s.maxReplicas, r.scaleFate, |pools|))
  }

  /** So has the rolling stage: it could not list, waits for the control plane, or has a pool to start or
      still rolling. */
  ghost predicate RollAgain(doc: Doc, r: Reads) {
    var pools, target := Rollout.RollPools(doc.pools), Rollout.Target(doc);
    && doc.execution.upgrades && target != "" && pools != []
    && (r.rollMds.Some? && r.rollMachines.Some? ==>
          var v := Rollout.RollView(r.rollMds.value, r.rollMachines.value, r.observed, r.rollFate);
          if RolloutExact.AnyOff(pools, target, v) && !RolloutLaws.MayRoll(target, r.observed) then
            Versions.ParseMajorMinor(target).Some?
          else RolloutExact.Unfinished(pools, target, v))
  }

  /** While healing is armed a call always asks to be run again, whatever it read and did. */
  lemma HealingAlwaysRetries(m: Memory, s: Settings, doc: Doc, order: seq<string>, r: Reads)
    requires doc.execution.healing && doc.healing.enabled
    ensures Reconcile(m, s, doc, order, r).retry
  {
    hide Scaling.ScalePass, Rollout.UpgradePass, HealPass;
  }

  /** A call asks to be run again exactly when healing is armed, or scaling could not list or had a patch
      refused by the API, or rolling could not list, waits, or is not finished. */
  lemma RetryIff(m: Memory, s: Settings, doc: Doc, order: seq<string>, r: Reads)
    requires Named(r)
    ensures Reconcile(m, s, doc, order, r).retry <==>
              (doc.execution.healing && doc.healing.enabled) || ScaleAgain(s, doc, r) || RollAgain(doc, r)
  {
    hide UniqueBy, Scaling.ScalePass, Rollout.UpgradePass, HealPass, Reconcile, Scaling.PassPools, Rollout.RollPools,
         Rollout.Target, Versions.ParseMajorMinor, ScalingLaws.FailedBefore, RolloutExact.AnyOff,
         RolloutExact.Unfinished, RolloutLaws.MayRoll;
    StagesInOrder(m, s, doc, order, r);
    ScalingLaws.ScaledIff(doc, r.scaleMds, s.maxReplicas, r.scaleFate);
    RolloutExact.RollRetryIff(m.rollFrom, doc, r.rollMds, r.rollMachines, r.observed, r.rollFate);
  }

  // ---------------------------------------------------------------- which writes it sends

  /** The healer gets to work: it is armed and has read its inputs. */
  ghost predicate Heals(doc: Doc, r: Reads) {
    doc.execution.healing && doc.healing.enabled && r.healMds.Some? && r.healMachines.Some? && r.healNodes.Some?
  }

  lemma StageKinds(m: Memory, s: Settings, doc: Doc, r: Reads)
    ensures doc.execution.scaling ==>
              forall e :: e in Scaling.ScalePass(doc, r.scaleMds, s.maxReplicas, r.scaleFate).events ==>
                e.Report? || e.PatchReplicas?
    ensures doc.execution.upgrades ==>
              var out := Rollout.UpgradePass(m.rollFrom, doc, r.rollMds, r.rollMachines, r.observed, r.rollFate);
              forall e :: e in out.events ==> e.Report? || e.PatchKubelet?
  {
    hide Scaling.ScalePass, Rollout.UpgradePass;
    ScaleKinds(m, s, doc, r);
    UpgradeKinds(m, doc, r);
  }

  lemma PassPatchesNothing(m: Memory, s: Settings, doc: Doc, order: seq<string>, r: Reads)
    requires Heals(doc, r) ==> Enumerates(order, m.tracked)
    ensures Heals(doc, r) ==>
              forall e :: e in HealPass(m.lastHeal, m.tracked, s.baseline, doc, order, ViewOf(s, r)).events ==>
                !e.PatchReplicas? && !e.PatchKubelet?
  {
    if Heals(doc, r) { HealKinds(m.lastHeal, m.tracked, s.baseline, doc, order, ViewOf(s, r)); }
  }

  /** A call sends exactly the replica and version patches that its document, its listings and the answers
      call for: with the scaling flag those of the scalable pools up to the first one not accepted, with the
      upgrade flag that of the next pool to roll, and none otherwise. */
  lemma PatchesIff(m: Memory, s: Settings, doc: Doc, order: seq<string>, r: Reads, e: Event)
    requires Named(r) && (Heals(doc, r) ==> Enumerates(order, m.tracked)) && (e.PatchReplicas? || e.PatchKubelet?)
    ensures var scaled, rolled := Scaling.PassPools(doc.pools), Rollout.RollPools(doc.pools);
            e in Reconcile(m, s, doc, order, r).events <==>
              if e.PatchReplicas? then
                && doc.execution.scaling && r.scaleMds.Some?
                && ScalingLaws.PatchedBy(scaled, |scaled|, r.scaleMds.value, s.maxReplicas, r.scaleFate, e)
              else
                && doc.execution.upgrades && Rollout.Target(doc) != "" && r.rollMds.Some? && r.rollMachines.Some?
                && exists i: nat ::
                     && RolloutExact.RollsNext(rolled, i, Rollout.Target(doc),
                          Rollout.RollView(r.rollMds.value, r.rollMachines.value, r.observed, r.rollFate))
                     && e == PatchKubelet(rolled[i].name, Rollout.Target(doc), r.rollFate(i))
  {
    hide UniqueBy, Enumerates, Scaling.ScalePass, Rollout.UpgradePass, HealPass, Reconcile, Scaling.PassPools,
         Rollout.RollPools, Rollout.Target, ScalingLaws.PatchedBy, RolloutExact.RollsNext;
    StagesInOrder(m, s, doc, order, r);
    StageKinds(m, s, doc, r);
    PassPatchesNothing(m, s, doc, order, r);
    if e.PatchReplicas? {
      ScalingLaws.ScaledIff(doc, r.scaleMds, s.maxReplicas, r.scaleFate);
    } else {
      RolloutExact.KubeletPatchedIff(m.rollFrom, doc, r.rollMds, r.rollMachines, r.observed, r.rollFate, e);
    }
  }

  /** And exactly the deletions and unwedge attempts that the readings call for, when it is armed and has
      read its inputs, and none otherwise: the i-th candidate is attempted when there are no more sick
      machines than maxUnhealthy and nothing holds it back at its turn, and a tracked deletion when it hangs. */
  lemma HealsIff(m: Memory, s: Settings, doc: Doc, order: seq<string>, r: Reads, name: string)
    requires Named(r) && (Heals(doc, r) ==> Enumerates(order, m.tracked))
    ensures var events := Reconcile(m, s, doc, order, r).events;
            && ((exists e :: e in events && e.UnwedgeAttempt? && e.machine == name) <==>
                  Heals(doc, r) && name in m.tracked && Hangs(ViewOf(s, r), name, m.tracked[name]))
            && (name in Attempted(events) <==>
                  Heals(doc, r) && exists i: nat :: Due(m, s, doc, order, r, name, i))
  {
    hide UniqueBy, Enumerates, Scaling.ScalePass, Rollout.UpgradePass, HealPass, Reconcile, Hangs, Due;
    StagesInOrder(m, s, doc, order, r);
    StageKinds(m, s, doc, r);
    if Heals(doc, r) {
      var v := ViewOf(s, r);
      PassUnwedgesIff(m.lastHeal, m.tracked, s.baseline, doc, order, v, name);
      PassDeletesIff(m, s, doc, order, r, name);
    }
  }

  /** The i-th candidate is that machine, and it is attempted. */
  ghost predicate Due(m: Memory, s: Settings, doc: Doc, order: seq<string>, r: Reads, name: string, i: nat)
    requires Heals(doc, r)
  {
    var v := ViewOf(s, r);
    && i < |Candidates(v, doc.healing)| && Candidates(v, doc.healing)[i].machine == name
    && |SickNames(v, doc.healing)| <= doc.healing.maxUnhealthy
    && LetThrough(Candidates(v, doc.healing)[i], Before(m.lastHeal, m.tracked, s.baseline, doc, order, v, i), m.lastHeal,
                  CountDeleting(v.machines),
                  Config(doc.revision, v.now, s.baseline, doc.healing.cooldownSeconds * SECOND, doc.healing.maxUnhealthy))
  }

  lemma PassUnwedgesIff(lastHeal: LastHeal, tracked: Tracked, baseline: int, doc: Doc, order: seq<string>, v: View,
                        name: string)
    requires Enumerates(order, tracked) && UniqueBy(v.machines, MachineName) && UniqueBy(v.nodes, NodeName)
    ensures var events := HealPass(lastHeal, tracked, baseline, doc, order, v).events;
            (exists e :: e in events && e.UnwedgeAttempt? && e.machine == name)
            <==> name in tracked && Hangs(v, name, tracked[name])
  {
    hide Candidates, SweepAll, TreatAll, BrakeAll, Hangs, UniqueBy, GoingAway, StuckPods, AttemptEvents;
    var sweep, cands := SweepAll(tracked, doc.revision, order, v), Candidates(v, doc.healing);
    var cfg := ConfigOf(doc, v.now, baseline);
    SweepExact(tracked, doc.revision, order, v, name);
    BrakeAllEvents(cands, |cands|, cfg);
    TreatAllEvents(cands, |cands|, StartLoop(lastHeal, sweep.tracked, cfg, v.machines), cfg, v.deleteFate);
  }

  lemma PassDeletesIff(m: Memory, s: Settings, doc: Doc, order: seq<string>, r: Reads, name: string)
    requires Heals(doc, r) && Enumerates(order, m.tracked)
    ensures name in Attempted(HealPass(m.lastHeal, m.tracked, s.baseline, doc, order, ViewOf(s, r)).events)
            <==> exists i: nat :: Due(m, s, doc, order, r, name, i)
  {
    hide HealPass, Candidates, Before, LetThrough, CountDeleting, Sick;
    var v := ViewOf(s, r);
    var cands := Candidates(v, doc.healing);
    CandidatesAreTheSick(v, doc.healing);
    forall i: nat | i < |cands|
      ensures cands[i].machine in Attempted(HealPass(m.lastHeal, m.tracked, s.baseline, doc, order, v).events)
              <==> Due(m, s, doc, order, r, cands[i].machine, i)
    {
      DeletedIff(m.lastHeal, m.tracked, s.baseline, doc, order, v, i);
    }
    if name in Attempted(HealPass(m.lastHeal, m.tracked, s.baseline, doc, order, v).events) {
      AttemptIsCandidate(m.lastHeal, m.tracked, s.baseline, doc, order, v, name);
      var c :| c in cands && c.machine == name;
      var i :| 0 <= i < |cands| && cands[i] == c;
    }
  }

  lemma AttemptIsCandidate(lastHeal: LastHeal, tracked: Tracked, baseline: int, doc: Doc, order: seq<string>, v: View,
                           name: string)
    requires Enumerates(order, tracked)
    requires name in Attempted(HealPass(lastHeal, tracked, baseline, doc, order, v).events)
    ensures exists c :: c in Candidates(v, doc.healing) && c.machine == name
  {
    hide Candidates, SweepAll, TreatAll, BrakeAll;
    var cfg, cands := ConfigOf(doc, v.now, baseline), Candidates(v, doc.healing);
    PassDeletions(lastHeal, tracked, baseline, doc, order, v);
    BrakeAllEvents(cands, |cands|, cfg);
    var left := SweepAll(tracked, doc.revision, order, v).tracked;
    TreatAllEvents(cands, |cands|, StartLoop(lastHeal, left, cfg, v.machines), cfg, v.deleteFate);
  }
}
