/** Guarantees over whole runs of the executor: any number of Reconcile calls on any validated
    documents, with arbitrary readings, clocks and API answers in between. */
module ExecutorRuns {
  import opened Common
  import opened Fleet
  import opened ActionStore
  import opened Unwedge
  import opened Healing
  import opened HealingLaws
  import opened HealMonitor
  import opened ExecutorSpec
  import Scaling
  import Rollout
  import RolloutLaws
  import Ordering

  // ---------------------------------------------------------------- runs

  datatype Turn = Turn(doc: Doc, order: seq<string>, view: Reads)

  datatype History = History(memory: Memory, trace: seq<Event>)

  function Took(h: History, s: Settings, t: Turn): Result { Reconcile(h.memory, s, t.doc, t.order, t.view) }

  function Run(s: Settings, turns: seq<Turn>): History {
    if turns == [] then History(Memory(map[], map[], map[]), [])
    else
      var h := Run(s, turns[..|turns| - 1]);
      var out := Took(h, s, turns[|turns| - 1]);
      History(out.memory, h.trace + out.events)
  }

  /** What is known of a turn: the document passed validation, the API server names machines
      uniquely, and the healer visits each tracked machine once. */
  ghost predicate Plausible(h: History, t: Turn) {
    && Validate(t.doc)
    && (t.view.healMachines.Some? ==> UniqueBy(t.view.healMachines.value, MachineName))
    && (HealingArmed(t.doc) && t.view.HealReadable() ==> Enumerates(t.order, h.memory.tracked))
  }

  ghost predicate Legal(s: Settings, turns: seq<Turn>) {
    turns == [] || (Legal(s, turns[..|turns| - 1]) && Plausible(Run(s, turns[..|turns| - 1]), turns[|turns| - 1]))
  }

  // ---------------------------------------------------------------- the monitor follows the memory

  ghost predicate Follows(mon: Monitor, events: seq<Event>, s: Settings, lastHeal: LastHeal, tracked: Tracked) {
    Accepts(mon, events, s.baseline, s.evictionTimeout) && After(mon, events) == Monitor(lastHeal, tracked)
  }

  lemma FollowsAppend(mon: Monitor, a: seq<Event>, b: seq<Event>, s: Settings, mid: Monitor, lastHeal: LastHeal,
                      tracked: Tracked)
    requires Follows(mon, a, s, mid.lastHeal, mid.tracked) && Follows(mid, b, s, lastHeal, tracked)
    ensures Follows(mon, a + b, s, lastHeal, tracked)
  {
    hide Accepts, After;
    AfterAppend(mon, a, b, s.baseline, s.evictionTimeout);
  }

  lemma FollowsOne(mon: Monitor, e: Event, s: Settings)
    requires Allowed(mon, e, s.baseline, s.evictionTimeout)
    ensures Follows(mon, [e], s, Advance(mon, e).lastHeal, Advance(mon, e).tracked)
  {
    hide Accepts, After, Allowed, Advance;
    AfterOne(mon, e, s.baseline, s.evictionTimeout);
  }

  predicate Neutral(e: Event) { !e.HealRead? && !e.UnwedgeAttempt? && !e.DeleteMachine? && !e.DeletePod? }

  lemma {:induction false} NeutralFollows(mon: Monitor, events: seq<Event>, s: Settings)
    requires forall e :: e in events ==> Neutral(e)
    ensures Follows(mon, events, s, mon.lastHeal, mon.tracked)
  {
    if events != [] {
      assert events[|events| - 1] in events;
      NeutralFollows(mon, events[..|events| - 1], s);
    }
  }

  // ---------------------------------------------------------------- the sweep

  /** The tracking after the first names of `done` have been visited. */
  function Marked(tracked: Tracked, done: seq<string>, v: View): Tracked {
    map n | n in tracked && StillDeleting(v, n) ::
      if n in done && Wedged(v, n, tracked[n]) then tracked[n].(attempted := true) else tracked[n]
  }

  lemma DeletingIsStillDeleting(v: View, n: string)
    requires UniqueBy(v.machines, MachineName)
    ensures n in DeletingNames(v.machines) <==> StillDeleting(v, n)
  {
    IndexByFinds(v.machines, MachineName, n);
    if n in DeletingNames(v.machines) {
      var m :| m in v.machines && m.deleting && m.name == n;
      IndexByUnique(v.machines, MachineName, m);
    }
  }

  lemma HealReadFollows(mon: Monitor, v: View, s: Settings)
    requires UniqueBy(v.machines, MachineName)
    ensures Follows(mon, [HealRead(DeletingNames(v.machines))], s, mon.lastHeal, Marked(mon.tracked, [], v))
  {
    var e := HealRead(DeletingNames(v.machines));
    FollowsOne(mon, e, s);
    forall n ensures n in DeletingNames(v.machines) <==> StillDeleting(v, n) { DeletingIsStillDeleting(v, n); }
    assert Advance(mon, e).tracked == Marked(mon.tracked, [], v);
  }

  lemma {:induction false} ForceFollows(mon: Monitor, name: string, stuck: seq<Pod>, k: nat, s: Settings,
                                        fate: (string, nat) -> CallResult)
    requires k <= |stuck| && name in mon.tracked && mon.tracked[name].attempted
    requires forall p :: p in stuck ==> p.terminating && p.node == mon.tracked[name].node
    ensures Follows(mon, ForceDeletes(name, stuck, k, fate).events, s, mon.lastHeal, mon.tracked)
  {
    hide Accepts, After;
    if k == 0 {
      NeutralFollows(mon, [], s);
    } else {
      hide Follows;
      ForceFollows(mon, name, stuck, k - 1, s, fate);
      ForceNext(name, stuck, k, fate);
      var before, e := ForceDeletes(name, stuck, k - 1, fate), DeletePod(name, stuck[k - 1], fate(name, k - 1));
      hide ForceDeletes;
      FollowsOne(mon, e, s);
      FollowsAppend(mon, before.events, [e], s, mon, mon.lastHeal, mon.tracked);
    }
  }

  lemma ForceNext(name: string, stuck: seq<Pod>, k: nat, fate: (string, nat) -> CallResult)
    requires 0 < k <= |stuck|
    ensures var before, after := ForceDeletes(name, stuck, k - 1, fate), ForceDeletes(name, stuck, k, fate);
            after.events == before.events
            || after.events == before.events + [DeletePod(name, stuck[k - 1], fate(name, k - 1))]
  {
  }

  lemma AttemptFollows(mon: Monitor, revision: int, name: string, tr: Tracking, v: View, s: Settings)
    requires name in mon.tracked && mon.tracked[name] == tr && Wedged(v, name, tr) && v.evictionTimeout == s.evictionTimeout
    ensures Follows(mon, AttemptEvents(revision, name, tr, StuckPods(v.pods(name).pods, tr.node), v), s,
                    mon.lastHeal, mon.tracked[name := tr.(attempted := true)])
  {
    hide StuckPods, ForceDeletes, Follows;
    var stuck := StuckPods(v.pods(name).pods, tr.node);
    var e := UnwedgeAttempt(name, tr.node, tr.deletedAt, v.now);
    var mid := mon.(tracked := mon.tracked[name := tr.(attempted := true)]);
    var force := ForceDeletes(name, stuck, |stuck|, v.podFate);
    StuckPodsBounded(v.pods(name).pods, tr.node);
    FollowsOne(mon, e, s);
    ForceFollows(mid, name, stuck, |stuck|, s, v.podFate);
    FollowsAppend(mon, [e], force.events, s, mid, mid.lastHeal, mid.tracked);
    var report := AttemptReport(revision, name, tr, v.now, force);
    NeutralFollows(mid, [report], s);
    FollowsAppend(mon, [e] + force.events, [report], s, mid, mid.lastHeal, mid.tracked);
  }

  lemma {:induction false} SweepFollows(lastHeal: LastHeal, tracked: Tracked, revision: int, order: seq<string>,
                        v: View,
                                        s: Settings)
    requires v.evictionTimeout == s.evictionTimeout
    requires forall i, j :: 0 <= i < j < |order| ==> order[i] != order[j]
    ensures Follows(Monitor(lastHeal, Marked(tracked, [], v)), SweepAll(tracked, revision, order, v).events, s,
                    lastHeal, Marked(tracked, order, v))
  {
    var start := Monitor(lastHeal, Marked(tracked, [], v));
    if order == [] {
      NeutralFollows(start, [], s);
    } else {
      var init, last := order[..|order| - 1], order[|order| - 1];
      assert order == init + [last] && last !in init;
      SweepFollows(lastHeal, tracked, revision, init, v, s);
      SweepPrefix(tracked, revision, init, v);
      VisitFollows(start, lastHeal, tracked, revision, init, last, v, s);
    }
  }

  lemma VisitFollows(start: Monitor, lastHeal: LastHeal, tracked: Tracked, revision: int, init: seq<string>,
                     last: string,
                     v: View, s: Settings)
    requires v.evictionTimeout == s.evictionTimeout && last !in init
    requires var t := SweepAll(tracked, revision, init, v).tracked;
             (last in t <==> last in tracked) && (last in tracked ==> t[last] == tracked[last])
    requires Follows(start, SweepAll(tracked, revision, init, v).events, s, lastHeal, Marked(tracked, init, v))
    ensures Follows(start, Visit(SweepAll(tracked, revision, init, v), revision, last, v).events, s,
                    lastHeal, Marked(tracked, init + [last], v))
  {
    hide Follows, Wedged, StillDeleting, SweepAll, AttemptEvents;
    var before, mid := SweepAll(tracked, revision, init, v), Monitor(lastHeal, Marked(tracked, init, v));
    if last in tracked && StillDeleting(v, last) && Wedged(v, last, tracked[last]) {
      var tr := tracked[last];
      AttemptFollows(mid, revision, last, tr, v, s);
      assert Marked(tracked, init + [last], v) == mid.tracked[last := tr.(attempted := true)];
      var added := VisitAdds(before, revision, last, v);
      FollowsAppend(start, before.events, added, s, mid, lastHeal, Marked(tracked, init + [last], v));
    } else {
      assert Marked(tracked, init + [last], v) == mid.tracked;
    }
  }

  lemma VisitAdds(before: Sweep, revision: int, last: string, v: View) returns (added: seq<Event>)
    requires last in before.tracked && StillDeleting(v, last) && Wedged(v, last, before.tracked[last])
    ensures added == AttemptEvents(revision, last, before.tracked[last],
                                   StuckPods(v.pods(last).pods, before.tracked[last].node), v)
    ensures Visit(before, revision, last, v).events == before.events + added
  {
    added := AttemptEvents(revision, last, before.tracked[last],
                           StuckPods(v.pods(last).pods, before.tracked[last].node), v);
  }

  // ---------------------------------------------------------------- remediation

  lemma TreatFollows(c: Candidate, st: Loop, cfg: Config, s: Settings, result: CallResult)
    requires cfg.cooldown >= 0 && cfg.baseline == s.baseline && c.machine !in st.tracked
    ensures var st' := Treat(c, st, cfg, result);
            && Follows(Monitor(st.lastHeal, st.tracked), Added(c, st, cfg, result), s, st'.lastHeal, st'.tracked)
            && st'.tracked.Keys <= st.tracked.Keys + {c.machine}
            && st'.events == st.events + Added(c, st, cfg, result)
  {
    hide IsControlPlane, AutoscalerKey, After, Accepts;
    var mon, added := Monitor(st.lastHeal, st.tracked), Added(c, st, cfg, result);
    if Judge(c, st, cfg).Refuse? {
      NeutralFollows(mon, added, s);
    } else {
      var st' := Treat(c, st, cfg, result);
      RemediationFollows(c, mon, cfg, s, result);
    }
  }

  lemma RemediationFollows(c: Candidate, mon: Monitor, cfg: Config, s: Settings, result: CallResult)
    requires Allowed(mon, DeleteEvent(cfg, c, result), s.baseline, s.evictionTimeout)
    ensures var mon' := Advance(mon, DeleteEvent(cfg, c, result));
            Follows(mon, Remediation(c, cfg, result), s, mon'.lastHeal, mon'.tracked)
  {
    hide Follows;
    var e, all := DeleteEvent(cfg, c, result), Remediation(c, cfg, result);
    var mon' := Advance(mon, e);
    NeutralFollows(mon, [all[0]], s);
    FollowsOne(mon, e, s);
    NeutralFollows(mon', [all[2]], s);
    FollowsAppend(mon, [all[0]], [e], s, mon, mon'.lastHeal, mon'.tracked);
    FollowsAppend(mon, [all[0]] + [e], [all[2]], s, mon', mon'.lastHeal, mon'.tracked);
    assert all == [all[0]] + [e] + [all[2]];
  }

  /** After `k` candidates: the monitor agrees, and only those candidates were newly tracked. */
  ghost predicate Treated(start: Loop, st: Loop, cands: seq<Candidate>, k: nat, s: Settings)
    requires k <= |cands|
  {
    && Follows(Monitor(start.lastHeal, start.tracked), st.events, s, st.lastHeal, st.tracked)
    && st.tracked.Keys <= start.tracked.Keys + Names(cands[..k])
  }

  lemma TreatedNext(start: Loop, st: Loop, cands: seq<Candidate>, k: nat, cfg: Config, s: Settings, result: CallResult)
    requires k < |cands| && UniqueBy(cands, CandidateName) && Treated(start, st, cands, k, s)
    requires cfg.cooldown >= 0 && cfg.baseline == s.baseline && cands[k].machine !in start.tracked
    ensures Treated(start, Treat(cands[k], st, cfg, result), cands, k + 1, s)
  {
    hide Follows, Treat, Added;
    var c, st' := cands[k], Treat(cands[k], st, cfg, result);
    assert c.machine !in Names(cands[..k]) by {
      forall i | 0 <= i < k ensures cands[i].machine != c.machine {
        assert CandidateName(cands[i]) != CandidateName(cands[k]);
      }
    }
    TreatFollows(c, st, cfg, s, result);
    FollowsAppend(Monitor(start.lastHeal, start.tracked), st.events, Added(c, st, cfg, result), s,
                  Monitor(st.lastHeal, st.tracked), st'.lastHeal, st'.tracked);
    assert cands[..k + 1] == cands[..k] + [c];
    assert Names(cands[..k + 1]) == Names(cands[..k]) + {c.machine};
  }

  lemma {:induction false} TreatAllFollows(cands: seq<Candidate>, k: nat, start: Loop, cfg: Config, s: Settings,
                                           fate: nat -> CallResult)
    requires k <= |cands| && UniqueBy(cands, CandidateName) && start.events == []
    requires cfg.cooldown >= 0 && cfg.baseline == s.baseline
    requires forall c :: c in cands ==> c.machine !in start.tracked
    ensures Treated(start, TreatAll(cands, k, start, cfg, fate), cands, k, s)
  {
    hide Follows, Treat, UniqueBy, Names;
    if k == 0 {
      NeutralFollows(Monitor(start.lastHeal, start.tracked), [], s);
    } else {
      hide Treated;
      TreatAllFollows(cands, k - 1, start, cfg, s, fate);
      TreatedNext(start, TreatAll(cands, k - 1, start, cfg, fate), cands, k - 1, cfg, s, fate(k - 1));
    }
  }

  /** A machine being remediated is not one still tracked: candidates are live, tracked ones are not. */
  lemma CandidatesUntracked(v: View, policy: Fleet.Healing, tracked: Tracked)
    requires UniqueBy(v.machines, MachineName)
    ensures forall c :: c in Candidates(v, policy) ==> c.machine !in Remaining(tracked, v)
  {
    CandidatesAreTheSick(v, policy);
    forall c | c in Candidates(v, policy) ensures !StillDeleting(v, c.machine) {
      var m :| CandidateOf(v, policy, c, m);
      IndexByUnique(v.machines, MachineName, m);
    }
  }

  lemma TreatCandidatesFollows(lastHeal: LastHeal, tracked: Tracked, cands: seq<Candidate>, cfg: Config, v: View,
                        s: Settings)
    requires UniqueBy(cands, CandidateName) && cfg.cooldown >= 0 && cfg.baseline == s.baseline
    requires forall c :: c in cands ==> c.machine !in tracked
    ensures var out := TreatCandidates(lastHeal, tracked, cands, cfg, v);
            Follows(Monitor(lastHeal, tracked), out.events, s, out.lastHeal, out.tracked)
  {
    hide Follows, TreatAll, BrakeAll;
    if |cands| > cfg.maxUnhealthy {
      BrakeAllEvents(cands, |cands|, cfg);
      NeutralFollows(Monitor(lastHeal, tracked), BrakeAll(cands, |cands|, cfg), s);
    } else {
      TreatAllFollows(cands, |cands|, StartLoop(lastHeal, tracked, cfg, v.machines), cfg, s, v.deleteFate);
    }
  }

  lemma HealPassFollows(lastHeal: LastHeal, tracked: Tracked, doc: Doc, order: seq<string>, v: View, s: Settings)
    requires Enumerates(order, tracked) && UniqueBy(v.machines, MachineName)
    requires v.evictionTimeout == s.evictionTimeout && doc.healing.cooldownSeconds >= 0
    ensures var out := HealPass(lastHeal, tracked, s.baseline, doc, order, v);
            Follows(Monitor(lastHeal, tracked), out.events, s, out.lastHeal, out.tracked)
  {
    hide Follows, SweepAll, Candidates, TreatCandidates, StillDeleting, Wedged;
    var mon, read := Monitor(lastHeal, tracked), HealRead(DeletingNames(v.machines));
    var sweep, cands := SweepAll(tracked, doc.revision, order, v), Candidates(v, doc.healing);
    var cfg := ConfigOf(doc, v.now, s.baseline);
    var out := TreatCandidates(lastHeal, sweep.tracked, cands, cfg, v);
    var prune := PruneReports(Heal, Names(cands));
    HealReadFollows(mon, v, s);
    SweepFollows(lastHeal, tracked, doc.revision, order, v, s);
    SweepIsOrderIndependent(tracked, doc.revision, order, v);
    assert Marked(tracked, order, v) == sweep.tracked;
    FollowsAppend(mon, [read], sweep.events, s, Monitor(lastHeal, Marked(tracked, [], v)), lastHeal, sweep.tracked);
    CandidatesUntracked(v, doc.healing, tracked);
    SickCandidates(v, doc.healing);
    TreatCandidatesFollows(lastHeal, sweep.tracked, cands, cfg, v, s);
    FollowsAppend(mon, [read] + sweep.events, out.events, s, Monitor(lastHeal, sweep.tracked), out.lastHeal, out.tracked);
    NeutralFollows(Monitor(out.lastHeal, out.tracked), [prune], s);
    FollowsAppend(mon, [read] + sweep.events + out.events, [prune], s, Monitor(out.lastHeal, out.tracked),
                  out.lastHeal, out.tracked);
  }

  // ---------------------------------------------------------------- what one turn may do

  /** The document's flag authorises the write, and a replica or version write carries exactly the
      document's number or version. */
  ghost predicate Authorised(doc: Doc, e: Event) {
    match e
    case PatchReplicas(pool, replicas, _) =>
      doc.execution.scaling && exists p :: p in doc.pools && p.name == pool && p.desiredReplicas == replicas
    case PatchKubelet(pool, version, _) =>
      doc.execution.upgrades && version == Rollout.Target(doc) && exists p :: p in doc.pools && p.name == pool
    case DeleteMachine(_, _, _, _, _, _) => doc.execution.healing && doc.healing.enabled
    case UnwedgeAttempt(_, _, _, _) => doc.execution.healing && doc.healing.enabled
    case DeletePod(_, _, _) => doc.execution.healing && doc.healing.enabled
    case Report(action) => action.revision == doc.revision
    case BeginRevision(revision) => revision == doc.revision
    case _ => true
  }

  lemma ScaleStageAuthorised(m: Memory, s: Settings, doc: Doc, r: Reads)
    ensures forall e :: e in ScaleStage(m, s, doc, r).events ==>
              Authorised(doc, e) && Neutral(e) && !e.BeginRevision? && !e.ClearReports?
  {
    hide Scaling.PassPools, Scaling.ScaleAll, Scaling.Judge;
    var pools := Scaling.PassPools(doc.pools);
    RolloutLaws.CannotListOnly(doc.revision, Scale, pools, |pools|);
    PassPoolsListed(doc.pools);
    if r.scaleMds.Some? {
      Scaling.ScaleAllEvents(doc.revision, pools, |pools|, r.scaleMds.value, s.maxReplicas, r.scaleFate);
      forall e | e in ScaleStage(m, s, doc, r).events && e.PatchReplicas? ensures Authorised(doc, e) {
        var i: nat :| i < |pools| && e == PatchReplicas(pools[i].name, pools[i].desiredReplicas, r.scaleFate(i));
        assert pools[i] in pools;
      }
    }
  }

  lemma PassPoolsListed(pools: seq<WorkerPool>)
    ensures forall p :: p in Scaling.PassPools(pools) ==> p in pools
    ensures forall p :: p in Rollout.RollPools(pools) ==> p in pools
  {
    Ordering.SortMembers(pools, Scaling.PoolLe);
    Ordering.SortMembers(Filter(pools, Rollout.ValidName), Scaling.PoolLe);
  }

  lemma RollAuthorised(rollFrom: Rollout.RollFrom, doc: Doc, v: Rollout.RollView)
    requires doc.execution.upgrades
    ensures forall e :: e in Rollout.RollObserved(rollFrom, doc, v).events ==>
              Authorised(doc, e) && Neutral(e) && !e.BeginRevision? && !e.ClearReports?
  {
    hide Rollout.RollPools, Rollout.RollObserved, Rollout.Target, Rollout.Observe, Rollout.AnyMidRoll;
    var pools := Rollout.RollPools(doc.pools);
    var statuses := Rollout.ObserveAll(pools, v.mds, v.machines, Rollout.Target(doc));
    PassPoolsListed(doc.pools);
    RolloutLaws.PatchImpliesPreflight(rollFrom, doc, v);
    forall e | e in Rollout.RollObserved(rollFrom, doc, v).events && e.PatchKubelet?
      ensures e.version == Rollout.Target(doc) && exists p :: p in doc.pools && p.name == e.pool
    {
      var i :| 0 <= i < |statuses| && statuses[i].name == e.pool;
      StatusName(pools[i].name, v, Rollout.Target(doc));
      assert pools[i] in pools;
    }
  }

  lemma StatusName(name: string, v: Rollout.RollView, target: string)
    ensures Rollout.Observe(name, v.mds, v.machines, target).name == name
  {
  }

  lemma UpgradeStageAuthorised(m: Memory, doc: Doc, r: Reads)
    ensures forall e :: e in UpgradeStage(m, doc, r).events ==>
              Authorised(doc, e) && Neutral(e) && !e.BeginRevision? && !e.ClearReports?
  {
    hide Rollout.RollPools, Rollout.RollObserved, Rollout.Target, Scaling.CannotListAll;
    var pools := Rollout.RollPools(doc.pools);
    RolloutLaws.CannotListOnly(doc.revision, Upgrade, pools, |pools|);
    if doc.execution.upgrades && r.rollMds.Some? && r.rollMachines.Some? {
      RollAuthorised(m.rollFrom, doc, Rollout.RollView(r.rollMds.value, r.rollMachines.value, r.observed, r.rollFate));
    }
  }

  lemma HealPassAuthorised(lastHeal: LastHeal, tracked: Tracked, baseline: int, doc: Doc, order: seq<string>, v: View)
    requires HealingArmed(doc) && Enumerates(order, tracked)
    ensures forall e :: e in HealPass(lastHeal, tracked, baseline, doc, order, v).events ==>
              Authorised(doc, e) && !e.BeginRevision? && !e.ClearReports?
  {
    hide Candidates, SweepAll, TreatAll, BrakeAll;
    var sweep, cands := SweepAll(tracked, doc.revision, order, v), Candidates(v, doc.healing);
    var cfg := ConfigOf(doc, v.now, baseline);
    SweepSound(tracked, doc.revision, order, v);
    BrakeAllEvents(cands, |cands|, cfg);
    TreatAllEvents(cands, |cands|, StartLoop(lastHeal, sweep.tracked, cfg, v.machines), cfg, v.deleteFate);
  }

  /** A turn begins by stamping or clearing the store, and everything after it is authorised by the
      turn's own document; with every flag off it is the clearing alone. */
  lemma TurnAuthorised(h: History, s: Settings, t: Turn)
    requires Plausible(h, t)
    ensures var events := Took(h, s, t).events;
            && events != []
            && (if ReportOnly(t.doc) then events == [ClearReports] else events[0] == BeginRevision(t.doc.revision))
            && (forall e :: e in events ==> Authorised(t.doc, e))
            && (forall e :: e in events[1..] ==> !e.BeginRevision? && !e.ClearReports?)
  {
    hide ScaleStage, UpgradeStage, HealPass, Authorised;
    if ReportOnly(t.doc) {
      assert Authorised(t.doc, ClearReports) by { ClearAuthorised(t.doc); }
    } else {
      var a := ScaleStage(h.memory, s, t.doc, t.view);
      var b := UpgradeStage(a.memory, t.doc, t.view);
      var c := HealStage(b.memory, s, t.doc, t.order, t.view);
      ScaleStageAuthorised(h.memory, s, t.doc, t.view);
      UpgradeStageAuthorised(a.memory, t.doc, t.view);
      StagesKeepHealing(h.memory, s, t.doc, t.view);
      if HealingArmed(t.doc) && t.view.HealReadable() {
        HealPassAuthorised(b.memory.lastHeal, b.memory.tracked, s.baseline, t.doc, t.order, ViewOf(s, t.view));
      }
      ClearAuthorised(t.doc);
      var events := Took(h, s, t).events;
      assert events == [BeginRevision(t.doc.revision)] + (a.events + b.events + c.events);
      assert events[1..] == a.events + b.events + c.events;
    }
  }

  lemma ClearAuthorised(doc: Doc)
    ensures Authorised(doc, ClearReports) && Authorised(doc, BeginRevision(doc.revision))
  {
  }

  lemma StagesKeepHealing(m: Memory, s: Settings, doc: Doc, r: Reads)
    ensures var a := ScaleStage(m, s, doc, r).memory;
            var b := UpgradeStage(a, doc, r).memory;
            a.lastHeal == b.lastHeal == m.lastHeal && a.tracked == b.tracked == m.tracked
  {
    hide Scaling.ScalePass, Rollout.UpgradePass;
  }

  // ---------------------------------------------------------------- every run

  lemma TurnFollows(h: History, s: Settings, t: Turn)
    requires Plausible(h, t)
    ensures var out := Took(h, s, t);
            Follows(Monitor(h.memory.lastHeal, h.memory.tracked), out.events, s, out.memory.lastHeal, out.memory.tracked)
  {
    hide Follows, ScaleStage, UpgradeStage, HealPass, Enumerates, UniqueBy, Authorised;
    var mon := Monitor(h.memory.lastHeal, h.memory.tracked);
    if ReportOnly(t.doc) {
      NeutralFollows(mon, [ClearReports], s);
    } else {
      var a := ScaleStage(h.memory, s, t.doc, t.view);
      var b := UpgradeStage(a.memory, t.doc, t.view);
      var c := HealStage(b.memory, s, t.doc, t.order, t.view);
      ScaleStageAuthorised(h.memory, s, t.doc, t.view);
      UpgradeStageAuthorised(a.memory, t.doc, t.view);
      StagesKeepHealing(h.memory, s, t.doc, t.view);
      var first := [BeginRevision(t.doc.revision)] + a.events + b.events;
      NeutralFollows(mon, first, s);
      if HealingArmed(t.doc) && t.view.HealReadable() {
        HealPassFollows(mon.lastHeal, mon.tracked, t.doc, t.order, ViewOf(s, t.view), s);
      } else {
        NeutralFollows(mon, c.events, s);
      }
      FollowsAppend(mon, first, c.events, s, mon, c.memory.lastHeal, c.memory.tracked);
    }
  }

  /** Every run is accepted by the monitor, which ends up with exactly the healer's memory. */
  lemma {:induction false} RunFollows(s: Settings, turns: seq<Turn>)
    requires Legal(s, turns)
    ensures Follows(INITIAL, Run(s, turns).trace, s, Run(s, turns).memory.lastHeal, Run(s, turns).memory.tracked)
  {
    if turns == [] {
      NeutralFollows(INITIAL, [], s);
    } else {
      hide Follows, Took, Plausible;
      var h, t := Run(s, turns[..|turns| - 1]), turns[|turns| - 1];
      RunFollows(s, turns[..|turns| - 1]);
      TurnFollows(h, s, t);
      var out := Took(h, s, t);
      FollowsAppend(INITIAL, h.trace, out.events, s, Monitor(h.memory.lastHeal, h.memory.tracked),
                    out.memory.lastHeal, out.memory.tracked);
    }
  }

  /** Per-pool cooldown in every run, for any clock, even one that runs backwards. */
  lemma RunCooldown(s: Settings, turns: seq<Turn>, i: nat, j: nat)
    requires Legal(s, turns) && i < j < |Run(s, turns).trace| && Run(s, turns).trace[j].DeleteMachine?
    ensures var trace := Run(s, turns).trace;
            && trace[j].at - s.baseline >= trace[j].cooldown >= 0
            && (trace[i].Removed() && trace[i].pool == trace[j].pool ==>
                  trace[j].at - trace[i].at >= trace[j].cooldown)
  {
    hide Run, Legal;
    RunFollows(s, turns);
    Cooldown(INITIAL, Run(s, turns).trace, s.baseline, s.evictionTimeout, i, j);
  }

  /** One turn never takes a pool's last remediation time back. */
  lemma {:induction false} LastHealMonotone(s: Settings, turns: seq<Turn>, k: nat, pool: string)
    requires Legal(s, turns) && k <= |turns|
    ensures LastHealTime(Run(s, turns).memory.lastHeal, s.baseline, pool)
         >= LastHealTime(Run(s, turns[..k]).memory.lastHeal, s.baseline, pool)
  {
    if k == |turns| {
      assert turns[..k] == turns;
    } else {
      hide LastHealTime, Took;
      var init := turns[..|turns| - 1];
      LastHealMonotone(s, init, k, pool);
      assert init[..k] == turns[..k];
      RunFollows(s, turns);
      RunFollows(s, init);
      var trace, before := Run(s, turns).trace, |Run(s, init).trace|;
      assert trace[..before] == Run(s, init).trace && trace[..|trace|] == trace;
      if before < |trace| {
        ClockCovers(INITIAL, trace, s.baseline, s.evictionTimeout, before, |trace|, pool);
      } else {
        assert trace == Run(s, init).trace;
      }
    }
  }

  /** The unwedge in every run: each attempt goes back to one accepted deletion of that machine at
      least the eviction timeout ago, seen deleting ever since and never attempted before. */
  lemma RunUnwedge(s: Settings, turns: seq<Turn>, k: nat) returns (i: nat)
    requires Legal(s, turns) && k < |Run(s, turns).trace| && Run(s, turns).trace[k].UnwedgeAttempt?
    ensures var trace := Run(s, turns).trace;
            var e := trace[k];
            && i < k && trace[i].AcceptedDelete() && trace[i].machine == e.machine && trace[i].node == e.node != ""
            && e.at - trace[i].at >= s.evictionTimeout
            && (forall j :: i < j < k && trace[j].HealRead? ==> e.machine in trace[j].deleting)
            && (forall j :: i < j < k ==> !(trace[j].AcceptedDelete() && trace[j].machine == e.machine))
            && (forall j :: i < j < k ==> !(trace[j].UnwedgeAttempt? && trace[j].machine == e.machine))
  {
    hide Run, Legal;
    RunFollows(s, turns);
    i := AttemptJustified(Run(s, turns).trace, s.baseline, s.evictionTimeout, k);
  }

  /** Every force-deleted pod in every run was terminating, on the node of a machine this agent
      deleted and then attempted. */
  lemma RunForceDeletes(s: Settings, turns: seq<Turn>, k: nat) returns (i: nat, j: nat)
    requires Legal(s, turns) && k < |Run(s, turns).trace| && Run(s, turns).trace[k].DeletePod?
    ensures var trace := Run(s, turns).trace;
            && i < j < k && trace[i].AcceptedDelete() && trace[j].UnwedgeAttempt?
            && trace[i].machine == trace[j].machine == trace[k].machine
            && trace[k].pod.terminating && trace[k].pod.node == trace[i].node
  {
    hide Run, Legal;
    RunFollows(s, turns);
    i, j := PodJustified(Run(s, turns).trace, s.baseline, s.evictionTimeout, k);
  }

  /** A live tracking entry is never overwritten, in any run. */
  lemma RunNeverOverwrites(s: Settings, turns: seq<Turn>, i: nat, k: nat)
    requires Legal(s, turns) && i < k < |Run(s, turns).trace|
    requires Run(s, turns).trace[i].AcceptedDelete() && Run(s, turns).trace[k].DeleteMachine?
             && Run(s, turns).trace[i].machine == Run(s, turns).trace[k].machine
    ensures var trace := Run(s, turns).trace;
            exists j :: i < j < k && trace[j].HealRead? && trace[k].machine !in trace[j].deleting
  {
    hide Run, Legal;
    RunFollows(s, turns);
    NeverOverwritten(Run(s, turns).trace, s.baseline, s.evictionTimeout, i, k);
  }

  /** The turn an event of a run comes from. */
  lemma {:induction false} EventOrigin(s: Settings, turns: seq<Turn>, e: Event) returns (k: nat)
    requires Legal(s, turns) && e in Run(s, turns).trace
    ensures k < |turns| && Plausible(Run(s, turns[..k]), turns[k]) && e in Took(Run(s, turns[..k]), s, turns[k]).events
  {
    hide Took, Plausible;
    var init := turns[..|turns| - 1];
    if e in Run(s, init).trace {
      k := EventOrigin(s, init, e);
      assert init[..k] == turns[..k];
    } else {
      k := |turns| - 1;
    }
  }

  /** Every event of every run is authorised by the document of its own turn. */
  lemma RunAuthorised(s: Settings, turns: seq<Turn>, e: Event) returns (k: nat)
    requires Legal(s, turns) && e in Run(s, turns).trace
    ensures k < |turns| && Authorised(turns[k].doc, e) && (e.IsWrite() ==> !ReportOnly(turns[k].doc))
  {
    hide Run, Legal, Took;
    k := EventOrigin(s, turns, e);
    TurnAuthorised(Run(s, turns[..k]), s, turns[k]);
  }

  /** Every replica patch of every run went, with the scaling flag set, to a pool of its turn's document, with
      the document's number, to a deployment its turn had listed under the pool's valid name that may be
      acted on and declared another number, and the number is within bounds. */
  lemma RunScalingSound(s: Settings, turns: seq<Turn>, e: Event) returns (k: nat, pool: WorkerPool)
    requires Legal(s, turns) && e in Run(s, turns).trace && e.PatchReplicas?
    ensures k < |turns| && turns[k].doc.execution.scaling && turns[k].view.scaleMds.Some?
    ensures pool in turns[k].doc.pools && pool.name == e.pool && pool.desiredReplicas == e.replicas
    ensures Scaling.Scalable(pool, turns[k].view.scaleMds.value, s.maxReplicas)
  {
    hide Run, Legal, HealPass, Took, Authorised, Scaling.Scalable, Scaling.PassPools;
    k := EventOrigin(s, turns, e);
    var h, t := Run(s, turns[..k]), turns[k];
    FromScaling(h, s, t, e);
    var pools := Scaling.PassPools(t.doc.pools);
    PassPoolsListed(t.doc.pools);
    Scaling.ScaleAllEvents(t.doc.revision, pools, |pools|, t.view.scaleMds.value, s.maxReplicas, t.view.scaleFate);
    var i: nat :| i < |pools| && e == PatchReplicas(pools[i].name, pools[i].desiredReplicas, t.view.scaleFate(i))
                  && Scaling.Scalable(pools[i], t.view.scaleMds.value, s.maxReplicas);
    pool := pools[i];
    assert pool in pools;
  }

  /** A replica patch comes from the scaling stage, with the deployments listed. */
  lemma FromScaling(h: History, s: Settings, t: Turn, e: Event)
    requires Plausible(h, t) && e in Took(h, s, t).events && e.PatchReplicas?
    ensures t.doc.execution.scaling && t.view.scaleMds.Some?
    ensures var pools := Scaling.PassPools(t.doc.pools);
            e in Scaling.ScaleAll(t.doc.revision, pools, |pools|, t.view.scaleMds.value, s.maxReplicas, t.view.scaleFate).events
  {
    hide HealPass, Rollout.UpgradePass, Scaling.PassPools, Scaling.ScaleAll, Scaling.CannotListAll;
    var a := ScaleStage(h.memory, s, t.doc, t.view);
    var b := UpgradeStage(a.memory, t.doc, t.view);
    var c := HealStage(b.memory, s, t.doc, t.order, t.view);
    UpgradeKinds(a.memory, t.doc, t.view);
    StagesKeepHealing(h.memory, s, t.doc, t.view);
    if HealingArmed(t.doc) && t.view.HealReadable() {
      HealKinds(h.memory.lastHeal, h.memory.tracked, s.baseline, t.doc, t.order, ViewOf(s, t.view));
    }
    var pools := Scaling.PassPools(t.doc.pools);
    RolloutLaws.CannotListOnly(t.doc.revision, Scale, pools, |pools|);
    assert e in a.events;
    assert Scaling.ScaleAll(t.doc.revision, [], 0, [], s.maxReplicas, t.view.scaleFate).events == [] by {
      NoScaling(t.doc.revision, s.maxReplicas, t.view.scaleFate);
    }
  }

  lemma NoScaling(revision: int, maxReplicas: int, fate: nat -> CallResult)
    ensures Scaling.ScaleAll(revision, [], 0, [], maxReplicas, fate).events == []
  {
  }

  lemma UpgradeKinds(m: Memory, doc: Doc, r: Reads)
    ensures forall e :: e in UpgradeStage(m, doc, r).events ==> e.Report? || e.PatchKubelet?
  {
    hide Rollout.RollPools, Rollout.RollObserved, Scaling.CannotListAll, Rollout.Target;
    var pools := Rollout.RollPools(doc.pools);
    RolloutLaws.CannotListOnly(doc.revision, Upgrade, pools, |pools|);
    if r.rollMds.Some? && r.rollMachines.Some? {
      RolloutLaws.PatchImpliesPreflight(m.rollFrom, doc,
                                        Rollout.RollView(r.rollMds.value, r.rollMachines.value, r.observed, r.rollFate));
    }
  }

  lemma HealKinds(lastHeal: LastHeal, tracked: Tracked, baseline: int, doc: Doc, order: seq<string>, v: View)
    requires Enumerates(order, tracked)
    ensures forall e :: e in HealPass(lastHeal, tracked, baseline, doc, order, v).events ==>
              !e.PatchReplicas? && !e.PatchKubelet?
  {
    hide Candidates, SweepAll, TreatAll, BrakeAll, AttemptDue, PodStuck, GoingAway;
    var sweep, cands := SweepAll(tracked, doc.revision, order, v), Candidates(v, doc.healing);
    var cfg := ConfigOf(doc, v.now, baseline);
    SweepSound(tracked, doc.revision, order, v);
    BrakeAllEvents(cands, |cands|, cfg);
    TreatAllEvents(cands, |cands|, StartLoop(lastHeal, sweep.tracked, cfg, v.machines), cfg, v.deleteFate);
  }

  /** Every kubelet patch of every run went, with the upgrade flag set, to the target of its turn's document,
      with an observed control plane that is not behind it. */
  lemma RunUpgradeSound(s: Settings, turns: seq<Turn>, e: Event) returns (k: nat)
    requires Legal(s, turns) && e in Run(s, turns).trace && e.PatchKubelet?
    ensures k < |turns| && turns[k].doc.execution.upgrades && e.version == Rollout.Target(turns[k].doc)
    ensures RolloutLaws.MayRoll(e.version, turns[k].view.observed)
    ensures exists p :: p in turns[k].doc.pools && p.name == e.pool
  {
    hide Run, Legal, HealPass, Took, RolloutLaws.MayRoll, Rollout.Target;
    k := EventOrigin(s, turns, e);
    TurnAuthorised(Run(s, turns[..k]), s, turns[k]);
    FromRolling(Run(s, turns[..k]), s, turns[k], e);
  }

  lemma FromRolling(h: History, s: Settings, t: Turn, e: Event)
    requires Plausible(h, t) && e in Took(h, s, t).events && e.PatchKubelet?
    ensures RolloutLaws.MayRoll(Rollout.Target(t.doc), t.view.observed)
  {
    hide HealPass, Scaling.ScalePass, Rollout.RollPools, Rollout.RollObserved, Rollout.Target, RolloutLaws.MayRoll,
         Scaling.CannotListAll, Authorised;
    var a := ScaleStage(h.memory, s, t.doc, t.view);
    ScaleKinds(h.memory, s, t.doc, t.view);
    StagesKeepHealing(h.memory, s, t.doc, t.view);
    if HealingArmed(t.doc) && t.view.HealReadable() {
      HealKinds(h.memory.lastHeal, h.memory.tracked, s.baseline, t.doc, t.order, ViewOf(s, t.view));
    }
    var pools := Rollout.RollPools(t.doc.pools);
    RolloutLaws.CannotListOnly(t.doc.revision, Upgrade, pools, |pools|);
    assert t.view.rollMds.Some? && t.view.rollMachines.Some?;
    RolloutLaws.PatchImpliesPreflight(a.memory.rollFrom, t.doc,
      Rollout.RollView(t.view.rollMds.value, t.view.rollMachines.value, t.view.observed, t.view.rollFate));
  }

  lemma ScaleKinds(m: Memory, s: Settings, doc: Doc, r: Reads)
    ensures forall e :: e in ScaleStage(m, s, doc, r).events ==> e.Report? || e.PatchReplicas?
  {
    hide Scaling.PassPools, Scaling.ScaleAll, Scaling.CannotListAll, Scaling.Judge, Scaling.Scalable;
    var pools := Scaling.PassPools(doc.pools);
    RolloutLaws.CannotListOnly(doc.revision, Scale, pools, |pools|);
    if r.scaleMds.Some? {
      Scaling.ScaleAllEvents(doc.revision, pools, |pools|, r.scaleMds.value, s.maxReplicas, r.scaleFate);
    }
  }

  /** Remediation soundness in every run: each machine deleted was deletable by what its turn read. */
  lemma RunRemediationSound(s: Settings, turns: seq<Turn>, e: Event) returns (k: nat)
    requires Legal(s, turns) && e in Run(s, turns).trace
    ensures k < |turns|
    ensures e.DeleteMachine? ==>
              && turns[k].doc.execution.healing && turns[k].doc.healing.enabled && turns[k].view.HealReadable()
              && exists m :: Deletable(ViewOf(s, turns[k].view), turns[k].doc, e, m)
  {
    hide Run, Legal, HealPass, ScaleStage, UpgradeStage, Authorised;
    k := EventOrigin(s, turns, e);
    if !e.DeleteMachine? { return; }
    var h, t := Run(s, turns[..k]), turns[k];
    var a := ScaleStage(h.memory, s, t.doc, t.view);
    ScaleStageAuthorised(h.memory, s, t.doc, t.view);
    UpgradeStageAuthorised(a.memory, t.doc, t.view);
    StagesKeepHealing(h.memory, s, t.doc, t.view);
    RemediationSound(h.memory.lastHeal, h.memory.tracked, s.baseline, t.doc, t.order, ViewOf(s, t.view), e);
  }

  /** The circumstances of the unwedge in every run: at an attempt the machine was being deleted and
      its node was present and not Ready; a force-deleted pod was listed, terminating, on that node. */
  lemma RunUnwedgeCircumstances(s: Settings, turns: seq<Turn>, e: Event) returns (k: nat)
    requires Legal(s, turns) && e in Run(s, turns).trace && (e.UnwedgeAttempt? || e.DeletePod?)
    ensures k < |turns| && HealingArmed(turns[k].doc) && turns[k].view.HealReadable()
    ensures var tracked, v := Run(s, turns[..k]).memory.tracked, ViewOf(s, turns[k].view);
            && (e.UnwedgeAttempt? ==> AttemptDue(tracked, v, e))
            && (e.DeletePod? ==> PodStuck(tracked, v, e))
  {
    hide Run, Legal, HealPass, ScaleStage, UpgradeStage, Authorised, AttemptDue, PodStuck;
    k := EventOrigin(s, turns, e);
    var h, t := Run(s, turns[..k]), turns[k];
    var a := ScaleStage(h.memory, s, t.doc, t.view);
    ScaleStageAuthorised(h.memory, s, t.doc, t.view);
    UpgradeStageAuthorised(a.memory, t.doc, t.view);
    StagesKeepHealing(h.memory, s, t.doc, t.view);
    PassUnwedges(h.memory.lastHeal, h.memory.tracked, s.baseline, t.doc, t.order, ViewOf(s, t.view), e);
  }

  lemma PassUnwedges(lastHeal: LastHeal, tracked: Tracked, baseline: int, doc: Doc, order: seq<string>, v: View,
                     e: Event)
    requires Enumerates(order, tracked) && (e.UnwedgeAttempt? || e.DeletePod?)
    requires e in HealPass(lastHeal, tracked, baseline, doc, order, v).events
    ensures (e.UnwedgeAttempt? ==> AttemptDue(tracked, v, e)) && (e.DeletePod? ==> PodStuck(tracked, v, e))
  {
    hide Candidates, SweepAll, TreatAll, BrakeAll, AttemptDue, PodStuck;
    var sweep, cands := SweepAll(tracked, doc.revision, order, v), Candidates(v, doc.healing);
    var cfg := ConfigOf(doc, v.now, baseline);
    SweepSound(tracked, doc.revision, order, v);
    BrakeAllEvents(cands, |cands|, cfg);
    TreatAllEvents(cands, |cands|, StartLoop(lastHeal, sweep.tracked, cfg, v.machines), cfg, v.deleteFate);
  }

  /** The disruption budget in every run: a turn that reads its inputs leaves at most
      max(before, maxUnhealthy) machines deleting, whatever the API answers. */
  lemma RunDisruptionBudget(s: Settings, turns: seq<Turn>, k: nat)
    requires Legal(s, turns) && k < |turns| && turns[k].view.HealReadable()
    ensures var t := turns[k];
            CountDeleting(AfterDeletions(t.view.healMachines.value, Hits(Took(Run(s, turns[..k]), s, t).events)))
              <= Max(CountDeleting(t.view.healMachines.value), t.doc.healing.maxUnhealthy)
  {
    hide HealPass, ScaleStage, UpgradeStage, CountDeleting, AfterDeletions, Authorised, Run;
    LegalAt(s, turns, k);
    var h, t := Run(s, turns[..k]), turns[k];
    var a := ScaleStage(h.memory, s, t.doc, t.view);
    var c := HealStage(UpgradeStage(a.memory, t.doc, t.view).memory, s, t.doc, t.order, t.view);
    ScaleStageAuthorised(h.memory, s, t.doc, t.view);
    UpgradeStageAuthorised(a.memory, t.doc, t.view);
    StagesKeepHealing(h.memory, s, t.doc, t.view);
    if HealingArmed(t.doc) {
      assert Hits(Took(h, s, t).events) == Hits(c.events);
      DisruptionBudget(h.memory.lastHeal, h.memory.tracked, s.baseline, t.doc, t.order, ViewOf(s, t.view));
    } else {
      assert Hits(Took(h, s, t).events) == {};
      NoHits(t.view.healMachines.value);
    }
  }

  lemma {:induction false} LegalAt(s: Settings, turns: seq<Turn>, k: nat)
    requires Legal(s, turns) && k < |turns|
    ensures Plausible(Run(s, turns[..k]), turns[k])
  {
    hide Plausible, Run;
    if k < |turns| - 1 {
      LegalAt(s, turns[..|turns| - 1], k);
      assert turns[..|turns| - 1][..k] == turns[..k];
    }
  }

  lemma NoHits(machines: seq<Machine>)
    ensures AfterDeletions(machines, {}) == machines
  {
    assert forall i :: 0 <= i < |machines| ==> AfterDeletions(machines, {})[i] == machines[i];
  }

  // ---------------------------------------------------------------- the reports of a run

  /** Every item carries the store's own revision. */
  ghost predicate Stamped(r: Reports) { forall a :: a in r.items ==> a.revision == r.revision }

  lemma {:induction false} StampedReplay(r: Reports, events: seq<Event>)
    requires Keyed(r.items) && Stamped(r)
    requires forall e :: e in events ==> !e.BeginRevision? && !e.ClearReports?
                                         && (e.Report? ==> e.action.revision == r.revision)
    ensures Keyed(Replay(r, events).items) && Stamped(Replay(r, events)) && Replay(r, events).revision == r.revision
  {
    if events != [] {
      var init, last := events[..|events| - 1], events[|events| - 1];
      assert events == init + [last] && last in events;
      StampedReplay(r, init);
      var mid := Replay(r, init);
      match last {
        case Report(a) => UpsertRefinesMapUpdate(mid.items, a);
        case PruneReports(kind, keep) => PruneRefinesFilter(mid.items, kind, keep);
        case _ =>
      }
    }
  }

  lemma TurnStamped(r: Reports, h: History, s: Settings, t: Turn)
    requires Keyed(r.items) && Stamped(r) && Plausible(h, t)
    ensures var r' := Replay(r, Took(h, s, t).events);
            && Keyed(r'.items) && Stamped(r')
            && (if ReportOnly(t.doc) then r' == EMPTY else r'.revision == t.doc.revision)
  {
    hide Took, Plausible, Upserted, Pruned;
    var events := Took(h, s, t).events;
    TurnAuthorised(h, s, t);
    var first := Apply(r, events[0]);
    assert events == [events[0]] + events[1..] && [events[0]][..0] == [];
    assert Replay(r, [events[0]]) == first;
    ReplayAppend(r, [events[0]], events[1..]);
    if ReportOnly(t.doc) {
      assert events[1..] == [];
    } else {
      assert forall e :: e in events[1..] ==> e in events;
      StampedReplay(first, events[1..]);
    }
  }

  /** Across all Reconcile calls every item carries the store's revision, which is that of the last
      acted document (and nothing is kept while every flag is off). */
  lemma {:induction false} RunStamped(s: Settings, turns: seq<Turn>)
    requires Legal(s, turns)
    ensures var r := Replay(EMPTY, Run(s, turns).trace);
            && Keyed(r.items) && Stamped(r)
            && (turns != [] ==> if ReportOnly(turns[|turns| - 1].doc) then r == EMPTY
                                else r.revision == turns[|turns| - 1].doc.revision)
  {
    if turns != [] {
      hide Took, Plausible, Apply;
      var h, t := Run(s, turns[..|turns| - 1]), turns[|turns| - 1];
      RunStamped(s, turns[..|turns| - 1]);
      ReplayAppend(EMPTY, h.trace, Took(h, s, t).events);
      TurnStamped(Replay(EMPTY, h.trace), h, s, t);
    }
  }

  lemma HealPassStarts(lastHeal: LastHeal, tracked: Tracked, baseline: int, doc: Doc, order: seq<string>, v: View)
    ensures var events := HealPass(lastHeal, tracked, baseline, doc, order, v).events;
            events != [] && events[0].HealRead?
  {
  }

  /** The heal reports after a turn that healed (from the read at `cut` on): exactly one per sick machine, none in progress,
      and none unfinished about anything else. */
  lemma RunHealReports(s: Settings, turns: seq<Turn>) returns (cut: nat)
    requires turns != [] && Legal(s, turns)
    requires var t := turns[|turns| - 1]; HealingArmed(t.doc) && t.view.HealReadable()
    ensures var t := turns[|turns| - 1];
            var sick := SickNames(ViewOf(s, t.view), t.doc.healing);
            var trace := Run(s, turns).trace;
            && |Run(s, turns[..|turns| - 1]).trace| < cut < |trace| && trace[cut].HealRead?
            && ReportsMatch(Replay(EMPTY, trace[..cut]), Replay(EMPTY, trace), sick)
  {
    hide HealPass, ScaleStage, UpgradeStage, Apply, SickNames, ReportsMatch;
    var h, t := Run(s, turns[..|turns| - 1]), turns[|turns| - 1];
    var a := ScaleStage(h.memory, s, t.doc, t.view);
    var b := UpgradeStage(a.memory, t.doc, t.view);
    var c := HealStage(b.memory, s, t.doc, t.order, t.view);
    var first := h.trace + ([BeginRevision(t.doc.revision)] + a.events + b.events);
    assert Run(s, turns).trace == first + c.events;
    ReplayAppend(EMPTY, first, c.events);
    ReplayKeyed(EMPTY, first);
    StagesKeepHealing(h.memory, s, t.doc, t.view);
    cut := |first|;
    assert Run(s, turns).trace[..cut] == first;
    HealPassStarts(h.memory.lastHeal, h.memory.tracked, s.baseline, t.doc, t.order, ViewOf(s, t.view));
    HealReportsMatchPass(Replay(EMPTY, first), h.memory.lastHeal, h.memory.tracked, s.baseline, t.doc, t.order,
                         ViewOf(s, t.view));
  }
}
