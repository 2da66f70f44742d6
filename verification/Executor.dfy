/** The executor object (internal/executor): its passes update the cluster, the report store and
    its own maps step by step, and each is proved against the function that describes it. `trace`
    records the calls in order; the store always holds exactly what the trace replays to. */
module ExecutorObject {
  import opened Common
  import opened Fleet
  import opened Ordering
  import opened Versions
  import opened PoolResolution
  import opened ActionStore
  import opened Unwedge
  import opened Healing
  import S = Scaling
  import R = Rollout
  import opened ExecutorSpec

  const DEFAULT_EVICTION_TIMEOUT: int := 300 * SECOND

  class Executor {
    const settings: Settings
    const store: Store
    var lastHeal: LastHeal
    var rollFrom: R.RollFrom
    var healDeleted: Tracked
    ghost var trace: seq<Event>

    ghost predicate Valid()
      reads this`trace, store
    {
      store.Value() == Replay(EMPTY, trace)
    }

    function Memory(): Memory
      reads this
    {
      ExecutorSpec.Memory(lastHeal, rollFrom, healDeleted)
    }

    constructor (maxReplicas: int, evictionTimeout: int, now: int)
      ensures Valid() && fresh(store) && trace == []
      ensures Memory() == ExecutorSpec.Memory(map[], map[], map[])
      ensures settings == Settings(maxReplicas, if evictionTimeout <= 0 then 300 * SECOND else evictionTimeout, now)
    {
      settings := Settings(maxReplicas, if evictionTimeout <= 0 then DEFAULT_EVICTION_TIMEOUT else evictionTimeout, now);
      store := new Store();
      lastHeal, rollFrom, healDeleted := map[], map[], map[];
      trace := [];
    }

    // -------------------------------------------------------------- reporting and API calls

    method Say(kind: Kind, target: string, status: Status, detail: Detail, revision: int)
      requires Valid()
      modifies this`trace, store
      ensures Valid() && trace == old(trace) + [Report(Action(kind, target, status, detail, revision))]
    {
      var a := Action(kind, target, status, detail, revision);
      store.Upsert(a);
      trace := trace + [Report(a)];
      assert trace[..|trace| - 1] == old(trace);
    }

    /** A call to the API server, with its outcome, enters the trace. */
    ghost method Called(e: Event)
      requires Valid() && (e.IsWrite() || e.HealRead? || e.UnwedgeAttempt?)
      modifies this`trace
      ensures Valid() && trace == old(trace) + [e]
    {
      trace := trace + [e];
      assert trace[..|trace| - 1] == old(trace);
    }

    // -------------------------------------------------------------- scaling

    method ScaleOne(revision: int, pool: WorkerPool, md: Option<Deployment>,
                    result: CallResult) returns (transient: bool)
      requires Valid()
      modifies this`trace, store
      ensures Valid()
      ensures trace == old(trace) + S.ScaleOne(revision, pool, md, settings.maxReplicas, result)
      ensures transient == S.Transient(pool, md, settings.maxReplicas, result)
    {
      hide Valid, IsControlPlane, AutoscalerKey, IsDNS1123Subdomain;
      transient := false;
      if pool.name == "" { return; }
      if !IsDNS1123Subdomain(pool.name) {
        Say(Scale, pool.name, Rejected, InvalidName, revision);
        return;
      }
      Say(Scale, pool.name, Pending, NoDetail, revision);
      if md.None? {
        Say(Scale, pool.name, Rejected, NoSuchDeployment, revision);
        return;
      }
      if IsControlPlane(md.value) {
        Say(Scale, pool.name, Rejected, ControlPlanePool, revision);
        return;
      }
      var key := AutoscalerKey(md.value);
      if key.Some? {
        Say(Scale, pool.name, Rejected, AutoscalerPool(key.value), revision);
        return;
      }
      if pool.desiredReplicas < 0 || pool.desiredReplicas > settings.maxReplicas {
        Say(Scale, pool.name, Rejected, ReplicasOutOfRange(pool.desiredReplicas, settings.maxReplicas), revision);
        return;
      }
      var current := md.value.replicas;
      if current == Some(pool.desiredReplicas) {
        Say(Scale, pool.name, Done, AlreadyAt(pool.desiredReplicas), revision);
        return;
      }
      Say(Scale, pool.name, InProgress, PatchingReplicas(pool.desiredReplicas), revision);
      Called(PatchReplicas(pool.name, pool.desiredReplicas, result));
      if !result.Ok? {
        Say(Scale, pool.name, Rejected, PatchFailed(result), revision);
        return true;
      }
      Say(Scale, pool.name, Done, Scaled(current, pool.desiredReplicas), revision);
    }

    method ReportCannotList(kind: Kind, revision: int, pools: seq<WorkerPool>)
      requires Valid()
      modifies this`trace, store
      ensures Valid() && trace == old(trace) + S.CannotListAll(revision, kind, pools, |pools|)
    {
      hide Valid;
      for i := 0 to |pools|
        invariant Valid() && trace == old(trace) + S.CannotListAll(revision, kind, pools, i)
      {
        Say(kind, pools[i].name, Rejected, CannotList, revision);
      }
    }

    method ScalePools(doc: Doc, listing: Option<seq<Deployment>>, fate: nat -> CallResult) returns (retry: bool)
      requires Valid()
      modifies this`trace, store
      ensures Valid()
      ensures var out := S.ScalePass(doc, listing, settings.maxReplicas, fate);
              trace == old(trace) + out.events && retry == out.halted
    {
      hide Valid, S.PassPools, S.ScaleOne, S.Transient;
      retry := false;
      var pools := S.PassPools(doc.pools);
      if |pools| == 0 { return; }
      if listing.None? {
        ReportCannotList(Scale, doc.revision, pools);
        return true;
      }
      var byName := BuildIndex(listing.value, DeploymentName);
      var halted := false;
      for i := 0 to |pools|
        invariant Valid()
        invariant var st := S.ScaleAll(doc.revision, pools, i, listing.value, settings.maxReplicas, fate);
                  trace == old(trace) + st.events && halted == st.halted && retry == st.halted
      {
        var pool := pools[i];
        if halted {
          Say(Scale, pool.name, Pending, QueuedBehindFailure, doc.revision);
        } else {
          var md := if pool.name in byName then Some(byName[pool.name]) else None;
          var transient := ScaleOne(doc.revision, pool, md, fate(i));
          if transient { halted, retry := true, true; }
        }
      }
    }

    // -------------------------------------------------------------- upgrades

    /** Counts a pool's machines: at the target version with a joined node, and all. */
    method RollProgress(machines: seq<Machine>, resolver: PoolResolver, ghost mds: seq<Deployment>, md: Deployment,
                        pool: string, target: string)
      returns (n: int, m: int)
      requires resolver.Value() == ResolverOf(mds)
      ensures (n, m) == R.RollProgress(machines, mds, md, pool, target)
    {
      n, m := 0, 0;
      for i := 0 to |machines|
        invariant R.CountPool(machines[..i], mds, pool, target) == R.Count(n, m)
      {
        var mach := machines[i];
        assert machines[..i + 1][..i] == machines[..i];
        if mach.deleting { continue; }
        var owner := resolver.Find(mach);
        if (if owner.Some? then owner.value.name else "") != pool { continue; }
        m := m + 1;
        if SameVersion(mach.kubelet, target) && mach.nodeRef != "" { n := n + 1; }
      }
      assert machines[..|machines|] == machines;
      if md.replicas.Some? && md.replicas.value > m { m := md.replicas.value; }
    }

    method DeriveFromVersion(machines: seq<Machine>, resolver: PoolResolver, ghost mds: seq<Deployment>, pool: string,
                             target: string)
      returns (from: string)
      requires resolver.Value() == ResolverOf(mds)
      ensures from == R.DeriveFromVersion(machines, mds, pool, target)
    {
      var bestName, bestVersion := "", "";
      for i := 0 to |machines|
        invariant R.DeriveFrom(machines[..i], mds, pool, target) == (bestName, bestVersion)
      {
        var mach := machines[i];
        assert machines[..i + 1][..i] == machines[..i];
        var owner := resolver.Find(mach);
        if (if owner.Some? then owner.value.name else "") != pool { continue; }
        if mach.kubelet == "" || SameVersion(mach.kubelet, target) { continue; }
        if bestName == "" || (StringLe(mach.name, bestName) && mach.name != bestName) {
          bestName, bestVersion := mach.name, mach.kubelet;
        }
      }
      assert machines[..|machines|] == machines;
      from := if bestVersion == "" then target else bestVersion;
    }

    /** Phase 1: observe every pool. */
    method ObservePools(pools: seq<WorkerPool>, mds: seq<Deployment>, machines: seq<Machine>, resolver: PoolResolver,
                        target: string)
      returns (statuses: seq<R.PoolStatus>, rolling: bool, needsRoll: bool)
      requires resolver.Value() == ResolverOf(mds)
      ensures statuses == R.ObserveAll(pools, mds, machines, target)
      ensures rolling == R.AnyMidRoll(statuses)
      ensures needsRoll == exists i :: 0 <= i < |statuses| && statuses[i].NeedsRoll()
    {
      hide R.RollProgress, IsControlPlane, AutoscalerKey, SameVersion, ResolverOf;
      var byName := BuildIndex(mds, DeploymentName);
      statuses, rolling, needsRoll := [], false, false;
      for i := 0 to |pools|
        invariant |statuses| == i
        invariant forall j :: 0 <= j < i ==> statuses[j] == R.Observe(pools[j].name, mds, machines, target)
        invariant rolling == exists j :: 0 <= j < i && statuses[j].MidRoll()
        invariant needsRoll == exists j :: 0 <= j < i && statuses[j].NeedsRoll()
      {
        var name := pools[i].name;
        var st := R.PoolStatus(name, false, false, None, "", false, 0, 0);
        if name in byName {
          var md := byName[name];
          var n, m := RollProgress(machines, resolver, mds, md, name, target);
          st := R.PoolStatus(name, true, IsControlPlane(md), AutoscalerKey(md), md.kubelet,
                             md.kubelet != "" && SameVersion(md.kubelet, target), n, m);
          if st.MidRoll() { rolling := true; }
          if st.NeedsRoll() { needsRoll := true; }
        }
        assert st == R.Observe(name, mds, machines, target);
        statuses := statuses + [st];
      }
    }

    method AbortUpgrade(revision: int, statuses: seq<R.PoolStatus>, detail: Detail)
      requires Valid()
      modifies this`trace, store
      ensures Valid() && trace == old(trace) + R.AbortReports(revision, statuses, |statuses|, detail)
    {
      for i := 0 to |statuses|
        invariant Valid() && trace == old(trace) + R.AbortReports(revision, statuses, i, detail)
      {
        if statuses[i].found && !statuses[i].atTarget {
          Say(Upgrade, statuses[i].name, Rejected, detail, revision);
        }
      }
    }

    method PatchKubelet(revision: int, st: R.PoolStatus, target: string, result: CallResult) returns (ok: bool)
      requires Valid()
      modifies this`trace, this`rollFrom, store
      ensures Valid() && ok == result.Ok?
      ensures trace == old(trace) + R.PatchEvents(revision, st, target, result)
      ensures rollFrom == if ok then old(rollFrom)[st.name := st.current] else old(rollFrom)
    {
      hide Valid;
      Say(Upgrade, st.name, InProgress, Rolling(st.current, target, st.n, st.m), revision);
      Called(Event.PatchKubelet(st.name, target, result));
      if !result.Ok? {
        Say(Upgrade, st.name, Rejected, PatchFailed(result), revision);
        return false;
      }
      rollFrom := rollFrom[st.name := st.current];
      Say(Upgrade, st.name, InProgress, Rolling(st.current, target, st.n, st.m), revision);
      ok := true;
    }

    /** Phase 2 for one pool: remark on it, or start its roll. */
    method RollOne(revision: int, st: R.PoolStatus, rolling: bool, halted: bool, target: string, v: R.RollView,
                   resolver: PoolResolver, result: CallResult)
      returns (rolling': bool, halted': bool, retry: bool)
      requires Valid() && resolver.Value() == ResolverOf(v.mds)
      modifies this`trace, this`rollFrom, store
      ensures Valid()
      ensures var s := R.RollStep(R.Roll(old(rollFrom), rolling, halted, false, []), revision, st, target, v, result);
              trace == old(trace) + s.events
              && R.Roll(rollFrom, rolling', halted', retry, s.events) == s
    {
      hide Valid, ResolverOf, R.DeriveFromVersion, R.PatchEvents;
      rolling', halted', retry := rolling, halted, false;
      if halted {
        Say(Upgrade, st.name, Pending, QueuedBehindFailure, revision);
      } else if !st.found {
        Say(Upgrade, st.name, Rejected, NoSuchDeployment, revision);
      } else if st.current == "" {
        Say(Upgrade, st.name, Rejected, NoKubeletVersion, revision);
      } else if st.controlPlane {
        if !st.atTarget { Say(Upgrade, st.name, Rejected, ControlPlanePool, revision); }
      } else if st.autoscaler.Some? {
        if !st.atTarget { Say(Upgrade, st.name, Rejected, AutoscalerPool(st.autoscaler.value), revision); }
      } else if st.Converged() {
        if st.name in rollFrom {
          Say(Upgrade, st.name, Done, Rolling(rollFrom[st.name], target, st.n, st.m), revision);
        }
      } else if st.atTarget {
        var from;
        if st.name in rollFrom {
          from := rollFrom[st.name];
        } else {
          from := DeriveFromVersion(v.machines, resolver, v.mds, st.name, target);
        }
        rollFrom := rollFrom[st.name := from];
        Say(Upgrade, st.name, InProgress, Rolling(from, target, st.n, st.m), revision);
        retry := true;
      } else if rolling {
        Say(Upgrade, st.name, Pending, OnePoolAtATime, revision);
        retry := true;
      } else {
        var ok := PatchKubelet(revision, st, target, result);
        if ok { rolling', retry := true, true; } else { halted', retry := true, true; }
      }
    }

    /** Phase 2: act, one pool at a time. */
    method RollPools(revision: int, statuses: seq<R.PoolStatus>, rollingExists: bool, target: string, v: R.RollView,
                     resolver: PoolResolver)
      returns (retry: bool)
      requires Valid() && resolver.Value() == ResolverOf(v.mds) && rollingExists == R.AnyMidRoll(statuses)
      modifies this`trace, this`rollFrom, store
      ensures Valid()
      ensures var out := R.RollAll(old(rollFrom), revision, statuses, |statuses|, target, v);
              trace == old(trace) + out.events && rollFrom == out.rollFrom && retry == out.retry
    {
      hide Valid, ResolverOf, R.RollStep, R.AnyMidRoll;
      retry := false;
      var rolling, halted := rollingExists, false;
      for i := 0 to |statuses|
        invariant Valid()
        invariant resolver.Value() == ResolverOf(v.mds)
        invariant var s := R.RollAll(old(rollFrom), revision, statuses, i, target, v);
                  trace == old(trace) + s.events && s == R.Roll(rollFrom, rolling, halted, retry, s.events)
      {
        ghost var s := R.RollAll(old(rollFrom), revision, statuses, i, target, v);
        R.RollStepFresh(s, revision, statuses[i], target, v, v.fate(i));
        var again;
        rolling, halted, again := RollOne(revision, statuses[i], rolling, halted, target, v, resolver, v.fate(i));
        retry := retry || again;
      }
    }

    method UpgradePools(doc: Doc, mds: Option<seq<Deployment>>, machines: Option<seq<Machine>>, observed: string,
                        fate: nat -> CallResult)
      returns (retry: bool)
      requires Valid()
      modifies this`trace, this`rollFrom, store
      ensures Valid()
      ensures var out := R.UpgradePass(old(rollFrom), doc, mds, machines, observed, fate);
              trace == old(trace) + out.events && rollFrom == out.rollFrom && retry == out.retry
    {
      hide Valid, ResolverOf, R.RollAll, R.ObserveAll, R.RollPools, R.CheckPreflight, R.AnyMidRoll, TrimSpace;
      retry := false;
      if doc.kubernetesVersion.None? { return; }
      var target := TrimSpace(doc.kubernetesVersion.value);
      if target == "" { return; }
      var pools := R.RollPools(doc.pools);
      if |pools| == 0 { return; }
      if mds.None? || machines.None? {
        ReportCannotList(Upgrade, doc.revision, pools);
        return true;
      }
      var v := R.RollView(mds.value, machines.value, observed, fate);
      var resolver := new PoolResolver(v.mds);
      var statuses, rolling, needsRoll := ObservePools(pools, v.mds, v.machines, resolver, target);
      if needsRoll {
        var check := R.CheckPreflight(target, observed);
        if check.Abort? {
          AbortUpgrade(doc.revision, statuses, check.detail);
          return check.retry;
        }
      }
      retry := RollPools(doc.revision, statuses, rolling, target, v, resolver);
    }

    // -------------------------------------------------------------- the unwedge

    /** The pods already terminating on the node, in order, at most MAX_UNWEDGE_PODS. */
    method StuckPodsOn(pods: seq<Pod>, node: string) returns (stuck: seq<Pod>)
      ensures stuck == StuckPods(pods, node)
    {
      stuck := [];
      for i := 0 to |pods|
        invariant stuck == TerminatingOn(pods[..i], node)
      {
        assert pods[..i + 1][..i] == pods[..i];
        if pods[i].node != node || !pods[i].terminating { continue; }
        stuck := stuck + [pods[i]];
      }
      assert pods[..|pods|] == pods;
      stuck := Sort(stuck, PodLe);
      if |stuck| > MAX_UNWEDGE_PODS { stuck := stuck[..MAX_UNWEDGE_PODS]; }
    }

    method UnwedgeOne(revision: int, name: string, tr: Tracking, stuck: seq<Pod>, v: View)
      requires Valid()
      modifies this`trace, store
      ensures Valid() && trace == old(trace) + AttemptEvents(revision, name, tr, stuck, v)
    {
      hide Valid;
      ghost var mark := UnwedgeAttempt(name, tr.node, tr.deletedAt, v.now);
      Called(mark);
      var deleted, failed := 0, 0;
      for i := 0 to |stuck|
        invariant Valid()
        invariant ForceDeletes(name, stuck, i, v.podFate).forbidden == false
        invariant deleted == ForceDeletes(name, stuck, i, v.podFate).deleted
        invariant failed == ForceDeletes(name, stuck, i, v.podFate).failed
        invariant trace == old(trace) + ([mark] + ForceDeletes(name, stuck, i, v.podFate).events)
      {
        var result := v.podFate(name, i);
        Called(DeletePod(name, stuck[i], result));
        match result {
          case Ok => deleted := deleted + 1;
          case NotFound =>
          case Conflict =>
          case Forbidden =>
            ForbiddenStops(name, stuck, i + 1, |stuck|, v.podFate);
            Say(Heal, name, Done, UnwedgeForbidden(Seconds(v.now - tr.deletedAt)), revision);
            return;
          case Failed(_) => failed := failed + 1;
        }
      }
      Say(Heal, name, Done, Unwedged(Seconds(v.now - tr.deletedAt), deleted, failed, tr.node), revision);
    }

    /** One tracked name. */
    method VisitOne(revision: int, name: string, byName: map<string, Machine>, nodeByName: map<string, Node>, v: View)
      requires Valid() && name in healDeleted
      requires byName == IndexBy(v.machines, MachineName) && nodeByName == IndexBy(v.nodes, NodeName)
      modifies this`trace, this`healDeleted, store
      ensures Valid()
      ensures var s := Visit(Sweep(old(healDeleted), []), revision, name, v);
              trace == old(trace) + s.events && healDeleted == s.tracked
    {
      hide Valid, StuckPods, AttemptEvents, IndexBy;
      var tr := healDeleted[name];
      if name !in byName || !byName[name].deleting {
        healDeleted := healDeleted - {name};
        return;
      }
      if tr.attempted || tr.node == "" { return; }
      if v.now - tr.deletedAt < v.evictionTimeout { return; }
      if tr.node !in nodeByName { return; }
      if nodeByName[tr.node].ready.ReadyTrue? { return; }
      var read := v.pods(name);
      if !read.Pods? { return; }
      var stuck := StuckPodsOn(read.pods, tr.node);
      if |stuck| == 0 { return; }
      healDeleted := healDeleted[name := tr.(attempted := true)];
      UnwedgeOne(revision, name, tr, stuck, v);
    }

    /** `order` records the order in which the map happened to be walked. */
    method UnwedgePass(revision: int, v: View) returns (ghost order: seq<string>)
      requires Valid()
      modifies this`trace, this`healDeleted, store
      ensures Valid() && Enumerates(order, old(healDeleted))
      ensures var s := SweepAll(old(healDeleted), revision, order, v);
              trace == old(trace) + s.events && healDeleted == s.tracked
    {
      hide Valid, IndexBy, Visit;
      order := [];
      var byName := BuildIndex(v.machines, MachineName);
      var nodeByName := BuildIndex(v.nodes, NodeName);
      var left := healDeleted.Keys;
      while left != {}
        invariant Valid() && left <= healDeleted.Keys
        invariant forall n :: n in order <==> n in old(healDeleted) && n !in left
        invariant left <= old(healDeleted).Keys
        invariant forall i, j :: 0 <= i < j < |order| ==> order[i] != order[j]
        invariant SweepAll(old(healDeleted), revision, order, v).tracked == healDeleted
        invariant trace == old(trace) + SweepAll(old(healDeleted), revision, order, v).events
        decreases |left|
      {
        var name :| name in left;
        left := left - {name};
        ghost var before := SweepAll(old(healDeleted), revision, order, v);
        VisitFresh(before, revision, name, v);
        VisitOne(revision, name, byName, nodeByName, v);
        assert (order + [name])[..|order|] == order;
        order := order + [name];
      }
    }

    // -------------------------------------------------------------- detection

    /** How many machines are already going away, and the live machine behind each node. */
    method CountInFlight(machines: seq<Machine>) returns (inFlight: nat, byNodeName: map<string, Machine>)
      ensures inFlight == CountDeleting(machines) && byNodeName == ByNodeName(machines)
    {
      inFlight, byNodeName := 0, map[];
      for i := 0 to |machines|
        invariant inFlight == CountDeleting(machines[..i]) && byNodeName == ByNodeName(machines[..i])
      {
        var m := machines[i];
        assert machines[..i + 1][..i] == machines[..i];
        ghost var live := Filter(machines[..i], Joined);
        assert Joined(m) ==> Filter(machines[..i + 1], Joined) == live + [m] && (live + [m])[..|live|] == live;
        if m.deleting {
          inFlight := inFlight + 1;
        } else if m.nodeRef != "" {
          byNodeName := byNodeName[m.nodeRef := m];
        }
      }
      assert machines[..|machines|] == machines;
    }

    method AddCandidate(cands: seq<Candidate>, seen: set<string>, ghost v: View, resolver: PoolResolver, m: Machine,
                        node: string, cause: Cause)
      returns (cands': seq<Candidate>, seen': set<string>)
      requires resolver.Value() == ResolverOf(v.mds) && seen == Names(cands)
      ensures cands' == Add(cands, v, m, node, cause) && seen' == Names(cands')
    {
      hide ResolverOf, PoolFor;
      if m.name == "" || m.name in seen { return cands, seen; }
      var owner := resolver.Find(m);
      cands' := cands + [Candidate(m.name, owner, node, cause)];
      seen' := seen + {m.name};
    }

    method Detect(v: View, resolver: PoolResolver, byNodeName: map<string, Machine>, policy: Fleet.Healing)
      returns (cands: seq<Candidate>)
      requires resolver.Value() == ResolverOf(v.mds) && byNodeName == ByNodeName(v.machines)
      ensures cands == Candidates(v, policy)
    {
      hide ResolverOf, Add, ByNodeName, HasControlPlaneLabel;
      var timeout := FlooredWindow(policy.nodeStartupTimeoutSeconds);
      var window := FlooredWindow(policy.unhealthyAfterSeconds);
      var seen := {};
      cands := [];
      for i := 0 to |v.machines|
        invariant cands == ScanMachines(v, timeout, i) && seen == Names(cands)
      {
        var m := v.machines[i];
        if m.deleting || m.nodeRef != "" { continue; }
        var age := if m.created.Some? then v.now - m.created.value else 0;
        if age <= 0 || age < timeout { continue; }
        if IsControlPlaneMachine(m) { continue; }
        cands, seen := AddCandidate(cands, seen, v, resolver, m, "", NeverJoined(Seconds(age), timeout));
      }
      for i := 0 to |v.nodes|
        invariant cands == ScanNodes(v, timeout, window, i) && seen == Names(cands)
      {
        var n := v.nodes[i];
        if n.ready.ReadyTrue? { continue; }
        if n.since.None? || v.now - n.since.value < window { continue; }
        if IsControlPlaneNode(n) { continue; }
        if n.name !in byNodeName { continue; }
        cands, seen := AddCandidate(cands, seen, v, resolver, byNodeName[n.name], n.name,
                                    NodeUnhealthy(n.name, n.ready, Seconds(v.now - n.since.value), window));
      }
      cands := Sort(cands, CandidateLe);
    }

    // -------------------------------------------------------------- remediation

    method Remediate(revision: int, c: Candidate, cfg: Config, result: CallResult) returns (ok: bool)
      requires Valid() && cfg.revision == revision
      modifies this`trace, this`lastHeal, this`healDeleted, store
      ensures Valid() && ok == DeleteSucceeded(result)
      ensures trace == old(trace) + Remediation(c, cfg, result)
      ensures lastHeal == if ok then old(lastHeal)[c.Pool() := cfg.now] else old(lastHeal)
      ensures healDeleted == if result.Ok? then old(healDeleted)[c.machine := Tracking(c.node, cfg.now, false)]
                             else old(healDeleted)
    {
      hide Valid;
      Say(Heal, c.machine, InProgress, DeletingMachine(c.cause), revision);
      Called(DeleteEvent(cfg, c, result));
      if !result.Ok? && !result.NotFound? {
        Say(Heal, c.machine, Rejected, DeleteFailed(result), revision);
        return false;
      }
      if result.Ok? {
        healDeleted := healDeleted[c.machine := Tracking(c.node, cfg.now, false)];
      }
      lastHeal := lastHeal[c.Pool() := cfg.now];
      Say(Heal, c.machine, Done, DeletedMachine(c.cause), revision);
      ok := true;
    }

    /** One candidate under the guardrails. */
    method TreatOne(c: Candidate, cfg: Config, inFlight: int, budget: int, halted: bool, result: CallResult)
      returns (inFlight': int, budget': int, halted': bool)
      requires Valid() && cfg.baseline == settings.baseline
      modifies this`trace, this`lastHeal, this`healDeleted, store
      ensures Valid()
      ensures var st := Treat(c, Loop(old(lastHeal), old(healDeleted), inFlight, budget, halted, []), cfg, result);
              trace == old(trace) + st.events
              && st == Loop(lastHeal, healDeleted, inFlight', budget', halted', st.events)
    {
      hide Valid, IsControlPlane, AutoscalerKey;
      inFlight', budget', halted' := inFlight, budget, halted;
      if halted {
        Say(Heal, c.machine, Pending, QueuedBehindFailure, cfg.revision);
      } else if c.owner.None? {
        Say(Heal, c.machine, Rejected, Unowned, cfg.revision);
      } else if IsControlPlane(c.owner.value) {
        Say(Heal, c.machine, Rejected, ControlPlanePool, cfg.revision);
      } else if AutoscalerKey(c.owner.value).Some? {
        Say(Heal, c.machine, Rejected, AutoscalerPool(AutoscalerKey(c.owner.value).value), cfg.revision);
      } else if budget <= 0 {
        Say(Heal, c.machine, Pending, BudgetSpent(inFlight, cfg.maxUnhealthy), cfg.revision);
      } else {
        var elapsed := cfg.now - LastHealTime(lastHeal, settings.baseline, c.Pool());
        if elapsed < cfg.cooldown {
          Say(Heal, c.machine, Pending, CoolingDown(c.Pool(), Seconds(cfg.cooldown - elapsed)), cfg.revision);
        } else {
          var ok := Remediate(cfg.revision, c, cfg, result);
          if !ok { halted' := true; } else { inFlight', budget' := inFlight + 1, budget - 1; }
        }
      }
    }

    method TreatEach(cands: seq<Candidate>, cfg: Config, inFlight0: int, v: View)
      requires Valid() && cfg.baseline == settings.baseline && inFlight0 == CountDeleting(v.machines)
      modifies this`trace, this`lastHeal, this`healDeleted, store
      ensures Valid()
      ensures var st := TreatAll(cands, |cands|, StartLoop(old(lastHeal), old(healDeleted), cfg, v.machines), cfg, v.deleteFate);
              trace == old(trace) + st.events && lastHeal == st.lastHeal && healDeleted == st.tracked
    {
      hide Valid, Treat, CountDeleting;
      ghost var start := StartLoop(lastHeal, healDeleted, cfg, v.machines);
      var inFlight, budget, halted := inFlight0, cfg.maxUnhealthy - inFlight0, false;
      for i := 0 to |cands|
        invariant Valid()
        invariant var st := TreatAll(cands, i, start, cfg, v.deleteFate);
                  trace == old(trace) + st.events
                  && st == Loop(lastHeal, healDeleted, inFlight, budget, halted, st.events)
      {
        TreatFresh(cands[i], TreatAll(cands, i, start, cfg, v.deleteFate), cfg, v.deleteFate(i));
        inFlight, budget, halted := TreatOne(cands[i], cfg, inFlight, budget, halted, v.deleteFate(i));
      }
    }

    method RefuseAll(cands: seq<Candidate>, cfg: Config)
      requires Valid()
      modifies this`trace, store
      ensures Valid() && trace == old(trace) + BrakeAll(cands, |cands|, cfg)
    {
      hide Valid;
      for i := 0 to |cands|
        invariant Valid() && trace == old(trace) + BrakeAll(cands, i, cfg)
      {
        Say(Heal, cands[i].machine, Rejected, StormBrake(|cands|, cfg.maxUnhealthy), cfg.revision);
      }
    }

    method PruneHeal(cands: seq<Candidate>)
      requires Valid()
      modifies this`trace, store
      ensures Valid() && trace == old(trace) + [PruneReports(Heal, Names(cands))]
    {
      var active := set c | c in cands :: c.machine;
      store.Prune(Heal, active);
      trace := trace + [PruneReports(Heal, active)];
      assert trace[..|trace| - 1] == old(trace);
    }

    method HealPass(doc: Doc, v: View) returns (ghost order: seq<string>)
      requires Valid()
      modifies this`trace, this`lastHeal, this`healDeleted, store
      ensures Valid() && Enumerates(order, old(healDeleted))
      ensures var out := Healing.HealPass(old(lastHeal), old(healDeleted), settings.baseline, doc, order, v);
              trace == old(trace) + out.events && lastHeal == out.lastHeal && healDeleted == out.tracked
    {
      hide Valid, ResolverOf, Candidates, SweepAll, TreatAll, BrakeAll, Enumerates, CountDeleting;
      var cfg := ConfigOf(doc, v.now, settings.baseline);
      var resolver := new PoolResolver(v.mds);
      Called(HealRead(DeletingNames(v.machines)));
      order := UnwedgePass(doc.revision, v);
      var inFlight, byNodeName := CountInFlight(v.machines);
      var cands := Detect(v, resolver, byNodeName, doc.healing);
      if |cands| > doc.healing.maxUnhealthy {
        RefuseAll(cands, cfg);
      } else {
        TreatEach(cands, cfg, inFlight, v);
      }
      PruneHeal(cands);
    }

    // -------------------------------------------------------------- one Reconcile call

    method BeginOrClear(doc: Doc) returns (acting: bool)
      requires Valid()
      modifies this`trace, store
      ensures Valid() && acting == !ReportOnly(doc)
      ensures trace == old(trace) + [if acting then BeginRevision(doc.revision) else ClearReports]
    {
      acting := doc.execution.scaling || doc.execution.upgrades || HealingArmed(doc);
      if acting {
        store.Begin(doc.revision);
        trace := trace + [BeginRevision(doc.revision)];
      } else {
        store.Clear();
        trace := trace + [ClearReports];
      }
      assert trace[..|trace| - 1] == old(trace);
    }

    /** Scale, then roll, then heal, each behind its own flag. */
    method Reconcile(doc: Doc, r: Reads) returns (retry: bool, ghost order: seq<string>)
      requires Valid()
      modifies this`trace, this`lastHeal, this`rollFrom, this`healDeleted, store
      ensures Valid()
      ensures HealingArmed(doc) && r.HealReadable() ==> Enumerates(order, old(healDeleted))
      ensures var out := ExecutorSpec.Reconcile(old(Memory()), settings, doc, order, r);
              Memory() == out.memory && retry == out.retry && trace == old(trace) + out.events
    {
      hide Valid, S.ScalePass, R.UpgradePass, Healing.HealPass, Enumerates;
      retry, order := false, [];
      var acting := BeginOrClear(doc);
      if !acting { return; }
      if doc.execution.scaling {
        retry := ScalePools(doc, r.scaleMds, r.scaleFate);
      }
      if doc.execution.upgrades {
        var again := UpgradePools(doc, r.rollMds, r.rollMachines, r.observed, r.rollFate);
        retry := again || retry;
      }
      if HealingArmed(doc) {
        if r.HealReadable() { order := HealPass(doc, ViewOf(settings, r)); }
        retry := true;
      }
    }
  }
}
