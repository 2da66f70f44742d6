/** Worker upgrades (internal/executor/upgrade.go): roll one pool at a time toward the desired
    kubelet version, behind the control-plane pre-flight. */
module Rollout {
  import opened Common
  import opened Fleet
  import opened Ordering
  import opened Versions
  import opened PoolResolution
  import opened Scaling

  // ---------------------------------------------------------------- observing a pool

  predicate ValidName(p: WorkerPool) { p.name != "" && IsDNS1123Subdomain(p.name) }

  /** The pools one pass rolls: the well-named ones, in name order, at most 100. */
  function RollPools(pools: seq<WorkerPool>): seq<WorkerPool> { PassPools(Filter(pools, ValidName)) }

  /** A live machine of the pool; `AtVersion` adds the target version and a joined node. */
  predicate InPool(mds: seq<Deployment>, pool: string, mach: Machine) {
    !mach.deleting && PoolNameOf(mds, mach) == pool
  }

  predicate AtVersion(mach: Machine, target: string) { SameVersion(mach.kubelet, target) && mach.nodeRef != "" }

  datatype Count = Count(n: nat, m: nat)

  function CountPool(machines: seq<Machine>, mds: seq<Deployment>, pool: string, target: string): Count {
    if machines == [] then Count(0, 0)
    else
      var c, mach := CountPool(machines[..|machines| - 1], mds, pool, target), machines[|machines| - 1];
      if !InPool(mds, pool, mach) then c
      else Count(c.n + (if AtVersion(mach, target) then 1 else 0), c.m + 1)
  }

  /** m never falls below the declared replicas: a gap in mid-roll cannot fake convergence. */
  function RollProgress(machines: seq<Machine>, mds: seq<Deployment>, md: Deployment, pool: string,
                        target: string): (int, int) {
    var c := CountPool(machines, mds, pool, target);
    (c.n, if md.replicas.Some? && md.replicas.value > c.m then md.replicas.value else c.m)
  }

  /** One desired pool as observed: whether its deployment exists, the two refusal tests on it,
      its declared version, and the machine counts. */
  datatype PoolStatus = PoolStatus(name: string, found: bool, controlPlane: bool, autoscaler: Option<string>,
                                   current: string, atTarget: bool, n: int, m: int)
  {
    predicate Converged() { atTarget && n >= m }
    predicate Manageable() { found && !controlPlane && autoscaler.None? }
    predicate MidRoll() { Manageable() && atTarget && !Converged() }
    predicate NeedsRoll() { found && !atTarget && current != "" }
    /** The pools a pass has to start. */
    predicate Startable() { Manageable() && current != "" && !atTarget }
  }

  function Observe(name: string, mds: seq<Deployment>, machines: seq<Machine>, target: string): PoolStatus {
    match Lookup(mds, name)
    case None => PoolStatus(name, false, false, None, "", false, 0, 0)
    case Some(md) =>
      var (n, m) := RollProgress(machines, mds, md, name, target);
      PoolStatus(name, true, IsControlPlane(md), AutoscalerKey(md), md.kubelet,
                 md.kubelet != "" && SameVersion(md.kubelet, target), n, m)
  }

  function ObserveAll(pools: seq<WorkerPool>, mds: seq<Deployment>, machines: seq<Machine>,
                      target: string): seq<PoolStatus> {
    seq(|pools|, i requires 0 <= i < |pools| => Observe(pools[i].name, mds, machines, target))
  }

  /** The pre-roll version recovered from the least-named machine still on another version. */
  function DeriveFrom(machines: seq<Machine>, mds: seq<Deployment>, pool: string, target: string): (string, string) {
    if machines == [] then ("", "")
    else
      var best, mach := DeriveFrom(machines[..|machines| - 1], mds, pool, target), machines[|machines| - 1];
      if PoolNameOf(mds, mach) != pool || mach.kubelet == "" || SameVersion(mach.kubelet, target) then best
      else if best.0 == "" || (StringLe(mach.name, best.0) && mach.name != best.0) then (mach.name, mach.kubelet)
      else best
  }

  function DeriveFromVersion(machines: seq<Machine>, mds: seq<Deployment>, pool: string, target: string): string {
    var best := DeriveFrom(machines, mds, pool, target);
    if best.1 == "" then target else best.1
  }

  // ---------------------------------------------------------------- pre-flight

  datatype Preflight = Proceed | Abort(retry: bool, detail: Detail)

  /** Workers never outrun the control plane, and an unknown version is never guessed. */
  function CheckPreflight(target: string, observed: string): Preflight {
    match ParseMajorMinor(target)
    case None => Abort(false, InvalidTarget(target))
    case Some(t) =>
      match ParseMajorMinor(observed)
      case None => Abort(true, VersionUnknown)
      case Some(o) => if AtLeast(o, t) then Proceed else Abort(true, BehindTarget(observed, target))
  }

  function UpgradeReport(revision: int, name: string, status: Status, detail: Detail): Event {
    Report(Action(Upgrade, name, status, detail, revision))
  }

  function AbortReports(revision: int, statuses: seq<PoolStatus>, k: nat, detail: Detail): seq<Event>
    requires k <= |statuses|
  {
    if k == 0 then []
    else
      var st := statuses[k - 1];
      AbortReports(revision, statuses, k - 1, detail)
      + if st.found && !st.atTarget then [UpgradeReport(revision, st.name, Rejected, detail)] else []
  }

  // ---------------------------------------------------------------- acting, one pool at a time

  type RollFrom = map<string, string>

  datatype Roll = Roll(rollFrom: RollFrom, rolling: bool, halted: bool, retry: bool, events: seq<Event>)

  /** What a pass reads: the listings, the observed control-plane version, and each patch's fate. */
  datatype RollView = RollView(mds: seq<Deployment>, machines: seq<Machine>, observed: string, fate: nat -> CallResult)

  function PatchEvents(revision: int, st: PoolStatus, target: string, result: CallResult): seq<Event> {
    var rolling := UpgradeReport(revision, st.name, InProgress, Rolling(st.current, target, st.n, st.m));
    [rolling, PatchKubelet(st.name, target, result),
     if result.Ok? then rolling else UpgradeReport(revision, st.name, Rejected, PatchFailed(result))]
  }

  predicate Starts(s: Roll, st: PoolStatus) { !s.halted && !s.rolling && st.Startable() }

  function FromVersion(s: Roll, st: PoolStatus, target: string, v: RollView): string {
    if st.name in s.rollFrom then s.rollFrom[st.name] else DeriveFromVersion(v.machines, v.mds, st.name, target)
  }

  /** What is reported about a pool that is not started now. */
  function Remark(s: Roll, st: PoolStatus, target: string, v: RollView): Option<(Status, Detail)> {
    if s.halted then Some((Pending, QueuedBehindFailure))
    else if !st.found then Some((Rejected, NoSuchDeployment))
    else if st.current == "" then Some((Rejected, NoKubeletVersion))
    else if st.controlPlane then if st.atTarget then None else Some((Rejected, ControlPlanePool))
    else if st.autoscaler.Some? then
      if st.atTarget then None else Some((Rejected, AutoscalerPool(st.autoscaler.value)))
    else if st.Converged() then
      if st.name in s.rollFrom then Some((Done, Rolling(s.rollFrom[st.name], target, st.n, st.m))) else None
    else if st.atTarget then Some((InProgress, Rolling(FromVersion(s, st, target, v), target, st.n, st.m)))
    else Some((Pending, OnePoolAtATime))
  }

  function RollAdded(s: Roll, revision: int, st: PoolStatus, target: string, v: RollView,
                     result: CallResult): seq<Event> {
    if Starts(s, st) then PatchEvents(revision, st, target, result)
    else match Remark(s, st, target, v)
      case None => []
      case Some((status, detail)) => [UpgradeReport(revision, st.name, status, detail)]
  }

  /** Mid-roll and queued pools ask for a retry; a started pool counts as rolling at once, and a
      failed patch halts the pass. */
  function RollStep(s: Roll, revision: int, st: PoolStatus, target: string, v: RollView, result: CallResult): Roll {
    var s' := s.(events := s.events + RollAdded(s, revision, st, target, v, result));
    if Starts(s, st) then
      if result.Ok? then s'.(rollFrom := s.rollFrom[st.name := st.current], rolling := true, retry := true)
      else s'.(halted := true, retry := true)
    else if s.halted || !st.found || st.current == "" || !st.Manageable() || st.Converged() then s'
    else if st.atTarget then
      s'.(rollFrom := s.rollFrom[st.name := FromVersion(s, st, target, v)], retry := true)
    else s'.(retry := true)
  }

  /** A step looks at neither the events so far nor the earlier retry answers. */
  lemma RollStepFresh(s: Roll, revision: int, st: PoolStatus, target: string, v: RollView, result: CallResult)
    ensures var own := RollStep(Roll(s.rollFrom, s.rolling, s.halted, false, []), revision, st, target, v, result);
            RollStep(s, revision, st, target, v, result)
              == Roll(own.rollFrom, own.rolling, own.halted, s.retry || own.retry, s.events + own.events)
  {
    hide PatchEvents, DeriveFromVersion;
  }

  /** Some desired pool is still rolling, wherever it sorts. */
  predicate AnyMidRoll(statuses: seq<PoolStatus>) {
    exists i :: 0 <= i < |statuses| && statuses[i].MidRoll()
  }

  function RollAll(rollFrom: RollFrom, revision: int, statuses: seq<PoolStatus>, k: nat, target: string,
                   v: RollView): Roll
    requires k <= |statuses|
  {
    if k == 0 then Roll(rollFrom, AnyMidRoll(statuses), false, false, [])
    else
      RollStep(RollAll(rollFrom, revision, statuses, k - 1, target, v), revision, statuses[k - 1], target, v,
               v.fate(k - 1))
  }

  datatype Outcome = Outcome(rollFrom: RollFrom, retry: bool, events: seq<Event>)

  /** The desired version, trimmed; "" when none is declared. */
  function Target(doc: Doc): string {
    if doc.kubernetesVersion.None? then "" else TrimSpace(doc.kubernetesVersion.value)
  }

  function RollObserved(rollFrom: RollFrom, doc: Doc, v: RollView): Outcome {
    var target := Target(doc);
    var statuses := ObserveAll(RollPools(doc.pools), v.mds, v.machines, target);
    var needsRoll := exists i :: 0 <= i < |statuses| && statuses[i].NeedsRoll();
    var check := CheckPreflight(target, v.observed);
    if needsRoll && check.Abort? then
      Outcome(rollFrom, check.retry, AbortReports(doc.revision, statuses, |statuses|, check.detail))
    else
      var s := RollAll(rollFrom, doc.revision, statuses, |statuses|, target, v);
      Outcome(s.rollFrom, s.retry, s.events)
  }

  /** The whole pass; a listing is None when it could not be read. */
  function UpgradePass(rollFrom: RollFrom, doc: Doc, mds: Option<seq<Deployment>>, machines: Option<seq<Machine>>,
                       observed: string, fate: nat -> CallResult): Outcome {
    var pools := RollPools(doc.pools);
    if Target(doc) == "" || pools == [] then Outcome(rollFrom, false, [])
    else if mds.None? || machines.None? then
      Outcome(rollFrom, true, CannotListAll(doc.revision, Upgrade, pools, |pools|))
    else RollObserved(rollFrom, doc, RollView(mds.value, machines.value, observed, fate))
  }

  // ---------------------------------------------------------------- progress counting

  /** n never exceeds m, and n = m means what it should: every live machine of the pool runs the
      target version with a joined node, and there are at least as many as declared. */
  lemma RollProgressMeans(machines: seq<Machine>, mds: seq<Deployment>, md: Deployment, pool: string, target: string)
    ensures var (n, m) := RollProgress(machines, mds, md, pool, target);
            && 0 <= n <= m
            && (n == m <==>
                  && (forall mach :: mach in machines && InPool(mds, pool, mach) ==> AtVersion(mach, target))
                  && (md.replicas.Some? ==> md.replicas.value <= CountPool(machines, mds, pool, target).m))
  {
    CountPoolMeans(machines, mds, pool, target);
  }

  lemma {:induction false} CountPoolMeans(machines: seq<Machine>, mds: seq<Deployment>, pool: string, target: string)
    ensures var c := CountPool(machines, mds, pool, target);
            && c.n <= c.m
            && (c.n == c.m <==>
                  forall mach :: mach in machines && InPool(mds, pool, mach) ==> AtVersion(mach, target))
  {
    if machines != [] {
      var init, last := machines[..|machines| - 1], machines[|machines| - 1];
      assert machines == init + [last];
      CountPoolMeans(init, mds, pool, target);
    }
  }

  /** A machine still on another version, deleting or not. */
  ghost predicate Lagging(mds: seq<Deployment>, pool: string, target: string, mach: Machine) {
    PoolNameOf(mds, mach) == pool && mach.kubelet != "" && !SameVersion(mach.kubelet, target)
  }

  ghost predicate LeastLagging(machines: seq<Machine>, mds: seq<Deployment>, pool: string, target: string,
                               best: (string, string)) {
    && (exists mach :: mach in machines && Lagging(mds, pool, target, mach) && best == (mach.name, mach.kubelet))
    && forall mach :: mach in machines && Lagging(mds, pool, target, mach) ==> StringLe(best.0, mach.name)
  }

  lemma LeastOfTwo(init: seq<Machine>, last: Machine, mds: seq<Deployment>, pool: string, target: string,
                   best: (string, string))
    requires LeastLagging(init, mds, pool, target, best) && Lagging(mds, pool, target, last)
    ensures LeastLagging(init + [last], mds, pool, target,
                         if StringLe(last.name, best.0) && last.name != best.0 then (last.name, last.kubelet) else best)
  {
    hide Lagging, StringLe;
    StringLeTotal(last.name, best.0);
    StringLeTotal(last.name, last.name);
    var all := init + [last];
    assert last in all && forall m :: m in all <==> m in init || m == last;
    forall mach | mach in init && Lagging(mds, pool, target, mach) && StringLe(last.name, best.0)
      ensures StringLe(last.name, mach.name)
    {
      StringLeTransitive(last.name, best.0, mach.name);
    }
  }

  ghost predicate NoneLagging(machines: seq<Machine>, mds: seq<Deployment>, pool: string, target: string) {
    forall mach :: mach in machines ==> !Lagging(mds, pool, target, mach)
  }

  ghost predicate Derived(machines: seq<Machine>, mds: seq<Deployment>, pool: string, target: string,
                          best: (string, string)) {
    if NoneLagging(machines, mds, pool, target) then best == ("", "")
    else best.0 != "" && LeastLagging(machines, mds, pool, target, best)
  }

  lemma DerivedStep(init: seq<Machine>, last: Machine, mds: seq<Deployment>, pool: string, target: string,
                    best: (string, string))
    requires Derived(init, mds, pool, target, best) && last.name != ""
    ensures Derived(init + [last], mds, pool, target,
                    if !Lagging(mds, pool, target, last) then best
                    else if best.0 == "" || (StringLe(last.name, best.0) && last.name != best.0) then (last.name, last.kubelet)
                    else best)
  {
    hide Lagging, StringLe;
    StringLeTotal(last.name, last.name);
    var all := init + [last];
    assert last in all && forall m :: m in all <==> m in init || m == last;
    if Lagging(mds, pool, target, last) {
      if NoneLagging(init, mds, pool, target) {
        assert LeastLagging(all, mds, pool, target, (last.name, last.kubelet));
      } else {
        LeastOfTwo(init, last, mds, pool, target, best);
      }
    }
  }

  lemma {:induction false} DeriveFromDerives(machines: seq<Machine>, mds: seq<Deployment>, pool: string, target: string)
    requires forall mach :: mach in machines ==> mach.name != ""
    ensures Derived(machines, mds, pool, target, DeriveFrom(machines, mds, pool, target))
  {
    if machines != [] {
      var init, last := machines[..|machines| - 1], machines[|machines| - 1];
      assert machines == init + [last] && last in machines;
      DeriveFromDerives(init, mds, pool, target);
      hide Derived, PoolNameOf, SameVersion, StringLe;
      DerivedStep(init, last, mds, pool, target, DeriveFrom(init, mds, pool, target));
    }
  }

  /** The recovered version is that of the least-named machine still on another version; with none
      left it is the target itself. */
  lemma DeriveFromMeans(machines: seq<Machine>, mds: seq<Deployment>, pool: string, target: string)
    requires forall mach :: mach in machines ==> mach.name != ""
    ensures if NoneLagging(machines, mds, pool, target) then DeriveFromVersion(machines, mds, pool, target) == target
            else exists mach :: mach in machines && Lagging(mds, pool, target, mach)
                                && DeriveFromVersion(machines, mds, pool, target) == mach.kubelet
                                && forall m :: m in machines && Lagging(mds, pool, target, m) ==> StringLe(mach.name, m.name)
  {
    DeriveFromDerives(machines, mds, pool, target);
    hide DeriveFrom, StringLe;
  }
}
