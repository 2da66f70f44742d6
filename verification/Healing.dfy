/** Self-healing (internal/executor/heal.go): which machines are candidates, what the guardrails
    decide about each, and what a whole pass does to the trace and to the healer's memory. */
module Healing {
  import opened Common
  import opened Fleet
  import opened Ordering
  import opened PoolResolution
  import opened Unwedge

  const MIN_DETECTION_WINDOW: int := 60 * SECOND

  function FlooredWindow(seconds: int): int { Max(seconds * SECOND, MIN_DETECTION_WINDOW) }

  // ---------------------------------------------------------------- detection

  datatype Candidate = Candidate(machine: string, owner: Option<Deployment>, node: string, cause: Cause)
  {
    function Pool(): string { if owner.Some? then owner.value.name else "" }
  }

  function CandidateName(c: Candidate): string { c.machine }

  /** A machine that never joined within the startup timeout. */
  predicate Overdue(v: View, timeout: int, m: Machine) {
    && !m.deleting && m.nodeRef == "" && m.created.Some?
    && v.now - m.created.value > 0 && v.now - m.created.value >= timeout
    && !IsControlPlaneMachine(m)
  }

  /** A worker node not Ready for at least the window. */
  predicate Unhealthy(v: View, window: int, n: Node) {
    && !n.ready.ReadyTrue? && n.since.Some? && v.now - n.since.value >= window
    && !IsControlPlaneNode(n)
  }

  predicate Joined(m: Machine) { !m.deleting && m.nodeRef != "" }

  /** The machine behind a node: the last live one whose nodeRef names it. */
  function ByNodeName(machines: seq<Machine>): map<string, Machine> {
    IndexBy(Filter(machines, Joined), NodeRefName)
  }

  function CountDeleting(machines: seq<Machine>): nat {
    if machines == [] then 0
    else CountDeleting(machines[..|machines| - 1]) + if machines[|machines| - 1].deleting then 1 else 0
  }

  /** Detection adds a machine once, and never a nameless one. */
  function Add(cands: seq<Candidate>, v: View, m: Machine, node: string, cause: Cause): seq<Candidate> {
    if m.name == "" || (exists c :: c in cands && c.machine == m.name) then cands
    else cands + [Candidate(m.name, OwnerOf(v.mds, m), node, cause)]
  }

  /** (a) machines whose node never joined. */
  function ScanMachines(v: View, timeout: int, k: nat): seq<Candidate>
    requires k <= |v.machines|
  {
    if k == 0 then []
    else
      var cands, m := ScanMachines(v, timeout, k - 1), v.machines[k - 1];
      if Overdue(v, timeout, m) then
        Add(cands, v, m, "", NeverJoined(Seconds(v.now - m.created.value), timeout))
      else cands
  }

  /** (b) nodes unhealthy beyond the window, on top of (a). */
  function ScanNodes(v: View, timeout: int, window: int, k: nat): seq<Candidate>
    requires k <= |v.nodes|
  {
    if k == 0 then ScanMachines(v, timeout, |v.machines|)
    else
      var cands, n := ScanNodes(v, timeout, window, k - 1), v.nodes[k - 1];
      if Unhealthy(v, window, n) && n.name in ByNodeName(v.machines) then
        Add(cands, v, ByNodeName(v.machines)[n.name], n.name,
            NodeUnhealthy(n.name, n.ready, Seconds(v.now - n.since.value), window))
      else cands
  }

  predicate CandidateLe(a: Candidate, b: Candidate) { StringLe(a.machine, b.machine) }

  function Candidates(v: View, policy: Fleet.Healing): seq<Candidate> {
    Sort(ScanNodes(v, FlooredWindow(policy.nodeStartupTimeoutSeconds),
                   FlooredWindow(policy.unhealthyAfterSeconds), |v.nodes|), CandidateLe)
  }

  // ---------------------------------------------------------------- the guardrails

  type LastHeal = map<string, int>

  /** Never earlier than the construction time: a restart starts a fresh cooldown. */
  function LastHealTime(lastHeal: LastHeal, baseline: int, pool: string): int {
    if pool in lastHeal && lastHeal[pool] > baseline then lastHeal[pool] else baseline
  }

  datatype Config = Config(revision: int, now: int, baseline: int, cooldown: int, maxUnhealthy: int)

  function ConfigOf(doc: Doc, now: int, baseline: int): Config {
    Config(doc.revision, now, baseline, doc.healing.cooldownSeconds * SECOND, doc.healing.maxUnhealthy)
  }

  datatype Loop = Loop(lastHeal: LastHeal, tracked: Tracked, inFlight: int, budget: int, halted: bool,
                       events: seq<Event>)

  datatype Verdict = Refuse(status: Status, detail: Detail) | Remediate

  function Judge(c: Candidate, st: Loop, cfg: Config): Verdict {
    if st.halted then Refuse(Pending, QueuedBehindFailure)
    else if c.owner.None? then Refuse(Rejected, Unowned)
    else if IsControlPlane(c.owner.value) then Refuse(Rejected, ControlPlanePool)
    else if AutoscalerKey(c.owner.value).Some? then
      Refuse(Rejected, AutoscalerPool(AutoscalerKey(c.owner.value).value))
    else if st.budget <= 0 then Refuse(Pending, BudgetSpent(st.inFlight, cfg.maxUnhealthy))
    else
      var elapsed := cfg.now - LastHealTime(st.lastHeal, cfg.baseline, c.Pool());
      if elapsed < cfg.cooldown then Refuse(Pending, CoolingDown(c.Pool(), Seconds(cfg.cooldown - elapsed)))
      else Remediate
  }

  function HealReport(cfg: Config, c: Candidate, status: Status, detail: Detail): Event {
    Report(Action(Heal, c.machine, status, detail, cfg.revision))
  }

  predicate DeleteSucceeded(result: CallResult) { result.Ok? || result.NotFound? }

  function DeleteEvent(cfg: Config, c: Candidate, result: CallResult): Event {
    DeleteMachine(c.machine, c.Pool(), c.node, cfg.now, cfg.cooldown, result)
  }

  /** The events of one remediation. */
  function Remediation(c: Candidate, cfg: Config, result: CallResult): seq<Event> {
    [HealReport(cfg, c, InProgress, DeletingMachine(c.cause)),
     DeleteEvent(cfg, c, result),
     if DeleteSucceeded(result) then HealReport(cfg, c, Done, DeletedMachine(c.cause))
     else HealReport(cfg, c, Rejected, DeleteFailed(result))]
  }

  /** The events one candidate adds. */
  function Added(c: Candidate, st: Loop, cfg: Config, result: CallResult): seq<Event> {
    match Judge(c, st, cfg)
    case Refuse(status, detail) => [HealReport(cfg, c, status, detail)]
    case Remediate => Remediation(c, cfg, result)
  }

  /** A failed deletion halts the pass; a successful one is remembered per pool, spends budget,
      and is tracked for the unwedge when the API really accepted it. */
  function Treat(c: Candidate, st: Loop, cfg: Config, result: CallResult): Loop {
    var events := st.events + Added(c, st, cfg, result);
    if Judge(c, st, cfg).Refuse? then st.(events := events)
    else if !DeleteSucceeded(result) then st.(halted := true, events := events)
    else
      Loop(st.lastHeal[c.Pool() := cfg.now],
           if result.Ok? then st.tracked[c.machine := Tracking(c.node, cfg.now, false)] else st.tracked,
           st.inFlight + 1, st.budget - 1, false, events)
  }

  /** The loop state after the first `k` candidates. */
  function TreatAll(cands: seq<Candidate>, k: nat, start: Loop, cfg: Config, fate: nat -> CallResult): Loop
    requires k <= |cands|
  {
    if k == 0 then start
    else Treat(cands[k - 1], TreatAll(cands, k - 1, start, cfg, fate), cfg, fate(k - 1))
  }

  /** Treating a candidate does not look at the events so far. */
  lemma TreatFresh(c: Candidate, st: Loop, cfg: Config, result: CallResult)
    ensures Treat(c, st, cfg, result)
         == var own := Treat(c, st.(events := []), cfg, result); own.(events := st.events + own.events)
  {
    hide IsControlPlane, AutoscalerKey, Remediation;
  }

  /** The storm brake: every candidate is refused. */
  function BrakeAll(cands: seq<Candidate>, k: nat, cfg: Config): seq<Event>
    requires k <= |cands|
  {
    if k == 0 then []
    else BrakeAll(cands, k - 1, cfg) + [HealReport(cfg, cands[k - 1], Rejected, StormBrake(|cands|, cfg.maxUnhealthy))]
  }

  // ---------------------------------------------------------------- the whole pass

  datatype Outcome = Outcome(lastHeal: LastHeal, tracked: Tracked, events: seq<Event>)

  function DeletingNames(machines: seq<Machine>): set<string> {
    set m | m in machines && m.deleting :: m.name
  }

  function Names(cands: seq<Candidate>): set<string> { set c | c in cands :: c.machine }

  function StartLoop(lastHeal: LastHeal, tracked: Tracked, cfg: Config, machines: seq<Machine>): Loop {
    Loop(lastHeal, tracked, CountDeleting(machines), cfg.maxUnhealthy - CountDeleting(machines), false, [])
  }

  /** The part after the unwedge sweep. */
  function TreatCandidates(lastHeal: LastHeal, tracked: Tracked, cands: seq<Candidate>, cfg: Config,
                           v: View): Outcome {
    if |cands| > cfg.maxUnhealthy then Outcome(lastHeal, tracked, BrakeAll(cands, |cands|, cfg))
    else
      var st := TreatAll(cands, |cands|, StartLoop(lastHeal, tracked, cfg, v.machines), cfg, v.deleteFate);
      Outcome(st.lastHeal, st.tracked, st.events)
  }

  function HealPass(lastHeal: LastHeal, tracked: Tracked, baseline: int, doc: Doc, order: seq<string>,
                    v: View): Outcome {
    var sweep := SweepAll(tracked, doc.revision, order, v);
    var cands := Candidates(v, doc.healing);
    var out := TreatCandidates(lastHeal, sweep.tracked, cands, ConfigOf(doc, v.now, baseline), v);
    out.(events := [HealRead(DeletingNames(v.machines))] + sweep.events + out.events
                   + [PruneReports(Heal, Names(cands))])
  }
}
