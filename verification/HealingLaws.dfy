/** What a healing pass guarantees, for every input: who is a candidate, who may be deleted,
    how much disruption a pass may cause, and what the reports say afterwards. */
module HealingLaws {
  import opened Common
  import opened Fleet
  import opened FleetLaws
  import opened Ordering
  import opened PoolResolution
  import opened Unwedge
  import opened Healing
  import opened ActionStore

  // ---------------------------------------------------------------- who is a candidate

  /** Neither of the two control-plane labels, and anything but Ready for the configured window and
      for a minute. */
  ghost predicate DownTooLong(v: View, policy: Fleet.Healing, n: Node) {
    && n in v.nodes && n.ready != ReadyTrue && n.since.Some? && !ControlPlaneMarked(n.labelKeys)
    && v.now - n.since.value >= policy.unhealthyAfterSeconds * SECOND
    && v.now - n.since.value >= 60 * SECOND
  }

  /** Neither of the two labels, on the machine or for its node, and no node since the configured time
      and for a minute. */
  ghost predicate NeverCame(v: View, policy: Fleet.Healing, m: Machine) {
    && m in v.machines && !m.deleting && m.nodeRef == "" && m.created.Some?
    && !ControlPlaneMarked(m.labels.Keys) && !ControlPlaneMarked(m.nodeLabels.Keys)
    && v.now - m.created.value >= policy.nodeStartupTimeoutSeconds * SECOND
    && v.now - m.created.value >= 60 * SECOND
  }

  /** The machine is the last live one listed that names the node. */
  ghost predicate Behind(machines: seq<Machine>, m: Machine, node: string) {
    node != "" && exists i :: 0 <= i < |machines| && machines[i] == m && !m.deleting && m.nodeRef == node
                              && forall j :: i < j < |machines| && machines[j].nodeRef == node ==> machines[j].deleting
  }

  lemma {:induction false} ByNodeNameIs(machines: seq<Machine>, node: string, i: nat)
    requires i < |machines| && Joined(machines[i]) && machines[i].nodeRef == node
    requires forall j :: i < j < |machines| && Joined(machines[j]) ==> machines[j].nodeRef != node
    ensures node in ByNodeName(machines) && ByNodeName(machines)[node] == machines[i]
  {
    var init, last := machines[..|machines| - 1], machines[|machines| - 1];
    if i < |init| {
      ByNodeNameIs(init, node, i);
    }
    if Joined(last) {
      assert Filter(machines, Joined) == Filter(init, Joined) + [last];
      assert (Filter(init, Joined) + [last])[..|Filter(init, Joined)|] == Filter(init, Joined);
    }
  }

  lemma {:induction false} LastLive(machines: seq<Machine>, node: string) returns (i: nat)
    requires exists m :: m in machines && Joined(m) && m.nodeRef == node
    ensures i < |machines| && Joined(machines[i]) && machines[i].nodeRef == node
    ensures forall j :: i < j < |machines| && Joined(machines[j]) ==> machines[j].nodeRef != node
  {
    i := |machines| - 1;
    if !(Joined(machines[i]) && machines[i].nodeRef == node) {
      var init := machines[..i];
      var m :| m in machines && Joined(m) && m.nodeRef == node;
      assert machines == init + [machines[i]] && m in init;
      i := LastLive(init, node);
    }
  }

  lemma BehindIff(machines: seq<Machine>, m: Machine, node: string)
    ensures Behind(machines, m, node) <==> node in ByNodeName(machines) && ByNodeName(machines)[node] == m
  {
    if Behind(machines, m, node) {
      var i :| 0 <= i < |machines| && machines[i] == m && !m.deleting && m.nodeRef == node
               && forall j :: i < j < |machines| && machines[j].nodeRef == node ==> machines[j].deleting;
      ByNodeNameIs(machines, node, i);
    }
    if node in ByNodeName(machines) && ByNodeName(machines)[node] == m {
      ByNodeNameMeans(machines, node);
      var i := LastLive(machines, node);
      ByNodeNameIs(machines, node, i);
    }
  }

  lemma ByNodeNameMeans(machines: seq<Machine>, node: string)
    requires node in ByNodeName(machines)
    ensures var m := ByNodeName(machines)[node];
            m in machines && !m.deleting && m.nodeRef == node && node != ""
  {
    IndexByFinds(Filter(machines, Joined), NodeRefName, node);
  }

  /** The node that makes a joined machine sick. */
  ghost predicate SickNode(v: View, window: int, m: Machine, n: Node) {
    n in v.nodes && Unhealthy(v, window, n) && n.name in ByNodeName(v.machines)
    && ByNodeName(v.machines)[n.name] == m
  }

  /** A machine a pass should consider for remediation. */
  ghost predicate Sick(v: View, policy: Fleet.Healing, m: Machine) {
    m.name != "" && (NeverCame(v, policy, m) || exists n :: DownTooLong(v, policy, n) && Behind(v.machines, m, n.name))
  }

  /** The larger of a configured number of seconds and a minute. */
  ghost predicate LargerOf(window: int, seconds: int) {
    && window >= seconds * SECOND && window >= 60 * SECOND
    && (window == seconds * SECOND || window == 60 * SECOND)
  }

  /** A candidate, the sick machine it is, and why. */
  ghost predicate CandidateOf(v: View, policy: Fleet.Healing, c: Candidate, m: Machine) {
    && m in v.machines && m.name == c.machine && m.name != "" && !m.deleting && c.owner == OwnerOf(v.mds, m)
    && (|| (&& c.node == "" && NeverCame(v, policy, m) && c.cause.NeverJoined?
            && InSeconds(v.now - m.created.value, c.cause.age)
            && LargerOf(c.cause.timeout, policy.nodeStartupTimeoutSeconds))
        || (&& c.node != "" && m.nodeRef == c.node && c.cause.NodeUnhealthy? && c.cause.node == c.node
            && LargerOf(c.cause.window, policy.unhealthyAfterSeconds)
            && exists n :: DownTooLong(v, policy, n) && Behind(v.machines, m, n.name) && n.name == c.node
                           && n.ready == c.cause.state && InSeconds(v.now - n.since.value, c.cause.duration)))
  }

  lemma WindowIsFloored(seconds: int)
    ensures LargerOf(FlooredWindow(seconds), seconds)
  {
  }

  lemma OverdueMeans(v: View, policy: Fleet.Healing, m: Machine)
    ensures NeverCame(v, policy, m) <==> m in v.machines && Overdue(v, FlooredWindow(policy.nodeStartupTimeoutSeconds), m)
  {
    WindowIsFloored(policy.nodeStartupTimeoutSeconds);
  }

  lemma SickNodeMeans(v: View, policy: Fleet.Healing, m: Machine, n: Node)
    ensures DownTooLong(v, policy, n) && Behind(v.machines, m, n.name)
            <==> SickNode(v, FlooredWindow(policy.unhealthyAfterSeconds), m, n)
  {
    hide Behind, ByNodeName;
    WindowIsFloored(policy.unhealthyAfterSeconds);
    BehindIff(v.machines, m, n.name);
  }

  /** A candidate record agrees with the machine it was made from. */
  ghost predicate MadeFrom(v: View, timeout: int, window: int, c: Candidate, m: Machine) {
    && m in v.machines && m.name == c.machine && m.name != "" && !m.deleting && c.owner == OwnerOf(v.mds, m)
    && (|| (c.node == "" && Overdue(v, timeout, m) && c.cause == NeverJoined(Seconds(v.now - m.created.value), timeout))
        || (&& c.node != "" && m.nodeRef == c.node
            && exists n :: SickNode(v, window, m, n) && n.name == c.node
                           && c.cause == NodeUnhealthy(n.name, n.ready, Seconds(v.now - n.since.value), window)))
  }

  lemma MadeFromMeans(v: View, policy: Fleet.Healing, c: Candidate, m: Machine)
    requires MadeFrom(v, FlooredWindow(policy.nodeStartupTimeoutSeconds), FlooredWindow(policy.unhealthyAfterSeconds), c, m)
    ensures CandidateOf(v, policy, c, m)
  {
    hide Behind, ByNodeName, OwnerOf, ControlPlaneMarked, HasControlPlaneLabel;
    OverdueMeans(v, policy, m);
    WindowIsFloored(policy.nodeStartupTimeoutSeconds);
    WindowIsFloored(policy.unhealthyAfterSeconds);
    var window := FlooredWindow(policy.unhealthyAfterSeconds);
    if c.node != "" {
      var n :| SickNode(v, window, m, n) && n.name == c.node
               && c.cause == NodeUnhealthy(n.name, n.ready, Seconds(v.now - n.since.value), window);
      SickNodeMeans(v, policy, m, n);
    }
  }

  ghost predicate Scanned(v: View, timeout: int, window: int, cands: seq<Candidate>) {
    && UniqueBy(cands, CandidateName)
    && forall c :: c in cands ==> exists m :: MadeFrom(v, timeout, window, c, m)
  }

  lemma AddKeepsScanned(v: View, timeout: int, window: int, cands: seq<Candidate>, m: Machine, node: string,
                        cause: Cause)
    requires Scanned(v, timeout, window, cands)
    requires m.name != "" ==> MadeFrom(v, timeout, window, Candidate(m.name, OwnerOf(v.mds, m), node, cause), m)
    ensures Scanned(v, timeout, window, Add(cands, v, m, node, cause))
    ensures Names(cands) <= Names(Add(cands, v, m, node, cause))
    ensures m.name != "" ==> m.name in Names(Add(cands, v, m, node, cause))
  {
    var c := Candidate(m.name, OwnerOf(v.mds, m), node, cause);
    var after := Add(cands, v, m, node, cause);
    if after != cands {
      assert after == cands + [c];
      forall i, j | 0 <= i < j < |after| ensures CandidateName(after[i]) != CandidateName(after[j]) {
        if j < |cands| {
          assert CandidateName(cands[i]) != CandidateName(cands[j]);
        } else {
          assert after[i] in cands && after[j] == c;
        }
      }
    }
  }

  lemma {:induction false} ScanMachinesSound(v: View, timeout: int, window: int, k: nat)
    requires k <= |v.machines|
    ensures Scanned(v, timeout, window, ScanMachines(v, timeout, k))
    ensures forall i :: 0 <= i < k && v.machines[i].name != "" && Overdue(v, timeout, v.machines[i]) ==>
              v.machines[i].name in Names(ScanMachines(v, timeout, k))
  {
    hide OwnerOf, IsControlPlaneMachine;
    if k > 0 {
      ScanMachinesSound(v, timeout, window, k - 1);
      var m := v.machines[k - 1];
      if Overdue(v, timeout, m) {
        AddKeepsScanned(v, timeout, window, ScanMachines(v, timeout, k - 1), m, "",
                        NeverJoined(Seconds(v.now - m.created.value), timeout));
      }
    }
  }

  lemma SickNodeMakesCandidate(v: View, timeout: int, window: int, m: Machine, n: Node, cause: Cause)
    requires SickNode(v, window, m, n) && m.name != ""
    requires cause == NodeUnhealthy(n.name, n.ready, Seconds(v.now - n.since.value), window)
    ensures MadeFrom(v, timeout, window, Candidate(m.name, OwnerOf(v.mds, m), n.name, cause), m)
  {
    ByNodeNameMeans(v.machines, n.name);
  }

  lemma ScanNodeStep(v: View, timeout: int, window: int, k: nat)
    requires 0 < k <= |v.nodes| && Scanned(v, timeout, window, ScanNodes(v, timeout, window, k - 1))
    ensures Scanned(v, timeout, window, ScanNodes(v, timeout, window, k))
    ensures Names(ScanNodes(v, timeout, window, k - 1)) <= Names(ScanNodes(v, timeout, window, k))
    ensures forall m :: SickNode(v, window, m, v.nodes[k - 1]) && m.name != "" ==>
                          m.name in Names(ScanNodes(v, timeout, window, k))
  {
    var n, before := v.nodes[k - 1], ScanNodes(v, timeout, window, k - 1);
    if Unhealthy(v, window, n) && n.name in ByNodeName(v.machines) {
      var m := ByNodeName(v.machines)[n.name];
      var cause := NodeUnhealthy(n.name, n.ready, Seconds(v.now - n.since.value), window);
      if m.name != "" { SickNodeMakesCandidate(v, timeout, window, m, n, cause); }
      AddKeepsScanned(v, timeout, window, before, m, n.name, cause);
      assert ScanNodes(v, timeout, window, k) == Add(before, v, m, n.name, cause);
    } else {
      assert ScanNodes(v, timeout, window, k) == before;
    }
  }

  lemma {:induction false} ScanNodesSound(v: View, timeout: int, window: int, k: nat)
    requires k <= |v.nodes|
    ensures Scanned(v, timeout, window, ScanNodes(v, timeout, window, k))
    ensures Names(ScanMachines(v, timeout, |v.machines|)) <= Names(ScanNodes(v, timeout, window, k))
    ensures forall i, m :: 0 <= i < k && SickNode(v, window, m, v.nodes[i]) && m.name != "" ==>
                             m.name in Names(ScanNodes(v, timeout, window, k))
  {
    hide OwnerOf, IsControlPlaneMachine, ScanMachines, IsControlPlaneNode, ByNodeName;
    if k == 0 {
      ScanMachinesSound(v, timeout, window, |v.machines|);
    } else {
      hide ScanNodes, Scanned;
      ScanNodesSound(v, timeout, window, k - 1);
      ScanNodeStep(v, timeout, window, k);
      var n := v.nodes[k - 1];
      forall i, m | 0 <= i < k && SickNode(v, window, m, v.nodes[i]) && m.name != ""
        ensures m.name in Names(ScanNodes(v, timeout, window, k))
      {
        if i < k - 1 { assert m.name in Names(ScanNodes(v, timeout, window, k - 1)); }
      }
    }
  }

  ghost function SickNames(v: View, policy: Fleet.Healing): set<string> {
    set m | m in v.machines && Sick(v, policy, m) :: m.name
  }

  lemma CandidatesScanned(v: View, policy: Fleet.Healing)
    ensures Scanned(v, FlooredWindow(policy.nodeStartupTimeoutSeconds), FlooredWindow(policy.unhealthyAfterSeconds),
                    Candidates(v, policy))
    ensures SickNames(v, policy) <= Names(Candidates(v, policy))
    ensures |Names(Candidates(v, policy))| == |Candidates(v, policy)|
    ensures forall i, j :: 0 <= i < j < |Candidates(v, policy)| ==>
              StringLe(Candidates(v, policy)[i].machine, Candidates(v, policy)[j].machine)
  {
    var timeout, window := FlooredWindow(policy.nodeStartupTimeoutSeconds), FlooredWindow(policy.unhealthyAfterSeconds);
    var scan := ScanNodes(v, timeout, window, |v.nodes|);
    ScanNodesSound(v, timeout, window, |v.nodes|);
    ScanMachinesSound(v, timeout, window, |v.machines|);
    hide Behind, ByNodeName, ScanNodes, ScanMachines, MadeFrom, NeverCame, DownTooLong, Overdue, Unhealthy, StringLe;
    SortMembers(scan, CandidateLe);
    ByKeyPreorder(CandidateName, CandidateLe);
    SortSorted(scan, CandidateLe);
    RearrangedUnique(scan, Candidates(v, policy), CandidateName);
    KeySetSize(Candidates(v, policy), CandidateName);
    assert KeySet(Candidates(v, policy), CandidateName) == Names(Candidates(v, policy)) == Names(scan);
    forall i, j | 0 <= i < j < |Candidates(v, policy)|
      ensures StringLe(Candidates(v, policy)[i].machine, Candidates(v, policy)[j].machine)
    {
      assert CandidateLe(Candidates(v, policy)[i], Candidates(v, policy)[j]);
    }
    forall m | m in v.machines && Sick(v, policy, m) ensures m.name in Names(scan) {
      OverdueMeans(v, policy, m);
      if NeverCame(v, policy, m) {
        var i :| 0 <= i < |v.machines| && v.machines[i] == m;
      } else {
        var n :| DownTooLong(v, policy, n) && Behind(v.machines, m, n.name);
        SickNodeMeans(v, policy, m, n);
        var i :| 0 <= i < |v.nodes| && v.nodes[i] == n;
      }
    }
  }

  /** The candidates are exactly the sick machines, each once and in name order, and each says why. */
  lemma CandidatesAreTheSick(v: View, policy: Fleet.Healing)
    ensures forall c :: c in Candidates(v, policy) ==> exists m :: CandidateOf(v, policy, c, m)
    ensures forall i, j :: 0 <= i < j < |Candidates(v, policy)| ==>
              && Candidates(v, policy)[i].machine != Candidates(v, policy)[j].machine
              && StringLe(Candidates(v, policy)[i].machine, Candidates(v, policy)[j].machine)
    ensures Names(Candidates(v, policy)) == SickNames(v, policy)
    ensures |Candidates(v, policy)| == |SickNames(v, policy)|
  {
    var cands := Candidates(v, policy);
    CandidatesScanned(v, policy);
    hide Candidates, CandidateOf, MadeFrom, Sick, StringLe;
    forall c | c in cands
      ensures c.machine in SickNames(v, policy) && exists m :: CandidateOf(v, policy, c, m)
    {
      var m :| MadeFrom(v, FlooredWindow(policy.nodeStartupTimeoutSeconds),
                        FlooredWindow(policy.unhealthyAfterSeconds), c, m);
      MadeFromMeans(v, policy, c, m);
      CandidateIsSick(v, policy, c, m);
    }
    forall i, j | 0 <= i < j < |cands| ensures cands[i].machine != cands[j].machine {
      assert CandidateName(cands[i]) != CandidateName(cands[j]);
    }
  }

  lemma CandidateIsSick(v: View, policy: Fleet.Healing, c: Candidate, m: Machine)
    requires CandidateOf(v, policy, c, m)
    ensures m in v.machines && m.name == c.machine && Sick(v, policy, m)
  {
    hide Behind, DownTooLong, NeverCame;
  }

  // ---------------------------------------------------------------- what the loop may do

  /** A deletion the guardrails let through for candidate `c`. */
  ghost predicate DeletionOf(e: Event, c: Candidate, cfg: Config)
    requires e.DeleteMachine?
  {
    && e.machine == c.machine && e.node == c.node && e.at == cfg.now && e.cooldown == cfg.cooldown
    && c.owner.Some? && e.pool == c.owner.value.name && Eligible(c.owner.value)
  }

  lemma AddedSound(c: Candidate, st: Loop, cfg: Config, result: CallResult)
    ensures var added := Added(c, st, cfg, result);
            && (forall e :: e in added ==>
                  && (e.Report? || e.DeleteMachine?)
                  && (e.DeleteMachine? ==> DeletionOf(e, c, cfg) && e.result == result && Judge(c, st, cfg).Remediate?)
                  && (e.Report? ==> e.action.kind == Heal && e.action.revision == cfg.revision
                                    && e.action.target == c.machine))
            && LastReport(added, (Heal, c.machine)).Some?
            && LastReport(added, (Heal, c.machine)).value.status != InProgress
  {
  }

  lemma TreatAllGrows(cands: seq<Candidate>, k: nat, start: Loop, cfg: Config, fate: nat -> CallResult)
    requires 0 < k <= |cands|
    ensures var st := TreatAll(cands, k - 1, start, cfg, fate);
            TreatAll(cands, k, start, cfg, fate).events == st.events + Added(cands[k - 1], st, cfg, fate(k - 1))
  {
    hide IsControlPlane, AutoscalerKey;
  }

  /** An event the loop over the candidates may add. */
  ghost predicate LoopEvent(e: Event, cands: seq<Candidate>, cfg: Config) {
    && (e.Report? || e.DeleteMachine?)
    && (e.DeleteMachine? ==> exists c :: c in cands && DeletionOf(e, c, cfg))
    && (e.Report? ==> e.action.kind == Heal && e.action.revision == cfg.revision && e.action.target in Names(cands))
  }

  lemma {:induction false} TreatAllEvents(cands: seq<Candidate>, k: nat, start: Loop, cfg: Config,
                        fate: nat -> CallResult)
    requires k <= |cands| && start.events == []
    ensures forall e :: e in TreatAll(cands, k, start, cfg, fate).events ==> LoopEvent(e, cands, cfg)
  {
    if k > 0 {
      hide LoopEvent, TreatAll;
      var st, c := TreatAll(cands, k - 1, start, cfg, fate), cands[k - 1];
      TreatAllGrows(cands, k, start, cfg, fate);
      TreatAllEvents(cands, k - 1, start, cfg, fate);
      AddedAreLoopEvents(c, st, cands, cfg, fate(k - 1));
    }
  }

  lemma AddedAreLoopEvents(c: Candidate, st: Loop, cands: seq<Candidate>, cfg: Config, result: CallResult)
    requires c in cands
    ensures forall e :: e in Added(c, st, cfg, result) ==> LoopEvent(e, cands, cfg)
  {
    hide Added, Judge, LastReport;
    AddedSound(c, st, cfg, result);
  }

  lemma {:induction false} BrakeAllEvents(cands: seq<Candidate>, k: nat, cfg: Config)
    requires k <= |cands|
    ensures forall e :: e in BrakeAll(cands, k, cfg) ==>
              && e.Report? && e.action.kind == Heal && e.action.status == Rejected
              && e.action.revision == cfg.revision && e.action.target in Names(cands)
  {
    if k > 0 { BrakeAllEvents(cands, k - 1, cfg); }
  }

  // ---------------------------------------------------------------- disruption budget

  ghost function Attempted(events: seq<Event>): set<string> {
    set e | e in events && e.DeleteMachine? :: e.machine
  }

  /** The machines whose deletion took effect, reported or not. */
  ghost function Hits(events: seq<Event>): set<string> {
    set e | e in events && e.DeleteMachine? && e.result.TookEffect() :: e.machine
  }

  lemma AttemptedAppend(a: seq<Event>, b: seq<Event>)
    ensures Attempted(a + b) == Attempted(a) + Attempted(b)
  {
  }

  lemma AddedAttempts(c: Candidate, st: Loop, cfg: Config, result: CallResult)
    ensures Attempted(Added(c, st, cfg, result)) == if Judge(c, st, cfg).Remediate? then {c.machine} else {}
  {
    if Judge(c, st, cfg).Remediate? {
      assert DeleteEvent(cfg, c, result) in Added(c, st, cfg, result);
    }
  }

  lemma BudgetStep(c: Candidate, st: Loop, cfg: Config, result: CallResult)
    ensures var st', acts := Treat(c, st, cfg, result), Judge(c, st, cfg).Remediate?;
            && |Attempted(st'.events)| <= |Attempted(st.events)| + (if acts then 1 else 0)
            && (acts ==> !st.halted && st.budget > 0)
            && (if acts && DeleteSucceeded(result) then st'.budget == st.budget - 1 && !st'.halted
                else st'.budget == st.budget && st'.halted == (st.halted || acts))
  {
    AddedAttempts(c, st, cfg, result);
    AttemptedAppend(st.events, Added(c, st, cfg, result));
  }

  lemma {:induction false} TreatAllBudget(cands: seq<Candidate>, k: nat, start: Loop, cfg: Config,
                        fate: nat -> CallResult)
    requires k <= |cands| && start.events == [] && !start.halted
    ensures var st := TreatAll(cands, k, start, cfg, fate);
            && |Attempted(st.events)| + st.budget <= start.budget + (if st.halted then 1 else 0)
            && |Attempted(st.events)| <= Max(0, start.budget)
  {
    if k == 0 {
      assert Attempted([]) == {};
    } else {
      TreatAllBudget(cands, k - 1, start, cfg, fate);
      BudgetStep(cands[k - 1], TreatAll(cands, k - 1, start, cfg, fate), cfg, fate(k - 1));
    }
  }

  lemma DeletingNamesSnoc(init: seq<Machine>, last: Machine)
    ensures DeletingNames(init + [last]) == DeletingNames(init) + (if last.deleting then {last.name} else {})
  {
    var all := init + [last];
    assert last in all && forall m :: m in all <==> m in init || m == last;
  }

  lemma {:induction false} CountDeletingIsNames(machines: seq<Machine>)
    requires UniqueBy(machines, MachineName)
    ensures CountDeleting(machines) == |DeletingNames(machines)|
  {
    if machines == [] {
      assert DeletingNames(machines) == {};
    } else {
      var init, last := machines[..|machines| - 1], machines[|machines| - 1];
      LastKeyNew(machines, MachineName);
      CountDeletingIsNames(init);
      DeletingNamesSnoc(init, last);
      assert machines == init + [last];
      hide UniqueBy;
      assert last.name !in DeletingNames(init);
    }
  }

  lemma PassDeletions(lastHeal: LastHeal, tracked: Tracked, baseline: int, doc: Doc, order: seq<string>, v: View)
    requires Enumerates(order, tracked)
    ensures var cands := Candidates(v, doc.healing);
            var out := TreatCandidates(lastHeal, SweepAll(tracked, doc.revision, order, v).tracked, cands,
                                       ConfigOf(doc, v.now, baseline), v);
            forall e: Event :: e.DeleteMachine? ==>
              (e in HealPass(lastHeal, tracked, baseline, doc, order, v).events <==> e in out.events)
  {
    hide Candidates, TreatCandidates, SweepAll, AttemptDue, PodStuck;
    SweepSound(tracked, doc.revision, order, v);
  }

  /** The machine list once the pass's deletions have taken their effect. */
  function AfterDeletions(machines: seq<Machine>, hit: set<string>): (r: seq<Machine>)
    ensures |r| == |machines|
  {
    seq(|machines|, i requires 0 <= i < |machines| =>
          if machines[i].name in hit then machines[i].(deleting := true) else machines[i])
  }

  /** After any pass the number of deleting machines is at most the larger of the number before
      and maxUnhealthy, counting deletions that took effect although the API reported an error;
      and with more sick machines than maxUnhealthy nothing is even attempted. */
  lemma DisruptionBudget(lastHeal: LastHeal, tracked: Tracked, baseline: int, doc: Doc,
                        order: seq<string>, v: View)
    requires Enumerates(order, tracked) && UniqueBy(v.machines, MachineName)
    ensures var events := HealPass(lastHeal, tracked, baseline, doc, order, v).events;
            && CountDeleting(AfterDeletions(v.machines, Hits(events)))
                 <= Max(CountDeleting(v.machines), doc.healing.maxUnhealthy)
            && (|SickNames(v, doc.healing)| > doc.healing.maxUnhealthy ==> Attempted(events) == {})
  {
    var cfg := ConfigOf(doc, v.now, baseline);
    var cands := Candidates(v, doc.healing);
    var events := HealPass(lastHeal, tracked, baseline, doc, order, v).events;
    PassDeletions(lastHeal, tracked, baseline, doc, order, v);
    CandidatesAreTheSick(v, doc.healing);
    var t := SweepAll(tracked, doc.revision, order, v).tracked;
    if |cands| > doc.healing.maxUnhealthy {
      BrakeAllEvents(cands, |cands|, cfg);
      assert Attempted(events) == {} && Hits(events) == {};
    } else {
      var start := StartLoop(lastHeal, t, cfg, v.machines);
      var loop := TreatAll(cands, |cands|, start, cfg, v.deleteFate);
      TreatAllBudget(cands, |cands|, start, cfg, v.deleteFate);
      assert Attempted(events) == Attempted(loop.events);
      assert Hits(events) <= Attempted(events);
      SubsetSize(Hits(events), Attempted(events));
    }
    DeletingAfter(v.machines, Hits(events));
  }

  lemma DeletingAfter(machines: seq<Machine>, hit: set<string>)
    requires UniqueBy(machines, MachineName)
    ensures CountDeleting(AfterDeletions(machines, hit)) <= CountDeleting(machines) + |hit|
  {
    var after := AfterDeletions(machines, hit);
    forall i, j | 0 <= i < j < |after| ensures MachineName(after[i]) != MachineName(after[j]) {
      assert MachineName(machines[i]) != MachineName(machines[j]);
    }
    CountDeletingIsNames(machines);
    CountDeletingIsNames(after);
    forall m | m in after && m.deleting ensures m.name in DeletingNames(machines) + hit {
      var i :| 0 <= i < |after| && after[i] == m;
      assert machines[i] in machines;
    }
    SubsetSize(DeletingNames(after), DeletingNames(machines) + hit);
  }

  // ---------------------------------------------------------------- remediation soundness

  /** Why a machine may be deleted. */
  ghost predicate Deletable(v: View, doc: Doc, e: Event, m: Machine)
    requires e.DeleteMachine?
  {
    && m in v.machines && m.name == e.machine && m.name != "" && !m.deleting
    && e.at == v.now && e.cooldown == doc.healing.cooldownSeconds * SECOND
    && OwnerOf(v.mds, m).Some? && e.pool == OwnerOf(v.mds, m).value.name && Eligible(OwnerOf(v.mds, m).value)
    && (|| (e.node == "" && NeverCame(v, doc.healing, m))
        || (&& e.node != "" && m.nodeRef == e.node
            && exists n :: DownTooLong(v, doc.healing, n) && Behind(v.machines, m, n.name) && n.name == e.node))
  }

  /** Every machine a pass deletes was live, is owned by a real worker pool nobody else manages,
      and was either unjoined for the floored startup timeout (and not control-plane labelled) or
      stood behind a non-control-plane node not Ready for the floored window. */
  lemma RemediationSound(lastHeal: LastHeal, tracked: Tracked, baseline: int, doc: Doc,
                        order: seq<string>, v: View, e: Event)
    requires Enumerates(order, tracked) && e.DeleteMachine?
    ensures e in HealPass(lastHeal, tracked, baseline, doc, order, v).events ==> exists m :: Deletable(v, doc, e, m)
  {
    var cfg := ConfigOf(doc, v.now, baseline);
    var cands := Candidates(v, doc.healing);
    PassDeletions(lastHeal, tracked, baseline, doc, order, v);
    CandidatesAreTheSick(v, doc.healing);
    BrakeAllEvents(cands, |cands|, cfg);
    var start := StartLoop(lastHeal, SweepAll(tracked, doc.revision, order, v).tracked, cfg, v.machines);
    TreatAllEvents(cands, |cands|, start, cfg, v.deleteFate);
    if e in HealPass(lastHeal, tracked, baseline, doc, order, v).events {
      var c :| c in cands && DeletionOf(e, c, cfg);
      var m :| CandidateOf(v, doc.healing, c, m);
      assert Deletable(v, doc, e, m);
    }
  }

  // ---------------------------------------------------------------- the reports of a pass

  lemma {:induction false} TreatAllReports(cands: seq<Candidate>, k: nat, start: Loop, cfg: Config,
                                           fate: nat -> CallResult, i: nat)
    requires i < k <= |cands| && start.events == [] && UniqueBy(cands, CandidateName)
    ensures var last := LastReport(TreatAll(cands, k, start, cfg, fate).events, (Heal, cands[i].machine));
            last.Some? && last.value.status != InProgress
  {
    hide TreatAll, Treat, Judge, Added, LastReport, IsControlPlane, AutoscalerKey;
    var key := (Heal, cands[i].machine);
    var st := TreatAll(cands, k - 1, start, cfg, fate);
    TreatAllGrows(cands, k, start, cfg, fate);
    var added := Added(cands[k - 1], st, cfg, fate(k - 1));
    AddedSound(cands[k - 1], st, cfg, fate(k - 1));
    LastReportAppend(st.events, added, key);
    if i < k - 1 {
      TreatAllReports(cands, k - 1, start, cfg, fate, i);
      assert CandidateName(cands[i]) != CandidateName(cands[k - 1]);
      LastReportMember(added, key);
    }
  }

  lemma {:induction false} BrakeAllReports(cands: seq<Candidate>, k: nat, cfg: Config, i: nat)
    requires i < k <= |cands|
    ensures var last := LastReport(BrakeAll(cands, k, cfg), (Heal, cands[i].machine));
            last.Some? && last.value.status == Rejected
  {
    if i < k - 1 { BrakeAllReports(cands, k - 1, cfg, i); }
    assert BrakeAll(cands, k, cfg)[..k - 1] == BrakeAll(cands, k - 1, cfg) by { BrakeAllLength(cands, k - 1, cfg); }
    BrakeAllLength(cands, k, cfg);
  }

  lemma {:induction false} BrakeAllLength(cands: seq<Candidate>, k: nat, cfg: Config)
    requires k <= |cands|
    ensures |BrakeAll(cands, k, cfg)| == k
  {
    if k > 0 { BrakeAllLength(cands, k - 1, cfg); }
  }

  /** The reports a pass leaves: exactly one heal entry per sick machine and none in progress,
      every unfinished heal entry is about a machine sick now, finished ones stay finished, and
      the other kinds are untouched. */
  ghost predicate ReportsMatch(before: Reports, after: Reports, sick: set<string>) {
    && Keyed(after.items)
    && (forall name :: name in sick ==> exists a :: a in after.items && KeyOf(a) == (Heal, name))
    && (forall a :: a in after.items && a.kind == Heal ==> a.status != InProgress)
    && (forall a :: a in after.items && a.kind == Heal && a.status != Done ==> a.target in sick)
    && (forall b :: b in before.items && b.kind == Heal && b.status == Done && b.target !in sick ==>
          exists a :: a in after.items && KeyOf(a) == KeyOf(b) && a.status == Done)
    && (forall b: Action :: b.kind != Heal ==> (b in after.items <==> b in before.items))
  }

  lemma TreatReports(lastHeal: LastHeal, tracked: Tracked, cands: seq<Candidate>, cfg: Config, v: View)
    requires UniqueBy(cands, CandidateName)
    ensures var events := TreatCandidates(lastHeal, tracked, cands, cfg, v).events;
            && (forall e :: e in events && e.Report? ==> e.action.kind == Heal && e.action.target in Names(cands))
            && OnlyReports(events)
            && (forall name :: name in Names(cands) ==>
                  LastReport(events, (Heal, name)).Some? && LastReport(events, (Heal, name)).value.status != InProgress)
  {
    var start := StartLoop(lastHeal, tracked, cfg, v.machines);
    BrakeAllEvents(cands, |cands|, cfg);
    TreatAllEvents(cands, |cands|, start, cfg, v.deleteFate);
    forall name | name in Names(cands)
      ensures var last := LastReport(TreatCandidates(lastHeal, tracked, cands, cfg, v).events, (Heal, name));
              last.Some? && last.value.status != InProgress
    {
      var i :| 0 <= i < |cands| && cands[i].machine == name;
      BrakeAllReports(cands, |cands|, cfg, i);
      TreatAllReports(cands, |cands|, start, cfg, v.deleteFate, i);
    }
  }

  lemma {:induction false} HealReportsMatchPass(r: Reports, lastHeal: LastHeal, tracked: Tracked, baseline: int,
                        doc: Doc,
                             order: seq<string>, v: View)
    requires Enumerates(order, tracked) && Keyed(r.items)
    ensures ReportsMatch(r, Replay(r, HealPass(lastHeal, tracked, baseline, doc, order, v).events),
                         SickNames(v, doc.healing))
  {
    hide *;
    var sweep := SweepAll(tracked, doc.revision, order, v);
    var cands := Candidates(v, doc.healing);
    var out := TreatCandidates(lastHeal, sweep.tracked, cands, ConfigOf(doc, v.now, baseline), v);
    var first := [HealRead(DeletingNames(v.machines))] + sweep.events;
    PassShape(r, lastHeal, tracked, baseline, doc, order, v);
    SickCandidates(v, doc.healing);
    SweepReports(tracked, doc.revision, order, v);
    TreatReports(lastHeal, sweep.tracked, cands, ConfigOf(doc, v.now, baseline), v);
    PassReports(r, first, out.events, Names(cands));
  }

  lemma SickCandidates(v: View, policy: Fleet.Healing)
    ensures UniqueBy(Candidates(v, policy), CandidateName)
    ensures Names(Candidates(v, policy)) == SickNames(v, policy)
  {
    CandidatesAreTheSick(v, policy);
  }

  lemma SweepReports(tracked: Tracked, revision: int, order: seq<string>, v: View)
    requires Enumerates(order, tracked)
    ensures var first := [HealRead(DeletingNames(v.machines))] + SweepAll(tracked, revision, order, v).events;
            && OnlyReports(first)
            && forall e :: e in first && e.Report? ==> e.action.kind == Heal && e.action.status == Done
  {
    SweepSound(tracked, revision, order, v);
  }

  /** The pass is: the read marker, the sweep, the candidates, then one prune. */
  lemma PassShape(r: Reports, lastHeal: LastHeal, tracked: Tracked, baseline: int, doc: Doc, order: seq<string>,
                  v: View)
    ensures var sweep := SweepAll(tracked, doc.revision, order, v);
            var cands := Candidates(v, doc.healing);
            var out := TreatCandidates(lastHeal, sweep.tracked, cands, ConfigOf(doc, v.now, baseline), v);
            var first := [HealRead(DeletingNames(v.machines))] + sweep.events;
            Replay(r, HealPass(lastHeal, tracked, baseline, doc, order, v).events)
              == Apply(Replay(r, first + out.events), PruneReports(Heal, Names(cands)))
  {
    hide SweepAll, TreatCandidates, Candidates, Apply;
    var sweep := SweepAll(tracked, doc.revision, order, v);
    var cands := Candidates(v, doc.healing);
    var out := TreatCandidates(lastHeal, sweep.tracked, cands, ConfigOf(doc, v.now, baseline), v);
    var all := HealPass(lastHeal, tracked, baseline, doc, order, v).events;
    assert all[..|all| - 1] == [HealRead(DeletingNames(v.machines))] + sweep.events + out.events;
  }

  lemma PassReports(r: Reports, first: seq<Event>, second: seq<Event>, sick: set<string>)
    requires Keyed(r.items) && OnlyReports(first) && OnlyReports(second)
    requires forall e :: e in first && e.Report? ==> e.action.kind == Heal && e.action.status == Done
    requires forall e :: e in second && e.Report? ==> e.action.kind == Heal && e.action.target in sick
    requires forall name :: name in sick ==>
               LastReport(second, (Heal, name)).Some? && LastReport(second, (Heal, name)).value.status != InProgress
    ensures ReportsMatch(r, Apply(Replay(r, first + second), PruneReports(Heal, sick)), sick)
  {
    ReplayHoldsLastReports(r, first + second);
    MidReports(r, first, second, Replay(r, first + second).items, sick);
    PruneStage(r, Replay(r, first + second), sick);
  }

  /** The store before pruning: what MidReports establishes. */
  ghost predicate MidMatch(before: Reports, mid: seq<Action>, sick: set<string>) {
    && (forall name :: name in sick ==>
          exists a :: a in mid && KeyOf(a) == (Heal, name) && a.status != InProgress)
    && (forall a :: a in mid && a.kind == Heal && a.target in sick ==> a.status != InProgress)
    && (forall b :: b in before.items && b.kind == Heal && b.status == Done && b.target !in sick ==>
          exists a :: a in mid && KeyOf(a) == KeyOf(b) && a.status == Done)
    && (forall b: Action :: b.kind != Heal ==> (b in mid <==> b in before.items))
  }

  lemma PruneStage(before: Reports, mid: Reports, sick: set<string>)
    requires Keyed(mid.items) && MidMatch(before, mid.items, sick)
    ensures ReportsMatch(before, Apply(mid, PruneReports(Heal, sick)), sick)
  {
    PruneRefinesFilter(mid.items, Heal, sick);
  }

  /** What the store holds before pruning, given the shape of the two halves of the pass. */
  lemma MidReports(r: Reports, first: seq<Event>, second: seq<Event>, mid: seq<Action>, sick: set<string>)
    requires forall e :: e in first && e.Report? ==> e.action.kind == Heal && e.action.status == Done
    requires forall e :: e in second && e.Report? ==> e.action.kind == Heal && e.action.target in sick
    requires forall name :: name in sick ==>
               LastReport(second, (Heal, name)).Some? && LastReport(second, (Heal, name)).value.status != InProgress
    requires forall b :: b in mid <==>
               LastReport(first + second, KeyOf(b)) == Some(b)
               || (LastReport(first + second, KeyOf(b)).None? && b in r.items)
    ensures MidMatch(r, mid, sick)
  {
    forall name | name in sick
      ensures LastReport(first + second, (Heal, name)) == LastReport(second, (Heal, name))
      ensures exists a :: a in mid && KeyOf(a) == (Heal, name) && a.status != InProgress
    {
      LastReportAppend(first, second, (Heal, name));
      LastReportMember(second, (Heal, name));
      assert LastReport(second, (Heal, name)).value in mid;
    }
    forall b | b in r.items && b.kind == Heal && b.status == Done && b.target !in sick
      ensures exists a :: a in mid && KeyOf(a) == KeyOf(b) && a.status == Done
    {
      LastReportAppend(first, second, KeyOf(b));
      LastReportMember(second, KeyOf(b));
      LastReportMember(first, KeyOf(b));
      if LastReport(first, KeyOf(b)).Some? {
        assert LastReport(first, KeyOf(b)).value in mid;
      } else {
        assert b in mid;
      }
    }
    forall b: Action | b.kind != Heal ensures b in mid <==> b in r.items {
      LastReportAppend(first, second, KeyOf(b));
      LastReportMember(second, KeyOf(b));
      LastReportMember(first, KeyOf(b));
    }
  }

  // ---------------------------------------------------------------- remediation happens

  /** Nothing holds this candidate back. */
  ghost predicate Unhindered(c: Candidate, lastHeal: LastHeal, cfg: Config) {
    c.owner.Some? && Eligible(c.owner.value)
    && cfg.now - LastHealTime(lastHeal, cfg.baseline, c.Pool()) >= cfg.cooldown
  }

  lemma UnhinderedStep(c: Candidate, st: Loop, cfg: Config, result: CallResult)
    requires Unhindered(c, st.lastHeal, cfg) && !st.halted && st.budget > 0 && DeleteSucceeded(result)
    ensures var st' := Treat(c, st, cfg, result);
            && !st'.halted && st'.budget == st.budget - 1 && st'.lastHeal == st.lastHeal[c.Pool() := cfg.now]
            && Attempted(st'.events) == Attempted(st.events) + {c.machine}
  {
    AddedAttempts(c, st, cfg, result);
    AttemptedAppend(st.events, Added(c, st, cfg, result));
  }

  /** The first `k` candidates were deleted, and nothing stands in the way of the rest. */
  ghost predicate DeletedSoFar(st: Loop, cands: seq<Candidate>, k: nat, budget: int, cfg: Config)
    requires k <= |cands|
  {
    && !st.halted && st.budget == budget - k
    && (forall i :: k <= i < |cands| ==> Unhindered(cands[i], st.lastHeal, cfg))
    && Attempted(st.events) == Names(cands[..k])
  }

  lemma DeletedNext(st: Loop, cands: seq<Candidate>, k: nat, budget: int, cfg: Config, result: CallResult)
    requires k < |cands| <= budget && DeletedSoFar(st, cands, k, budget, cfg)
    requires UniqueBy(cands, CandidatePool) && DeleteSucceeded(result)
    ensures DeletedSoFar(Treat(cands[k], st, cfg, result), cands, k + 1, budget, cfg)
  {
    hide Judge, Added, Treat, Attempted, Eligible;
    var c := cands[k];
    assert Unhindered(c, st.lastHeal, cfg);
    UnhinderedStep(c, st, cfg, result);
    assert cands[..k + 1] == cands[..k] + [c];
    assert Names(cands[..k + 1]) == Names(cands[..k]) + {c.machine};
    forall i | k + 1 <= i < |cands| ensures Unhindered(cands[i], st.lastHeal[c.Pool() := cfg.now], cfg) {
      assert CandidatePool(cands[k]) != CandidatePool(cands[i]);
      assert Unhindered(cands[i], st.lastHeal, cfg);
    }
  }

  lemma {:induction false} TreatAllRemediates(cands: seq<Candidate>, k: nat, start: Loop, cfg: Config,
                                              fate: nat -> CallResult)
    requires k <= |cands| <= start.budget && !start.halted && start.events == []
    requires forall i :: 0 <= i < |cands| ==> Unhindered(cands[i], start.lastHeal, cfg)
    requires UniqueBy(cands, CandidatePool)
    requires forall i: nat :: DeleteSucceeded(fate(i))
    ensures DeletedSoFar(TreatAll(cands, k, start, cfg, fate), cands, k, start.budget, cfg)
  {
    hide Unhindered, Treat;
    if k == 0 {
      assert Attempted(start.events) == {} == Names(cands[..0]);
    } else {
      hide DeletedSoFar;
      TreatAllRemediates(cands, k - 1, start, cfg, fate);
      DeletedNext(TreatAll(cands, k - 1, start, cfg, fate), cands, k - 1, start.budget, cfg, fate(k - 1));
    }
  }

  function CandidatePool(c: Candidate): string { c.Pool() }

  /** The guardrails block nothing more than they must: with slack in the budget, eligible pools,
      one sick machine per pool, served cooldowns and an API that answers, every sick machine is
      deleted in this very pass. */
  lemma RemediationComplete(lastHeal: LastHeal, tracked: Tracked, baseline: int, doc: Doc, order: seq<string>, v: View)
    requires Enumerates(order, tracked)
    requires |SickNames(v, doc.healing)| + CountDeleting(v.machines) <= doc.healing.maxUnhealthy
    requires forall m :: Sick(v, doc.healing, m) ==>
               && OwnerOf(v.mds, m).Some? && Eligible(OwnerOf(v.mds, m).value)
               && v.now - baseline >= doc.healing.cooldownSeconds * SECOND
               && (OwnerOf(v.mds, m).value.name in lastHeal ==>
                     v.now - lastHeal[OwnerOf(v.mds, m).value.name] >= doc.healing.cooldownSeconds * SECOND)
    requires forall m, n :: Sick(v, doc.healing, m) && Sick(v, doc.healing, n) && m.name != n.name ==>
               PoolNameOf(v.mds, m) != PoolNameOf(v.mds, n)
    requires forall i: nat :: v.deleteFate(i).Ok? || v.deleteFate(i).NotFound?
    ensures Attempted(HealPass(lastHeal, tracked, baseline, doc, order, v).events) == SickNames(v, doc.healing)
  {
    var cfg, cands := ConfigOf(doc, v.now, baseline), Candidates(v, doc.healing);
    var start := StartLoop(lastHeal, SweepAll(tracked, doc.revision, order, v).tracked, cfg, v.machines);
    CandidatesAreTheSick(v, doc.healing);
    forall i | 0 <= i < |cands| ensures Unhindered(cands[i], lastHeal, cfg) {
      var m := MachineOf(v, doc.healing, cands[i]);
    }
    forall i, j | 0 <= i < j < |cands| ensures CandidatePool(cands[i]) != CandidatePool(cands[j]) {
      var m := MachineOf(v, doc.healing, cands[i]);
      var n := MachineOf(v, doc.healing, cands[j]);
      assert CandidateName(cands[i]) != CandidateName(cands[j]);
    }
    TreatAllRemediates(cands, |cands|, start, cfg, v.deleteFate);
    assert cands[..|cands|] == cands;
    PassDeletions(lastHeal, tracked, baseline, doc, order, v);
    assert Attempted(HealPass(lastHeal, tracked, baseline, doc, order, v).events)
        == Attempted(TreatAll(cands, |cands|, start, cfg, v.deleteFate).events);
  }

  /** The sick machine a candidate was made from. */
  lemma MachineOf(v: View, policy: Fleet.Healing, c: Candidate) returns (m: Machine)
    requires c in Candidates(v, policy)
    ensures Sick(v, policy, m) && m.name == c.machine && c.owner == OwnerOf(v.mds, m) && c.Pool() == PoolNameOf(v.mds, m)
  {
    CandidatesAreTheSick(v, policy);
    m :| CandidateOf(v, policy, c, m);
    CandidateIsSick(v, policy, c, m);
  }

  // ---------------------------------------------------------------- which candidates are deleted

  ghost predicate AnyFailed(events: seq<Event>) {
    exists e :: e in events && e.DeleteMachine? && !e.Removed()
  }

  /** The machines, and the pools, of the deletions that succeeded. */
  ghost function Gone(events: seq<Event>): set<string> {
    set e | e in events && e.Removed() :: e.machine
  }

  ghost function Healed(events: seq<Event>): set<string> {
    set e | e in events && e.Removed() :: e.pool
  }

  /** When the pool was last remediated, counting the pass so far. */
  ghost function LastHealed(pool: string, before: seq<Event>, lastHeal: LastHeal, cfg: Config): int {
    if pool in Healed(before) then Max(cfg.now, cfg.baseline)
    else if pool in lastHeal then Max(lastHeal[pool], cfg.baseline)
    else cfg.baseline
  }

  /** Nothing holds the candidate back after the deletions `before`: none of them failed, its pool may
      be acted on, there is room under the limit, and its pool's cooldown is served. */
  ghost predicate LetThrough(c: Candidate, before: seq<Event>, lastHeal: LastHeal, inFlight: int, cfg: Config) {
    && !AnyFailed(before) && c.owner.Some? && Eligible(c.owner.value)
    && inFlight + |Gone(before)| < cfg.maxUnhealthy
    && cfg.now - LastHealed(c.Pool(), before, lastHeal, cfg) >= cfg.cooldown
  }

  ghost predicate TimesMean(now: LastHeal, events: seq<Event>, before: LastHeal, cfg: Config) {
    forall pool :: LastHealTime(now, cfg.baseline, pool) == LastHealed(pool, events, before, cfg)
  }

  /** The loop state says what the events so far say. */
  ghost predicate TurnMeans(st: Loop, start: Loop, cfg: Config) {
    && (st.halted <==> AnyFailed(st.events))
    && st.budget == start.budget - |Gone(st.events)| && st.inFlight == start.inFlight + |Gone(st.events)|
    && TimesMean(st.lastHeal, st.events, start.lastHeal, cfg)
  }

  lemma TimesSame(now: LastHeal, events: seq<Event>, events': seq<Event>, before: LastHeal, cfg: Config)
    requires TimesMean(now, events, before, cfg) && Healed(events') == Healed(events)
    ensures TimesMean(now, events', before, cfg)
  {
    hide Healed, LastHealTime;
    forall pool ensures LastHealTime(now, cfg.baseline, pool) == LastHealed(pool, events', before, cfg) {
      assert LastHealTime(now, cfg.baseline, pool) == LastHealed(pool, events, before, cfg);
    }
  }

  lemma TimesNext(now: LastHeal, events: seq<Event>, events': seq<Event>, before: LastHeal, cfg: Config, healed: string)
    requires TimesMean(now, events, before, cfg) && Healed(events') == Healed(events) + {healed}
    ensures TimesMean(now[healed := cfg.now], events', before, cfg)
  {
    hide Healed;
    forall pool
      ensures LastHealTime(now[healed := cfg.now], cfg.baseline, pool) == LastHealed(pool, events', before, cfg)
    {
      assert LastHealTime(now, cfg.baseline, pool) == LastHealed(pool, events, before, cfg);
    }
  }

  lemma AddedMeans(c: Candidate, st: Loop, cfg: Config, result: CallResult)
    ensures var added, acts := Added(c, st, cfg, result), Judge(c, st, cfg).Remediate?;
            && (AnyFailed(added) <==> acts && !DeleteSucceeded(result))
            && Gone(added) == (if acts && DeleteSucceeded(result) then {c.machine} else {})
            && Healed(added) == (if acts && DeleteSucceeded(result) then {c.Pool()} else {})
  {
    hide IsControlPlane, AutoscalerKey;
    if Judge(c, st, cfg).Remediate? {
      assert DeleteEvent(cfg, c, result) in Added(c, st, cfg, result);
    }
  }

  lemma OutcomesAppend(a: seq<Event>, b: seq<Event>)
    ensures AnyFailed(a + b) <==> AnyFailed(a) || AnyFailed(b)
    ensures Gone(a + b) == Gone(a) + Gone(b) && Healed(a + b) == Healed(a) + Healed(b)
  {
  }

  lemma TreatFields(c: Candidate, st: Loop, cfg: Config, result: CallResult)
    ensures var st', acts := Treat(c, st, cfg, result), Judge(c, st, cfg).Remediate?;
            && st'.events == st.events + Added(c, st, cfg, result)
            && (acts ==> !st.halted)
            && st'.halted == (st.halted || (acts && !DeleteSucceeded(result)))
            && st'.budget == st.budget - (if acts && DeleteSucceeded(result) then 1 else 0)
            && st'.inFlight == st.inFlight + (if acts && DeleteSucceeded(result) then 1 else 0)
            && st'.lastHeal == if acts && DeleteSucceeded(result) then st.lastHeal[c.Pool() := cfg.now] else st.lastHeal
  {
    hide Added, IsControlPlane, AutoscalerKey;
  }

  lemma TurnNext(c: Candidate, st: Loop, start: Loop, cfg: Config, result: CallResult)
    requires TurnMeans(st, start, cfg) && c.machine !in Attempted(st.events)
    ensures TurnMeans(Treat(c, st, cfg, result), start, cfg)
  {
    hide *;
    var added := Added(c, st, cfg, result);
    AddedMeans(c, st, cfg, result);
    OutcomesAppend(st.events, added);
    TreatFields(c, st, cfg, result);
    NotGone(c.machine, st.events);
    if Judge(c, st, cfg).Remediate? && DeleteSucceeded(result) {
      TurnActs(c, st, Treat(c, st, cfg, result), start, cfg);
    } else {
      TurnWaits(st, Treat(c, st, cfg, result), AnyFailed(added), start, cfg);
    }
  }

  lemma NotGone(machine: string, events: seq<Event>)
    requires machine !in Attempted(events)
    ensures machine !in Gone(events)
  {
  }

  lemma TurnActs(c: Candidate, st: Loop, st': Loop, start: Loop, cfg: Config)
    requires TurnMeans(st, start, cfg) && c.machine !in Gone(st.events) && st'.halted == st.halted
    requires (AnyFailed(st'.events) <==> AnyFailed(st.events)) && Gone(st'.events) == Gone(st.events) + {c.machine}
    requires Healed(st'.events) == Healed(st.events) + {c.Pool()}
    requires st'.budget == st.budget - 1 && st'.inFlight == st.inFlight + 1
    requires st'.lastHeal == st.lastHeal[c.Pool() := cfg.now]
    ensures TurnMeans(st', start, cfg)
  {
    hide AnyFailed, Gone, Healed, TimesMean;
    TimesNext(st.lastHeal, st.events, st'.events, start.lastHeal, cfg, c.Pool());
  }

  lemma TurnWaits(st: Loop, st': Loop, failed: bool, start: Loop, cfg: Config)
    requires TurnMeans(st, start, cfg) && st'.halted == (st.halted || failed)
    requires AnyFailed(st'.events) <==> AnyFailed(st.events) || failed
    requires Gone(st'.events) == Gone(st.events) + {} && Healed(st'.events) == Healed(st.events) + {}
    requires st'.budget == st.budget && st'.inFlight == st.inFlight && st'.lastHeal == st.lastHeal
    ensures TurnMeans(st', start, cfg)
  {
    hide AnyFailed, Gone, Healed, TimesMean;
    TimesSame(st.lastHeal, st.events, st'.events, start.lastHeal, cfg);
  }

  lemma NoTurnYet(cands: seq<Candidate>, start: Loop, cfg: Config, fate: nat -> CallResult)
    requires start.events == [] && !start.halted
    ensures TurnMeans(TreatAll(cands, 0, start, cfg, fate), start, cfg)
    ensures Attempted(TreatAll(cands, 0, start, cfg, fate).events) == {}
  {
  }

  lemma {:induction false} TurnState(cands: seq<Candidate>, k: nat, start: Loop, cfg: Config, fate: nat -> CallResult)
    requires k <= |cands| && UniqueBy(cands, CandidateName) && start.events == [] && !start.halted
    ensures TurnMeans(TreatAll(cands, k, start, cfg, fate), start, cfg)
    ensures Attempted(TreatAll(cands, k, start, cfg, fate).events) <= Names(cands[..k])
  {
    hide *;
    if k == 0 {
      NoTurnYet(cands, start, cfg, fate);
    } else {
      var st, c := TreatAll(cands, k - 1, start, cfg, fate), cands[k - 1];
      TurnState(cands, k - 1, start, cfg, fate);
      TreatAllGrows(cands, k, start, cfg, fate);
      TreatAllStep(cands, k, start, cfg, fate);
      AddedAttempts(c, st, cfg, fate(k - 1));
      AttemptedAppend(st.events, Added(c, st, cfg, fate(k - 1)));
      NamesNext(cands, k);
      TurnNext(c, st, start, cfg, fate(k - 1));
    }
  }

  lemma TreatAllStep(cands: seq<Candidate>, k: nat, start: Loop, cfg: Config, fate: nat -> CallResult)
    requires 0 < k <= |cands|
    ensures TreatAll(cands, k, start, cfg, fate)
         == Treat(cands[k - 1], TreatAll(cands, k - 1, start, cfg, fate), cfg, fate(k - 1))
  {
    hide Treat;
  }

  lemma NamesNext(cands: seq<Candidate>, k: nat)
    requires 0 < k <= |cands| && UniqueBy(cands, CandidateName)
    ensures Names(cands[..k]) == Names(cands[..k - 1]) + {cands[k - 1].machine}
    ensures cands[k - 1].machine !in Names(cands[..k - 1])
  {
    assert cands[..k] == cands[..k - 1] + [cands[k - 1]];
    forall i | 0 <= i < k - 1 ensures cands[i].machine != cands[k - 1].machine {
      assert CandidateName(cands[i]) != CandidateName(cands[k - 1]);
    }
  }

  /** The guardrails, in the loop's terms and in those of the events so far. */
  lemma JudgeLetsThrough(c: Candidate, st: Loop, start: Loop, inFlight: int, cfg: Config)
    requires TurnMeans(st, start, cfg) && start.budget == cfg.maxUnhealthy - inFlight
    ensures Judge(c, st, cfg).Remediate? <==> LetThrough(c, st.events, start.lastHeal, inFlight, cfg)
  {
    hide AnyFailed, Gone, LastHealed, IsControlPlane, AutoscalerKey, LastHealTime;
    assert LastHealTime(st.lastHeal, cfg.baseline, c.Pool()) == LastHealed(c.Pool(), st.events, start.lastHeal, cfg);
  }

  /** A candidate is attempted exactly if it is let through at its turn. */
  lemma {:induction false} AttemptedIff(cands: seq<Candidate>, k: nat, start: Loop, cfg: Config, fate: nat -> CallResult,
                                        i: nat)
    requires i < k <= |cands| && UniqueBy(cands, CandidateName) && start.events == [] && !start.halted
    ensures cands[i].machine in Attempted(TreatAll(cands, k, start, cfg, fate).events)
            <==> Judge(cands[i], TreatAll(cands, i, start, cfg, fate), cfg).Remediate?
  {
    hide TreatAll, Judge, Attempted, TurnMeans, Added;
    var st := TreatAll(cands, k - 1, start, cfg, fate);
    TreatAllGrows(cands, k, start, cfg, fate);
    AddedAttempts(cands[k - 1], st, cfg, fate(k - 1));
    AttemptedAppend(st.events, Added(cands[k - 1], st, cfg, fate(k - 1)));
    if i < k - 1 {
      AttemptedIff(cands, k - 1, start, cfg, fate, i);
      assert CandidateName(cands[i]) != CandidateName(cands[k - 1]);
    } else {
      TurnState(cands, i, start, cfg, fate);
      NamesNext(cands, k);
    }
  }

  /** The deletions a pass makes before it comes to its i-th candidate. */
  ghost function Before(lastHeal: LastHeal, tracked: Tracked, baseline: int, doc: Doc, order: seq<string>, v: View,
                        i: nat): seq<Event>
    requires i <= |Candidates(v, doc.healing)|
  {
    var cfg := ConfigOf(doc, v.now, baseline);
    TreatAll(Candidates(v, doc.healing), i,
             StartLoop(lastHeal, SweepAll(tracked, doc.revision, order, v).tracked, cfg, v.machines), cfg,
             v.deleteFate).events
  }

  /** A pass attempts a candidate exactly if there are no more sick machines than maxUnhealthy and
      nothing holds the candidate back when its turn comes. */
  lemma DeletedIff(lastHeal: LastHeal, tracked: Tracked, baseline: int, doc: Doc, order: seq<string>, v: View, i: nat)
    requires Enumerates(order, tracked) && i < |Candidates(v, doc.healing)|
    ensures Candidates(v, doc.healing)[i].machine in Attempted(HealPass(lastHeal, tracked, baseline, doc, order, v).events)
            <==> && |SickNames(v, doc.healing)| <= doc.healing.maxUnhealthy
                 && LetThrough(Candidates(v, doc.healing)[i], Before(lastHeal, tracked, baseline, doc, order, v, i), lastHeal,
                               CountDeleting(v.machines), ConfigOf(doc, v.now, baseline))
  {
    hide Candidates, TreatAll, Judge, LetThrough, TurnMeans, SweepAll, HealPass;
    var cfg, cands := ConfigOf(doc, v.now, baseline), Candidates(v, doc.healing);
    var start := StartLoop(lastHeal, SweepAll(tracked, doc.revision, order, v).tracked, cfg, v.machines);
    CandidatesAreTheSick(v, doc.healing);
    PassDeletions(lastHeal, tracked, baseline, doc, order, v);
    if |cands| > doc.healing.maxUnhealthy {
      BrakeAllEvents(cands, |cands|, cfg);
    } else {
      CandidatesUnique(v, doc.healing);
      TurnState(cands, i, start, cfg, v.deleteFate);
      JudgeLetsThrough(cands[i], TreatAll(cands, i, start, cfg, v.deleteFate), start, CountDeleting(v.machines), cfg);
      AttemptedIff(cands, |cands|, start, cfg, v.deleteFate, i);
    }
  }

  /** What is reported about a candidate that is held back after the deletions `before`, and why. */
  ghost predicate HeldBack(c: Candidate, before: seq<Event>, lastHeal: LastHeal, inFlight: int, cfg: Config,
                           status: Status, detail: Detail) {
    if AnyFailed(before) then status == Pending && detail == QueuedBehindFailure
    else if c.owner.None? then status == Rejected && detail == Unowned
    else if LooksControlPlane(c.owner.value) then status == Rejected && detail == ControlPlanePool
    else if !Eligible(c.owner.value) then
      && status == Rejected && detail.AutoscalerPool?
      && detail.key in c.owner.value.annotations && AutoscalerAnnotation(detail.key)
    else if inFlight + |Gone(before)| >= cfg.maxUnhealthy then
      status == Pending && detail == BudgetSpent(inFlight + |Gone(before)|, cfg.maxUnhealthy)
    else
      && status == Pending && detail.CoolingDown? && detail.pool == c.owner.value.name
      && InSeconds(LastHealed(c.owner.value.name, before, lastHeal, cfg) + cfg.cooldown - cfg.now, detail.seconds)
  }

  /** What one candidate's turn adds to the trace: the three events of its deletion, or the one reason
      why it is held back. */
  ghost predicate TurnAdds(c: Candidate, before: seq<Event>, lastHeal: LastHeal, inFlight: int, cfg: Config,
                           result: CallResult, added: seq<Event>) {
    if LetThrough(c, before, lastHeal, inFlight, cfg) then
      added == [Report(Action(Heal, c.machine, InProgress, DeletingMachine(c.cause), cfg.revision)),
                DeleteMachine(c.machine, c.owner.value.name, c.node, cfg.now, cfg.cooldown, result),
                if result.Ok? || result.NotFound?
                then Report(Action(Heal, c.machine, Done, DeletedMachine(c.cause), cfg.revision))
                else Report(Action(Heal, c.machine, Rejected, DeleteFailed(result), cfg.revision))]
    else
      exists status, detail ::
        && HeldBack(c, before, lastHeal, inFlight, cfg, status, detail)
        && added == [Report(Action(Heal, c.machine, status, detail, cfg.revision))]
  }

  lemma RefusalMeans(c: Candidate, st: Loop, start: Loop, inFlight: int, cfg: Config)
    requires TurnMeans(st, start, cfg) && start.budget == cfg.maxUnhealthy - inFlight && start.inFlight == inFlight
    requires Judge(c, st, cfg).Refuse?
    ensures HeldBack(c, st.events, start.lastHeal, inFlight, cfg, Judge(c, st, cfg).status, Judge(c, st, cfg).detail)
  {
    hide AnyFailed, Gone, LastHealed, IsControlPlane, AutoscalerKey, LastHealTime, LooksControlPlane, AutoscalerAnnotation;
    assert LastHealTime(st.lastHeal, cfg.baseline, c.Pool()) == LastHealed(c.Pool(), st.events, start.lastHeal, cfg);
    if c.owner.Some? {
      ControlPlaneIff(c.owner.value);
      AutoscalerIff(c.owner.value);
    }
  }

  lemma AddedExact(c: Candidate, st: Loop, start: Loop, inFlight: int, cfg: Config, result: CallResult)
    requires TurnMeans(st, start, cfg) && start.budget == cfg.maxUnhealthy - inFlight && start.inFlight == inFlight
    ensures TurnAdds(c, st.events, start.lastHeal, inFlight, cfg, result, Added(c, st, cfg, result))
  {
    hide TurnMeans, Judge, HeldBack;
    JudgeLetsThrough(c, st, start, inFlight, cfg);
    if Judge(c, st, cfg).Refuse? {
      RefusalMeans(c, st, start, inFlight, cfg);
      hide LetThrough;
    } else {
      assert LetThrough(c, st.events, start.lastHeal, inFlight, cfg);
    }
  }

  /** The storm brake's reports. */
  function Storm(cands: seq<Candidate>, cfg: Config): seq<Event> {
    seq(|cands|, i requires 0 <= i < |cands| =>
          Report(Action(Heal, cands[i].machine, Rejected, StormBrake(|cands|, cfg.maxUnhealthy), cfg.revision)))
  }

  lemma {:induction false} BrakeAllIs(cands: seq<Candidate>, k: nat, cfg: Config)
    requires k <= |cands|
    ensures BrakeAll(cands, k, cfg) == Storm(cands, cfg)[..k]
  {
    if k > 0 { BrakeAllIs(cands, k - 1, cfg); }
  }

  /** A pass, event by event: the listing read, the sweep, then either one refusal per candidate, exactly
      when there are more than maxUnhealthy, or one turn per candidate in name order, and the prune. */
  lemma PassExact(lastHeal: LastHeal, tracked: Tracked, baseline: int, doc: Doc, order: seq<string>, v: View)
    requires Enumerates(order, tracked)
    ensures var cands, cfg := Candidates(v, doc.healing), Config(doc.revision, v.now, baseline,
                                doc.healing.cooldownSeconds * SECOND, doc.healing.maxUnhealthy);
            && HealPass(lastHeal, tracked, baseline, doc, order, v).events
                 == [HealRead(DeletingNames(v.machines))] + SweepAll(tracked, doc.revision, order, v).events
                    + (if |SickNames(v, doc.healing)| > doc.healing.maxUnhealthy then Storm(cands, cfg)
                       else Before(lastHeal, tracked, baseline, doc, order, v, |cands|))
                    + [PruneReports(Heal, SickNames(v, doc.healing))]
            && Before(lastHeal, tracked, baseline, doc, order, v, 0) == []
            && forall i: nat :: i < |cands| ==>
                 TurnOf(cands[i], lastHeal, v, cfg, v.deleteFate(i), Before(lastHeal, tracked, baseline, doc, order, v, i),
                        Before(lastHeal, tracked, baseline, doc, order, v, i + 1))
  {
    hide HealPass, Candidates, SweepAll, TurnOf, SickNames, Before, Storm;
    var cfg, cands := ConfigOf(doc, v.now, baseline), Candidates(v, doc.healing);
    CandidatesAreTheSick(v, doc.healing);
    PassParts(lastHeal, tracked, baseline, doc, order, v);
    forall i: nat | i < |cands|
      ensures TurnOf(cands[i], lastHeal, v, cfg, v.deleteFate(i), Before(lastHeal, tracked, baseline, doc, order, v, i),
                     Before(lastHeal, tracked, baseline, doc, order, v, i + 1))
    {
      NextTurn(lastHeal, tracked, baseline, doc, order, v, i);
    }
    NoneBefore(lastHeal, tracked, baseline, doc, order, v);
  }

  lemma PassParts(lastHeal: LastHeal, tracked: Tracked, baseline: int, doc: Doc, order: seq<string>, v: View)
    ensures var cands := Candidates(v, doc.healing);
            HealPass(lastHeal, tracked, baseline, doc, order, v).events
              == [HealRead(DeletingNames(v.machines))] + SweepAll(tracked, doc.revision, order, v).events
                 + (if |cands| > doc.healing.maxUnhealthy then Storm(cands, ConfigOf(doc, v.now, baseline))
                    else Before(lastHeal, tracked, baseline, doc, order, v, |cands|))
                 + [PruneReports(Heal, Names(cands))]
  {
    hide Candidates, TreatAll, SweepAll, BrakeAll, Storm, DeletingNames, Names;
    var cfg, cands := ConfigOf(doc, v.now, baseline), Candidates(v, doc.healing);
    BrakeAllIs(cands, |cands|, cfg);
    StormLength(cands, cfg);
  }

  lemma StormLength(cands: seq<Candidate>, cfg: Config)
    ensures Storm(cands, cfg)[..|cands|] == Storm(cands, cfg)
  {
  }

  ghost predicate TurnOf(c: Candidate, lastHeal: LastHeal, v: View, cfg: Config, result: CallResult,
                         before: seq<Event>, after: seq<Event>) {
    && before <= after
    && TurnAdds(c, before, lastHeal, CountDeleting(v.machines), cfg, result, after[|before|..])
  }

  lemma NoneBefore(lastHeal: LastHeal, tracked: Tracked, baseline: int, doc: Doc, order: seq<string>, v: View)
    ensures Before(lastHeal, tracked, baseline, doc, order, v, 0) == []
  {
  }

  lemma NextTurn(lastHeal: LastHeal, tracked: Tracked, baseline: int, doc: Doc, order: seq<string>, v: View, i: nat)
    requires i < |Candidates(v, doc.healing)|
    ensures TurnOf(Candidates(v, doc.healing)[i], lastHeal, v, ConfigOf(doc, v.now, baseline), v.deleteFate(i),
                   Before(lastHeal, tracked, baseline, doc, order, v, i),
                   Before(lastHeal, tracked, baseline, doc, order, v, i + 1))
  {
    hide Candidates, TreatAll, Added, TurnMeans, TurnAdds, SweepAll, CountDeleting;
    var cfg, cands := ConfigOf(doc, v.now, baseline), Candidates(v, doc.healing);
    var start := StartLoop(lastHeal, SweepAll(tracked, doc.revision, order, v).tracked, cfg, v.machines);
    CandidatesUnique(v, doc.healing);
    TurnState(cands, i, start, cfg, v.deleteFate);
    TreatAllGrows(cands, i + 1, start, cfg, v.deleteFate);
    var st := TreatAll(cands, i, start, cfg, v.deleteFate);
    AddedExact(cands[i], st, start, CountDeleting(v.machines), cfg, v.deleteFate(i));
    var added := Added(cands[i], st, cfg, v.deleteFate(i));
    assert (st.events + added)[|st.events|..] == added;
  }

  lemma CandidatesUnique(v: View, policy: Fleet.Healing)
    ensures UniqueBy(Candidates(v, policy), CandidateName)
  {
    CandidatesAreTheSick(v, policy);
  }

  // ---------------------------------------------------------------- the control-plane label gap

  /** Only the unjoined path looks at a machine's own control-plane labels: a labelled machine is
      a candidate exactly when a node without such labels that it stands behind is down for too long. */
  lemma LabelledCandidateIff(v: View, policy: Fleet.Healing, m: Machine)
    requires UniqueBy(v.machines, MachineName) && m in v.machines && m.name != ""
    requires ControlPlaneMarked(m.labels.Keys) || ControlPlaneMarked(m.nodeLabels.Keys)
    ensures m.name in Names(Candidates(v, policy))
            <==> exists n :: DownTooLong(v, policy, n) && Behind(v.machines, m, n.name)
  {
    hide Candidates, DownTooLong, Behind, ControlPlaneMarked;
    CandidatesAreTheSick(v, policy);
    if m.name in SickNames(v, policy) {
      var other :| other in v.machines && Sick(v, policy, other) && other.name == m.name;
      UniqueSame(v.machines, MachineName, other, m);
    }
  }

  function GapMachine(): Machine {
    Machine("m", map["node-role.kubernetes.io/control-plane" := ""], map[], [OwnerRef("MachineSet", "p-x")],
            false, "n", None, "", "", "")
  }
  function GapNode(): Node { Node("n", {}, ReadyFalse, Some(0)) }
  function GapDeployment(): Deployment { Deployment("p", {}, {}, None, None, "") }
  function GapDoc(): Doc { Doc(1, None, [], Execution(false, false, true), Fleet.Healing(true, 1, 0, 0, 0)) }
  function GapView(): View {
    View(60 * SECOND, 0, [GapDeployment()], [GapMachine()], [GapNode()],
         (name: string) => Unwired, (name: string, i: nat) => Ok, (i: nat) => Ok)
  }

  lemma GapOwner()
    ensures OwnerOf([GapDeployment()], GapMachine()) == Some(GapDeployment()) && Eligible(GapDeployment())
  {
    var mds, m, md := [GapDeployment()], GapMachine(), GapDeployment();
    assert "p-x"[..2] == "p-" && "p-"[..1] == "p";
    assert StripLastSegment("p-x") == StripLastSegment("p-") == "p";
    assert NamedByOwner(mds, m, 0, md);
    assert forall j: nat, other :: j < 0 ==> !NamedByOwner(mds, m, j, other);
    assert IsOwner(mds, m, md);
    PoolForSound(mds, m);
    OwnerUnique(mds, m, md, OwnerOf(mds, m).value);
    assert Lower("p") == "p";
  }

  lemma GapSick()
    ensures SickNames(GapView(), GapDoc().healing) == {"m"}
    ensures forall m :: Sick(GapView(), GapDoc().healing, m) ==> m == GapMachine()
  {
    var v := GapView();
    assert v.machines[0] == GapMachine() && v.nodes[0] == GapNode();
    assert Behind(v.machines, GapMachine(), "n") && DownTooLong(v, GapDoc().healing, GapNode());
  }

  /** A machine carrying the control-plane label is deleted: the label alone protects nothing
      once the node has joined. */
  lemma ControlPlaneLabelGap()
    ensures ControlPlaneMarked(GapMachine().labels.Keys)
    ensures "m" in Hits(HealPass(map[], map[], -1, GapDoc(), [], GapView()).events)
  {
    GapOwner();
    GapSick();
    RemediationComplete(map[], map[], -1, GapDoc(), [], GapView());
    var events := HealPass(map[], map[], -1, GapDoc(), [], GapView()).events;
    var e :| e in events && e.DeleteMachine? && e.machine == "m";
    DeletionFate(map[], map[], -1, GapDoc(), [], GapView(), e);
  }

  /** The i-th candidate's deletion got the i-th answer. */
  ghost predicate FateOf(cands: seq<Candidate>, k: nat, fate: nat -> CallResult, e: Event)
    requires k <= |cands| && e.DeleteMachine?
  {
    exists i: nat :: i < k && cands[i].machine == e.machine && e.result == fate(i)
  }

  lemma {:induction false} TreatAllFate(cands: seq<Candidate>, k: nat, start: Loop, cfg: Config,
                                        fate: nat -> CallResult, e: Event)
    requires k <= |cands| && start.events == []
    requires e in TreatAll(cands, k, start, cfg, fate).events && e.DeleteMachine?
    ensures FateOf(cands, k, fate, e)
  {
    var st := TreatAll(cands, k - 1, start, cfg, fate);
    if e in st.events {
      TreatAllFate(cands, k - 1, start, cfg, fate, e);
    } else {
      AddedSound(cands[k - 1], st, cfg, fate(k - 1));
      assert cands[k - 1].machine == e.machine;
    }
  }

  /** The result a deletion event records is the one the API gave for that very candidate. */
  lemma DeletionFate(lastHeal: LastHeal, tracked: Tracked, baseline: int, doc: Doc, order: seq<string>, v: View, e: Event)
    requires Enumerates(order, tracked) && e.DeleteMachine?
    ensures e in HealPass(lastHeal, tracked, baseline, doc, order, v).events ==>
              FateOf(Candidates(v, doc.healing), |Candidates(v, doc.healing)|, v.deleteFate, e)
  {
    var cfg, cands := ConfigOf(doc, v.now, baseline), Candidates(v, doc.healing);
    var start := StartLoop(lastHeal, SweepAll(tracked, doc.revision, order, v).tracked, cfg, v.machines);
    PassDeletions(lastHeal, tracked, baseline, doc, order, v);
    BrakeAllEvents(cands, |cands|, cfg);
    if e in HealPass(lastHeal, tracked, baseline, doc, order, v).events {
      TreatAllFate(cands, |cands|, start, cfg, v.deleteFate, e);
    }
  }
}
