/** The cluster objects the executor reads, the desired-state document it obeys, the events
    it leaves behind, and the refusal predicates every acting pass consults. Times and
    durations are integers in nanoseconds. */
module Fleet {
  import opened Common

  // ---------------------------------------------------------------- cluster objects

  /** One term of a label selector (internal/machines/machines.go parses them with the
      Kubernetes label library; these are that library's four operators). */
  datatype Requirement =
    | In(key: string, values: set<string>)
    | NotIn(key: string, values: set<string>)
    | Exists(key: string)
    | DoesNotExist(key: string)
  {
    predicate Matches(labels: map<string, string>) {
      match this
      case In(k, vs) => k in labels && labels[k] in vs
      case NotIn(k, vs) => k !in labels || labels[k] !in vs
      case Exists(k) => k in labels
      case DoesNotExist(k) => k !in labels
    }
  }

  type Selector = seq<Requirement>

  /** `selector` is None when spec.selector is absent or cannot be parsed; `labelKeys` joins
      the four label paths that the control-plane test reads. */
  datatype Deployment = Deployment(
    name: string,
    labelKeys: set<string>,
    annotations: set<string>,
    selector: Option<Selector>,
    replicas: Option<int>,
    kubelet: string)

  datatype OwnerRef = OwnerRef(kind: string, name: string)

  datatype Machine = Machine(
    name: string,
    labels: map<string, string>,
    nodeLabels: map<string, string>,
    owners: seq<OwnerRef>,
    deleting: bool,
    nodeRef: string,
    created: Option<int>,
    kubelet: string,
    errorReason: string,
    errorMessage: string)

  datatype Readiness = ReadyTrue | ReadyFalse | ReadyUnknown

  /** `ready` and `since` come from the node's first Ready condition; a node without one is
      (ReadyUnknown, None). */
  datatype Node = Node(name: string, labelKeys: set<string>, ready: Readiness, since: Option<int>)

  datatype Pod = Pod(namespace: string, name: string, uid: string, node: string, terminating: bool)

  function DeploymentName(md: Deployment): string { md.name }
  function MachineName(m: Machine): string { m.name }
  function NodeName(n: Node): string { n.name }
  function NodeRefName(m: Machine): string { m.nodeRef }

  // ---------------------------------------------------------------- desired document

  datatype WorkerPool = WorkerPool(name: string, machineType: string, desiredReplicas: int)
  datatype Execution = Execution(scaling: bool, upgrades: bool, healing: bool)
  datatype Healing = Healing(enabled: bool, maxUnhealthy: int, nodeStartupTimeoutSeconds: int,
                             unhealthyAfterSeconds: int, cooldownSeconds: int)
  datatype Doc = Doc(revision: int, kubernetesVersion: Option<string>, pools: seq<WorkerPool>,
                     execution: Execution, healing: Healing)

  function PoolName(p: WorkerPool): string { p.name }

  const MAX_HEALING_UNHEALTHY: int := 1_000
  const MAX_HEALING_SECONDS: int := 1_000_000

  /** The boundary check on a freshly decoded document. */
  predicate Validate(doc: Doc) {
    && doc.revision >= 0
    && 0 <= doc.healing.maxUnhealthy <= MAX_HEALING_UNHEALTHY
    && 0 <= doc.healing.nodeStartupTimeoutSeconds <= MAX_HEALING_SECONDS
    && 0 <= doc.healing.unhealthyAfterSeconds <= MAX_HEALING_SECONDS
    && 0 <= doc.healing.cooldownSeconds <= MAX_HEALING_SECONDS
  }

  /** Healing needs both server bits. */
  predicate HealingArmed(doc: Doc) { doc.execution.healing && doc.healing.enabled }

  // ---------------------------------------------------------------- API outcomes

  /** How one API call ends. An error may or may not have taken effect on the server. */
  datatype CallResult = Ok | NotFound | Conflict | Forbidden | Failed(tookEffect: bool)
  {
    predicate TookEffect() { Ok? || (Failed? && tookEffect) }
  }

  // ---------------------------------------------------------------- reports and events

  datatype Kind = Scale | Upgrade | Heal
  datatype Status = Pending | InProgress | Done | Rejected

  datatype Cause =
    | NeverJoined(age: int, timeout: int)
    | NodeUnhealthy(node: string, state: Readiness, duration: int, window: int)

  /** The detail text of a report, kept as the values the text is built from. */
  datatype Detail =
    | NoDetail
    | QueuedBehindFailure
    | CannotList
    | NoSuchDeployment
    | InvalidName
    | ControlPlanePool
    | AutoscalerPool(key: string)
    | ReplicasOutOfRange(wanted: int, max: int)
    | AlreadyAt(replicas: int)
    | PatchingReplicas(replicas: int)
    | PatchFailed(result: CallResult)
    | Scaled(from: Option<int>, to: int)
    | InvalidTarget(target: string)
    | VersionUnknown
    | BehindTarget(observed: string, target: string)
    | NoKubeletVersion
    | Rolling(fromVersion: string, target: string, n: int, m: int)
    | OnePoolAtATime
    | Unowned
    | StormBrake(unhealthy: int, max: int)
    | BudgetSpent(inFlight: int, max: int)
    | CoolingDown(pool: string, seconds: int)
    | DeletingMachine(cause: Cause)
    | DeleteFailed(result: CallResult)
    | DeletedMachine(cause: Cause)
    | Unwedged(seconds: int, deleted: int, failed: int, node: string)
    | UnwedgeForbidden(seconds: int)

  datatype Action = Action(kind: Kind, target: string, status: Status, detail: Detail, revision: int)

  /** Everything the executor does to the outside, in order: report-store calls, API writes,
      and two markers (`HealRead`, `UnwedgeAttempt`) that write nothing. */
  datatype Event =
    | BeginRevision(revision: int)
    | ClearReports
    | Report(action: Action)
    | PruneReports(kind: Kind, keep: set<string>)
    | PatchReplicas(pool: string, replicas: int, result: CallResult)
    | PatchKubelet(pool: string, version: string, result: CallResult)
    | HealRead(deleting: set<string>)
    | DeleteMachine(machine: string, pool: string, node: string, at: int, cooldown: int, result: CallResult)
    | UnwedgeAttempt(machine: string, node: string, deletedAt: int, at: int)
    | DeletePod(machine: string, pod: Pod, result: CallResult)
  {
    predicate IsWrite() { PatchReplicas? || PatchKubelet? || DeleteMachine? || DeletePod? }
    predicate AcceptedDelete() { DeleteMachine? && result.Ok? }
    /** The machine is gone: deleted now, or found to be gone already. */
    ghost predicate Removed() { DeleteMachine? && (result.Ok? || result.NotFound?) }
  }

  // ---------------------------------------------------------------- refusal predicates

  const CONTROL_PLANE_KEY: string := "node-role.kubernetes.io/control-plane"
  const MASTER_KEY: string := "node-role.kubernetes.io/master"

  predicate HasControlPlaneLabel(keys: set<string>) { CONTROL_PLANE_KEY in keys || MASTER_KEY in keys }

  const AUTOSCALER_KEYS: seq<string> := [
    "cluster.k8s.io/cluster-api-autoscaler-node-group-min-size",
    "cluster.k8s.io/cluster-api-autoscaler-node-group-max-size",
    "cluster.x-k8s.io/cluster-api-autoscaler-node-group-min-size",
    "cluster.x-k8s.io/cluster-api-autoscaler-node-group-max-size"]

  function Lower(s: string): string {
    seq(|s|, i requires 0 <= i < |s| => if 'A' <= s[i] <= 'Z' then (s[i] as int + 32) as char else s[i])
  }

  predicate OccursAt(s: string, part: string, i: nat) {
    i + |part| <= |s| && s[i..i + |part|] == part
  }

  predicate Contains(s: string, part: string) {
    exists i | 0 <= i <= |s| :: OccursAt(s, part, i)
  }

  predicate IsDelimiter(c: char) { c == '-' || c == '.' || c == '_' }

  /** `part` stands between delimiters (or the ends) of `s`. */
  predicate HasSegment(s: string, part: string) {
    exists i | 0 <= i <= |s| :: OccursAt(s, part, i)
                                && (i == 0 || IsDelimiter(s[i - 1]))
                                && (i + |part| == |s| || IsDelimiter(s[i + |part|]))
  }

  /** The label and name heuristic, biased toward refusal. */
  predicate IsControlPlane(md: Deployment) {
    var name := Lower(md.name);
    || HasControlPlaneLabel(md.labelKeys)
    || Contains(name, "control-plane") || Contains(name, "controlplane") || Contains(name, "master")
    || HasSegment(name, "cp")
  }

  /** The first autoscaler annotation the deployment carries. */
  function AutoscalerKey(md: Deployment): Option<string> {
    if AUTOSCALER_KEYS[0] in md.annotations then Some(AUTOSCALER_KEYS[0])
    else if AUTOSCALER_KEYS[1] in md.annotations then Some(AUTOSCALER_KEYS[1])
    else if AUTOSCALER_KEYS[2] in md.annotations then Some(AUTOSCALER_KEYS[2])
    else if AUTOSCALER_KEYS[3] in md.annotations then Some(AUTOSCALER_KEYS[3])
    else None
  }

  /** A pool the executor may act on at all. */
  predicate Eligible(md: Deployment) { !IsControlPlane(md) && AutoscalerKey(md).None? }

  predicate IsControlPlaneNode(n: Node) { HasControlPlaneLabel(n.labelKeys) }

  predicate IsControlPlaneMachine(m: Machine) {
    HasControlPlaneLabel(m.labels.Keys) || HasControlPlaneLabel(m.nodeLabels.Keys)
  }

  predicate Alphanumeric(c: char) { 'a' <= c <= 'z' || '0' <= c <= '9' }

  /** The DNS-1123 subdomain test of the Kubernetes validation library. */
  predicate IsDNS1123Subdomain(s: string) {
    && 1 <= |s| <= 253
    && Alphanumeric(s[0]) && Alphanumeric(s[|s| - 1])
    && (forall i :: 0 <= i < |s| ==> Alphanumeric(s[i]) || s[i] == '-' || s[i] == '.')
    && (forall i :: 0 < i < |s| - 1 && s[i] == '.' ==> Alphanumeric(s[i - 1]) && Alphanumeric(s[i + 1]))
  }
}
