/** One Reconcile call as a function: what it leaves in memory, what it does to the outside, and
    whether it asks to be run again. */
module ExecutorSpec {
  import opened Common
  import opened Fleet
  import opened Unwedge
  import opened Healing
  import Scaling
  import Rollout

  datatype Settings = Settings(maxReplicas: int, evictionTimeout: int, baseline: int)

  datatype Memory = Memory(lastHeal: LastHeal, rollFrom: Rollout.RollFrom, tracked: Tracked)

  /** Everything one call reads and every answer it gets from the API. A listing is None when the
      read failed; the scaling, upgrade and healing passes list separately. */
  datatype Reads = Reads(
    scaleMds: Option<seq<Deployment>>,
    scaleFate: nat -> CallResult,
    rollMds: Option<seq<Deployment>>,
    rollMachines: Option<seq<Machine>>,
    observed: string,
    rollFate: nat -> CallResult,
    now: int,
    healMds: Option<seq<Deployment>>,
    healMachines: Option<seq<Machine>>,
    healNodes: Option<seq<Node>>,
    pods: string -> PodRead,
    podFate: (string, nat) -> CallResult,
    deleteFate: nat -> CallResult)
  {
    predicate HealReadable() { healMds.Some? && healMachines.Some? && healNodes.Some? }
  }

  function ViewOf(s: Settings, r: Reads): View
    requires r.HealReadable()
  {
    View(r.now, s.evictionTimeout, r.healMds.value, r.healMachines.value, r.healNodes.value,
         r.pods, r.podFate, r.deleteFate)
  }

  datatype Result = Result(memory: Memory, retry: bool, events: seq<Event>)

  function ScaleStage(m: Memory, s: Settings, doc: Doc, r: Reads): Result {
    if !doc.execution.scaling then Result(m, false, [])
    else
      var out := Scaling.ScalePass(doc, r.scaleMds, s.maxReplicas, r.scaleFate);
      Result(m, out.halted, out.events)
  }

  function UpgradeStage(m: Memory, doc: Doc, r: Reads): Result {
    if !doc.execution.upgrades then Result(m, false, [])
    else
      var out := Rollout.UpgradePass(m.rollFrom, doc, r.rollMds, r.rollMachines, r.observed, r.rollFate);
      Result(m.(rollFrom := out.rollFrom), out.retry, out.events)
  }

  /** A failed read skips the pass; healing asks for a retry either way. */
  function HealStage(m: Memory, s: Settings, doc: Doc, order: seq<string>, r: Reads): Result {
    if !HealingArmed(doc) then Result(m, false, [])
    else if !r.HealReadable() then Result(m, true, [])
    else
      var out := HealPass(m.lastHeal, m.tracked, s.baseline, doc, order, ViewOf(s, r));
      Result(m.(lastHeal := out.lastHeal, tracked := out.tracked), true, out.events)
  }

  predicate ReportOnly(doc: Doc) {
    !doc.execution.scaling && !doc.execution.upgrades && !HealingArmed(doc)
  }

  /** `order` is the order in which the healing pass happens to visit the tracked deletions. */
  function Reconcile(m: Memory, s: Settings, doc: Doc, order: seq<string>, r: Reads): Result {
    if ReportOnly(doc) then Result(m, false, [ClearReports])
    else
      var a := ScaleStage(m, s, doc, r);
      var b := UpgradeStage(a.memory, doc, r);
      var c := HealStage(b.memory, s, doc, order, r);
      Result(c.memory, a.retry || b.retry || c.retry,
             [BeginRevision(doc.revision)] + a.events + b.events + c.events)
  }
}
