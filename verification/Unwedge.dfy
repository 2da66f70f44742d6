/** The bounded follow-through to a heal deletion (internal/executor/unwedge.go): force-delete
    the pods stuck on a dead node, once per machine, only for machines this agent deleted. */
module Unwedge {
  import opened Common
  import opened Fleet
  import opened FleetLaws
  import opened Ordering

  const MAX_UNWEDGE_PODS: nat := 100

  /** A machine this agent heal-deleted; `node` is "" when it had never joined. */
  datatype Tracking = Tracking(node: string, deletedAt: int, attempted: bool)

  type Tracked = map<string, Tracking>

  datatype PodRead = Unwired | ReadFailed | Pods(pods: seq<Pod>)

  /** What one healing pass reads, and how the API answers its writes: `pods` is the pod read
      made for a tracked machine, `podFate` the fate of its i-th pod deletion, `deleteFate` the
      fate of the machine deletion made for the i-th candidate. */
  datatype View = View(
    now: int,
    evictionTimeout: int,
    mds: seq<Deployment>,
    machines: seq<Machine>,
    nodes: seq<Node>,
    pods: string -> PodRead,
    podFate: (string, nat) -> CallResult,
    deleteFate: nat -> CallResult)

  // ---------------------------------------------------------------- stuck pods

  function TerminatingOn(pods: seq<Pod>, node: string): seq<Pod> {
    if pods == [] then []
    else
      var init, last := pods[..|pods| - 1], pods[|pods| - 1];
      TerminatingOn(init, node) + if last.node == node && last.terminating then [last] else []
  }

  predicate PodLe(a: Pod, b: Pod) {
    if a.namespace != b.namespace then StringLe(a.namespace, b.namespace) else StringLe(a.name, b.name)
  }

  function StuckPods(pods: seq<Pod>, node: string): seq<Pod> {
    var stuck := Sort(TerminatingOn(pods, node), PodLe);
    if |stuck| > MAX_UNWEDGE_PODS then stuck[..MAX_UNWEDGE_PODS] else stuck
  }

  lemma {:induction false} TerminatingOnMeans(pods: seq<Pod>, node: string)
    ensures forall p :: p in TerminatingOn(pods, node) <==> p in pods && p.node == node && p.terminating
  {
    if pods != [] {
      TerminatingOnMeans(pods[..|pods| - 1], node);
      assert pods == pods[..|pods| - 1] + [pods[|pods| - 1]];
    }
  }

  /** Only pods already terminating on that node are ever in reach, and at most 100 of them. */
  lemma StuckPodsBounded(pods: seq<Pod>, node: string)
    ensures |StuckPods(pods, node)| <= MAX_UNWEDGE_PODS
    ensures forall p :: p in StuckPods(pods, node) ==> p in pods && p.node == node && p.terminating
    ensures StuckPods(pods, node) == [] <==> forall p :: p in pods ==> !(p.node == node && p.terminating)
  {
    TerminatingOnMeans(pods, node);
    SortMembers(TerminatingOn(pods, node), PodLe);
    if TerminatingOn(pods, node) != [] { assert TerminatingOn(pods, node)[0] in TerminatingOn(pods, node); }
  }

  lemma PodLePreorder()
    ensures Preorder(PodLe)
  {
    forall x, y ensures PodLe(x, y) || PodLe(y, x) {
      StringLeTotal(x.namespace, y.namespace);
      StringLeTotal(x.name, y.name);
    }
    forall x, y, z | PodLe(x, y) && PodLe(y, z) ensures PodLe(x, z) {
      if x.namespace != y.namespace && y.namespace != z.namespace {
        StringLeTransitive(x.namespace, y.namespace, z.namespace);
        if x.namespace == z.namespace { StringLeAntisymmetric(x.namespace, y.namespace); }
      } else if x.namespace == y.namespace == z.namespace {
        StringLeTransitive(x.name, y.name, z.name);
      }
    }
  }

  /** By namespace, then by name. */
  ghost predicate PodBefore(a: Pod, b: Pod) {
    || (a.namespace != b.namespace && StringLe(a.namespace, b.namespace))
    || (a.namespace == b.namespace && StringLe(a.name, b.name))
  }

  lemma PodLeMeans()
    ensures forall a, b :: PodLe(a, b) ==> PodBefore(a, b)
  {
    hide StringLe;
  }

  lemma StuckPodsSorted(pods: seq<Pod>, node: string)
    ensures var all := Sort(TerminatingOn(pods, node), PodLe);
            forall i, j :: 0 <= i < j < |all| ==> PodBefore(all[i], all[j])
  {
    var all := Sort(TerminatingOn(pods, node), PodLe);
    PodLePreorder();
    SortSorted(TerminatingOn(pods, node), PodLe);
    PodLeMeans();
    hide TerminatingOn, Sort, PodLe, PodBefore;
    forall i, j | 0 <= i < j < |all| ensures PodBefore(all[i], all[j]) {
      assert PodLe(all[i], all[j]);
    }
  }

  lemma StuckPodsPrefix(pods: seq<Pod>, node: string)
    ensures var all, stuck := Sort(TerminatingOn(pods, node), PodLe), StuckPods(pods, node);
            && |stuck| <= |all| && stuck == all[..|stuck|] && (|stuck| < |all| ==> |stuck| == 100)
            && (forall p :: p in all <==> p in pods && p.node == node && p.terminating)
  {
    SortMembers(TerminatingOn(pods, node), PodLe);
    TerminatingOnMeans(pods, node);
    hide TerminatingOn, Sort, PodLe;
  }

  /** Those in reach come in order of namespace and name; with more than 100 the first are kept, and
      none is dropped otherwise. */
  lemma StuckPodsAreFirst(pods: seq<Pod>, node: string)
    ensures var stuck := StuckPods(pods, node);
            && (forall i, j :: 0 <= i < j < |stuck| ==> PodBefore(stuck[i], stuck[j]))
            && (forall p, q :: p in stuck && q in pods && q.node == node && q.terminating && q !in stuck ==>
                  |stuck| == 100 && PodBefore(p, q))
    ensures |TerminatingOn(pods, node)| <= 100 ==>
              multiset(StuckPods(pods, node)) == multiset(TerminatingOn(pods, node))
  {
    var all, stuck := Sort(TerminatingOn(pods, node), PodLe), StuckPods(pods, node);
    StuckPodsSorted(pods, node);
    StuckPodsPrefix(pods, node);
    hide TerminatingOn, PodBefore, Sort;
    assert all[..|all|] == all;
    hide StuckPods;
    assert forall k :: 0 <= k < |stuck| ==> stuck[k] == all[k] && all[k] in stuck;
    forall p, q | p in stuck && q in pods && q.node == node && q.terminating && q !in stuck
      ensures |stuck| == 100 && PodBefore(p, q)
    {
      var j :| 0 <= j < |all| && all[j] == q;
      var i :| 0 <= i < |stuck| && stuck[i] == p;
    }
  }

  // ---------------------------------------------------------------- one attempt

  datatype Force = Force(deleted: nat, failed: nat, forbidden: bool, events: seq<Event>)

  /** The state after the first `k` stuck pods; a Forbidden answer ends the attempt. */
  function ForceDeletes(machine: string, stuck: seq<Pod>, k: nat, fate: (string, nat) -> CallResult): Force
    requires k <= |stuck|
  {
    if k == 0 then Force(0, 0, false, [])
    else
      var st := ForceDeletes(machine, stuck, k - 1, fate);
      if st.forbidden then st
      else
        var result := fate(machine, k - 1);
        var st' := st.(events := st.events + [DeletePod(machine, stuck[k - 1], result)]);
        match result
        case Ok => st'.(deleted := st.deleted + 1)
        case NotFound => st'
        case Conflict => st'
        case Forbidden => st'.(forbidden := true)
        case Failed(_) => st'.(failed := st.failed + 1)
  }

  function Seconds(d: int): int { d / SECOND }

  function AttemptReport(revision: int, name: string, tr: Tracking, now: int, f: Force): Event {
    Report(Action(Heal, name, Done,
                  if f.forbidden then UnwedgeForbidden(Seconds(now - tr.deletedAt))
                  else Unwedged(Seconds(now - tr.deletedAt), f.deleted, f.failed, tr.node),
                  revision))
  }

  function AttemptEvents(revision: int, name: string, tr: Tracking, stuck: seq<Pod>, v: View): seq<Event> {
    var f := ForceDeletes(name, stuck, |stuck|, v.podFate);
    [UnwedgeAttempt(name, tr.node, tr.deletedAt, v.now)] + f.events + [AttemptReport(revision, name, tr, v.now, f)]
  }

  lemma {:induction false} ForceDeletesEvents(machine: string, stuck: seq<Pod>, k: nat, fate: (string, nat) -> CallResult)
    requires k <= |stuck|
    ensures forall e :: e in ForceDeletes(machine, stuck, k, fate).events ==>
                          e.DeletePod? && e.machine == machine && e.pod in stuck
  {
    if k > 0 { ForceDeletesEvents(machine, stuck, k - 1, fate); }
  }

  /** Once forbidden, nothing more is deleted. */
  lemma {:induction false} ForbiddenStops(machine: string, stuck: seq<Pod>, i: nat, k: nat, fate: (string, nat) -> CallResult)
    requires i <= k <= |stuck| && ForceDeletes(machine, stuck, i, fate).forbidden
    ensures ForceDeletes(machine, stuck, k, fate) == ForceDeletes(machine, stuck, i, fate)
  {
    if i < k { ForbiddenStops(machine, stuck, i, k - 1, fate); }
  }

  // ---------------------------------------------------------------- when to attempt

  /** The machine of that name (the last listed, as the code's index has it) is being deleted. */
  predicate StillDeleting(v: View, name: string) {
    var byName := IndexBy(v.machines, MachineName);
    name in byName && byName[name].deleting
  }

  predicate NodeDown(v: View, node: string) {
    var byName := IndexBy(v.nodes, NodeName);
    node in byName && !byName[node].ready.ReadyTrue?
  }

  predicate Wedged(v: View, name: string, tr: Tracking) {
    && !tr.attempted && tr.node != ""
    && v.now - tr.deletedAt >= v.evictionTimeout
    && NodeDown(v, tr.node)
    && v.pods(name).Pods? && StuckPods(v.pods(name).pods, tr.node) != []
  }

  // ---------------------------------------------------------------- the pass

  datatype Sweep = Sweep(tracked: Tracked, events: seq<Event>)

  /** One tracked name: forget it when it is no longer deleting, attempt it when wedged. */
  function Visit(s: Sweep, revision: int, name: string, v: View): Sweep {
    if name !in s.tracked then s
    else if !StillDeleting(v, name) then s.(tracked := s.tracked - {name})
    else if Wedged(v, name, s.tracked[name]) then
      var tr := s.tracked[name];
      Sweep(s.tracked[name := tr.(attempted := true)],
            s.events + AttemptEvents(revision, name, tr, StuckPods(v.pods(name).pods, tr.node), v))
    else s
  }

  /** A visit does not look at the events so far, and forgets at most its own name. */
  lemma VisitFresh(s: Sweep, revision: int, name: string, v: View)
    ensures Visit(s, revision, name, v)
         == var own := Visit(s.(events := []), revision, name, v); own.(events := s.events + own.events)
    ensures s.tracked.Keys - {name} <= Visit(s, revision, name, v).tracked.Keys
  {
    hide StillDeleting, Wedged, AttemptEvents;
  }

  /** The pass in the order Go's map iteration happens to take. */
  function SweepAll(tracked: Tracked, revision: int, order: seq<string>, v: View): Sweep {
    if order == [] then Sweep(tracked, [])
    else Visit(SweepAll(tracked, revision, order[..|order| - 1], v), revision, order[|order| - 1], v)
  }

  /** `order` visits every tracked name once. */
  ghost predicate Enumerates(order: seq<string>, tracked: Tracked) {
    && (forall n :: n in order <==> n in tracked)
    && (forall i, j :: 0 <= i < j < |order| ==> order[i] != order[j])
  }

  /** What the pass leaves of the tracking, whatever the iteration order. */
  function Remaining(tracked: Tracked, v: View): Tracked {
    map n | n in tracked && StillDeleting(v, n) ::
      if Wedged(v, n, tracked[n]) then tracked[n].(attempted := true) else tracked[n]
  }

  lemma VisitLeaves(s: Sweep, revision: int, name: string, v: View)
    ensures Visit(s, revision, name, v).tracked
         == if name !in s.tracked then s.tracked
            else if !StillDeleting(v, name) then s.tracked - {name}
            else if Wedged(v, name, s.tracked[name]) then s.tracked[name := s.tracked[name].(attempted := true)]
            else s.tracked
  {
    hide StillDeleting, NodeDown, StuckPods, AttemptEvents;
  }

  lemma {:induction false} SweepPrefix(tracked: Tracked, revision: int, order: seq<string>, v: View)
    requires forall i, j :: 0 <= i < j < |order| ==> order[i] != order[j]
    ensures var t := SweepAll(tracked, revision, order, v).tracked;
            && (forall n :: n in t <==> n in tracked && (n in order ==> StillDeleting(v, n)))
            && (forall n :: n in t ==> t[n] == if n in order && Wedged(v, n, tracked[n])
                                               then tracked[n].(attempted := true) else tracked[n])
  {
    if order != [] {
      var init, last := order[..|order| - 1], order[|order| - 1];
      assert order == init + [last];
      SweepPrefix(tracked, revision, init, v);
      assert last !in init;
      hide Visit, StillDeleting, Wedged;
      VisitLeaves(SweepAll(tracked, revision, init, v), revision, last, v);
    }
  }

  /** The iteration order does not matter to what stays tracked: exactly the names still being
      deleted, with the wedged ones marked as attempted. */
  lemma SweepIsOrderIndependent(tracked: Tracked, revision: int, order: seq<string>, v: View)
    requires Enumerates(order, tracked)
    ensures SweepAll(tracked, revision, order, v).tracked == Remaining(tracked, v)
  {
    SweepPrefix(tracked, revision, order, v);
  }

  // ---------------------------------------------------------------- what a pass may do, and must

  /** A listed machine of that name is going away. */
  ghost predicate GoingAway(v: View, name: string) { exists m :: m in v.machines && m.name == name && m.deleting }

  /** A listed node of that name is anything but Ready. */
  ghost predicate SeenDown(v: View, node: string) { exists n :: n in v.nodes && n.name == node && n.ready != ReadyTrue }

  /** A tracked deletion that hangs: never attempted, on a node, past the timeout, still going away, with
      the node down and a pod terminating there. */
  ghost predicate Hangs(v: View, name: string, tr: Tracking) {
    && !tr.attempted && tr.node != "" && v.now - tr.deletedAt >= v.evictionTimeout
    && GoingAway(v, name) && SeenDown(v, tr.node)
    && v.pods(name).Pods? && exists p :: p in v.pods(name).pods && p.terminating && p.node == tr.node
  }

  lemma DeletingMeans(v: View, name: string)
    ensures StillDeleting(v, name) ==> GoingAway(v, name)
    ensures UniqueBy(v.machines, MachineName) ==> (StillDeleting(v, name) <==> GoingAway(v, name))
  {
    IndexByFinds(v.machines, MachineName, name);
    if UniqueBy(v.machines, MachineName) && GoingAway(v, name) {
      var m :| m in v.machines && m.name == name && m.deleting;
      IndexByUnique(v.machines, MachineName, m);
    }
  }

  lemma DownMeans(v: View, node: string)
    ensures NodeDown(v, node) ==> SeenDown(v, node)
    ensures UniqueBy(v.nodes, NodeName) ==> (NodeDown(v, node) <==> SeenDown(v, node))
  {
    IndexByFinds(v.nodes, NodeName, node);
    if UniqueBy(v.nodes, NodeName) && SeenDown(v, node) {
      var n :| n in v.nodes && n.name == node && n.ready != ReadyTrue;
      IndexByUnique(v.nodes, NodeName, n);
    }
  }

  lemma WedgedMeans(v: View, name: string, tr: Tracking)
    ensures StillDeleting(v, name) && Wedged(v, name, tr) ==> Hangs(v, name, tr)
    ensures UniqueBy(v.machines, MachineName) && UniqueBy(v.nodes, NodeName) ==>
              (StillDeleting(v, name) && Wedged(v, name, tr) <==> Hangs(v, name, tr))
  {
    hide StillDeleting, NodeDown, GoingAway, SeenDown, StuckPods;
    DeletingMeans(v, name);
    DownMeans(v, tr.node);
    if v.pods(name).Pods? { StuckPodsBounded(v.pods(name).pods, tr.node); }
  }

  /** Every attempt was due: a deletion tracked, that hangs. */
  ghost predicate AttemptDue(tracked: Tracked, v: View, e: Event)
    requires e.UnwedgeAttempt?
  {
    && e.machine in tracked && tracked[e.machine] == Tracking(e.node, e.deletedAt, false)
    && Hangs(v, e.machine, tracked[e.machine]) && e.at == v.now
  }

  /** Every pod deletion belongs to a tracked deletion that hangs, and hits a pod listed and terminating
      on its node. */
  ghost predicate PodStuck(tracked: Tracked, v: View, e: Event)
    requires e.DeletePod?
  {
    && e.machine in tracked && Hangs(v, e.machine, tracked[e.machine])
    && e.pod in v.pods(e.machine).pods && e.pod.terminating && e.pod.node == tracked[e.machine].node
  }

  lemma AttemptEventsSound(tracked: Tracked, revision: int, name: string, v: View)
    requires name in tracked && StillDeleting(v, name) && Wedged(v, name, tracked[name])
    ensures var tr := tracked[name];
            forall e :: e in AttemptEvents(revision, name, tr, StuckPods(v.pods(name).pods, tr.node), v) ==>
              && (e.UnwedgeAttempt? ==> AttemptDue(tracked, v, e) && e.machine == name)
              && (e.DeletePod? ==> PodStuck(tracked, v, e) && e.machine == name)
              && (e.Report? ==> e.action.kind == Heal && e.action.status == Done && e.action.target == name
                                && e.action.revision == revision)
              && (e.UnwedgeAttempt? || e.DeletePod? || e.Report?)
  {
    hide Hangs, StuckPods, StillDeleting, NodeDown;
    WedgedMeans(v, name, tracked[name]);
    var stuck := StuckPods(v.pods(name).pods, tracked[name].node);
    StuckPodsBounded(v.pods(name).pods, tracked[name].node);
    ForceDeletesEvents(name, stuck, |stuck|, v.podFate);
  }

  lemma {:induction false} SweepSound(tracked: Tracked, revision: int, order: seq<string>, v: View)
    requires forall i, j :: 0 <= i < j < |order| ==> order[i] != order[j]
    ensures forall e :: e in SweepAll(tracked, revision, order, v).events ==>
              && (e.UnwedgeAttempt? ==> AttemptDue(tracked, v, e))
              && (e.DeletePod? ==> PodStuck(tracked, v, e))
              && (e.Report? ==> e.action.kind == Heal && e.action.status == Done && e.action.revision == revision
                                && GoingAway(v, e.action.target))
              && (e.UnwedgeAttempt? || e.DeletePod? || e.Report?)
  {
    if order != [] {
      var init, last := order[..|order| - 1], order[|order| - 1];
      SweepSound(tracked, revision, init, v);
      SweepPrefix(tracked, revision, init, v);
      var s := SweepAll(tracked, revision, init, v);
      assert last !in init by { assert forall i :: 0 <= i < |init| ==> order[i] != order[|init|]; }
      if last in s.tracked && StillDeleting(v, last) && Wedged(v, last, s.tracked[last]) {
        AttemptEventsSound(tracked, revision, last, v);
        DeletingMeans(v, last);
      }
    }
  }

  // ---------------------------------------------------------------- the attempt, exactly

  predicate Deleted(r: CallResult) { r == Ok }
  predicate Undone(r: CallResult) { r.Failed? }

  /** The answers so far that are of this kind. */
  ghost function Answers(name: string, k: nat, fate: (string, nat) -> CallResult, kind: CallResult -> bool): set<nat> {
    set i: nat | i < k && kind(fate(name, i))
  }

  /** The first `cut` stuck pods are force-deleted, and the counts are those of the answers. */
  ghost predicate ForcedUpTo(f: Force, name: string, stuck: seq<Pod>, cut: nat, fate: (string, nat) -> CallResult)
    requires cut <= |stuck|
  {
    Forced(f.events, name, stuck, cut, fate) && Counted(f, name, cut, fate)
  }

  ghost predicate Forced(events: seq<Event>, name: string, stuck: seq<Pod>, cut: nat, fate: (string, nat) -> CallResult)
    requires cut <= |stuck|
  {
    |events| == cut && forall i: nat :: i < cut ==> events[i] == DeletePod(name, stuck[i], fate(name, i))
  }

  ghost predicate Counted(f: Force, name: string, cut: nat, fate: (string, nat) -> CallResult) {
    && f.deleted == |Answers(name, cut, fate, Deleted)|
    && f.failed == |Answers(name, cut, fate, Undone)|
  }

  lemma CountedNext(f: Force, f': Force, name: string, k: nat, fate: (string, nat) -> CallResult)
    requires Counted(f, name, k, fate)
    requires f'.deleted == f.deleted + if fate(name, k) == Ok then 1 else 0
    requires f'.failed == f.failed + if fate(name, k).Failed? then 1 else 0
    ensures Counted(f', name, k + 1, fate)
  {
    AnswersNext(name, k, fate, Deleted);
    AnswersNext(name, k, fate, Undone);
    hide Answers;
  }

  lemma AnswersNext(name: string, k: nat, fate: (string, nat) -> CallResult, kind: CallResult -> bool)
    ensures |Answers(name, k + 1, fate, kind)| == |Answers(name, k, fate, kind)| + if kind(fate(name, k)) then 1 else 0
  {
    assert Answers(name, k + 1, fate, kind)
        == Answers(name, k, fate, kind) + if kind(fate(name, k)) then {k} else {};
  }

  lemma NoneForced(name: string, stuck: seq<Pod>, fate: (string, nat) -> CallResult)
    ensures ForcedUpTo(ForceDeletes(name, stuck, 0, fate), name, stuck, 0, fate)
  {
    assert Answers(name, 0, fate, Deleted) == {};
    assert Answers(name, 0, fate, Undone) == {};
  }

  lemma ForceStep(name: string, stuck: seq<Pod>, k: nat, fate: (string, nat) -> CallResult)
    requires 0 < k <= |stuck| && !ForceDeletes(name, stuck, k - 1, fate).forbidden
    ensures var f, f', r := ForceDeletes(name, stuck, k - 1, fate), ForceDeletes(name, stuck, k, fate), fate(name, k - 1);
            && f'.events == f.events + [DeletePod(name, stuck[k - 1], r)] && (f'.forbidden <==> r.Forbidden?)
            && f'.deleted == f.deleted + (if r == Ok then 1 else 0)
            && f'.failed == f.failed + if r.Failed? then 1 else 0
  {
  }

  lemma ForcedNext(name: string, stuck: seq<Pod>, k: nat, fate: (string, nat) -> CallResult)
    requires 0 < k <= |stuck| && !ForceDeletes(name, stuck, k - 1, fate).forbidden
    requires ForcedUpTo(ForceDeletes(name, stuck, k - 1, fate), name, stuck, k - 1, fate)
    ensures ForcedUpTo(ForceDeletes(name, stuck, k, fate), name, stuck, k, fate)
    ensures ForceDeletes(name, stuck, k, fate).forbidden <==> fate(name, k - 1).Forbidden?
  {
    ForceStep(name, stuck, k, fate);
    hide Counted, ForceDeletes;
    CountedNext(ForceDeletes(name, stuck, k - 1, fate), ForceDeletes(name, stuck, k, fate), name, k - 1, fate);
  }

  /** The pods are force-deleted one after the other until the first Forbidden answer. */
  lemma {:induction false} ForceUntilForbidden(name: string, stuck: seq<Pod>, k: nat, fate: (string, nat) -> CallResult)
    returns (cut: nat)
    requires k <= |stuck|
    ensures cut <= k && ForcedUpTo(ForceDeletes(name, stuck, k, fate), name, stuck, cut, fate)
    ensures forall i: nat :: i + 1 < cut ==> !fate(name, i).Forbidden?
    ensures if ForceDeletes(name, stuck, k, fate).forbidden then 0 < cut && fate(name, cut - 1).Forbidden?
            else cut == k && forall i: nat :: i < k ==> !fate(name, i).Forbidden?
  {
    if k == 0 {
      NoneForced(name, stuck, fate);
      return 0;
    }
    cut := ForceUntilForbidden(name, stuck, k - 1, fate);
    hide ForcedUpTo;
    if !ForceDeletes(name, stuck, k - 1, fate).forbidden {
      ForcedNext(name, stuck, k, fate);
      cut := k;
    }
  }

  /** An attempt is the marker, the force-deletions up to the first Forbidden answer, and one final report:
      what was forbidden, or how many pods went and how many failed, and after how long. */
  lemma AttemptRun(revision: int, name: string, tr: Tracking, stuck: seq<Pod>, v: View)
    returns (cut: nat, detail: Detail)
    ensures cut <= |stuck| && forall i: nat :: i + 1 < cut ==> !v.podFate(name, i).Forbidden?
    ensures cut < |stuck| ==> 0 < cut && v.podFate(name, cut - 1).Forbidden?
    ensures AttemptEvents(revision, name, tr, stuck, v)
         == [UnwedgeAttempt(name, tr.node, tr.deletedAt, v.now)]
            + seq(cut, i requires 0 <= i < cut => DeletePod(name, stuck[i], v.podFate(name, i)))
            + [Report(Action(Heal, name, Done, detail, revision))]
    ensures if 0 < cut && v.podFate(name, cut - 1).Forbidden? then
              detail.UnwedgeForbidden? && InSeconds(v.now - tr.deletedAt, detail.seconds)
            else
              && detail.Unwedged? && InSeconds(v.now - tr.deletedAt, detail.seconds) && detail.node == tr.node
              && detail.deleted == |Answers(name, cut, v.podFate, Deleted)|
              && detail.failed == |Answers(name, cut, v.podFate, Undone)|
  {
    var f := ForceDeletes(name, stuck, |stuck|, v.podFate);
    cut := ForceUntilForbidden(name, stuck, |stuck|, v.podFate);
    detail := AttemptReport(revision, name, tr, v.now, f).action.detail;
    hide ForceDeletes;
    assert f.events == seq(cut, i requires 0 <= i < cut => DeletePod(name, stuck[i], v.podFate(name, i)));
  }

  /** Somewhere among the events, in one piece. */
  ghost predicate Within(part: seq<Event>, events: seq<Event>) {
    exists a, b :: events == a + part + b
  }

  lemma WithinMore(part: seq<Event>, events: seq<Event>, more: seq<Event>)
    requires Within(part, events)
    ensures Within(part, events + more)
  {
    var a, b :| events == a + part + b;
    assert events + more == a + part + (b + more);
  }

  lemma WithinLast(part: seq<Event>, events: seq<Event>)
    ensures Within(part, events + part)
  {
    assert events + part == events + part + [];
  }

  lemma VisitGrows(s: Sweep, revision: int, name: string, v: View) returns (more: seq<Event>)
    ensures Visit(s, revision, name, v).events == s.events + more
    ensures name in s.tracked && StillDeleting(v, name) && Wedged(v, name, s.tracked[name]) ==>
              more == AttemptEvents(revision, name, s.tracked[name], StuckPods(v.pods(name).pods, s.tracked[name].node), v)
  {
    hide StillDeleting, NodeDown, StuckPods, AttemptEvents;
    more := Visit(s, revision, name, v).events[|s.events|..];
  }

  lemma {:induction false} WedgedAttempted(tracked: Tracked, revision: int, order: seq<string>, v: View, name: string)
    requires forall i, j :: 0 <= i < j < |order| ==> order[i] != order[j]
    requires name in order && name in tracked && StillDeleting(v, name) && Wedged(v, name, tracked[name])
    ensures Within(AttemptEvents(revision, name, tracked[name], StuckPods(v.pods(name).pods, tracked[name].node), v),
                   SweepAll(tracked, revision, order, v).events)
  {
    var init, last := order[..|order| - 1], order[|order| - 1];
    assert order == init + [last];
    SweepPrefix(tracked, revision, init, v);
    hide Visit, StillDeleting, Wedged, StuckPods, AttemptEvents, Within;
    var s := SweepAll(tracked, revision, init, v);
    var more := VisitGrows(s, revision, last, v);
    var part := AttemptEvents(revision, name, tracked[name], StuckPods(v.pods(name).pods, tracked[name].node), v);
    if name == last {
      assert last !in init;
      WithinLast(part, s.events);
    } else {
      WedgedAttempted(tracked, revision, init, v, name);
      WithinMore(part, s.events, more);
    }
  }

  /** A pass attempts exactly the tracked deletions that hang, each as a whole (see AttemptRun), and
      leaves tracked exactly those still going away, with the attempted ones marked. */
  lemma SweepExact(tracked: Tracked, revision: int, order: seq<string>, v: View, name: string)
    requires Enumerates(order, tracked) && UniqueBy(v.machines, MachineName) && UniqueBy(v.nodes, NodeName)
    ensures var s := SweepAll(tracked, revision, order, v);
            && (name in s.tracked <==> name in tracked && GoingAway(v, name))
            && (name in s.tracked ==>
                  s.tracked[name] == tracked[name].(attempted := tracked[name].attempted || Hangs(v, name, tracked[name])))
            && ((exists e :: e in s.events && e.UnwedgeAttempt? && e.machine == name)
                  <==> name in tracked && Hangs(v, name, tracked[name]))
            && (name in tracked && Hangs(v, name, tracked[name]) ==>
                  Within(AttemptEvents(revision, name, tracked[name], StuckPods(v.pods(name).pods, tracked[name].node), v),
                         s.events))
  {
    var s := SweepAll(tracked, revision, order, v);
    SweepIsOrderIndependent(tracked, revision, order, v);
    SweepSound(tracked, revision, order, v);
    DeletingMeans(v, name);
    hide SweepAll, StillDeleting, Wedged, GoingAway, Hangs, StuckPods, AttemptEvents;
    if name in tracked {
      WedgedMeans(v, name, tracked[name]);
      if Hangs(v, name, tracked[name]) {
        WedgedAttempted(tracked, revision, order, v, name);
        AttemptWithin(revision, name, tracked[name], v, s.events);
      }
    }
  }

  lemma AttemptWithin(revision: int, name: string, tr: Tracking, v: View, events: seq<Event>)
    requires v.pods(name).Pods?
    requires Within(AttemptEvents(revision, name, tr, StuckPods(v.pods(name).pods, tr.node), v), events)
    ensures UnwedgeAttempt(name, tr.node, tr.deletedAt, v.now) in events
  {
    hide ForceDeletes, StuckPods;
    var part := AttemptEvents(revision, name, tr, StuckPods(v.pods(name).pods, tr.node), v);
    var a, b :| events == a + part + b;
    assert events[|a|] == part[0];
  }
}
