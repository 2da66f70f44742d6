/** The manager that mirrors the server's verdicts into the resource (internal/inventory/manager.go). */
module InventoryManager {
  import opened Common
  import opened Json
  import opened Inventory
  import opened Fleet

  // ---------------------------------------------------------------- one verdict, as a function

  /** What the manager remembers about the resource: that it exists, that its status carries a
      verdict, and which. */
  datatype Baseline = Baseline(present: bool, recorded: bool, updates: seq<Update>)

  const UNKNOWN: Baseline := Baseline(false, false, [])

  datatype Read = Found(cr: Object) | Missing | Unreadable

  function BaselineOf(r: Read): Baseline {
    match r
    case Found(cr) =>
      Baseline(true, StatusUpdates(cr).Some?, if StatusUpdates(cr).Some? then StatusUpdates(cr).value else [])
    case _ => UNKNOWN
  }

  /** Every entry was nameless: a broken answer, not a clear verdict. */
  predicate Nameless(updates: seq<Update>) { updates != [] && Capped(updates) == [] }

  predicate Skips(b: Baseline, updates: seq<Update>) {
    Nameless(updates) || !b.present || (b.recorded && b.updates == Capped(updates))
  }

  datatype World = World(cr: Option<Object>, base: Baseline)

  /** What handling one verdict does, given how the API server answers the patch. */
  function Handled(w: World, updates: seq<Update>, stamp: string, result: CallResult): World {
    if Skips(w.base, updates) then w
    else
      World(if result.TookEffect() && w.cr.Some? then Some(Patched(w.cr.value, Capped(updates), stamp)) else w.cr,
            match result
            case Ok => Baseline(w.base.present, true, Capped(updates))
            case NotFound => UNKNOWN
            case _ => w.base)
  }

  /** The server acknowledges a patch only of an existing resource, and misses only a missing one. */
  predicate Consistent(cr: Option<Object>, result: CallResult) {
    (result.Ok? ==> cr.Some?) && (result.NotFound? ==> cr.None?)
  }

  // ---------------------------------------------------------------- the objects

  /** The API server's side; `writes` counts the patch requests it received. */
  class Cluster {
    var cr: Option<Object>
    var writes: nat

    constructor (cr: Option<Object>)
      ensures this.cr == cr && writes == 0
    {
      this.cr, writes := cr, 0;
    }

    method PatchStatus(updates: seq<Update>, stamp: string, result: CallResult)
      modifies this
      ensures writes == old(writes) + 1
      ensures cr == if result.TookEffect() && old(cr).Some? then Some(Patched(old(cr).value, updates, stamp)) else old(cr)
    {
      writes := writes + 1;
      if result.TookEffect() && cr.Some? { cr := Some(Patched(cr.value, updates, stamp)); }
    }
  }

  method EqualUpdates(a: seq<Update>, b: seq<Update>) returns (same: bool)
    ensures same == (a == b)
  {
    if |a| != |b| { return false; }
    for i := 0 to |a|
      invariant forall j :: 0 <= j < i ==> a[j] == b[j]
    {
      if a[i] != b[i] { return false; }
    }
    same := true;
  }

  /** `notified` counts the calls of the notify hook, `warnings` the missing-permission warnings. */
  class Manager {
    var inv: Option<Spec>
    var present: bool
    var statusUpdates: seq<Update>
    var statusRecorded: bool
    var warnedRBAC: bool
    var notified: nat
    var warnings: nat

    function Base(): Baseline
      reads this
    {
      Baseline(present, statusRecorded, statusUpdates)
    }

    predicate Valid()
      reads this
    {
      warnings == if warnedRBAC then 1 else 0
    }

    constructor ()
      ensures Valid() && Base() == UNKNOWN && inv == None && notified == 0
    {
      inv, present, statusUpdates, statusRecorded := None, false, [], false;
      warnedRBAC, notified, warnings := false, 0, 0;
    }

    /** Only a change of the spec is worth a heartbeat. */
    method SetState(inv: Option<Spec>, base: Baseline)
      requires Valid()
      modifies this
      ensures Valid() && this.inv == inv && Base() == base && warnedRBAC == old(warnedRBAC)
      ensures notified == old(notified) + if inv != old(this.inv) then 1 else 0
    {
      var changed := this.inv != inv;
      this.inv := inv;
      statusUpdates, statusRecorded, present := base.updates, base.recorded, base.present;
      if changed { notified := notified + 1; }
    }

    /** The second half of a poll: the answer to its GET is taken over. */
    method Fetched(r: Read)
      requires Valid()
      modifies this
      ensures Valid() && Base() == BaselineOf(r) && inv == if r.Found? then ReadSpec(r.cr) else None
      ensures (present <==> r.Found?) && warnedRBAC == old(warnedRBAC)
      ensures if r.Found? && StatusUpdates(r.cr).Some? then statusRecorded && statusUpdates == StatusUpdates(r.cr).value
              else !statusRecorded && statusUpdates == []
      ensures notified == old(notified) + if inv != old(inv) then 1 else 0
    {
      if !r.Found? {
        SetState(None, UNKNOWN);
      } else {
        var updates, recorded := StatusAvailableUpdates(r.cr);
        var spec := SpecInventory(r.cr);
        SetState(spec, Baseline(true, recorded, updates));
      }
    }

    method HandleUpdates(updates: seq<Update>, cluster: Cluster, stamp: string, result: CallResult)
      requires Valid() && Consistent(cluster.cr, result)
      modifies this, cluster
      ensures Valid()
      ensures World(cluster.cr, Base()) == Handled(World(old(cluster.cr), old(Base())), updates, stamp, result)
      ensures cluster.writes == old(cluster.writes) + if Skips(old(Base()), updates) then 0 else 1
      ensures inv == if !Skips(old(Base()), updates) && result.NotFound? then None else old(inv)
      ensures notified == old(notified) + if inv != old(inv) then 1 else 0
      ensures warnedRBAC == (old(warnedRBAC) || (!Skips(old(Base()), updates) && result.Forbidden?))
    {
      hide Patched;
      var capped := CapUpdates(updates);
      if |capped| == 0 && |updates| > 0 { return; }
      if !present { return; }
      var same := EqualUpdates(statusUpdates, capped);
      if statusRecorded && same { return; }
      cluster.PatchStatus(capped, stamp, result);
      match result {
        case Ok => statusUpdates, statusRecorded := capped, true;
        case Forbidden =>
          if !warnedRBAC { warnings := warnings + 1; }
          warnedRBAC := true;
        case NotFound => SetState(None, UNKNOWN);
        case Conflict =>
        case Failed(_) =>
      }
    }
  }

  // ---------------------------------------------------------------- two goroutines

  /** Where the verdict in hand stands: checked and about to be patched, or answered and not recorded. */
  datatype Phase =
    | Idle
    | Considered(updates: seq<Update>, stamp: string)
    | Answered(updates: seq<Update>, result: CallResult)

  /** `read` is a poll's answer not yet taken over, and `landed` the last list a verdict has written
      since that read. */
  datatype Race = Race(w: World, read: Option<Read>, landed: Option<seq<Update>>, phase: Phase)

  /** The poll's GET and its take-over, a verdict's check, patch and record, a restart of the agent,
      and a deployment by the user's own tool, which writes the spec and leaves the status alone. */
  datatype Op =
    | Ask(readable: bool)
    | TakeOver
    | Consider(updates: seq<Update>, stamp: string)
    | Patch(result: CallResult)
    | Record
    | Restart
    | Deploy(cr: Object)

  predicate Enabled(s: Race, op: Op) {
    match op
    case Ask(_) => s.read.None?
    case TakeOver => s.read.Some?
    case Consider(_, _) => s.phase.Idle?
    case Patch(_) => s.phase.Considered?
    case Record => s.phase.Answered?
    case _ => true
  }

  function Answer(cr: Option<Object>, readable: bool): Read {
    if !readable then Unreadable else if cr.Some? then Found(cr.value) else Missing
  }

  /** A patch that takes effect; the reader of a pending answer does not see it. */
  function Landed(s: Race): Race
    requires s.phase.Considered?
  {
    var capped := Capped(s.phase.updates);
    if s.w.cr.None? then s
    else s.(w := s.w.(cr := Some(Patched(s.w.cr.value, capped, s.phase.stamp))),
            landed := if s.read.Some? then Some(capped) else None)
  }

  function Recorded(base: Baseline, updates: seq<Update>, result: CallResult): Baseline {
    match result
    case Ok => Baseline(base.present, true, Capped(updates))
    case NotFound => UNKNOWN
    case _ => base
  }

  function Do(s: Race, op: Op): Race {
    if !Enabled(s, op) then s
    else match op
      case Ask(readable) => s.(read := Some(Answer(s.w.cr, readable)), landed := None)
      case TakeOver => s.(w := s.w.(base := BaselineOf(s.read.value)), read := None, landed := None)
      case Consider(updates, stamp) =>
        if Skips(s.w.base, updates) then s else s.(phase := Considered(updates, stamp))
      case Patch(result) =>
        (if result.TookEffect() then Landed(s) else s).(phase := Answered(s.phase.updates, result))
      case Record =>
        s.(w := s.w.(base := Recorded(s.w.base, s.phase.updates, s.phase.result)), phase := Idle)
      case Restart => Race(s.w.(base := UNKNOWN), None, None, Idle)
      case Deploy(cr) => s.(w := s.w.(cr := Some(cr)))
  }

  function DoAll(s: Race, ops: seq<Op>): Race {
    if ops == [] then s else Do(DoAll(s, ops[..|ops| - 1]), ops[|ops| - 1])
  }

  function Begin(w: World): Race { Race(w, None, None, Idle) }

  lemma DoNext(s: Race, ops: seq<Op>, op: Op)
    ensures DoAll(s, ops + [op]) == Do(DoAll(s, ops), op)
  {
    assert (ops + [op])[..|ops|] == ops;
  }

  /** Undisturbed, the three steps of a verdict are what handling it does. */
  lemma VerdictIsThreeSteps(w: World, updates: seq<Update>, stamp: string, result: CallResult)
    ensures DoAll(Begin(w), [Consider(updates, stamp), Patch(result), Record]) == Begin(Handled(w, updates, stamp, result))
  {
    hide Patched, Capped;
    var ops := [Consider(updates, stamp), Patch(result), Record];
    assert ops == [] + [ops[0]] + [ops[1]] + [ops[2]];
    DoNext(Begin(w), [], ops[0]);
    DoNext(Begin(w), [] + [ops[0]], ops[1]);
    DoNext(Begin(w), [] + [ops[0]] + [ops[1]], ops[2]);
  }

  // ---------------------------------------------------------------- the memory mirrors the resource

  /** The memory agrees with the resource: the status holds the remembered list, or none when none is
      remembered. */
  ghost predicate Mirror(w: World) {
    w.base.present ==>
      w.cr.Some? && match StatusUpdates(w.cr.value)
                    case Some(list) => w.base.recorded && w.base.updates == list
                    case None => !w.base.recorded && w.base.updates == []
  }

  /** A verdict is passed over exactly when it is all nameless, there is no resource to write to, or the memory
      holds it already; otherwise its capped form is sent. */
  lemma SkipsIff(b: Baseline, updates: seq<Update>)
    ensures Skips(b, updates) <==>
              || (updates != [] && forall u :: u in updates ==> u.name == "")
              || !b.present || (b.recorded && b.updates == Capped(updates))
  {
    CappedBounds(updates);
  }

  /** Only an accepted write is remembered, only a missing resource makes the memory forget, and whatever
      else the answer is, the memory stays; the resource gets the capped list as far as the write took effect. */
  lemma HandledSays(w: World, updates: seq<Update>, stamp: string, result: CallResult)
    requires !Skips(w.base, updates)
    ensures var w' := Handled(w, updates, stamp, result);
            && (result == Ok ==> w'.base.present && w'.base.recorded && w'.base.updates == Capped(updates))
            && (result == NotFound ==> !w'.base.present && !w'.base.recorded && w'.base.updates == [])
            && (result != Ok && result != NotFound ==> w'.base == w.base)
            && (w'.cr.None? <==> w.cr.None?)
            && (w.cr.Some? && (result == Ok || result == Failed(true)) ==>
                  StatusUpdates(w'.cr.value) == Some(Capped(updates)))
            && (result != Ok && result != Failed(true) ==> w'.cr == w.cr)
  {
    hide Patched, Capped;
    CappedNamed(updates);
    if w.cr.Some? { StatusRoundTrip(w.cr.value, Capped(updates), stamp); }
  }

  /** A verdict has written another list since the pending answer was read. */
  predicate Overtaken(s: Race) {
    s.read.Some? && s.read.value.Found? && s.landed.Some? && StatusUpdates(s.read.value.cr) != s.landed
  }

  /** A patch has succeeded and waits to be recorded. */
  predicate Unrecorded(s: Race) { s.phase.Answered? && s.phase.result.Ok? }

  /** One writer of the status, and no patch that takes effect although it is reported as failed. */
  ghost predicate OneWriter(s: Race, op: Op) {
    && Enabled(s, op)
    && match op
       case Patch(result) => Consistent(s.w.cr, result) && (result.Failed? ==> !result.tookEffect)
       case Deploy(cr) => s.w.cr.Some? ==> Get(cr, "status") == Get(s.w.cr.value, "status")
       case _ => true
  }

  /** And no overtaken answer is taken over, unless the record of the verdict is still to come. */
  ghost predicate Honest(s: Race, op: Op) {
    OneWriter(s, op) && (op.TakeOver? ==> !Overtaken(s) || Unrecorded(s))
  }

  ghost predicate AllHonest(s: Race, ops: seq<Op>) {
    ops == [] || (AllHonest(s, ops[..|ops| - 1]) && Honest(DoAll(s, ops[..|ops| - 1]), ops[|ops| - 1]))
  }

  /** What the pending answer and the pending record say about the resource. */
  ghost predicate Tracks(s: Race) {
    && (s.read.Some? && s.read.value.Found? ==>
          s.w.cr.Some?
          && StatusUpdates(s.w.cr.value) == if s.landed.Some? then s.landed else StatusUpdates(s.read.value.cr))
    && (Unrecorded(s) ==> s.w.cr.Some? && StatusUpdates(s.w.cr.value) == Some(Capped(s.phase.updates)))
    && (s.w.cr.None? ==> !s.w.base.present)
  }

  ghost predicate AllOneWriter(s: Race, ops: seq<Op>) {
    ops == [] || (AllOneWriter(s, ops[..|ops| - 1]) && OneWriter(DoAll(s, ops[..|ops| - 1]), ops[|ops| - 1]))
  }

  lemma CappedNamed(updates: seq<Update>)
    ensures forall u :: u in Capped(updates) ==> u.name != ""
  {
    CappedBounds(updates);
  }

  lemma DoTracks(s: Race, op: Op)
    requires Tracks(s) && OneWriter(s, op)
    ensures Tracks(Do(s, op))
  {
    hide Patched, Capped;
    match op
    case Patch(result) =>
      if result.Ok? {
        CappedNamed(s.phase.updates);
        StatusRoundTrip(s.w.cr.value, Capped(s.phase.updates), s.phase.stamp);
      }
    case _ =>
  }

  lemma {:induction false} AlwaysTracks(s: Race, ops: seq<Op>)
    requires Tracks(s) && AllOneWriter(s, ops)
    ensures Tracks(DoAll(s, ops))
  {
    if ops != [] {
      hide Do, Tracks, OneWriter;
      AlwaysTracks(s, ops[..|ops| - 1]);
      DoTracks(DoAll(s, ops[..|ops| - 1]), ops[|ops| - 1]);
    }
  }

  /** In every run with one writer, taking over a poll's answer leaves the memory right exactly when no
      verdict has written another list since the answer was read. */
  lemma TakeOverMirrorsIff(w: World, ops: seq<Op>)
    requires (w.cr.None? ==> !w.base.present) && AllOneWriter(Begin(w), ops)
    requires DoAll(Begin(w), ops).read.Some?
    ensures Mirror(DoAll(Begin(w), ops + [TakeOver]).w) <==> !Overtaken(DoAll(Begin(w), ops))
  {
    AlwaysTracks(Begin(w), ops);
    DoNext(Begin(w), ops, TakeOver);
    hide DoAll;
  }

  lemma DoKeepsMirror(s: Race, op: Op)
    requires Tracks(s) && (!Unrecorded(s) ==> Mirror(s.w)) && Honest(s, op)
    ensures !Unrecorded(Do(s, op)) ==> Mirror(Do(s, op).w)
  {
    hide Patched, Capped;
  }

  lemma {:induction false} HonestIsOneWriter(s: Race, ops: seq<Op>)
    requires AllHonest(s, ops)
    ensures AllOneWriter(s, ops)
  {
    if ops != [] { HonestIsOneWriter(s, ops[..|ops| - 1]); }
  }

  /** However polls and verdicts interleave, the memory agrees with the resource at every moment at
      which no successful patch waits to be recorded. */
  lemma {:induction false} AlwaysMirror(w: World, ops: seq<Op>)
    requires Mirror(w) && AllHonest(Begin(w), ops)
    ensures !Unrecorded(DoAll(Begin(w), ops)) ==> Mirror(DoAll(Begin(w), ops).w)
  {
    if ops != [] {
      hide Do, Mirror, OneWriter, Tracks, Overtaken, Unrecorded;
      var init := ops[..|ops| - 1];
      AlwaysMirror(w, init);
      HonestIsOneWriter(Begin(w), init);
      MirrorTracks(w);
      AlwaysTracks(Begin(w), init);
      DoKeepsMirror(DoAll(Begin(w), init), ops[|ops| - 1]);
    }
  }

  lemma MirrorTracks(w: World)
    requires Mirror(w)
    ensures Tracks(Begin(w))
  {
  }

  /** After any honest run, a verdict whose patch succeeds leaves the status equal to the capped verdict
      as an explicit list; repeating it, even after a restart and a poll, writes nothing; and the first
      verdict on a status that never held one always writes. */
  lemma VerdictMirrored(cr: Option<Object>, ops: seq<Op>, updates: seq<Update>, stamp: string)
    requires AllHonest(Begin(World(cr, UNKNOWN)), ops) && DoAll(Begin(World(cr, UNKNOWN)), ops).phase.Idle?
    requires var w := DoAll(Begin(World(cr, UNKNOWN)), ops).w; w.base.present && !Nameless(updates)
    ensures var w := DoAll(Begin(World(cr, UNKNOWN)), ops).w;
            var w' := Handled(w, updates, stamp, Ok);
            && w.cr.Some? && w'.cr.Some?
            && StatusUpdates(w'.cr.value) == Some(Capped(updates))
            && Skips(w'.base, updates) && Skips(DoAll(Begin(w'), [Restart, Ask(true), TakeOver]).w.base, updates)
            && (StatusUpdates(w.cr.value).None? ==> !Skips(w.base, updates))
  {
    AlwaysMirror(World(cr, UNKNOWN), ops);
    var w := DoAll(Begin(World(cr, UNKNOWN)), ops).w;
    VerdictOnMirror(w, updates, stamp);
    PollAfterRestart(Handled(w, updates, stamp, Ok));
  }

  lemma VerdictOnMirror(w: World, updates: seq<Update>, stamp: string)
    requires Mirror(w) && w.base.present && !Nameless(updates)
    ensures var w' := Handled(w, updates, stamp, Ok);
            && w.cr.Some? && w'.cr.Some? && StatusUpdates(w'.cr.value) == Some(Capped(updates))
            && Skips(w'.base, updates) && Skips(BaselineOf(Found(w'.cr.value)), updates)
            && (StatusUpdates(w.cr.value).None? ==> !Skips(w.base, updates))
  {
    hide Patched, Capped;
    CappedNamed(updates);
    if !Skips(w.base, updates) { StatusRoundTrip(w.cr.value, Capped(updates), stamp); }
  }

  lemma PollSees(w: World)
    requires w.cr.Some?
    ensures DoAll(Begin(w), [Ask(true), TakeOver]) == Begin(w.(base := BaselineOf(Found(w.cr.value))))
  {
    var ops := [Ask(true), TakeOver];
    assert ops == [] + [ops[0]] + [ops[1]];
    DoNext(Begin(w), [], ops[0]);
    DoNext(Begin(w), [] + [ops[0]], ops[1]);
  }

  lemma PollAfterRestart(w: World)
    requires w.cr.Some?
    ensures DoAll(Begin(w), [Restart, Ask(true), TakeOver]) == Begin(w.(base := BaselineOf(Found(w.cr.value))))
  {
    var ops := [Restart, Ask(true), TakeOver];
    assert ops == [] + [ops[0]] + [ops[1]] + [ops[2]];
    DoNext(Begin(w), [], ops[0]);
    DoNext(Begin(w), [] + [ops[0]], ops[1]);
    DoNext(Begin(w), [] + [ops[0]] + [ops[1]], ops[2]);
  }

  /** An all-nameless verdict changes nothing. */
  lemma NamelessChangesNothing(w: World, updates: seq<Update>, stamp: string, result: CallResult)
    requires updates != [] && forall u :: u in updates ==> u.name == ""
    ensures Handled(w, updates, stamp, result) == w
  {
    CappedBounds(updates);
  }

  // ---------------------------------------------------------------- how the mirror breaks

  /** A verdict whose patch would succeed is mirrored exactly when the memory does not already claim
      it, or claims it rightly. */
  lemma VerdictMirroredIff(w: World, updates: seq<Update>, stamp: string)
    requires w.cr.Some? && w.base.present && !Nameless(updates)
    ensures StatusUpdates(Handled(w, updates, stamp, Ok).cr.value) == Some(Capped(updates))
            <==> (w.base.recorded && w.base.updates == Capped(updates) ==>
                    StatusUpdates(w.cr.value) == Some(Capped(updates)))
  {
    hide Patched, Capped;
    CappedNamed(updates);
    if !Skips(w.base, updates) { StatusRoundTrip(w.cr.value, Capped(updates), stamp); }
  }

  /** The run in which a poll reads the first verdict, the second is written, then the poll's answer is
      taken over. */
  function OvertakenRun(second: seq<Update>, stamp: string): seq<Op> {
    [Ask(true), Consider(second, stamp), Patch(Ok), Record, TakeOver]
  }

  /** Where its steps lead, one after the other. */
  lemma OvertakenSteps(cr: Object, written: Object, second: seq<Update>, stamp: string)
    requires !Skips(BaselineOf(Found(cr)), second) && written == Patched(cr, Capped(second), stamp)
    ensures var base, list := BaselineOf(Found(cr)), Some(Capped(second));
            var read := Some(Found(cr));
            var claimed := Baseline(base.present, true, Capped(second));
            var s := Race(World(Some(cr), base), read, None, Idle);
            && Do(Begin(World(Some(cr), base)), Ask(true)) == s
            && Do(s, Consider(second, stamp)) == s.(phase := Considered(second, stamp))
            && Do(s.(phase := Considered(second, stamp)), Patch(Ok))
                 == Race(World(Some(written), base), read, list, Answered(second, Ok))
            && Do(Race(World(Some(written), base), read, list, Answered(second, Ok)), Record)
                 == Race(World(Some(written), claimed), read, list, Idle)
            && Do(Race(World(Some(written), claimed), read, list, Idle), TakeOver) == Begin(World(Some(written), base))
  {
    hide Patched, Capped, StatusUpdates, Skips;
  }

  /** It has one writer, and it ends in the resource with the second verdict and the memory of before. */
  lemma OvertakenEnds(cr: Object, written: Object, second: seq<Update>, stamp: string)
    requires !Skips(BaselineOf(Found(cr)), second) && written == Patched(cr, Capped(second), stamp)
    ensures var before := Begin(World(Some(cr), BaselineOf(Found(cr))));
            && AllOneWriter(before, OvertakenRun(second, stamp))
            && DoAll(before, OvertakenRun(second, stamp)) == Begin(World(Some(written), BaselineOf(Found(cr))))
  {
    hide Do, Patched, Capped, StatusUpdates, Skips, BaselineOf;
    var before, ops := Begin(World(Some(cr), BaselineOf(Found(cr)))), OvertakenRun(second, stamp);
    OvertakenSteps(cr, written, second, stamp);
    OneStep(before, ops, 0);
    OneStep(before, ops, 1);
    OneStep(before, ops, 2);
    OneStep(before, ops, 3);
    OneStep(before, ops, 4);
    assert ops[..5] == ops && ops[..0] == [];
    hide DoAll, AllOneWriter;
  }

  /** With one writer throughout, that run ends with a memory that claims the first verdict: a
      repetition of the first is swallowed and the status keeps showing the second. */
  lemma OvertakenPollSwallows(cr: Object, first: seq<Update>, second: seq<Update>, stamp: string)
    requires StatusUpdates(cr) == Some(Capped(first)) && Capped(first) != Capped(second)
    requires !Nameless(first) && !Nameless(second)
    ensures var before := Begin(World(Some(cr), BaselineOf(Found(cr))));
            var after := DoAll(before, OvertakenRun(second, stamp));
            && AllOneWriter(before, OvertakenRun(second, stamp)) && Mirror(before.w) && !Mirror(after.w)
            && after.w.cr.Some? && StatusUpdates(after.w.cr.value) == Some(Capped(second))
            && Do(after, Consider(first, stamp)) == after
  {
    CappedNamed(second);
    StatusRoundTrip(cr, Capped(second), stamp);
    hide Patched, Capped, StatusUpdates, DoAll, AllOneWriter;
    OvertakenEnds(cr, Patched(cr, Capped(second), stamp), second, stamp);
  }

  lemma OneStep(s: Race, ops: seq<Op>, k: nat)
    requires k < |ops|
    ensures DoAll(s, ops[..k + 1]) == Do(DoAll(s, ops[..k]), ops[k])
    ensures AllOneWriter(s, ops[..k + 1]) <==> AllOneWriter(s, ops[..k]) && OneWriter(DoAll(s, ops[..k]), ops[k])
  {
    hide Do, OneWriter;
    assert ops[..k + 1][..k] == ops[..k];
  }

  /** A patch that takes effect although it is reported as failed does the same, until the next poll. */
  lemma LostAcknowledgementSwallows(cr: Object, first: seq<Update>, second: seq<Update>, stamp: string)
    requires StatusUpdates(cr) == Some(Capped(first)) && Capped(first) != Capped(second)
    requires !Nameless(first) && !Nameless(second)
    ensures var before := World(Some(cr), BaselineOf(Found(cr)));
            var lost := Handled(before, second, stamp, Failed(true));
            && StatusUpdates(lost.cr.value) == Some(Capped(second)) && !Mirror(lost)
            && Handled(lost, first, stamp, Ok) == lost
            && Mirror(DoAll(Begin(lost), [Ask(true), TakeOver]).w)
  {
    hide Patched, Capped;
    CappedNamed(second);
    StatusRoundTrip(cr, Capped(second), stamp);
    PollSees(Handled(World(Some(cr), BaselineOf(Found(cr))), second, stamp, Failed(true)));
  }
}
