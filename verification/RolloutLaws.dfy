/** What the upgrade pass guarantees over whole runs against a machine-controller that moves
    between (and during) passes. */
module RolloutLaws {
  import opened Fleet
  import opened Versions
  import opened Scaling
  import opened Rollout

  // ---------------------------------------------------------------- one pass

  function PatchCount(events: seq<Event>): nat {
    if events == [] then 0
    else PatchCount(events[..|events| - 1]) + if events[|events| - 1].PatchKubelet? then 1 else 0
  }

  lemma {:induction false} PatchCountAppend(a: seq<Event>, b: seq<Event>)
    ensures PatchCount(a + b) == PatchCount(a) + PatchCount(b)
  {
    if b == [] {
      assert a + b == a;
    } else {
      assert (a + b)[..|a + b| - 1] == a + b[..|b| - 1];
      PatchCountAppend(a, b[..|b| - 1]);
    }
  }

  lemma PatchCountOf(revision: int, st: PoolStatus, target: string, result: CallResult)
    ensures PatchCount(PatchEvents(revision, st, target, result)) == 1
  {
    var e := PatchEvents(revision, st, target, result);
    assert e[..2][..1] == [e[0]] && e[..1][..0] == [];
    assert PatchCount(e[..1]) == 0 && PatchCount(e[..2]) == 1;
  }

  /** Only a startable pool is patched, to the target, and only while nothing is mid-roll. */
  ghost predicate PatchJustified(statuses: seq<PoolStatus>, target: string, e: Event)
    requires e.PatchKubelet?
  {
    && e.version == target && !AnyMidRoll(statuses)
    && exists i :: 0 <= i < |statuses| && statuses[i].name == e.pool && statuses[i].Startable()
  }

  lemma {:induction false} NoPatches(events: seq<Event>)
    requires forall e :: e in events ==> !e.PatchKubelet?
    ensures PatchCount(events) == 0
  {
    if events != [] {
      assert events[|events| - 1] in events;
      NoPatches(events[..|events| - 1]);
    }
  }

  lemma RollAddedEvents(s: Roll, revision: int, st: PoolStatus, target: string, v: RollView, result: CallResult)
    ensures var added := RollAdded(s, revision, st, target, v, result);
            && PatchCount(added) == (if Starts(s, st) then 1 else 0)
            && (forall e :: e in added ==>
                  && (e.Report? || e.PatchKubelet?)
                  && (e.Report? ==> e.action.kind == Upgrade && e.action.revision == revision)
                  && (e.PatchKubelet? ==> e.pool == st.name && e.version == target && e.result == result && Starts(s, st)))
  {
    if Starts(s, st) { PatchCountOf(revision, st, target, result); }
    else { NoPatches(RollAdded(s, revision, st, target, v, result)); }
  }

  /** What the loop keeps: at most one patch so far, and once there was one (or a pool was
      mid-roll to begin with) no further pool can start. */
  ghost predicate RollInv(s: Roll, revision: int, statuses: seq<PoolStatus>, target: string) {
    && PatchCount(s.events) <= 1
    && (AnyMidRoll(statuses) ==> s.rolling)
    && (s.rolling || s.halted || PatchCount(s.events) == 0)
    && (forall e :: e in s.events ==>
          && (e.Report? || e.PatchKubelet?)
          && (e.Report? ==> e.action.kind == Upgrade && e.action.revision == revision)
          && (e.PatchKubelet? ==> PatchJustified(statuses, target, e)))
  }

  lemma RollStepShape(s: Roll, revision: int, st: PoolStatus, target: string, v: RollView, result: CallResult)
    ensures var s' := RollStep(s, revision, st, target, v, result);
            && s'.events == s.events + RollAdded(s, revision, st, target, v, result)
            && (if Starts(s, st) then s'.rolling || s'.halted else s'.halted == s.halted)
            && (s.rolling ==> s'.rolling) && (!Starts(s, st) ==> s'.rolling == s.rolling)
  {
    hide RollAdded, FromVersion;
  }

  lemma RollStepKeeps(s: Roll, revision: int, statuses: seq<PoolStatus>, i: nat, target: string, v: RollView,
                      result: CallResult)
    requires i < |statuses| && RollInv(s, revision, statuses, target)
    ensures RollInv(RollStep(s, revision, statuses[i], target, v, result), revision, statuses, target)
  {
    hide RollStep, RollAdded, PatchCount;
    var added := RollAdded(s, revision, statuses[i], target, v, result);
    RollStepShape(s, revision, statuses[i], target, v, result);
    RollAddedEvents(s, revision, statuses[i], target, v, result);
    PatchCountAppend(s.events, added);
    forall e | e in added && e.PatchKubelet? ensures PatchJustified(statuses, target, e) {}
  }

  lemma {:induction false} RollAllEvents(rollFrom: RollFrom, revision: int, statuses: seq<PoolStatus>, k: nat,
                                         target: string, v: RollView)
    requires k <= |statuses|
    ensures RollInv(RollAll(rollFrom, revision, statuses, k, target, v), revision, statuses, target)
  {
    hide RollStep, RollAdded;
    if k > 0 {
      hide RollInv;
      var s := RollAll(rollFrom, revision, statuses, k - 1, target, v);
      RollAllEvents(rollFrom, revision, statuses, k - 1, target, v);
      RollStepKeeps(s, revision, statuses, k - 1, target, v, v.fate(k - 1));
      assert RollAll(rollFrom, revision, statuses, k, target, v)
          == RollStep(s, revision, statuses[k - 1], target, v, v.fate(k - 1));
    }
  }

  lemma {:induction false} AbortReportsOnly(revision: int, statuses: seq<PoolStatus>, k: nat, detail: Detail)
    requires k <= |statuses|
    ensures forall e :: e in AbortReports(revision, statuses, k, detail) ==>
              e.Report? && e.action.kind == Upgrade && e.action.revision == revision
  {
    if k > 0 { AbortReportsOnly(revision, statuses, k - 1, detail); }
  }

  lemma {:induction false} CannotListOnly(revision: int, kind: Kind, pools: seq<WorkerPool>, k: nat)
    requires k <= |pools|
    ensures forall e :: e in CannotListAll(revision, kind, pools, k) ==>
              e.Report? && e.action.kind == kind && e.action.revision == revision
  {
    if k > 0 { CannotListOnly(revision, kind, pools, k - 1); }
  }

  /** Both versions can be read, and the observed (major, minor) is not behind the target's. */
  ghost predicate MayRoll(target: string, observed: string) {
    match (ParseMajorMinor(target), ParseMajorMinor(observed))
    case (Some(t), Some(o)) => o.0 > t.0 || (o.0 == t.0 && o.1 >= t.1)
    case _ => false
  }

  lemma ProceedMeans(target: string, observed: string)
    ensures CheckPreflight(target, observed).Proceed? ==> MayRoll(target, observed)
  {
    hide ParseMajorMinor;
  }

  /** A kubelet patch implies the pre-flight: the observed control plane is known and at or above
      the target, the patched pool exists, is a worker pool nobody else manages and declares a
      different version, no pool is mid-roll, and the pass makes no second attempt. */
  lemma PatchImpliesPreflight(rollFrom: RollFrom, doc: Doc, v: RollView)
    ensures var events := RollObserved(rollFrom, doc, v).events;
            && PatchCount(events) <= 1
            && (forall e :: e in events ==>
                  && (e.Report? || e.PatchKubelet?)
                  && (e.Report? ==> e.action.kind == Upgrade && e.action.revision == doc.revision)
                  && (e.PatchKubelet? ==>
                        && PatchJustified(ObserveAll(RollPools(doc.pools), v.mds, v.machines, Target(doc)), Target(doc), e)
                        && MayRoll(Target(doc), v.observed)))
  {
    var target := Target(doc);
    var statuses := ObserveAll(RollPools(doc.pools), v.mds, v.machines, target);
    var check := CheckPreflight(target, v.observed);
    if check.Abort? {
      AbortReportsOnly(doc.revision, statuses, |statuses|, check.detail);
      NoPatches(AbortReports(doc.revision, statuses, |statuses|, check.detail));
    }
    RollAllEvents(rollFrom, doc.revision, statuses, |statuses|, target, v);
    ProceedMeans(target, v.observed);
    hide RollAll, ObserveAll, RollPools, CheckPreflight, MayRoll, AbortReports, PatchCount, Target;
    NeedMeans(statuses);
  }

  /** A pool to be patched needs the pre-flight. */
  lemma NeedMeans(statuses: seq<PoolStatus>)
    ensures (exists i :: 0 <= i < |statuses| && statuses[i].Startable()) ==>
              exists i :: 0 <= i < |statuses| && statuses[i].NeedsRoll()
  {
    if i :| 0 <= i < |statuses| && statuses[i].Startable() { assert statuses[i].NeedsRoll(); }
  }

  /** With nothing mid-roll, the pass gets to the first startable pool and patches it. */
  lemma {:induction false} FirstStartablePatched(rollFrom: RollFrom, revision: int, statuses: seq<PoolStatus>, k: nat,
                                                 first: nat, target: string, v: RollView)
    requires first < |statuses| && k <= |statuses| && !AnyMidRoll(statuses)
    requires statuses[first].Startable() && forall i :: 0 <= i < first ==> !statuses[i].Startable()
    ensures var s := RollAll(rollFrom, revision, statuses, k, target, v);
            && (k <= first ==> !s.halted && !s.rolling)
            && (k > first ==> PatchKubelet(statuses[first].name, target, v.fate(first)) in s.events)
  {
    if k > 0 {
      FirstStartablePatched(rollFrom, revision, statuses, k - 1, first, target, v);
      var s := RollAll(rollFrom, revision, statuses, k - 1, target, v);
      var added := RollAdded(s, revision, statuses[k - 1], target, v, v.fate(k - 1));
      if k - 1 == first {
        assert added[1] == PatchKubelet(statuses[first].name, target, v.fate(first));
        assert added[1] in added;
      }
    }
  }
}
