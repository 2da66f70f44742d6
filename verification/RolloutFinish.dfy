/** The rollout completes: on every run in which the executor keeps getting good passes every pool
    is eventually started, and on every run in which the machine controller keeps closing the gap of
    a rolling pool and the executor keeps trying, it completes. */
module RolloutFinish {
  import opened Common
  import opened Fleet
  import opened Versions
  import opened Rollout
  import opened RolloutLaws
  import opened RolloutRuns
  import opened RolloutSafety

  /** The pools still to be started. */
  ghost function ToStart(c: Cluster, doc: Doc): set<string> {
    set n | n in DesiredNames(doc) && At(c, doc, n).Startable()
  }

  lemma StartableAfter(c: Cluster, events: seq<Event>, doc: Doc, n: string)
    requires WellFormed(c) && TargetOnly(doc, events)
    ensures At(Effect(c, events), doc, n).Startable() <==> At(c, doc, n).Startable() && !RolledBy(events, n)
  {
    hide Target, SameVersion, CountPool, Effect;
    StatusAfter(c, events, doc, n);
    AtTargetMeans(c, doc, n);
    AtTargetMeans(Effect(c, events), doc, n);
    SameAsItself(Target(doc));
  }

  lemma SameAsItself(v: string)
    ensures SameVersion(v, v)
  {
  }

  /** A pool stays to be started until a patch of it takes effect, whatever else happens. */
  lemma ToStartNext(c: Cluster, doc: Doc, s: Step, c': Cluster)
    requires Moves(c, doc, s, c')
    ensures ToStart(c', doc)
         == if s.Env? then ToStart(c, doc) else set n | n in ToStart(c, doc) && !RolledBy(s.events, n)
  {
    hide Target, Effect, At;
    forall n | n in DesiredNames(doc)
      ensures n in ToStart(c', doc) <==> n in ToStart(c, doc) && (s.Act? ==> !RolledBy(s.events, n))
    {
      if s.Env? {
        EnvKeeps(c, c', doc, n);
      } else {
        EnvKeeps(c, s.live, doc, n);
        StageTargetOnly(c, doc, s);
        StartableAfter(s.live, s.events, doc, n);
      }
    }
  }

  // ---------------------------------------------------------------- a good pass

  /** A rolling stage that gets its listings, behind a sufficient control plane, whose patch is accepted. */
  ghost predicate AbleWith(c: Cluster, doc: Doc, s: Step, i: Inputs) {
    && s.Act? && s.stage.Rolls? && Lists(c, doc, Rolls, i) && s.events == StageEvents(Rolls, doc, i)
    && Reads(doc, i) && CheckPreflight(Target(doc), i.view.observed).Proceed?
    && forall k: nat :: i.view.rollFate(k).Ok?
  }

  ghost predicate Able(c: Cluster, doc: Doc, s: Step) { exists i :: AbleWith(c, doc, s, i) }

  /** Such a stage with nothing mid-roll. */
  ghost predicate GoodPass(c: Cluster, doc: Doc, s: Step) { Able(c, doc, s) && MidRollNames(c, doc) == {} }

  lemma LeastStartable(statuses: seq<PoolStatus>, i: nat) returns (first: nat)
    requires i < |statuses| && statuses[i].Startable()
    ensures first <= i && statuses[first].Startable() && forall j :: 0 <= j < first ==> !statuses[j].Startable()
  {
    first := 0;
    while !statuses[first].Startable()
      invariant first <= i && forall j :: 0 <= j < first ==> !statuses[j].Startable()
      decreases i - first
    {
      first := first + 1;
    }
  }

  lemma NoMidRollStatuses(c: Cluster, doc: Doc)
    requires MidRollNames(c, doc) == {}
    ensures !AnyMidRoll(ObserveAll(RollPools(doc.pools), c.mds, c.machines, Target(doc)))
  {
    var pools := RollPools(doc.pools);
    var statuses := ObserveAll(pools, c.mds, c.machines, Target(doc));
    forall i | 0 <= i < |statuses| ensures !statuses[i].MidRoll() {
      assert pools[i] in pools && statuses[i] == At(c, doc, pools[i].name);
      assert pools[i].name in DesiredNames(doc);
      assert pools[i].name !in MidRollNames(c, doc);
    }
  }

  /** Behind a sufficient control plane the stage goes on to the rolling loop. */
  lemma ProceedingPass(c: Cluster, doc: Doc, s: Step, i: Inputs)
    requires AbleWith(c, doc, s, i) && RollPools(doc.pools) != []
    ensures var statuses := ObserveAll(RollPools(doc.pools), c.mds, c.machines, Target(doc));
            s.events == RollAll(i.memory.rollFrom, doc.revision, statuses, |statuses|, Target(doc), ViewOf(c, i)).events
    ensures IsRoll(c, doc, s)
  {
    hide StageEvents, RollPools, Target, ObserveAll, RollAll, Lists, Behaves;
    RollStageEvents(c, doc, i);
    StageBehaves(c, doc, Rolls, i);
    assert Target(doc) != "";
  }

  /** A good pass starts a roll whenever there is one to start. */
  lemma GoodPassRolls(c: Cluster, doc: Doc, s: Step) returns (n: string)
    requires GoodPass(c, doc, s) && ToStart(c, doc) != {}
    ensures s.Act? && n in ToStart(c, doc) && RolledBy(s.events, n)
  {
    hide Observe, RollPools, Target, RollAll, CheckPreflight, StageEvents, Lists, Behaves;
    var i :| AbleWith(c, doc, s, i);
    var statuses := ObserveAll(RollPools(doc.pools), c.mds, c.machines, Target(doc));
    var any :| any in ToStart(c, doc);
    DesiredStatus(c, doc, any);
    var at: nat :| 0 <= at < |statuses| && statuses[at] == At(c, doc, any);
    var first := LeastStartable(statuses, at);
    NoMidRollStatuses(c, doc);
    FirstStartablePatched(i.memory.rollFrom, doc.revision, statuses, |statuses|, first, Target(doc), ViewOf(c, i));
    ProceedingPass(c, doc, s, i);
    n := statuses[first].name;
    PatchingPass(c, doc, s, PatchKubelet(n, Target(doc), i.view.rollFate(first)));
  }

  lemma Shrinks(c: Cluster, doc: Doc, s: Step, c': Cluster, n: string)
    requires Moves(c, doc, s, c') && s.Act? && n in ToStart(c, doc) && RolledBy(s.events, n)
    ensures |ToStart(c', doc)| < |ToStart(c, doc)|
  {
    ToStartNext(c, doc, s, c');
    hide Moves, RolledBy;
    var before, after := ToStart(c, doc), ToStart(c', doc);
    assert after <= before - {n};
    SubsetSize(after, before - {n});
  }

  lemma NeverGrows(c: Cluster, doc: Doc, s: Step, c': Cluster)
    requires Moves(c, doc, s, c')
    ensures ToStart(c', doc) <= ToStart(c, doc) && |ToStart(c', doc)| <= |ToStart(c, doc)|
  {
    ToStartNext(c, doc, s, c');
    hide Moves, RolledBy;
    assert ToStart(c', doc) <= ToStart(c, doc);
    SubsetSize(ToStart(c', doc), ToStart(c, doc));
  }

  // ---------------------------------------------------------------- completion

  /** Every manageable desired pool that declares a version has converged on the target. */
  ghost predicate RolledOut(c: Cluster, doc: Doc) {
    forall n :: n in DesiredNames(doc) && At(c, doc, n).Manageable() && At(c, doc, n).current != "" ==>
                  At(c, doc, n).Converged()
  }

  /** That is: nothing is mid-roll and nothing is left to start. */
  lemma RolledOutIff(c: Cluster, doc: Doc)
    ensures RolledOut(c, doc) <==> ToStart(c, doc) == {} && MidRollNames(c, doc) == {}
  {
    if ToStart(c, doc) == {} && MidRollNames(c, doc) == {} {
      forall n | n in DesiredNames(doc) && At(c, doc, n).Manageable() && At(c, doc, n).current != ""
        ensures At(c, doc, n).Converged()
      {
        assert n !in ToStart(c, doc) && n !in MidRollNames(c, doc);
      }
    }
    if RolledOut(c, doc) {
      forall n | n in DesiredNames(doc) ensures n !in ToStart(c, doc) && n !in MidRollNames(c, doc) {
        AtTargetMeans(c, doc, n);
      }
    }
  }

  /** An endless run. */
  ghost predicate Endless(run: nat -> Cluster, doc: Doc, steps: nat -> Step) {
    forall i: nat :: Next(run(i), doc, steps(i), run(i + 1))
  }

  lemma EndlessMoves(run: nat -> Cluster, doc: Doc, steps: nat -> Step, i: nat)
    requires Endless(run, doc, steps)
    ensures Moves(run(i), doc, steps(i), run(i + 1))
  {
    hide Next, Moves;
    assert Next(run(i), doc, steps(i), run(i + 1));
    NextMoves(run(i), doc, steps(i), run(i + 1));
  }

  ghost predicate GoodAt(run: nat -> Cluster, doc: Doc, steps: nat -> Step, i: nat) {
    GoodPass(run(i), doc, steps(i))
  }

  lemma {:induction false} NeverGrowsTo(run: nat -> Cluster, doc: Doc, steps: nat -> Step, i: nat, j: nat)
    requires Endless(run, doc, steps) && i <= j
    ensures |ToStart(run(j), doc)| <= |ToStart(run(i), doc)|
    decreases j - i
  {
    hide ToStart, Moves, Endless;
    if i < j {
      NeverGrowsTo(run, doc, steps, i, j - 1);
      EndlessMoves(run, doc, steps, j - 1);
      NeverGrows(run(j - 1), doc, steps(j - 1), run(j));
    }
  }

  lemma GoodAdvances(run: nat -> Cluster, doc: Doc, steps: nat -> Step, g: nat)
    requires Endless(run, doc, steps) && GoodAt(run, doc, steps, g)
    ensures if ToStart(run(g), doc) == {} then RolledOut(run(g), doc)
            else |ToStart(run(g + 1), doc)| < |ToStart(run(g), doc)|
  {
    hide ToStart, MidRollNames, Endless, RolledOut, Able;
    RolledOutIff(run(g), doc);
    if ToStart(run(g), doc) != {} { AbleShrinks(run, doc, steps, g); }
  }

  lemma AbleShrinks(run: nat -> Cluster, doc: Doc, steps: nat -> Step, t: nat)
    requires Endless(run, doc, steps) && Able(run(t), doc, steps(t))
    requires MidRollNames(run(t), doc) == {} && ToStart(run(t), doc) != {}
    ensures |ToStart(run(t + 1), doc)| < |ToStart(run(t), doc)|
  {
    hide MidRollNames, ToStart, Moves, Endless, Able;
    EndlessMoves(run, doc, steps, t);
    var n := GoodPassRolls(run(t), doc, steps(t));
    Shrinks(run(t), doc, steps(t), run(t + 1), n);
  }

  /** Whatever else happens in between (failed passes, passes while a pool rolls, scaling, healing, an
      idle or busy controller): if good passes keep coming, the rollout is complete some time. */
  lemma {:induction false} RecurringPassesFinish(run: nat -> Cluster, doc: Doc, steps: nat -> Step,
                                                 good: nat -> nat, k: nat) returns (done: nat)
    requires Endless(run, doc, steps)
    requires forall i: nat :: good(i) >= i && GoodAt(run, doc, steps, good(i))
    ensures done >= k && RolledOut(run(done), doc)
    decreases |ToStart(run(k), doc)|
  {
    var g := good(k);
    assert g >= k && GoodAt(run, doc, steps, g);
    hide *;
    NeverGrowsTo(run, doc, steps, k, g);
    GoodAdvances(run, doc, steps, g);
    if ToStart(run(g), doc) == {} { return g; }
    done := RecurringPassesFinish(run, doc, steps, good, g + 1);
  }

  /** The good passes among the first `i` steps that found a pool to start. */
  ghost function Started(run: nat -> Cluster, doc: Doc, steps: nat -> Step, i: nat): nat {
    if i == 0 then 0
    else Started(run, doc, steps, i - 1)
         + if GoodAt(run, doc, steps, i - 1) && ToStart(run(i - 1), doc) != {} then 1 else 0
  }

  /** Each of them takes a pool off the list for good, so there are at most as many as pools to start. */
  lemma {:induction false} OnePassPerPool(run: nat -> Cluster, doc: Doc, steps: nat -> Step, i: nat)
    requires Endless(run, doc, steps)
    ensures |ToStart(run(i), doc)| + Started(run, doc, steps, i) <= |ToStart(run(0), doc)|
  {
    hide ToStart, Moves, Endless, GoodPass;
    if i > 0 {
      var c, s := run(i - 1), steps(i - 1);
      OnePassPerPool(run, doc, steps, i - 1);
      EndlessMoves(run, doc, steps, i - 1);
      NeverGrows(c, doc, s, run(i));
      if GoodAt(run, doc, steps, i - 1) && ToStart(c, doc) != {} {
        GoodAdvances(run, doc, steps, i - 1);
      }
    }
  }

  // ---------------------------------------------------------------- the controller's part

  /** The machines the rolling pools still lack. */
  function GapOf(c: Cluster, doc: Doc, k: nat): nat
    requires k <= |RollPools(doc.pools)|
  {
    if k == 0 then 0
    else
      var st := At(c, doc, RollPools(doc.pools)[k - 1].name);
      GapOf(c, doc, k - 1) + if st.MidRoll() then st.m - st.n else 0
  }

  function Gap(c: Cluster, doc: Doc): nat { GapOf(c, doc, |RollPools(doc.pools)|) }

  ghost predicate Rolling(run: nat -> Cluster, doc: Doc, i: nat) { MidRollNames(run(i), doc) != {} }

  /** While a pool rolls no step widens the gap, and again and again one narrows it. */
  ghost predicate Closes(run: nat -> Cluster, doc: Doc, work: nat -> nat) {
    && (forall i: nat :: Rolling(run, doc, i) ==> Gap(run(i + 1), doc) <= Gap(run(i), doc))
    && (forall i: nat :: work(i) >= i
          && (Rolling(run, doc, work(i)) ==> Gap(run(work(i) + 1), doc) < Gap(run(work(i)), doc)))
  }

  /** From `i` on the gap does not grow, unless there is a moment before `t` with nothing mid-roll. */
  lemma {:induction false} GapUntil(run: nat -> Cluster, doc: Doc, work: nat -> nat, i: nat, t: nat) returns (quiet: nat)
    requires Closes(run, doc, work) && i <= t
    ensures i <= quiet <= t && (!Rolling(run, doc, quiet) || (quiet == t && Gap(run(t), doc) <= Gap(run(i), doc)))
    decreases t - i
  {
    hide Gap, Rolling;
    if i == t || !Rolling(run, doc, i) { return i; }
    assert Gap(run(i + 1), doc) <= Gap(run(i), doc);
    quiet := GapUntil(run, doc, work, i + 1, t);
  }

  lemma WorkAfter(run: nat -> Cluster, doc: Doc, work: nat -> nat, k: nat) returns (w: nat)
    requires Closes(run, doc, work)
    ensures w >= k && (Rolling(run, doc, w) ==> Gap(run(w + 1), doc) < Gap(run(w), doc))
  {
    hide Gap, Rolling;
    w := work(k);
  }

  /** The controller ends every roll. */
  lemma {:induction false} RollEnds(run: nat -> Cluster, doc: Doc, work: nat -> nat, k: nat) returns (quiet: nat)
    requires Closes(run, doc, work)
    ensures quiet >= k && MidRollNames(run(quiet), doc) == {}
    decreases Gap(run(k), doc)
  {
    hide Gap, Closes, MidRollNames;
    var w := WorkAfter(run, doc, work, k);
    quiet := GapUntil(run, doc, work, k, w);
    if Rolling(run, doc, quiet) {
      quiet := RollEnds(run, doc, work, w + 1);
    }
  }

  /** Scaling and healing un-converge no pool. */
  ghost predicate Calm(c: Cluster, doc: Doc, s: Step) {
    s.Act? && !s.stage.Rolls? ==> Shortfall(s.live, doc, s.events) <= MidRollNames(c, doc)
  }

  /** A roll that begins is one pool less to start. */
  lemma BeginsOne(c: Cluster, doc: Doc, s: Step, c': Cluster)
    requires Moves(c, doc, s, c') && Calm(c, doc, s)
    requires MidRollNames(c, doc) == {} && MidRollNames(c', doc) != {}
    ensures |ToStart(c', doc)| < |ToStart(c, doc)|
  {
    hide Effect, Target;
    var n :| n in MidRollNames(c', doc);
    if s.Env? {
      EnvMidRolls(c, c', doc);
      assert false;
    } else if !s.stage.Rolls? {
      ShortfallExact(c, doc, s, c');
      assert false;
    } else {
      RolledFrom(c, doc, s, c', n);
      Shrinks(c, doc, s, c', n);
    }
  }

  lemma RolledFrom(c: Cluster, doc: Doc, s: Step, c': Cluster, n: string)
    requires Moves(c, doc, s, c') && IsRoll(c, doc, s) && n in MidRollNames(c', doc) && n !in MidRollNames(c, doc)
    ensures n in ToStart(c, doc) && RolledBy(s.events, n)
  {
    hide Effect, Target;
    EnvKeeps(c, s.live, doc, n);
    if !RolledBy(s.events, n) { UnrolledKeeps(c, doc, s, c', n); }
    var e :| e in s.events && e.PatchKubelet? && e.pool == n && e.result.TookEffect();
    PatchingPass(c, doc, s, e);
  }

  ghost predicate CalmAt(run: nat -> Cluster, doc: Doc, steps: nat -> Step, i: nat) {
    Calm(run(i), doc, steps(i))
  }

  ghost predicate AbleAt(run: nat -> Cluster, doc: Doc, steps: nat -> Step, i: nat) {
    Able(run(i), doc, steps(i))
  }

  /** From a quiet moment on, either it stays quiet until `t` or a pool is started before. */
  lemma {:induction false} QuietUntil(run: nat -> Cluster, doc: Doc, steps: nat -> Step, i: nat, t: nat)
    returns (next: nat)
    requires Endless(run, doc, steps) && i <= t
    requires forall j: nat :: CalmAt(run, doc, steps, j)
    requires MidRollNames(run(i), doc) == {}
    ensures i <= next && (|ToStart(run(next), doc)| < |ToStart(run(i), doc)|
                          || (next == t && MidRollNames(run(t), doc) == {}))
    decreases t - i
  {
    hide MidRollNames, ToStart, Moves, Endless, Calm;
    if i == t { return i; }
    EndlessMoves(run, doc, steps, i);
    assert CalmAt(run, doc, steps, i);
    if MidRollNames(run(i + 1), doc) != {} {
      BeginsOne(run(i), doc, steps(i), run(i + 1));
      return i + 1;
    }
    NeverGrows(run(i), doc, steps(i), run(i + 1));
    next := QuietUntil(run, doc, steps, i + 1, t);
  }

  /** The rollout completes in every endless run in which the controller keeps closing the gap of a
      rolling pool, the executor keeps trying (however many of its passes fail, find a pool rolling or
      cannot read), and scaling and healing un-converge no pool. */
  lemma {:induction false} RolloutCompletes(run: nat -> Cluster, doc: Doc, steps: nat -> Step, work: nat -> nat,
                                            attempt: nat -> nat, k: nat) returns (done: nat)
    requires Endless(run, doc, steps) && Closes(run, doc, work)
    requires forall j: nat :: CalmAt(run, doc, steps, j)
    requires forall i: nat :: attempt(i) >= i && AbleAt(run, doc, steps, attempt(i))
    ensures done >= k && RolledOut(run(done), doc)
    decreases |ToStart(run(k), doc)|
  {
    hide MidRollNames, ToStart, RolledOut, Closes, Endless, CalmAt, Able;
    var quiet := RollEnds(run, doc, work, k);
    var t := attempt(quiet);
    assert t >= quiet && AbleAt(run, doc, steps, t);
    NeverGrowsTo(run, doc, steps, k, quiet);
    var next := QuietUntil(run, doc, steps, quiet, t);
    if |ToStart(run(next), doc)| == |ToStart(run(quiet), doc)| && ToStart(run(t), doc) == {} {
      RolledOutIff(run(t), doc);
      return t;
    }
    if |ToStart(run(next), doc)| >= |ToStart(run(quiet), doc)| {
      NeverGrowsTo(run, doc, steps, quiet, t);
      AbleShrinks(run, doc, steps, t);
      next := t + 1;
    }
    done := RolloutCompletes(run, doc, steps, work, attempt, next);
  }
}
