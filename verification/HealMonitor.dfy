/** Laws about whole traces: a monitor that follows the healer's memory from the outside, event by
    event, and what a trace it accepts guarantees about cooldowns and force-deletions. */
module HealMonitor {
  import opened Fleet
  import opened Unwedge
  import opened Healing

  /** What the trace so far says the healer remembers. */
  datatype Monitor = Monitor(lastHeal: LastHeal, tracked: Tracked)

  const INITIAL: Monitor := Monitor(map[], map[])

  function Advance(mon: Monitor, e: Event): Monitor {
    match e
    case HealRead(deleting) =>
      mon.(tracked := map n | n in mon.tracked && n in deleting :: mon.tracked[n])
    case UnwedgeAttempt(name, _, _, _) =>
      if name !in mon.tracked then mon
      else mon.(tracked := mon.tracked[name := mon.tracked[name].(attempted := true)])
    case DeleteMachine(name, pool, node, at, _, result) =>
      Monitor(if DeleteSucceeded(result) then mon.lastHeal[pool := at] else mon.lastHeal,
              if result.Ok? then mon.tracked[name := Tracking(node, at, false)] else mon.tracked)
    case _ => mon
  }

  function After(mon: Monitor, events: seq<Event>): Monitor {
    if events == [] then mon
    else Advance(After(mon, events[..|events| - 1]), events[|events| - 1])
  }

  /** A deletion waits out its pool's cooldown and never hits a machine still tracked; an attempt
      is the first for a tracked machine and due; a force-deleted pod belongs to an attempt. */
  predicate Allowed(mon: Monitor, e: Event, baseline: int, timeout: int) {
    match e
    case DeleteMachine(name, pool, _, at, cooldown, _) =>
      0 <= cooldown <= at - LastHealTime(mon.lastHeal, baseline, pool) && name !in mon.tracked
    case UnwedgeAttempt(name, node, deletedAt, at) =>
      && name in mon.tracked && mon.tracked[name] == Tracking(node, deletedAt, false)
      && node != "" && at - deletedAt >= timeout
    case DeletePod(name, pod, _) =>
      && name in mon.tracked && mon.tracked[name].attempted
      && pod.terminating && pod.node == mon.tracked[name].node
    case _ => true
  }

  predicate Accepts(mon: Monitor, events: seq<Event>, baseline: int, timeout: int) {
    events == [] || (&& Accepts(mon, events[..|events| - 1], baseline, timeout)
                     && Allowed(After(mon, events[..|events| - 1]), events[|events| - 1], baseline, timeout))
  }

  lemma {:induction false} AfterAppend(mon: Monitor, a: seq<Event>, b: seq<Event>, baseline: int, timeout: int)
    ensures After(mon, a + b) == After(After(mon, a), b)
    ensures Accepts(mon, a + b, baseline, timeout) <==>
            Accepts(mon, a, baseline, timeout) && Accepts(After(mon, a), b, baseline, timeout)
  {
    hide Advance, Allowed;
    if b == [] {
      assert a + b == a;
    } else {
      assert (a + b)[..|a + b| - 1] == a + b[..|b| - 1];
      AfterAppend(mon, a, b[..|b| - 1], baseline, timeout);
    }
  }

  lemma AfterOne(mon: Monitor, e: Event, baseline: int, timeout: int)
    ensures After(mon, [e]) == Advance(mon, e)
    ensures Accepts(mon, [e], baseline, timeout) <==> Allowed(mon, e, baseline, timeout)
  {
    hide Advance, Allowed;
    assert [e][..0] == [];
  }

  /** Every event of an accepted trace was allowed by what came before it. */
  lemma {:induction false} AcceptedAt(mon: Monitor, events: seq<Event>, baseline: int, timeout: int, k: nat)
    requires Accepts(mon, events, baseline, timeout) && k < |events|
    ensures Allowed(After(mon, events[..k]), events[k], baseline, timeout)
    ensures After(mon, events[..k + 1]) == Advance(After(mon, events[..k]), events[k])
  {
    hide Advance, Allowed;
    if k < |events| - 1 {
      var init := events[..|events| - 1];
      AcceptedAt(mon, init, baseline, timeout, k);
      assert init[..k] == events[..k] && init[..k + 1] == events[..k + 1];
    }
    assert events[..k + 1][..k] == events[..k];
  }

  // ---------------------------------------------------------------- cooldown

  /** An advance never takes a pool's last remediation time back. */
  lemma ClockMonotone(mon: Monitor, e: Event, baseline: int, timeout: int, pool: string)
    requires Allowed(mon, e, baseline, timeout)
    ensures LastHealTime(Advance(mon, e).lastHeal, baseline, pool) >= LastHealTime(mon.lastHeal, baseline, pool)
    ensures e.Removed() && e.pool == pool ==>
              LastHealTime(Advance(mon, e).lastHeal, baseline, pool) >= e.at
  {
  }

  lemma {:induction false} ClockCovers(mon: Monitor, events: seq<Event>, baseline: int, timeout: int, i: nat, k: nat,
                                       pool: string)
    requires Accepts(mon, events, baseline, timeout) && i < k <= |events|
    ensures LastHealTime(After(mon, events[..k]).lastHeal, baseline, pool)
         >= LastHealTime(After(mon, events[..i]).lastHeal, baseline, pool)
    ensures events[i].Removed() && events[i].pool == pool ==>
              LastHealTime(After(mon, events[..k]).lastHeal, baseline, pool) >= events[i].at
    decreases k
  {
    hide Advance, After, Accepts, LastHealTime;
    AcceptedAt(mon, events, baseline, timeout, k - 1);
    ClockMonotone(After(mon, events[..k - 1]), events[k - 1], baseline, timeout, pool);
    if i < k - 1 { ClockCovers(mon, events, baseline, timeout, i, k - 1, pool); }
  }

  /** Per-pool cooldown: a deletion comes no earlier than its cooldown after every successful
      remediation of the pool before it, and after the baseline. The clock may jump at will. */
  lemma Cooldown(mon: Monitor, events: seq<Event>, baseline: int, timeout: int, i: nat, j: nat)
    requires Accepts(mon, events, baseline, timeout) && j < |events| && events[j].DeleteMachine?
    ensures events[j].at - baseline >= events[j].cooldown >= 0
    ensures i < j && events[i].Removed() && events[i].pool == events[j].pool ==>
              events[j].at - events[i].at >= events[j].cooldown
  {
    AcceptedAt(mon, events, baseline, timeout, j);
    if i < j { ClockCovers(mon, events, baseline, timeout, i, j, events[j].pool); }
  }

  // ---------------------------------------------------------------- one attempt per accepted deletion

  /** events[i] is the accepted deletion behind a tracking entry that is still live at k. */
  ghost predicate Since(events: seq<Event>, i: nat, k: nat, name: string, tr: Tracking)
    requires k <= |events|
  {
    && i < k && events[i].AcceptedDelete() && events[i].machine == name
    && events[i].node == tr.node && events[i].at == tr.deletedAt
    && (forall j :: i < j < k && events[j].HealRead? ==> name in events[j].deleting)
    && (forall j :: i < j < k ==> !(events[j].AcceptedDelete() && events[j].machine == name))
    && (!tr.attempted ==> forall j :: i < j < k ==> !(events[j].UnwedgeAttempt? && events[j].machine == name))
    && (tr.attempted ==> exists j :: i < j < k && events[j].UnwedgeAttempt? && events[j].machine == name)
  }

  lemma SinceStep(events: seq<Event>, k: nat, name: string, mon: Monitor, i: nat)
    requires 0 < k <= |events|
    requires name in Advance(mon, events[k - 1]).tracked
    requires !(events[k - 1].AcceptedDelete() && events[k - 1].machine == name)
    requires name in mon.tracked && Since(events, i, k - 1, name, mon.tracked[name])
    ensures Since(events, i, k, name, Advance(mon, events[k - 1]).tracked[name])
  {
    if mon.tracked[name].attempted {
      var j :| i < j < k - 1 && events[j].UnwedgeAttempt? && events[j].machine == name;
    }
  }

  /** Every live tracking entry goes back to one accepted deletion, with the machine seen deleting
      in every listing since, and no second accepted deletion over it. */
  lemma {:induction false} TrackedSince(events: seq<Event>, k: nat, name: string) returns (i: nat)
    requires k <= |events| && name in After(INITIAL, events[..k]).tracked
    ensures Since(events, i, k, name, After(INITIAL, events[..k]).tracked[name])
  {
    assert k > 0;
    var e, mon := events[k - 1], After(INITIAL, events[..k - 1]);
    assert events[..k][..k - 1] == events[..k - 1];
    if e.AcceptedDelete() && e.machine == name {
      i := k - 1;
    } else {
      i := TrackedSince(events, k - 1, name);
      SinceStep(events, k, name, mon, i);
    }
  }

  /** An unwedge attempt follows an accepted deletion of that very machine by at least the eviction
      timeout; since then the machine was deleting in every listing, was not deleted again, and
      was never attempted before. */
  lemma AttemptJustified(events: seq<Event>, baseline: int, timeout: int, k: nat) returns (i: nat)
    requires Accepts(INITIAL, events, baseline, timeout) && k < |events| && events[k].UnwedgeAttempt?
    ensures var e := events[k];
            && i < k && events[i].AcceptedDelete() && events[i].machine == e.machine && events[i].node == e.node != ""
            && e.at - events[i].at >= timeout
            && (forall j :: i < j < k && events[j].HealRead? ==> e.machine in events[j].deleting)
            && (forall j :: i < j < k ==> !(events[j].AcceptedDelete() && events[j].machine == e.machine))
            && (forall j :: i < j < k ==> !(events[j].UnwedgeAttempt? && events[j].machine == e.machine))
  {
    hide Accepts, After;
    AcceptedAt(INITIAL, events, baseline, timeout, k);
    i := TrackedSince(events, k, events[k].machine);
  }

  /** At most one attempt per accepted deletion: between two attempts lies another deletion. */
  lemma OneAttemptPerDeletion(events: seq<Event>, baseline: int, timeout: int, first: nat, second: nat)
    requires Accepts(INITIAL, events, baseline, timeout) && first < second < |events|
    requires events[first].UnwedgeAttempt? && events[second].UnwedgeAttempt?
    requires events[first].machine == events[second].machine
    ensures exists i :: first < i < second && events[i].AcceptedDelete() && events[i].machine == events[second].machine
  {
    hide Accepts;
    var i := AttemptJustified(events, baseline, timeout, second);
  }

  /** A force-deleted pod was terminating on the node of an attempted deletion. */
  lemma PodJustified(events: seq<Event>, baseline: int, timeout: int, k: nat) returns (i: nat, j: nat)
    requires Accepts(INITIAL, events, baseline, timeout) && k < |events| && events[k].DeletePod?
    ensures i < j < k && events[i].AcceptedDelete() && events[j].UnwedgeAttempt?
    ensures events[i].machine == events[j].machine == events[k].machine
    ensures events[k].pod.terminating && events[k].pod.node == events[i].node
  {
    hide Accepts, After;
    AcceptedAt(INITIAL, events, baseline, timeout, k);
    i := TrackedSince(events, k, events[k].machine);
    j :| i < j < k && events[j].UnwedgeAttempt? && events[j].machine == events[k].machine;
  }

  lemma {:induction false} StaysTracked(events: seq<Event>, baseline: int, timeout: int, i: nat, k: nat)
    requires Accepts(INITIAL, events, baseline, timeout) && i < k <= |events| && events[i].AcceptedDelete()
    requires forall j :: i < j < k && events[j].HealRead? ==> events[i].machine in events[j].deleting
    ensures events[i].machine in After(INITIAL, events[..k]).tracked
  {
    hide Accepts, After;
    AcceptedAt(INITIAL, events, baseline, timeout, k - 1);
    if i < k - 1 { StaysTracked(events, baseline, timeout, i, k - 1); }
  }

  /** A live tracking entry is never overwritten: between two accepted deletions of one machine
      name the healer has read a listing in which that name was not being deleted. */
  lemma NeverOverwritten(events: seq<Event>, baseline: int, timeout: int, i: nat, k: nat)
    requires Accepts(INITIAL, events, baseline, timeout) && i < k < |events|
    requires events[i].AcceptedDelete() && events[k].DeleteMachine? && events[i].machine == events[k].machine
    ensures exists j :: i < j < k && events[j].HealRead? && events[k].machine !in events[j].deleting
  {
    hide Accepts, After;
    AcceptedAt(INITIAL, events, baseline, timeout, k);
    if forall j :: i < j < k && events[j].HealRead? ==> events[i].machine in events[j].deleting {
      StaysTracked(events, baseline, timeout, i, k);
      assert false;
    }
  }
}
