/** What the mailbox guarantees under every interleaving of one enqueuer and the sender. */
module SenderLaws {
  import opened Common
  import opened Sender
  import B = Backoff

  predicate Increasing(s: seq<nat>) { forall i, j :: 0 <= i < j < |s| ==> s[i] < s[j] }

  predicate NonDecreasing(s: seq<Attempt>) { forall i, j :: 0 <= i < j < |s| ==> s[i].payload <= s[j].payload }

  function LastDelivered(st: State): nat { if st.delivered == [] then 0 else st.delivered[|st.delivered| - 1] }

  function LastAttempt(st: State): nat { if st.attempts == [] then 0 else st.attempts[|st.attempts| - 1].payload }

  predicate Working(pc: Pc) { pc.Publishing? || pc.Delivered? || pc.Rejected? || pc.BackingOff? }

  /** The slot is empty or holds the newest payload, and it is emptied only by delivering that one. */
  predicate SlotInv(st: State) {
    && (st.latest == st.enqueued || (st.latest == 0 && LastDelivered(st) == st.enqueued))
    && (Working(st.pc) ==> 1 <= st.pc.payload <= st.enqueued && LastAttempt(st) == st.pc.payload)
    && (Working(st.pc) ==> st.latest != 0)
    && LastAttempt(st) <= st.enqueued
  }

  /** A payload is attempted after older ones only, and never again once delivered. */
  predicate OrderInv(st: State) {
    && NonDecreasing(st.attempts) && Increasing(st.delivered) && LastDelivered(st) <= LastAttempt(st)
    && (forall d :: d in st.delivered ==> 1 <= d)
    && (st.pc.Delivered? ==> LastDelivered(st) == st.pc.payload)
    && (Working(st.pc) && !st.pc.Delivered? ==> LastDelivered(st) < st.pc.payload)
    && (!st.pc.Delivered? && !st.pc.Stopped? && st.latest != 0 ==> LastDelivered(st) < st.latest)
  }

  /** No lost wake-up. */
  predicate WakeInv(st: State) {
    && (st.pc.Parked? && st.latest != 0 ==> st.wake || st.storing)
    && st.early + (if st.wake then 1 else 0) <= st.signals
    && st.signals + (if st.storing then 1 else 0) == st.enqueued
  }

  predicate WaitInv(c: Cadence, st: State) {
    (st.pc.AuthWaiting? || st.pc.BackingOff?) ==>
      st.pc.since <= st.now && c.base <= st.pc.until - st.pc.since <= c.max
  }

  predicate Inv(c: Cadence, st: State) { SlotInv(st) && OrderInv(st) && WakeInv(st) && WaitInv(c, st) }

  lemma SlotKept(c: Cadence, st: State, step: Step)
    requires Enabled(st, step) && SlotInv(st)
    requires OrderInv(st)
    ensures SlotInv(Next(c, st, step))
  {
    hide B.Wait;
  }

  lemma IncreasingMore(s: seq<nat>, x: nat)
    requires Increasing(s) && (s != [] ==> s[|s| - 1] < x)
    ensures Increasing(s + [x])
  {
  }

  lemma NonDecreasingMore(s: seq<Attempt>, a: Attempt)
    requires NonDecreasing(s) && (s != [] ==> s[|s| - 1].payload <= a.payload)
    ensures NonDecreasing(s + [a])
  {
  }

  lemma OrderKept(c: Cadence, st: State, step: Step)
    requires Enabled(st, step) && SlotInv(st) && OrderInv(st)
    ensures OrderInv(Next(c, st, step))
  {
    hide B.Wait, Increasing, NonDecreasing;
    match step
    case Take => if st.latest != 0 { NonDecreasingMore(st.attempts, Attempt(st.latest, st.now)); }
    case Publish(Accepted) => IncreasingMore(st.delivered, st.pc.payload);
    case _ =>
  }

  lemma WakeKept(c: Cadence, st: State, step: Step)
    requires Enabled(st, step) && WakeInv(st)
    ensures WakeInv(Next(c, st, step))
  {
    hide B.Wait;
  }

  lemma WaitKept(c: Cadence, st: State, step: Step)
    requires 0 < c.base <= c.max && Enabled(st, step) && WaitInv(c, st)
    ensures WaitInv(c, Next(c, st, step))
  {
    match step
    case Publish(Failed(jitter)) => B.WaitBounds(c.base, c.max, st.failures, jitter);
    case Reload(_, jitter) => B.WaitBounds(c.base, c.max, st.failures, jitter);
    case _ =>
  }

  lemma {:induction false} EveryRun(c: Cadence, steps: seq<Step>)
    requires 0 < c.base <= c.max && Possible(c, steps)
    ensures Inv(c, After(c, steps))
  {
    hide Next, SlotInv, OrderInv, WakeInv, WaitInv, Enabled;
    if steps == [] {
      InitialInv(c);
    } else {
      var init, step := steps[..|steps| - 1], steps[|steps| - 1];
      EveryRun(c, init);
      var st := After(c, init);
      SlotKept(c, st, step);
      OrderKept(c, st, step);
      WakeKept(c, st, step);
      WaitKept(c, st, step);
    }
  }

  lemma InitialInv(c: Cadence)
    ensures Inv(c, INITIAL)
  {
  }

  // ---------------------------------------------------------------- the guarantees

  /** No lost wake-up: a parked sender with something to send has a wake pending, or an Enqueue
      between its store and its signal. */
  lemma {:induction false} NoLostWakeup(c: Cadence, steps: seq<Step>)
    requires 0 < c.base <= c.max && Possible(c, steps)
    ensures var st := After(c, steps); st.pc.Parked? && st.latest != 0 ==> st.wake || st.storing
  {
    EveryRun(c, steps);
  }

  /** Attempts follow the order of enqueueing and no payload is delivered twice or out of order. */
  lemma DeliveryOrder(c: Cadence, steps: seq<Step>)
    requires 0 < c.base <= c.max && Possible(c, steps)
    ensures var st := After(c, steps); NonDecreasing(st.attempts) && Increasing(st.delivered)
  {
    EveryRun(c, steps);
  }

  /** The newest payload stays in the slot until it has been delivered; once both sides are idle
      it has been. */
  lemma NewestDelivered(c: Cadence, steps: seq<Step>)
    requires 0 < c.base <= c.max && Possible(c, steps)
    ensures var st := After(c, steps);
            && (st.enqueued != 0 && st.enqueued !in st.delivered ==> st.latest == st.enqueued)
            && (st.pc.Parked? && !st.wake && !st.storing && st.enqueued != 0 ==> st.enqueued in st.delivered)
  {
    EveryRun(c, steps);
    var st := After(c, steps);
    if st.delivered != [] { assert st.delivered[|st.delivered| - 1] in st.delivered; }
  }

  // ---------------------------------------------------------------- progress

  /** The sender's own next step when the server accepts everything and timers fire in time; `waited`
      is the time that then passes. */
  function Alone(st: State): seq<Step> {
    match st.pc
    case Parked => if st.wake then [Wake] else []
    case Taking => [Step.Take]
    case Publishing(_) => [Publish(Accepted)]
    case Delivered(_) => [Clear]
    case Rejected(_) => [Reload(true, 0.0)]
    case AuthWaiting(_, until) => [Tick(if until <= st.now then 0 else until - st.now), TimerFires]
    case BackingOff(_, _, until) => [Tick(if until <= st.now then 0 else until - st.now), TimerFires]
    case Stopped => []
  }

  /** How many steps of its own the sender is at most away from having delivered the newest payload. */
  function Distance(st: State): nat {
    if LastDelivered(st) == st.enqueued then 0
    else match st.pc
      case Parked => 3
      case Taking => 2
      case Publishing(p) => if p == st.enqueued then 1 else 4
      case Delivered(_) => 3
      case Rejected(_) => 4
      case AuthWaiting(_, _) => 3
      case BackingOff(_, _, _) => 3
      case Stopped => 0
  }

  /** A step of the sender or the clock, with an answer that accepts. */
  predicate Own(step: Step) {
    !step.StoreLatest? && !step.Signal? && !step.Cancel? && (step.Publish? ==> step.answer.Accepted?)
  }

  /** The sender's own steps among them. */
  function Moves(steps: seq<Step>): nat {
    if steps == [] then 0 else Moves(steps[..|steps| - 1]) + if steps[|steps| - 1].Tick? then 0 else 1
  }

  lemma AfterOne(c: Cadence, steps: seq<Step>, step: Step)
    requires Possible(c, steps) && Enabled(After(c, steps), step)
    ensures Possible(c, steps + [step]) && After(c, steps + [step]) == Next(c, After(c, steps), step)
  {
    hide Next, Enabled;
    assert (steps + [step])[..|steps|] == steps;
  }

  lemma AloneAdvances(c: Cadence, steps: seq<Step>) returns (more: seq<Step>)
    requires 0 < c.base <= c.max && Possible(c, steps)
    requires var st := After(c, steps); !st.storing && !st.pc.Stopped? && st.enqueued != 0 && LastDelivered(st) != st.enqueued
    ensures Possible(c, more) && steps <= more && |more| <= |steps| + 2
    ensures var st, st' := After(c, steps), After(c, more);
            && st'.enqueued == st.enqueued && !st'.storing && !st'.pc.Stopped?
            && Distance(st') < Distance(st)
  {
    hide Possible, After, B.Wait;
    EveryRun(c, steps);
    var st := After(c, steps);
    var own := Alone(st);
    AfterOne(c, steps, own[0]);
    more := steps + [own[0]];
    if |own| == 2 {
      AfterOne(c, more, own[1]);
      more := more + [own[1]];
    }
  }

  /** A step of its own brings the sender nearer, whichever of its steps it is. */
  lemma OwnAdvances(c: Cadence, st: State, step: Step)
    requires Inv(c, st) && Enabled(st, step) && Own(step) && !st.storing && !st.pc.Stopped?
    ensures var st' := Next(c, st, step);
            && st'.enqueued == st.enqueued && !st'.storing && !st'.pc.Stopped?
            && Distance(st') <= Max(0, Distance(st) - if step.Tick? then 0 else 1)
  {
    hide B.Wait, Increasing, NonDecreasing;
  }

  lemma {:induction false} OwnSteps(c: Cadence, steps: seq<Step>, more: seq<Step>)
    requires 0 < c.base <= c.max && Possible(c, steps) && Possible(c, steps + more)
    requires var st := After(c, steps); !st.storing && !st.pc.Stopped?
    requires forall s :: s in more ==> Own(s)
    ensures var st, st' := After(c, steps), After(c, steps + more);
            && st'.enqueued == st.enqueued && !st'.storing && !st'.pc.Stopped?
            && Distance(st') <= Max(0, Distance(st) - Moves(more))
  {
    hide Possible, After, Inv, Own, Distance, Next, Enabled;
    if more == [] {
      assert steps + more == steps;
    } else {
      var init, last := more[..|more| - 1], more[|more| - 1];
      assert (steps + more)[..|steps + more| - 1] == steps + init && (steps + more)[|steps + more| - 1] == last;
      OneMore(c, steps + more);
      OwnSteps(c, steps, init);
      EveryRun(c, steps + init);
      OwnAdvances(c, After(c, steps + init), last);
    }
  }

  lemma OneMore(c: Cadence, steps: seq<Step>)
    requires steps != [] && Possible(c, steps)
    ensures var init, last := steps[..|steps| - 1], steps[|steps| - 1];
            Possible(c, init) && Enabled(After(c, init), last) && After(c, steps) == Next(c, After(c, init), last)
  {
    hide Next, Enabled;
  }

  /** Delivery: from every reachable state in which the enqueuer has finished its last Enqueue, every
      way the sender may go on with an accepting server has delivered the newest payload after four
      of its steps, however much time passes in between. */
  lemma NewestGetsDelivered(c: Cadence, steps: seq<Step>, more: seq<Step>)
    requires 0 < c.base <= c.max && Possible(c, steps) && Possible(c, steps + more)
    requires var st := After(c, steps); !st.storing && !st.pc.Stopped?
    requires (forall s :: s in more ==> Own(s)) && Moves(more) >= 4
    ensures LastDelivered(After(c, steps + more)) == After(c, steps).enqueued
  {
    hide Possible, After;
    OwnSteps(c, steps, more);
  }

  /** And it can always go on until then: its next step needs nothing but time. */
  lemma {:induction false} SenderNeverStuck(c: Cadence, steps: seq<Step>) returns (more: seq<Step>)
    requires 0 < c.base <= c.max && Possible(c, steps)
    requires var st := After(c, steps); !st.storing && !st.pc.Stopped? && st.enqueued != 0
    ensures Possible(c, more) && steps <= more && |more| <= |steps| + 2 * Distance(After(c, steps))
    ensures After(c, more).enqueued == After(c, steps).enqueued && LastDelivered(After(c, more)) == After(c, steps).enqueued
    decreases Distance(After(c, steps))
  {
    if LastDelivered(After(c, steps)) == After(c, steps).enqueued { return steps; }
    more := AloneAdvances(c, steps);
    if LastDelivered(After(c, more)) != After(c, steps).enqueued { more := SenderNeverStuck(c, more); }
  }

  // ---------------------------------------------------------------- how long it backs off

  /** The failures in a row: posts that failed and rejections with an unchanged token, since the last delivery
      or changed token. */
  function InARow(steps: seq<Step>): nat {
    if steps == [] then 0
    else
      var before, last := InARow(steps[..|steps| - 1]), steps[|steps| - 1];
      if last.Clear? || (last.Reload? && last.changed) then 0
      else if last.Reload? || (last.Publish? && last.answer.Failed?) then before + 1
      else before
  }

  lemma {:induction false} FailuresAreInARow(c: Cadence, steps: seq<Step>)
    requires Possible(c, steps)
    ensures After(c, steps).failures == InARow(steps)
  {
    hide B.Wait;
    if steps != [] { FailuresAreInARow(c, steps[..|steps| - 1]); }
  }

  /** The jittered part of the envelope after `failures`, to the nanosecond, and never less than base. */
  ghost predicate JitteredWait(c: Cadence, failures: nat, jitter: real, wait: int) {
    var most := jitter * B.Envelope(c.base, c.max, failures);
    c.base <= wait <= c.max && wait as real > most - 1.0 && (wait == c.base || wait as real <= most)
  }

  lemma WaitIsJittered(c: Cadence, failures: nat, jitter: real)
    requires 0 < c.base <= c.max && 0.0 <= jitter < 1.0
    ensures JitteredWait(c, failures, jitter, B.Wait(c.base, c.max, failures, jitter))
  {
    B.WaitBounds(c.base, c.max, failures, jitter);
    hide B.Wait, B.Envelope;
  }

  lemma WaitsNext(c: Cadence, st: State, step: Step, jitter: real)
    requires Enabled(st, step) && (step == Publish(Failed(jitter)) || step == Reload(false, jitter))
    ensures var st' := Next(c, st, step);
            && 0.0 <= jitter < 1.0 && (if step.Publish? then st'.pc.BackingOff? else st'.pc.AuthWaiting?)
            && st'.pc.since == st.now && st'.pc.until - st.now == B.Wait(c.base, c.max, st.failures, jitter)
  {
    hide B.Wait;
  }

  /** Each failure is waited out for the jittered part of an envelope that has doubled with every failure in a
      row, never less than base. */
  lemma BacksOff(c: Cadence, steps: seq<Step>, step: Step, jitter: real)
    requires 0 < c.base <= c.max && Possible(c, steps) && Enabled(After(c, steps), step)
    requires step == Publish(Failed(jitter)) || step == Reload(false, jitter)
    ensures var st, st' := After(c, steps), Next(c, After(c, steps), step);
            && (if step.Publish? then st'.pc.BackingOff? else st'.pc.AuthWaiting?) && st'.pc.since == st.now
            && JitteredWait(c, InARow(steps), jitter, st'.pc.until - st.now)
  {
    hide *;
    FailuresAreInARow(c, steps);
    WaitsNext(c, After(c, steps), step, jitter);
    WaitIsJittered(c, InARow(steps), jitter);
  }

  // ---------------------------------------------------------------- a rejected token

  lemma {:induction false} PrefixPossible(c: Cadence, steps: seq<Step>, k: nat)
    requires Possible(c, steps) && k <= |steps|
    ensures Possible(c, steps[..k])
    ensures k < |steps| ==> Enabled(After(c, steps[..k]), steps[k])
    ensures k < |steps| ==> Possible(c, steps[..k + 1])
                            && After(c, steps[..k + 1]) == Next(c, After(c, steps[..k]), steps[k])
  {
    hide Next, Enabled;
    if k == |steps| {
      assert steps[..k] == steps;
    } else {
      var init := steps[..|steps| - 1];
      if k < |init| {
        PrefixPossible(c, init, k);
        assert init[..k] == steps[..k] && init[..k + 1] == steps[..k + 1];
      } else {
        assert steps[..k + 1] == steps;
      }
    }
  }

  lemma {:induction false} StillWaiting(c: Cadence, steps: seq<Step>, k: nat, m: nat, jitter: real)
    requires 0 < c.base <= c.max && Possible(c, steps) && k < m <= |steps| && steps[k] == Reload(false, jitter)
    ensures Possible(c, steps[..k]) && Possible(c, steps[..m])
    ensures var at, wait := After(c, steps[..k]).now, B.Wait(c.base, c.max, After(c, steps[..k]).failures, jitter);
            var st := After(c, steps[..m]);
            st.pc == AuthWaiting(at, at + wait) || st.pc == Stopped || st.now >= at + wait
    decreases m
  {
    hide Possible, After, B.Wait;
    PrefixPossible(c, steps, k);
    PrefixPossible(c, steps, m - 1);
    if k < m - 1 { StillWaiting(c, steps, k, m - 1, jitter); }
  }

  /** After a rejection with an unchanged token nothing, not even a newer payload, is sent before the
      backoff has passed; that backoff lies between base and max. */
  lemma AuthRejectionWaits(c: Cadence, steps: seq<Step>, k: nat, j: nat, jitter: real)
    requires 0 < c.base <= c.max && Possible(c, steps) && k < j < |steps|
    requires steps[k] == Reload(false, jitter) && steps[j].Take?
    ensures Possible(c, steps[..k]) && Possible(c, steps[..j])
    ensures var wait := B.Wait(c.base, c.max, After(c, steps[..k]).failures, jitter);
            && c.base <= wait <= c.max
            && After(c, steps[..j]).now >= After(c, steps[..k]).now + wait
  {
    hide Possible, After, B.Wait;
    PrefixPossible(c, steps, k);
    PrefixPossible(c, steps, j);
    B.WaitBounds(c.base, c.max, After(c, steps[..k]).failures, jitter);
    StillWaiting(c, steps, k, j, jitter);
  }

  // ---------------------------------------------------------------- stale wakes

  /** An Enqueue stored between step `k` and step `m`. */
  ghost predicate StoredIn(steps: seq<Step>, k: nat, m: nat) {
    exists j :: k < j < m && j < |steps| && steps[j].StoreLatest?
  }

  /** What a step other than a Take keeps of the payload in hand: it is the newest there was at the Take. */
  ghost predicate InHand(st: State, newest: nat, stored: bool) {
    && (Working(st.pc) ==> st.pc.payload == newest)
    && newest <= st.enqueued && (newest < st.enqueued <==> stored)
  }

  lemma HandKept(c: Cadence, st: State, step: Step, newest: nat, stored: bool)
    requires Enabled(st, step) && InHand(st, newest, stored) && !step.Take?
    ensures InHand(Next(c, st, step), newest, stored || step.StoreLatest?)
  {
    hide B.Wait;
  }

  lemma HandTaken(c: Cadence, st: State)
    requires Inv(c, st) && Enabled(st, Step.Take)
    ensures InHand(Next(c, st, Step.Take), st.enqueued, false)
  {
    hide Increasing, NonDecreasing;
  }

  /** Since its Take the sender has the payload that was newest then, and a newer one exists exactly if
      another Enqueue has stored since. */
  lemma {:induction false} HandSince(c: Cadence, steps: seq<Step>, k: nat, m: nat)
    requires 0 < c.base <= c.max && Possible(c, steps) && k < m <= |steps| && steps[k].Take?
    requires forall j :: k < j < m ==> !steps[j].Take?
    ensures Possible(c, steps[..k]) && Possible(c, steps[..m])
    ensures InHand(After(c, steps[..m]), After(c, steps[..k]).enqueued, StoredIn(steps, k, m))
    decreases m
  {
    hide Possible, After, InHand, Inv;
    PrefixPossible(c, steps, k);
    PrefixPossible(c, steps, m - 1);
    if k == m - 1 {
      EveryRun(c, steps[..k]);
      HandTaken(c, After(c, steps[..k]));
    } else {
      HandSince(c, steps, k, m - 1);
      HandKept(c, After(c, steps[..m - 1]), steps[m - 1], After(c, steps[..k]).enqueued, StoredIn(steps, k, m - 1));
      assert StoredIn(steps, k, m) <==> StoredIn(steps, k, m - 1) || steps[m - 1].StoreLatest?;
    }
  }

  ghost predicate LastTake(steps: seq<Step>, k: nat) {
    k < |steps| && steps[k].Take? && forall j :: k < j < |steps| ==> !steps[j].Take?
  }

  /** A payload in hand was taken. */
  lemma {:induction false} HandFrom(c: Cadence, steps: seq<Step>) returns (k: nat)
    requires Possible(c, steps) && Working(After(c, steps).pc)
    ensures LastTake(steps, k)
  {
    hide B.Wait;
    k := |steps| - 1;
    if !steps[k].Take? { k := HandFrom(c, steps[..k]); }
  }

  /** A wake cuts a backoff short with something newer to send exactly when an Enqueue has stored after
      the Take of the failed payload, the last Take so far; otherwise the same payload goes out again at
      once. Either way it is the newest that goes out. */
  lemma EarlyRetryIsNewerIff(c: Cadence, steps: seq<Step>) returns (k: nat)
    requires 0 < c.base <= c.max && Possible(c, steps)
    requires After(c, steps).pc.BackingOff? && After(c, steps).wake
    ensures LastTake(steps, k)
    ensures var st, more := After(c, steps), steps + [Wake] + [Step.Take];
            && Possible(c, more) && After(c, more).now == st.now
            && LastAttempt(After(c, more)) == st.enqueued >= st.pc.payload
            && (LastAttempt(After(c, more)) > st.pc.payload <==> exists j :: k < j < |steps| && steps[j].StoreLatest?)
  {
    hide Possible, After, OrderInv, WakeInv, WaitInv;
    EveryRun(c, steps);
    AfterOne(c, steps, Wake);
    AfterOne(c, steps + [Wake], Step.Take);
    k := HandFrom(c, steps);
    HandSince(c, steps, k, |steps|);
    assert steps[..|steps|] == steps;
  }

  /** Each Enqueue cuts short at most one backoff. */
  lemma EarlyRetriesBounded(c: Cadence, steps: seq<Step>)
    requires 0 < c.base <= c.max && Possible(c, steps)
    ensures After(c, steps).early <= After(c, steps).enqueued
  {
    EveryRun(c, steps);
  }

  /** The state after a sequence, one step at a time. */
  lemma Grows(c: Cadence, steps: seq<Step>, k: nat)
    requires k < |steps| && Possible(c, steps[..k]) && Enabled(After(c, steps[..k]), steps[k])
    ensures Possible(c, steps[..k + 1]) && After(c, steps[..k + 1]) == Next(c, After(c, steps[..k]), steps[k])
  {
    AfterOne(c, steps[..k], steps[k]);
    assert steps[..k] + [steps[k]] == steps[..k + 1];
  }

  /** A wake left over from a payload already taken: the sender retries it at once, with nothing new. */
  lemma StaleWakeRetriesAtOnce(c: Cadence)
    requires 0 < c.base <= c.max
    ensures var steps := [StoreLatest, Signal, Wake, StoreLatest, Step.Take, Signal, Publish(Failed(0.0)), Wake, Step.Take];
            Possible(c, steps) && After(c, steps).attempts == [Attempt(2, 0), Attempt(2, 0)]
  {
    hide Possible, After, B.Wait;
    var steps := [StoreLatest, Signal, Wake, StoreLatest, Step.Take, Signal, Publish(Failed(0.0)), Wake, Step.Take];
    StartsInitial(c);
    assert steps[..0] == [];
    Grows(c, steps, 0);
    Grows(c, steps, 1);
    Grows(c, steps, 2);
    Grows(c, steps, 3);
    Grows(c, steps, 4);
    Grows(c, steps, 5);
    Grows(c, steps, 6);
    Grows(c, steps, 7);
    Grows(c, steps, 8);
    assert steps[..9] == steps;
  }

  lemma StartsInitial(c: Cadence)
    ensures Possible(c, []) && After(c, []) == INITIAL
  {
  }
}
