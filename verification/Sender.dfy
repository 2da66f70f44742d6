/** The heartbeat sender (internal/publisher/sender.go): a one-place mailbox written by the
    coalescer's goroutine and drained by the sender's, as a machine over their atomic steps. */
module Sender {
  import opened Common
  import B = Backoff

  // ---------------------------------------------------------------- states and steps

  /** Where the sender stands. Payloads are numbered by their Enqueue call; 0 is the empty slot. */
  datatype Pc =
    | Parked                             // waiting for a wake or cancellation
    | Taking                             // about to look at the slot
    | Publishing(payload: nat)
    | Delivered(payload: nat)            // accepted, slot not yet cleared
    | Rejected(payload: nat)             // 401 or 403, token not yet re-read
    | AuthWaiting(since: int, until: int)
    | BackingOff(payload: nat, since: int, until: int)
    | Stopped

  datatype Attempt = Attempt(payload: nat, at: int)

  /** `storing`: the enqueuer is between its store and its signal. `signals` and `early` count the
      signals sent and the backoffs cut short by a wake. */
  datatype State = State(
    latest: nat, wake: bool, enqueued: nat, storing: bool, pc: Pc, failures: nat, now: int,
    attempts: seq<Attempt>, delivered: seq<nat>, signals: nat, early: nat)

  datatype Cadence = Cadence(base: int, max: int)

  datatype Answer = Accepted | AuthRejected | Failed(jitter: real)

  datatype Step =
    | StoreLatest | Signal                                    // the enqueuer
    | Tick(d: nat)                                            // the clock
    | Wake | Take | Publish(answer: Answer) | Clear           // the sender
    | Reload(changed: bool, jitter: real) | TimerFires | Cancel

  const INITIAL: State := State(0, false, 0, false, Parked, 0, 0, [], [], 0, 0)

  predicate Enabled(st: State, step: Step) {
    match step
    case StoreLatest => !st.storing
    case Signal => st.storing
    case Tick(_) => true
    case Wake => st.wake && (st.pc.Parked? || st.pc.BackingOff?)
    case Take => st.pc.Taking?
    case Publish(a) => st.pc.Publishing? && (a.Failed? ==> 0.0 <= a.jitter < 1.0)
    case Clear => st.pc.Delivered?
    case Reload(_, jitter) => st.pc.Rejected? && 0.0 <= jitter < 1.0
    case TimerFires => (st.pc.AuthWaiting? || st.pc.BackingOff?) && st.now >= st.pc.until
    case Cancel => true
  }

  function Next(c: Cadence, st: State, step: Step): State
    requires Enabled(st, step)
  {
    match step
    case StoreLatest => st.(latest := st.enqueued + 1, enqueued := st.enqueued + 1, storing := true)
    case Signal => st.(wake := true, storing := false, signals := st.signals + 1)
    case Tick(d) => st.(now := st.now + d)
    case Wake => st.(wake := false, pc := Taking, early := st.early + if st.pc.BackingOff? then 1 else 0)
    case Take =>
      if st.latest == 0 then st.(pc := Parked)
      else st.(pc := Publishing(st.latest), attempts := st.attempts + [Attempt(st.latest, st.now)])
    case Publish(Accepted) =>
      st.(pc := Delivered(st.pc.payload), delivered := st.delivered + [st.pc.payload])
    case Publish(AuthRejected) => st.(pc := Rejected(st.pc.payload))
    case Publish(Failed(jitter)) =>
      st.(pc := BackingOff(st.pc.payload, st.now, st.now + B.Wait(c.base, c.max, st.failures, jitter)),
          failures := st.failures + 1)
    case Clear =>
      st.(latest := if st.latest == st.pc.payload then 0 else st.latest, pc := Taking, failures := 0)
    case Reload(changed, jitter) =>
      if changed then st.(pc := Taking, failures := 0)
      else st.(pc := AuthWaiting(st.now, st.now + B.Wait(c.base, c.max, st.failures, jitter)), failures := st.failures + 1)
    case TimerFires => st.(pc := Taking)
    case Cancel => st.(pc := Stopped)
  }

  /** Every step of the sequence can be taken where it stands. */
  predicate Possible(c: Cadence, steps: seq<Step>)
    decreases |steps|, 0
  {
    steps == [] || (Possible(c, steps[..|steps| - 1]) && Enabled(After(c, steps[..|steps| - 1]), steps[|steps| - 1]))
  }

  function After(c: Cadence, steps: seq<Step>): State
    requires Possible(c, steps)
    decreases |steps|, 1
  {
    if steps == [] then INITIAL else Next(c, After(c, steps[..|steps| - 1]), steps[|steps| - 1])
  }

  // ---------------------------------------------------------------- the sender object

  /** What the environment does around one round of the sender: the enqueuer's steps and the passing
      of time before the take, during the post, before the reaction and during a wait, the
      server's answer, the re-read token, and which ready case a select picks. */
  datatype Moment = Moment(before: nat, during: nat, after: nat, waiting: nat, delay: nat, answer: Answer,
                           tokenChanged: bool, jitter: real, preferWake: bool, cancelled: bool)
  {
    predicate Valid() { 0.0 <= jitter < 1.0 && (answer.Failed? ==> 0.0 <= answer.jitter < 1.0) }
  }

  class Sender {
    const cadence: Cadence
    const backoff: B.Backoff
    var latest: nat
    var wake: bool
    var enqueued: nat
    var storing: bool
    var now: int
    ghost var pc: Pc
    ghost var attempts: seq<Attempt>
    ghost var delivered: seq<nat>
    ghost var signals: nat
    ghost var early: nat
    ghost var steps: seq<Step>

    ghost function Value(): State
      reads this, backoff
    {
      State(latest, wake, enqueued, storing, pc, backoff.attempt, now, attempts, delivered, signals, early)
    }

    /** The object is where its steps lead. */
    ghost predicate Valid()
      reads this, backoff
    {
      && 0 < cadence.base <= cadence.max && backoff.base == cadence.base && backoff.max == cadence.max
      && Possible(cadence, steps) && Value() == After(cadence, steps)
    }

    constructor (base: int, max: int)
      requires 0 < base <= max
      ensures Valid() && fresh(backoff) && Value() == INITIAL && cadence == Cadence(base, max) && steps == []
    {
      cadence := Cadence(base, max);
      backoff := new B.Backoff(base, max);
      latest, wake, enqueued, storing, now := 0, false, 0, false, 0;
      pc, attempts, delivered, signals, early, steps := Parked, [], [], 0, 0, [];
    }

    /** Records the step that the fields have just taken. */
    ghost method Took(before: State, step: Step)
      requires Possible(cadence, steps) && before == After(cadence, steps)
      requires Enabled(before, step) && Value() == Next(cadence, before, step)
      requires 0 < cadence.base <= cadence.max && backoff.base == cadence.base && backoff.max == cadence.max
      modifies this`steps
      ensures Valid() && steps == old(steps) + [step]
    {
      steps := steps + [step];
      assert steps[..|steps| - 1] == old(steps);
    }

    /** Enqueue is two atomic steps: the store under the lock, then the non-blocking signal. */
    method EnqueueStep()
      requires Valid()
      modifies this
      ensures Valid() && pc == old(pc) && now == old(now)
      ensures old(steps) < steps
    {
      hide Possible, After;
      ghost var before := Value();
      if !storing {
        enqueued := enqueued + 1;
        latest := enqueued;
        storing := true;
        Took(before, StoreLatest);
      } else {
        wake := true;
        storing := false;
        signals := signals + 1;
        Took(before, Signal);
      }
    }

    /** The enqueuer's next `n` steps, then a pause. */
    method Others(n: nat, delay: nat)
      requires Valid()
      modifies this
      ensures Valid() && pc == old(pc) && now >= old(now) + delay
      ensures old(steps) < steps
    {
      hide Possible, After;
      for i := 0 to n
        invariant Valid() && pc == old(pc) && now == old(now) && old(steps) <= steps
      {
        EnqueueStep();
      }
      ghost var before := Value();
      now := now + delay;
      Took(before, Tick(delay));
    }

    method Take() returns (p: nat)
      requires Valid() && pc == Taking
      modifies this
      ensures Valid() && p == latest && pc == if p == 0 then Parked else Publishing(p)
      ensures steps == old(steps) + [Step.Take]
    {
      hide Possible, After;
      ghost var before := Value();
      p := latest;
      pc := if p == 0 then Parked else Publishing(p);
      attempts := if p == 0 then attempts else attempts + [Attempt(p, now)];
      Took(before, Step.Take);
    }

    method ClearIfSame(p: nat)
      requires Valid() && pc == Delivered(p)
      modifies this, backoff
      ensures Valid() && pc == Taking && steps == old(steps) + [Clear]
    {
      hide Possible, After;
      ghost var before := Value();
      if latest == p { latest := 0; }
      backoff.Reset();
      pc := Taking;
      Took(before, Clear);
    }

    method Receive()
      requires Valid() && wake && (pc.Parked? || pc.BackingOff?)
      modifies this
      ensures Valid() && pc == Taking && steps == old(steps) + [Wake]
    {
      hide Possible, After;
      ghost var before := Value();
      wake := false;
      early := early + if pc.BackingOff? then 1 else 0;
      pc := Taking;
      Took(before, Wake);
    }

    /** The timer fires no earlier than it was set for. */
    method Sleep(until: int)
      requires Valid() && (pc.AuthWaiting? || pc.BackingOff?) && pc.until == until
      modifies this
      ensures Valid() && pc == Taking && old(steps) < steps
    {
      hide Possible, After;
      ghost var before := Value();
      var d: nat := if until <= now then 0 else until - now;
      now := now + d;
      Took(before, Tick(d));
      before := Value();
      pc := Taking;
      Took(before, TimerFires);
    }

    /** What follows the server's answer to payload `p`; true when the slot is to be looked at again. */
    method React(p: nat, m: Moment)
      requires Valid() && pc == Publishing(p) && m.Valid()
      modifies this, backoff
      ensures Valid() && pc == Taking && old(steps) < steps
    {
      hide Possible, After;
      ghost var before := Value();
      match m.answer {
        case Accepted =>
          pc, delivered := Delivered(p), delivered + [p];
          Took(before, Publish(Accepted));
          Others(m.after, m.delay);
          ClearIfSame(p);
        case AuthRejected =>
          pc := Rejected(p);
          Took(before, Publish(AuthRejected));
          Others(m.after, m.delay);
          var wait := ReloadToken(m);
          if wait.Some? {
            var until := now + wait.value;
            Others(m.waiting, m.delay);
            Sleep(until);
          }
        case Failed(jitter) =>
          var wait := backoff.Next(jitter);
          var until := now + wait;
          pc := BackingOff(p, now, until);
          Took(before, Publish(Failed(jitter)));
          Others(m.waiting, m.delay);
          if m.preferWake && wake { Receive(); } else { Sleep(until); }
      }
    }

    /** A changed token is tried at once; an unchanged one waits out the backoff. */
    method ReloadToken(m: Moment) returns (wait: Option<int>)
      requires Valid() && pc.Rejected? && m.Valid()
      modifies this, backoff
      ensures Valid() && steps == old(steps) + [Reload(m.tokenChanged, m.jitter)]
      ensures wait.None? <==> m.tokenChanged
      ensures if wait.None? then pc == Taking else pc == AuthWaiting(now, now + wait.value)
    {
      hide Possible, After;
      ghost var before := Value();
      if m.tokenChanged {
        backoff.Reset();
        pc, wait := Taking, None;
      } else {
        var d := backoff.Next(m.jitter);
        pc, wait := AuthWaiting(now, now + d), Some(d);
      }
      Took(before, Reload(m.tokenChanged, m.jitter));
    }

    /** The sender's goroutine against any schedule of the others: the steps it takes form a run of
        the machine above. */
    method Run(schedule: seq<Moment>)
      requires Valid() && pc == Parked
      requires forall m :: m in schedule ==> m.Valid()
      modifies this, backoff
      ensures Valid() && old(steps) <= steps
    {
      hide Possible, After, Value;
      var i := 0;
      while i < |schedule|
        invariant 0 <= i <= |schedule| && Valid() && pc == Parked && old(steps) <= steps
      {
        var m := schedule[i];
        i := i + 1;
        Others(m.before, m.delay);
        if m.cancelled { return; }
        if !wake { continue; }
        Receive();
        var drained := false;
        while i < |schedule| && !drained
          invariant 0 <= i <= |schedule| && Valid() && old(steps) <= steps
          invariant pc == if drained then Parked else Taking
          decreases |schedule| - i, !drained
        {
          m := schedule[i];
          i := i + 1;
          Others(m.before, m.delay);
          var p := Take();
          if p == 0 { drained := true; break; }
          Others(m.during, m.delay);
          if m.cancelled { return; }
          React(p, m);
        }
        if !drained { return; }
      }
    }
  }
}
