/** The push coalescer (internal/publisher/debounce.go): a pure decision rule and the timed loop
    around it. Instants count nanoseconds from the zero time of the Go library, which stands for
    "never". */
module Coalescer {
  import opened Common

  const NEVER: int := 0
  const MILLISECOND: int := 1_000_000

  datatype Cadence = Cadence(full: int, debounce: int, gap: int)
  {
    /** What the configuration guarantees. */
    predicate Positive() { full > 0 && debounce > 0 && gap > 0 }
  }

  datatype Reason = Change | Periodic

  datatype Decision = Push(reason: Reason) | Hold(reason: Reason, wait: int)

  function ChangeDue(lastPush: int, dirtySince: int, c: Cadence): int { Max(dirtySince + c.debounce, lastPush + c.gap) }

  function PeriodicDue(lastPush: int, lastFull: int, c: Cadence): int { Max(lastFull + c.full, lastPush + c.gap) }

  /** The coalescing rule, in the order the code applies it. */
  function Decide(now: int, lastPush: int, dirtySince: int, lastFull: int, c: Cadence): Decision {
    var haveChange := dirtySince != NEVER;
    var periodicDue := PeriodicDue(lastPush, lastFull, c);
    var changeDue := if haveChange then ChangeDue(lastPush, dirtySince, c) else NEVER;
    var earlier := haveChange && changeDue < periodicDue;
    var ready := haveChange && changeDue <= now;
    var due := if earlier || ready then changeDue else periodicDue;
    var reason := if earlier || ready then Change else Periodic;
    if due <= now then Push(reason) else Hold(reason, due - now)
  }

  /** The first instant at which anything is due. */
  function Earliest(lastPush: int, dirtySince: int, lastFull: int, c: Cadence): int {
    var periodic := PeriodicDue(lastPush, lastFull, c);
    if dirtySince == NEVER then periodic else Min(periodic, ChangeDue(lastPush, dirtySince, c))
  }

  /** A change waits that has settled, and the gap since the last push is over. */
  ghost predicate ChangeIsDue(t: int, lastPush: int, dirtySince: int, c: Cadence) {
    dirtySince != NEVER && t >= dirtySince + c.debounce && t >= lastPush + c.gap
  }

  /** The interval since the last full push is over, and so is the gap. */
  ghost predicate PeriodicIsDue(t: int, lastPush: int, lastFull: int, c: Cadence) {
    t >= lastFull + c.full && t >= lastPush + c.gap
  }

  ghost predicate IsDue(t: int, lastPush: int, dirtySince: int, lastFull: int, c: Cadence) {
    ChangeIsDue(t, lastPush, dirtySince, c) || PeriodicIsDue(t, lastPush, lastFull, c)
  }

  /** The rule pushes exactly when a change or the periodic push is due, blames a change exactly when one is,
      and otherwise waits exactly until the first instant at which something is. */
  lemma DecideExact(now: int, lastPush: int, dirtySince: int, lastFull: int, c: Cadence)
    ensures var d := Decide(now, lastPush, dirtySince, lastFull, c);
            && (d.Push? <==> IsDue(now, lastPush, dirtySince, lastFull, c))
            && (d == Push(Change) <==> ChangeIsDue(now, lastPush, dirtySince, c))
            && (d.Hold? ==>
                  && d.wait > 0 && IsDue(now + d.wait, lastPush, dirtySince, lastFull, c)
                  && forall t :: t < now + d.wait ==> !IsDue(t, lastPush, dirtySince, lastFull, c))
  {
  }

  lemma EarliestIs(t: int, lastPush: int, dirtySince: int, lastFull: int, c: Cadence)
    ensures IsDue(t, lastPush, dirtySince, lastFull, c) <==> Earliest(lastPush, dirtySince, lastFull, c) <= t
  {
  }

  lemma DecideByEarliest(now: int, lastPush: int, dirtySince: int, lastFull: int, c: Cadence)
    ensures var d, e := Decide(now, lastPush, dirtySince, lastFull, c), Earliest(lastPush, dirtySince, lastFull, c);
            && (d.Push? <==> e <= now)
            && (d.Hold? ==> d.wait == e - now > 0)
            && (d == Push(Change) <==> dirtySince != NEVER && ChangeDue(lastPush, dirtySince, c) <= now)
  {
  }

  // ---------------------------------------------------------------- the loop

  /** One turn of the loop: what woke it (for a signal, when it was sent), when, and the instant the
      rule is applied. */
  datatype Turn = Turn(signal: bool, sent: int, woke: int, now: int)

  datatype Pushed = Pushed(reason: Reason, at: int)

  /** `timer` is when the timer is set to fire. */
  datatype Loop = Loop(dirtySince: int, lastPush: int, lastFull: int, timer: int, pushes: seq<Pushed>)

  function Armed(now: int, d: int): int { now + if d <= 0 then MILLISECOND else d }

  function Step(st: Loop, t: Turn, c: Cadence): Loop {
    var dirty := if t.signal && st.dirtySince == NEVER then t.woke else st.dirtySince;
    match Decide(t.now, st.lastPush, dirty, st.lastFull, c)
    case Push(reason) => Loop(NEVER, t.now, t.now, Armed(t.now, c.full), st.pushes + [Pushed(reason, t.now)])
    case Hold(_, wait) => st.(dirtySince := dirty, timer := Armed(t.now, wait))
  }

  function Start(at: int): Loop { Loop(NEVER, NEVER, NEVER, at, []) }

  function Turns(start: int, turns: seq<Turn>, c: Cadence): Loop {
    if turns == [] then Start(start)
    else Step(Turns(start, turns[..|turns| - 1], c), turns[|turns| - 1], c)
  }

  /** The loop itself, over any sequence of wake-ups. */
  method Run(start: int, turns: seq<Turn>, c: Cadence) returns (pushes: seq<Pushed>, timer: int)
    ensures pushes == Turns(start, turns, c).pushes && timer == Turns(start, turns, c).timer
  {
    var dirtySince, lastPush, lastFull := NEVER, NEVER, NEVER;
    pushes, timer := [], start;
    for i := 0 to |turns|
      invariant Loop(dirtySince, lastPush, lastFull, timer, pushes) == Turns(start, turns[..i], c)
    {
      var t := turns[i];
      assert turns[..i + 1][..i] == turns[..i];
      if t.signal && dirtySince == NEVER { dirtySince := t.woke; }
      match Decide(t.now, lastPush, dirtySince, lastFull, c) {
        case Push(reason) =>
          pushes := pushes + [Pushed(reason, t.now)];
          lastPush, lastFull, dirtySince := t.now, t.now, NEVER;
          timer := Armed(t.now, c.full);
        case Hold(_, wait) =>
          timer := Armed(t.now, wait);
      }
    }
    assert turns[..|turns|] == turns;
  }

  // ---------------------------------------------------------------- what the runtime promises

  function LastNow(start: int, turns: seq<Turn>): int {
    if turns == [] then start else turns[|turns| - 1].now
  }

  /** The clock does not run backwards, the timer does not fire early, and the loop gets to run
      within `d` of its timer and of the sending of the signal it consumes. */
  ghost predicate Timely(start: int, turns: seq<Turn>, c: Cadence, d: int) {
    turns == [] ||
    var init, t := turns[..|turns| - 1], turns[|turns| - 1];
    && Timely(start, init, c, d)
    && LastNow(start, init) <= t.woke <= t.now
    && (if t.signal then t.sent <= t.woke && t.now <= t.sent + d else t.woke >= Turns(start, init, c).timer)
    && t.now <= Turns(start, init, c).timer + d
  }

  /** The agent starts long after the zero time. */
  predicate Modern(start: int, c: Cadence) { start > NEVER && start >= Max(c.full, c.gap) }

  // ---------------------------------------------------------------- timing

  /** What every turn keeps. */
  ghost predicate Kept(st: Loop, now: int, c: Cadence) {
    && st.lastFull == st.lastPush <= now && st.dirtySince <= now && NEVER <= st.dirtySince && NEVER <= st.lastPush
    && (st.dirtySince != NEVER ==> st.lastPush <= st.dirtySince)
    && (st.pushes != [] ==> st.lastPush == st.pushes[|st.pushes| - 1].at)
    && (st.pushes == [] ==> st.lastPush == NEVER)
  }

  lemma StepKept(st: Loop, before: int, t: Turn, c: Cadence)
    requires c.Positive() && Kept(st, before, c) && NEVER < before <= t.woke <= t.now
    ensures Kept(Step(st, t, c), t.now, c)
    ensures Step(st, t, c).timer <= Earliest(Step(st, t, c).lastPush, Step(st, t, c).dirtySince, Step(st, t, c).lastFull, c)
    ensures Step(st, t, c).pushes == st.pushes
            || (Step(st, t, c).pushes == st.pushes + [Pushed(Change, t.now)] && t.now >= st.lastPush + c.gap)
            || (Step(st, t, c).pushes == st.pushes + [Pushed(Periodic, t.now)] && t.now >= st.lastPush + c.gap)
  {
  }

  lemma {:induction false} RunKept(start: int, turns: seq<Turn>, c: Cadence, d: int)
    requires c.Positive() && Modern(start, c) && Timely(start, turns, c, d)
    ensures Kept(Turns(start, turns, c), LastNow(start, turns), c)
    ensures LastNow(start, turns) > NEVER
  {
    if turns != [] {
      hide Step, Kept;
      var init := turns[..|turns| - 1];
      RunKept(start, init, c, d);
      StepKept(Turns(start, init, c), LastNow(start, init), turns[|turns| - 1], c);
    } else {
      assert Kept(Start(start), start, c);
    }
  }

  /** The armed timer never lies after the first instant at which something is due. */
  lemma {:induction false} TimerNeverLate(start: int, turns: seq<Turn>, c: Cadence, d: int)
    requires c.Positive() && Modern(start, c) && Timely(start, turns, c, d)
    ensures var st := Turns(start, turns, c);
            turns == [] || st.timer <= Earliest(st.lastPush, st.dirtySince, st.lastFull, c)
    ensures var st := Turns(start, turns, c);
            turns != [] ==> forall t :: IsDue(t, st.lastPush, st.dirtySince, st.lastFull, c) ==> st.timer <= t
  {
    hide Kept, Step;
    if turns != [] {
      var init := turns[..|turns| - 1];
      RunKept(start, init, c, d);
      StepKept(Turns(start, init, c), LastNow(start, init), turns[|turns| - 1], c);
      var st := Turns(start, turns, c);
      forall t | IsDue(t, st.lastPush, st.dirtySince, st.lastFull, c) ensures st.timer <= t {
        EarliestIs(t, st.lastPush, st.dirtySince, st.lastFull, c);
      }
    }
  }

  /** Any two pushes are at least the minimum gap apart. */
  lemma {:induction false} MinGap(start: int, turns: seq<Turn>, c: Cadence, d: int)
    requires c.Positive() && Modern(start, c) && Timely(start, turns, c, d)
    ensures var pushes := Turns(start, turns, c).pushes;
            forall i, j :: 0 <= i < j < |pushes| ==> pushes[j].at - pushes[i].at >= c.gap
  {
    if turns != [] {
      var init, t := turns[..|turns| - 1], turns[|turns| - 1];
      var st := Turns(start, init, c);
      MinGap(start, init, c, d);
      RunKept(start, init, c, d);
      hide Step, Timely;
      StepKept(st, LastNow(start, init), t, c);
      var pushes := Turns(start, turns, c).pushes;
      forall i, j | 0 <= i < j < |pushes| ensures pushes[j].at - pushes[i].at >= c.gap {
        if j == |st.pushes| && i < j - 1 { assert st.pushes[j - 1].at - st.pushes[i].at >= c.gap; }
      }
    }
  }

  /** At every turn: a change still waiting is no older than max(debounce, gap) + d, and the last
      push no older than max(full, gap) + d. */
  lemma NothingOverdue(start: int, turns: seq<Turn>, c: Cadence, d: int, t: Turn)
    requires c.Positive() && Modern(start, c) && Timely(start, turns + [t], c, d)
    ensures var st := Turns(start, turns, c);
            && (st.dirtySince != NEVER ==> t.now <= st.dirtySince + Max(c.debounce, c.gap) + d)
            && (st.pushes != [] ==> t.now <= st.pushes[|st.pushes| - 1].at + Max(c.full, c.gap) + d)
            && (turns == [] ==> t.now <= start + d)
  {
    hide Step;
    assert (turns + [t])[..|turns|] == turns;
    RunKept(start, turns, c, d);
    TimerNeverLate(start, turns, c, d);
  }

  /** A change waiting to be pushed keeps its time until the push, whatever else arrives; a signal is
      either pushed in its own turn or waits from no later than its consumption. */
  lemma ChangeKept(start: int, turns: seq<Turn>, c: Cadence, d: int, t: Turn)
    requires c.Positive() && Modern(start, c) && Timely(start, turns + [t], c, d)
    ensures Timely(start, turns, c, d)
    ensures var st, st' := Turns(start, turns, c), Turns(start, turns + [t], c);
            && |st.pushes| <= |st'.pushes|
            && (|st'.pushes| == |st.pushes| && st.dirtySince != NEVER ==> st'.dirtySince == st.dirtySince)
            && (|st'.pushes| == |st.pushes| && t.signal ==> NEVER != st'.dirtySince <= t.woke)
  {
    assert (turns + [t])[..|turns|] == turns;
    RunKept(start, turns, c, d);
  }

  lemma PrefixTurn(turns: seq<Turn>, k: nat)
    requires k < |turns|
    ensures turns[..k + 1] == turns[..k] + [turns[k]]
  {
  }

  lemma {:induction false} TimelyPrefix(start: int, turns: seq<Turn>, c: Cadence, d: int, k: nat)
    requires Timely(start, turns, c, d) && k <= |turns|
    ensures Timely(start, turns[..k], c, d)
  {
    if k < |turns| {
      TimelyPrefix(start, turns[..|turns| - 1], c, d, k);
      assert turns[..|turns| - 1][..k] == turns[..k];
    } else {
      assert turns[..k] == turns;
    }
  }

  lemma {:induction false} PushesGrow(start: int, turns: seq<Turn>, c: Cadence, i: nat, j: nat)
    requires i <= j <= |turns|
    ensures |Turns(start, turns[..i], c).pushes| <= |Turns(start, turns[..j], c).pushes|
  {
    if i < j {
      PushesGrow(start, turns, c, i, j - 1);
      assert turns[..j][..j - 1] == turns[..j - 1];
    }
  }

  /** From its turn on, until a push, a signal is waiting since its consumption or longer. */
  lemma {:induction false} SignalWaits(start: int, turns: seq<Turn>, c: Cadence, d: int, i: nat, j: nat)
    requires c.Positive() && Modern(start, c) && Timely(start, turns, c, d) && i < j <= |turns| && turns[i].signal
    requires |Turns(start, turns[..j], c).pushes| == |Turns(start, turns[..i], c).pushes|
    ensures NEVER != Turns(start, turns[..j], c).dirtySince <= turns[i].woke
  {
    hide Timely, Turns;
    TimelyPrefix(start, turns, c, d, j);
    PrefixTurn(turns, j - 1);
    ChangeKept(start, turns[..j - 1], c, d, turns[j - 1]);
    PushesGrow(start, turns, c, i, j - 1);
    if i < j - 1 { SignalWaits(start, turns, c, d, i, j - 1); }
  }

  /** A change is pushed within max(debounce, gap) + 2d of being sent, however many further changes keep
      arriving: no later turn happens without a push in between. */
  lemma ChangeServed(start: int, turns: seq<Turn>, c: Cadence, d: int, i: nat, j: nat)
    requires c.Positive() && Modern(start, c) && Timely(start, turns, c, d) && i <= j < |turns| && turns[i].signal
    requires |Turns(start, turns[..j], c).pushes| == |Turns(start, turns[..i], c).pushes|
    ensures turns[j].now <= turns[i].sent + Max(c.debounce, c.gap) + 2 * d
  {
    hide Turns;
    TimelyPrefix(start, turns, c, d, j + 1);
    PrefixTurn(turns, j);
    TimelyPrefix(start, turns, c, d, i + 1);
    PrefixTurn(turns, i);
    SignalPrompt(start, turns[..i], c, d, turns[i]);
    if i < j {
      hide Timely;
      NothingOverdue(start, turns[..j], c, d, turns[j]);
      SignalWaits(start, turns, c, d, i, j);
    }
  }

  lemma SignalPrompt(start: int, turns: seq<Turn>, c: Cadence, d: int, t: Turn)
    requires Timely(start, turns + [t], c, d) && t.signal
    ensures t.sent <= t.woke <= t.now <= t.sent + d
  {
  }

  // ---------------------------------------------------------------- no push without a cause

  /** A change consumed since the last push. */
  ghost predicate ConsumedSince(turns: seq<Turn>, lastPush: int, at: int) {
    exists k :: 0 <= k < |turns| && turns[k].signal && turns[k].woke == at && lastPush <= at
  }

  lemma {:induction false} DirtyIsConsumed(start: int, turns: seq<Turn>, c: Cadence, d: int)
    requires c.Positive() && Modern(start, c) && Timely(start, turns, c, d)
    ensures var st := Turns(start, turns, c);
            st.dirtySince != NEVER ==> ConsumedSince(turns, st.lastPush, st.dirtySince)
  {
    if turns != [] {
      var init, t := turns[..|turns| - 1], turns[|turns| - 1];
      assert turns == init + [t];
      DirtyIsConsumed(start, init, c, d);
      RunKept(start, init, c, d);
      RunKept(start, turns, c, d);
      hide Timely, Modern;
      var st, st' := Turns(start, init, c), Turns(start, turns, c);
      if st.dirtySince != NEVER && st'.dirtySince != NEVER {
        var k :| 0 <= k < |init| && init[k].signal && init[k].woke == st.dirtySince && st.lastPush <= st.dirtySince;
        assert turns[k] == init[k];
      } else if st'.dirtySince != NEVER {
        assert turns[|init|] == t && t.signal && t.woke == st'.dirtySince;
      }
    }
  }

  /** No push comes without a cause: a change push follows a change consumed since the previous push and at
      least Debounce ago, and a periodic one comes at least the full interval after the previous push. */
  lemma PushHasCause(start: int, turns: seq<Turn>, c: Cadence, d: int, t: Turn)
    requires c.Positive() && Modern(start, c) && Timely(start, turns + [t], c, d)
    ensures var st, st' := Turns(start, turns, c), Turns(start, turns + [t], c);
            && (st'.pushes == st.pushes + [Pushed(Change, t.now)] ==>
                  exists at :: ConsumedSince(turns + [t], st.lastPush, at) && at + c.debounce <= t.now)
            && (st'.pushes == st.pushes + [Pushed(Periodic, t.now)] && st.pushes != [] ==>
                  t.now - st.pushes[|st.pushes| - 1].at >= c.full)
  {
    assert (turns + [t])[..|turns|] == turns && (turns + [t])[|turns|] == t;
    RunKept(start, turns, c, d);
    DirtyIsConsumed(start, turns, c, d);
    var st := Turns(start, turns, c);
    var dirty := if t.signal && st.dirtySince == NEVER then t.woke else st.dirtySince;
    DecideExact(t.now, st.lastPush, dirty, st.lastFull, c);
    assert (st.pushes + [Pushed(Change, t.now)])[|st.pushes|] != (st.pushes + [Pushed(Periodic, t.now)])[|st.pushes|];
    if Decide(t.now, st.lastPush, dirty, st.lastFull, c) == Push(Change) {
      assert ConsumedSince(turns + [t], st.lastPush, dirty) by {
        if st.dirtySince != NEVER {
          var k :| 0 <= k < |turns| && turns[k].signal && turns[k].woke == st.dirtySince && st.lastPush <= st.dirtySince;
          assert (turns + [t])[k] == turns[k];
        }
      }
    }
  }

  // ---------------------------------------------------------------- not a quiet period

  /** No change was consumed in the last Debounce before `at`. */
  ghost predicate Quiet(turns: seq<Turn>, at: int, c: Cadence) {
    forall k :: 0 <= k < |turns| && turns[k].signal ==> turns[k].woke + c.debounce <= at
  }

  /** When a change was last consumed. */
  function LastSignal(turns: seq<Turn>): int {
    if turns == [] then NEVER
    else if turns[|turns| - 1].signal then turns[|turns| - 1].woke
    else LastSignal(turns[..|turns| - 1])
  }

  lemma {:induction false} SignalsOrdered(start: int, turns: seq<Turn>, c: Cadence, d: int)
    requires Timely(start, turns, c, d) && start > NEVER
    ensures start <= LastNow(start, turns) && NEVER <= LastSignal(turns) <= LastNow(start, turns)
    ensures forall k :: 0 <= k < |turns| && turns[k].signal ==> turns[k].woke <= LastSignal(turns) <= LastNow(start, turns)
    ensures LastSignal(turns) == NEVER
            || exists k :: 0 <= k < |turns| && turns[k].signal && turns[k].woke == LastSignal(turns)
  {
    if turns != [] {
      var init, last := turns[..|turns| - 1], turns[|turns| - 1];
      SignalsOrdered(start, init, c, d);
      forall k | 0 <= k < |turns| && turns[k].signal ensures turns[k].woke <= LastSignal(turns) <= LastNow(start, turns) {
        if k < |init| { assert init[k] == turns[k]; }
      }
      if !last.signal && LastSignal(init) != NEVER {
        var k :| 0 <= k < |init| && init[k].signal && init[k].woke == LastSignal(init);
        assert turns[k].signal;
      }
    }
  }

  /** The waiting change is no newer than the last one consumed. */
  lemma {:induction false} DirtyIsOlder(start: int, turns: seq<Turn>, c: Cadence, d: int)
    requires c.Positive() && Modern(start, c) && Timely(start, turns, c, d)
    ensures Turns(start, turns, c).dirtySince <= LastSignal(turns)
  {
    if turns != [] {
      var init, t := turns[..|turns| - 1], turns[|turns| - 1];
      DirtyIsOlder(start, init, c, d);
      SignalsOrdered(start, init, c, d);
    }
  }

  /** The oldest change a turn finds waiting. */
  function Waiting(st: Loop, t: Turn): int {
    if t.signal && st.dirtySince == NEVER then t.woke else st.dirtySince
  }

  /** The newest change came with the oldest one, or Debounce before the gap was over; `slack` late. */
  predicate Rested(oldest: int, newest: int, lastPush: int, c: Cadence, slack: int) {
    newest <= oldest + slack || newest + c.debounce <= lastPush + c.gap + slack
  }

  lemma ChangePushDue(st: Loop, t: Turn, c: Cadence)
    requires Step(st, t, c).pushes == st.pushes + [Pushed(Change, t.now)]
    ensures Waiting(st, t) != NEVER && ChangeDue(st.lastPush, Waiting(st, t), c) <= t.now
  {
    DecideByEarliest(t.now, st.lastPush, Waiting(st, t), st.lastFull, c);
    assert (st.pushes + [Pushed(Periodic, t.now)])[|st.pushes|] != (st.pushes + [Pushed(Change, t.now)])[|st.pushes|];
  }

  /** The turn is late by at most d for what waited before it, or for its own signal. */
  lemma ChangePushLate(start: int, turns: seq<Turn>, c: Cadence, d: int, t: Turn)
    requires c.Positive() && Modern(start, c) && Timely(start, turns + [t], c, d)
    requires Waiting(Turns(start, turns, c), t) != NEVER
    ensures var st := Turns(start, turns, c); t.now <= ChangeDue(st.lastPush, Waiting(st, t), c) + d
  {
    assert (turns + [t])[..|turns|] == turns;
    hide Step, Decide;
    RunKept(start, turns, c, d);
    TimerNeverLate(start, turns, c, d);
  }

  /** When a change push follows a quiet period, by what the loop's clock shows before it: surely when
      the newest change is the oldest one waiting or came Debounce before the minimum gap was over, and
      only when it is so up to the loop's lateness d. With a punctual loop (d = 0) that is exact. */
  lemma QuietIff(start: int, turns: seq<Turn>, c: Cadence, d: int, t: Turn)
    requires c.Positive() && Modern(start, c) && Timely(start, turns + [t], c, d)
    requires var st := Turns(start, turns, c); Step(st, t, c).pushes == st.pushes + [Pushed(Change, t.now)]
    ensures var st, newest := Turns(start, turns, c), LastSignal(turns + [t]);
            && Waiting(st, t) <= newest
            && (Rested(Waiting(st, t), newest, st.lastPush, c, 0) ==> Quiet(turns + [t], t.now, c))
            && (Quiet(turns + [t], t.now, c) ==> Rested(Waiting(st, t), newest, st.lastPush, c, d))
  {
    var st, all := Turns(start, turns, c), turns + [t];
    assert all[..|turns|] == turns && all[|turns|] == t;
    ChangePushDue(st, t, c);
    ChangePushLate(start, turns, c, d, t);
    DirtyIsOlder(start, turns, c, d);
    SignalsOrdered(start, turns, c, d);
    SignalsOrdered(start, all, c, d);
    assert LastSignal(all) == if t.signal then t.woke else LastSignal(turns);
    RunKept(start, turns, c, d);
    hide Turns, Timely, Step;
  }

  /** A busy run: a change comes one instant before a change push. */
  lemma BusyPush()
    ensures var c := Cadence(100, 10, 1);
            var turns := [Turn(false, 0, 1000, 1000), Turn(true, 1005, 1005, 1005), Turn(true, 1014, 1014, 1014),
                          Turn(false, 0, 1015, 1015)];
            && c.Positive() && Modern(1000, c) && Timely(1000, turns, c, 0)
            && Turns(1000, turns, c).pushes == [Pushed(Periodic, 1000), Pushed(Change, 1015)]
            && !Quiet(turns, 1015, c)
  {
    var c := Cadence(100, 10, 1);
    var turns := [Turn(false, 0, 1000, 1000), Turn(true, 1005, 1005, 1005), Turn(true, 1014, 1014, 1014),
                  Turn(false, 0, 1015, 1015)];
    assert turns[..4] == turns && turns[..1][..0] == [] && turns[..0] == [];
    assert turns[..3][..2] == turns[..2] && turns[..2][..1] == turns[..1];
    assert Turns(1000, turns[..1], c) == Loop(NEVER, 1000, 1000, 1100, [Pushed(Periodic, 1000)]);
    assert Turns(1000, turns[..2], c) == Loop(1005, 1000, 1000, 1015, [Pushed(Periodic, 1000)]);
    assert Turns(1000, turns[..3], c) == Loop(1005, 1000, 1000, 1015, [Pushed(Periodic, 1000)]);
    assert Timely(1000, turns[..1], c, 0);
    assert Timely(1000, turns[..2], c, 0);
    assert Timely(1000, turns[..3], c, 0);
    assert turns[2].signal;
  }

  /** Pushes are never more than max(full, gap) + d apart, and the first comes within d of the start. */
  lemma {:induction false} FullInterval(start: int, turns: seq<Turn>, c: Cadence, d: int)
    requires c.Positive() && Modern(start, c) && Timely(start, turns, c, d)
    ensures var pushes := Turns(start, turns, c).pushes;
            && (turns != [] ==> pushes != [] && pushes[0].at <= start + d)
            && forall i :: 0 <= i < |pushes| - 1 ==> pushes[i + 1].at - pushes[i].at <= Max(c.full, c.gap) + d
  {
    if turns != [] {
      var init, t := turns[..|turns| - 1], turns[|turns| - 1];
      assert init + [t] == turns;
      FullInterval(start, init, c, d);
      RunKept(start, init, c, d);
      NothingOverdue(start, init, c, d, t);
      StepKept(Turns(start, init, c), LastNow(start, init), t, c);
      if init == [] { FirstTurnPushes(start, t, c); }
      hide Step, Timely;
    }
  }

  lemma FirstTurnPushes(start: int, t: Turn, c: Cadence)
    requires c.Positive() && Modern(start, c) && start <= t.woke <= t.now
    ensures |Step(Start(start), t, c).pushes| == 1 && Step(Start(start), t, c).pushes[0].at == t.now
  {
    DecideByEarliest(t.now, NEVER, if t.signal then t.woke else NEVER, NEVER, c);
  }
}
