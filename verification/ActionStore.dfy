/** The report store (internal/actions/store.go): a list keyed by (kind, target), written by
    the executor and copied onto every heartbeat. */
module ActionStore {
  import opened Common
  import opened Fleet

  datatype Reports = Reports(revision: int, items: seq<Action>)

  const EMPTY: Reports := Reports(0, [])

  type Key = (Kind, string)

  function KeyOf(a: Action): Key { (a.kind, a.target) }

  // ---------------------------------------------------------------- the four operations

  /** Replaces the entry with a's key in its place, or appends. */
  function Upserted(items: seq<Action>, a: Action): seq<Action> {
    if items == [] then [a]
    else if KeyOf(items[0]) == KeyOf(a) then [a] + items[1..]
    else [items[0]] + Upserted(items[1..], a)
  }

  /** An entry Prune retires: of this kind, not done, and not kept. */
  predicate Stale(a: Action, kind: Kind, keep: set<string>) {
    a.kind == kind && a.status != Done && a.target !in keep
  }

  function Pruned(items: seq<Action>, kind: Kind, keep: set<string>): seq<Action> {
    if items == [] then []
    else
      var init, last := items[..|items| - 1], items[|items| - 1];
      Pruned(init, kind, keep) + if Stale(last, kind, keep) then [] else [last]
  }

  /** What one executor event does to the reports; API writes and markers do nothing. */
  function Apply(r: Reports, e: Event): Reports {
    match e
    case BeginRevision(revision) => if revision != r.revision then Reports(revision, []) else r
    case ClearReports => EMPTY
    case Report(a) => r.(items := Upserted(r.items, a))
    case PruneReports(kind, keep) => r.(items := Pruned(r.items, kind, keep))
    case _ => r
  }

  function Replay(r: Reports, events: seq<Event>): Reports {
    if events == [] then r
    else Apply(Replay(r, events[..|events| - 1]), events[|events| - 1])
  }

  /** Upserting at the first position with a's key, or at the end. */
  lemma {:induction false} UpsertedAt(items: seq<Action>, a: Action, i: nat)
    requires i <= |items| && forall j :: 0 <= j < i ==> KeyOf(items[j]) != KeyOf(a)
    ensures i == |items| ==> Upserted(items, a) == items + [a]
    ensures i < |items| && KeyOf(items[i]) == KeyOf(a) ==> Upserted(items, a) == items[i := a]
  {
    if i > 0 {
      assert KeyOf(items[0]) != KeyOf(a);
      UpsertedAt(items[1..], a, i - 1);
      assert items == [items[0]] + items[1..];
    }
  }

  /** What the compaction has done after `i` entries. */
  ghost predicate Compacted(all: seq<Action>, i: nat, kind: Kind, keep: set<string>, kept: seq<Action>, changed: bool)
    requires i <= |all|
  {
    kept == Pruned(all[..i], kind, keep) && |kept| <= i && (if changed then |kept| < i else kept == all[..i])
  }

  lemma NoneCompacted(all: seq<Action>, kind: Kind, keep: set<string>)
    ensures Compacted(all, 0, kind, keep, [], false)
  {
  }

  lemma CompactedNext(all: seq<Action>, i: nat, kind: Kind, keep: set<string>, kept: seq<Action>, changed: bool)
    requires i < |all| && Compacted(all, i, kind, keep, kept, changed)
    ensures if Stale(all[i], kind, keep) then Compacted(all, i + 1, kind, keep, kept, true)
            else Compacted(all, i + 1, kind, keep, kept + [all[i]], changed)
  {
    assert all[..i + 1][..i] == all[..i] && all[..i + 1] == all[..i] + [all[i]];
  }

  lemma AllCompacted(all: seq<Action>, kind: Kind, keep: set<string>, kept: seq<Action>, changed: bool)
    requires Compacted(all, |all|, kind, keep, kept, changed)
    ensures kept == Pruned(all, kind, keep) && (changed <==> kept != all)
  {
    assert all[..|all|] == all;
  }

  // ---------------------------------------------------------------- the store object

  /** `notified` counts the calls of the notify hook. */
  class Store {
    var revision: int
    var items: seq<Action>
    var notified: nat

    function Value(): Reports
      reads this
    {
      Reports(revision, items)
    }

    constructor ()
      ensures Value() == EMPTY && notified == 0
    {
      revision, items, notified := 0, [], 0;
    }

    method Begin(revision: int)
      modifies this
      ensures Value() == Apply(old(Value()), BeginRevision(revision))
      ensures this.revision == revision && items == if revision == old(this.revision) then old(items) else []
      ensures notified == old(notified) + if items != old(items) then 1 else 0
    {
      var changed := false;
      if revision != this.revision {
        changed := |items| > 0;
        items := [];
        this.revision := revision;
      }
      if changed { notified := notified + 1; }
    }

    method Upsert(a: Action)
      modifies this
      ensures Value() == Apply(old(Value()), Report(a))
      ensures notified == old(notified) + if items != old(items) then 1 else 0
    {
      var changed, found := true, false;
      var i := 0;
      while i < |items| && !found
        invariant 0 <= i <= |items| && items == old(items) && (found ==> i < |items| && KeyOf(items[i]) == KeyOf(a))
        invariant forall j :: 0 <= j < i ==> KeyOf(items[j]) != KeyOf(a)
        decreases |items| - i, !found
      {
        if KeyOf(items[i]) == KeyOf(a) { found := true; } else { i := i + 1; }
      }
      UpsertedAt(items, a, i);
      if found {
        if items[i] == a { changed := false; } else { items := items[i := a]; }
      } else {
        items := items + [a];
      }
      if changed { notified := notified + 1; }
    }

    method Prune(kind: Kind, keep: set<string>)
      modifies this
      ensures Value() == Apply(old(Value()), PruneReports(kind, keep))
      ensures notified == old(notified) + if items != old(items) then 1 else 0
    {
      var all, kept, changed := items, [], false;
      hide Compacted;
      NoneCompacted(all, kind, keep);
      for i := 0 to |all|
        modifies {}
        invariant Compacted(all, i, kind, keep, kept, changed)
      {
        CompactedNext(all, i, kind, keep, kept, changed);
        if Stale(all[i], kind, keep) {
          changed := true;
        } else {
          kept := kept + [all[i]];
        }
      }
      AllCompacted(all, kind, keep, kept, changed);
      items := kept;
      if changed { notified := notified + 1; }
    }

    method Clear()
      modifies this
      ensures Value() == Apply(old(Value()), ClearReports) && items == [] && revision == 0
      ensures notified == old(notified) + if items != old(items) then 1 else 0
    {
      var had := |items| > 0;
      items := [];
      revision := 0;
      if had { notified := notified + 1; }
    }

    method Snapshot() returns (copy: seq<Action>)
      ensures copy == items
    {
      copy := items;
    }
  }

  // ---------------------------------------------------------------- an insertion-ordered map

  /** Each (kind, target) occurs once. */
  ghost predicate Keyed(items: seq<Action>) {
    forall i, j :: 0 <= i < j < |items| ==> KeyOf(items[i]) != KeyOf(items[j])
  }

  ghost function Keys(items: seq<Action>): seq<Key> {
    seq(|items|, i requires 0 <= i < |items| => KeyOf(items[i]))
  }

  lemma KeyedCons(head: Action, tail: seq<Action>)
    ensures Keyed([head] + tail) <==> Keyed(tail) && forall b :: b in tail ==> KeyOf(b) != KeyOf(head)
  {
    var items := [head] + tail;
    if Keyed(items) {
      forall i, j | 0 <= i < j < |tail| ensures KeyOf(tail[i]) != KeyOf(tail[j]) {
        assert KeyOf(items[i + 1]) != KeyOf(items[j + 1]);
      }
      forall i | 0 <= i < |tail| ensures KeyOf(tail[i]) != KeyOf(head) {
        assert KeyOf(items[0]) != KeyOf(items[i + 1]);
      }
    }
  }

  /** Upsert is the map update: its key now maps to `a` alone, every other key is untouched. */
  lemma {:induction false} UpsertRefinesMapUpdate(items: seq<Action>, a: Action)
    requires Keyed(items)
    ensures Keyed(Upserted(items, a))
    ensures forall b :: b in Upserted(items, a) <==> b == a || (b in items && KeyOf(b) != KeyOf(a))
  {
    if items != [] {
      var head, tail := items[0], items[1..];
      assert items == [head] + tail;
      KeyedCons(head, tail);
      if KeyOf(head) == KeyOf(a) {
        KeyedCons(a, tail);
      } else {
        UpsertRefinesMapUpdate(tail, a);
        KeyedCons(head, Upserted(tail, a));
      }
    }
  }

  /** It keeps the order of the keys, and a new key goes to the end. */
  lemma {:induction false} UpsertKeepsOrder(items: seq<Action>, a: Action)
    ensures Keys(Upserted(items, a)) == if KeyOf(a) in Keys(items) then Keys(items) else Keys(items) + [KeyOf(a)]
  {
    if items != [] {
      var head, tail := items[0], items[1..];
      assert Keys(items) == [KeyOf(head)] + Keys(tail);
      if KeyOf(head) == KeyOf(a) {
        assert Keys([a] + tail) == [KeyOf(a)] + Keys(tail);
      } else {
        UpsertKeepsOrder(tail, a);
        assert Keys([head] + Upserted(tail, a)) == [KeyOf(head)] + Keys(Upserted(tail, a));
      }
    }
  }

  /** Prune is exactly a filter: what it keeps, it keeps in order, and it drops only entries of the kind that
      are neither done nor to be kept. */
  lemma {:induction false} PruneRefinesFilter(items: seq<Action>, kind: Kind, keep: set<string>)
    ensures forall b :: b in Pruned(items, kind, keep) <==>
              b in items && (b.kind != kind || b.status == Done || b.target in keep)
    ensures Keyed(items) ==> Keyed(Pruned(items, kind, keep))
  {
    if items != [] {
      var init, last := items[..|items| - 1], items[|items| - 1];
      assert items == init + [last];
      PruneRefinesFilter(init, kind, keep);
      var rest := Pruned(init, kind, keep);
      if Keyed(items) {
        assert forall i :: 0 <= i < |init| ==> KeyOf(items[i]) != KeyOf(items[|init|]);
        assert forall b :: b in rest ==> KeyOf(b) != KeyOf(last);
      }
    }
  }

  /** Keys stay unique under every sequence of operations. */
  lemma {:induction false} ReplayKeyed(r: Reports, events: seq<Event>)
    requires Keyed(r.items)
    ensures Keyed(Replay(r, events).items)
  {
    if events != [] {
      var init, last := events[..|events| - 1], events[|events| - 1];
      ReplayKeyed(r, init);
      match last {
        case Report(a) => UpsertRefinesMapUpdate(Replay(r, init).items, a);
        case PruneReports(kind, keep) => PruneRefinesFilter(Replay(r, init).items, kind, keep);
        case _ =>
      }
    }
  }

  lemma {:induction false} ReplayAppend(r: Reports, a: seq<Event>, b: seq<Event>)
    ensures Replay(r, a + b) == Replay(Replay(r, a), b)
  {
    if b == [] {
      assert a + b == a;
    } else {
      assert (a + b)[..|a + b| - 1] == a + b[..|b| - 1];
      ReplayAppend(r, a, b[..|b| - 1]);
    }
  }

  // ---------------------------------------------------------------- reading a replay

  /** The last report under a key. */
  function LastReport(events: seq<Event>, k: Key): Option<Action> {
    if events == [] then None
    else
      var last := events[|events| - 1];
      if last.Report? && KeyOf(last.action) == k then Some(last.action)
      else LastReport(events[..|events| - 1], k)
  }

  /** No event that drops reports. */
  ghost predicate OnlyReports(events: seq<Event>) {
    forall e :: e in events ==> !e.BeginRevision? && !e.ClearReports? && !e.PruneReports?
  }

  lemma {:induction false} LastReportAppend(a: seq<Event>, b: seq<Event>, k: Key)
    ensures LastReport(a + b, k) == if LastReport(b, k).Some? then LastReport(b, k) else LastReport(a, k)
  {
    if b == [] {
      assert a + b == a;
    } else {
      assert (a + b)[..|a + b| - 1] == a + b[..|b| - 1];
      LastReportAppend(a, b[..|b| - 1], k);
    }
  }

  lemma {:induction false} LastReportMember(events: seq<Event>, k: Key)
    ensures LastReport(events, k).Some? ==>
              Report(LastReport(events, k).value) in events && KeyOf(LastReport(events, k).value) == k
    ensures LastReport(events, k).None? ==> forall e :: e in events && e.Report? ==> KeyOf(e.action) != k
  {
    if events != [] {
      var init, last := events[..|events| - 1], events[|events| - 1];
      assert events == init + [last];
      LastReportMember(init, k);
    }
  }

  /** After a run of reports the store holds, per key, the last report, else what it held before. */
  lemma {:induction false} ReplayHoldsLastReports(r: Reports, events: seq<Event>)
    requires Keyed(r.items) && OnlyReports(events)
    ensures Keyed(Replay(r, events).items) && Replay(r, events).revision == r.revision
    ensures forall b :: b in Replay(r, events).items <==>
              LastReport(events, KeyOf(b)) == Some(b) || (LastReport(events, KeyOf(b)).None? && b in r.items)
  {
    if events != [] {
      var init, last := events[..|events| - 1], events[|events| - 1];
      assert events == init + [last];
      ReplayHoldsLastReports(r, init);
      if last.Report? { UpsertRefinesMapUpdate(Replay(r, init).items, last.action); }
    }
  }
}
