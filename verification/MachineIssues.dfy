/** Provisioning failures for the heartbeat (internal/machineissues/collector.go): terminal errors and
    missing nodes read off the machines, retry-loop errors read off their Warning events. */
module MachineIssues {
  import opened Common
  import opened Fleet
  import opened Ordering
  import opened PoolResolution

  const NODE_JOIN_TIMEOUT: int := 10 * 60 * SECOND
  const REASON_NODE_JOIN_TIMEOUT: string := "NodeJoinTimeout"
  const UNKNOWN_POOL: string := "unknown"
  const MAX_ISSUES: nat := 20
  const NO_TIME: int := 0

  datatype IssueKey = IssueKey(pool: string, machine: string, reason: string)

  datatype Message = Text(text: string) | NoNode(minutes: int)

  datatype Raw = Raw(key: IssueKey, message: Message)

  /** A Warning event with the four places its time may live in. */
  datatype Warning = Warning(kind: string, namespace: string, name: string, reason: string, message: string,
                             series: Option<int>, last: Option<int>, event: Option<int>, created: Option<int>)

  function EventTime(e: Warning): int {
    if e.series.Some? then e.series.value
    else if e.last.Some? then e.last.value
    else if e.event.Some? then e.event.value
    else if e.created.Some? then e.created.value
    else NO_TIME
  }

  function PoolLabel(mds: seq<Deployment>, m: Machine): string {
    if PoolNameOf(mds, m) == "" then UNKNOWN_POOL else PoolNameOf(mds, m)
  }

  function Age(m: Machine, now: int): int { if m.created.Some? then now - m.created.value else 0 }

  // ---------------------------------------------------------------- collecting, as functions

  function Keys(raws: seq<Raw>): set<IssueKey> { set r | r in raws :: r.key }

  /** A guarded append: no empty reason, and the first of a key wins. */
  function Add(raws: seq<Raw>, key: IssueKey, message: Message): seq<Raw> {
    if key.reason == "" || key in Keys(raws) then raws else raws + [Raw(key, message)]
  }

  function ScanOne(raws: seq<Raw>, mds: seq<Deployment>, m: Machine, now: int): seq<Raw> {
    if m.deleting then raws
    else
      var pool := PoolLabel(mds, m);
      var withError := Add(raws, IssueKey(pool, m.name, m.errorReason), Text(m.errorMessage));
      if m.nodeRef == "" && Age(m, now) >= NODE_JOIN_TIMEOUT then
        Add(withError, IssueKey(pool, m.name, REASON_NODE_JOIN_TIMEOUT), NoNode(Age(m, now) / (60 * SECOND)))
      else withError
  }

  function Scan(machines: seq<Machine>, mds: seq<Deployment>, now: int): seq<Raw> {
    if machines == [] then []
    else ScanOne(Scan(machines[..|machines| - 1], mds, now), mds, machines[|machines| - 1], now)
  }

  /** What an event is about: nothing unless a live machine of this namespace. */
  function KeyOf(machines: seq<Machine>, mds: seq<Deployment>, namespace: string, e: Warning): Option<IssueKey> {
    var byName := IndexBy(machines, MachineName);
    if e.kind != "Machine" || e.namespace != namespace || e.name !in byName || byName[e.name].deleting then None
    else Some(IssueKey(PoolLabel(mds, byName[e.name]), byName[e.name].name, e.reason))
  }

  function Overwrite(raws: seq<Raw>, key: IssueKey, message: Message): seq<Raw> {
    if raws == [] then []
    else if raws[0].key == key then [Raw(key, message)] + raws[1..]
    else [raws[0]] + Overwrite(raws[1..], key, message)
  }

  datatype Collected = Collected(raws: seq<Raw>, newest: map<IssueKey, int>)

  function Newest(c: Collected, key: IssueKey): int { if key in c.newest then c.newest[key] else NO_TIME }

  /** A newer event replaces the message; a key no machine reported is appended, its reason unchecked. */
  function Observe(c: Collected, key: IssueKey, e: Warning): Collected {
    var ts := EventTime(e);
    if key in Keys(c.raws) && ts <= Newest(c, key) then c
    else
      Collected(if key in Keys(c.raws) then Overwrite(c.raws, key, Text(e.message)) else c.raws + [Raw(key, Text(e.message))],
                c.newest[key := ts])
  }

  function Collect(machines: seq<Machine>, mds: seq<Deployment>, namespace: string, events: seq<Warning>,
                   now: int): Collected {
    if events == [] then Collected(Scan(machines, mds, now), map[])
    else
      var c, e := Collect(machines, mds, namespace, events[..|events| - 1], now), events[|events| - 1];
      match KeyOf(machines, mds, namespace, e)
      case None => c
      case Some(key) => Observe(c, key, e)
  }

  // ---------------------------------------------------------------- stamping, sorting, capping

  type FirstSeen = map<IssueKey, int>

  function SeenAt(firstSeen: FirstSeen, key: IssueKey, now: int): int {
    if key in firstSeen then firstSeen[key] else now
  }

  function FirstSeenAfter(firstSeen: FirstSeen, raws: seq<Raw>, now: int): FirstSeen {
    map key | key in Keys(raws) :: SeenAt(firstSeen, key, now)
  }

  /** `since` has the resolution of the text format: whole seconds. */
  datatype Stamp = Stamp(since: int, key: IssueKey)
  datatype Issue = Issue(stamp: Stamp, message: Message)

  function StampOf(firstSeen: FirstSeen, key: IssueKey, now: int): Stamp {
    Stamp(SeenAt(firstSeen, key, now) / SECOND, key)
  }

  predicate KeyLe(a: IssueKey, b: IssueKey) {
    if a.pool != b.pool then StringLe(a.pool, b.pool)
    else if a.machine != b.machine then StringLe(a.machine, b.machine)
    else StringLe(a.reason, b.reason)
  }

  predicate StampLe(a: Stamp, b: Stamp) { if a.since != b.since then a.since < b.since else KeyLe(a.key, b.key) }

  predicate IssueLe(a: Issue, b: Issue) { StampLe(a.stamp, b.stamp) }

  function IssueOf(firstSeen: FirstSeen, r: Raw, now: int): Issue { Issue(StampOf(firstSeen, r.key, now), r.message) }

  function IssuesOf(firstSeen: FirstSeen, raws: seq<Raw>, now: int): seq<Issue> {
    seq(|raws|, i requires 0 <= i < |raws| => IssueOf(firstSeen, raws[i], now))
  }

  function Kept(issues: seq<Issue>): seq<Issue> {
    var sorted := Sort(issues, IssueLe);
    if |sorted| > MAX_ISSUES then sorted[..MAX_ISSUES] else sorted
  }

  // ---------------------------------------------------------------- the collector object

  class Collector {
    const namespace: string
    var firstSeen: FirstSeen

    constructor (namespace: string)
      ensures this.namespace == namespace && firstSeen == map[]
    {
      this.namespace, firstSeen := namespace, map[];
    }

    method ScanMachines(machines: seq<Machine>, ghost mds: seq<Deployment>, resolver: PoolResolver, now: int)
      returns (raws: seq<Raw>, seen: set<IssueKey>)
      requires resolver.Value() == ResolverOf(mds)
      ensures raws == Scan(machines, mds, now) && seen == Keys(raws)
    {
      hide ResolverOf;
      raws, seen := [], {};
      for i := 0 to |machines|
        invariant raws == Scan(machines[..i], mds, now) && seen == Keys(raws)
      {
        var m := machines[i];
        assert machines[..i + 1][..i] == machines[..i];
        if m.deleting { continue; }
        var pool := ResolvePool(resolver, mds, m);
        raws, seen := Append(raws, seen, IssueKey(pool, m.name, m.errorReason), Text(m.errorMessage));
        if m.nodeRef == "" && Age(m, now) >= NODE_JOIN_TIMEOUT {
          raws, seen := Append(raws, seen, IssueKey(pool, m.name, REASON_NODE_JOIN_TIMEOUT),
                               NoNode(Age(m, now) / (60 * SECOND)));
        }
      }
      assert machines[..|machines|] == machines;
    }

    method ResolvePool(resolver: PoolResolver, ghost mds: seq<Deployment>, m: Machine) returns (pool: string)
      requires resolver.Value() == ResolverOf(mds)
      ensures pool == PoolLabel(mds, m)
    {
      hide ResolverOf, PoolFor;
      var owner := resolver.Find(m);
      pool := if owner.Some? then owner.value.name else "";
      if pool == "" { pool := UNKNOWN_POOL; }
    }

    method Append(raws: seq<Raw>, seen: set<IssueKey>, key: IssueKey, message: Message)
      returns (raws': seq<Raw>, seen': set<IssueKey>)
      requires seen == Keys(raws)
      ensures raws' == Add(raws, key, message) && seen' == Keys(raws')
    {
      if key.reason == "" || key in seen { return raws, seen; }
      raws' := raws + [Raw(key, message)];
      seen' := seen + {key};
    }

    /** The newer event's text takes the place of the old one. */
    method Replace(raws: seq<Raw>, key: IssueKey, message: Message) returns (raws': seq<Raw>)
      ensures raws' == Overwrite(raws, key, message)
    {
      raws' := raws;
      for i := 0 to |raws|
        invariant raws' == raws && forall j :: 0 <= j < i ==> raws[j].key != key
      {
        if raws[i].key == key {
          OverwriteAt(raws, key, message, i);
          return raws[i := Raw(key, message)];
        }
      }
      OverwriteAt(raws, key, message, |raws|);
    }

    method CollectRaws(machines: seq<Machine>, mds: seq<Deployment>, events: seq<Warning>,
                       now: int) returns (raws: seq<Raw>)
      ensures raws == Collect(machines, mds, namespace, events, now).raws
    {
      hide ResolverOf, Scan, Overwrite, IndexBy;
      var byName := BuildIndex(machines, MachineName);
      var resolver := new PoolResolver(mds);
      var seen;
      raws, seen := ScanMachines(machines, mds, resolver, now);
      var newest: map<IssueKey, int> := map[];
      for i := 0 to |events|
        invariant Collected(raws, newest) == Collect(machines, mds, namespace, events[..i], now) && seen == Keys(raws)
        invariant resolver.Value() == ResolverOf(mds)
      {
        var e := events[i];
        assert events[..i + 1][..i] == events[..i];
        if e.kind != "Machine" || e.namespace != namespace { continue; }
        if e.name !in byName || byName[e.name].deleting { continue; }
        var pool := ResolvePool(resolver, mds, byName[e.name]);
        var key := IssueKey(pool, byName[e.name].name, e.reason);
        var ts := EventTime(e);
        if key in seen && ts <= (if key in newest then newest[key] else NO_TIME) { continue; }
        if key in seen {
          OverwriteKeys(raws, key, Text(e.message));
          raws := Replace(raws, key, Text(e.message));
        } else {
          seen := seen + {key};
          raws := raws + [Raw(key, Text(e.message))];
        }
        newest := newest[key := ts];
      }
      assert events[..|events|] == events;
    }

    method MapIssues(machines: seq<Machine>, mds: seq<Deployment>, events: seq<Warning>,
                     now: int) returns (issues: seq<Issue>)
      modifies this
      ensures var raws := Collect(machines, mds, namespace, events, now).raws;
              && issues == Kept(IssuesOf(old(firstSeen), raws, now))
              && firstSeen == FirstSeenAfter(old(firstSeen), raws, now)
    {
      hide Collect;
      var raws := CollectRaws(machines, mds, events, now);
      var current := {};
      issues := [];
      for i := 0 to |raws|
        invariant issues == IssuesOf(old(firstSeen), raws[..i], now) && current == Keys(raws[..i])
        invariant forall key :: key in firstSeen <==> key in old(firstSeen) || key in current
        invariant forall key :: key in firstSeen ==> firstSeen[key] == SeenAt(old(firstSeen), key, now)
      {
        var r := raws[i];
        assert raws[..i + 1] == raws[..i] + [r];
        current := current + {r.key};
        if r.key !in firstSeen { firstSeen := firstSeen[r.key := now]; }
        issues := issues + [Issue(Stamp(firstSeen[r.key] / SECOND, r.key), r.message)];
      }
      assert raws[..|raws|] == raws;
      var left := firstSeen.Keys;
      while left != {}
        invariant forall key :: key in firstSeen <==>
                    (key in current || (key in old(firstSeen) && key in left))
        invariant forall key :: key in firstSeen ==> firstSeen[key] == SeenAt(old(firstSeen), key, now)
        decreases |left|
      {
        var key :| key in left;
        left := left - {key};
        if key !in current { firstSeen := firstSeen - {key}; }
      }
      issues := Sort(issues, IssueLe);
      if |issues| > MAX_ISSUES { issues := issues[..MAX_ISSUES]; }
    }
  }

  lemma {:induction false} OverwriteAt(raws: seq<Raw>, key: IssueKey, message: Message, i: nat)
    requires i <= |raws| && forall j :: 0 <= j < i ==> raws[j].key != key
    ensures i == |raws| ==> Overwrite(raws, key, message) == raws
    ensures i < |raws| && raws[i].key == key ==> Overwrite(raws, key, message) == raws[i := Raw(key, message)]
  {
    if i > 0 {
      OverwriteAt(raws[1..], key, message, i - 1);
      assert raws == [raws[0]] + raws[1..];
    }
  }

  lemma {:induction false} OverwriteKeys(raws: seq<Raw>, key: IssueKey, message: Message)
    ensures Keys(Overwrite(raws, key, message)) == Keys(raws)
  {
    if raws != [] {
      assert raws == [raws[0]] + raws[1..];
      assert Keys(raws) == {raws[0].key} + Keys(raws[1..]);
      if raws[0].key == key {
        assert Keys([Raw(key, message)] + raws[1..]) == {key} + Keys(raws[1..]);
      } else {
        OverwriteKeys(raws[1..], key, message);
        var rest := Overwrite(raws[1..], key, message);
        assert Keys([raws[0]] + rest) == {raws[0].key} + Keys(rest);
      }
    }
  }
}
