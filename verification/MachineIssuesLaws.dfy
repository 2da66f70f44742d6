/** What the issue collection guarantees over passes, whatever order the listings come in. */
module MachineIssuesLaws {
  import opened Common
  import opened Fleet
  import opened FleetLaws
  import opened PoolResolution
  import opened Ordering
  import opened MachineIssues

  // ---------------------------------------------------------------- which issues there are

  /** The machine's owner by name, or "unknown". */
  ghost predicate Labelled(mds: seq<Deployment>, m: Machine, pool: string) {
    match OwnerOf(mds, m)
    case Some(md) => pool == if md.name == "" then "unknown" else md.name
    case None => pool == "unknown"
  }

  /** No node ten minutes after the creation. */
  ghost predicate Nodeless(m: Machine, now: int) {
    m.nodeRef == "" && m.created.Some? && now - m.created.value >= 600 * SECOND
  }

  ghost predicate Failing(mds: seq<Deployment>, m: Machine, now: int, key: IssueKey) {
    && !m.deleting && Labelled(mds, m, key.pool) && key.machine == m.name
    && (key.reason == m.errorReason != "" || (key.reason == "NodeJoinTimeout" && Nodeless(m, now)))
  }

  /** And its message: the machine's own, or for how many minutes there has been no node. */
  ghost predicate SaysOf(mds: seq<Deployment>, m: Machine, now: int, r: Raw) {
    && Failing(mds, m, now, r.key)
    && if r.key.reason == m.errorReason then r.message == Text(m.errorMessage)
       else r.message.NoNode? && InSeconds((now - m.created.value) / 60, r.message.minutes)
  }

  lemma LabelIs(mds: seq<Deployment>, m: Machine, pool: string)
    ensures Labelled(mds, m, pool) <==> pool == PoolLabel(mds, m)
  {
    hide OwnerOf;
  }

  lemma NodelessIs(m: Machine, now: int)
    ensures Nodeless(m, now) <==> m.nodeRef == "" && Age(m, now) >= NODE_JOIN_TIMEOUT
    ensures Nodeless(m, now) ==> InSeconds((now - m.created.value) / 60, Age(m, now) / (60 * SECOND))
  {
  }

  ghost predicate FromMachine(machines: seq<Machine>, mds: seq<Deployment>, now: int, key: IssueKey) {
    exists m :: m in machines && Failing(mds, m, now, key)
  }

  ghost predicate FromEvent(machines: seq<Machine>, mds: seq<Deployment>, namespace: string, events: seq<Warning>,
                            key: IssueKey) {
    exists e :: e in events && KeyOf(machines, mds, namespace, e) == Some(key)
  }

  ghost predicate Distinct(raws: seq<Raw>) { forall i, j :: 0 <= i < j < |raws| ==> raws[i].key != raws[j].key }

  lemma AppendKeys(raws: seq<Raw>, r: Raw)
    ensures Keys(raws + [r]) == Keys(raws) + {r.key}
    ensures Distinct(raws) && r.key !in Keys(raws) ==> Distinct(raws + [r])
  {
    var all := raws + [r];
    assert r in all && forall x :: x in all <==> x in raws || x == r;
    if Distinct(raws) && r.key !in Keys(raws) {
      forall i, j | 0 <= i < j < |all| ensures all[i].key != all[j].key {
        if j == |raws| { assert raws[i] in raws; }
      }
    }
  }

  lemma AddKeys(raws: seq<Raw>, key: IssueKey, message: Message)
    ensures Keys(Add(raws, key, message)) == Keys(raws) + if key.reason == "" then {} else {key}
    ensures Distinct(raws) ==> Distinct(Add(raws, key, message))
  {
    AppendKeys(raws, Raw(key, message));
  }

  lemma ScanOneKeys(raws: seq<Raw>, mds: seq<Deployment>, m: Machine, now: int, key: IssueKey)
    ensures key in Keys(ScanOne(raws, mds, m, now)) <==> key in Keys(raws) || Failing(mds, m, now, key)
    ensures Distinct(raws) ==> Distinct(ScanOne(raws, mds, m, now))
  {
    hide Add, PoolLabel, Keys, Distinct, Labelled, Nodeless, Age;
    LabelIs(mds, m, key.pool);
    NodelessIs(m, now);
    var pool := PoolLabel(mds, m);
    var first := IssueKey(pool, m.name, m.errorReason);
    AddKeys(raws, first, Text(m.errorMessage));
    AddKeys(Add(raws, first, Text(m.errorMessage)), IssueKey(pool, m.name, REASON_NODE_JOIN_TIMEOUT),
            NoNode(Age(m, now) / (60 * SECOND)));
  }

  lemma {:induction false} ScanKeys(machines: seq<Machine>, mds: seq<Deployment>, now: int, key: IssueKey)
    ensures key in Keys(Scan(machines, mds, now)) <==> FromMachine(machines, mds, now, key)
    ensures Distinct(Scan(machines, mds, now))
  {
    if machines != [] {
      hide Failing, ScanOne, Keys, Distinct;
      var init, m := machines[..|machines| - 1], machines[|machines| - 1];
      assert machines == init + [m];
      ScanKeys(init, mds, now, key);
      ScanOneKeys(Scan(init, mds, now), mds, m, now, key);
      assert FromMachine(machines, mds, now, key) <==> FromMachine(init, mds, now, key) || Failing(mds, m, now, key);
    }
  }

  lemma AddMembers(raws: seq<Raw>, key: IssueKey, message: Message, r: Raw)
    requires r in Add(raws, key, message) && r !in raws
    ensures r == Raw(key, message) && key.reason != "" && key !in Keys(raws)
    ensures key in Keys(Add(raws, key, message))
  {
    assert r in Add(raws, key, message);
  }

  lemma ScanOneSays(raws: seq<Raw>, mds: seq<Deployment>, m: Machine, now: int, r: Raw)
    requires r in ScanOne(raws, mds, m, now) && r !in raws
    ensures SaysOf(mds, m, now, r)
  {
    hide Add, PoolLabel, Keys, Labelled, Nodeless, Age;
    var pool := PoolLabel(mds, m);
    LabelIs(mds, m, pool);
    NodelessIs(m, now);
    var own, late := IssueKey(pool, m.name, m.errorReason), IssueKey(pool, m.name, REASON_NODE_JOIN_TIMEOUT);
    var withError := Add(raws, own, Text(m.errorMessage));
    if r in withError {
      AddMembers(raws, own, Text(m.errorMessage), r);
    } else {
      AddMembers(withError, late, NoNode(Age(m, now) / (60 * SECOND)), r);
      AddKeys(raws, own, Text(m.errorMessage));
    }
  }

  /** What the machines alone report is said of a failing live machine, in its own words or by the time it has
      been without a node. */
  lemma {:induction false} ScanSays(machines: seq<Machine>, mds: seq<Deployment>, now: int, r: Raw) returns (m: Machine)
    requires r in Scan(machines, mds, now)
    ensures m in machines && SaysOf(mds, m, now, r)
  {
    hide ScanOne, SaysOf;
    var init, last := machines[..|machines| - 1], machines[|machines| - 1];
    if r in Scan(init, mds, now) {
      m := ScanSays(init, mds, now, r);
    } else {
      ScanOneSays(Scan(init, mds, now), mds, last, now, r);
      m := last;
    }
  }

  lemma ObserveKeys(c: Collected, key: IssueKey, e: Warning)
    ensures Keys(Observe(c, key, e).raws) == Keys(c.raws) + {key}
    ensures Distinct(c.raws) ==> Distinct(Observe(c, key, e).raws)
  {
    hide Overwrite;
    AppendKeys(c.raws, Raw(key, Text(e.message)));
    OverwriteKeys(c.raws, key, Text(e.message));
    OverwriteInPlace(c.raws, key, Text(e.message));
  }

  /** The position of a key does not move when its message is replaced. */
  lemma {:induction false} OverwriteInPlace(raws: seq<Raw>, key: IssueKey, message: Message)
    ensures var after := Overwrite(raws, key, message);
            && |after| == |raws| && forall i :: 0 <= i < |raws| ==> after[i].key == raws[i].key
  {
    if raws != [] && raws[0].key != key {
      OverwriteInPlace(raws[1..], key, message);
      var rest := Overwrite(raws[1..], key, message);
      forall i | 0 <= i < |raws| ensures Overwrite(raws, key, message)[i].key == raws[i].key {
        if i > 0 { assert rest[i - 1].key == raws[1..][i - 1].key; }
      }
    }
  }

  /** The current issues are exactly the failing live machines' and the events' about live machines,
      each key once. */
  lemma {:induction false} CurrentIssues(machines: seq<Machine>, mds: seq<Deployment>, namespace: string,
                                         events: seq<Warning>, now: int, key: IssueKey)
    ensures key in Keys(Collect(machines, mds, namespace, events, now).raws) <==>
              FromMachine(machines, mds, now, key) || FromEvent(machines, mds, namespace, events, key)
    ensures Distinct(Collect(machines, mds, namespace, events, now).raws)
  {
    hide KeyOf, Observe, Scan, Distinct, Keys;
    if events == [] {
      ScanKeys(machines, mds, now, key);
    } else {
      var init, e := events[..|events| - 1], events[|events| - 1];
      assert events == init + [e];
      CurrentIssues(machines, mds, namespace, init, now, key);
      var about := KeyOf(machines, mds, namespace, e);
      if about.Some? { ObserveKeys(Collect(machines, mds, namespace, init, now), about.value, e); }
      assert FromEvent(machines, mds, namespace, events, key) <==>
             FromEvent(machines, mds, namespace, init, key) || about == Some(key);
    }
  }

  /** The event is about a live machine of the namespace. */
  ghost predicate Concerns(machines: seq<Machine>, mds: seq<Deployment>, namespace: string, e: Warning, key: IssueKey) {
    && e.kind == "Machine" && e.namespace == namespace && key.machine == e.name && key.reason == e.reason
    && exists m :: m in machines && m.name == e.name && !m.deleting && Labelled(mds, m, key.pool)
  }

  /** An event counts for exactly the live machine it names, under that machine's pool and its own reason. */
  lemma KeyOfIff(machines: seq<Machine>, mds: seq<Deployment>, namespace: string, e: Warning, key: IssueKey)
    requires UniqueBy(machines, MachineName)
    ensures KeyOf(machines, mds, namespace, e) == Some(key) <==> Concerns(machines, mds, namespace, e, key)
  {
    hide PoolLabel, Labelled;
    IndexByFinds(machines, MachineName, e.name);
    if KeyOf(machines, mds, namespace, e).Some? {
      LabelIs(mds, IndexBy(machines, MachineName)[e.name], key.pool);
    }
    if Concerns(machines, mds, namespace, e, key) {
      var m :| m in machines && m.name == e.name && !m.deleting && Labelled(mds, m, key.pool);
      IndexByUnique(machines, MachineName, m);
      LabelIs(mds, m, key.pool);
    }
  }

  // ---------------------------------------------------------------- the newest event has the word

  /** An event's time: of its series, else the last occurrence, else its own, else its creation. */
  ghost predicate TimedAt(e: Warning, t: int) {
    if e.series.Some? then e.series == Some(t)
    else if e.last.Some? then e.last == Some(t)
    else if e.event.Some? then e.event == Some(t)
    else if e.created.Some? then e.created == Some(t)
    else t == 0
  }

  ghost predicate NotLater(x: Warning, e: Warning) { forall t, u :: TimedAt(x, t) && TimedAt(e, u) ==> t <= u }

  lemma TimeIs(e: Warning, t: int)
    ensures TimedAt(e, t) <==> t == EventTime(e)
  {
  }

  lemma NotLaterIs(x: Warning, e: Warning)
    ensures NotLater(x, e) <==> EventTime(x) <= EventTime(e)
  {
    hide TimedAt, EventTime;
    forall t ensures TimedAt(x, t) <==> t == EventTime(x) { TimeIs(x, t); }
    forall t ensures TimedAt(e, t) <==> t == EventTime(e) { TimeIs(e, t); }
    assert TimedAt(x, EventTime(x)) && TimedAt(e, EventTime(e));
  }

  /** The first newest event about the key, by time. */
  ghost predicate Newest(machines: seq<Machine>, mds: seq<Deployment>, namespace: string, events: seq<Warning>,
                         key: IssueKey, e: Warning) {
    && KeyOf(machines, mds, namespace, e) == Some(key)
    && (forall x :: x in events && KeyOf(machines, mds, namespace, x) == Some(key) ==> NotLater(x, e))
    && exists i: nat :: && i < |events| && events[i] == e
                        && forall j: nat :: j < i && KeyOf(machines, mds, namespace, events[j]) == Some(key) ==>
                             !NotLater(e, events[j])
  }

  /** At its place the event is later than all about the key before it. */
  ghost predicate FirstAt(machines: seq<Machine>, mds: seq<Deployment>, namespace: string, events: seq<Warning>,
                          key: IssueKey, e: Warning, i: nat) {
    && i < |events| && events[i] == e
    && forall j: nat :: j < i && KeyOf(machines, mds, namespace, events[j]) == Some(key) ==>
         EventTime(events[j]) < EventTime(e)
  }

  /** `e` is a newest event about the key. */
  ghost predicate NewestFor(machines: seq<Machine>, mds: seq<Deployment>, namespace: string, events: seq<Warning>,
                            key: IssueKey, e: Warning) {
    && e in events && KeyOf(machines, mds, namespace, e) == Some(key)
    && (forall x :: x in events && KeyOf(machines, mds, namespace, x) == Some(key) ==> EventTime(x) <= EventTime(e))
    && exists i: nat :: FirstAt(machines, mds, namespace, events, key, e, i)
  }

  lemma StaysNewest(machines: seq<Machine>, mds: seq<Deployment>, namespace: string, init: seq<Warning>, e: Warning,
                    key: IssueKey, top: Warning)
    requires NewestFor(machines, mds, namespace, init, key, top)
    requires KeyOf(machines, mds, namespace, e) == Some(key) ==> EventTime(e) <= EventTime(top)
    ensures NewestFor(machines, mds, namespace, init + [e], key, top)
  {
    hide KeyOf, EventTime;
    var i: nat :| FirstAt(machines, mds, namespace, init, key, top, i);
    assert forall j: nat :: j < |init| ==> (init + [e])[j] == init[j];
    assert FirstAt(machines, mds, namespace, init + [e], key, top, i);
  }

  lemma BecomesNewest(machines: seq<Machine>, mds: seq<Deployment>, namespace: string, init: seq<Warning>, e: Warning,
                      key: IssueKey)
    requires KeyOf(machines, mds, namespace, e) == Some(key)
    requires forall x :: x in init && KeyOf(machines, mds, namespace, x) == Some(key) ==> EventTime(x) < EventTime(e)
    ensures NewestFor(machines, mds, namespace, init + [e], key, e)
  {
    hide KeyOf, EventTime;
    var events := init + [e];
    forall j: nat | j < |init| && KeyOf(machines, mds, namespace, events[j]) == Some(key)
      ensures EventTime(events[j]) < EventTime(e)
    {
      assert events[j] == init[j] && init[j] in init;
    }
    assert FirstAt(machines, mds, namespace, events, key, e, |init|);
  }

  /** The message under a key comes from a newest event about it, or, as long as no event carries any
      time, from the machine itself. */
  ghost predicate Worded(c: Collected, machines: seq<Machine>, mds: seq<Deployment>, namespace: string,
                         events: seq<Warning>, now: int, key: IssueKey) {
    if key in c.newest then
      key in Keys(c.raws) &&
      exists e :: NewestFor(machines, mds, namespace, events, key, e) && EventTime(e) == c.newest[key]
                  && forall r :: r in c.raws && r.key == key ==> r.message == Text(e.message)
    else
      && (forall x :: x in events && KeyOf(machines, mds, namespace, x) == Some(key) ==> EventTime(x) <= NO_TIME)
      && (forall r :: r in c.raws && r.key == key ==> r in Scan(machines, mds, now))
      && (key !in Keys(c.raws) ==> !FromEvent(machines, mds, namespace, events, key))
  }

  lemma {:induction false} OverwriteMembers(raws: seq<Raw>, key: IssueKey, message: Message, r: Raw)
    requires Distinct(raws) && r in Overwrite(raws, key, message)
    ensures if r.key == key then r.message == message else r in raws
  {
    if raws != [] {
      assert raws == [raws[0]] + raws[1..];
      assert Distinct(raws[1..]) by {
        forall i, j | 0 <= i < j < |raws[1..]| ensures raws[1..][i].key != raws[1..][j].key {
          assert raws[i + 1].key != raws[j + 1].key;
        }
      }
      if raws[0].key == key {
        if r in raws[1..] {
          var i :| 0 <= i < |raws[1..]| && raws[1..][i] == r;
          assert raws[0].key != raws[i + 1].key;
        }
      } else if r in Overwrite(raws[1..], key, message) {
        OverwriteMembers(raws[1..], key, message, r);
      }
    }
  }

  lemma ObserveWords(c: Collected, machines: seq<Machine>, mds: seq<Deployment>, namespace: string, init: seq<Warning>,
                     e: Warning, now: int, key: IssueKey)
    requires Distinct(c.raws) && Worded(c, machines, mds, namespace, init, now, key)
    requires KeyOf(machines, mds, namespace, e) == Some(key)
    ensures Worded(Observe(c, key, e), machines, mds, namespace, init + [e], now, key)
  {
    hide KeyOf, Overwrite, Scan, Distinct;
    var c', events := Observe(c, key, e), init + [e];
    assert forall x :: x in events <==> x in init || x == e;
    ObserveKeys(c, key, e);
    if c' == c {
      if key in c.newest {
        var top :| NewestFor(machines, mds, namespace, init, key, top) && EventTime(top) == c.newest[key]
                   && forall r :: r in c.raws && r.key == key ==> r.message == Text(top.message);
        StaysNewest(machines, mds, namespace, init, e, key, top);
      }
    } else {
      BecomesNewest(machines, mds, namespace, init, e, key);
      forall r | r in c'.raws && r.key == key ensures r.message == Text(e.message) {
        if key in Keys(c.raws) { OverwriteMembers(c.raws, key, Text(e.message), r); }
      }
    }
  }

  lemma OtherWords(c: Collected, machines: seq<Machine>, mds: seq<Deployment>, namespace: string, init: seq<Warning>,
                   e: Warning, now: int, key: IssueKey)
    requires Distinct(c.raws) && Worded(c, machines, mds, namespace, init, now, key)
    requires KeyOf(machines, mds, namespace, e) != Some(key)
    ensures var about := KeyOf(machines, mds, namespace, e);
            Worded(if about.Some? then Observe(c, about.value, e) else c, machines, mds, namespace, init + [e], now, key)
  {
    hide KeyOf, Overwrite, Scan, Distinct;
    var about, events := KeyOf(machines, mds, namespace, e), init + [e];
    var c' := if about.Some? then Observe(c, about.value, e) else c;
    assert forall x :: x in events <==> x in init || x == e;
    forall r | r in c'.raws && r.key == key ensures r in c.raws {
      if about.Some? && about.value in Keys(c.raws) && c' != c {
        OverwriteMembers(c.raws, about.value, Text(e.message), r);
      }
    }
    if about.Some? { ObserveKeys(c, about.value, e); }
    if key in c.newest {
      var top :| NewestFor(machines, mds, namespace, init, key, top) && EventTime(top) == c.newest[key]
                 && forall r :: r in c.raws && r.key == key ==> r.message == Text(top.message);
      StaysNewest(machines, mds, namespace, init, e, key, top);
    }
  }

  lemma {:induction false} AllWorded(machines: seq<Machine>, mds: seq<Deployment>, namespace: string,
                                     events: seq<Warning>, now: int, key: IssueKey)
    ensures Worded(Collect(machines, mds, namespace, events, now), machines, mds, namespace, events, now, key)
  {
    hide KeyOf, Observe, Scan, Distinct, Keys;
    if events != [] {
      hide Worded;
      var init, e := events[..|events| - 1], events[|events| - 1];
      var c := Collect(machines, mds, namespace, init, now);
      assert events == init + [e];
      AllWorded(machines, mds, namespace, init, now, key);
      CurrentIssues(machines, mds, namespace, init, now, key);
      if KeyOf(machines, mds, namespace, e) == Some(key) {
        ObserveWords(c, machines, mds, namespace, init, e, now, key);
      } else {
        OtherWords(c, machines, mds, namespace, init, e, now, key);
      }
    }
  }

  lemma NewestIs(machines: seq<Machine>, mds: seq<Deployment>, namespace: string, events: seq<Warning>, key: IssueKey,
                 e: Warning)
    requires NewestFor(machines, mds, namespace, events, key, e)
    ensures Newest(machines, mds, namespace, events, key, e)
  {
    hide KeyOf, NotLater, EventTime;
    forall x | x in events && KeyOf(machines, mds, namespace, x) == Some(key) ensures NotLater(x, e) { NotLaterIs(x, e); }
    var i: nat :| FirstAt(machines, mds, namespace, events, key, e, i);
    forall j: nat | j < i && KeyOf(machines, mds, namespace, events[j]) == Some(key) ensures !NotLater(e, events[j]) {
      NotLaterIs(e, events[j]);
    }
  }

  /** The message of every issue an event is about, once any such event carries a time or no machine
      reports the key itself, is that of the first newest such event; an issue no event is about is worded by a
      failing machine. */
  lemma {:induction false} NewestWins(machines: seq<Machine>, mds: seq<Deployment>, namespace: string,
                        events: seq<Warning>, now: int, r: Raw)
    requires r in Collect(machines, mds, namespace, events, now).raws
    ensures FromEvent(machines, mds, namespace, events, r.key)
            && (|| !FromMachine(machines, mds, now, r.key)
                || exists x, t :: x in events && KeyOf(machines, mds, namespace, x) == Some(r.key) && TimedAt(x, t) && t > 0)
            ==> exists e :: Newest(machines, mds, namespace, events, r.key, e) && r.message == Text(e.message)
    ensures !FromEvent(machines, mds, namespace, events, r.key) ==> exists m :: m in machines && SaysOf(mds, m, now, r)
  {
    AllWorded(machines, mds, namespace, events, now, r.key);
    ScanKeys(machines, mds, now, r.key);
    WordsMean(Collect(machines, mds, namespace, events, now), machines, mds, namespace, events, now, r);
  }

  lemma WordsMean(c: Collected, machines: seq<Machine>, mds: seq<Deployment>, namespace: string, events: seq<Warning>,
                  now: int, r: Raw)
    requires Worded(c, machines, mds, namespace, events, now, r.key) && r in c.raws
    requires r.key in Keys(Scan(machines, mds, now)) <==> FromMachine(machines, mds, now, r.key)
    ensures FromEvent(machines, mds, namespace, events, r.key)
            && (|| !FromMachine(machines, mds, now, r.key)
                || exists x, t :: x in events && KeyOf(machines, mds, namespace, x) == Some(r.key) && TimedAt(x, t) && t > 0)
            ==> exists e :: Newest(machines, mds, namespace, events, r.key, e) && r.message == Text(e.message)
    ensures !FromEvent(machines, mds, namespace, events, r.key) ==> exists m :: m in machines && SaysOf(mds, m, now, r)
  {
    hide KeyOf, Scan, SaysOf, Newest, EventTime, TimedAt, FromMachine;
    if r.key in c.newest {
      var e :| NewestFor(machines, mds, namespace, events, r.key, e)
               && forall x :: x in c.raws && x.key == r.key ==> x.message == Text(e.message);
      NewestIs(machines, mds, namespace, events, r.key, e);
    } else {
      assert r in Scan(machines, mds, now);
      var m := ScanSays(machines, mds, now, r);
      forall x, t | x in events && KeyOf(machines, mds, namespace, x) == Some(r.key) && TimedAt(x, t) ensures t <= 0 {
        TimeIs(x, t);
      }
    }
  }

  // ---------------------------------------------------------------- since

  datatype Pass = Pass(machines: seq<Machine>, mds: seq<Deployment>, events: seq<Warning>, now: int)

  function PassRaws(namespace: string, p: Pass): seq<Raw> { Collect(p.machines, p.mds, namespace, p.events,
                    p.now).raws }

  function FirstSeenOver(namespace: string, passes: seq<Pass>): FirstSeen {
    if passes == [] then map[]
    else
      var last := passes[|passes| - 1];
      FirstSeenAfter(FirstSeenOver(namespace, passes[..|passes| - 1]), PassRaws(namespace, last), last.now)
  }

  /** The key has been present in every pass from `j` on, and not just before. */
  ghost predicate PresentSince(namespace: string, passes: seq<Pass>, key: IssueKey, j: nat) {
    && j < |passes|
    && (forall i :: j <= i < |passes| ==> key in Keys(PassRaws(namespace, passes[i])))
    && (j > 0 ==> key !in Keys(PassRaws(namespace, passes[j - 1])))
  }

  lemma FirstSeenMeans(firstSeen: FirstSeen, raws: seq<Raw>, now: int, key: IssueKey)
    ensures key in FirstSeenAfter(firstSeen, raws, now) <==> key in Keys(raws)
    ensures key in Keys(raws) ==>
              FirstSeenAfter(firstSeen, raws, now)[key] == if key in firstSeen then firstSeen[key] else now
  {
  }

  lemma PresenceGrows(namespace: string, init: seq<Pass>, last: Pass, key: IssueKey, j: nat)
    requires key in Keys(PassRaws(namespace, last))
    ensures PresentSince(namespace, init, key, j) ==> PresentSince(namespace, init + [last], key, j)
    ensures (init != [] ==> key !in Keys(PassRaws(namespace, init[|init| - 1]))) ==>
              PresentSince(namespace, init + [last], key, |init|)
  {
    hide PassRaws, Keys;
    if PresentSince(namespace, init, key, j) {
      forall i | j <= i < |init + [last]| ensures key in Keys(PassRaws(namespace, (init + [last])[i])) {
        if i < |init| { assert key in Keys(PassRaws(namespace, init[i])); }
      }
    }
  }

  /** After any number of mappings the memory holds exactly the current keys, each with the time at
      which its unbroken presence began. */
  lemma {:induction false} SinceIsUnbroken(namespace: string, passes: seq<Pass>, key: IssueKey) returns (j: nat)
    requires passes != []
    ensures key in FirstSeenOver(namespace, passes) <==> key in Keys(PassRaws(namespace, passes[|passes| - 1]))
    ensures key in FirstSeenOver(namespace, passes) ==>
              PresentSince(namespace, passes, key, j) && FirstSeenOver(namespace, passes)[key] == passes[j].now
  {
    hide PassRaws, Keys, FirstSeenAfter, PresentSince;
    var init, last := passes[..|passes| - 1], passes[|passes| - 1];
    assert passes == init + [last];
    FirstSeenMeans(FirstSeenOver(namespace, init), PassRaws(namespace, last), last.now, key);
    j := |init|;
    if init != [] {
      var before := SinceIsUnbroken(namespace, init, key);
      if key in FirstSeenOver(namespace, init) { j := before; }
    }
    if key in Keys(PassRaws(namespace, last)) {
      PresenceGrows(namespace, init, last, key, j);
      SinceInRange(namespace, init, key, j);
    }
  }

  lemma SinceInRange(namespace: string, passes: seq<Pass>, key: IssueKey, j: nat)
    ensures PresentSince(namespace, passes, key, j) ==> j < |passes|
  {
  }

  // ---------------------------------------------------------------- order does not matter

  function StampsOf(issues: seq<Issue>): seq<Stamp> {
    seq(|issues|, i requires 0 <= i < |issues| => issues[i].stamp)
  }

  lemma KeyLePreorder()
    ensures Preorder(KeyLe)
  {
    forall x, y ensures KeyLe(x, y) || KeyLe(y, x) {
      StringLeTotal(x.pool, y.pool);
      StringLeTotal(x.machine, y.machine);
      StringLeTotal(x.reason, y.reason);
    }
    forall x, y, z | KeyLe(x, y) && KeyLe(y, z) ensures KeyLe(x, z) { KeyLeTransitive(x, y, z); }
  }

  lemma KeyLeTransitive(x: IssueKey, y: IssueKey, z: IssueKey)
    requires KeyLe(x, y) && KeyLe(y, z)
    ensures KeyLe(x, z)
  {
    hide StringLe;
    if x.pool != y.pool && y.pool != z.pool {
      StringLeTransitive(x.pool, y.pool, z.pool);
      if x.pool == z.pool { StringLeAntisymmetric(x.pool, y.pool); }
    } else if x.pool == y.pool == z.pool {
      if x.machine != y.machine && y.machine != z.machine {
        StringLeTransitive(x.machine, y.machine, z.machine);
        if x.machine == z.machine { StringLeAntisymmetric(x.machine, y.machine); }
      } else if x.machine == y.machine == z.machine {
        StringLeTransitive(x.reason, y.reason, z.reason);
      }
    }
  }

  lemma KeyLeAntisymmetric(x: IssueKey, y: IssueKey)
    requires KeyLe(x, y) && KeyLe(y, x)
    ensures x == y
  {
    hide StringLe;
    if x.pool != y.pool { StringLeAntisymmetric(x.pool, y.pool); }
    else if x.machine != y.machine { StringLeAntisymmetric(x.machine, y.machine); }
    else { StringLeAntisymmetric(x.reason, y.reason); }
  }

  lemma StampLePreorder()
    ensures Preorder(StampLe) && Preorder(IssueLe)
  {
    hide KeyLe;
    KeyLePreorder();
  }

  lemma SortedStamps(issues: seq<Issue>)
    ensures var s := Sort(issues, IssueLe);
            && Sorted(StampsOf(s), StampLe) && multiset(StampsOf(s)) == multiset(StampsOf(issues))
  {
    StampLePreorder();
    SortSorted(issues, IssueLe);
    SortStamps(issues);
  }

  lemma StampsCons(x: Issue, s: seq<Issue>)
    ensures multiset(StampsOf([x] + s)) == multiset(StampsOf(s)) + multiset{x.stamp}
  {
    assert StampsOf([x] + s) == [x.stamp] + StampsOf(s);
  }

  lemma {:induction false} InsertStamps(x: Issue, s: seq<Issue>)
    ensures multiset(StampsOf(Insert(x, s, IssueLe))) == multiset(StampsOf(s)) + multiset{x.stamp}
  {
    hide StampsOf, StampLe;
    if s == [] || IssueLe(x, s[0]) {
      StampsCons(x, s);
      assert s == [] ==> [x] + s == [x];
    } else {
      InsertStamps(x, s[1..]);
      assert s == [s[0]] + s[1..];
      StampsCons(s[0], s[1..]);
      StampsCons(s[0], Insert(x, s[1..], IssueLe));
    }
  }

  lemma {:induction false} SortStamps(s: seq<Issue>)
    ensures multiset(StampsOf(Sort(s, IssueLe))) == multiset(StampsOf(s))
  {
    hide StampsOf, IssueLe, Insert;
    if s != [] {
      SortStamps(s[1..]);
      InsertStamps(s[0], Sort(s[1..], IssueLe));
      StampsCons(s[0], s[1..]);
      assert s == [s[0]] + s[1..];
    }
  }

  /** Distinct sequences with the same members have the same multiset. */
  lemma SameMembers<T>(a: seq<T>, b: seq<T>)
    requires forall i, j :: 0 <= i < j < |a| ==> a[i] != a[j]
    requires forall i, j :: 0 <= i < j < |b| ==> b[i] != b[j]
    requires forall x :: x in a <==> x in b
    ensures multiset(a) == multiset(b)
  {
    forall x ensures multiset(a)[x] == multiset(b)[x] {
      OccursOnce(a, x);
      OccursOnce(b, x);
    }
  }

  lemma {:induction false} OccursOnce<T>(s: seq<T>, x: T)
    requires forall i, j :: 0 <= i < j < |s| ==> s[i] != s[j]
    ensures multiset(s)[x] == if x in s then 1 else 0
  {
    if s != [] {
      var init, last := s[..|s| - 1], s[|s| - 1];
      assert s == init + [last];
      OccursOnce(init, x);
    }
  }

  lemma StampsOfRaws(firstSeen: FirstSeen, raws: seq<Raw>, now: int)
    requires Distinct(raws)
    ensures var stamps := StampsOf(IssuesOf(firstSeen, raws, now));
            && (forall i, j :: 0 <= i < j < |stamps| ==> stamps[i] != stamps[j])
            && (forall s: Stamp :: s in stamps <==> s.key in Keys(raws) && s == StampOf(firstSeen, s.key, now))
  {
    var stamps := StampsOf(IssuesOf(firstSeen, raws, now));
    assert forall i :: 0 <= i < |raws| ==> stamps[i] == StampOf(firstSeen, raws[i].key, now);
    forall s: Stamp | s.key in Keys(raws) && s == StampOf(firstSeen, s.key, now) ensures s in stamps {
      var r :| r in raws && r.key == s.key;
      var i :| 0 <= i < |raws| && raws[i] == r;
      assert stamps[i] == s;
    }
  }

  lemma SameStamps(firstSeen: FirstSeen, a: seq<Raw>, b: seq<Raw>, now: int)
    requires Distinct(a) && Distinct(b) && Keys(a) == Keys(b)
    ensures StampsOf(Kept(IssuesOf(firstSeen, a, now))) == StampsOf(Kept(IssuesOf(firstSeen, b, now)))
  {
    var ia, ib := IssuesOf(firstSeen, a, now), IssuesOf(firstSeen, b, now);
    var sa, sb := StampsOf(Sort(ia, IssueLe)), StampsOf(Sort(ib, IssueLe));
    StampsOfRaws(firstSeen, a, now);
    StampsOfRaws(firstSeen, b, now);
    SameMembers(StampsOf(ia), StampsOf(ib));
    SortedStamps(ia);
    SortedStamps(ib);
    forall i, j | 0 <= i < |sa| && 0 <= j < |sa| && StampLe(sa[i], sa[j]) && StampLe(sa[j], sa[i]) ensures sa[i] == sa[j] {
      KeyLeAntisymmetric(sa[i].key, sa[j].key);
    }
    hide StampLe, IssueLe, IssuesOf, Distinct, Keys;
    SortedSame(sa, sb, StampLe);
    KeptStamps(ia);
    KeptStamps(ib);
  }

  lemma KeptStamps(issues: seq<Issue>)
    ensures var s := StampsOf(Sort(issues, IssueLe));
            StampsOf(Kept(issues)) == if |s| > MAX_ISSUES then s[..MAX_ISSUES] else s
  {
  }

  /** Neither the machines' nor the events' order matters to which issues are kept, in what order and
      with what `since`. */
  lemma OrderIrrelevant(firstSeen: FirstSeen, machines: seq<Machine>, machines': seq<Machine>, mds: seq<Deployment>,
                        namespace: string, events: seq<Warning>, events': seq<Warning>, now: int)
    requires UniqueBy(machines, MachineName) && UniqueBy(machines', MachineName)
    requires forall m :: m in machines <==> m in machines'
    requires forall e :: e in events <==> e in events'
    ensures var a := Collect(machines, mds, namespace, events, now).raws;
            var b := Collect(machines', mds, namespace, events', now).raws;
            && FirstSeenAfter(firstSeen, a, now) == FirstSeenAfter(firstSeen, b, now)
            && StampsOf(Kept(IssuesOf(firstSeen, a, now))) == StampsOf(Kept(IssuesOf(firstSeen, b, now)))
  {
    hide Collect, KeyOf, Failing, Kept, IssuesOf, SeenAt;
    var a := Collect(machines, mds, namespace, events, now).raws;
    var b := Collect(machines', mds, namespace, events', now).raws;
    forall e ensures KeyOf(machines, mds, namespace, e) == KeyOf(machines', mds, namespace, e) {
      SameKeyOf(machines, machines', mds, namespace, e);
    }
    forall key ensures key in Keys(a) <==> key in Keys(b) {
      CurrentIssues(machines, mds, namespace, events, now, key);
      CurrentIssues(machines', mds, namespace, events', now, key);
    }
    CurrentIssues(machines, mds, namespace, events, now, IssueKey("", "", ""));
    CurrentIssues(machines', mds, namespace, events', now, IssueKey("", "", ""));
    assert Keys(a) == Keys(b);
    SameStamps(firstSeen, a, b, now);
  }

  lemma SameKeyOf(machines: seq<Machine>, machines': seq<Machine>, mds: seq<Deployment>, namespace: string, e: Warning)
    requires UniqueBy(machines, MachineName) && UniqueBy(machines', MachineName)
    requires forall m :: m in machines <==> m in machines'
    ensures KeyOf(machines, mds, namespace, e) == KeyOf(machines', mds, namespace, e)
  {
    IndexByFinds(machines, MachineName, e.name);
    IndexByFinds(machines', MachineName, e.name);
    if e.name in IndexBy(machines, MachineName) {
      IndexByUnique(machines', MachineName, IndexBy(machines, MachineName)[e.name]);
    }
  }

  // ---------------------------------------------------------------- the cap, and what slips past the guard

  /** By since, then pool, machine and reason. */
  ghost predicate Before(a: Issue, b: Issue) {
    || a.stamp.since < b.stamp.since
    || (a.stamp.since == b.stamp.since &&
        (|| (a.stamp.key.pool != b.stamp.key.pool && StringLe(a.stamp.key.pool, b.stamp.key.pool))
         || (a.stamp.key.pool == b.stamp.key.pool &&
             (|| (a.stamp.key.machine != b.stamp.key.machine && StringLe(a.stamp.key.machine, b.stamp.key.machine))
              || (a.stamp.key.machine == b.stamp.key.machine && StringLe(a.stamp.key.reason, b.stamp.key.reason))))))
  }

  lemma IssueLeMeans(a: Issue, b: Issue)
    ensures IssueLe(a, b) <==> Before(a, b)
  {
    hide StringLe;
  }

  /** At most 20 issues are kept, in order of since, pool, machine and reason; none is dropped unless there are
      more, and none dropped comes before one kept: none is older. */
  lemma KeptAreOldest(issues: seq<Issue>)
    ensures |Kept(issues)| <= 20
    ensures |issues| <= 20 ==> multiset(Kept(issues)) == multiset(issues)
    ensures forall i, j :: 0 <= i < j < |Kept(issues)| ==> Before(Kept(issues)[i], Kept(issues)[j])
    ensures forall a, b :: a in Kept(issues) && b in issues && b !in Kept(issues) ==>
              |Kept(issues)| == 20 && Before(a, b) && a.stamp.since <= b.stamp.since
    ensures forall a :: a in Kept(issues) ==> a in issues
  {
    var all, kept := Sort(issues, IssueLe), Kept(issues);
    StampLePreorder();
    SortSorted(issues, IssueLe);
    SortMembers(issues, IssueLe);
    hide Sort, StampLe;
    assert |kept| <= |all| && kept == all[..|kept|] && (|kept| < |all| ==> |kept| == 20);
    hide Kept;
    assert all[..|all|] == all;
    forall i, j | 0 <= i < j < |all| ensures Before(all[i], all[j]) {
      assert IssueLe(all[i], all[j]);
      IssueLeMeans(all[i], all[j]);
    }
    hide Before, IssueLe;
    assert forall k :: 0 <= k < |kept| ==> kept[k] == all[k] && all[k] in kept;
    forall a, b | a in kept && b in issues && b !in kept
      ensures |kept| == 20 && Before(a, b) && a.stamp.since <= b.stamp.since
    {
      var i :| 0 <= i < |kept| && kept[i] == a;
      var j :| 0 <= j < |all| && all[j] == b;
      BeforeIsOlder(a, b);
    }
  }

  lemma BeforeIsOlder(a: Issue, b: Issue)
    requires Before(a, b)
    ensures a.stamp.since <= b.stamp.since
  {
  }

  /** An issue carries its key, its message, and in whole seconds when the key was first seen. */
  lemma IssueFields(firstSeen: FirstSeen, raws: seq<Raw>, now: int, i: nat)
    requires i < |raws|
    ensures |IssuesOf(firstSeen, raws, now)| == |raws|
    ensures var issue := IssuesOf(firstSeen, raws, now)[i];
            && issue.stamp.key == raws[i].key && issue.message == raws[i].message
            && InSeconds(if raws[i].key in firstSeen then firstSeen[raws[i].key] else now, issue.stamp.since)
  {
  }

  /** An issue without a reason exists exactly when some event about a live machine has none: the
      guard against empty reasons is on the machines' path alone. */
  lemma ReasonlessIff(machines: seq<Machine>, mds: seq<Deployment>, namespace: string,
                        events: seq<Warning>, now: int)
    ensures (exists key :: key in Keys(Collect(machines, mds, namespace, events, now).raws) && key.reason == "")
            <==> (exists e :: e in events && e.reason == "" && KeyOf(machines, mds, namespace, e).Some?)
  {
    hide Collect;
    var keys := Keys(Collect(machines, mds, namespace, events, now).raws);
    if key :| key in keys && key.reason == "" {
      CurrentIssues(machines, mds, namespace, events, now, key);
    }
    if e :| e in events && e.reason == "" && KeyOf(machines, mds, namespace, e).Some? {
      CurrentIssues(machines, mds, namespace, events, now, KeyOf(machines, mds, namespace, e).value);
    }
  }

  /** Such an event, about a machine with nothing wrong, is enough. */
  lemma ReasonlessExample()
    ensures var m := Machine("m", map[], map[], [], false, "n", None, "", "", "");
            var e := Warning("Machine", "ns", "m", "", "text", None, Some(1), None, None);
            var raws := Collect([m], [], "ns", [e], 1).raws;
            exists key :: key in Keys(raws) && key.reason == ""
  {
    var m := Machine("m", map[], map[], [], false, "n", None, "", "", "");
    var e := Warning("Machine", "ns", "m", "", "text", None, Some(1), None, None);
    assert m in [m] && MachineName(m) == "m";
    IndexByFinds([m], MachineName, "m");
    assert e in [e] && KeyOf([m], [], "ns", e).Some?;
    ReasonlessIff([m], [], "ns", [e], 1);
  }
}
