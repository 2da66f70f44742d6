/** Shaping a heartbeat to the server's bounds (internal/state/payload.go): one oversized field would
    have the whole beat rejected, so `ApplyCaps` cuts every list and string in place. */
module PayloadCaps {
  import opened Common
  import opened Ordering
  import opened Text

  const MAX_NODES: nat := 500
  const MAX_COMPONENTS: nat := 50
  const MAX_EVENTS: nat := 50
  const MAX_STATUS_LEN: int := 63
  const MAX_ROLES_LEN: int := 253
  const MAX_TYPE_LEN: int := 64
  const MAX_NOTE_LEN: int := 256
  const MAX_DETAIL_LEN: int := MAX_NOTE_LEN
  const MAX_NAMESPACES: nat := 500
  const MAX_ACTIONS: nat := 20
  const MAX_MACHINE_ISSUES: nat := 20
  const MAX_REVISION: int := 10_000_000
  const MAX_ADDONS: nat := 100

  datatype Node = Node(name: string, status: string, roles: string, instanceType: string, kubeletVersion: string)
  datatype Component = Component(name: string, status: string)
  datatype Event = Event(reason: string, kind: string, namespace: string, note: string)
  datatype Action = Action(kind: string, target: string, status: string, detail: string, revision: int)
  datatype Issue = Issue(pool: string, machine: string, reason: string, message: string, since: string)
  datatype Addon = Addon(name: string, chartVersion: string, appVersion: string, category: string, source: string)
  datatype Inventory = Inventory(lok8sVersion: string, kind: string, provider: string, kubernetesVersion: string,
                                 specHash: string, renderedAt: string, addons: seq<Addon>)
  datatype Header = Header(clusterID: string, timestamp: string, kubernetes: string, agentVersion: string, agentMode: string)

  /** The fields the caps touch; a list is None when it is nil. */
  datatype Contents = Contents(header: Header, nodes: seq<Node>, components: seq<Component>, events: seq<Event>,
                         actions: Option<seq<Action>>, issues: Option<seq<Issue>>, inventory: Option<Inventory>,
                         byNamespace: map<string, int>)

  // ---------------------------------------------------------------- one entry

  function CapHeader(h: Header): Header {
    Header(Clamp(h.clusterID, MAX_NAME_LEN), Clamp(h.timestamp, MAX_VERSION_LEN), Clamp(h.kubernetes, MAX_VERSION_LEN),
           Clamp(h.agentVersion, MAX_TYPE_LEN), Clamp(h.agentMode, MAX_STATUS_LEN))
  }

  function CapNode(n: Node): Node {
    Node(Clamp(n.name, MAX_NAME_LEN), Clamp(n.status, MAX_STATUS_LEN), Clamp(n.roles, MAX_ROLES_LEN),
         Clamp(n.instanceType, MAX_TYPE_LEN), Clamp(n.kubeletVersion, MAX_VERSION_LEN))
  }

  function CapComponent(c: Component): Component {
    Component(Clamp(c.name, MAX_NAME_LEN), Clamp(c.status, MAX_STATUS_LEN))
  }

  function CapEvent(e: Event): Event {
    Event(Clamp(e.reason, MAX_STATUS_LEN), Clamp(e.kind, MAX_STATUS_LEN), Clamp(e.namespace, MAX_NAME_LEN),
          Clamp(e.note, MAX_NOTE_LEN))
  }

  function CapRevision(r: int): int { if r < 0 then 0 else if r > MAX_REVISION then MAX_REVISION else r }

  function CapAction(a: Action): Action {
    Action(Clamp(a.kind, MAX_STATUS_LEN), Clamp(a.target, MAX_NAME_LEN), Clamp(a.status, MAX_STATUS_LEN),
           Clamp(a.detail, MAX_DETAIL_LEN), CapRevision(a.revision))
  }

  function CapIssue(i: Issue): Issue {
    Issue(Clamp(i.pool, MAX_STATUS_LEN), Clamp(i.machine, MAX_NAME_LEN), Clamp(i.reason, MAX_STATUS_LEN),
          Clamp(i.message, MAX_NOTE_LEN), Clamp(i.since, MAX_VERSION_LEN))
  }

  function CapAddon(a: Addon): Addon {
    Addon(Clamp(a.name, MAX_NAME_LEN), Clamp(a.chartVersion, MAX_VERSION_LEN), Clamp(a.appVersion, MAX_VERSION_LEN),
          Clamp(a.category, MAX_STATUS_LEN), Clamp(a.source, MAX_STATUS_LEN))
  }

  /** Entries the server would reject outright. */
  predicate ValidAction(a: Action) { a.target != "" }
  predicate ValidIssue(i: Issue) { i.pool != "" && i.reason != "" }

  // ---------------------------------------------------------------- lists

  function Prefix<T>(xs: seq<T>, max: nat): seq<T> { if |xs| > max then xs[..max] else xs }

  function Each<T>(xs: seq<T>, f: T -> T): seq<T> { seq(|xs|, i requires 0 <= i < |xs| => f(xs[i])) }

  function CapList<T>(xs: seq<T>, max: nat, f: T -> T): seq<T> { Each(Prefix(xs, max), f) }

  /** Drop, cut, clamp; an emptied list is nil. */
  function CapValid<T(!new)>(xs: Option<seq<T>>, valid: T -> bool, max: nat, f: T -> T): Option<seq<T>> {
    var ys := CapList(Filter(if xs.Some? then xs.value else [], valid), max, f);
    if ys == [] then None else Some(ys)
  }

  function CapInventory(inv: Inventory): Inventory {
    Inventory(Clamp(inv.lok8sVersion, MAX_VERSION_LEN), Clamp(inv.kind, MAX_STATUS_LEN), Clamp(inv.provider, MAX_STATUS_LEN),
              Clamp(inv.kubernetesVersion, MAX_VERSION_LEN), Clamp(inv.specHash, MAX_VERSION_LEN),
              Clamp(inv.renderedAt, MAX_VERSION_LEN), CapList(inv.addons, MAX_ADDONS, CapAddon))
  }

  /** `kept` is `all` when it fits, and otherwise its MAX_NAMESPACES least keys with their counts. */
  ghost predicate LeastNamespaces(kept: map<string, int>, all: map<string, int>) {
    if |all| <= MAX_NAMESPACES then kept == all
    else
      && kept.Keys <= all.Keys && |kept| == MAX_NAMESPACES && (forall k :: k in kept ==> kept[k] == all[k])
      && (forall k, other :: k in kept && other in all && other !in kept ==> StringLe(k, other))
  }

  /** What `ApplyCaps` makes of a payload. */
  ghost predicate CappedTo(before: Contents, after: Contents) {
    && after.header == CapHeader(before.header)
    && after.nodes == CapList(before.nodes, MAX_NODES, CapNode)
    && after.components == CapList(before.components, MAX_COMPONENTS, CapComponent)
    && after.events == CapList(before.events, MAX_EVENTS, CapEvent)
    && after.actions == CapValid(before.actions, ValidAction, MAX_ACTIONS, CapAction)
    && after.issues == CapValid(before.issues, ValidIssue, MAX_MACHINE_ISSUES, CapIssue)
    && after.inventory == (if before.inventory.Some? then Some(CapInventory(before.inventory.value)) else None)
    && LeastNamespaces(after.byNamespace, before.byNamespace)
  }

  // ---------------------------------------------------------------- the payload object

  method CapEach<T>(xs: seq<T>, max: nat, f: T -> T) returns (ys: seq<T>)
    ensures ys == CapList(xs, max, f)
  {
    ys := xs;
    if |ys| > max { ys := ys[..max]; }
    for i := 0 to |ys|
      invariant |ys| == |Prefix(xs, max)|
      invariant forall j :: 0 <= j < i ==> ys[j] == f(Prefix(xs, max)[j])
      invariant forall j :: i <= j < |ys| ==> ys[j] == Prefix(xs, max)[j]
    {
      ys := ys[i := f(ys[i])];
    }
  }

  method DropInvalid<T(!new)>(xs: seq<T>, valid: T -> bool) returns (kept: seq<T>)
    ensures kept == Filter(xs, valid)
  {
    kept := [];
    for i := 0 to |xs|
      invariant kept == Filter(xs[..i], valid)
    {
      assert xs[..i + 1][..i] == xs[..i];
      if valid(xs[i]) { kept := kept + [xs[i]]; }
    }
    assert xs[..|xs|] == xs;
  }

  /** The keys, in whatever order the map is walked. */
  method KeysOf(all: map<string, int>) returns (keys: seq<string>)
    ensures UniqueBy(keys, Identity) && forall k :: k in keys <==> k in all
  {
    keys := [];
    var left := all.Keys;
    while left != {}
      invariant left <= all.Keys && UniqueBy(keys, Identity)
      invariant forall k :: k in keys <==> k in all && k !in left
      decreases |left|
    {
      var k :| k in left;
      left := left - {k};
      keys := keys + [k];
    }
  }

  method TakeFirst(sorted: seq<string>, all: map<string, int>) returns (kept: map<string, int>)
    requires |sorted| >= MAX_NAMESPACES && forall k :: k in sorted ==> k in all
    ensures kept.Keys == KeySet(sorted[..MAX_NAMESPACES], Identity) && forall k :: k in kept ==> k in all && kept[k] == all[k]
  {
    kept := map[];
    for i := 0 to MAX_NAMESPACES
      invariant kept.Keys == KeySet(sorted[..i], Identity) && forall k :: k in kept ==> k in all && kept[k] == all[k]
    {
      assert sorted[..i + 1] == sorted[..i] + [sorted[i]];
      assert sorted[i] in sorted && Identity(sorted[i]) == sorted[i];
      assert KeySet(sorted[..i + 1], Identity) == KeySet(sorted[..i], Identity) + {sorted[i]};
      kept := kept[sorted[i] := all[sorted[i]]];
    }
  }

  /** The least keys with their counts. */
  method TrimNamespaces(all: map<string, int>) returns (kept: map<string, int>)
    ensures LeastNamespaces(kept, all)
  {
    hide KeySet, UniqueBy, Sort, Sorted;
    if |all| <= MAX_NAMESPACES { return all; }
    var keys := KeysOf(all);
    var sorted := Sort(keys, NameLe);
    SortedKeys(keys, all);
    kept := TakeFirst(sorted, all);
    FirstAreLeast(sorted, kept, all);
  }

  lemma SortedKeys(keys: seq<string>, all: map<string, int>)
    requires UniqueBy(keys, Identity) && forall k :: k in keys <==> k in all
    ensures var sorted := Sort(keys, NameLe);
            && UniqueBy(sorted, Identity) && Sorted(sorted, NameLe) && |sorted| == |all|
            && forall k :: k in sorted <==> k in all
  {
    var sorted := Sort(keys, NameLe);
    ByKeyPreorder(Identity, NameLe);
    SortSorted(keys, NameLe);
    SortMembers(keys, NameLe);
    RearrangedUnique(keys, sorted, Identity);
    KeySetSize(sorted, Identity);
    assert KeySet(sorted, Identity) == all.Keys;
  }

  lemma FirstSize(sorted: seq<string>, n: nat)
    requires UniqueBy(sorted, Identity) && n <= |sorted|
    ensures |KeySet(sorted[..n], Identity)| == n
  {
    forall i, j | 0 <= i < j < n ensures Identity(sorted[..n][i]) != Identity(sorted[..n][j]) {
      assert Identity(sorted[i]) != Identity(sorted[j]);
    }
    KeySetSize(sorted[..n], Identity);
  }

  lemma FirstBelowRest(sorted: seq<string>, n: nat, k: string, other: string)
    requires Sorted(sorted, NameLe) && n <= |sorted| && other in sorted
    requires k in KeySet(sorted[..n], Identity) && other !in KeySet(sorted[..n], Identity)
    ensures StringLe(k, other)
  {
    var i :| 0 <= i < n && sorted[..n][i] == k;
    var j :| 0 <= j < |sorted| && sorted[j] == other;
    assert forall x :: 0 <= x < n ==> sorted[..n][x] in sorted[..n] && Identity(sorted[..n][x]) in KeySet(sorted[..n], Identity);
    assert NameLe(sorted[i], sorted[j]);
  }

  lemma FirstAreLeast(sorted: seq<string>, kept: map<string, int>, all: map<string, int>)
    requires UniqueBy(sorted, Identity) && Sorted(sorted, NameLe) && |sorted| == |all| > MAX_NAMESPACES
    requires forall k :: k in sorted <==> k in all
    requires kept.Keys == KeySet(sorted[..MAX_NAMESPACES], Identity) && forall k :: k in kept ==> k in all && kept[k] == all[k]
    ensures LeastNamespaces(kept, all)
  {
    hide KeySet, UniqueBy, Sorted;
    FirstSize(sorted, MAX_NAMESPACES);
    assert |kept| == |kept.Keys|;
    forall k, other | k in kept && other in all && other !in kept ensures StringLe(k, other) {
      FirstBelowRest(sorted, MAX_NAMESPACES, k, other);
    }
  }

  method CapActions(actions: Option<seq<Action>>) returns (capped: Option<seq<Action>>)
    ensures capped == CapValid(actions, ValidAction, MAX_ACTIONS, CapAction)
  {
    hide CapList, Filter;
    var kept := DropInvalid(if actions.Some? then actions.value else [], ValidAction);
    kept := CapEach(kept, MAX_ACTIONS, CapAction);
    capped := if |kept| == 0 then None else Some(kept);
  }

  method CapIssues(issues: Option<seq<Issue>>) returns (capped: Option<seq<Issue>>)
    ensures capped == CapValid(issues, ValidIssue, MAX_MACHINE_ISSUES, CapIssue)
  {
    hide CapList, Filter;
    var kept := DropInvalid(if issues.Some? then issues.value else [], ValidIssue);
    kept := CapEach(kept, MAX_MACHINE_ISSUES, CapIssue);
    capped := if |kept| == 0 then None else Some(kept);
  }

  method CapInventoryBlock(inv: Inventory) returns (capped: Inventory)
    ensures capped == CapInventory(inv)
  {
    hide CapList, Clamp;
    var addons := CapEach(inv.addons, MAX_ADDONS, CapAddon);
    capped := Inventory(Clamp(inv.lok8sVersion, MAX_VERSION_LEN), Clamp(inv.kind, MAX_STATUS_LEN),
                        Clamp(inv.provider, MAX_STATUS_LEN), Clamp(inv.kubernetesVersion, MAX_VERSION_LEN),
                        Clamp(inv.specHash, MAX_VERSION_LEN), Clamp(inv.renderedAt, MAX_VERSION_LEN), addons);
  }

  class Payload {
    var header: Header
    var nodes: seq<Node>
    var components: seq<Component>
    var events: seq<Event>
    var actions: Option<seq<Action>>
    var issues: Option<seq<Issue>>
    var inventory: Option<Inventory>
    var byNamespace: map<string, int>

    function Value(): Contents
      reads this
    {
      Contents(header, nodes, components, events, actions, issues, inventory, byNamespace)
    }

    method ApplyCaps()
      modifies this
      ensures CappedTo(old(Value()), Value())
    {
      hide LeastNamespaces, CapList, CapValid, CapHeader, CapInventory;
      header := CapHeader(header);
      nodes := CapEach(nodes, MAX_NODES, CapNode);
      components := CapEach(components, MAX_COMPONENTS, CapComponent);
      events := CapEach(events, MAX_EVENTS, CapEvent);
      actions := CapActions(actions);
      issues := CapIssues(issues);
      if inventory.Some? {
        var inv := CapInventoryBlock(inventory.value);
        inventory := Some(inv);
      }
      byNamespace := TrimNamespaces(byNamespace);
    }
  }

  // ---------------------------------------------------------------- laws

  lemma EntriesAgain()
    ensures forall n :: CapNode(CapNode(n)) == CapNode(n)
    ensures forall c :: CapComponent(CapComponent(c)) == CapComponent(c)
    ensures forall e :: CapEvent(CapEvent(e)) == CapEvent(e)
    ensures forall a :: CapAction(CapAction(a)) == CapAction(a) && (ValidAction(a) ==> ValidAction(CapAction(a)))
    ensures forall i :: CapIssue(CapIssue(i)) == CapIssue(i) && (ValidIssue(i) ==> ValidIssue(CapIssue(i)))
    ensures forall d :: CapAddon(CapAddon(d)) == CapAddon(d)
    ensures forall h :: CapHeader(CapHeader(h)) == CapHeader(h)
  {
    ClampAgain();
    hide Clamp;
  }

  lemma ClampAgain()
    ensures forall s, n :: n > 0 ==> Clamp(Clamp(s, n), n) == Clamp(s, n) && (s != "" ==> Clamp(s, n) != "")
  {
    forall s, n | n > 0 ensures Clamp(Clamp(s, n), n) == Clamp(s, n) && (s != "" ==> Clamp(s, n) != "") {
      ClampMeans(s, n);
    }
  }

  lemma CapListAgain<T(!new)>(xs: seq<T>, max: nat, f: T -> T)
    requires forall x :: f(f(x)) == f(x)
    ensures CapList(CapList(xs, max, f), max, f) == CapList(xs, max, f)
  {
  }

  lemma {:induction false} FilterAll<T(!new)>(xs: seq<T>, keep: T -> bool)
    requires forall x :: x in xs ==> keep(x)
    ensures Filter(xs, keep) == xs
  {
    if xs != [] {
      assert xs == xs[..|xs| - 1] + [xs[|xs| - 1]];
      FilterAll(xs[..|xs| - 1], keep);
    }
  }

  lemma CapValidAgain<T(!new)>(xs: Option<seq<T>>, valid: T -> bool, max: nat, f: T -> T)
    requires forall x :: f(f(x)) == f(x) && (valid(x) ==> valid(f(x)))
    ensures CapValid(CapValid(xs, valid, max, f), valid, max, f) == CapValid(xs, valid, max, f)
  {
    var kept := Filter(if xs.Some? then xs.value else [], valid);
    var ys := CapList(kept, max, f);
    forall y | y in ys ensures valid(y) {
      var i :| 0 <= i < |ys| && ys[i] == y;
      assert kept[i] in kept;
    }
    FilterAll(ys, valid);
    CapListAgain(kept, max, f);
  }

  lemma LeastAgain(kept: map<string, int>, all: map<string, int>, again: map<string, int>)
    requires LeastNamespaces(kept, all) && LeastNamespaces(again, kept)
    ensures again == kept
  {
  }

  /** Applying the caps twice changes nothing the second time. */
  lemma CapsIdempotent(before: Contents, after: Contents, again: Contents)
    requires CappedTo(before, after) && CappedTo(after, again)
    ensures again == after
  {
    EntriesAgain();
    hide CapNode, CapComponent, CapEvent, CapAction, CapIssue, CapAddon, CapHeader, CapList, CapValid, LeastNamespaces;
    CapListAgain(before.nodes, MAX_NODES, CapNode);
    CapListAgain(before.components, MAX_COMPONENTS, CapComponent);
    CapListAgain(before.events, MAX_EVENTS, CapEvent);
    CapValidAgain(before.actions, ValidAction, MAX_ACTIONS, CapAction);
    CapValidAgain(before.issues, ValidIssue, MAX_MACHINE_ISSUES, CapIssue);
    if before.inventory.Some? { CapInventoryAgain(before.inventory.value); }
    LeastAgain(after.byNamespace, before.byNamespace, again.byNamespace);
  }

  lemma CapInventoryAgain(inv: Inventory)
    ensures CapInventory(CapInventory(inv)) == CapInventory(inv)
  {
    ClampAgain();
    EntriesAgain();
    hide Clamp, CapAddon, CapList;
    CapListAgain(inv.addons, MAX_ADDONS, CapAddon);
  }

  /** The least namespaces are determined by the map: nothing depends on how it is walked. */
  lemma LeastNamespacesUnique(a: map<string, int>, b: map<string, int>, all: map<string, int>)
    requires LeastNamespaces(a, all) && LeastNamespaces(b, all)
    ensures a == b
  {
    if |all| > MAX_NAMESPACES {
      if k :| k in a && k !in b {
        NotSubset(b, a, k);
        var other :| other in b && other !in a;
        StringLeAntisymmetric(k, other);
        assert false;
      }
      SameSizeSubset(a.Keys, b.Keys);
      assert a.Keys == b.Keys;
    }
  }

  lemma NotSubset(b: map<string, int>, a: map<string, int>, k: string)
    requires |a| == |b| && k in a && k !in b
    ensures exists other :: other in b && other !in a
  {
    if forall other :: other in b ==> other in a {
      assert |b.Keys| == |b| && |a.Keys| == |a|;
      SubsetSize(b.Keys, a.Keys - {k});
      assert false;
    }
  }

  lemma SameSizeSubset(a: set<string>, b: set<string>)
    requires a <= b && |a| == |b|
    ensures a == b
  {
    SubsetSize(a, b);
    if k :| k in b && k !in a {
      SubsetSize(a, b - {k});
      assert false;
    }
  }

  predicate Short(s: string, n: int) { |s| <= n }

  predicate ShortHeader(h: Header) {
    Short(h.clusterID, MAX_NAME_LEN) && Short(h.timestamp, MAX_VERSION_LEN) && Short(h.kubernetes, MAX_VERSION_LEN)
    && Short(h.agentVersion, MAX_TYPE_LEN) && Short(h.agentMode, MAX_STATUS_LEN)
  }

  ghost predicate ShortInventory(inv: Inventory) {
    && Short(inv.lok8sVersion, MAX_VERSION_LEN) && Short(inv.kind, MAX_STATUS_LEN) && Short(inv.provider, MAX_STATUS_LEN)
    && Short(inv.kubernetesVersion, MAX_VERSION_LEN) && Short(inv.specHash, MAX_VERSION_LEN)
    && Short(inv.renderedAt, MAX_VERSION_LEN) && |inv.addons| <= MAX_ADDONS
    && forall d :: d in inv.addons ==>
         Short(d.name, MAX_NAME_LEN) && Short(d.chartVersion, MAX_VERSION_LEN) && Short(d.appVersion, MAX_VERSION_LEN)
         && Short(d.category, MAX_STATUS_LEN) && Short(d.source, MAX_STATUS_LEN)
  }

  /** Within the server's bounds. */
  ghost predicate WithinCaps(v: Contents) {
    && |v.nodes| <= MAX_NODES && |v.components| <= MAX_COMPONENTS && |v.events| <= MAX_EVENTS
    && |v.byNamespace| <= MAX_NAMESPACES
    && (forall n :: n in v.nodes ==>
          Short(n.name, MAX_NAME_LEN) && Short(n.status, MAX_STATUS_LEN) && Short(n.roles, MAX_ROLES_LEN)
          && Short(n.instanceType, MAX_TYPE_LEN) && Short(n.kubeletVersion, MAX_VERSION_LEN))
    && (forall e :: e in v.events ==>
          Short(e.reason, MAX_STATUS_LEN) && Short(e.kind, MAX_STATUS_LEN) && Short(e.namespace, MAX_NAME_LEN)
          && Short(e.note, MAX_NOTE_LEN))
    && (v.actions.Some? ==>
          && 0 < |v.actions.value| <= MAX_ACTIONS
          && forall a :: a in v.actions.value ==>
               ValidAction(a) && Short(a.kind, MAX_STATUS_LEN) && Short(a.target, MAX_NAME_LEN)
               && Short(a.status, MAX_STATUS_LEN) && Short(a.detail, MAX_DETAIL_LEN) && 0 <= a.revision <= MAX_REVISION)
    && (v.issues.Some? ==>
          && 0 < |v.issues.value| <= MAX_MACHINE_ISSUES
          && forall i :: i in v.issues.value ==>
               ValidIssue(i) && Short(i.pool, MAX_STATUS_LEN) && Short(i.machine, MAX_NAME_LEN)
               && Short(i.reason, MAX_STATUS_LEN) && Short(i.message, MAX_NOTE_LEN) && Short(i.since, MAX_VERSION_LEN))
    && (forall c :: c in v.components ==> Short(c.name, MAX_NAME_LEN) && Short(c.status, MAX_STATUS_LEN))
    && ShortHeader(v.header) && (v.inventory.Some? ==> ShortInventory(v.inventory.value))
  }

  lemma ClampShort()
    ensures forall s, n :: n > 0 ==> Short(Clamp(s, n), n)
  {
    forall s, n | n > 0 ensures Short(Clamp(s, n), n) { ClampMeans(s, n); }
  }

  /** Members of a capped list come from members of the list. */
  lemma CapListFrom<T(!new)>(xs: seq<T>, max: nat, f: T -> T)
    ensures |CapList(xs, max, f)| <= max
    ensures forall y :: y in CapList(xs, max, f) ==> exists x :: x in xs && y == f(x)
  {
    var ys := CapList(xs, max, f);
    forall y | y in ys ensures exists x :: x in xs && y == f(x) {
      var i :| 0 <= i < |ys| && ys[i] == y;
      assert xs[i] in xs;
    }
  }

  lemma CapValidFrom<T(!new)>(xs: Option<seq<T>>, valid: T -> bool, max: nat, f: T -> T)
    ensures var ys := CapValid(xs, valid, max, f);
            ys.Some? ==> 0 < |ys.value| <= max && forall y :: y in ys.value ==> exists x :: valid(x) && y == f(x)
  {
    CapListFrom(Filter(if xs.Some? then xs.value else [], valid), max, f);
  }

  /** Whatever the payload, everything it carries afterwards is within the server's bounds. */
  lemma CapsBound(before: Contents, after: Contents)
    requires CappedTo(before, after)
    ensures WithinCaps(after)
  {
    ClampShort();
    ClampAgain();
    hide Clamp, Short, CapList, CapValid;
    CapListFrom(before.nodes, MAX_NODES, CapNode);
    CapListFrom(before.components, MAX_COMPONENTS, CapComponent);
    CapListFrom(before.events, MAX_EVENTS, CapEvent);
    CapValidFrom(before.actions, ValidAction, MAX_ACTIONS, CapAction);
    CapValidFrom(before.issues, ValidIssue, MAX_MACHINE_ISSUES, CapIssue);
    if before.inventory.Some? { CapListFrom(before.inventory.value.addons, MAX_ADDONS, CapAddon); }
  }

  // ---------------------------------------------------------------- what is left, exactly

  ghost predicate HeaderCut(h: Header, c: Header) {
    && CutTo(h.clusterID, 253, c.clusterID) && CutTo(h.timestamp, 64, c.timestamp)
    && CutTo(h.kubernetes, 64, c.kubernetes) && CutTo(h.agentVersion, 64, c.agentVersion)
    && CutTo(h.agentMode, 63, c.agentMode)
  }

  ghost predicate NodeCut(n: Node, c: Node) {
    && CutTo(n.name, 253, c.name) && CutTo(n.status, 63, c.status) && CutTo(n.roles, 253, c.roles)
    && CutTo(n.instanceType, 64, c.instanceType) && CutTo(n.kubeletVersion, 64, c.kubeletVersion)
  }

  ghost predicate ComponentCut(n: Component, c: Component) { CutTo(n.name, 253, c.name) && CutTo(n.status, 63, c.status) }

  ghost predicate EventCut(e: Event, c: Event) {
    && CutTo(e.reason, 63, c.reason) && CutTo(e.kind, 63, c.kind) && CutTo(e.namespace, 253, c.namespace)
    && CutTo(e.note, 256, c.note)
  }

  /** The revision is brought into range by the smallest change. */
  ghost predicate ActionCut(a: Action, c: Action) {
    && CutTo(a.kind, 63, c.kind) && CutTo(a.target, 253, c.target) && CutTo(a.status, 63, c.status)
    && CutTo(a.detail, 256, c.detail)
    && 0 <= c.revision <= 10_000_000 && (0 <= a.revision <= 10_000_000 ==> c.revision == a.revision)
    && (a.revision < 0 ==> c.revision == 0) && (a.revision > 10_000_000 ==> c.revision == 10_000_000)
  }

  ghost predicate IssueCut(i: Issue, c: Issue) {
    && CutTo(i.pool, 63, c.pool) && CutTo(i.machine, 253, c.machine) && CutTo(i.reason, 63, c.reason)
    && CutTo(i.message, 256, c.message) && CutTo(i.since, 64, c.since)
  }

  ghost predicate AddonCut(a: Addon, c: Addon) {
    && CutTo(a.name, 253, c.name) && CutTo(a.chartVersion, 64, c.chartVersion) && CutTo(a.appVersion, 64, c.appVersion)
    && CutTo(a.category, 63, c.category) && CutTo(a.source, 63, c.source)
  }

  /** The first `max` entries, each cut. */
  ghost predicate ListCut<T(!new)>(xs: seq<T>, ys: seq<T>, max: nat, cut: (T, T) -> bool) {
    |ys| == Min(|xs|, max) && forall i :: 0 <= i < |ys| ==> cut(xs[i], ys[i])
  }

  ghost predicate InventoryCut(inv: Inventory, c: Inventory) {
    && CutTo(inv.lok8sVersion, 64, c.lok8sVersion) && CutTo(inv.kind, 63, c.kind) && CutTo(inv.provider, 63, c.provider)
    && CutTo(inv.kubernetesVersion, 64, c.kubernetesVersion) && CutTo(inv.specHash, 64, c.specHash)
    && CutTo(inv.renderedAt, 64, c.renderedAt) && ListCut(inv.addons, c.addons, 100, AddonCut)
  }

  ghost predicate Targeted(a: Action) { a.target != "" }
  ghost predicate Attributed(i: Issue) { i.pool != "" && i.reason != "" }

  /** What is left of a list: its first `max` valid entries, cut, where they stood; a list without any is
      nil. */
  ghost predicate Survivors<T(!new)>(before: Option<seq<T>>, after: Option<seq<T>>, valid: T -> bool, max: nat,
                                     cut: (T, T) -> bool) {
    var items := if before.Some? then before.value else [];
    exists at: seq<nat> ::
      && Positions(at, items, valid)
      && (forall k :: 0 <= k < |at| ==> at[k] < |items|)
      && (after.None? <==> at == [])
      && (after.Some? ==>
            && |after.value| == Min(|at|, max)
            && forall k :: 0 <= k < |after.value| ==> cut(items[at[k]], after.value[k]))
  }

  lemma EntriesCut()
    ensures forall n :: NodeCut(n, CapNode(n))
    ensures forall c :: ComponentCut(c, CapComponent(c))
    ensures forall e :: EventCut(e, CapEvent(e))
    ensures forall a :: ActionCut(a, CapAction(a))
    ensures forall i :: IssueCut(i, CapIssue(i))
    ensures forall d :: AddonCut(d, CapAddon(d))
    ensures forall h :: HeaderCut(h, CapHeader(h))
  {
    forall s, n: nat | n > 0 ensures CutTo(s, n, Clamp(s, n)) { ClampMeans(s, n); }
    hide Clamp, CutTo;
  }

  lemma CapListCut<T(!new)>(xs: seq<T>, max: nat, f: T -> T, cut: (T, T) -> bool)
    requires forall x :: cut(x, f(x))
    ensures ListCut(xs, CapList(xs, max, f), max, cut)
  {
  }

  lemma CapInventoryCut(inv: Inventory)
    ensures InventoryCut(inv, CapInventory(inv))
  {
    EntriesCut();
    forall s, n: nat | n > 0 ensures CutTo(s, n, Clamp(s, n)) { ClampMeans(s, n); }
    hide Clamp, CutTo, AddonCut, CapAddon, CapList, ListCut;
    CapListCut(inv.addons, 100, CapAddon, AddonCut);
  }

  lemma CapValidSurvivors<T(!new)>(before: Option<seq<T>>, valid: T -> bool, max: nat, f: T -> T, cut: (T, T) -> bool)
    requires max > 0 && forall x :: cut(x, f(x))
    ensures Survivors(before, CapValid(before, valid, max, f), valid, max, cut)
  {
    var items := if before.Some? then before.value else [];
    var at := FilterPositions(items, valid);
    var after := CapValid(before, valid, max, f);
    hide Filter;
    assert after.None? <==> at == [];
    assert after.Some? ==>
             && |after.value| == Min(|at|, max)
             && forall k :: 0 <= k < |after.value| ==> cut(items[at[k]], after.value[k]);
    assert Positions(at, items, valid);
  }

  lemma SameSurvivors<T(!new)>(before: Option<seq<T>>, after: Option<seq<T>>, valid: T -> bool, other: T -> bool, max: nat,
                               cut: (T, T) -> bool)
    requires Survivors(before, after, valid, max, cut) && forall x :: valid(x) <==> other(x)
    ensures Survivors(before, after, other, max, cut)
  {
    var items := if before.Some? then before.value else [];
    var at: seq<nat> :| && Positions(at, items, valid) && (forall k :: 0 <= k < |at| ==> at[k] < |items|)
                        && (after.None? <==> at == [])
                        && (after.Some? ==>
                              && |after.value| == Min(|at|, max)
                              && forall k :: 0 <= k < |after.value| ==> cut(items[at[k]], after.value[k]));
    assert Positions(at, items, other);
  }

  /** What survives of the reports is the prefix of the valid entries, in their order, each field cut to its
      bound and otherwise left as it is. */
  lemma SurvivorsArePrefix(before: Contents, after: Contents)
    requires CappedTo(before, after)
    ensures Survivors(before.actions, after.actions, Targeted, 20, ActionCut)
    ensures Survivors(before.issues, after.issues, Attributed, 20, IssueCut)
  {
    EntriesCut();
    hide CapAction, CapIssue, ActionCut, IssueCut, Survivors, CapValid;
    CapValidSurvivors(before.actions, ValidAction, MAX_ACTIONS, CapAction, ActionCut);
    CapValidSurvivors(before.issues, ValidIssue, MAX_MACHINE_ISSUES, CapIssue, IssueCut);
    SameSurvivors(before.actions, after.actions, ValidAction, Targeted, 20, ActionCut);
    SameSurvivors(before.issues, after.issues, ValidIssue, Attributed, 20, IssueCut);
  }

  /** And of everything else a prefix of 500 nodes, 50 components, 50 events and 100 addons, each field cut to
      its bound and otherwise left as it is; at most 500 namespaces, the least ones, with their counts. */
  lemma PrefixesAreLeft(before: Contents, after: Contents)
    requires CappedTo(before, after)
    ensures HeaderCut(before.header, after.header)
    ensures ListCut(before.nodes, after.nodes, 500, NodeCut)
    ensures ListCut(before.components, after.components, 50, ComponentCut)
    ensures ListCut(before.events, after.events, 50, EventCut)
    ensures before.inventory.None? <==> after.inventory.None?
    ensures before.inventory.Some? ==> InventoryCut(before.inventory.value, after.inventory.value)
    ensures |before.byNamespace| <= 500 ==> after.byNamespace == before.byNamespace
    ensures |before.byNamespace| > 500 ==>
              && |after.byNamespace| == 500
              && (forall k :: k in after.byNamespace ==>
                    k in before.byNamespace && after.byNamespace[k] == before.byNamespace[k])
              && (forall k, other :: k in after.byNamespace && other in before.byNamespace && other !in after.byNamespace ==>
                    StringLe(k, other))
  {
    EntriesCut();
    hide CapNode, CapComponent, CapEvent, CapHeader, NodeCut, ComponentCut, EventCut, HeaderCut, CapList, ListCut,
         CapInventory;
    CapListCut(before.nodes, MAX_NODES, CapNode, NodeCut);
    CapListCut(before.components, MAX_COMPONENTS, CapComponent, ComponentCut);
    CapListCut(before.events, MAX_EVENTS, CapEvent, EventCut);
    if before.inventory.Some? { CapInventoryCut(before.inventory.value); }
  }
}
