/** The inventory mirror (internal/inventory): what the manager remembers about the custom resource,
    the verdicts it writes back into its status, and the poll that refreshes the memory. */
module Inventory {
  import opened Common
  import opened Json
  import opened Text

  const MAX_AVAILABLE_UPDATES: nat := 256

  datatype Update = Update(name: string, current: string, latest: string)

  datatype Addon = Addon(name: string, chartVersion: string, appVersion: string, category: string, source: string)

  datatype Spec = Spec(lok8sVersion: string, kind: string, provider: string, kubernetesVersion: string,
                       specHash: string, renderedAt: string, addons: seq<Addon>)

  // ---------------------------------------------------------------- reading the resource

  /** An entry without a name is malformed and skipped. */
  function ReadUpdate(j: Json): seq<Update> {
    if j.Obj? && NestedString(j.members, "name") != "" then
      [Update(NestedString(j.members, "name"), NestedString(j.members, "current"), NestedString(j.members, "latest"))]
    else []
  }

  function ReadUpdates(items: seq<Json>): seq<Update> {
    if items == [] then [] else ReadUpdates(items[..|items| - 1]) + ReadUpdate(items[|items| - 1])
  }

  /** What the status says: None until a verdict has been recorded. */
  function StatusUpdates(cr: Object): Option<seq<Update>> {
    match NestedSlice(cr, "status", "availableUpdates")
    case Some(items) => Some(ReadUpdates(items))
    case None => None
  }

  method StatusAvailableUpdates(cr: Object) returns (updates: seq<Update>, recorded: bool)
    ensures recorded == StatusUpdates(cr).Some? && updates == if recorded then StatusUpdates(cr).value else []
  {
    var raw := NestedSlice(cr, "status", "availableUpdates");
    updates := [];
    if raw.None? { return [], false; }
    for i := 0 to |raw.value|
      invariant updates == ReadUpdates(raw.value[..i])
    {
      var item := raw.value[i];
      assert raw.value[..i + 1][..i] == raw.value[..i];
      if !item.Obj? { continue; }
      var name := NestedString(item.members, "name");
      if name == "" { continue; }
      updates := updates + [Update(name, NestedString(item.members, "current"), NestedString(item.members, "latest"))];
    }
    assert raw.value[..|raw.value|] == raw.value;
    recorded := true;
  }

  function ReadAddons(items: seq<Json>): seq<Addon> {
    if items == [] then []
    else
      var j := items[|items| - 1];
      ReadAddons(items[..|items| - 1])
      + if j.Obj? && NestedString(j.members, "name") != "" then
          [Addon(NestedString(j.members, "name"), NestedString(j.members, "chartVersion"),
                 NestedString(j.members, "appVersion"), NestedString(j.members, "category"),
                 NestedString(j.members, "source"))]
        else []
  }

  /** The spec, field for field; None when there is none to read. */
  function ReadSpec(cr: Object): Option<Spec> {
    match NestedMap(cr, "spec")
    case None => None
    case Some(spec) =>
      if spec == [] then None
      else
        var addons := match NestedSlice(cr, "spec", "addons") case Some(items) => ReadAddons(items) case None => [];
        Some(Spec(NestedString(spec, "lok8sVersion"), NestedString(spec, "kind"), NestedString(spec, "provider"),
                  NestedString(spec, "kubernetesVersion"), NestedString(spec, "specHash"),
                  NestedString(spec, "renderedAt"), addons))
  }

  method SpecInventory(cr: Object) returns (spec: Option<Spec>)
    ensures spec == ReadSpec(cr)
  {
    var m := NestedMap(cr, "spec");
    if m.None? || |m.value| == 0 { return None; }
    var s := m.value;
    var addons: seq<Addon> := [];
    var raw := NestedSlice(cr, "spec", "addons");
    if raw.Some? {
      for i := 0 to |raw.value|
        invariant addons == ReadAddons(raw.value[..i])
      {
        var j := raw.value[i];
        assert raw.value[..i + 1][..i] == raw.value[..i];
        if !j.Obj? { continue; }
        var name := NestedString(j.members, "name");
        if name == "" { continue; }
        addons := addons + [Addon(name, NestedString(j.members, "chartVersion"), NestedString(j.members, "appVersion"),
                                  NestedString(j.members, "category"), NestedString(j.members, "source"))];
      }
      assert raw.value[..|raw.value|] == raw.value;
    }
    spec := Some(Spec(NestedString(s, "lok8sVersion"), NestedString(s, "kind"), NestedString(s, "provider"),
                      NestedString(s, "kubernetesVersion"), NestedString(s, "specHash"), NestedString(s, "renderedAt"),
                      addons));
  }

  // ---------------------------------------------------------------- capping a verdict

  function ClampUpdate(u: Update): Update {
    Update(Clamp(u.name, MAX_NAME_LEN), Clamp(u.current, MAX_VERSION_LEN), Clamp(u.latest, MAX_VERSION_LEN))
  }

  /** The first MAX_AVAILABLE_UPDATES named entries, clamped. */
  function Capped(updates: seq<Update>): seq<Update> {
    if updates == [] then []
    else
      var kept, u := Capped(updates[..|updates| - 1]), updates[|updates| - 1];
      if u.name == "" || |kept| >= MAX_AVAILABLE_UPDATES then kept else kept + [ClampUpdate(u)]
  }

  lemma {:induction false} CappedFull(updates: seq<Update>, i: nat)
    requires i <= |updates| && |Capped(updates[..i])| == MAX_AVAILABLE_UPDATES
    ensures Capped(updates) == Capped(updates[..i])
  {
    if i == |updates| {
      assert updates[..i] == updates;
    } else {
      var init := updates[..|updates| - 1];
      assert init[..i] == updates[..i];
      CappedFull(init, i);
    }
  }

  method CapUpdates(updates: seq<Update>) returns (kept: seq<Update>)
    ensures kept == Capped(updates)
  {
    kept := [];
    for i := 0 to |updates|
      invariant kept == Capped(updates[..i]) && |kept| <= MAX_AVAILABLE_UPDATES
    {
      var u := updates[i];
      assert updates[..i + 1][..i] == updates[..i];
      if u.name == "" { continue; }
      if |kept| == MAX_AVAILABLE_UPDATES {
        CappedFull(updates, i);
        return;
      }
      kept := kept + [ClampUpdate(u)];
    }
    assert updates[..|updates|] == updates;
  }

  /** Inside the bounds the resource's schema sets, so the status write cannot be refused for size. */
  predicate WithinBounds(updates: seq<Update>) {
    && |updates| <= MAX_AVAILABLE_UPDATES
    && forall u :: u in updates ==> u.name != "" && |u.name| <= MAX_NAME_LEN && |u.current| <= MAX_VERSION_LEN
                                    && |u.latest| <= MAX_VERSION_LEN
  }

  lemma {:induction false} CappedBounds(updates: seq<Update>)
    ensures WithinBounds(Capped(updates))
    ensures Capped(updates) == [] <==> forall u :: u in updates ==> u.name == ""
  {
    if updates != [] {
      var init, u := updates[..|updates| - 1], updates[|updates| - 1];
      assert updates == init + [u];
      CappedBounds(init);
      ClampMeans(u.name, MAX_NAME_LEN);
      ClampMeans(u.current, MAX_VERSION_LEN);
      ClampMeans(u.latest, MAX_VERSION_LEN);
    }
  }

  /** A list within bounds is its own cap. */
  lemma {:induction false} CappedFixed(updates: seq<Update>)
    requires WithinBounds(updates)
    ensures Capped(updates) == updates
  {
    if updates != [] {
      var init, u := updates[..|updates| - 1], updates[|updates| - 1];
      assert updates == init + [u];
      CappedFixed(init);
      ClampMeans(u.name, MAX_NAME_LEN);
      ClampMeans(u.current, MAX_VERSION_LEN);
      ClampMeans(u.latest, MAX_VERSION_LEN);
    }
  }

  // ---------------------------------------------------------------- the status patch

  /** Empty strings are left out of an entry. */
  function WriteUpdate(u: Update): Json {
    Obj([Member("name", Str(u.name))] + Optional("current", u.current) + Optional("latest", u.latest))
  }

  function WriteUpdates(updates: seq<Update>): seq<Json> {
    seq(|updates|, i requires 0 <= i < |updates| => WriteUpdate(updates[i]))
  }

  /** The patch touches two members of the status; an empty verdict is written as [], not null. */
  function StatusPatch(updates: seq<Update>, stamp: string): Json {
    Obj([Member("status", Obj([Member("availableUpdates", Arr(WriteUpdates(updates))),
                               Member("lastReported", Str(stamp))]))])
  }

  function Patched(cr: Object, updates: seq<Update>, stamp: string): Object {
    MergePatch(Obj(cr), StatusPatch(updates, stamp)).members
  }

  /** An optional member, as `omitempty` writes it. */
  function Optional(name: string, value: string): Object {
    if value == "" then [] else [Member(name, Str(value))]
  }

  lemma GetOptional(name: string, value: string, rest: Object, key: string)
    ensures Get(Optional(name, value) + rest, key)
         == if value != "" && key == name then Some(Str(value)) else Get(rest, key)
  {
    if value == "" {
      assert Optional(name, value) + rest == rest;
    } else {
      assert (Optional(name, value) + rest)[1..] == rest;
    }
  }

  lemma WrittenMember(u: Update, key: string)
    requires u.name != ""
    ensures NestedString(WriteUpdate(u).members, key)
         == if key == "name" then u.name else if key == "current" then u.current else if key == "latest" then u.latest else ""
  {
    var last := Optional("latest", u.latest);
    assert WriteUpdate(u).members == Optional("name", u.name) + (Optional("current", u.current) + last);
    assert last == last + [];
    hide Optional;
    GetOptional("name", u.name, Optional("current", u.current) + last, key);
    GetOptional("current", u.current, last, key);
    GetOptional("latest", u.latest, [], key);
  }

  lemma ReadWritten(u: Update)
    requires u.name != ""
    ensures ReadUpdate(WriteUpdate(u)) == [u]
  {
    hide NestedString, Optional;
    WrittenMember(u, "name");
    WrittenMember(u, "current");
    WrittenMember(u, "latest");
  }

  lemma {:induction false} ReadWrittenAll(updates: seq<Update>)
    requires forall u :: u in updates ==> u.name != ""
    ensures ReadUpdates(WriteUpdates(updates)) == updates
  {
    hide ReadUpdate, WriteUpdate;
    if updates != [] {
      var init, u := updates[..|updates| - 1], updates[|updates| - 1];
      assert updates == init + [u];
      ReadWrittenAll(init);
      ReadWritten(u);
      assert WriteUpdates(updates)[..|updates| - 1] == WriteUpdates(init);
    }
  }

  lemma PatchedMember(cr: Object, updates: seq<Update>, stamp: string, name: string)
    ensures Get(Patched(cr, updates, stamp), name)
         == if name == "status" then
              Some(MergePatch(GetOrNull(cr, "status"), StatusPatch(updates, stamp).members[0].value))
            else Get(cr, name)
  {
    var patch := StatusPatch(updates, stamp);
    assert |patch.members| == 1 && patch.members[0].name == "status" && patch.members[0].value.Obj?;
    hide MergeUpTo, StatusPatch;
    assert Patched(cr, updates, stamp) == MergeUpTo(cr, patch, 1);
    if name == "status" { MergeSets(cr, patch, 1, 0); } else { MergeKeeps(cr, patch, 1, name); }
  }

  /** The part of the status the patch must not touch. */
  function StatusMember(cr: Object, name: string): Option<Json> {
    match NestedMap(cr, "status") case Some(members) => Get(members, name) case None => None
  }

  lemma PatchedStatus(cr: Object, updates: seq<Update>, stamp: string, name: string)
    ensures NestedMap(Patched(cr, updates, stamp), "status").Some?
    ensures StatusMember(Patched(cr, updates, stamp), name)
         == if name == "availableUpdates" then Some(Arr(WriteUpdates(updates)))
            else if name == "lastReported" then Some(Str(stamp))
            else StatusMember(cr, name)
  {
    var inner := StatusPatch(updates, stamp).members[0].value;
    var before := if GetOrNull(cr, "status").Obj? then GetOrNull(cr, "status").members else [];
    PatchedMember(cr, updates, stamp, "status");
    assert inner.members[0].name == "availableUpdates" && inner.members[1].name == "lastReported";
    assert UniqueBy(inner.members, MemberName);
    hide MergeUpTo, WriteUpdates;
    MergeSets(before, inner, 2, 0);
    MergeSets(before, inner, 2, 1);
    if name != "availableUpdates" && name != "lastReported" { MergeKeeps(before, inner, 2, name); }
  }

  /** Round trip: what is written is what the next poll reads back, the empty verdict included, and
      nothing else in the resource changes. */
  lemma StatusRoundTrip(cr: Object, updates: seq<Update>, stamp: string)
    requires forall u :: u in updates ==> u.name != ""
    ensures StatusUpdates(Patched(cr, updates, stamp)) == Some(updates)
    ensures forall name :: name != "status" ==> Get(Patched(cr, updates, stamp), name) == Get(cr, name)
    ensures forall name :: name != "availableUpdates" && name != "lastReported" ==>
              StatusMember(Patched(cr, updates, stamp), name) == StatusMember(cr, name)
    ensures StatusMember(Patched(cr, updates, stamp), "lastReported") == Some(Str(stamp))
  {
    hide Patched;
    PatchedStatus(cr, updates, stamp, "lastReported");
    PatchedStatus(cr, updates, stamp, "availableUpdates");
    ReadWrittenAll(updates);
    forall name | name != "status" ensures Get(Patched(cr, updates, stamp), name) == Get(cr, name) {
      PatchedMember(cr, updates, stamp, name);
    }
    forall name | name != "availableUpdates" && name != "lastReported"
      ensures StatusMember(Patched(cr, updates, stamp), name) == StatusMember(cr, name)
    {
      PatchedStatus(cr, updates, stamp, name);
    }
  }

  // ---------------------------------------------------------------- what is read, exactly

  /** The text under a name; "" unless there is a string. */
  ghost predicate TextAt(o: Object, name: string, text: string) {
    if exists s :: Get(o, name) == Some(Str(s)) then Get(o, name) == Some(Str(text)) else text == ""
  }

  /** An object with a name. */
  ghost predicate NamedEntry(j: Json) {
    j.Obj? && exists name :: name != "" && Get(j.members, "name") == Some(Str(name))
  }

  ghost predicate AddonAt(j: Json, a: Addon) {
    && j.Obj? && TextAt(j.members, "name", a.name) && TextAt(j.members, "chartVersion", a.chartVersion)
    && TextAt(j.members, "appVersion", a.appVersion) && TextAt(j.members, "category", a.category)
    && TextAt(j.members, "source", a.source)
  }

  ghost predicate UpdateAt(j: Json, u: Update) {
    && j.Obj? && TextAt(j.members, "name", u.name) && TextAt(j.members, "current", u.current)
    && TextAt(j.members, "latest", u.latest)
  }

  lemma NestedStringIs(o: Object, name: string)
    ensures TextAt(o, name, NestedString(o, name))
    ensures NestedString(o, name) != "" <==> exists s :: s != "" && Get(o, name) == Some(Str(s))
  {
  }

  lemma EntryRead(j: Json)
    ensures NamedEntry(j) <==> j.Obj? && NestedString(j.members, "name") != ""
    ensures NamedEntry(j) ==> |ReadUpdate(j)| == 1 && UpdateAt(j, ReadUpdate(j)[0])
    ensures !NamedEntry(j) ==> ReadUpdate(j) == []
  {
    hide NestedString, TextAt;
    if j.Obj? {
      NestedStringIs(j.members, "name");
      NestedStringIs(j.members, "current");
      NestedStringIs(j.members, "latest");
    }
  }

  /** The updates read are the named entries, in their order and field for field. */
  lemma {:induction false} UpdatesRead(items: seq<Json>) returns (at: seq<nat>)
    ensures Positions(at, items, NamedEntry) && |ReadUpdates(items)| == |at|
    ensures forall k :: 0 <= k < |at| ==> at[k] < |items| && UpdateAt(items[at[k]], ReadUpdates(items)[k])
  {
    if items == [] { return []; }
    var n: nat := |items| - 1;
    at := UpdatesRead(items[..n]);
    PositionsNext(at, items, NamedEntry);
    UpdatesNext(items);
    hide Positions, NamedEntry, UpdateAt, ReadUpdates;
    if NamedEntry(items[n]) { at := at + [n]; }
  }

  lemma UpdatesNext(items: seq<Json>)
    requires items != []
    ensures var before, all, last := ReadUpdates(items[..|items| - 1]), ReadUpdates(items), items[|items| - 1];
            if NamedEntry(last) then |all| == |before| + 1 && all[..|before|] == before && UpdateAt(last, all[|before|])
            else all == before
  {
    EntryRead(items[|items| - 1]);
    hide ReadUpdate, NamedEntry, UpdateAt;
  }

  /** And so are the addons. */
  lemma {:induction false} AddonsRead(items: seq<Json>) returns (at: seq<nat>)
    ensures Positions(at, items, NamedEntry) && |ReadAddons(items)| == |at|
    ensures forall k :: 0 <= k < |at| ==> at[k] < |items| && AddonAt(items[at[k]], ReadAddons(items)[k])
  {
    if items == [] { return []; }
    var n: nat := |items| - 1;
    at := AddonsRead(items[..n]);
    PositionsNext(at, items, NamedEntry);
    AddonsNext(items);
    hide Positions, NamedEntry, AddonAt, ReadAddons;
    if NamedEntry(items[n]) { at := at + [n]; }
  }

  lemma AddonsNext(items: seq<Json>)
    requires items != []
    ensures var before, all, last := ReadAddons(items[..|items| - 1]), ReadAddons(items), items[|items| - 1];
            if NamedEntry(last) then |all| == |before| + 1 && all[..|before|] == before && AddonAt(last, all[|before|])
            else all == before
  {
    hide NestedString, TextAt;
    var j := items[|items| - 1];
    EntryRead(j);
    if j.Obj? {
      NestedStringIs(j.members, "name");
      NestedStringIs(j.members, "chartVersion");
      NestedStringIs(j.members, "appVersion");
      NestedStringIs(j.members, "category");
      NestedStringIs(j.members, "source");
    }
  }

  /** The list under a name of an object; empty unless there is one. */
  ghost function ListAt(o: Object, name: string): seq<Json> {
    if exists items :: Get(o, name) == Some(Arr(items)) then Get(o, name).value.items else []
  }

  /** A spec is read exactly when there is a non-empty object to read, each text field from the member of its
      own name, and the addons from the named entries. */
  lemma SpecRead(cr: Object) returns (at: seq<nat>)
    ensures ReadSpec(cr).Some? <==> exists members :: members != [] && Get(cr, "spec") == Some(Obj(members))
    ensures ReadSpec(cr).Some? ==>
              Get(cr, "spec").Some? && Get(cr, "spec").value.Obj? &&
              var spec, o := ReadSpec(cr).value, Get(cr, "spec").value.members;
              && TextAt(o, "lok8sVersion", spec.lok8sVersion) && TextAt(o, "kind", spec.kind)
              && TextAt(o, "provider", spec.provider) && TextAt(o, "kubernetesVersion", spec.kubernetesVersion)
              && TextAt(o, "specHash", spec.specHash) && TextAt(o, "renderedAt", spec.renderedAt)
              && Positions(at, ListAt(o, "addons"), NamedEntry) && |spec.addons| == |at|
              && forall k :: 0 <= k < |at| ==>
                   at[k] < |ListAt(o, "addons")| && AddonAt(ListAt(o, "addons")[at[k]], spec.addons[k])
  {
    at := [];
    if ReadSpec(cr).Some? {
      var o := Get(cr, "spec").value.members;
      NestedStringIs(o, "lok8sVersion");
      NestedStringIs(o, "kind");
      NestedStringIs(o, "provider");
      NestedStringIs(o, "kubernetesVersion");
      NestedStringIs(o, "specHash");
      NestedStringIs(o, "renderedAt");
      at := AddonsRead(ListAt(o, "addons"));
      hide NestedString, TextAt, Positions, AddonAt;
      assert ReadSpec(cr).value.addons == ReadAddons(ListAt(o, "addons"));
    }
  }

  /** The status is read exactly when it holds a list. */
  lemma StatusRead(cr: Object)
    ensures StatusUpdates(cr).Some? <==>
              exists status, items ::
                && Get(cr, "status") == Some(Obj(status))
                && Get(status, "availableUpdates") == Some(Arr(items))
    ensures StatusUpdates(cr).Some? ==>
              && Get(cr, "status").Some? && Get(cr, "status").value.Obj?
              && StatusUpdates(cr).value == ReadUpdates(ListAt(Get(cr, "status").value.members, "availableUpdates"))
  {
  }

  // ---------------------------------------------------------------- what is kept of a verdict, exactly

  predicate HasName(u: Update) { u.name != "" }

  ghost predicate UpdateCut(u: Update, c: Update) {
    CutTo(u.name, 253, c.name) && CutTo(u.current, 64, c.current) && CutTo(u.latest, 64, c.latest)
  }

  lemma ClampedCut(u: Update)
    ensures UpdateCut(u, ClampUpdate(u))
  {
    ClampMeans(u.name, MAX_NAME_LEN);
    ClampMeans(u.current, MAX_VERSION_LEN);
    ClampMeans(u.latest, MAX_VERSION_LEN);
    hide Clamp;
  }

  /** `kept` are the first 256 entries at these positions, each cut. */
  ghost predicate KeptFrom(updates: seq<Update>, kept: seq<Update>, at: seq<nat>) {
    && |kept| == Min(|at|, 256)
    && (forall k :: 0 <= k < |at| ==> at[k] < |updates|)
    && forall k :: 0 <= k < |kept| ==> UpdateCut(updates[at[k]], kept[k])
  }

  lemma KeptDropped(init: seq<Update>, last: Update, kept: seq<Update>, at: seq<nat>)
    requires KeptFrom(init, kept, at)
    ensures KeptFrom(init + [last], kept, at)
    ensures |at| >= 256 ==> KeptFrom(init + [last], kept, at + [|init|])
  {
    hide UpdateCut;
    forall k | 0 <= k < |kept| ensures UpdateCut((init + [last])[at[k]], kept[k]) {
      assert UpdateCut(init[at[k]], kept[k]);
    }
  }

  lemma KeptAdded(init: seq<Update>, last: Update, cut: Update, kept: seq<Update>, at: seq<nat>)
    requires KeptFrom(init, kept, at) && |kept| < 256 && UpdateCut(last, cut)
    ensures KeptFrom(init + [last], kept + [cut], at + [|init|])
  {
    hide UpdateCut;
    forall k | 0 <= k < |kept| ensures UpdateCut((init + [last])[at[k]], kept[k]) {
      assert UpdateCut(init[at[k]], kept[k]);
    }
  }

  /** A capped list is the first 256 named entries of the list, in their order, each cut to its bounds. */
  lemma {:induction false} CappedAt(updates: seq<Update>) returns (at: seq<nat>)
    ensures Positions(at, updates, HasName) && KeptFrom(updates, Capped(updates), at)
  {
    if updates == [] { return []; }
    var n: nat := |updates| - 1;
    var init, last := updates[..n], updates[n];
    assert updates == init + [last];
    at := CappedAt(init);
    PositionsNext(at, updates, HasName);
    ClampedCut(last);
    KeptDropped(init, last, Capped(init), at);
    if HasName(last) {
      if |Capped(init)| < 256 { KeptAdded(init, last, ClampUpdate(last), Capped(init), at); }
      hide KeptFrom, Positions, UpdateCut, ClampUpdate;
      assert Capped(updates) == if |Capped(init)| < 256 then Capped(init) + [ClampUpdate(last)] else Capped(init);
      assert |Capped(init)| == Min(|at|, 256) by { KeptCount(init, Capped(init), at); }
      at := at + [n];
    }
  }

  lemma KeptCount(updates: seq<Update>, kept: seq<Update>, at: seq<nat>)
    requires KeptFrom(updates, kept, at)
    ensures |kept| == Min(|at|, 256)
  {
  }
}
