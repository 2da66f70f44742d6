/** JSON values as the Kubernetes client holds them, the tolerant readers used on them, and the merge
    patch of section 2 of RFC 7396. */
module Json {
  import opened Common

  datatype Json =
    | Null
    | Bool(b: bool)
    | Num(n: int)
    | Str(s: string)
    | Arr(items: seq<Json>)
    | Obj(members: Object)

  datatype Member = Member(name: string, value: Json)

  type Object = seq<Member>

  function MemberName(m: Member): string { m.name }

  function Get(o: Object, name: string): Option<Json> {
    if o == [] then None
    else if o[0].name == name then Some(o[0].value)
    else Get(o[1..], name)
  }

  function Remove(o: Object, name: string): Object {
    if o == [] then []
    else if o[0].name == name then Remove(o[1..], name)
    else [o[0]] + Remove(o[1..], name)
  }

  function Put(o: Object, name: string, value: Json): Object {
    if o == [] then [Member(name, value)]
    else if o[0].name == name then [Member(name, value)] + o[1..]
    else [o[0]] + Put(o[1..], name, value)
  }

  /** A null in an object patch deletes the member, any other value is merged into it; a patch that
      is no object replaces the target. */
  function MergePatch(target: Json, patch: Json): Json
    decreases patch, 1, 0
  {
    if !patch.Obj? then patch
    else Obj(MergeUpTo(if target.Obj? then target.members else [], patch, |patch.members|))
  }

  /** The target after the first `k` members of the patch. */
  function MergeUpTo(target: Object, patch: Json, k: nat): Object
    requires patch.Obj? && k <= |patch.members|
    decreases patch, 0, k
  {
    if k == 0 then target
    else
      var done, m := MergeUpTo(target, patch, k - 1), patch.members[k - 1];
      if m.value.Null? then Remove(done, m.name)
      else Put(done, m.name, MergePatch(GetOrNull(done, m.name), m.value))
  }

  function GetOrNull(o: Object, name: string): Json {
    match Get(o, name) case Some(v) => v case None => Null
  }

  // ---------------------------------------------------------------- laws

  lemma {:induction false} GetPut(o: Object, name: string, value: Json, other: string)
    ensures Get(Put(o, name, value), other) == if other == name then Some(value) else Get(o, other)
  {
    if o != [] && o[0].name != name {
      GetPut(o[1..], name, value, other);
      assert Put(o, name, value)[1..] == Put(o[1..], name, value);
    }
  }

  lemma {:induction false} GetRemove(o: Object, name: string, other: string)
    ensures Get(Remove(o, name), other) == if other == name then None else Get(o, other)
  {
    if o != [] {
      GetRemove(o[1..], name, other);
      if o[0].name != name { assert Remove(o, name)[1..] == Remove(o[1..], name); }
    }
  }

  /** A member the patch does not name is left alone. */
  lemma {:induction false} MergeKeeps(target: Object, patch: Json, k: nat, name: string)
    requires patch.Obj? && k <= |patch.members| && forall i :: 0 <= i < k ==> patch.members[i].name != name
    ensures Get(MergeUpTo(target, patch, k), name) == Get(target, name)
  {
    if k > 0 {
      var done, m := MergeUpTo(target, patch, k - 1), patch.members[k - 1];
      MergeKeeps(target, patch, k - 1, name);
      GetRemove(done, m.name, name);
      GetPut(done, m.name, MergePatch(GetOrNull(done, m.name), m.value), name);
    }
  }

  /** A member the patch names once is deleted by null and merged with any other value. */
  lemma {:induction false} MergeSets(target: Object, patch: Json, k: nat, i: nat)
    requires patch.Obj? && i < k <= |patch.members| && UniqueBy(patch.members, MemberName)
    ensures var m := patch.members[i];
            Get(MergeUpTo(target, patch, k), m.name)
              == if m.value.Null? then None else Some(MergePatch(GetOrNull(target, m.name), m.value))
  {
    hide MergePatch;
    var done, m, last := MergeUpTo(target, patch, k - 1), patch.members[i], patch.members[k - 1];
    GetRemove(done, last.name, m.name);
    GetPut(done, last.name, MergePatch(GetOrNull(done, last.name), last.value), m.name);
    if i < k - 1 {
      MergeSets(target, patch, k - 1, i);
      assert MemberName(patch.members[i]) != MemberName(patch.members[k - 1]);
    } else {
      forall j | 0 <= j < i ensures patch.members[j].name != m.name {
        assert MemberName(patch.members[j]) != MemberName(patch.members[i]);
      }
      MergeKeeps(target, patch, i, m.name);
    }
  }

  // ---------------------------------------------------------------- tolerant readers

  /** The string under a name, "" when absent or not a string. */
  function NestedString(o: Object, name: string): string {
    match Get(o, name) case Some(Str(s)) => s case _ => ""
  }

  /** The object under a name, None when absent or not an object. */
  function NestedMap(o: Object, name: string): Option<Object> {
    match Get(o, name) case Some(Obj(members)) => Some(members) case _ => None
  }

  /** The list under `outer.inner`, None when it is absent, null, or anything but a list. */
  function NestedSlice(o: Object, outer: string, inner: string): Option<seq<Json>> {
    match NestedMap(o, outer)
    case Some(members) => (match Get(members, inner) case Some(Arr(items)) => Some(items) case _ => None)
    case None => None
  }
}
