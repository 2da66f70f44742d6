/** Which MachineDeployment owns a machine (internal/machines/machines.go). */
module PoolResolution {
  import opened Common
  import opened Fleet
  import opened FleetLaws
  import opened Ordering

  /** Every requirement holds of the machine's labels. */
  predicate Selects(sel: Selector, m: Machine) {
    forall r :: r in sel ==> r.Matches(m.labels)
  }

  /** An absent, unparseable or empty selector claims nothing. */
  predicate Usable(md: Deployment) { md.selector.Some? && md.selector.value != [] }

  /** Drops the final "-segment"; "" when there is no separator. */
  function StripLastSegment(name: string): string {
    if name == [] then []
    else if name[|name| - 1] == '-' then name[..|name| - 1]
    else StripLastSegment(name[..|name| - 1])
  }

  datatype Resolver = Resolver(
    mds: map<string, Deployment>, selectors: map<string, Selector>, order: seq<string>)
  {
    ghost predicate WellFormed() {
      forall n :: n in order ==> n in selectors && n in mds
    }
  }

  // ---------------------------------------------------------------- what the code computes

  function Register(r: Resolver, md: Deployment): Resolver {
    if md.name == "" then r
    else if Usable(md) then
      Resolver(r.mds[md.name := md], r.selectors[md.name := md.selector.value], r.order + [md.name])
    else r.(mds := r.mds[md.name := md])
  }

  function RegisterAll(mds: seq<Deployment>): (r: Resolver)
    ensures r.WellFormed()
  {
    if mds == [] then Resolver(map[], map[], [])
    else Register(RegisterAll(mds[..|mds| - 1]), mds[|mds| - 1])
  }

  function ResolverOf(mds: seq<Deployment>): (r: Resolver)
    ensures r.WellFormed()
  {
    var r := RegisterAll(mds);
    SortMembers(r.order, NameLe);
    r.(order := Sort(r.order, NameLe))
  }

  /** The first name in `order` whose selector matches. */
  function FirstSelecting(r: Resolver, order: seq<string>, m: Machine): Option<Deployment>
    requires forall n :: n in order ==> n in r.selectors && n in r.mds
  {
    if order == [] then None
    else if Selects(r.selectors[order[0]], m) then Some(r.mds[order[0]])
    else FirstSelecting(r, order[1..], m)
  }

  /** The first MachineSet owner whose stripped name is a known deployment. */
  function FirstNamed(r: Resolver, owners: seq<OwnerRef>): Option<Deployment> {
    if owners == [] then None
    else if owners[0].kind == "MachineSet" && StripLastSegment(owners[0].name) in r.mds
    then Some(r.mds[StripLastSegment(owners[0].name)])
    else FirstNamed(r, owners[1..])
  }

  function PoolFor(r: Resolver, m: Machine): Option<Deployment>
    requires r.WellFormed()
  {
    var selected := FirstSelecting(r, r.order, m);
    if selected.Some? then selected else FirstNamed(r, m.owners)
  }

  function OwnerOf(mds: seq<Deployment>, m: Machine): Option<Deployment> { PoolFor(ResolverOf(mds), m) }

  /** The pool name the executor works with: "" when unresolved. */
  function PoolNameOf(mds: seq<Deployment>, m: Machine): string {
    match OwnerOf(mds, m)
    case Some(md) => md.name
    case None => ""
  }

  // ---------------------------------------------------------------- the resolver object

  class PoolResolver {
    var mds: map<string, Deployment>
    var selectors: map<string, Selector>
    var order: seq<string>

    function Value(): Resolver
      reads this
    {
      Resolver(mds, selectors, order)
    }

    constructor (list: seq<Deployment>)
      ensures Value() == ResolverOf(list)
    {
      mds, selectors, order := map[], map[], [];
      new;
      for i := 0 to |list|
        invariant Value() == RegisterAll(list[..i])
      {
        var md := list[i];
        assert list[..i + 1][..i] == list[..i];
        if md.name != "" {
          mds := mds[md.name := md];
          if Usable(md) {
            selectors := selectors[md.name := md.selector.value];
            order := order + [md.name];
          }
        }
      }
      assert list[..|list|] == list;
      order := Sort(order, NameLe);
    }

    /** The owner, or None: an unresolved machine is never acted on. */
    method Find(m: Machine) returns (owner: Option<Deployment>)
      requires Value().WellFormed()
      ensures owner == PoolFor(Value(), m)
    {
      for i := 0 to |order|
        invariant FirstSelecting(Value(), order, m) == FirstSelecting(Value(), order[i..], m)
      {
        if Selects(selectors[order[i]], m) { return Some(mds[order[i]]); }
        assert order[i..][1..] == order[i + 1..];
      }
      for i := 0 to |m.owners|
        invariant FirstSelecting(Value(), order, m).None?
        invariant FirstNamed(Value(), m.owners) == FirstNamed(Value(), m.owners[i..])
      {
        var ref := m.owners[i];
        if ref.kind == "MachineSet" && StripLastSegment(ref.name) in mds {
          return Some(mds[StripLastSegment(ref.name)]);
        }
        assert m.owners[i..][1..] == m.owners[i + 1..];
      }
      owner := None;
    }
  }

  // ---------------------------------------------------------------- what it means

  /** The deployment's selector is there, says something, and all of it holds of the machine. */
  ghost predicate Claims(md: Deployment, m: Machine) {
    && md.name != "" && md.selector.Some? && |md.selector.value| > 0
    && forall r :: r in md.selector.value ==> Holds(r, m.labels)
  }

  /** The machine set is named after the deployment: its name, a dash, and a last segment. */
  ghost predicate NamedAfter(machineSet: string, name: string) {
    && |machineSet| > |name| && machineSet[..|name|] == name && machineSet[|name|] == '-'
    && forall i :: |name| < i < |machineSet| ==> machineSet[i] != '-'
  }

  /** The i-th owner reference is a MachineSet named after this deployment. */
  ghost predicate NamedByOwner(mds: seq<Deployment>, m: Machine, i: nat, md: Deployment) {
    && i < |m.owners| && m.owners[i].kind == "MachineSet"
    && md in mds && md.name != "" && NamedAfter(m.owners[i].name, md.name)
  }

  /** Stripping recovers exactly the name a machine set is named after, and "" when it has no dash. */
  lemma {:induction false} StripIff(machineSet: string, name: string)
    ensures NamedAfter(machineSet, name) ==> StripLastSegment(machineSet) == name
    ensures StripLastSegment(machineSet) == name ==>
              NamedAfter(machineSet, name) || (name == "" && forall i :: 0 <= i < |machineSet| ==> machineSet[i] != '-')
    ensures (forall i :: 0 <= i < |machineSet| ==> machineSet[i] != '-') ==> StripLastSegment(machineSet) == ""
  {
    if machineSet != [] {
      var init := machineSet[..|machineSet| - 1];
      if machineSet[|init|] == '-' {
        if NamedAfter(machineSet, name) { assert |name| == |init|; }
      } else {
        StripIff(init, name);
        if NamedAfter(machineSet, name) { assert |name| < |init| && init[..|name|] == machineSet[..|name|]; }
        if NamedAfter(init, name) { assert init[..|name|] == machineSet[..|name|]; }
      }
    }
  }

  lemma NamedIff(mds: seq<Deployment>, m: Machine, i: nat, md: Deployment)
    ensures NamedByOwner(mds, m, i, md) <==>
              && i < |m.owners| && m.owners[i].kind == "MachineSet"
              && md in mds && md.name != "" && md.name == StripLastSegment(m.owners[i].name)
  {
    hide NamedAfter;
    if i < |m.owners| { StripIff(m.owners[i].name, md.name); }
  }

  lemma ClaimsIff(md: Deployment, m: Machine)
    ensures Claims(md, m) <==> md.name != "" && Usable(md) && Selects(md.selector.value, m)
  {
    if md.selector.Some? {
      forall r | r in md.selector.value ensures Holds(r, m.labels) <==> r.Matches(m.labels) { MatchesIff(r, m.labels); }
    }
    hide Holds;
  }

  ghost predicate IsOwner(mds: seq<Deployment>, m: Machine, md: Deployment) {
    || (&& md in mds && Claims(md, m)
        && forall other :: other in mds && Claims(other, m) ==> StringLe(md.name, other.name))
    || (&& (forall other :: other in mds ==> !Claims(other, m))
        && exists i: nat :: NamedByOwner(mds, m, i, md)
                            && forall j: nat, other :: j < i ==> !NamedByOwner(mds, m, j, other))
  }

  /** `r` holds exactly the named deployments of `mds`, and orders exactly the usable ones. */
  ghost predicate Faithful(r: Resolver, mds: seq<Deployment>) {
    && (forall n :: n in r.mds ==> r.mds[n] in mds && r.mds[n].name == n && n != "")
    && (forall md :: md in mds && md.name != "" ==> md.name in r.mds && r.mds[md.name] == md)
    && (forall n :: n in r.order <==> n in r.mds && Usable(r.mds[n]))
    && (forall n :: n in r.order ==> n in r.selectors && r.selectors[n] == r.mds[n].selector.value)
  }

  lemma RegisterFaithful(r: Resolver, init: seq<Deployment>, last: Deployment)
    requires Faithful(r, init) && last.name !in r.mds
    ensures Faithful(Register(r, last), init + [last])
  {
    var r' := Register(r, last);
    if last.name != "" {
      forall n ensures n in r'.order <==> n in r'.mds && Usable(r'.mds[n]) {
        if n != last.name { assert n in r'.order <==> n in r.order; }
      }
    }
  }

  lemma {:induction false} RegisteredFacts(mds: seq<Deployment>)
    requires UniqueBy(mds, DeploymentName)
    ensures Faithful(RegisterAll(mds), mds)
  {
    if mds != [] {
      var init, last := mds[..|mds| - 1], mds[|mds| - 1];
      assert mds == init + [last];
      RegisteredFacts(init);
      var r := RegisterAll(init);
      forall i | 0 <= i < |init| ensures init[i].name != last.name {
        assert DeploymentName(mds[i]) != DeploymentName(mds[|mds| - 1]);
      }
      RegisterFaithful(r, init, last);
    }
  }

  lemma ResolverFaithful(mds: seq<Deployment>)
    requires UniqueBy(mds, DeploymentName)
    ensures Faithful(ResolverOf(mds), mds) && Sorted(ResolverOf(mds).order, NameLe)
  {
    RegisteredFacts(mds);
    SortMembers(RegisterAll(mds).order, NameLe);
    ByKeyPreorder(Identity, NameLe);
    SortSorted(RegisterAll(mds).order, NameLe);
  }

  lemma {:induction false} FirstSelectingFinds(r: Resolver, order: seq<string>, m: Machine)
    requires forall n :: n in order ==> n in r.selectors && n in r.mds
    requires Sorted(order, NameLe)
    ensures match FirstSelecting(r, order, m)
            case None => forall n :: n in order ==> !Selects(r.selectors[n], m)
            case Some(md) =>
              exists n :: n in order && r.mds[n] == md && Selects(r.selectors[n], m)
                          && forall k :: k in order && Selects(r.selectors[k], m) ==> StringLe(n, k)
  {
    if order != [] {
      var n := order[0];
      if Selects(r.selectors[n], m) {
        forall k | k in order ensures StringLe(n, k) {
          var i :| 0 <= i < |order| && order[i] == k;
          StringLeTotal(n, n);
          assert i > 0 ==> NameLe(order[0], order[i]);
        }
      } else {
        FirstSelectingFinds(r, order[1..], m);
        assert order == [n] + order[1..];
      }
    }
  }

  lemma {:induction false} FirstNamedFinds(r: Resolver, owners: seq<OwnerRef>)
    ensures match FirstNamed(r, owners)
            case None => forall i :: 0 <= i < |owners| && owners[i].kind == "MachineSet" ==>
                                       StripLastSegment(owners[i].name) !in r.mds
            case Some(md) =>
              exists i :: 0 <= i < |owners| && owners[i].kind == "MachineSet"
                          && StripLastSegment(owners[i].name) in r.mds
                          && r.mds[StripLastSegment(owners[i].name)] == md
                          && forall j :: 0 <= j < i && owners[j].kind == "MachineSet" ==>
                                           StripLastSegment(owners[j].name) !in r.mds
  {
    if owners != [] && !(owners[0].kind == "MachineSet" && StripLastSegment(owners[0].name) in r.mds) {
      FirstNamedFinds(r, owners[1..]);
      if FirstNamed(r, owners[1..]).Some? {
        var i :| 0 <= i < |owners[1..]| && owners[1..][i].kind == "MachineSet"
                 && StripLastSegment(owners[1..][i].name) in r.mds
                 && r.mds[StripLastSegment(owners[1..][i].name)] == FirstNamed(r, owners[1..]).value
                 && forall j :: 0 <= j < i && owners[1..][j].kind == "MachineSet" ==>
                                  StripLastSegment(owners[1..][j].name) !in r.mds;
        assert owners[i + 1] == owners[1..][i];
        forall j | 0 <= j < i + 1 && owners[j].kind == "MachineSet"
          ensures StripLastSegment(owners[j].name) !in r.mds
        {
          if j > 0 { assert owners[1..][j - 1] == owners[j]; }
        }
      } else {
        forall i | 0 <= i < |owners| && owners[i].kind == "MachineSet"
          ensures StripLastSegment(owners[i].name) !in r.mds
        {
          if i > 0 { assert owners[1..][i - 1] == owners[i]; }
        }
      }
    }
  }

  /** Selected, and least-named among those selecting: phrased over the deployments themselves. */
  lemma SelectedIsOwner(mds: seq<Deployment>, m: Machine, r: Resolver)
    requires r.WellFormed() && Faithful(r, mds) && Sorted(r.order, NameLe)
    ensures match FirstSelecting(r, r.order, m)
            case None => (forall md :: md in mds ==> !Claims(md, m))
            case Some(md) => (&& md in mds && Claims(md, m)
                              && forall other :: other in mds && Claims(other, m) ==> StringLe(md.name, other.name))
  {
    hide Claims, StringLe;
    forall md ensures Claims(md, m) <==> md.name != "" && Usable(md) && Selects(md.selector.value, m) { ClaimsIff(md, m); }
    FirstSelectingFinds(r, r.order, m);
    forall other | other in mds && Claims(other, m)
      ensures other.name in r.order && Selects(r.selectors[other.name], m)
    {
      assert r.mds[other.name] == other;
    }
  }

  lemma NamedIsOwner(mds: seq<Deployment>, m: Machine, r: Resolver)
    requires Faithful(r, mds)
    ensures match FirstNamed(r, m.owners)
            case None => (forall i: nat, md :: !NamedByOwner(mds, m, i, md))
            case Some(md) => (exists i: nat :: NamedByOwner(mds, m, i, md)
                                && forall j: nat, other :: j < i ==> !NamedByOwner(mds, m, j, other))
  {
    hide NamedByOwner;
    FirstNamedFinds(r, m.owners);
    forall i: nat, md
      ensures NamedByOwner(mds, m, i, md) <==>
                && i < |m.owners| && m.owners[i].kind == "MachineSet"
                && md in mds && md.name != "" && md.name == StripLastSegment(m.owners[i].name)
    {
      NamedIff(mds, m, i, md);
    }
    forall i: nat, md | NamedByOwner(mds, m, i, md)
      ensures StripLastSegment(m.owners[i].name) in r.mds && r.mds[StripLastSegment(m.owners[i].name)] == md
    {
    }
    if FirstNamed(r, m.owners).Some? {
      var md := FirstNamed(r, m.owners).value;
      var i: nat :| i < |m.owners| && m.owners[i].kind == "MachineSet"
               && StripLastSegment(m.owners[i].name) in r.mds
               && r.mds[StripLastSegment(m.owners[i].name)] == md
               && forall j :: 0 <= j < i && m.owners[j].kind == "MachineSet" ==>
                                StripLastSegment(m.owners[j].name) !in r.mds;
      assert NamedByOwner(mds, m, i, md);
    }
  }

  /** PoolFor returns the least-named deployment whose selector matches, else the one named by
      the first MachineSet owner that names a real deployment, else nothing. */
  lemma PoolForSound(mds: seq<Deployment>, m: Machine)
    requires UniqueBy(mds, DeploymentName)
    ensures match OwnerOf(mds, m)
            case Some(md) => IsOwner(mds, m, md)
            case None => (forall md :: !IsOwner(mds, m, md))
  {
    var r := ResolverOf(mds);
    ResolverFaithful(mds);
    SelectedIsOwner(mds, m, r);
    NamedIsOwner(mds, m, r);
  }

  lemma OwnerUnique(mds: seq<Deployment>, m: Machine, a: Deployment, b: Deployment)
    requires UniqueBy(mds, DeploymentName) && IsOwner(mds, m, a) && IsOwner(mds, m, b)
    ensures a == b
  {
    if Claims(a, m) {
      StringLeAntisymmetric(a.name, b.name);
    } else {
      var i: nat :| NamedByOwner(mds, m, i, a)
                    && forall j: nat, other :: j < i ==> !NamedByOwner(mds, m, j, other);
      var k: nat :| NamedByOwner(mds, m, k, b)
                    && forall j: nat, other :: j < k ==> !NamedByOwner(mds, m, j, other);
      assert i == k;
    }
    var i :| 0 <= i < |mds| && mds[i] == a;
    var j :| 0 <= j < |mds| && mds[j] == b;
    assert DeploymentName(mds[i]) == DeploymentName(mds[j]);
  }

  /** The answer depends on which deployments were listed, not on their order. */
  lemma PoolForOrderIndependent(mds: seq<Deployment>, mds': seq<Deployment>, m: Machine)
    requires UniqueBy(mds, DeploymentName) && UniqueBy(mds', DeploymentName)
    requires forall md :: md in mds <==> md in mds'
    ensures OwnerOf(mds, m) == OwnerOf(mds', m)
  {
    PoolForSound(mds, m);
    PoolForSound(mds', m);
    forall i: nat, md ensures NamedByOwner(mds, m, i, md) <==> NamedByOwner(mds', m, i, md) {}
    forall md ensures IsOwner(mds, m, md) <==> IsOwner(mds', m, md) {}
    match (OwnerOf(mds, m), OwnerOf(mds', m))
    case (Some(a), Some(b)) => OwnerUnique(mds, m, a, b);
    case _ =>
  }
}
