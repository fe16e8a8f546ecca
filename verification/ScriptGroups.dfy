/**
 Grouping script modules by shared registrations, one module at a time. The
 groups are the connected components: two modules share a group exactly when a
 chain of shared registrations links them.
 */
module ScriptGroups {
  import opened Wrappers

  datatype Module = Module(registrations: set<string>, licenses: set<string>, sourcePaths: set<string>)

  /** `scripts` are the positions of the group's modules, in the order they joined. */
  datatype Group = Group(registrations: set<string>, scripts: seq<nat>, licenses: set<string>, sourcePaths: set<string>) {
    function Merge(other: Group): Group {
      Group(registrations + other.registrations, scripts + other.scripts, licenses + other.licenses,
            sourcePaths + other.sourcePaths)
    }
  }

  // ---------------------------------------------------------------------
  // Chains
  // ---------------------------------------------------------------------

  predicate Share(a: Module, b: Module) {
    a.registrations * b.registrations != {}
  }

  ghost predicate Chain(modules: seq<Module>, path: seq<nat>) {
    && path != []
    && (forall k :: 0 <= k < |path| ==> path[k] < |modules|)
    && (forall k :: 0 < k < |path| ==> Step(modules, path, k))
  }

  ghost predicate Step(modules: seq<Module>, path: seq<nat>, k: nat)
    requires 0 < k < |path|
  {
    path[k - 1] < |modules| && path[k] < |modules| && Share(modules[path[k - 1]], modules[path[k]])
  }

  /** A chain of modules, each sharing a registration with the next. */
  ghost predicate Linked(modules: seq<Module>, i: nat, j: nat) {
    exists path :: Chain(modules, path) && path[0] == i && path[|path| - 1] == j
  }

  lemma LinkedDirectly(modules: seq<Module>, i: nat, j: nat)
    requires i < |modules| && j < |modules| && Share(modules[i], modules[j])
    ensures Linked(modules, i, j)
  {
    var path := [i, j];
    assert Step(modules, path, 1);
    assert Chain(modules, path);
  }

  lemma LinkedBack(modules: seq<Module>, i: nat, j: nat)
    requires Linked(modules, i, j)
    ensures Linked(modules, j, i)
  {
    var path :| Chain(modules, path) && path[0] == i && path[|path| - 1] == j;
    var n := |path|;
    var back := seq(n, k requires 0 <= k < n => path[n - 1 - k]);
    forall k | 0 < k < n ensures Step(modules, back, k) {
      assert Step(modules, path, n - k);
    }
    assert Chain(modules, back);
  }

  lemma LinkedOn(modules: seq<Module>, i: nat, j: nat, k: nat)
    requires Linked(modules, i, j) && Linked(modules, j, k)
    ensures Linked(modules, i, k)
  {
    var p :| Chain(modules, p) && p[0] == i && p[|p| - 1] == j;
    var q :| Chain(modules, q) && q[0] == j && q[|q| - 1] == k;
    var path := p + q[1..];
    forall x | 0 < x < |path| ensures Step(modules, path, x) {
      if x < |p| {
        assert Step(modules, p, x);
      } else {
        assert Step(modules, q, x - |p| + 1);
        assert path[x - 1] == q[x - |p|];
      }
    }
    assert Chain(modules, path);
  }

  // ---------------------------------------------------------------------
  // Groups
  // ---------------------------------------------------------------------

  ghost function RegistrationsOf(modules: seq<Module>, scripts: seq<nat>): set<string> {
    set i: nat, r | i in scripts && i < |modules| && r in modules[i].registrations :: r
  }

  ghost function LicensesOf(modules: seq<Module>, scripts: seq<nat>): set<string> {
    set i: nat, r | i in scripts && i < |modules| && r in modules[i].licenses :: r
  }

  ghost function SourcesOf(modules: seq<Module>, scripts: seq<nat>): set<string> {
    set i: nat, r | i in scripts && i < |modules| && r in modules[i].sourcePaths :: r
  }

  /** A group of the first `n` modules: it holds what its modules hold, and chains link all of them. */
  ghost predicate Component(modules: seq<Module>, n: nat, g: Group) {
    && g.scripts != []
    && (forall i :: i in g.scripts ==> i < n <= |modules|)
    && (forall k, l :: 0 <= k < l < |g.scripts| ==> g.scripts[k] != g.scripts[l])
    && HoldsAll(modules, g) && AllLinked(modules, g.scripts)
  }

  ghost predicate HoldsAll(modules: seq<Module>, g: Group) {
    && g.registrations == RegistrationsOf(modules, g.scripts)
    && g.licenses == LicensesOf(modules, g.scripts)
    && g.sourcePaths == SourcesOf(modules, g.scripts)
  }

  ghost predicate AllLinked(modules: seq<Module>, scripts: seq<nat>) {
    forall i, j :: i in scripts && j in scripts ==> Linked(modules, i, j)
  }

  predicate NoCommonScript(g: Group, h: Group) {
    forall i :: i in g.scripts ==> i !in h.scripts
  }

  predicate Apart(g: Group, h: Group) {
    g.registrations !! h.registrations && NoCommonScript(g, h)
  }

  ghost predicate AllComponents(modules: seq<Module>, n: nat, groups: seq<Group>) {
    && (forall k :: 0 <= k < |groups| ==> Component(modules, n, groups[k]))
    && (forall k, l :: 0 <= k < l < |groups| ==> Apart(groups[k], groups[l]))
  }

  ghost predicate Covered(groups: seq<Group>, i: nat) {
    exists k :: 0 <= k < |groups| && i in groups[k].scripts
  }

  /** The groups of the first `n` modules: each module is in one of them, and they are apart. */
  ghost predicate Partition(modules: seq<Module>, n: nat, groups: seq<Group>) {
    && n <= |modules|
    && AllComponents(modules, n, groups)
    && (forall i :: 0 <= i < n ==> Covered(groups, i))
  }

  lemma MergedIsComponent(modules: seq<Module>, n: nat, g: Group, h: Group)
    requires Component(modules, n, g) && Component(modules, n, h) && NoCommonScript(g, h)
    requires !(g.registrations !! h.registrations)
    ensures Component(modules, n, g.Merge(h))
  {
    MergedIsLinked(modules, g, h);
    hide Linked, HoldsAll, AllLinked;
    var scripts := g.scripts + h.scripts;
    forall k, l | 0 <= k < l < |scripts| ensures scripts[k] != scripts[l] {
      if k < |g.scripts| <= l {
        assert scripts[k] in g.scripts && scripts[l] in h.scripts;
      }
    }
  }

  lemma MergedIsLinked(modules: seq<Module>, g: Group, h: Group)
    requires HoldsAll(modules, g) && HoldsAll(modules, h) && AllLinked(modules, g.scripts) && AllLinked(modules, h.scripts)
    requires !(g.registrations !! h.registrations)
    ensures AllLinked(modules, g.scripts + h.scripts)
  {
    hide Linked, AllLinked, LicensesOf, SourcesOf;
    var r :| r in g.registrations && r in h.registrations;
    var a: nat :| a in g.scripts && a < |modules| && r in modules[a].registrations;
    var b: nat :| b in h.scripts && b < |modules| && r in modules[b].registrations;
    assert r in modules[a].registrations * modules[b].registrations;
    LinkedDirectly(modules, a, b);
    LinkAcross(modules, g.scripts, h.scripts, a, b);
  }

  lemma LinkAcross(modules: seq<Module>, first: seq<nat>, second: seq<nat>, a: nat, b: nat)
    requires AllLinked(modules, first) && AllLinked(modules, second)
    requires a in first && b in second && Linked(modules, a, b)
    ensures AllLinked(modules, first + second)
  {
    LinkedBack(modules, a, b);
    hide Linked;
    forall i, j | i in first + second && j in first + second ensures Linked(modules, i, j) {
      if i in first && j in second {
        LinkedOn(modules, i, a, b);
        LinkedOn(modules, i, b, j);
      } else if i in second && j in first {
        LinkedOn(modules, i, b, a);
        LinkedOn(modules, i, a, j);
      }
    }
  }

  /** What the merging loop keeps: the new group is apart from all groups it has passed. */
  ghost predicate Merging(modules: seq<Module>, n: nat, groups: seq<Group>, group: Group, index: nat) {
    && index <= |groups|
    && AllComponents(modules, n, groups)
    && Component(modules, n, group)
    && (forall k :: 0 <= k < |groups| ==> NoCommonScript(group, groups[k]))
    && (forall k :: 0 <= k < index ==> group.registrations !! groups[k].registrations)
    && (forall i :: 0 <= i < n ==> i in group.scripts || Covered(groups, i))
  }

  function Without(groups: seq<Group>, index: nat): seq<Group>
    requires index < |groups|
  {
    groups[..index] + groups[index + 1..]
  }

  lemma MergeStep(modules: seq<Module>, n: nat, groups: seq<Group>, group: Group, index: nat)
    requires Merging(modules, n, groups, group, index) && index < |groups|
    requires !(group.registrations !! groups[index].registrations)
    ensures Merging(modules, n, Without(groups, index), group.Merge(groups[index]), 0)
  {
    var other, rest := groups[index], Without(groups, index);
    hide Component, Linked;
    MergedIsComponent(modules, n, group, other);
    hide AllComponents, NoCommonScript;
    forall i | 0 <= i < n ensures i in group.Merge(other).scripts || Covered(rest, i) {
      StaysCovered(groups, index, i);
    }
  }

  lemma StaysCovered(groups: seq<Group>, index: nat, i: nat)
    requires index < |groups|
    ensures Covered(groups, i) ==> i in groups[index].scripts || Covered(Without(groups, index), i)
  {
    if Covered(groups, i) && i !in groups[index].scripts {
      var k :| 0 <= k < |groups| && i in groups[k].scripts;
      assert Without(groups, index)[if k < index then k else k - 1] == groups[k];
    }
  }

  lemma MergeEnds(modules: seq<Module>, n: nat, groups: seq<Group>, group: Group)
    requires n <= |modules| && Merging(modules, n, groups, group, |groups|)
    ensures Partition(modules, n, groups + [group])
  {
    hide Component;
    var all := groups + [group];
    assert forall k :: 0 <= k < |groups| ==> all[k] == groups[k];
    forall i | 0 <= i < n ensures Covered(all, i) {
      if Covered(groups, i) {
        var k :| 0 <= k < |groups| && i in groups[k].scripts;
        assert i in all[k].scripts;
      } else {
        assert i in all[|groups|].scripts;
      }
    }
  }

  /** One module joins: the search for groups to merge starts over after each merge, with one group less. */
  method AddModule(modules: seq<Module>, n: nat, groups: seq<Group>) returns (r: seq<Group>)
    requires n < |modules| && Partition(modules, n, groups)
    ensures Partition(modules, n + 1, r)
  {
    var m := modules[n];
    var group := Group(m.registrations, [n], m.licenses, m.sourcePaths);
    r := groups;
    hide Component, Partition;
    var index := 0;
    while index < |r|
      invariant Merging(modules, n + 1, r, group, index)
      decreases |r|, |r| - index
    {
      if group.registrations !! r[index].registrations {
        index := index + 1;
      } else {
        MergeStep(modules, n + 1, r, group, index);
        var other := r[index];
        r := Without(r, index);
        group := group.Merge(other);
        index := 0;
      }
    }
    MergeEnds(modules, n + 1, r, group);
    r := r + [group];
  }

  method GroupModules(modules: seq<Module>) returns (groups: seq<Group>)
    ensures Partition(modules, |modules|, groups)
  {
    groups := [];
    for n := 0 to |modules|
      invariant Partition(modules, n, groups)
    {
      groups := AddModule(modules, n, groups);
    }
  }

  // ---------------------------------------------------------------------
  // Connected components
  // ---------------------------------------------------------------------

  ghost predicate SameGroup(groups: seq<Group>, i: nat, j: nat) {
    exists k :: 0 <= k < |groups| && i in groups[k].scripts && j in groups[k].scripts
  }

  lemma SharingIsSameGroup(modules: seq<Module>, groups: seq<Group>, i: nat, j: nat)
    requires Partition(modules, |modules|, groups)
    requires i < |modules| && j < |modules| && Share(modules[i], modules[j])
    ensures forall k :: 0 <= k < |groups| && i in groups[k].scripts ==> j in groups[k].scripts
  {
    var r :| r in modules[i].registrations && r in modules[j].registrations;
    assert Covered(groups, j);
    var l :| 0 <= l < |groups| && j in groups[l].scripts;
    forall k | 0 <= k < |groups| && i in groups[k].scripts ensures j in groups[k].scripts {
      assert Component(modules, |modules|, groups[k]) && Component(modules, |modules|, groups[l]);
      assert r in groups[k].registrations && r in groups[l].registrations;
    }
  }

  lemma {:induction false} ChainStaysInGroup(modules: seq<Module>, groups: seq<Group>, path: seq<nat>, k: nat)
    requires Partition(modules, |modules|, groups) && Chain(modules, path)
    requires k < |groups| && path[0] in groups[k].scripts
    ensures path[|path| - 1] in groups[k].scripts
    decreases |path|
  {
    hide Partition;
    if |path| > 1 {
      assert Step(modules, path, 1);
      SharingIsSameGroup(modules, groups, path[0], path[1]);
      var rest := path[1..];
      forall x | 0 < x < |rest| ensures Step(modules, rest, x) {
        assert Step(modules, path, x + 1);
      }
      ChainStaysInGroup(modules, groups, rest, k);
    }
  }

  /** Two modules are in one group exactly when a chain of shared registrations links them. */
  lemma GroupsAreComponents(modules: seq<Module>, groups: seq<Group>, i: nat, j: nat)
    requires Partition(modules, |modules|, groups) && i < |modules| && j < |modules|
    ensures SameGroup(groups, i, j) <==> Linked(modules, i, j)
  {
    if SameGroup(groups, i, j) {
      var k :| 0 <= k < |groups| && i in groups[k].scripts && j in groups[k].scripts;
      assert Component(modules, |modules|, groups[k]);
    }
    if Linked(modules, i, j) {
      var path :| Chain(modules, path) && path[0] == i && path[|path| - 1] == j;
      assert Covered(groups, i);
      var k :| 0 <= k < |groups| && i in groups[k].scripts;
      ChainStaysInGroup(modules, groups, path, k);
    }
  }

  // ---------------------------------------------------------------------
  // Registering the groups
  // ---------------------------------------------------------------------

  /** Every registration of a group maps to the group's block; one that is taken is an error. */
  method RegisterGroups(groups: seq<set<string>>) returns (r: Result<map<string, nat>, string>)
    ensures r.Ok? <==> forall k, l :: 0 <= k < l < |groups| ==> groups[k] !! groups[l]
    ensures r.Ok? ==> forall k, name :: 0 <= k < |groups| && name in groups[k] ==> name in r.value && r.value[name] == k
    ensures r.Ok? ==> forall name :: name in r.value ==> r.value[name] < |groups| && name in groups[r.value[name]]
    ensures r.Err? ==> exists k, l :: 0 <= k < l < |groups| && r.error in groups[k] && r.error in groups[l]
  {
    var names: map<string, nat> := map[];
    for i := 0 to |groups|
      invariant forall k, l :: 0 <= k < l < i ==> groups[k] !! groups[l]
      invariant forall k, name :: 0 <= k < i && name in groups[k] ==> name in names && names[name] == k
      invariant forall name :: name in names ==> names[name] < i && name in groups[names[name]]
    {
      var taken;
      names, taken := RegisterGroup(names, i, groups[i]);
      if taken.Some? {
        return Err(taken.value);
      }
    }
    r := Ok(names);
  }

  /** Stops at a name that is taken. */
  method RegisterGroup(names: map<string, nat>, i: nat, group: set<string>) returns (r: map<string, nat>, taken: Option<string>)
    ensures taken.None? <==> forall name :: name in group ==> name !in names
    ensures taken.Some? ==> taken.value in group && taken.value in names
    ensures taken.None? ==> forall name :: name in r <==> name in names || name in group
    ensures taken.None? ==> forall name :: name in r ==> r[name] == if name in group then i else names[name]
  {
    r, taken := names, None;
    var rest := group;
    while rest != {}
      invariant rest <= group
      invariant forall name :: name in group && name !in rest ==> name !in names
      invariant forall name :: name in r <==> name in names || (name in group && name !in rest)
      invariant forall name :: name in r ==> r[name] == if name in group && name !in rest then i else names[name]
      decreases |rest|
    {
      var name :| name in rest;
      if name in r {
        return r, Some(name);
      }
      r := r[name := i];
      rest := rest - {name};
    }
  }

  /** The groups never collide: registering them always succeeds. */
  method GroupAndRegister(modules: seq<Module>) returns (groups: seq<Group>, r: Result<map<string, nat>, string>)
    ensures Partition(modules, |modules|, groups)
    ensures r.Ok?
    ensures forall k, name :: 0 <= k < |groups| && name in groups[k].registrations ==> name in r.value && r.value[name] == k
  {
    groups := GroupModules(modules);
    var sets := seq(|groups|, k requires 0 <= k < |groups| => groups[k].registrations);
    forall k, l | 0 <= k < l < |groups| ensures sets[k] !! sets[l] {
      assert Apart(groups[k], groups[l]);
    }
    assert forall k :: 0 <= k < |groups| ==> sets[k] == groups[k].registrations;
    r := RegisterGroups(sets);
  }
}
