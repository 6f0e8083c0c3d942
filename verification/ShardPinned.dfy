/** The pinned list as it is written meets what the planner's theorems ask of one: a configuration. */
module ShardPinned {
  import opened Paths
  import opened Sharding
  import opened ShardingTheorems

  const MODULES := "app/modules/"
  const FUNCTIONS := MODULES + "function/tests/e2e"
  const WORKSPACES := MODULES + "workspace/tests/e2e"
  const AGENT := MODULES + "agent/tests/e2e"
  const HERMETIC := AGENT + "/test_" + "agent_hermetic_journeys_e2e.py"
  const RESEARCH := AGENT + "/test_" + "long_running_and_research_e2e.py"
  const DATASTORE := MODULES + "datastore/tests/e2e"
  const PODS := MODULES + "pod/tests/e2e"

  const PINNED := [
    Group("sandbox", [FUNCTIONS, WORKSPACES], 2, false),
    Group("agent-workspace", [HERMETIC, RESEARCH], 1, false),
    Group("indexing", [DATASTORE, PODS], 1, true),
    Group("agent", [AGENT], 1, false)
  ]

  const CATCH_ALL_ROOTS := ["app/modules", "app/core"]

  lemma Fork(prefix: string, a: string, b: string)
    requires a != [] && b != [] && a[0] != b[0]
    ensures !Comparable(prefix + a, prefix + b)
  {
    assert (prefix + a)[|prefix|] == a[0] && (prefix + b)[|prefix|] == b[0];
  }

  lemma InModules(rest: string)
    ensures UnderAny(MODULES + rest, CATCH_ALL_ROOTS)
  {
    var root := CATCH_ALL_ROOTS[0];
    assert root + "/" == MODULES;
    assert root in CATCH_ALL_ROOTS && Below(MODULES + rest, root);
  }

  /** The directories of the groups that claim any. */
  ghost predicate Lists(groups: seq<Group>, f: string, w: string, h: string, r: string, a: string) {
    && |groups| == 4 && groups[2].overlay && groups[1].bins == 1 && groups[3].bins == 1
    && groups[0].dirs == [f, w] && groups[1].dirs == [h, r] && groups[3].dirs == [a]
  }

  lemma WhereFrom(groups: seq<Group>, f: string, w: string, h: string, r: string, a: string, k: nat, d: string)
    requires Lists(groups, f, w, h, r, a) && PinnedDir(groups, k, d)
    ensures (k == 0 && (d == f || d == w)) || (k == 1 && (d == h || d == r)) || (k == 3 && d == a)
  {
  }

  lemma PairIsAntichain(x: string, y: string)
    requires !Comparable(x, y)
    ensures Antichain([x, y]) && Antichain([y])
  {
  }

  lemma NotBelow(x: string, y: string)
    requires !Comparable(x, y)
    ensures x != y && !Below(x, y) && !Below(y, x)
  {
  }

  /** One group of several shards apart from the rest, and files of another group's directory. */
  ghost predicate Spread(f: string, w: string, h: string, r: string, a: string) {
    && !Comparable(f, w) && !Comparable(h, r) && h != a && r != a
    && !Comparable(f, h) && !Comparable(f, r) && !Comparable(f, a)
    && !Comparable(w, h) && !Comparable(w, r) && !Comparable(w, a)
  }

  lemma OtherGroup(groups: seq<Group>, f: string, w: string, h: string, r: string, a: string, k: nat, l: nat, d: string, e: string)
    requires Lists(groups, f, w, h, r, a) && Spread(f, w, h, r, a)
    requires PinnedDir(groups, k, d) && PinnedDir(groups, l, e) && k != l
    ensures d != e && (groups[k].bins != 1 ==> !Below(e, d))
  {
    WhereFrom(groups, f, w, h, r, a, k, d);
    WhereFrom(groups, f, w, h, r, a, l, e);
    if k == 0 || l == 0 {
      NotBelow(d, e);
    }
  }

  lemma OwnGroup(groups: seq<Group>, f: string, w: string, h: string, r: string, a: string, k: nat)
    requires Lists(groups, f, w, h, r, a) && Spread(f, w, h, r, a) && Pins(groups, k)
    ensures groups[k].dirs != [] && Antichain(groups[k].dirs)
  {
    if k == 0 {
      PairIsAntichain(f, w);
    } else if k == 1 {
      PairIsAntichain(h, r);
    } else {
      PairIsAntichain(f, a);
    }
  }

  ghost predicate IsShape(groups: seq<Group>, roots: seq<string>, f: string, w: string, h: string, r: string, a: string) {
    && Lists(groups, f, w, h, r, a) && Spread(f, w, h, r, a)
    && (forall d | d in {f, w, h, r, a} :: UnderAny(d, roots))
  }

  lemma ShapeIsUnder(groups: seq<Group>, roots: seq<string>, f: string, w: string, h: string, r: string, a: string)
    requires IsShape(groups, roots, f, w, h, r, a)
    ensures forall k: nat, d | PinnedDir(groups, k, d) :: UnderAny(d, roots)
  {
    forall k: nat, d | PinnedDir(groups, k, d) ensures UnderAny(d, roots) {
      WhereFrom(groups, f, w, h, r, a, k, d);
    }
  }

  lemma ShapeIsOwn(groups: seq<Group>, roots: seq<string>, f: string, w: string, h: string, r: string, a: string)
    requires IsShape(groups, roots, f, w, h, r, a)
    ensures forall k: nat | Pins(groups, k) :: groups[k].dirs != [] && Antichain(groups[k].dirs)
  {
    forall k: nat | Pins(groups, k) ensures groups[k].dirs != [] && Antichain(groups[k].dirs) {
      OwnGroup(groups, f, w, h, r, a, k);
    }
  }

  lemma ShapeIsApart(groups: seq<Group>, roots: seq<string>, f: string, w: string, h: string, r: string, a: string)
    requires IsShape(groups, roots, f, w, h, r, a)
    ensures forall k: nat, l: nat, d, e | PinnedDir(groups, k, d) && PinnedDir(groups, l, e) && k != l ::
              d != e && (groups[k].bins != 1 ==> !Below(e, d))
  {
    forall k: nat, l: nat, d, e | PinnedDir(groups, k, d) && PinnedDir(groups, l, e) && k != l
      ensures d != e && (groups[k].bins != 1 ==> !Below(e, d))
    {
      OtherGroup(groups, f, w, h, r, a, k, l, d, e);
    }
  }

  lemma ShapeIsAConfig(groups: seq<Group>, roots: seq<string>, f: string, w: string, h: string, r: string, a: string)
    requires IsShape(groups, roots, f, w, h, r, a) && Antichain(roots)
    ensures Config(groups, roots)
  {
    ShapeIsUnder(groups, roots, f, w, h, r, a);
    ShapeIsOwn(groups, roots, f, w, h, r, a);
    ShapeIsApart(groups, roots, f, w, h, r, a);
  }

  const FUNCTIONS_PART := "function/tests/e2e"
  const WORKSPACES_PART := "workspace/tests/e2e"
  const AGENT_PART := "agent/tests/e2e"
  const HERMETIC_PART := AGENT_PART + "/test_" + "agent_hermetic_journeys_e2e.py"
  const RESEARCH_PART := AGENT_PART + "/test_" + "long_running_and_research_e2e.py"

  lemma Parts()
    ensures FUNCTIONS == MODULES + FUNCTIONS_PART && WORKSPACES == MODULES + WORKSPACES_PART
    ensures AGENT == MODULES + AGENT_PART && HERMETIC == MODULES + HERMETIC_PART && RESEARCH == MODULES + RESEARCH_PART
    ensures HERMETIC_PART != [] && HERMETIC_PART[0] == 'a' && RESEARCH_PART != [] && RESEARCH_PART[0] == 'a'
  {
  }

  lemma PinnedAreUnder()
    ensures forall d | d in {FUNCTIONS, WORKSPACES, HERMETIC, RESEARCH, AGENT} :: UnderAny(d, CATCH_ALL_ROOTS)
  {
    Parts();
    InModules(FUNCTIONS_PART);
    InModules(WORKSPACES_PART);
    InModules(AGENT_PART);
    InModules(HERMETIC_PART);
    InModules(RESEARCH_PART);
  }

  lemma PinnedAreSpread()
    ensures Spread(FUNCTIONS, WORKSPACES, HERMETIC, RESEARCH, AGENT)
  {
    Parts();
    Fork(MODULES, FUNCTIONS_PART, WORKSPACES_PART);
    Fork(MODULES, FUNCTIONS_PART, AGENT_PART);
    Fork(MODULES, FUNCTIONS_PART, HERMETIC_PART);
    Fork(MODULES, FUNCTIONS_PART, RESEARCH_PART);
    Fork(MODULES, WORKSPACES_PART, AGENT_PART);
    Fork(MODULES, WORKSPACES_PART, HERMETIC_PART);
    Fork(MODULES, WORKSPACES_PART, RESEARCH_PART);
    Fork(AGENT + "/test_", "agent_hermetic_journeys_e2e.py", "long_running_and_research_e2e.py");
  }

  lemma RootsAreApart()
    ensures Antichain(CATCH_ALL_ROOTS)
  {
    Fork("app/", "modules", "core");
    assert "app/" + "modules" == CATCH_ALL_ROOTS[0] && "app/" + "core" == CATCH_ALL_ROOTS[1];
  }

  /** The list and the catch-all roots are a configuration the exactly-once theorem covers. */
  lemma PinnedIsAConfig()
    ensures Config(PINNED, CATCH_ALL_ROOTS)
  {
    PinnedAreUnder();
    PinnedAreSpread();
    RootsAreApart();
    ShapeIsAConfig(PINNED, CATCH_ALL_ROOTS, FUNCTIONS, WORKSPACES, HERMETIC, RESEARCH, AGENT);
  }
}
