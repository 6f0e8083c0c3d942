/** A file collected twice. */
module ShardNameClash {
  // A plan the planner writes without complaint: one directory, heavy enough to be broken open across all
  // three bins, names them all after itself.

  import opened Options
  import opened Paths
  import opened Sorting
  import opened Measuring
  import opened Packing
  import opened PackingTheorems
  import opened Planning
  import opened Sharding
  import opened ShardingTheorems
  import opened ShardPlan
  import opened ShardPlanTheorems

  const PACKED_SHARDS := 3

  /** One directory of three equally heavy files, each weighing `x`. */
  ghost predicate OneHeavyDirectory(m: Measured, d: string, f: string, g: string, h: string, x: real) {
    && Sound(m) && !IsFile(d) && m.FilesIn(d) == [f, g, h] && StringLe(f, g) && StringLe(g, h) && StringLe(f, h)
    && x > 0.0 && m.Weight(d) == 3.0 * x && m.Weight(f) == x && m.Weight(g) == x && m.Weight(h) == x
    && ModuleOf(f) == ModuleOf(g) == ModuleOf(h)
  }

  // ---- Three bins and no conflict

  function NoLoad(): Bin {
    Bin(0.0, [], {})
  }

  /** The first of the least loaded of three bins. */
  lemma TargetOfThree(a: Bin, b: Bin, c: Bin, mod: string, n: nat)
    requires n == 3
    ensures Target([a, b, c], mod, NO_CONFLICT, n) ==
      if c.load < a.load && c.load < b.load then 2 else if b.load < a.load then 1 else 0
  {
    var bins := [a, b, c];
    assert Target(bins, mod, NO_CONFLICT, n - 3) == 3;
    assert Target(bins, mod, NO_CONFLICT, n - 2) == 0;
    assert Target(bins, mod, NO_CONFLICT, n - 1) == if b.load < a.load then 1 else 0;
  }

  /** The bins of a three-bin run, one item later. */
  lemma NextOfThree(items: seq<Item>, k: nat, n: nat, a: Bin, b: Bin, c: Bin)
    requires n == 3 && k < |items| && Run(items, k, n, NO_CONFLICT) == Packed([a, b, c])
    ensures Run(items, k + 1, n, NO_CONFLICT) == Packed(
      if c.load < a.load && c.load < b.load then [a, b, Add(c, items[k])]
      else if b.load < a.load then [a, Add(b, items[k]), c]
      else [Add(a, items[k]), b, c])
  {
    TargetOfThree(a, b, c, ModuleOf(items[k].name), n);
  }

  lemma NoneYet(items: seq<Item>, n: nat)
    requires n == 3
    ensures Run(items, 0, n, NO_CONFLICT) == Packed([NoLoad(), NoLoad(), NoLoad()])
  {
    assert EmptyBins(n) == [NoLoad(), NoLoad(), NoLoad()];
  }

  lemma LoadOfOne(m: Measured, u: string)
    ensures Load(m, [u]) == m.Weight(u) && Load(m, []) == 0.0
  {
    assert [u][..0] == [];
  }

  lemma MembersOfThree(a: Bin, b: Bin, c: Bin)
    ensures Members([a, b, c]) == [a.names, b.names, c.names]
  {
  }

  lemma OneName(item: Item)
    ensures Add(NoLoad(), item).names == [item.name] && Add(NoLoad(), item).load == item.weight
  {
  }

  lemma PackWhole(m: Measured, d: string, n: nat)
    requires n == 3
    ensures PackUnits(m, [d], n, NO_CONFLICT) == Placed([[d], [], []])
  {
    var items := ItemsFor(m, [d]);
    assert items == [Item(d, m.Weight(d))];
    SortedStays(items);
    NoneYet(items, n);
    NextOfThree(items, 0, n, NoLoad(), NoLoad(), NoLoad());
    OneName(items[0]);
    MembersOfThree(Add(NoLoad(), items[0]), NoLoad(), NoLoad());
  }

  lemma RunThree(items: seq<Item>, n: nat, x: real) returns (a: Bin, b: Bin, c: Bin)
    requires n == 3 && |items| == n && x > 0.0
    requires items[0].weight == x && items[1].weight == x && items[2].weight == x
    ensures Run(items, n, n, NO_CONFLICT) == Packed([a, b, c])
    ensures a.names == [items[0].name] && b.names == [items[1].name] && c.names == [items[2].name]
  {
    a, b, c := Add(NoLoad(), items[0]), Add(NoLoad(), items[1]), Add(NoLoad(), items[2]);
    OneName(items[0]);
    OneName(items[1]);
    OneName(items[2]);
    NoneYet(items, n);
    NextOfThree(items, n - 3, n, NoLoad(), NoLoad(), NoLoad());
    NextOfThree(items, n - 2, n, a, NoLoad(), NoLoad());
    NextOfThree(items, n - 1, n, a, b, NoLoad());
  }

  lemma PackFiles(m: Measured, f: string, g: string, h: string, n: nat, x: real)
    requires n == 3 && x > 0.0 && m.Weight(f) == x && m.Weight(g) == x && m.Weight(h) == x
    requires StringLe(f, g) && StringLe(g, h) && StringLe(f, h)
    ensures PackUnits(m, [f, g, h], n, NO_CONFLICT) == Placed([[f], [g], [h]])
  {
    var items := ItemsFor(m, [f, g, h]);
    assert items == [Item(f, x), Item(g, x), Item(h, x)];
    SortedStays(items);
    var a, b, c := RunThree(items, n, x);
    MembersOfThree(a, b, c);
  }

  // ---- The directory is opened

  lemma FirstHeavier(m: Measured, a: seq<string>, b: seq<string>, c: seq<string>)
    requires Load(m, a) >= Load(m, b) && Load(m, a) >= Load(m, c)
    ensures Heaviest(m, [a, b, c]) == 0
  {
    assert [a, b, c][..2] == [a, b] && [a, b][..1] == [a];
  }

  lemma DirectoryNext(m: Measured, d: string, f: string, g: string, h: string, x: real)
    requires OneHeavyDirectory(m, d, f, g, h, x)
    ensures Next(m, [[d], [], []], x) == Some(d)
  {
    LoadOfOne(m, d);
    FirstHeavier(m, [d], [], []);
    assert Opens(m, d);
    assert Openable(m, [d]) == [d];
    assert Worst(m, [d]) == d;
  }

  lemma OpenOne(m: Measured, d: string)
    ensures Open(m, [d], d) == m.FilesIn(d)
  {
    assert [d][1..] == [];
    assert Without([d], d) == [];
  }

  lemma FilesSettle(m: Measured, f: string, g: string, h: string, x: real)
    requires x > 0.0 && m.Weight(f) == x && m.Weight(g) == x && m.Weight(h) == x
    ensures Next(m, [[f], [g], [h]], x) == None
  {
    LoadOfOne(m, f);
    LoadOfOne(m, g);
    LoadOfOne(m, h);
    FirstHeavier(m, [f], [g], [h]);
  }

  /** The heavy directory is opened, and its files end up alone in the three bins. */
  lemma HeavyDirectorySplits(m: Measured, d: string, f: string, g: string, h: string, x: real)
    requires OneHeavyDirectory(m, d, f, g, h, x)
    ensures Plan(m, [d], PACKED_SHARDS, NO_CONFLICT, Ideal(m, [d], PACKED_SHARDS)) == Placed([[f], [g], [h]])
  {
    LoadOfOne(m, d);
    PackWhole(m, d, PACKED_SHARDS);
    DirectoryNext(m, d, f, g, h, x);
    OpenOne(m, d);
    PackFiles(m, f, g, h, PACKED_SHARDS, x);
    FilesSettle(m, f, g, h, x);
  }

  lemma SortEqual(m: Measured, f: string, g: string, h: string, x: real)
    requires m.Weight(f) == x && m.Weight(g) == x && m.Weight(h) == x
    ensures Sort([[f], [g], [h]], Lighter(m)) == [[f], [g], [h]]
  {
    LoadOfOne(m, f);
    LoadOfOne(m, g);
    LoadOfOne(m, h);
    assert [[f], [g], [h]][1..] == [[g], [h]] && [[g], [h]][1..] == [[h]] && [[h]][1..] == [];
    assert Sort([[h]], Lighter(m)) == [[h]];
    assert Sort([[g], [h]], Lighter(m)) == [[g], [h]];
  }

  /** All packed shards are named after the one module. */
  lemma HeavyDirectoryNamesClash(m: Measured, d: string, f: string, g: string, h: string, x: real,
                                 catchAll: seq<string>, aliases: map<string, string>)
    returns (packed: seq<Planned>)
    requires OneHeavyDirectory(m, d, f, g, h, x)
    ensures PackedShards(m, [d], PACKED_SHARDS, NO_CONFLICT, catchAll, aliases) == Ready(packed)
    ensures |packed| == 3 && packed[0].name == packed[1].name == packed[2].name
  {
    HeavyDirectorySplits(m, d, f, g, h, x);
    SortEqual(m, f, g, h, x);
    packed := NamedShards(m, aliases, [[f], [g], [h]], catchAll);
  }

  /** So with nothing else to pack the plan is made, and some path under the catch-all roots has no single
      collector. */
  lemma HeavyDirectoryCollectedTwice(groups: seq<Group>, conflicts: seq<Conflict>, m: Measured, onDisk: seq<string>,
                                     catchAll: seq<string>, aliases: map<string, string>,
                                     d: string, f: string, g: string, h: string, x: real)
    requires Setting(groups, conflicts, m, onDisk, PACKED_SHARDS, catchAll) && Packable(groups, m, onDisk) == [d]
    requires OneHeavyDirectory(m, d, f, g, h, x) && PinnedShards(groups, conflicts, m, |groups|).Ready?
    ensures var r := PlanAll(groups, conflicts, m, onDisk, PACKED_SHARDS, NO_CONFLICT, catchAll, aliases);
            r.Ready? && exists path :: UnderAny(path, catchAll) && forall i: nat :: !OnlyTaker(groups, r.planned, path, i)
  {
    var packed := HeavyDirectoryNamesClash(m, d, f, g, h, x, catchAll, aliases);
    PlannerCollectsOnceIffNamesDiffer(groups, conflicts, m, onDisk, PACKED_SHARDS, NO_CONFLICT, catchAll, aliases);
    assert packed[1].name == packed[0].name;
  }

  // ---- Without conflicts the pinned groups are always planned

  lemma {:induction false} PlanNeverExits(m: Measured, units: seq<string>, bins: nat, ideal: real)
    requires bins > 0 && Sound(m)
    ensures Plan(m, units, bins, NO_CONFLICT, ideal).Placed?
    decreases Directories(units)
  {
    var items := Sort(ItemsFor(m, units), ItemLe);
    NeverExits(items, |items|, bins, NO_CONFLICT);
    var next := Next(m, PackUnits(m, units, bins, NO_CONFLICT).bins, ideal);
    if next.Some? {
      NextIsUnit(m, units, bins, NO_CONFLICT, ideal);
      OpeningShrinks(m, units, next.value);
      PlanNeverExits(m, Open(m, units, next.value), bins, ideal);
    }
  }

  lemma {:induction false} AllReady(outcomes: seq<PlanOutcome>, n: nat)
    requires n <= |outcomes| && forall k | 0 <= k < |outcomes| :: outcomes[k].Ready?
    ensures OneByOne(outcomes, n).Ready?
  {
    if n > 0 {
      AllReady(outcomes, n - 1);
    }
  }

  lemma GroupReady(group: Group, k: nat, m: Measured)
    requires Sound(m) && group.bins > 0
    ensures GroupShards(group, k, m, NO_CONFLICT).Ready?
  {
    var dirs := Sort(group.dirs, StringLe);
    PlanNeverExits(m, dirs, group.bins, Ideal(m, dirs, group.bins));
  }

  lemma PinnedReady(groups: seq<Group>, conflicts: seq<Conflict>, m: Measured)
    requires GroupsOk(groups, conflicts, m) && forall k | 0 <= k < |conflicts| :: conflicts[k] == NO_CONFLICT
    ensures PinnedShards(groups, conflicts, m, |groups|).Ready?
  {
    var outcomes := GroupOutcomes(groups, conflicts, m);
    forall k | 0 <= k < |outcomes| ensures outcomes[k].Ready? {
      GroupReady(groups[k], k, m);
    }
    AllReady(outcomes, |groups|);
  }
}
