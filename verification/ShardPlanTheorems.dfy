/** The planner end to end. */
module ShardPlanTheorems {
  // Whatever was measured, the shards it plans collect every path under the catch-all roots exactly once,
  // if and only if the packed shards' names differ from the first's.

  import opened Options
  import opened Numbers
  import opened Paths
  import opened Sorting
  import opened Measuring
  import opened Packing
  import opened Planning
  import opened PlanningTheorems
  import opened Collection
  import opened Sharding
  import opened ShardingTheorems
  import opened ShardBlocks
  import opened ShardPlan

  /** What the planner may assume of its pinned list and of the paths measured and found on disk. */
  ghost predicate Setting(groups: seq<Group>, conflicts: seq<Conflict>, m: Measured, onDisk: seq<string>, bins: nat,
                          catchAll: seq<string>) {
    && |groups| == |conflicts| && bins > 0 && (forall k | 0 <= k < |groups| :: groups[k].bins > 0)
    && Sound(m) && FilesApart(m)
    && Config(groups, catchAll) && catchAll != []
    && (forall k, d | 0 <= k < |groups| && d in groups[k].dirs :: Plain(d))
    && (forall d | d in catchAll || d in m.seconds.keys || d in m.fileSeconds.keys || d in onDisk :: Plain(d))
    && (forall a, b | a in Packable(groups, m, onDisk) && b in Packable(groups, m, onDisk) && a != b :: !Comparable(a, b))
    && (forall a | a in Packable(groups, m, onDisk) :: UnderAny(a, catchAll))
    && (forall a, k: nat, d | a in Packable(groups, m, onDisk) && PinnedDir(groups, k, d) :: !Comparable(a, d))
  }

  // ---- Bins as a family's shards

  ghost predicate MembersApart(bins: seq<seq<string>>) {
    forall i, j, a, b | 0 <= i < |bins| && 0 <= j < |bins| && a in bins[i] && b in bins[j] && (i != j || a != b) ::
      !Comparable(a, b)
  }

  ghost predicate MembersUnder(bins: seq<seq<string>>, paths: seq<string>) {
    forall i, u | 0 <= i < |bins| && u in bins[i] :: UnderAny(u, paths)
  }

  ghost predicate MembersFrom(bins: seq<seq<string>>, paths: seq<string>) {
    forall i, u | 0 <= i < |bins| && u in bins[i] :: u in paths
  }

  lemma MembersUnderSame(bins: seq<seq<string>>, a: seq<string>, b: seq<string>)
    requires MembersUnder(bins, a) && forall x :: x in a <==> x in b
    ensures MembersUnder(bins, b)
  {
    forall i, u | 0 <= i < |bins| && u in bins[i] ensures UnderAny(u, b) {
      SameCover(u, a, b);
    }
  }

  lemma MembersUnderHigher(bins: seq<seq<string>>, a: seq<string>, b: seq<string>)
    requires MembersUnder(bins, a) && forall x | x in a :: UnderAny(x, b)
    ensures MembersUnder(bins, b)
  {
    forall i, u | 0 <= i < |bins| && u in bins[i] ensures UnderAny(u, b) {
      assert UnderAny(u, a);
      var p :| p in a && Under(u, p);
      var r :| r in b && Under(p, r);
      UnderTransitive(u, p, r);
    }
  }

  lemma {:induction false} CountIn(bins: seq<seq<string>>, i: nat, a: string)
    requires i < |bins| && a in bins[i]
    ensures AllOf(bins)[a] >= 1
  {
    if i > 0 {
      CountIn(bins[1..], i - 1, a);
    } else {
      assert a in multiset(bins[0]);
    }
  }

  lemma {:induction false} CountTwo(bins: seq<seq<string>>, i: nat, j: nat, a: string)
    requires i < j < |bins| && a in bins[i] && a in bins[j]
    ensures AllOf(bins)[a] >= 2
  {
    if i == 0 {
      assert a in multiset(bins[0]);
      CountIn(bins[1..], j - 1, a);
    } else {
      CountTwo(bins[1..], i - 1, j - 1, a);
    }
  }

  lemma {:induction false} AllOfPermutes(a: seq<seq<string>>, b: seq<seq<string>>)
    requires multiset(a) == multiset(b)
    ensures AllOf(a) == AllOf(b)
    decreases |a|
  {
    assert |multiset(a)| == |multiset(b)|;
    if a != [] {
      assert a[0] in multiset(b);
      var i :| 0 <= i < |b| && b[i] == a[0];
      var a' := TakeBin(a, 0);
      var b' := TakeBin(b, i);
      AllOfPermutes(a', b');
    }
  }

  lemma TakeBin(bins: seq<seq<string>>, i: nat) returns (rest: seq<seq<string>>)
    requires i < |bins|
    ensures |rest| < |bins| && multiset(rest) == multiset(bins) - multiset{bins[i]}
    ensures AllOf(bins) == AllOf(rest) + multiset(bins[i])
  {
    rest := bins[..i] + bins[i + 1..];
    assert bins == bins[..i] + [bins[i]] + bins[i + 1..];
    AllOfTake(bins, i);
  }

  lemma {:induction false} AllOfTake(bins: seq<seq<string>>, i: nat)
    requires i < |bins|
    ensures AllOf(bins) == AllOf(bins[..i] + bins[i + 1..]) + multiset(bins[i])
  {
    if i == 0 {
      assert bins[..0] + bins[1..] == bins[1..];
    } else {
      var tail := bins[1..];
      AllOfTake(tail, i - 1);
      var rest := bins[..i] + bins[i + 1..];
      assert rest[0] == bins[0] && rest[1..] == tail[..i - 1] + tail[i..];
      SumsAssociate(multiset(bins[0]), AllOf(rest[1..]), multiset(bins[i]));
    }
  }

  lemma SumsAssociate(a: multiset<string>, b: multiset<string>, c: multiset<string>)
    ensures a + (b + c) == (a + b) + c
  {
  }

  /** Bins that share out paths which never hold one another keep them apart. */
  lemma BinsApart(bins: seq<seq<string>>, units: seq<string>)
    requires AllOf(bins) == multiset(units) && Antichain(units)
    ensures MembersApart(bins)
    ensures forall i, u | 0 <= i < |bins| && u in bins[i] :: u in units
  {
    forall i, u | 0 <= i < |bins| && u in bins[i] ensures u in units {
      CountIn(bins, i, u);
      assert u in multiset(units);
    }
    forall i, j, a, b | 0 <= i < |bins| && 0 <= j < |bins| && a in bins[i] && b in bins[j] && (i != j || a != b)
      ensures !Comparable(a, b)
    {
      ApartMembers(units, a, b);
      if a == b {
        CountTwo(bins, if i < j then i else j, if i < j then j else i, a);
        var k :| 0 <= k < |units| && units[k] == a;
        OnceIn(units, k);
      }
    }
  }

  /** The bins of a plan, in any order: apart, under the paths planned, and made of them and files. */
  lemma PlanMembers(m: Measured, paths: seq<string>, bins: nat, c: Conflict, ideal: real, sorted: seq<seq<string>>)
    requires bins > 0 && Sound(m) && FilesApart(m) && Antichain(paths)
    requires Plan(m, paths, bins, c, ideal).Placed?
    requires multiset(sorted) == multiset(Plan(m, paths, bins, c, ideal).bins)
    ensures |sorted| == bins && MembersApart(sorted)
    ensures MembersUnder(sorted, paths) && MembersFrom(sorted, paths + m.fileSeconds.keys)
    ensures forall p | p in paths :: Held(m, p, sorted)
  {
    var broken := PlanIsPacking(m, paths, bins, c, ideal);
    var packed := Plan(m, paths, bins, c, ideal).bins;
    var units := OpenAll(m, paths, broken);
    PackedUnits(m, units, bins, c);
    OpenAllKeepsApart(m, paths, broken);
    OpenAllMembers(m, paths, broken);
    AllOfPermutes(sorted, packed);
    BinsApart(sorted, units);
    OpenAllKeeps(m, paths, broken);
    forall p | p in paths ensures Held(m, p, sorted) {
      BinsHold(m, p, units, sorted);
    }
    assert |multiset(sorted)| == |multiset(packed)|;
  }

  lemma {:induction false} OpenAllMembers(m: Measured, units: seq<string>, broken: seq<string>)
    requires Sound(m) && EachOpens(m, units, broken)
    ensures forall u | u in OpenAll(m, units, broken) :: u in units || u in m.fileSeconds.keys
    decreases |broken|
  {
    if broken != [] {
      FilesInAreFiles(m, broken[0]);
      OpenAllMembers(m, Open(m, units, broken[0]), broken[1..]);
    }
  }

  /** A path planned is still there after any openings, or all the files it was opened into are. */
  ghost predicate KeptOrOpened(m: Measured, path: string, units: seq<string>) {
    path in units || (Opens(m, path) && forall f | f in m.FilesIn(path) :: f in units)
  }

  lemma {:induction false} OpenAllKeeps(m: Measured, units: seq<string>, broken: seq<string>)
    requires Sound(m) && EachOpens(m, units, broken)
    ensures forall u | u in units :: KeptOrOpened(m, u, OpenAll(m, units, broken))
    decreases |broken|
  {
    if broken != [] {
      var next := Open(m, units, broken[0]);
      OpenAllKeeps(m, next, broken[1..]);
      FilesInAreFiles(m, broken[0]);
      forall u | u in units ensures KeptOrOpened(m, u, OpenAll(m, units, broken)) {
        if u == broken[0] {
          forall f | f in m.FilesIn(u) ensures f in OpenAll(m, next, broken[1..]) {
            assert f in next;
          }
        } else {
          assert u in next;
        }
      }
    }
  }

  ghost predicate InSome(bins: seq<seq<string>>, u: string) {
    exists i :: 0 <= i < |bins| && u in bins[i]
  }

  lemma {:induction false} SomeBinHolds(bins: seq<seq<string>>, u: string)
    requires u in AllOf(bins)
    ensures InSome(bins, u)
  {
    if u !in bins[0] {
      SomeBinHolds(bins[1..], u);
      var i :| 0 <= i < |bins[1..]| && u in bins[1..][i];
      assert u in bins[i + 1];
    }
  }

  /** The path is in a bin, or all the files it was opened into are. */
  ghost predicate Held(m: Measured, path: string, bins: seq<seq<string>>) {
    InSome(bins, path) || (Opens(m, path) && forall f | f in m.FilesIn(path) :: InSome(bins, f))
  }

  lemma BinsHold(m: Measured, path: string, units: seq<string>, bins: seq<seq<string>>)
    requires AllOf(bins) == multiset(units) && KeptOrOpened(m, path, units)
    ensures Held(m, path, bins)
  {
    forall u | u in units ensures InSome(bins, u) {
      assert u in multiset(units);
      SomeBinHolds(bins, u);
    }
  }

  lemma SortedAntichain(dirs: seq<string>)
    requires Antichain(dirs)
    ensures Antichain(Sort(dirs, StringLe))
    ensures forall d :: d in Sort(dirs, StringLe) <==> d in dirs
  {
    SortKeeps(dirs, StringLe);
    AntichainPermutes(dirs, Sort(dirs, StringLe));
  }

  lemma BinShardsBlock(name: string, bins: seq<seq<string>>, dirs: seq<string>, roots: seq<string>, k: nat)
    requires bins != [] && dirs != [] && MembersApart(bins) && (forall d :: d in dirs <==> d in roots)
    requires MembersUnder(bins, roots)
    ensures Block(BinShards(name, bins, dirs, k), roots, Some(k))
    ensures forall i | 1 <= i < |bins| :: BinShards(name, bins, dirs, k)[i].name != name
  {
    forall i | 1 <= i < |bins| ensures BinShards(name, bins, dirs, k)[i].name != name {
      assert |name + "-" + Decimal(i + 1)| > |name|;
    }
  }

  lemma NamedShardsBlock(m: Measured, aliases: map<string, string>, bins: seq<seq<string>>, roots: seq<string>)
    requires !SomeEmpty(bins) && bins != [] && roots != [] && MembersApart(bins)
    requires MembersUnder(bins, roots)
    ensures Block(NamedShards(m, aliases, bins, roots), roots, None)
    ensures forall i | 0 <= i < |bins| :: NamedShards(m, aliases, bins, roots)[i].members != []
  {
  }

  lemma OneShardBlock(name: string, dirs: seq<string>, roots: seq<string>, k: nat)
    requires dirs != [] && Antichain(dirs) && (forall d :: d in dirs <==> d in roots)
    ensures Block([Planned(name, dirs, dirs, Some(k))], roots, Some(k))
  {
    forall u | u in dirs ensures UnderAny(u, roots) {
      assert Under(u, u);
    }
    forall a, b | a in dirs && b in dirs && a != b ensures !Comparable(a, b) {
      ApartMembers(dirs, a, b);
    }
  }

  lemma GroupBlock(groups: seq<Group>, m: Measured, c: Conflict, k: nat) returns (shards: seq<Planned>)
    requires Sound(m) && FilesApart(m) && Pins(groups, k) && groups[k].bins > 0
    requires groups[k].dirs != [] && Antichain(groups[k].dirs)
    requires GroupShards(groups[k], k, m, c).Ready?
    ensures shards == GroupShards(groups[k], k, m, c).planned
    ensures Block(shards, groups[k].dirs, Some(k))
    ensures groups[k].bins == 1 ==> |shards| == 1 && forall u | u in shards[0].members :: u in groups[k].dirs
    ensures forall i | 1 <= i < |shards| :: shards[i].name != shards[0].name
  {
    var group := groups[k];
    var dirs := Sort(group.dirs, StringLe);
    shards := GroupShards(group, k, m, c).planned;
    SortedAntichain(group.dirs);
    assert group.dirs[0] in dirs;
    if group.bins == 1 {
      OneShardBlock(group.name, dirs, group.dirs, k);
    } else {
      var sorted := SortedBins(m, dirs, group.bins, c);
      MembersUnderSame(sorted, dirs, group.dirs);
      BinShardsBlock(group.name, sorted, dirs, group.dirs, k);
    }
  }

  ghost predicate GroupOrder(group: Group, m: Measured, shards: seq<Planned>) {
    && |shards| == group.bins
    && (forall i | 0 <= i < |shards| :: IsNumbered(group.name, i, shards[i].name))
    && (forall i | 0 <= i < |shards| :: Load(m, shards[0].members) <= Load(m, shards[i].members))
    && (forall d | d in group.dirs :: Held(m, d, MembersOf(shards)))
  }

  /** A pinned group's shards are numbered, the roots go to a lightest one, and they hold all its directories. */
  lemma GroupInOrder(group: Group, k: nat, m: Measured, c: Conflict)
    requires Sound(m) && FilesApart(m) && group.bins > 0 && Antichain(group.dirs)
    requires GroupShards(group, k, m, c).Ready?
    ensures GroupOrder(group, m, GroupShards(group, k, m, c).planned)
  {
    var dirs := Sort(group.dirs, StringLe);
    SortedAntichain(group.dirs);
    if group.bins == 1 {
      OneInOrder(group, k, m, dirs);
    } else {
      var sorted := SortedBins(m, dirs, group.bins, c);
      LightestFirst(m, dirs, group.bins, c, sorted);
      SeveralInOrder(group, k, m, dirs, sorted);
    }
  }

  lemma OneInOrder(group: Group, k: nat, m: Measured, dirs: seq<string>)
    requires group.bins == 1 && forall d :: d in dirs <==> d in group.dirs
    ensures GroupOrder(group, m, [Planned(group.name, dirs, dirs, Some(k))])
  {
    var shards := [Planned(group.name, dirs, dirs, Some(k))];
    forall d | d in group.dirs ensures Held(m, d, MembersOf(shards)) {
      assert d in MembersOf(shards)[0];
    }
  }

  lemma SeveralInOrder(group: Group, k: nat, m: Measured, dirs: seq<string>, sorted: seq<seq<string>>)
    requires |sorted| == group.bins && forall i | 0 <= i < |sorted| :: Load(m, sorted[0]) <= Load(m, sorted[i])
    requires (forall d :: d in dirs <==> d in group.dirs) && forall d | d in dirs :: Held(m, d, sorted)
    ensures GroupOrder(group, m, BinShards(group.name, sorted, dirs, k))
  {
    assert MembersOf(BinShards(group.name, sorted, dirs, k)) == sorted;
  }

  /** The first shard has the group's name, the second `-2` behind it, and so on. */
  predicate IsNumbered(group: string, i: nat, name: string) {
    name == if i == 0 then group else group + "-" + Decimal(i + 1)
  }

  lemma LightestFirst(m: Measured, paths: seq<string>, bins: nat, c: Conflict, sorted: seq<seq<string>>)
    requires bins > 0 && Sound(m) && Plan(m, paths, bins, c, Ideal(m, paths, bins)).Placed?
    requires sorted == Sort(Plan(m, paths, bins, c, Ideal(m, paths, bins)).bins, Lighter(m))
    ensures forall i | 0 <= i < |sorted| :: Load(m, sorted[0]) <= Load(m, sorted[i])
  {
    SortSorted(Plan(m, paths, bins, c, Ideal(m, paths, bins)).bins, Lighter(m));
    forall i | 0 <= i < |sorted| ensures Load(m, sorted[0]) <= Load(m, sorted[i]) {
      if i > 0 {
        assert Lighter(m)(sorted[0], sorted[i]);
      }
    }
  }

  lemma SortedBins(m: Measured, paths: seq<string>, bins: nat, c: Conflict) returns (sorted: seq<seq<string>>)
    requires bins > 0 && Sound(m) && FilesApart(m) && Antichain(paths)
    requires Plan(m, paths, bins, c, Ideal(m, paths, bins)).Placed?
    ensures sorted == Sort(Plan(m, paths, bins, c, Ideal(m, paths, bins)).bins, Lighter(m))
    ensures |sorted| == bins && MembersApart(sorted)
    ensures MembersUnder(sorted, paths) && MembersFrom(sorted, paths + m.fileSeconds.keys)
    ensures forall p | p in paths :: Held(m, p, sorted)
  {
    var packed := Plan(m, paths, bins, c, Ideal(m, paths, bins)).bins;
    sorted := Sort(packed, Lighter(m));
    SortKeeps(packed, Lighter(m));
    PlanMembers(m, paths, bins, c, Ideal(m, paths, bins), sorted);
  }

  /** Every member of a plan's bins is one of the paths planned or a measured file. */
  lemma PlanFrom(m: Measured, paths: seq<string>, bins: nat, c: Conflict, ideal: real, b: nat, u: string)
    requires bins > 0 && Sound(m) && Plan(m, paths, bins, c, ideal).Placed?
    requires b < |Plan(m, paths, bins, c, ideal).bins| && u in Plan(m, paths, bins, c, ideal).bins[b]
    ensures u in paths || u in m.fileSeconds.keys
  {
    var broken := PlanIsPacking(m, paths, bins, c, ideal);
    PackedUnits(m, OpenAll(m, paths, broken), bins, c);
    OpenAllMembers(m, paths, broken);
    MemberOf(Plan(m, paths, bins, c, ideal).bins, b, u);
    assert u in multiset(OpenAll(m, paths, broken));
  }

  lemma GroupPlain(group: Group, k: nat, m: Measured, c: Conflict)
    requires Sound(m) && group.bins > 0 && GroupShards(group, k, m, c).Ready?
    requires forall d | d in group.dirs || d in m.fileSeconds.keys :: Plain(d)
    ensures PlainShards(GroupShards(group, k, m, c).planned)
  {
    var dirs := Sort(group.dirs, StringLe);
    SortKeeps(group.dirs, StringLe);
    if group.bins != 1 {
      var sorted := PlannedPlain(m, dirs, group.bins, c);
      BinShardsPlain(group.name, sorted, dirs, k);
    }
  }

  lemma PlannedPlain(m: Measured, dirs: seq<string>, bins: nat, c: Conflict) returns (sorted: seq<seq<string>>)
    requires Sound(m) && bins > 0 && Plan(m, dirs, bins, c, Ideal(m, dirs, bins)).Placed?
    requires forall d | d in dirs || d in m.fileSeconds.keys :: Plain(d)
    ensures sorted == Sort(Plan(m, dirs, bins, c, Ideal(m, dirs, bins)).bins, Lighter(m))
    ensures forall i, u | 0 <= i < |sorted| && u in sorted[i] :: Plain(u)
  {
    var ideal := Ideal(m, dirs, bins);
    var packed := Plan(m, dirs, bins, c, ideal).bins;
    sorted := Sort(packed, Lighter(m));
    SortKeeps(packed, Lighter(m));
    forall i, u | 0 <= i < |sorted| && u in sorted[i] ensures Plain(u) {
      assert sorted[i] in packed;
      var b :| 0 <= b < |packed| && packed[b] == sorted[i];
      PlanFrom(m, dirs, bins, c, ideal, b, u);
    }
  }

  lemma GroupNumbered(group: Group, k: nat, m: Measured, c: Conflict)
    requires Sound(m) && group.bins > 0 && GroupShards(group, k, m, c).Ready?
    ensures forall i | 0 <= i < |GroupShards(group, k, m, c).planned| :: GroupShards(group, k, m, c).planned[i].group == Some(k)
  {
  }

  lemma BinShardsPlain(name: string, bins: seq<seq<string>>, dirs: seq<string>, k: nat)
    requires forall i, u | 0 <= i < |bins| && u in bins[i] :: Plain(u)
    requires forall d | d in dirs :: Plain(d)
    ensures PlainShards(BinShards(name, bins, dirs, k))
  {
  }

  lemma PackedBlock(m: Measured, packable: seq<string>, bins: nat, fast: Conflict, catchAll: seq<string>,
                    aliases: map<string, string>) returns (shards: seq<Planned>)
    requires Sound(m) && FilesApart(m) && bins > 0 && Antichain(packable) && catchAll != []
    requires forall p | p in packable :: UnderAny(p, catchAll)
    requires PackedShards(m, packable, bins, fast, catchAll, aliases).Ready?
    ensures shards == PackedShards(m, packable, bins, fast, catchAll, aliases).planned
    ensures Block(shards, catchAll, None)
    ensures forall i | 0 <= i < |shards| :: shards[i].members != []
    ensures |shards| == bins && (forall i | 0 <= i < |shards| && shards[i].roots != [] :: shards[i].roots == catchAll)
    ensures MembersUnder(MembersOf(shards), packable) && MembersFrom(MembersOf(shards), packable + m.fileSeconds.keys)
    ensures forall p | p in packable :: Held(m, p, MembersOf(shards))
    ensures forall i | 0 <= i < |shards| :: NamedAfterHeaviest(m, aliases, shards[i])
  {
    var sorted := SortedBins(m, packable, bins, fast);
    shards := NamedShards(m, aliases, sorted, catchAll);
    MembersUnderHigher(sorted, packable, catchAll);
    NamedShardsBlock(m, aliases, sorted, catchAll);
    assert MembersOf(shards) == sorted;
    NamedShardsNamed(m, aliases, sorted, catchAll);
  }

  lemma NamedShardsNamed(m: Measured, aliases: map<string, string>, bins: seq<seq<string>>, catchAll: seq<string>)
    requires !SomeEmpty(bins)
    ensures var shards := NamedShards(m, aliases, bins, catchAll);
            forall i | 0 <= i < |shards| :: NamedAfterHeaviest(m, aliases, shards[i])
  {
    var shards := NamedShards(m, aliases, bins, catchAll);
    forall i | 0 <= i < |shards| ensures NamedAfterHeaviest(m, aliases, shards[i]) {
      var k := WorstIsWorst(m, bins[i]);
    }
  }

  /** The name is the alias of the module of the first of the heaviest members, or that module's own. */
  ghost predicate NamedAfterHeaviest(m: Measured, aliases: map<string, string>, shard: Planned) {
    exists k: nat :: IsWorst(m, shard.members, k) && NamesModule(aliases, ModuleOf(shard.members[k]), shard.name)
  }

  predicate NamesModule(aliases: map<string, string>, mod: string, name: string) {
    (mod in aliases ==> name == aliases[mod]) && (mod !in aliases ==> name == mod)
  }

  /** What is packed: what was measured or is on disk, unless a group that is no overlay has it. */
  lemma PackedUnlessPinned(groups: seq<Group>, m: Measured, onDisk: seq<string>, d: string)
    ensures d in Packable(groups, m, onDisk) <==>
      && (d in m.seconds.keys || d in onDisk)
      && forall group | group in groups && !group.overlay :: d !in group.dirs
  {
    SortKeeps(Dedup(Unpinned(groups, m.seconds.keys + onDisk)), StringLe);
    if IsPinned(groups, d) {
      var k :| 0 <= k < |groups| && !groups[k].overlay && d in groups[k].dirs;
      assert groups[k] in groups;
    }
  }

  lemma PackableAntichain(groups: seq<Group>, m: Measured, onDisk: seq<string>)
    requires forall a, b | a in Packable(groups, m, onDisk) && b in Packable(groups, m, onDisk) && a != b :: !Comparable(a, b)
    ensures Antichain(Packable(groups, m, onDisk))
    ensures forall d | d in Packable(groups, m, onDisk) :: d in m.seconds.keys || d in onDisk
  {
    var dirs := Unpinned(groups, m.seconds.keys + onDisk);
    SortKeeps(Dedup(dirs), StringLe);
    DedupDistinct(dirs);
    AntichainPermutes(Dedup(dirs), Packable(groups, m, onDisk));
  }

  lemma {:induction false} DedupDistinct(xs: seq<string>)
    requires forall a, b | a in xs && b in xs && a != b :: !Comparable(a, b)
    ensures Antichain(Dedup(xs))
  {
    if xs != [] {
      DedupDistinct(xs[1..]);
    }
  }

  // ---- Blocks one after another

  ghost predicate GroupsOk(groups: seq<Group>, conflicts: seq<Conflict>, m: Measured) {
    |groups| == |conflicts| && Sound(m) && forall k | 0 <= k < |groups| :: groups[k].bins > 0
  }

  ghost predicate AreBlocks(outcomes: seq<PlanOutcome>, blocks: seq<seq<Planned>>) {
    |blocks| <= |outcomes| && forall k | 0 <= k < |blocks| :: outcomes[k] == Ready(blocks[k])
  }

  lemma BlockAt(groups: seq<Group>, conflicts: seq<Conflict>, m: Measured, blocks: seq<seq<Planned>>, k: nat)
    requires GroupsOk(groups, conflicts, m) && k < |blocks| && AreBlocks(GroupOutcomes(groups, conflicts, m), blocks)
    ensures GroupShards(groups[k], k, m, conflicts[k]) == Ready(blocks[k])
  {
  }

  /** Stretches that are all planned, cut into one block each. */
  lemma {:induction false} AsBlocks(outcomes: seq<PlanOutcome>, n: nat) returns (blocks: seq<seq<Planned>>)
    requires n <= |outcomes| && OneByOne(outcomes, n).Ready?
    ensures |blocks| == n && Joined(blocks) == OneByOne(outcomes, n).planned && AreBlocks(outcomes, blocks)
  {
    if n == 0 {
      blocks := [];
    } else {
      var before := AsBlocks(outcomes, n - 1);
      blocks := before + [outcomes[n - 1].planned];
      JoinedAppend(before, outcomes[n - 1].planned);
    }
  }

  lemma GroupIsOk(groups: seq<Group>, catchAll: seq<string>, m: Measured, c: Conflict, k: nat)
    requires Sound(m) && FilesApart(m) && Config(groups, catchAll) && k < |groups| && groups[k].bins > 0
    requires forall d | d in groups[k].dirs || d in m.fileSeconds.keys :: Plain(d)
    requires GroupShards(groups[k], k, m, c).Ready?
    ensures GroupOk(groups, k, GroupShards(groups[k], k, m, c).planned)
  {
    GroupPlain(groups[k], k, m, c);
    GroupNumbered(groups[k], k, m, c);
    if Pins(groups, k) {
      var shards := GroupBlock(groups, m, c, k);
    }
  }

  // ---- The whole plan

  /** The plan in blocks: one a pinned group, then the packed shards. */
  lemma PlanInBlocks(groups: seq<Group>, conflicts: seq<Conflict>, m: Measured, onDisk: seq<string>, bins: nat,
                     fast: Conflict, catchAll: seq<string>, aliases: map<string, string>)
    returns (blocks: seq<seq<Planned>>, packed: seq<Planned>)
    requires Setting(groups, conflicts, m, onDisk, bins, catchAll)
    requires PlanAll(groups, conflicts, m, onDisk, bins, fast, catchAll, aliases).Ready?
    ensures PlanAll(groups, conflicts, m, onDisk, bins, fast, catchAll, aliases) == Ready(Joined(blocks) + packed)
    ensures PackedShards(m, Packable(groups, m, onDisk), bins, fast, catchAll, aliases) == Ready(packed)
    ensures |blocks| == |groups| && AreBlocks(GroupOutcomes(groups, conflicts, m), blocks)
  {
    blocks := AsBlocks(GroupOutcomes(groups, conflicts, m), |groups|);
    packed := PackedShards(m, Packable(groups, m, onDisk), bins, fast, catchAll, aliases).planned;
  }

  lemma PinnedBlocksOk(groups: seq<Group>, conflicts: seq<Conflict>, m: Measured, onDisk: seq<string>, bins: nat,
                       catchAll: seq<string>, blocks: seq<seq<Planned>>)
    requires Setting(groups, conflicts, m, onDisk, bins, catchAll) && |blocks| == |groups|
    requires AreBlocks(GroupOutcomes(groups, conflicts, m), blocks)
    ensures AllGroupsOk(groups, blocks)
  {
    forall k | 0 <= k < |groups| ensures GroupOk(groups, k, blocks[k]) {
      BlockAt(groups, conflicts, m, blocks, k);
      GroupIsOk(groups, catchAll, m, conflicts[k], k);
    }
  }

  lemma PackedBlockOk(groups: seq<Group>, conflicts: seq<Conflict>, m: Measured, onDisk: seq<string>, bins: nat,
                      fast: Conflict, catchAll: seq<string>, aliases: map<string, string>, packed: seq<Planned>)
    requires Setting(groups, conflicts, m, onDisk, bins, catchAll)
    requires PackedShards(m, Packable(groups, m, onDisk), bins, fast, catchAll, aliases) == Ready(packed)
    ensures Block(packed, catchAll, None) && PlainShards(packed)
    ensures forall i | 0 <= i < |packed| :: packed[i].members != []
    ensures forall i, u | 0 <= i < |packed| && u in packed[i].members :: UnderAny(u, Packable(groups, m, onDisk))
  {
    var packable := Packable(groups, m, onDisk);
    PackableAntichain(groups, m, onDisk);
    var shards := PackedBlock(m, packable, bins, fast, catchAll, aliases);
    forall p | p in packable + m.fileSeconds.keys ensures Plain(p) {
    }
    MembersRead(shards, catchAll, packable, packable + m.fileSeconds.keys);
  }

  ghost function MembersOf(shards: seq<Planned>): seq<seq<string>> {
    seq(|shards|, i requires 0 <= i < |shards| => shards[i].members)
  }

  lemma MembersRead(shards: seq<Planned>, catchAll: seq<string>, packable: seq<string>, sources: seq<string>)
    requires MembersUnder(MembersOf(shards), packable) && MembersFrom(MembersOf(shards), sources)
    requires forall p | p in sources || p in catchAll :: Plain(p)
    requires forall i | 0 <= i < |shards| && shards[i].roots != [] :: shards[i].roots == catchAll
    ensures PlainShards(shards)
    ensures forall i, u | 0 <= i < |shards| && u in shards[i].members :: UnderAny(u, packable)
  {
    forall i, u | 0 <= i < |shards| && u in shards[i].members ensures UnderAny(u, packable) && Plain(u) {
      assert u in MembersOf(shards)[i];
    }
  }

  /** The planner's promise and its exact condition, for whatever was measured and found on disk:
      every path under the catch-all roots is collected by exactly one shard that is not an overlay,
      if and only if no other packed shard is named like the catch-all. */
  lemma PlannerCollectsOnceIffNamesDiffer(groups: seq<Group>, conflicts: seq<Conflict>, m: Measured, onDisk: seq<string>,
                                          bins: nat, fast: Conflict, catchAll: seq<string>, aliases: map<string, string>)
    requires Setting(groups, conflicts, m, onDisk, bins, catchAll)
    requires PlanAll(groups, conflicts, m, onDisk, bins, fast, catchAll, aliases).Ready?
    ensures var planned := PlanAll(groups, conflicts, m, onDisk, bins, fast, catchAll, aliases).planned;
            var packed := PackedShards(m, Packable(groups, m, onDisk), bins, fast, catchAll, aliases).planned;
            (forall path | UnderAny(path, catchAll) :: exists i: nat :: OnlyTaker(groups, planned, path, i))
            <==> forall i | 1 <= i < |packed| :: packed[i].name != packed[0].name
  {
    var blocks, packed := PlanInBlocks(groups, conflicts, m, onDisk, bins, fast, catchAll, aliases);
    PinnedBlocksOk(groups, conflicts, m, onDisk, bins, catchAll, blocks);
    PackedBlockOk(groups, conflicts, m, onDisk, bins, fast, catchAll, aliases, packed);
    BlocksAreLayout(groups, catchAll, blocks, packed, Packable(groups, m, onDisk));
    NamesApartIffPackedApart(groups, blocks, packed);
    CollectedOnceIffNamesApart(groups, catchAll, Joined(blocks) + packed, Roots(groups, blocks));
  }

  /** Under the same condition the shards' reported seconds add up to the seconds of the measured files. */
  lemma FileSecondsAddUp(groups: seq<Group>, conflicts: seq<Conflict>, m: Measured, onDisk: seq<string>,
                            bins: nat, fast: Conflict, catchAll: seq<string>, aliases: map<string, string>)
    requires Setting(groups, conflicts, m, onDisk, bins, catchAll)
    requires PlanAll(groups, conflicts, m, onDisk, bins, fast, catchAll, aliases).Ready?
    requires var packed := PackedShards(m, Packable(groups, m, onDisk), bins, fast, catchAll, aliases).planned;
             forall i | 1 <= i < |packed| :: packed[i].name != packed[0].name
    requires forall leaf | leaf in m.fileSeconds.keys :: UnderAny(leaf, catchAll)
    ensures var planned := PlanAll(groups, conflicts, m, onDisk, bins, fast, catchAll, aliases).planned;
            SerialOfFirst(TakesOf(groups, planned), m.fileSeconds.keys, m.fileSeconds.sums, |planned|) ==
            SumOf(m.fileSeconds.keys, m.fileSeconds.sums)
  {
    var blocks, packed := PlanInBlocks(groups, conflicts, m, onDisk, bins, fast, catchAll, aliases);
    PinnedBlocksOk(groups, conflicts, m, onDisk, bins, catchAll, blocks);
    PackedBlockOk(groups, conflicts, m, onDisk, bins, fast, catchAll, aliases, packed);
    BlocksAreLayout(groups, catchAll, blocks, packed, Packable(groups, m, onDisk));
    NamesApartIffPackedApart(groups, blocks, packed);
    ReportedSecondsAddUp(groups, catchAll, Joined(blocks) + packed, Roots(groups, blocks), m.fileSeconds.keys, m.fileSeconds.sums);
  }

  /** The shard that collects by roots is the lightest of the packed shards. */
  lemma CatchAllIsLightest(m: Measured, packable: seq<string>, bins: nat, c: Conflict, catchAll: seq<string>,
                           aliases: map<string, string>, i: nat)
    requires Sound(m) && bins > 0 && PackedShards(m, packable, bins, c, catchAll, aliases).Ready?
    requires i < |PackedShards(m, packable, bins, c, catchAll, aliases).planned|
    ensures var shards := PackedShards(m, packable, bins, c, catchAll, aliases).planned;
            Load(m, shards[0].members) <= Load(m, shards[i].members)
  {
    var packed := Plan(m, packable, bins, c, Ideal(m, packable, bins)).bins;
    SortSorted(packed, Lighter(m));
    if i > 0 {
      assert Lighter(m)(Sort(packed, Lighter(m))[0], Sort(packed, Lighter(m))[i]);
    }
  }
}
