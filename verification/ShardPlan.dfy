/** The planning half of `main`. */
module ShardPlan {
  // Pinned groups first, then everything else packed.

  import opened Options
  import opened Numbers
  import opened Sorting
  import opened Measuring
  import opened Packing
  import opened Planning
  import opened Collection
  import opened Sharding

  /** Planned shards; or the packer exited at an item; or a packed bin came out with no member, so it
      has no heaviest module to be named after and `max` raises. */
  datatype PlanOutcome = Ready(planned: seq<Planned>) | Refused(name: string) | EmptyBin

  /** How bins are ordered before the first of them becomes the roots shard. */
  function Lighter(m: Measured): (seq<string>, seq<string>) -> bool {
    (a: seq<string>, b: seq<string>) => Load(m, a) <= Load(m, b)
  }

  function BinShards(name: string, bins: seq<seq<string>>, roots: seq<string>, k: nat): seq<Planned> {
    seq(|bins|, i requires 0 <= i < |bins| =>
      Planned(if i == 0 then name else name + "-" + Decimal(i + 1), bins[i], if i == 0 then roots else [], Some(k)))
  }

  /** A pinned group's shards. */
  ghost function GroupShards(group: Group, k: nat, m: Measured, c: Conflict): PlanOutcome
    requires Sound(m) && group.bins > 0
  {
    var dirs := Sort(group.dirs, StringLe);
    if group.bins == 1 then Ready([Planned(group.name, dirs, dirs, Some(k))])
    else
      match Plan(m, dirs, group.bins, c, Ideal(m, dirs, group.bins))
      case Exit(name) => Refused(name)
      case Placed(bins) => Ready(BinShards(group.name, Sort(bins, Lighter(m)), dirs, k))
  }

  /** One stretch of planning after another; the first that stops, stops it all. */
  function Then(first: PlanOutcome, second: PlanOutcome): PlanOutcome {
    if first.Ready? && second.Ready? then Ready(first.planned + second.planned)
    else if first.Ready? then second
    else first
  }

  /** The first `n` stretches in turn. */
  function OneByOne(outcomes: seq<PlanOutcome>, n: nat): PlanOutcome
    requires n <= |outcomes|
  {
    if n == 0 then Ready([]) else Then(OneByOne(outcomes, n - 1), outcomes[n - 1])
  }

  ghost function GroupOutcomes(groups: seq<Group>, conflicts: seq<Conflict>, m: Measured): (r: seq<PlanOutcome>)
    requires |groups| == |conflicts| && Sound(m) && forall k | 0 <= k < |groups| :: groups[k].bins > 0
    ensures |r| == |groups|
  {
    seq(|groups|, k requires 0 <= k < |groups| => GroupShards(groups[k], k, m, conflicts[k]))
  }

  /** The first `n` pinned groups' shards. */
  ghost function PinnedShards(groups: seq<Group>, conflicts: seq<Conflict>, m: Measured, n: nat): PlanOutcome
    requires n <= |groups| == |conflicts| && Sound(m) && forall k | 0 <= k < |groups| :: groups[k].bins > 0
  {
    OneByOne(GroupOutcomes(groups, conflicts, m), n)
  }

  predicate IsPinned(groups: seq<Group>, d: string) {
    exists k | 0 <= k < |groups| :: !groups[k].overlay && d in groups[k].dirs
  }

  function Unpinned(groups: seq<Group>, dirs: seq<string>): (r: seq<string>)
    ensures forall d :: d in r <==> d in dirs && !IsPinned(groups, d)
  {
    if dirs == [] then []
    else (if IsPinned(groups, dirs[0]) then [] else [dirs[0]]) + Unpinned(groups, dirs[1..])
  }

  /** Every measured directory and every one on disk that no group pins, once each, in order. */
  function Packable(groups: seq<Group>, m: Measured, onDisk: seq<string>): seq<string> {
    Sort(Dedup(Unpinned(groups, m.seconds.keys + onDisk)), StringLe)
  }

  /** A packed shard is named after its heaviest module, or that module's alias. */
  function NameOf(m: Measured, aliases: map<string, string>, bin: seq<string>): string
    requires bin != []
  {
    var mod := ModuleOf(Worst(m, bin));
    if mod in aliases then aliases[mod] else mod
  }

  predicate SomeEmpty(bins: seq<seq<string>>) {
    exists i | 0 <= i < |bins| :: bins[i] == []
  }

  function NamedShards(m: Measured, aliases: map<string, string>, bins: seq<seq<string>>, catchAll: seq<string>): seq<Planned>
    requires !SomeEmpty(bins)
  {
    seq(|bins|, i requires 0 <= i < |bins| =>
      Planned(NameOf(m, aliases, bins[i]), bins[i], if i == 0 then catchAll else [], None))
  }

  ghost function PackedShards(m: Measured, packable: seq<string>, bins: nat, c: Conflict, catchAll: seq<string>,
                              aliases: map<string, string>): PlanOutcome
    requires Sound(m) && bins > 0
  {
    match Plan(m, packable, bins, c, Ideal(m, packable, bins))
    case Exit(name) => Refused(name)
    case Placed(packed) =>
      var sorted := Sort(packed, Lighter(m));
      if SomeEmpty(sorted) then EmptyBin else Ready(NamedShards(m, aliases, sorted, catchAll))
  }

  ghost function PlanAll(groups: seq<Group>, conflicts: seq<Conflict>, m: Measured, onDisk: seq<string>, bins: nat,
                         fast: Conflict, catchAll: seq<string>, aliases: map<string, string>): PlanOutcome
    requires |groups| == |conflicts| && Sound(m) && (forall k | 0 <= k < |groups| :: groups[k].bins > 0) && bins > 0
  {
    Then(PinnedShards(groups, conflicts, m, |groups|),
         PackedShards(m, Packable(groups, m, onDisk), bins, fast, catchAll, aliases))
  }

  method PlanGroup(group: Group, k: nat, m: Measured, c: Conflict) returns (r: PlanOutcome)
    requires Sound(m) && group.bins > 0
    ensures r == GroupShards(group, k, m, c)
  {
    var dirs := Sort(group.dirs, StringLe);
    if group.bins == 1 {
      return Ready([Planned(group.name, dirs, dirs, Some(k))]);
    }
    var packed := PlanBins(dirs, m, group.bins, c);
    if packed.Exit? {
      return Refused(packed.name);
    }
    r := Ready(BinShards(group.name, Sort(packed.bins, Lighter(m)), dirs, k));
  }

  /** Once a group cannot be planned, nothing else is. */
  lemma {:induction false} StopsThere(outcomes: seq<PlanOutcome>, k: nat, r: PlanOutcome)
    requires k <= |outcomes| && !r.Ready? && r == OneByOne(outcomes, k)
    ensures r == OneByOne(outcomes, |outcomes|)
    decreases |outcomes| - k
  {
    if k < |outcomes| {
      StopsThere(outcomes, k + 1, r);
    }
  }

  method PlanPinned(groups: seq<Group>, conflicts: seq<Conflict>, m: Measured) returns (r: PlanOutcome)
    requires |groups| == |conflicts| && Sound(m) && forall k | 0 <= k < |groups| :: groups[k].bins > 0
    ensures r == PinnedShards(groups, conflicts, m, |groups|)
  {
    ghost var outcomes := GroupOutcomes(groups, conflicts, m);
    r := Ready([]);
    for k := 0 to |groups|
      invariant r.Ready? && r == OneByOne(outcomes, k)
    {
      var shards := PlanGroup(groups[k], k, m, conflicts[k]);
      assert shards == outcomes[k];
      r := Then(r, shards);
      if !r.Ready? {
        StopsThere(outcomes, k + 1, r);
        return;
      }
    }
  }

  method PlanPacked(m: Measured, packable: seq<string>, bins: nat, c: Conflict, catchAll: seq<string>,
                    aliases: map<string, string>) returns (r: PlanOutcome)
    requires Sound(m) && bins > 0
    ensures r == PackedShards(m, packable, bins, c, catchAll, aliases)
  {
    var packed := PlanBins(packable, m, bins, c);
    if packed.Exit? {
      return Refused(packed.name);
    }
    var sorted := Sort(packed.bins, Lighter(m));
    r := if SomeEmpty(sorted) then EmptyBin else Ready(NamedShards(m, aliases, sorted, catchAll));
  }

  method PlanShards(groups: seq<Group>, conflicts: seq<Conflict>, m: Measured, onDisk: seq<string>, bins: nat,
                    fast: Conflict, catchAll: seq<string>, aliases: map<string, string>) returns (r: PlanOutcome)
    requires |groups| == |conflicts| && Sound(m) && (forall k | 0 <= k < |groups| :: groups[k].bins > 0) && bins > 0
    ensures r == PlanAll(groups, conflicts, m, onDisk, bins, fast, catchAll, aliases)
  {
    r := PlanPinned(groups, conflicts, m);
    if r.Ready? {
      var packed := PlanPacked(m, Packable(groups, m, onDisk), bins, fast, catchAll, aliases);
      r := Then(r, packed);
    }
  }
}
