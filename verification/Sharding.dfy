/** What each shard gives away. */
module Sharding {
  // From planned bins to shards, and who ends up collecting a path.

  import opened Options
  import opened Paths
  import opened Collection

  /** A pinned group: its own shards, and a claim on whole directories. An overlay claims nothing. */
  datatype Group = Group(name: string, dirs: seq<string>, bins: nat, overlay: bool)

  /** A shard before its arguments are rendered; `group` is its place in the pinned list, if any. */
  datatype Planned = Planned(name: string, members: seq<string>, roots: seq<string>, group: Option<nat>)

  predicate IsOverlay(groups: seq<Group>, shard: Planned) {
    shard.group.Some? && shard.group.value < |groups| && groups[shard.group.value].overlay
  }

  /** Members of every shard with another name, overlays aside. */
  function MembersElsewhere(groups: seq<Group>, planned: seq<Planned>, name: string): (r: seq<string>)
    ensures forall q :: q in r <==>
      exists j | 0 <= j < |planned| :: planned[j].name != name && !IsOverlay(groups, planned[j]) && q in planned[j].members
  {
    if planned == [] then []
    else
      var n := |planned| - 1;
      var other := planned[n];
      assert forall j | 0 <= j < n :: planned[..n][j] == planned[j];
      MembersElsewhere(groups, planned[..n], name)
      + if other.name != name && !IsOverlay(groups, other) then other.members else []
  }

  /** Directories declared by every other pinned group among the first `k`, overlays aside. */
  function DirsElsewhere(groups: seq<Group>, self: Option<nat>, k: nat): (r: seq<string>)
    requires k <= |groups|
    ensures forall q :: q in r <==>
      exists l | 0 <= l < k :: self != Some(l) && !groups[l].overlay && q in groups[l].dirs
  {
    if k == 0 then []
    else
      DirsElsewhere(groups, self, k - 1)
      + if self != Some(k - 1) && !groups[k - 1].overlay then groups[k - 1].dirs else []
  }

  function Claimed(groups: seq<Group>, planned: seq<Planned>, shard: Planned): seq<string> {
    if IsOverlay(groups, shard) then []
    else MembersElsewhere(groups, planned, shard.name) + DirsElsewhere(groups, shard.group, |groups|)
  }

  /** The claimed paths a shard would otherwise collect and does not hold itself. */
  function ToGiveAway(claimed: seq<string>, shard: Planned): (r: seq<string>)
    ensures forall q :: q in r <==> q in claimed && q !in shard.members && UnderAny(q, shard.roots)
  {
    if claimed == [] then []
    else (if claimed[0] !in shard.members && UnderAny(claimed[0], shard.roots) then [claimed[0]] else [])
         + ToGiveAway(claimed[1..], shard)
  }

  function ArgsOf(groups: seq<Group>, planned: seq<Planned>, shard: Planned): string {
    RenderArgs(shard.members, shard.roots, Topmost(ToGiveAway(Claimed(groups, planned, shard), shard)))
  }

  method RenderShards(groups: seq<Group>, planned: seq<Planned>) returns (shards: seq<Shard>)
    ensures |shards| == |planned|
    ensures forall i | 0 <= i < |planned| :: shards[i] == Shard(planned[i].name, ArgsOf(groups, planned, planned[i]))
  {
    shards := [];
    for i := 0 to |planned|
      invariant |shards| == i
      invariant forall j | 0 <= j < i :: shards[j] == Shard(planned[j].name, ArgsOf(groups, planned, planned[j]))
    {
      var shard := planned[i];
      var givenAway := Topmost(ToGiveAway(Claimed(groups, planned, shard), shard));
      shards := shards + [Shard(shard.name, RenderArgs(shard.members, shard.roots, givenAway))];
    }
  }

  // ---- Who collects a path, without the text

  /** `q` belongs to someone else, as far as shard `i` can tell: names are all it compares. */
  ghost predicate Claims(groups: seq<Group>, planned: seq<Planned>, i: nat, q: string)
    requires i < |planned|
  {
    || (exists j | 0 <= j < |planned| ::
          planned[j].name != planned[i].name && !IsOverlay(groups, planned[j]) && q in planned[j].members)
    || (exists l | 0 <= l < |groups| ::
          planned[i].group != Some(l) && !groups[l].overlay && q in groups[l].dirs)
  }

  ghost predicate GivesAway(groups: seq<Group>, planned: seq<Planned>, i: nat, q: string)
    requires i < |planned|
  {
    Claims(groups, planned, i, q) && q !in planned[i].members && UnderAny(q, planned[i].roots)
  }

  /** Shard `i` is not an overlay and its rendered arguments collect `path`. */
  ghost predicate Takes(groups: seq<Group>, planned: seq<Planned>, i: nat, path: string) {
    i < |planned| && !IsOverlay(groups, planned[i]) && Collects(path, ArgsOf(groups, planned, planned[i]))
  }

  ghost predicate Covers(groups: seq<Group>, planned: seq<Planned>, i: nat, path: string) {
    && i < |planned| && !IsOverlay(groups, planned[i])
    && if planned[i].roots != []
       then UnderAny(path, planned[i].roots) && forall q | GivesAway(groups, planned, i, q) :: !Under(path, q)
       else UnderAny(path, planned[i].members)
  }

  ghost predicate AllPlain(groups: seq<Group>, planned: seq<Planned>) {
    && (forall k, d | 0 <= k < |groups| && d in groups[k].dirs :: Plain(d))
    && (forall i, q | 0 <= i < |planned| && (q in planned[i].members || q in planned[i].roots) :: Plain(q))
  }

  /** The text means what it was rendered from. */
  lemma TakesIsCovers(groups: seq<Group>, planned: seq<Planned>, i: nat, path: string)
    requires AllPlain(groups, planned) && i < |planned|
    ensures Takes(groups, planned, i, path) <==> Covers(groups, planned, i, path)
  {
    var shard := planned[i];
    if !IsOverlay(groups, shard) {
      var claimed := Claimed(groups, planned, shard);
      var away := ToGiveAway(claimed, shard);
      forall q ensures q in away <==> GivesAway(groups, planned, i, q) {
        assert q in claimed <==> Claims(groups, planned, i, q);
      }
      TopmostCovers(away, path);
      TopmostMembers(away);
      forall q | q in Topmost(away) ensures Plain(q) {
        assert Claims(groups, planned, i, q);
      }
      RenderCollects(path, shard.members, shard.roots, Topmost(away));
    }
  }
}
