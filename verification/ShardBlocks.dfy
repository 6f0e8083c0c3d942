/** Shards laid out family after family, and when such a list is a layout with one owner for a path. */
module ShardBlocks {
  import opened Options
  import opened Paths
  import opened Collection
  import opened Sharding
  import opened ShardingTheorems

  // ---- Blocks of shards, one a family

  /** The shards of one family, side by side, its roots shard first. */
  ghost predicate Block(shards: seq<Planned>, roots: seq<string>, group: Option<nat>) {
    && shards != [] && shards[0].roots != [] && (forall r :: r in shards[0].roots <==> r in roots)
    && (forall i | 0 <= i < |shards| :: shards[i].group == group)
    && (forall i | 1 <= i < |shards| :: shards[i].roots == [])
    && (forall i, u | 0 <= i < |shards| && u in shards[i].members :: UnderAny(u, roots))
    && (forall i, j, a, b | 0 <= i < |shards| && 0 <= j < |shards| && a in shards[i].members && b in shards[j].members
                            && (i != j || a != b) :: !Comparable(a, b))
  }

  ghost predicate PlainShards(shards: seq<Planned>) {
    forall i, u | 0 <= i < |shards| && (u in shards[i].members || u in shards[i].roots) :: Plain(u)
  }

  lemma KeptApart(u: string, p: string, d: string)
    requires Under(u, p) && !Comparable(p, d)
    ensures !Comparable(u, d)
  {
    if Under(u, d) {
      UnderComparable(u, p, d);
    }
    if Under(d, u) {
      UnderTransitive(d, u, p);
    }
  }

  /** No packed member holds, or lies in, a pinned directory. */
  lemma PackedAwayFromPinned(groups: seq<Group>, packable: seq<string>, u: string, k: nat, d: string)
    requires UnderAny(u, packable) && PinnedDir(groups, k, d)
    requires forall a, l: nat, e | a in packable && PinnedDir(groups, l, e) :: !Comparable(a, e)
    ensures !Comparable(u, d)
  {
    var p :| p in packable && Under(u, p);
    KeptApart(u, p, d);
  }

  ghost function Joined(blocks: seq<seq<Planned>>): seq<Planned> {
    if blocks == [] then [] else Joined(blocks[..|blocks| - 1]) + blocks[|blocks| - 1]
  }

  lemma JoinedAppend(blocks: seq<seq<Planned>>, block: seq<Planned>)
    ensures Joined(blocks + [block]) == Joined(blocks) + block
  {
    assert (blocks + [block])[..|blocks|] == blocks;
  }

  /** What a pinned group's block of shards is like, as far as the layout cares. */
  ghost predicate GroupOk(groups: seq<Group>, k: nat, block: seq<Planned>)
    requires k < |groups|
  {
    && PlainShards(block)
    && (forall i | 0 <= i < |block| :: block[i].group == Some(k))
    && (Pins(groups, k) ==>
          && Block(block, groups[k].dirs, Some(k))
          && (groups[k].bins == 1 ==> |block| == 1 && forall u | u in block[0].members :: u in groups[k].dirs)
          && (forall i | 1 <= i < |block| :: block[i].name != block[0].name))
  }

  ghost predicate AllGroupsOk(groups: seq<Group>, blocks: seq<seq<Planned>>) {
    |blocks| == |groups| && forall k | 0 <= k < |blocks| :: GroupOk(groups, k, blocks[k])
  }

  /** `block` is the stretch of `all` that belongs to a family, and begins at `start`. */
  ghost predicate Stretch(all: seq<Planned>, family: Option<nat>, start: nat, block: seq<Planned>) {
    && start + |block| <= |all|
    && (forall i | 0 <= i < |block| :: all[start + i] == block[i])
    && (forall i | 0 <= i < |all| :: all[i].group == family <==> start <= i < start + |block|)
  }

  lemma StretchStays(all: seq<Planned>, more: seq<Planned>, family: Option<nat>, start: nat, block: seq<Planned>)
    requires Stretch(all, family, start, block) && forall i | 0 <= i < |more| :: more[i].group != family
    ensures Stretch(all + more, family, start, block)
  {
  }

  lemma StretchEnds(all: seq<Planned>, family: Option<nat>, block: seq<Planned>)
    requires forall i | 0 <= i < |all| :: all[i].group != family
    requires forall i | 0 <= i < |block| :: block[i].group == family
    ensures Stretch(all + block, family, |all|, block)
  {
  }

  ghost predicate NumberedBlocks(blocks: seq<seq<Planned>>) {
    forall k, i | 0 <= k < |blocks| && 0 <= i < |blocks[k]| :: blocks[k][i].group == Some(k)
  }

  lemma {:induction false} JoinedNumbers(blocks: seq<seq<Planned>>)
    requires NumberedBlocks(blocks)
    ensures forall i | 0 <= i < |Joined(blocks)| :: Joined(blocks)[i].group.Some? && Joined(blocks)[i].group.value < |blocks|
  {
    if blocks != [] {
      JoinedNumbers(blocks[..|blocks| - 1]);
    }
  }

  /** Group `k`'s shards occupy one stretch, and no shard of its is elsewhere. */
  lemma {:induction false} StretchOf(blocks: seq<seq<Planned>>, k: nat)
    requires k < |blocks| && NumberedBlocks(blocks)
    ensures Stretch(Joined(blocks), Some(k), |Joined(blocks[..k])|, blocks[k])
  {
    var n := |blocks| - 1;
    if k < n {
      StretchOf(blocks[..n], k);
      assert blocks[..n][..k] == blocks[..k];
      StretchStays(Joined(blocks[..n]), blocks[n], Some(k), |Joined(blocks[..k])|, blocks[k]);
    } else {
      JoinedNumbers(blocks[..n]);
      StretchEnds(Joined(blocks[..n]), Some(k), blocks[n]);
    }
  }

  lemma {:induction false} JoinedPlain(blocks: seq<seq<Planned>>)
    requires forall k | 0 <= k < |blocks| :: PlainShards(blocks[k])
    ensures PlainShards(Joined(blocks))
  {
    if blocks != [] {
      JoinedPlain(blocks[..|blocks| - 1]);
    }
  }

  /** A block in place is a family whose roots shard is its first. */
  lemma BlockIsFamily(groups: seq<Group>, catchAll: seq<string>, planned: seq<Planned>, family: Option<nat>,
                      start: nat, block: seq<Planned>)
    requires IsFamily(groups, family) && Block(block, FamilyRoots(groups, catchAll, family), family)
    requires Stretch(planned, family, start, block)
    ensures Family(groups, catchAll, planned, family, start)
    ensures forall i: nat | In(groups, planned, i, family) :: start <= i < start + |block| && planned[i] == block[i - start]
  {
    assert planned[start + 0] == block[0];
    forall i: nat | In(groups, planned, i, family) ensures start <= i < start + |block| && planned[i] == block[i - start] {
      assert planned[start + (i - start)] == block[i - start];
    }
  }

  /** Where group `k`'s block begins. */
  ghost function StartOf(blocks: seq<seq<Planned>>, k: nat): nat
    requires k <= |blocks|
  {
    |Joined(blocks[..k])|
  }

  ghost function Families(groups: seq<Group>, n: nat): (r: set<Option<nat>>)
    requires n <= |groups|
    ensures forall family: Option<nat> :: family in r <==> IsFamily(groups, family) && (family.Some? ==> family.value < n)
  {
    if n == 0 then
      assert forall family: Option<nat> | family.Some? :: family.value >= 0;
      {None}
    else Families(groups, n - 1) + if Pins(groups, n - 1) then {Some(n - 1)} else {}
  }

  /** The first shard of each family of the plan. */
  ghost function Roots(groups: seq<Group>, blocks: seq<seq<Planned>>): (root: map<Option<nat>, nat>)
    requires |blocks| == |groups|
  {
    map family | family in Families(groups, |groups|) ::
      if family.Some? then StartOf(blocks, family.value) else |Joined(blocks)|
  }

  lemma BlocksNumbered(groups: seq<Group>, blocks: seq<seq<Planned>>)
    requires AllGroupsOk(groups, blocks)
    ensures NumberedBlocks(blocks)
    ensures forall k | 0 <= k < |blocks| :: PlainShards(blocks[k])
  {
    forall k | 0 <= k < |blocks| ensures PlainShards(blocks[k]) && forall i | 0 <= i < |blocks[k]| :: blocks[k][i].group == Some(k) {
      assert GroupOk(groups, k, blocks[k]);
    }
  }

  lemma PinnedStretch(blocks: seq<seq<Planned>>, packed: seq<Planned>, k: nat)
    requires NumberedBlocks(blocks) && k < |blocks| && forall i | 0 <= i < |packed| :: packed[i].group == None
    ensures Stretch(Joined(blocks) + packed, Some(k), StartOf(blocks, k), blocks[k])
  {
    StretchOf(blocks, k);
    StretchStays(Joined(blocks), packed, Some(k), StartOf(blocks, k), blocks[k]);
  }

  lemma PackedStretch(blocks: seq<seq<Planned>>, packed: seq<Planned>)
    requires NumberedBlocks(blocks) && forall i | 0 <= i < |packed| :: packed[i].group == None
    ensures Stretch(Joined(blocks) + packed, None, |Joined(blocks)|, packed)
  {
    JoinedNumbers(blocks);
    StretchEnds(Joined(blocks), None, packed);
  }

  lemma BlockIsWhole(groups: seq<Group>, planned: seq<Planned>, k: nat, start: nat, block: seq<Planned>)
    requires Pins(groups, k) && GroupOk(groups, k, block) && Stretch(planned, Some(k), start, block)
    ensures Whole(groups, planned, k, start)
    ensures forall i: nat | In(groups, planned, i, Some(k)) && i != start :: planned[i].name != planned[start].name
  {
    assert planned[start + 0] == block[0];
    forall i: nat | In(groups, planned, i, Some(k)) ensures start <= i < start + |block| && planned[i] == block[i - start] {
      assert planned[start + (i - start)] == block[i - start];
    }
  }

  /** Blocks of the right kind, one after another, are a layout. */
  lemma BlocksAreLayout(groups: seq<Group>, catchAll: seq<string>, blocks: seq<seq<Planned>>, packed: seq<Planned>,
                        packable: seq<string>)
    requires Config(groups, catchAll) && AllGroupsOk(groups, blocks) && Block(packed, catchAll, None) && PlainShards(packed)
    requires forall k: nat, d | k < |groups| && d in groups[k].dirs :: Plain(d)
    requires forall i, u | 0 <= i < |packed| && u in packed[i].members :: UnderAny(u, packable)
    requires forall a, l: nat, e | a in packable && PinnedDir(groups, l, e) :: !Comparable(a, e)
    ensures Layout(groups, catchAll, Joined(blocks) + packed, Roots(groups, blocks))
  {
    var planned, root := Joined(blocks) + packed, Roots(groups, blocks);
    BlocksNumbered(groups, blocks);
    JoinedNumbers(blocks);
    JoinedPlain(blocks);
    PlainConcat(Joined(blocks), packed);
    PackedStretch(blocks, packed);
    BlockIsFamily(groups, catchAll, planned, None, |Joined(blocks)|, packed);
    forall k: nat | Pins(groups, k)
      ensures Family(groups, catchAll, planned, Some(k), root[Some(k)]) && Whole(groups, planned, k, root[Some(k)])
    {
      assert GroupOk(groups, k, blocks[k]);
      PinnedStretch(blocks, packed, k);
      BlockIsFamily(groups, catchAll, planned, Some(k), StartOf(blocks, k), blocks[k]);
      BlockIsWhole(groups, planned, k, StartOf(blocks, k), blocks[k]);
    }
    PackedApart(groups, packable, blocks, packed);
  }

  lemma PlainConcat(a: seq<Planned>, b: seq<Planned>)
    requires PlainShards(a) && PlainShards(b)
    ensures PlainShards(a + b)
  {
  }

  lemma PackedApart(groups: seq<Group>, packable: seq<string>, blocks: seq<seq<Planned>>, packed: seq<Planned>)
    requires NumberedBlocks(blocks)
    requires forall i | 0 <= i < |packed| :: packed[i].group == None
    requires forall i, u | 0 <= i < |packed| && u in packed[i].members :: UnderAny(u, packable)
    requires forall a, l: nat, e | a in packable && PinnedDir(groups, l, e) :: !Comparable(a, e)
    ensures forall i: nat, u, k: nat, d | In(groups, Joined(blocks) + packed, i, None)
      && u in (Joined(blocks) + packed)[i].members && PinnedDir(groups, k, d) :: !Comparable(u, d)
  {
    var planned := Joined(blocks) + packed;
    JoinedNumbers(blocks);
    forall i: nat, u, k: nat, d | In(groups, planned, i, None) && u in planned[i].members && PinnedDir(groups, k, d)
      ensures !Comparable(u, d)
    {
      assert i >= |Joined(blocks)|;
      PackedAwayFromPinned(groups, packable, u, k, d);
    }
  }

  lemma SameNamesArePacked(groups: seq<Group>, blocks: seq<seq<Planned>>, packed: seq<Planned>)
    requires AllGroupsOk(groups, blocks) && NumberedBlocks(blocks) && packed != []
    requires forall i | 0 <= i < |packed| :: packed[i].group == None
    requires !NamesApart(groups, Joined(blocks) + packed, Roots(groups, blocks))
    ensures exists i :: 1 <= i < |packed| && packed[i].name == packed[0].name
  {
    var planned, root := Joined(blocks) + packed, Roots(groups, blocks);
    var start := |Joined(blocks)|;
    var family: Option<nat>, i: nat :| IsFamily(groups, family) && family in root && root[family] < |planned|
      && In(groups, planned, i, family) && i != root[family] && planned[i].members != []
      && planned[i].name == planned[root[family]].name;
    if family.Some? {
      PinnedNamesDiffer(groups, blocks, packed, family.value, i);
    }
    PackedMember(groups, blocks, packed, i);
    assert root[None] == start && packed[i - start].name == packed[0].name;
  }

  lemma PinnedNamesDiffer(groups: seq<Group>, blocks: seq<seq<Planned>>, packed: seq<Planned>, k: nat, i: nat)
    requires AllGroupsOk(groups, blocks) && NumberedBlocks(blocks) && Pins(groups, k)
    requires forall i | 0 <= i < |packed| :: packed[i].group == None
    requires In(groups, Joined(blocks) + packed, i, Some(k)) && i != StartOf(blocks, k)
    ensures StartOf(blocks, k) < |Joined(blocks) + packed|
    ensures (Joined(blocks) + packed)[i].name != (Joined(blocks) + packed)[StartOf(blocks, k)].name
  {
    PinnedStretch(blocks, packed, k);
    assert GroupOk(groups, k, blocks[k]);
    BlockIsWhole(groups, Joined(blocks) + packed, k, StartOf(blocks, k), blocks[k]);
  }

  lemma PackedMember(groups: seq<Group>, blocks: seq<seq<Planned>>, packed: seq<Planned>, i: nat)
    requires NumberedBlocks(blocks) && packed != []
    requires forall i | 0 <= i < |packed| :: packed[i].group == None
    requires In(groups, Joined(blocks) + packed, i, None)
    ensures |Joined(blocks)| <= i && (Joined(blocks) + packed)[i] == packed[i - |Joined(blocks)|]
    ensures (Joined(blocks) + packed)[|Joined(blocks)|] == packed[0]
  {
    PackedStretch(blocks, packed);
  }

  /** Only the packed shards' names can fall together. */
  lemma NamesApartIffPackedApart(groups: seq<Group>, blocks: seq<seq<Planned>>, packed: seq<Planned>)
    requires AllGroupsOk(groups, blocks) && packed != []
    requires forall i | 0 <= i < |packed| :: packed[i].group == None && packed[i].members != []
    ensures NamesApart(groups, Joined(blocks) + packed, Roots(groups, blocks)) <==>
      forall i | 1 <= i < |packed| :: packed[i].name != packed[0].name
  {
    var planned, root := Joined(blocks) + packed, Roots(groups, blocks);
    var start := |Joined(blocks)|;
    BlocksNumbered(groups, blocks);
    if NamesApart(groups, planned, root) {
      PackedStretch(blocks, packed);
      assert IsFamily(groups, None) && root[None] == start && planned[start] == packed[0];
      forall i | 1 <= i < |packed| ensures packed[i].name != packed[0].name {
        assert planned[start + i] == packed[i] && In(groups, planned, start + i, None);
      }
    } else {
      SameNamesArePacked(groups, blocks, packed);
    }
  }
}
