/** Every path has one collector. */
module ShardingTheorems {
  // Under the catch-all roots, measured or not, a path is collected by exactly one shard that is not an
  // overlay, exactly when no shard shares its name with the roots shard of its own family. A family is a
  // pinned group's shards, or the packed shards.

  import opened Options
  import opened Paths
  import opened Collection
  import opened Sharding

  /** A pinned group that claims its directories. */
  ghost predicate Pins(groups: seq<Group>, k: nat) {
    k < |groups| && !groups[k].overlay
  }

  ghost predicate PinnedDir(groups: seq<Group>, k: nat, d: string) {
    Pins(groups, k) && d in groups[k].dirs
  }

  /** What the pinned list has to be like: no directory in two groups, none inside another of its own
      group, and none of another group's inside a group that spans several shards. */
  ghost predicate Config(groups: seq<Group>, catchAll: seq<string>) {
    && Antichain(catchAll)
    && (forall k: nat, d | PinnedDir(groups, k, d) :: UnderAny(d, catchAll))
    && (forall k: nat | Pins(groups, k) :: groups[k].dirs != [] && Antichain(groups[k].dirs))
    && (forall k: nat, l: nat, d, e | PinnedDir(groups, k, d) && PinnedDir(groups, l, e) && k != l :: d != e)
    && (forall k: nat, l: nat, d, e | PinnedDir(groups, k, d) && PinnedDir(groups, l, e) && k != l && groups[k].bins != 1 ::
          !Below(e, d))
  }

  ghost function FamilyRoots(groups: seq<Group>, catchAll: seq<string>, family: Option<nat>): seq<string>
    requires family.Some? ==> family.value < |groups|
  {
    if family.Some? then groups[family.value].dirs else catchAll
  }

  /** Shard `i` is one of the family's. */
  ghost predicate In(groups: seq<Group>, planned: seq<Planned>, i: nat, family: Option<nat>) {
    i < |planned| && planned[i].group == family && !IsOverlay(groups, planned[i])
  }

  ghost predicate IsFamily(groups: seq<Group>, family: Option<nat>) {
    family.Some? ==> Pins(groups, family.value)
  }

  /** One family's shards: one holds the roots, members lie under them and never hold one another. */
  ghost predicate Family(groups: seq<Group>, catchAll: seq<string>, planned: seq<Planned>, family: Option<nat>, root: nat)
    requires family.Some? ==> family.value < |groups|
  {
    var roots := FamilyRoots(groups, catchAll, family);
    && In(groups, planned, root, family) && planned[root].roots != []
    && (forall r :: r in planned[root].roots <==> r in roots)
    && (forall i: nat | In(groups, planned, i, family) && i != root :: planned[i].roots == [])
    && (forall i: nat, m | In(groups, planned, i, family) && m in planned[i].members :: UnderAny(m, roots))
    && (forall i: nat, j: nat, a, b | In(groups, planned, i, family) && In(groups, planned, j, family)
                            && a in planned[i].members && b in planned[j].members && (i != j || a != b) ::
          !Comparable(a, b))
  }

  /** A pinned group with one bin is one shard holding the group's directories whole. */
  ghost predicate Whole(groups: seq<Group>, planned: seq<Planned>, k: nat, root: nat) {
    && Pins(groups, k)
    && (groups[k].bins == 1 ==>
          && (forall i: nat | In(groups, planned, i, Some(k)) :: i == root)
          && (forall i: nat, m | In(groups, planned, i, Some(k)) && m in planned[i].members :: m in groups[k].dirs))
  }

  /** What planning leaves behind; `root` is the place of each family's roots shard. */
  ghost predicate Layout(groups: seq<Group>, catchAll: seq<string>, planned: seq<Planned>, root: map<Option<nat>, nat>) {
    && Config(groups, catchAll)
    && AllPlain(groups, planned)
    && (forall i: nat | 0 <= i < |planned| && planned[i].group.Some? :: planned[i].group.value < |groups|)
    && (forall family | IsFamily(groups, family) :: family in root && Family(groups, catchAll, planned, family, root[family]))
    && (forall k: nat | Pins(groups, k) :: Whole(groups, planned, k, root[Some(k)]))
    && (forall i: nat, m, k: nat, d | In(groups, planned, i, None) && m in planned[i].members && PinnedDir(groups, k, d) ::
          !Comparable(m, d))
  }

  /** No shard with members shares its name with the roots shard of its family. */
  ghost predicate NamesApart(groups: seq<Group>, planned: seq<Planned>, root: map<Option<nat>, nat>) {
    forall family, i: nat | IsFamily(groups, family) && family in root && root[family] < |planned|
      && In(groups, planned, i, family) && i != root[family] && planned[i].members != [] ::
      planned[i].name != planned[root[family]].name
  }

  /** Shard `i`, and no other that is not an overlay, collects `path`. */
  ghost predicate OnlyTaker(groups: seq<Group>, planned: seq<Planned>, path: string, i: nat) {
    Takes(groups, planned, i, path) && forall j: nat | Takes(groups, planned, j, path) :: j == i
  }

  // ---- Which family a path belongs to

  /** Nothing outside the family has a claim that would make its roots shard give `path` away. */
  ghost predicate Owned(groups: seq<Group>, catchAll: seq<string>, planned: seq<Planned>, family: Option<nat>, path: string)
    requires family.Some? ==> family.value < |groups|
  {
    var roots := FamilyRoots(groups, catchAll, family);
    && UnderAny(path, roots)
    && (forall k: nat, d | PinnedDir(groups, k, d) && family != Some(k) && Under(path, d) :: !UnderAny(d, roots))
    && (forall j: nat, q | 0 <= j < |planned| && !IsOverlay(groups, planned[j]) && planned[j].group != family
                      && q in planned[j].members && Under(path, q) :: !UnderAny(q, roots))
  }

  /** No shard of another family collects `path`. */
  ghost predicate Foreign(groups: seq<Group>, planned: seq<Planned>, family: Option<nat>, path: string) {
    forall j: nat | 0 <= j < |planned| && planned[j].group != family :: !Covers(groups, planned, j, path)
  }

  /** The innermost of the pinned directories that hold `path`. */
  ghost predicate Innermost(groups: seq<Group>, path: string, k: nat, d: string) {
    && PinnedDir(groups, k, d) && Under(path, d)
    && forall l: nat, e | PinnedDir(groups, l, e) && Under(path, e) :: |e| <= |d|
  }

  lemma {:induction false} LongestHolding(dirs: seq<string>, path: string) returns (d: string)
    requires UnderAny(path, dirs)
    ensures d in dirs && Under(path, d)
    ensures forall e | e in dirs && Under(path, e) :: |e| <= |d|
  {
    if |dirs| == 1 || !UnderAny(path, dirs[1..]) {
      d := dirs[0];
    } else {
      d := LongestHolding(dirs[1..], path);
      if Under(path, dirs[0]) && |dirs[0]| > |d| {
        d := dirs[0];
      }
    }
  }

  lemma {:induction false} FindInnermost(groups: seq<Group>, path: string, n: nat) returns (k: nat, d: string)
    requires n <= |groups| && exists l: nat, e :: l < n && PinnedDir(groups, l, e) && Under(path, e)
    ensures k < n && PinnedDir(groups, k, d) && Under(path, d)
    ensures forall l: nat, e | l < n && PinnedDir(groups, l, e) && Under(path, e) :: |e| <= |d|
  {
    var m := n - 1;
    var below := exists l: nat, e :: l < m && PinnedDir(groups, l, e) && Under(path, e);
    if below {
      k, d := FindInnermost(groups, path, m);
    }
    if Pins(groups, m) && UnderAny(path, groups[m].dirs) {
      var e := LongestHolding(groups[m].dirs, path);
      if !below || |e| > |d| {
        k, d := m, e;
      }
    }
  }

  /** Another pinned directory that holds the path holds the innermost one too. */
  lemma InnermostInside(groups: seq<Group>, catchAll: seq<string>, path: string, k: nat, d: string, l: nat, e: string)
    requires Config(groups, catchAll) && Innermost(groups, path, k, d)
    requires PinnedDir(groups, l, e) && Under(path, e) && l != k
    ensures Below(d, e)
  {
    UnderComparable(path, d, e);
    assert d != e && |e| <= |d|;
    if Under(e, d) {
      UnderLonger(e, d);
    }
  }

  /** A path with a pinned directory around it is owned by the innermost one's group. */
  lemma InnermostOwns(groups: seq<Group>, catchAll: seq<string>, planned: seq<Planned>, root: map<Option<nat>, nat>,
                      path: string, k: nat, d: string)
    requires Layout(groups, catchAll, planned, root) && Innermost(groups, path, k, d)
    ensures Owned(groups, catchAll, planned, Some(k), path)
  {
    var roots := groups[k].dirs;
    assert UnderAny(path, roots);
    forall l: nat, e | PinnedDir(groups, l, e) && Some(k) != Some(l) && Under(path, e) ensures !UnderAny(e, roots) {
      InnermostInside(groups, catchAll, path, k, d, l, e);
      NotAround(roots, d, e);
    }
    forall j: nat, q | 0 <= j < |planned| && !IsOverlay(groups, planned[j]) && planned[j].group != Some(k)
      && q in planned[j].members && Under(path, q)
      ensures !UnderAny(q, roots)
    {
      OutsideMember(groups, catchAll, planned, root, path, k, d, j, q);
      if planned[j].group.Some? {
        NotAround(roots, d, q);
      }
    }
  }

  /** Something around a directory is not under any of that directory's siblings. */
  lemma NotAround(roots: seq<string>, d: string, e: string)
    requires Antichain(roots) && d in roots && Below(d, e)
    ensures !UnderAny(e, roots)
  {
    if r :| r in roots && Under(e, r) {
      UnderTransitive(d, e, r);
      UnderLonger(d, e);
      ApartMembers(roots, d, r);
      UnderLonger(e, r);
    }
  }

  /** A member of another family around the path can only be a whole pinned directory, and then it
      holds the innermost one. */
  lemma OutsideMember(groups: seq<Group>, catchAll: seq<string>, planned: seq<Planned>, root: map<Option<nat>, nat>,
                      path: string, k: nat, d: string, j: nat, q: string)
    requires Layout(groups, catchAll, planned, root) && Innermost(groups, path, k, d)
    requires j < |planned| && !IsOverlay(groups, planned[j]) && planned[j].group != Some(k)
    requires q in planned[j].members && Under(path, q)
    ensures planned[j].group.Some? && groups[planned[j].group.value].bins == 1 && Below(d, q)
  {
    var family := planned[j].group;
    assert In(groups, planned, j, family);
    if family.None? {
      assert !Comparable(q, d);
      UnderComparable(path, q, d);
    } else {
      var l := family.value;
      assert Pins(groups, l) && IsFamily(groups, family);
      assert Family(groups, catchAll, planned, family, root[family]);
      assert UnderAny(q, FamilyRoots(groups, catchAll, family));
      var r :| r in groups[l].dirs && Under(q, r);
      assert PinnedDir(groups, l, r);
      UnderTransitive(path, q, r);
      InnermostInside(groups, catchAll, path, k, d, l, r);
      if groups[l].bins == 1 {
        assert Whole(groups, planned, l, root[family]);
        assert q in groups[l].dirs;
        assert PinnedDir(groups, l, q);
        InnermostInside(groups, catchAll, path, k, d, l, q);
      }
    }
  }

  /** Around an innermost directory only its own group's shards collect. */
  lemma InnermostForeign(groups: seq<Group>, catchAll: seq<string>, planned: seq<Planned>, root: map<Option<nat>, nat>,
                         path: string, k: nat, d: string, j: nat)
    requires Layout(groups, catchAll, planned, root) && Innermost(groups, path, k, d)
    requires j < |planned| && planned[j].group != Some(k)
    ensures !Covers(groups, planned, j, path)
  {
    if !IsOverlay(groups, planned[j]) {
      var family := planned[j].group;
      assert In(groups, planned, j, family) && IsFamily(groups, family);
      assert Family(groups, catchAll, planned, family, root[family]);
      if planned[j].roots == [] {
        NoMemberAround(groups, catchAll, planned, root, path, k, d, j);
      } else if UnderAny(path, planned[j].roots) {
        RootsGiveAway(groups, catchAll, planned, root, path, k, d, j);
      }
    }
  }

  /** A shard that names its members has none around a path of another family. */
  lemma NoMemberAround(groups: seq<Group>, catchAll: seq<string>, planned: seq<Planned>, root: map<Option<nat>, nat>,
                       path: string, k: nat, d: string, j: nat)
    requires Layout(groups, catchAll, planned, root) && Innermost(groups, path, k, d)
    requires j < |planned| && planned[j].group != Some(k) && !IsOverlay(groups, planned[j]) && planned[j].roots == []
    ensures !UnderAny(path, planned[j].members)
  {
    if q :| q in planned[j].members && Under(path, q) {
      var family := planned[j].group;
      assert In(groups, planned, j, family) && IsFamily(groups, family);
      assert Family(groups, catchAll, planned, family, root[family]) && j != root[family];
      if family.Some? {
        assert Whole(groups, planned, family.value, root[family]);
      }
      OutsideMember(groups, catchAll, planned, root, path, k, d, j, q);
    }
  }

  /** A roots shard of another family gives the innermost directory away. */
  lemma RootsGiveAway(groups: seq<Group>, catchAll: seq<string>, planned: seq<Planned>, root: map<Option<nat>, nat>,
                      path: string, k: nat, d: string, j: nat)
    requires Layout(groups, catchAll, planned, root) && Innermost(groups, path, k, d)
    requires j < |planned| && planned[j].group != Some(k) && !IsOverlay(groups, planned[j])
    requires planned[j].roots != [] && UnderAny(path, planned[j].roots)
    ensures GivesAway(groups, planned, j, d)
  {
    var family := planned[j].group;
    assert In(groups, planned, j, family) && IsFamily(groups, family);
    assert Family(groups, catchAll, planned, family, root[family]) && j == root[family];
    assert Claims(groups, planned, j, d);
    if family.None? {
      assert UnderAny(d, catchAll);
      assert d in planned[j].members ==> !Comparable(d, d);
    } else {
      var l := family.value;
      var r :| r in groups[l].dirs && Under(path, r);
      assert PinnedDir(groups, l, r);
      InnermostInside(groups, catchAll, path, k, d, l, r);
      assert Whole(groups, planned, l, root[family]);
      assert groups[l].bins == 1;
      assert d in groups[l].dirs ==> PinnedDir(groups, l, d);
    }
  }

  /** With no pinned directory around it, a path belongs to the packed family. */
  lemma PackedOwns(groups: seq<Group>, catchAll: seq<string>, planned: seq<Planned>, root: map<Option<nat>, nat>, path: string)
    requires Layout(groups, catchAll, planned, root) && UnderAny(path, catchAll)
    requires forall k: nat, d | PinnedDir(groups, k, d) :: !Under(path, d)
    ensures Owned(groups, catchAll, planned, None, path) && Foreign(groups, planned, None, path)
  {
    forall j: nat, q | j < |planned| && !IsOverlay(groups, planned[j]) && planned[j].group != None
      && (q in planned[j].members || q in planned[j].roots)
      ensures !Under(path, q)
    {
      var family := planned[j].group;
      assert In(groups, planned, j, family) && IsFamily(groups, family);
      assert Family(groups, catchAll, planned, family, root[family]);
      var r;
      if q in planned[j].members {
        assert UnderAny(q, FamilyRoots(groups, catchAll, family));
        r :| r in groups[family.value].dirs && Under(q, r);
      } else {
        r := q;
      }
      assert PinnedDir(groups, family.value, r);
      if Under(path, q) {
        UnderTransitive(path, q, r);
      }
    }
  }

  /** Inside the family that owns it, a path has exactly one collector. */
  lemma OwnerCollects(groups: seq<Group>, catchAll: seq<string>, planned: seq<Planned>, root: map<Option<nat>, nat>,
                      family: Option<nat>, path: string) returns (i: nat)
    requires Layout(groups, catchAll, planned, root) && IsFamily(groups, family) && NamesApart(groups, planned, root)
    requires Owned(groups, catchAll, planned, family, path)
    ensures Covers(groups, planned, i, path)
    ensures forall j: nat | Covers(groups, planned, j, path) && planned[j].group == family :: j == i
  {
    var r := root[family];
    var roots := FamilyRoots(groups, catchAll, family);
    assert Family(groups, catchAll, planned, family, r);
    SameCover(path, planned[r].roots, roots);
    if exists j: nat, m :: In(groups, planned, j, family) && j != r && m in planned[j].members && Under(path, m) {
      var m;
      i, m :| In(groups, planned, i, family) && i != r && m in planned[i].members && Under(path, m);
      MemberGivenAway(groups, catchAll, planned, root, family, i, m);
      forall j: nat | Covers(groups, planned, j, path) && planned[j].group == family ensures j == i {
        assert In(groups, planned, j, family) && j != r;
        var n :| n in planned[j].members && Under(path, n);
        UnderComparable(path, m, n);
      }
    } else {
      i := r;
      forall q | GivesAway(groups, planned, r, q) ensures !Under(path, q) {
        SameCover(q, planned[r].roots, roots);
        if Under(path, q) {
          OnlyOutsideClaims(groups, planned, r, family, q);
        }
      }
    }
  }

  /** A roots shard gives away what a differently named shard of its family holds. */
  lemma MemberGivenAway(groups: seq<Group>, catchAll: seq<string>, planned: seq<Planned>, root: map<Option<nat>, nat>,
                        family: Option<nat>, j: nat, m: string)
    requires Layout(groups, catchAll, planned, root) && IsFamily(groups, family) && NamesApart(groups, planned, root)
    requires In(groups, planned, j, family) && j != root[family] && m in planned[j].members
    ensures GivesAway(groups, planned, root[family], m)
  {
    var r := root[family];
    assert Family(groups, catchAll, planned, family, r);
    assert planned[j].name != planned[r].name;
    assert Claims(groups, planned, r, m);
    assert m in planned[r].members ==> !Comparable(m, m);
    SameCover(m, planned[r].roots, FamilyRoots(groups, catchAll, family));
  }

  /** A claim on what the roots shard does not hold comes from its own family or from outside. */
  lemma OnlyOutsideClaims(groups: seq<Group>, planned: seq<Planned>, r: nat, family: Option<nat>, q: string)
    requires In(groups, planned, r, family) && Claims(groups, planned, r, q)
    ensures || (exists j: nat :: In(groups, planned, j, family) && j != r && q in planned[j].members)
            || (exists k: nat :: PinnedDir(groups, k, q) && family != Some(k))
            || (exists j: nat :: j < |planned| && !IsOverlay(groups, planned[j]) && planned[j].group != family
                  && q in planned[j].members)
  {
    if j: nat :| j < |planned| && planned[j].name != planned[r].name && !IsOverlay(groups, planned[j]) && q in planned[j].members {
      if planned[j].group == family {
        assert In(groups, planned, j, family) && j != r;
      }
    } else {
      var l: nat :| l < |groups| && planned[r].group != Some(l) && !groups[l].overlay && q in groups[l].dirs;
      assert PinnedDir(groups, l, q);
    }
  }

  /** Every path under the catch-all roots, measured or not, is collected by exactly one shard. */
  lemma CollectedOnce(groups: seq<Group>, catchAll: seq<string>, planned: seq<Planned>, root: map<Option<nat>, nat>, path: string)
    returns (i: nat)
    requires Layout(groups, catchAll, planned, root) && NamesApart(groups, planned, root)
    requires UnderAny(path, catchAll)
    ensures OnlyTaker(groups, planned, path, i)
  {
    var family: Option<nat> := None;
    if exists k: nat, d :: k < |groups| && PinnedDir(groups, k, d) && Under(path, d) {
      var k, d := FindInnermost(groups, path, |groups|);
      InnermostOwns(groups, catchAll, planned, root, path, k, d);
      family := Some(k);
      forall j: nat | j < |planned| && planned[j].group != family ensures !Covers(groups, planned, j, path) {
        InnermostForeign(groups, catchAll, planned, root, path, k, d, j);
      }
    } else {
      forall k: nat, d | PinnedDir(groups, k, d) ensures !Under(path, d) {
        assert k < |groups|;
      }
      PackedOwns(groups, catchAll, planned, root, path);
    }
    i := OwnerCollects(groups, catchAll, planned, root, family, path);
    forall j: nat | j < |planned| ensures Takes(groups, planned, j, path) <==> Covers(groups, planned, j, path) {
      TakesIsCovers(groups, planned, j, path);
    }
  }

  // ---- The condition is exact

  /** When a shard shares its roots shard's name, each of its members is collected by both. */
  lemma SameNameCollectsTwice(groups: seq<Group>, catchAll: seq<string>, planned: seq<Planned>, root: map<Option<nat>, nat>,
                              family: Option<nat>, j: nat, m: string)
    requires Layout(groups, catchAll, planned, root) && IsFamily(groups, family)
    requires In(groups, planned, j, family) && j != root[family] && m in planned[j].members
    requires planned[j].name == planned[root[family]].name
    ensures UnderAny(m, catchAll)
    ensures Takes(groups, planned, j, m) && Takes(groups, planned, root[family], m)
  {
    var r := root[family];
    assert Family(groups, catchAll, planned, family, r);
    assert Under(m, m) && UnderAny(m, FamilyRoots(groups, catchAll, family));
    if family.Some? {
      assert Whole(groups, planned, family.value, r);
      var d :| d in groups[family.value].dirs && Under(m, d);
      assert PinnedDir(groups, family.value, d);
      var top :| top in catchAll && Under(d, top);
      UnderTransitive(m, d, top);
    }
    forall q | GivesAway(groups, planned, r, q) ensures !Under(m, q) {
      if Under(m, q) {
        if family.Some? {
          PinnedNotGivenAway(groups, catchAll, planned, root, family.value, j, m, q);
        } else {
          PackedNotGivenAway(groups, catchAll, planned, root, j, m, q);
        }
      }
    }
    TakesIsCovers(groups, planned, j, m);
    TakesIsCovers(groups, planned, r, m);
  }

  lemma PackedNotGivenAway(groups: seq<Group>, catchAll: seq<string>, planned: seq<Planned>, root: map<Option<nat>, nat>,
                           j: nat, m: string, q: string)
    requires Layout(groups, catchAll, planned, root)
    requires In(groups, planned, j, None) && j != root[None] && m in planned[j].members
    requires planned[j].name == planned[root[None]].name && Claims(groups, planned, root[None], q)
    ensures !Under(m, q)
  {
    var r := root[None];
    assert IsFamily(groups, None) && Family(groups, catchAll, planned, None, r);
    if i: nat :| i < |planned| && planned[i].name != planned[r].name && !IsOverlay(groups, planned[i]) && q in planned[i].members {
      var h := planned[i].group;
      assert In(groups, planned, i, h);
      if h == None {
        assert !Comparable(q, m);
      } else {
        assert IsFamily(groups, h) && Family(groups, catchAll, planned, h, root[h]);
        assert UnderAny(q, FamilyRoots(groups, catchAll, h));
        var e :| e in groups[h.value].dirs && Under(q, e);
        assert PinnedDir(groups, h.value, e) && !Comparable(m, e);
        if Under(m, q) {
          UnderTransitive(m, q, e);
        }
      }
    } else {
      var l: nat :| l < |groups| && planned[r].group != Some(l) && !groups[l].overlay && q in groups[l].dirs;
      assert PinnedDir(groups, l, q) && !Comparable(m, q);
    }
  }

  /** Two paths around one path lie under the same root of a family. */
  lemma SameRoot(roots: seq<string>, m: string, d: string, q: string)
    requires Antichain(roots) && d in roots && Under(m, d) && Under(m, q) && UnderAny(q, roots)
    ensures Under(q, d)
  {
    var d' :| d' in roots && Under(q, d');
    UnderTransitive(m, q, d');
    ApartMembers(roots, d, d');
    UnderComparable(m, d, d');
  }

  lemma PinnedNotGivenAway(groups: seq<Group>, catchAll: seq<string>, planned: seq<Planned>, root: map<Option<nat>, nat>,
                           k: nat, j: nat, m: string, q: string)
    requires Layout(groups, catchAll, planned, root) && Pins(groups, k)
    requires In(groups, planned, j, Some(k)) && j != root[Some(k)] && m in planned[j].members
    requires planned[j].name == planned[root[Some(k)]].name && GivesAway(groups, planned, root[Some(k)], q)
    ensures !Under(m, q)
  {
    var r := root[Some(k)];
    assert Family(groups, catchAll, planned, Some(k), r) && Whole(groups, planned, k, r);
    assert UnderAny(m, FamilyRoots(groups, catchAll, Some(k)));
    var d :| d in groups[k].dirs && Under(m, d);
    assert PinnedDir(groups, k, d);
    var away;
    if i: nat :| i < |planned| && planned[i].name != planned[r].name && !IsOverlay(groups, planned[i]) && q in planned[i].members {
      away := planned[i].group != Some(k);
      if away {
        OtherFamilyAway(groups, catchAll, planned, root, k, d, i, q);
      } else {
        assert In(groups, planned, i, Some(k)) && !Comparable(q, m);
      }
    } else {
      var l: nat :| l < |groups| && planned[r].group != Some(l) && !groups[l].overlay && q in groups[l].dirs;
      assert PinnedDir(groups, l, q) && q != d && !Below(q, d);
      away := true;
    }
    if away && Under(m, q) {
      SameRoot(groups[k].dirs, m, d, q);
    }
  }

  /** Members of another family stay out of a group that spans several shards. */
  lemma OtherFamilyAway(groups: seq<Group>, catchAll: seq<string>, planned: seq<Planned>, root: map<Option<nat>, nat>,
                        k: nat, d: string, i: nat, q: string)
    requires Layout(groups, catchAll, planned, root) && PinnedDir(groups, k, d) && groups[k].bins != 1
    requires i < |planned| && !IsOverlay(groups, planned[i]) && planned[i].group != Some(k) && q in planned[i].members
    ensures !Under(q, d)
  {
    var h := planned[i].group;
    assert In(groups, planned, i, h) && IsFamily(groups, h) && Family(groups, catchAll, planned, h, root[h]);
    if h.None? {
      assert !Comparable(q, d);
    } else if Under(q, d) {
      var l := h.value;
      assert Whole(groups, planned, l, root[h]);
      assert UnderAny(q, FamilyRoots(groups, catchAll, h));
      var e :| e in groups[l].dirs && Under(q, e);
      assert PinnedDir(groups, l, e) && e != d && !Below(e, d);
      assert groups[l].bins == 1 ==> PinnedDir(groups, l, q) && q != d && !Below(q, d);
      assert groups[l].bins != 1 ==> !Below(d, e);
      UnderComparable(q, d, e);
    }
  }

  /** The planner's promise, and exactly when it holds: every path under the catch-all roots has one
      collector if and only if no shard is named like the roots shard it is subtracted from. */
  lemma CollectedOnceIffNamesApart(groups: seq<Group>, catchAll: seq<string>, planned: seq<Planned>, root: map<Option<nat>, nat>)
    requires Layout(groups, catchAll, planned, root)
    ensures (forall path | UnderAny(path, catchAll) :: exists i: nat :: OnlyTaker(groups, planned, path, i))
            <==> NamesApart(groups, planned, root)
  {
    if NamesApart(groups, planned, root) {
      forall path | UnderAny(path, catchAll) ensures exists i: nat :: OnlyTaker(groups, planned, path, i) {
        var i := CollectedOnce(groups, catchAll, planned, root, path);
      }
    } else {
      var family: Option<nat>, j: nat :| IsFamily(groups, family) && family in root && root[family] < |planned|
        && In(groups, planned, j, family) && j != root[family] && planned[j].members != []
        && planned[j].name == planned[root[family]].name;
      var m := planned[j].members[0];
      SameNameCollectsTwice(groups, catchAll, planned, root, family, j, m);
      assert forall i: nat :: !OnlyTaker(groups, planned, m, i);
    }
  }

  // ---- Nothing measured is counted twice or dropped

  /** Seconds of the measured files shard `i` collects: what its line in the plan reports. */
  ghost function Serial(takes: (nat, string) -> bool, leaves: seq<string>, seconds: map<string, real>, i: nat): real
    requires forall leaf | leaf in leaves :: leaf in seconds
  {
    if leaves == [] then 0.0
    else Serial(takes, leaves[1..], seconds, i) + if takes(i, leaves[0]) then seconds[leaves[0]] else 0.0
  }

  ghost function SerialOfFirst(takes: (nat, string) -> bool, leaves: seq<string>, seconds: map<string, real>, n: nat): real
    requires forall leaf | leaf in leaves :: leaf in seconds
  {
    if n == 0 then 0.0 else SerialOfFirst(takes, leaves, seconds, n - 1) + Serial(takes, leaves, seconds, n - 1)
  }

  ghost function SumOf(leaves: seq<string>, seconds: map<string, real>): real
    requires forall leaf | leaf in leaves :: leaf in seconds
  {
    if leaves == [] then 0.0 else SumOf(leaves[1..], seconds) + seconds[leaves[0]]
  }

  lemma {:induction false} OneLeafMore(takes: (nat, string) -> bool, leaves: seq<string>, seconds: map<string, real>, n: nat, i: nat)
    requires leaves != [] && (forall leaf | leaf in leaves :: leaf in seconds)
    requires forall j: nat :: takes(j, leaves[0]) <==> j == i
    ensures SerialOfFirst(takes, leaves, seconds, n) ==
            SerialOfFirst(takes, leaves[1..], seconds, n) + if i < n then seconds[leaves[0]] else 0.0
  {
    if n > 0 {
      OneLeafMore(takes, leaves, seconds, n - 1, i);
    }
  }

  lemma {:induction false} NoLeaves(takes: (nat, string) -> bool, seconds: map<string, real>, n: nat)
    ensures SerialOfFirst(takes, [], seconds, n) == 0.0
  {
    if n > 0 {
      NoLeaves(takes, seconds, n - 1);
    }
  }

  ghost function TakesOf(groups: seq<Group>, planned: seq<Planned>): (nat, string) -> bool {
    (i: nat, path) => Takes(groups, planned, i, path)
  }

  /** The shards' reported seconds, overlays aside, add up to the seconds of the measured files. */
  lemma {:induction false} ReportedSecondsAddUp(groups: seq<Group>, catchAll: seq<string>, planned: seq<Planned>,
                                                root: map<Option<nat>, nat>, leaves: seq<string>, seconds: map<string, real>)
    requires Layout(groups, catchAll, planned, root) && NamesApart(groups, planned, root)
    requires forall leaf | leaf in leaves :: leaf in seconds && UnderAny(leaf, catchAll)
    ensures SerialOfFirst(TakesOf(groups, planned), leaves, seconds, |planned|) == SumOf(leaves, seconds)
    decreases |leaves|
  {
    var takes := TakesOf(groups, planned);
    if leaves == [] {
      NoLeaves(takes, seconds, |planned|);
    } else {
      assert leaves[0] in leaves;
      var i := CollectedOnce(groups, catchAll, planned, root, leaves[0]);
      OneLeafMore(takes, leaves, seconds, |planned|, i);
      ReportedSecondsAddUp(groups, catchAll, planned, root, leaves[1..], seconds);
    }
  }
}
