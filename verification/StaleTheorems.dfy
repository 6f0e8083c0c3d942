/** What a sweep removes, and always leaves. */
module StaleTheorems {
  import opened StaleArtifacts

  // ---- What the groups hold

  predicate IsOf(f: File, key: Key) {
    Match(f.name).Some? && KeyOf(Match(f.name).value) == key
  }

  /** The file is a compilation of the crate and kind under the hash. */
  predicate Is(f: File, key: Key, hash: string) {
    IsOf(f, key) && Match(f.name).value.hash == hash
  }

  function FilesOfUnit(units: seq<Unit>, hash: string): seq<File> {
    if units == [] then [] else if units[0].hash == hash then units[0].files else FilesOfUnit(units[1..], hash)
  }

  function UnitsOf(groups: seq<Group>, key: Key): seq<Unit> {
    if groups == [] then [] else if groups[0].key == key then groups[0].units else UnitsOf(groups[1..], key)
  }

  lemma {:induction false} UnitGains(units: seq<Unit>, hash: string, file: File, h: string)
    ensures FilesOfUnit(AddToUnits(units, hash, file), h) == FilesOfUnit(units, h) + if h == hash then [file] else []
  {
    if units != [] && units[0].hash != hash {
      UnitGains(units[1..], hash, file, h);
    }
  }

  lemma {:induction false} GroupGains(groups: seq<Group>, key: Key, hash: string, file: File, k: Key)
    ensures UnitsOf(AddToGroups(groups, key, hash, file), k) ==
            if k == key then AddToUnits(UnitsOf(groups, k), hash, file) else UnitsOf(groups, k)
  {
    if groups != [] && groups[0].key != key {
      GroupGains(groups[1..], key, hash, file, k);
    }
  }

  function Select(files: seq<File>, key: Key, hash: string): seq<File> {
    if files == [] then []
    else
      var last := files[|files| - 1];
      Select(files[..|files| - 1], key, hash) + if Is(last, key, hash) then [last] else []
  }

  lemma {:induction false} Selected(files: seq<File>, key: Key, hash: string, f: File)
    ensures f in Select(files, key, hash) <==> f in files && Is(f, key, hash)
  {
    if files != [] {
      Selected(files[..|files| - 1], key, hash, f);
      assert files == files[..|files| - 1] + [files[|files| - 1]];
    }
  }

  /** A unit holds exactly its files, in the order they came. */
  lemma {:induction false} UnitsHold(files: seq<File>, key: Key, hash: string)
    ensures FilesOfUnit(UnitsOf(Grouped(files), key), hash) == Select(files, key, hash)
  {
    if files != [] {
      var before, last := files[..|files| - 1], files[|files| - 1];
      UnitsHold(before, key, hash);
      if Match(last.name).Some? {
        var m := Match(last.name).value;
        GroupGains(Grouped(before), KeyOf(m), m.hash, last, key);
        UnitGains(UnitsOf(Grouped(before), key), m.hash, last, hash);
      }
    }
  }

  ghost predicate UniqueHashes(units: seq<Unit>) {
    forall i, j | 0 <= i < j < |units| :: units[i].hash != units[j].hash
  }

  ghost predicate UniqueKeys(groups: seq<Group>) {
    && (forall i, j | 0 <= i < j < |groups| :: groups[i].key != groups[j].key)
    && forall g | g in groups :: UniqueHashes(g.units)
  }

  lemma {:induction false} HashesOf(units: seq<Unit>, hash: string, file: File)
    ensures forall u | u in AddToUnits(units, hash, file) :: u.hash == hash || exists v :: v in units && v.hash == u.hash
  {
    if units != [] {
      assert units[0] in units && forall v | v in units[1..] :: v in units;
      if units[0].hash != hash {
        HashesOf(units[1..], hash, file);
      }
    }
  }

  lemma {:induction false} HashesStayUnique(units: seq<Unit>, hash: string, file: File)
    requires UniqueHashes(units)
    ensures UniqueHashes(AddToUnits(units, hash, file))
  {
    if units != [] && units[0].hash != hash {
      HashesStayUnique(units[1..], hash, file);
      HashesOf(units[1..], hash, file);
      var rest := AddToUnits(units[1..], hash, file);
      forall j | 0 <= j < |rest| ensures units[0].hash != rest[j].hash {
        assert rest[j] in rest;
      }
    }
  }

  lemma {:induction false} KeysStayUnique(groups: seq<Group>, key: Key, hash: string, file: File)
    requires UniqueKeys(groups)
    ensures UniqueKeys(AddToGroups(groups, key, hash, file))
    ensures forall g | g in AddToGroups(groups, key, hash, file) :: g.key == key || exists v :: v in groups && v.key == g.key
  {
    if groups != [] && groups[0].key != key {
      KeysStayUnique(groups[1..], key, hash, file);
      var rest := AddToGroups(groups[1..], key, hash, file);
      forall j | 0 <= j < |rest| ensures groups[0].key != rest[j].key {
        assert rest[j] in rest;
      }
      assert forall v | v in groups[1..] :: v in groups;
      assert groups[0] in groups;
    } else if groups != [] {
      assert groups[0] in groups && forall v | v in groups[1..] :: v in groups;
      HashesStayUnique(groups[0].units, hash, file);
    }
  }

  lemma {:induction false} GroupedUnique(files: seq<File>)
    ensures UniqueKeys(Grouped(files))
  {
    if files != [] {
      var last := files[|files| - 1];
      GroupedUnique(files[..|files| - 1]);
      if Match(last.name).Some? {
        KeysStayUnique(Grouped(files[..|files| - 1]), KeyOf(Match(last.name).value), Match(last.name).value.hash, last);
      }
    }
  }

  // ---- What is swept

  lemma {:induction false} OlderIs(files: seq<File>, cutoff: real, f: File)
    ensures f in Older(files, cutoff) <==> f in files && f.mtime < cutoff
  {
    if files != [] {
      OlderIs(files[1..], cutoff, f);
      assert files == [files[0]] + files[1..];
    }
  }

  lemma {:induction false} OlderOthersIs(units: seq<Unit>, kept: string, cutoff: real, f: File)
    ensures f in OlderOthers(units, kept, cutoff) <==>
            f.mtime < cutoff && exists u :: u in units && u.hash != kept && f in u.files
  {
    if units != [] {
      OlderIs(units[0].files, cutoff, f);
      OlderOthersIs(units[1..], kept, cutoff, f);
      assert units == [units[0]] + units[1..];
    }
  }

  lemma {:induction false} UnitOf(units: seq<Unit>, u: Unit)
    requires UniqueHashes(units) && u in units
    ensures FilesOfUnit(units, u.hash) == u.files
  {
    if units[0] != u {
      var i :| 0 <= i < |units| && units[i] == u;
      assert units[0].hash != units[i].hash;
      UnitOf(units[1..], u);
    }
  }

  lemma {:induction false} UnitWith(units: seq<Unit>, hash: string)
    requires FilesOfUnit(units, hash) != []
    ensures exists u :: u in units && u.hash == hash && u.files == FilesOfUnit(units, hash)
  {
    if units[0].hash == hash {
      assert units[0] in units;
    } else {
      UnitWith(units[1..], hash);
      assert forall u | u in units[1..] :: u in units;
    }
  }

  lemma {:induction false} GroupAt(groups: seq<Group>, g: Group)
    requires UniqueKeys(groups) && g in groups
    ensures UnitsOf(groups, g.key) == g.units
  {
    if groups[0] != g {
      var i :| 0 <= i < |groups| && groups[i] == g;
      assert groups[0].key != groups[i].key;
      GroupAt(groups[1..], g);
    }
  }

  lemma {:induction false} GroupWith(groups: seq<Group>, key: Key)
    requires UnitsOf(groups, key) != []
    ensures exists g :: g in groups && g.key == key && g.units == UnitsOf(groups, key)
  {
    if groups[0].key == key {
      assert groups[0] in groups;
    } else {
      GroupWith(groups[1..], key);
      assert forall g | g in groups[1..] :: g in groups;
    }
  }

  ghost predicate InSomeGroup(groups: seq<Group>, cutoff: real, f: File)
    requires AllNonempty(groups)
  {
    exists g :: g in groups && f in StaleOfGroup(g, cutoff)
  }

  lemma FirstOrLater(groups: seq<Group>, cutoff: real, f: File)
    requires groups != [] && AllNonempty(groups)
    ensures Nonempty(groups[0].units) && AllNonempty(groups[1..])
    ensures InSomeGroup(groups, cutoff, f) <==> f in StaleOfGroup(groups[0], cutoff) || InSomeGroup(groups[1..], cutoff, f)
  {
    assert groups == [groups[0]] + groups[1..];
    assert groups[0] in groups;
  }

  lemma {:induction false} StaleOfGroupsIs(groups: seq<Group>, cutoff: real, f: File)
    requires AllNonempty(groups)
    ensures f in StaleOfGroups(groups, cutoff) <==> InSomeGroup(groups, cutoff, f)
  {
    if groups != [] {
      FirstOrLater(groups, cutoff, f);
      StaleOfGroupsIs(groups[1..], cutoff, f);
    }
  }

  // ---- Main results

  ghost predicate HasFiles(files: seq<File>, key: Key) {
    exists f :: f in files && IsOf(f, key)
  }

  /** Some file under the hash is at least as new as every file of the crate and kind. */
  ghost predicate IsNewest(files: seq<File>, key: Key, hash: string) {
    exists f :: f in files && Is(f, key, hash) && forall g | g in files && IsOf(g, key) :: g.mtime <= f.mtime
  }

  lemma UnitIsSelection(files: seq<File>, key: Key, u: Unit)
    requires u in UnitsOf(Grouped(files), key)
    ensures u.files == Select(files, key, u.hash)
  {
    GroupedUnique(files);
    GroupWith(Grouped(files), key);
    UnitOf(UnitsOf(Grouped(files), key), u);
    UnitsHold(files, key, u.hash);
  }

  lemma UnitOfFile(files: seq<File>, key: Key, f: File)
    requires f in files && IsOf(f, key)
    ensures exists u :: u in UnitsOf(Grouped(files), key) && u.hash == Match(f.name).value.hash && f in u.files
  {
    var hash := Match(f.name).value.hash;
    Selected(files, key, hash, f);
    UnitsHold(files, key, hash);
    UnitWith(UnitsOf(Grouped(files), key), hash);
  }

  lemma UnitsInGroup(files: seq<File>, key: Key)
    requires HasFiles(files, key)
    ensures AllNonempty(Grouped(files))
    ensures exists g :: g in Grouped(files) && g.key == key && g.units == UnitsOf(Grouped(files), key) && g.units != []
  {
    GroupedNonempty(files);
    var f :| f in files && IsOf(f, key);
    UnitOfFile(files, key, f);
    GroupWith(Grouped(files), key);
  }

  /** Whether a file of a group is stale is decided in its own group. */
  lemma StaleInOwnGroup(files: seq<File>, g: Group, cutoff: real, f: File)
    requires AllNonempty(Grouped(files)) && g in Grouped(files) && IsOf(f, g.key)
    ensures f in Stale(files, cutoff) <==> f in StaleOfGroup(g, cutoff)
  {
    var groups := Grouped(files);
    StaleOfGroupsIs(groups, cutoff, f);
    GroupedUnique(files);
    GroupAt(groups, g);
    forall other | other in groups && f in StaleOfGroup(other, cutoff) ensures other == g {
      StaleIsOf(files, other, cutoff, f);
      GroupAt(groups, other);
    }
  }

  lemma StaleIsOf(files: seq<File>, g: Group, cutoff: real, f: File)
    requires Nonempty(g.units) && UniqueKeys(Grouped(files)) && g in Grouped(files) && f in StaleOfGroup(g, cutoff)
    ensures f in files && IsOf(f, g.key) && f.mtime < cutoff
  {
    OlderOthersIs(g.units, g.units[NewestUnit(g.units)].hash, cutoff, f);
    var u :| u in g.units && f in u.files;
    GroupAt(Grouped(files), g);
    UnitIsSelection(files, g.key, u);
    Selected(files, g.key, u.hash, f);
  }

  lemma StaleOfGroupIs(g: Group, cutoff: real, f: File)
    requires Nonempty(g.units) && UniqueHashes(g.units) && g.units != []
    ensures f in StaleOfGroup(g, cutoff) <==>
            f.mtime < cutoff && exists u :: u in g.units && u.hash != g.units[NewestUnit(g.units)].hash && f in u.files
  {
    OlderOthersIs(g.units, g.units[NewestUnit(g.units)].hash, cutoff, f);
    if |g.units| == 1 {
      assert forall u | u in g.units :: u == g.units[0];
    }
  }

  lemma NewestUnitIsNewest(files: seq<File>, key: Key, units: seq<Unit>)
    requires units == UnitsOf(Grouped(files), key) && units != [] && Nonempty(units)
    ensures IsNewest(files, key, units[NewestUnit(units)].hash)
  {
    var u := units[NewestUnit(units)];
    UnitIsSelection(files, key, u);
    var f :| f in u.files && f.mtime == Newest(u.files);
    Selected(files, key, u.hash, f);
    forall g | g in files && IsOf(g, key) ensures g.mtime <= f.mtime {
      UnitOfFile(files, key, g);
      var v :| v in units && g in v.files;
      var i: nat :| i < |units| && units[i] == v;
      assert g.mtime <= Age(units, i) <= Age(units, NewestUnit(units));
    }
  }

  /** Both names are artifacts' of one crate, with the same ending, where all endings in `.rcgu.o` are one. */
  predicate Alike(f: File, g: File) {
    && Match(f.name).Some? && Match(g.name).Some?
    && var a, b := Match(f.name).value, Match(g.name).value;
    && a.crate == b.crate
    && (a.rest == b.rest || (EndsIn(a.rest, ".rcgu.o") && EndsIn(b.rest, ".rcgu.o")))
  }

  predicate EndsIn(s: string, suffix: string) {
    exists k | 0 <= k <= |s| :: s[k..] == suffix
  }

  predicate HasHash(f: File, hash: string) {
    Match(f.name).Some? && Match(f.name).value.hash == hash
  }

  lemma AlikeIff(f: File, g: File)
    requires Match(g.name).Some?
    ensures Alike(f, g) <==> IsOf(f, KeyOf(Match(g.name).value))
  {
    if Match(f.name).Some? {
      EndsInIff(Match(f.name).value.rest);
      EndsInIff(Match(g.name).value.rest);
    }
  }

  lemma EndsInIff(s: string)
    ensures EndsIn(s, ".rcgu.o") <==> EndsWith(s, CODEGEN)
    ensures s == ".rcgu.o" ==> EndsIn(s, ".rcgu.o")
  {
    if EndsWith(s, CODEGEN) {
      assert s[|s| - |CODEGEN|..] == ".rcgu.o";
    }
    assert s[0..] == s;
  }

  /** Of the artifacts alike one another there is one newest hash, and one of them is removed if and only if it is under
      another hash and older than the cutoff. So all files of the newest hash stay, a crate with one hash is left
      alone, and what goes is old and superseded. */
  lemma SweepExactly(files: seq<File>, one: File, cutoff: real) returns (kept: string)
    requires one in files && Match(one.name).Some?
    ensures exists f :: f in files && Alike(f, one) && HasHash(f, kept) && forall g | g in files && Alike(g, one) :: g.mtime <= f.mtime
    ensures forall f | Alike(f, one) ::
              f in Stale(files, cutoff) <==> f in files && !HasHash(f, kept) && f.mtime < cutoff
  {
    var key := KeyOf(Match(one.name).value);
    assert IsOf(one, key);
    kept := SweepOfKey(files, key, cutoff);
    forall f ensures Alike(f, one) <==> IsOf(f, key) {
      AlikeIff(f, one);
    }
    var newest :| newest in files && Is(newest, key, kept) && forall g | g in files && IsOf(g, key) :: g.mtime <= newest.mtime;
  }

  /** For every crate and kind with files. */
  lemma SweepOfKey(files: seq<File>, key: Key, cutoff: real) returns (kept: string)
    requires HasFiles(files, key)
    ensures IsNewest(files, key, kept)
    ensures forall f | IsOf(f, key) ::
              f in Stale(files, cutoff) <==> f in files && !Is(f, key, kept) && f.mtime < cutoff
  {
    UnitsInGroup(files, key);
    var g :| g in Grouped(files) && g.key == key && g.units == UnitsOf(Grouped(files), key) && g.units != [];
    GroupedUnique(files);
    kept := g.units[NewestUnit(g.units)].hash;
    NewestUnitIsNewest(files, key, g.units);
    forall f | IsOf(f, key)
      ensures f in Stale(files, cutoff) <==> f in files && !Is(f, key, kept) && f.mtime < cutoff
    {
      StaleInOwnGroup(files, g, cutoff, f);
      StaleOfGroupIs(g, cutoff, f);
      InOtherUnit(files, g, kept, f);
    }
  }

  lemma InOtherUnit(files: seq<File>, g: Group, kept: string, f: File)
    requires g.units == UnitsOf(Grouped(files), g.key) && IsOf(f, g.key)
    ensures (exists u :: u in g.units && u.hash != kept && f in u.files) <==> f in files && !Is(f, g.key, kept)
  {
    if u :| u in g.units && u.hash != kept && f in u.files {
      UnitIsSelection(files, g.key, u);
      Selected(files, g.key, u.hash, f);
    }
    if f in files {
      UnitOfFile(files, g.key, f);
    }
  }

  /** Only artifacts are swept: a name that does not match is never removed. */
  lemma OnlyArtifactsGo(files: seq<File>, cutoff: real, f: File)
    requires f in Stale(files, cutoff)
    ensures f in files && Match(f.name).Some? && f.mtime < cutoff
  {
    GroupedNonempty(files);
    GroupedUnique(files);
    StaleOfGroupsIs(Grouped(files), cutoff, f);
    var g :| g in Grouped(files) && f in StaleOfGroup(g, cutoff);
    StaleIsOf(files, g, cutoff, f);
  }

  // ---- Where the files swept lie

  lemma {:induction false} PathInIff(directory: Path, files: seq<File>, p: Path)
    ensures p in PathsIn(directory, files) <==> exists f :: f in files && p == directory + [f.name]
  {
    if files != [] {
      PathInIff(directory, files[1..], p);
      assert files == [files[0]] + files[1..];
    }
  }

  /** The path is that of a stale file in one of the profile's two directories. */
  ghost predicate IsStaleIn(target: Path, profile: Profile, cutoff: real, p: Path) {
    || (exists f :: f in Stale(profile.deps, cutoff) && p == target + [profile.name, "deps"] + [f.name])
    || (exists f :: f in Stale(profile.incremental, cutoff) && p == target + [profile.name, "incremental"] + [f.name])
  }

  lemma StaleOfProfileIff(target: Path, profile: Profile, cutoff: real, p: Path)
    ensures p in StaleOfProfile(target, profile, cutoff) <==> IsStaleIn(target, profile, cutoff, p)
  {
    var deps, incremental := Stale(profile.deps, cutoff), Stale(profile.incremental, cutoff);
    PathInIff(target + [profile.name, "deps"], deps, p);
    PathInIff(target + [profile.name, "incremental"], incremental, p);
  }

  /** What is swept of a target directory is what is stale in its profiles' directories. */
  lemma {:induction false} SweptIff(target: Path, profiles: seq<Profile>, cutoff: real, p: Path)
    ensures p in StaleOf(target, profiles, cutoff) <==>
            exists profile :: profile in profiles && IsStaleIn(target, profile, cutoff, p)
  {
    if profiles != [] {
      var first := profiles[0];
      SweptIff(target, profiles[1..], cutoff, p);
      StaleOfProfileIff(target, first, cutoff, p);
      assert StaleOf(target, profiles, cutoff) == StaleOfProfile(target, first, cutoff) + StaleOf(target, profiles[1..], cutoff);
      assert profiles == [first] + profiles[1..];
    }
  }

  // ---- Nothing is swept twice

  ghost predicate Distinct<T>(s: seq<T>) {
    forall i, j | 0 <= i < j < |s| :: s[i] != s[j]
  }

  lemma DistinctConcat<T>(a: seq<T>, b: seq<T>)
    requires Distinct(a) && Distinct(b) && forall x | x in a :: x !in b
    ensures Distinct(a + b)
  {
    forall i, j | 0 <= i < j < |a + b| ensures (a + b)[i] != (a + b)[j] {
      if i < |a| <= j {
        assert a[i] in a && b[j - |a|] in b;
      }
    }
  }

  lemma {:induction false} SelectDistinct(files: seq<File>, key: Key, hash: string)
    requires Distinct(files)
    ensures Distinct(Select(files, key, hash))
  {
    if files != [] {
      var before, last := files[..|files| - 1], files[|files| - 1];
      SelectDistinct(before, key, hash);
      Selected(before, key, hash, last);
      assert last !in before;
      DistinctConcat(Select(before, key, hash), if Is(last, key, hash) then [last] else []);
    }
  }

  lemma {:induction false} OlderDistinct(files: seq<File>, cutoff: real)
    requires Distinct(files)
    ensures Distinct(Older(files, cutoff))
  {
    if files != [] {
      var first, rest := files[0], files[1..];
      OlderDistinct(rest, cutoff);
      assert first !in rest;
      OlderIs(rest, cutoff, first);
      DistinctConcat(if first.mtime < cutoff then [first] else [], Older(rest, cutoff));
    }
  }

  ghost predicate UnitsOwn(units: seq<Unit>, key: Key) {
    && UniqueHashes(units)
    && (forall u | u in units :: Distinct(u.files))
    && forall u, f | u in units && f in u.files :: Is(f, key, u.hash)
  }

  lemma {:induction false} OlderOthersDistinct(units: seq<Unit>, key: Key, kept: string, cutoff: real)
    requires UnitsOwn(units, key)
    ensures Distinct(OlderOthers(units, kept, cutoff))
    ensures forall f | f in OlderOthers(units, kept, cutoff) :: IsOf(f, key)
  {
    if units != [] {
      var first, rest := units[0], units[1..];
      assert first in units && forall u | u in rest :: u in units;
      OlderOthersDistinct(rest, key, kept, cutoff);
      OlderDistinct(first.files, cutoff);
      var own := if first.hash == kept then [] else Older(first.files, cutoff);
      forall f | f in own ensures f !in OlderOthers(rest, kept, cutoff) && IsOf(f, key) {
        OlderIs(first.files, cutoff, f);
        OlderOthersIs(rest, kept, cutoff, f);
        forall i | 0 <= i < |rest| ensures f !in rest[i].files {
          assert rest[i] in units && units[0].hash != units[i + 1].hash;
        }
      }
      DistinctConcat(own, OlderOthers(rest, kept, cutoff));
    }
  }

  ghost predicate GroupsOwn(groups: seq<Group>) {
    && AllNonempty(groups)
    && (forall i, j | 0 <= i < j < |groups| :: groups[i].key != groups[j].key)
    && forall g | g in groups :: UnitsOwn(g.units, g.key)
  }

  lemma {:induction false} StaleOfGroupsDistinct(groups: seq<Group>, cutoff: real)
    requires GroupsOwn(groups)
    ensures Distinct(StaleOfGroups(groups, cutoff))
    ensures forall f | f in StaleOfGroups(groups, cutoff) :: exists g :: g in groups && IsOf(f, g.key)
  {
    if groups != [] {
      var first, rest := groups[0], groups[1..];
      assert first in groups && forall g | g in rest :: g in groups;
      StaleOfGroupsDistinct(rest, cutoff);
      if |first.units| >= 2 {
        OlderOthersDistinct(first.units, first.key, first.units[NewestUnit(first.units)].hash, cutoff);
      }
      var own := StaleOfGroup(first, cutoff);
      forall f | f in own ensures f !in StaleOfGroups(rest, cutoff) {
        forall i | 0 <= i < |rest| ensures !IsOf(f, rest[i].key) {
          assert groups[0].key != groups[i + 1].key;
        }
      }
      DistinctConcat(own, StaleOfGroups(rest, cutoff));
    }
  }

  /** A sweep lists no file twice. */
  lemma StaleDistinct(files: seq<File>, cutoff: real)
    requires Distinct(files)
    ensures Distinct(Stale(files, cutoff))
  {
    var groups := Grouped(files);
    GroupedNonempty(files);
    GroupedUnique(files);
    forall g | g in groups ensures UnitsOwn(g.units, g.key) {
      GroupAt(groups, g);
      forall u | u in g.units ensures Distinct(u.files) && forall f | f in u.files :: Is(f, g.key, u.hash) {
        UnitIsSelection(files, g.key, u);
        SelectDistinct(files, g.key, u.hash);
        forall f | f in u.files ensures Is(f, g.key, u.hash) {
          Selected(files, g.key, u.hash, f);
        }
      }
    }
    StaleOfGroupsDistinct(groups, cutoff);
  }
}
