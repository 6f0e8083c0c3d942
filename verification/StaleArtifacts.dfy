/** Superseded Rust build artifacts, grouped by crate, kind and hash. */
module StaleArtifacts {
  import opened Options
  import opened Text

  datatype File = File(name: string, mtime: real)

  // ---- File names

  /** A crate, its unit's or session's hash, and what follows. */
  datatype Hashed = Hashed(crate: string, hash: string, rest: string)

  predicate IsBase36(s: string) {
    forall c | c in s :: '0' <= c <= '9' || 'a' <= c <= 'z'
  }

  predicate IsRest(s: string) {
    s == "" || s[0] == '.'
  }

  /** The hash a text begins with: sixteen hex digits or thirteen base-36 ones, up to the end or a dot. */
  function HashEnd(s: string): (n: nat)
    ensures n <= |s| && (n > 0 ==> IsRest(s[n..]))
  {
    if |s| >= 16 && IsHex(s[..16]) && IsRest(s[16..]) then 16
    else if |s| >= 13 && IsBase36(s[..13]) && IsRest(s[13..]) then 13
    else 0
  }

  /** The last dash, after at least `least` characters of crate, that a hash follows. */
  function HashDash(name: string, least: nat, n: nat): (r: Option<nat>)
    requires n <= |name|
    ensures r.Some? ==> least <= r.value < n && name[r.value] == '-' && HashEnd(name[r.value + 1..]) > 0
  {
    if n <= least then None
    else if name[n - 1] == '-' && HashEnd(name[n..]) > 0 then Some(n - 1)
    else HashDash(name, least, n - 1)
  }

  /** The name cut at a dash; what comes before `start` is not part of the crate. */
  function CutAt(name: string, start: nat, dash: nat): Hashed
    requires start <= dash < |name|
  {
    var tail := name[dash + 1..];
    Hashed(name[start..dash], tail[..HashEnd(tail)], tail[HashEnd(tail)..])
  }

  /** The pattern artifacts' names are matched against, for names without a newline. */
  function Match(name: string): Option<Hashed> {
    var afterLib := if "lib" <= name then HashDash(name, 4, |name|) else None;
    if afterLib.Some? then Some(CutAt(name, 3, afterLib.value))
    else
      var dash := HashDash(name, 1, |name|);
      if dash.None? then None else Some(CutAt(name, 0, dash.value))
  }

  // ---- What the pattern says, and which reading it prefers

  predicate IsHash(h: string) {
    (|h| == 16 && IsHex(h)) || (|h| == 13 && IsBase36(h))
  }

  /** A way to read the name: `lib` or not, a crate, a dash, a hash and what follows. */
  predicate Reads(name: string, lib: bool, m: Hashed) {
    && name == (if lib then "lib" else "") + (m.crate + "-" + (m.hash + m.rest))
    && m.crate != "" && IsHash(m.hash) && IsRest(m.rest)
  }

  lemma HashEndsThere(hash: string, rest: string)
    requires IsHash(hash) && IsRest(rest)
    ensures HashEnd(hash + rest) == |hash|
  {
    var s := hash + rest;
    assert s[..|hash|] == hash && s[|hash|..] == rest;
    if |hash| == 13 && |s| >= 16 {
      assert s[..16][13] == rest[0] == '.';
      assert '.' in s[..16];
    }
  }

  lemma {:induction false} HashDashIsLast(name: string, least: nat, n: nat, dash: nat)
    requires n <= |name| && least <= dash < n && name[dash] == '-' && HashEnd(name[dash + 1..]) > 0
    ensures HashDash(name, least, n).Some? && dash <= HashDash(name, least, n).value
  {
    if !(name[n - 1] == '-' && HashEnd(name[n..]) > 0) {
      HashDashIsLast(name, least, n - 1, dash);
    }
  }

  lemma CutReads(name: string, lib: bool, dash: nat)
    requires (if lib then 3 else 0) < dash < |name| && (lib ==> "lib" <= name)
    requires name[dash] == '-' && HashEnd(name[dash + 1..]) > 0
    ensures Reads(name, lib, CutAt(name, if lib then 3 else 0, dash))
  {
    var start := if lib then 3 else 0;
    var m, tail := CutAt(name, start, dash), name[dash + 1..];
    assert tail == m.hash + m.rest;
    assert name == name[..start] + (name[start..dash] + "-" + tail);
    assert name[..start] == if lib then "lib" else "";
  }

  lemma ReadingHasDash(name: string, lib: bool, m: Hashed)
    requires Reads(name, lib, m)
    ensures var start := if lib then 3 else 0;
            var dash := HashDash(name, start + 1, |name|);
            (lib ==> "lib" <= name) && dash.Some? && start + |m.crate| <= dash.value
  {
    var start := if lib then 3 else 0;
    var dash := start + |m.crate|;
    assert name[dash] == '-' && name[dash + 1..] == m.hash + m.rest;
    HashEndsThere(m.hash, m.rest);
    HashDashIsLast(name, start + 1, |name|, dash);
  }

  /** A name matches if and only if it can be read at all; of several readings the one found is without
      `lib` only if none is with it, and has the longest crate. */
  lemma MatchIsTheName(name: string)
    ensures Match(name).None? <==> forall lib, m :: !Reads(name, lib, m)
    ensures Match(name).Some? ==>
      exists lib :: Reads(name, lib, Match(name).value)
        && forall other, m | Reads(name, other, m) :: (other ==> lib) && (other == lib ==> |m.crate| <= |Match(name).value.crate|)
  {
    forall lib, m | Reads(name, lib, m) ensures Match(name).Some? {
      ReadingHasDash(name, lib, m);
    }
    if Match(name).Some? {
      var afterLib := if "lib" <= name then HashDash(name, 4, |name|) else None;
      var lib := afterLib.Some?;
      CutReads(name, lib, if lib then afterLib.value else HashDash(name, 1, |name|).value);
      forall other, m | Reads(name, other, m)
        ensures (other ==> lib) && (other == lib ==> |m.crate| <= |Match(name).value.crate|)
      {
        ReadingHasDash(name, other, m);
      }
    }
  }

  predicate EndsWith(s: string, suffix: string) {
    |suffix| <= |s| && s[|s| - |suffix|..] == suffix
  }

  const CODEGEN := ".rcgu.o"

  datatype Key = Key(crate: string, kind: string)

  function KeyOf(m: Hashed): Key {
    Key(m.crate, if EndsWith(m.rest, CODEGEN) then CODEGEN else m.rest)
  }

  // ---- Grouping, in dictionaries that remember the order of insertion

  datatype Unit = Unit(hash: string, files: seq<File>)

  datatype Group = Group(key: Key, units: seq<Unit>)

  function AddToUnits(units: seq<Unit>, hash: string, file: File): seq<Unit> {
    if units == [] then [Unit(hash, [file])]
    else if units[0].hash == hash then [Unit(hash, units[0].files + [file])] + units[1..]
    else [units[0]] + AddToUnits(units[1..], hash, file)
  }

  function AddToGroups(groups: seq<Group>, key: Key, hash: string, file: File): seq<Group> {
    if groups == [] then [Group(key, [Unit(hash, [file])])]
    else if groups[0].key == key then [Group(key, AddToUnits(groups[0].units, hash, file))] + groups[1..]
    else [groups[0]] + AddToGroups(groups[1..], key, hash, file)
  }

  function Grouped(files: seq<File>): seq<Group> {
    if files == [] then []
    else
      var before, last := Grouped(files[..|files| - 1]), files[|files| - 1];
      match Match(last.name)
      case None => before
      case Some(m) => AddToGroups(before, KeyOf(m), m.hash, last)
  }

  // ---- The newest unit

  function Newest(files: seq<File>): (t: real)
    requires files != []
    ensures (exists f :: f in files && f.mtime == t) && forall f | f in files :: f.mtime <= t
  {
    if |files| == 1 then files[0].mtime
    else
      var t := Newest(files[..|files| - 1]);
      var last := files[|files| - 1];
      assert files == files[..|files| - 1] + [last];
      assert forall f | f in files[..|files| - 1] :: f in files;
      if last.mtime > t then last.mtime else t
  }

  predicate Nonempty(units: seq<Unit>) {
    forall u | u in units :: u.files != []
  }

  /** How new a unit is: as new as its newest file. */
  function Age(units: seq<Unit>, i: nat): real
    requires i < |units| && Nonempty(units)
  {
    assert units[i] in units;
    Newest(units[i].files)
  }

  /** Where Python's `max` over the first `k` units lands: on the first of the newest. */
  function NewestOf(units: seq<Unit>, k: nat): (n: nat)
    requires 0 < k <= |units| && Nonempty(units)
    ensures n < k
    ensures forall i: nat | i < k :: Age(units, i) <= Age(units, n)
    ensures forall i: nat | i < n :: Age(units, i) < Age(units, n)
  {
    if k == 1 then 0
    else
      var n := NewestOf(units, k - 1);
      if Age(units, k - 1) > Age(units, n) then k - 1 else n
  }

  function NewestUnit(units: seq<Unit>): (n: nat)
    requires units != [] && Nonempty(units)
    ensures n < |units|
    ensures forall i: nat | i < |units| :: Age(units, i) <= Age(units, n)
  {
    NewestOf(units, |units|)
  }

  function Older(files: seq<File>, cutoff: real): seq<File> {
    if files == [] then []
    else (if files[0].mtime < cutoff then [files[0]] else []) + Older(files[1..], cutoff)
  }

  /** The old files of all units but the one with this hash. */
  function OlderOthers(units: seq<Unit>, kept: string, cutoff: real): seq<File> {
    if units == [] then []
    else (if units[0].hash == kept then [] else Older(units[0].files, cutoff)) + OlderOthers(units[1..], kept, cutoff)
  }

  function StaleOfGroup(g: Group, cutoff: real): seq<File>
    requires Nonempty(g.units)
  {
    if |g.units| < 2 then [] else OlderOthers(g.units, g.units[NewestUnit(g.units)].hash, cutoff)
  }

  predicate AllNonempty(groups: seq<Group>) {
    forall g | g in groups :: Nonempty(g.units)
  }

  function StaleOfGroups(groups: seq<Group>, cutoff: real): seq<File>
    requires AllNonempty(groups)
  {
    if groups == [] then [] else StaleOfGroup(groups[0], cutoff) + StaleOfGroups(groups[1..], cutoff)
  }

  lemma {:induction false} UnitsNonempty(units: seq<Unit>, hash: string, file: File)
    requires Nonempty(units)
    ensures Nonempty(AddToUnits(units, hash, file))
  {
    if units != [] && units[0].hash != hash {
      UnitsNonempty(units[1..], hash, file);
    }
  }

  lemma {:induction false} GroupsNonempty(groups: seq<Group>, key: Key, hash: string, file: File)
    requires AllNonempty(groups)
    ensures AllNonempty(AddToGroups(groups, key, hash, file))
  {
    if groups != [] {
      if groups[0].key == key {
        UnitsNonempty(groups[0].units, hash, file);
      } else {
        GroupsNonempty(groups[1..], key, hash, file);
      }
    }
  }

  lemma {:induction false} GroupedNonempty(files: seq<File>)
    ensures AllNonempty(Grouped(files))
  {
    if files != [] {
      var before, last := files[..|files| - 1], files[|files| - 1];
      GroupedNonempty(before);
      if Match(last.name).Some? {
        GroupsNonempty(Grouped(before), KeyOf(Match(last.name).value), Match(last.name).value.hash, last);
      }
    }
  }

  /** What one directory's sweep removes. */
  function Stale(files: seq<File>, cutoff: real): seq<File> {
    GroupedNonempty(files);
    StaleOfGroups(Grouped(files), cutoff)
  }

  // ---- The loops

  /** One `deps` or `incremental` directory. */
  method StaleIn(files: seq<File>, cutoff: real) returns (stale: seq<File>)
    ensures stale == Stale(files, cutoff)
  {
    var groups := GroupFiles(files);
    GroupedNonempty(files);
    stale := SweepGroups(groups, cutoff);
  }

  method GroupFiles(files: seq<File>) returns (groups: seq<Group>)
    ensures groups == Grouped(files)
  {
    groups := [];
    for i := 0 to |files|
      invariant groups == Grouped(files[..i])
    {
      assert files[..i + 1][..i] == files[..i];
      var m := Match(files[i].name);
      if m.None? {
        continue;
      }
      groups := AddToGroups(groups, KeyOf(m.value), m.value.hash, files[i]);
    }
    assert files[..|files|] == files;
  }

  lemma Associative(a: seq<File>, b: seq<File>, c: seq<File>)
    ensures a + b + c == a + (b + c)
  {
  }

  lemma GroupsStep(groups: seq<Group>, i: nat, cutoff: real)
    requires i < |groups| && AllNonempty(groups)
    ensures AllNonempty(groups[i..]) && AllNonempty(groups[i + 1..]) && Nonempty(groups[i].units)
    ensures StaleOfGroups(groups[i..], cutoff) == StaleOfGroup(groups[i], cutoff) + StaleOfGroups(groups[i + 1..], cutoff)
  {
    assert groups[i..][1..] == groups[i + 1..];
    assert groups[i] in groups;
  }

  method SweepGroups(groups: seq<Group>, cutoff: real) returns (stale: seq<File>)
    requires AllNonempty(groups)
    ensures stale == StaleOfGroups(groups, cutoff)
  {
    stale := [];
    ghost var all := StaleOfGroups(groups, cutoff);
    assert groups[0..] == groups;
    for i := 0 to |groups|
      invariant stale + StaleOfGroups(groups[i..], cutoff) == all
    {
      GroupsStep(groups, i, cutoff);
      var others := SweepGroup(groups[i], cutoff);
      Associative(stale, others, StaleOfGroups(groups[i + 1..], cutoff));
      stale := stale + others;
    }
  }

  lemma UnitsStep(units: seq<Unit>, i: nat, kept: string, cutoff: real)
    requires i < |units|
    ensures OlderOthers(units[i..], kept, cutoff) ==
            (if units[i].hash == kept then [] else Older(units[i].files, cutoff)) + OlderOthers(units[i + 1..], kept, cutoff)
  {
    assert units[i..][1..] == units[i + 1..];
  }

  method SweepGroup(group: Group, cutoff: real) returns (stale: seq<File>)
    requires Nonempty(group.units)
    ensures stale == StaleOfGroup(group, cutoff)
  {
    if |group.units| < 2 {
      return [];
    }
    var kept := group.units[NewestUnit(group.units)].hash;
    stale := [];
    ghost var all := OlderOthers(group.units, kept, cutoff);
    assert group.units[0..] == group.units;
    for i := 0 to |group.units|
      invariant stale + OlderOthers(group.units[i..], kept, cutoff) == all
    {
      UnitsStep(group.units, i, kept, cutoff);
      var unit := group.units[i];
      var others := if unit.hash == kept then [] else Older(unit.files, cutoff);
      Associative(stale, others, OlderOthers(group.units[i + 1..], kept, cutoff));
      stale := stale + others;
    }
  }

  // ---- The whole target directory

  type Path = seq<string>

  /** A profile's two directories; one that is not there has no files. */
  datatype Profile = Profile(name: string, deps: seq<File>, incremental: seq<File>)

  function PathsIn(directory: Path, files: seq<File>): seq<Path> {
    if files == [] then [] else [directory + [files[0].name]] + PathsIn(directory, files[1..])
  }

  function StaleOfProfile(target: Path, profile: Profile, cutoff: real): seq<Path> {
    PathsIn(target + [profile.name, "deps"], Stale(profile.deps, cutoff))
    + PathsIn(target + [profile.name, "incremental"], Stale(profile.incremental, cutoff))
  }

  function StaleOfProfiles(target: Path, profiles: seq<Profile>, cutoff: real): seq<Path> {
    if profiles == [] then []
    else StaleOfProfile(target, profiles[0], cutoff) + StaleOfProfiles(target, profiles[1..], cutoff)
  }

  /** All the paths a sweep of the target directory removes. */
  function StaleOf(target: Path, profiles: seq<Profile>, cutoff: real): seq<Path> {
    StaleOfProfiles(target, profiles, cutoff)
  }

  /** `stale_artifacts`. */
  method StalePaths(target: Path, profiles: seq<Profile>, cutoff: real) returns (stale: seq<Path>)
    ensures stale == StaleOf(target, profiles, cutoff)
  {
    stale := [];
    ghost var all := StaleOfProfiles(target, profiles, cutoff);
    assert profiles[0..] == profiles;
    for i := 0 to |profiles|
      invariant stale + StaleOfProfiles(target, profiles[i..], cutoff) == all
    {
      assert profiles[i..][1..] == profiles[i + 1..];
      var deps := StaleIn(profiles[i].deps, cutoff);
      var incremental := StaleIn(profiles[i].incremental, cutoff);
      var paths := PathsIn(target + [profiles[i].name, "deps"], deps)
                   + PathsIn(target + [profiles[i].name, "incremental"], incremental);
      PathsAssociative(stale, paths, StaleOfProfiles(target, profiles[i + 1..], cutoff));
      stale := stale + paths;
    }
  }

  lemma PathsAssociative(a: seq<Path>, b: seq<Path>, c: seq<Path>)
    ensures a + b + c == a + (b + c)
  {
  }
}
