/** One run of the planner that collects a file twice. */
module ShardClashRun {
  // Three one-second cases in three files of one directory, with the pinned list as it is: measured, planned,
  // and no error.

  import opened Options
  import opened Text
  import opened Paths
  import opened Sorting
  import opened Measuring
  import opened Packing
  import opened PlanningTheorems
  import opened Collection
  import opened Sharding
  import opened ShardingTheorems
  import opened ShardPlan
  import opened ShardPlanTheorems
  import opened ShardPinned
  import opened ShardNameClash

  // ---- What is measured, for any directory

  function TailOf(c: char): string {
    "test_" + [c]
  }

  function FileAt(d: string, c: char): string {
    d + "/" + TailOf(c) + ".py"
  }

  function CaseAt(d: string, c: char): Case {
    Case(d, TailOf(c), 1.0)
  }

  function Cases(d: string): seq<Case> {
    [CaseAt(d, 'a'), CaseAt(d, 'b'), CaseAt(d, 'c')]
  }

  function Files(d: string): set<string> {
    {FileAt(d, 'a'), FileAt(d, 'b'), FileAt(d, 'c')}
  }

  lemma FileIs(d: string, a: char, b: char)
    ensures FileAt(d, a) == FileAt(d, b) <==> a == b
    ensures IsFile(FileAt(d, a)) && Below(FileAt(d, a), d)
  {
    var k := |d| + 6;
    assert FileAt(d, a)[k] == a && FileAt(d, b)[k] == b;
    assert FileAt(d, a) == (d + "/") + (TailOf(a) + ".py");
  }

  lemma Resolves(d: string, c: char)
    requires FileAt(d, c) in Files(d) && c != '.'
    ensures Resolve(Files(d), d, TailOf(c)) == Some(FileAt(d, c))
  {
    SplitOnLast(TailOf(c), '.');
    ResolvesOnePart(Files(d), d, TailOf(c));
  }

  lemma ResolvesOnePart(files: set<string>, d: string, part: string)
    requires d + "/" + part + ".py" in files
    ensures ResolveFrom(files, d, [part], 1) == Some(d + "/" + part + ".py")
  {
    assert [part][..1] == [part];
    assert Candidate(d, [part], 1) == d + "/" + part + ".py";
  }

  lemma AllResolve(d: string)
    ensures forall c | c in Cases(d) :: c.directory == d && Resolve(Files(d), d, c.tail).Some?
    ensures Resolve(Files(d), d, TailOf('a')) == Some(FileAt(d, 'a'))
    ensures Resolve(Files(d), d, TailOf('b')) == Some(FileAt(d, 'b'))
    ensures Resolve(Files(d), d, TailOf('c')) == Some(FileAt(d, 'c'))
  {
    Resolves(d, 'a');
    Resolves(d, 'b');
    Resolves(d, 'c');
  }

  lemma TimesOfThree(a: Case, b: Case, c: Case, files: set<string>, key: string)
    ensures TimeIn([a, b, c], key) ==
      (if a.directory == key then a.time else 0.0) + (if b.directory == key then b.time else 0.0)
      + (if c.directory == key then c.time else 0.0)
    ensures TimeOf([a, b, c], files, key) ==
      (if Resolve(files, a.directory, a.tail) == Some(key) then a.time else 0.0)
      + (if Resolve(files, b.directory, b.tail) == Some(key) then b.time else 0.0)
      + (if Resolve(files, c.directory, c.tail) == Some(key) then c.time else 0.0)
  {
    assert [a, b, c][..2] == [a, b] && [a, b][..1] == [a] && [a][..0] == [];
    assert TimeIn([a], key) == if a.directory == key then a.time else 0.0;
    assert TimeOf([a], files, key) == if Resolve(files, a.directory, a.tail) == Some(key) then a.time else 0.0;
  }

  /** What measuring leaves, whatever the order of its counters. */
  ghost predicate IsMeasured(m: Measured, d: string) {
    && SumsDirectories(m.seconds, Cases(d)) && SumsFiles(m.fileSeconds, Cases(d), Files(d))
    && forall e :: e in m.unsplittable <==> Unsplittable(Cases(d), Files(d), e)
  }

  /** Each file weighs a second, and the directory three. */
  lemma Weights(m: Measured, d: string, c: char)
    requires IsMeasured(m, d) && !IsFile(d) && (c == 'a' || c == 'b' || c == 'c')
    ensures m.Weight(d) == 3.0 && m.Weight(FileAt(d, c)) == 1.0
  {
    FileIs(d, c, 'a');
    FileIs(d, c, 'b');
    FileIs(d, c, 'c');
    AllResolve(d);
    TimesOfThree(CaseAt(d, 'a'), CaseAt(d, 'b'), CaseAt(d, 'c'), Files(d), d);
    TimesOfThree(CaseAt(d, 'a'), CaseAt(d, 'b'), CaseAt(d, 'c'), Files(d), FileAt(d, c));
  }

  lemma FileKeysAre(m: Measured, d: string, f: string)
    requires IsMeasured(m, d)
    ensures f in m.fileSeconds.keys <==> f == FileAt(d, 'a') || f == FileAt(d, 'b') || f == FileAt(d, 'c')
  {
    ThreeKeys(m, CaseAt(d, 'a'), CaseAt(d, 'b'), CaseAt(d, 'c'), Files(d), f);
    AllResolve(d);
  }

  lemma ThreeKeys(m: Measured, a: Case, b: Case, c: Case, files: set<string>, f: string)
    requires SumsFiles(m.fileSeconds, [a, b, c], files)
    ensures f in m.fileSeconds.keys <==>
      Resolve(files, a.directory, a.tail) == Some(f) || Resolve(files, b.directory, b.tail) == Some(f)
      || Resolve(files, c.directory, c.tail) == Some(f)
  {
    assert a in [a, b, c] && b in [a, b, c] && c in [a, b, c];
  }

  lemma DirectoryKeysAre(m: Measured, d: string, e: string)
    requires IsMeasured(m, d)
    ensures e in m.seconds.keys <==> e == d
  {
    assert CaseAt(d, 'a') in Cases(d);
  }

  lemma MayBeSplit(m: Measured, d: string)
    requires IsMeasured(m, d)
    ensures d !in m.unsplittable
  {
    AllResolve(d);
    assert CaseAt(d, 'a') in Cases(d);
    UnsplittableIffUnresolved(Cases(d), Files(d), d);
  }

  lemma {:induction false} AllAreBelow(names: seq<string>, d: string)
    requires forall name | name in names :: Below(name, d)
    ensures AllBelow(names, d) == names
  {
    if names != [] {
      AllAreBelow(names[1..], d);
    }
  }

  lemma {:induction false} OnceEach(names: seq<string>, name: string)
    requires forall i, j | 0 <= i < j < |names| :: names[i] != names[j]
    ensures multiset(names)[name] == if name in names then 1 else 0
  {
    if names != [] {
      OnceEach(names[1..], name);
      assert names == [names[0]] + names[1..];
      assert names[0] !in names[1..] by {
        forall j | 0 <= j < |names[1..]| ensures names[1..][j] != names[0] {
          assert names[0] != names[j + 1];
        }
      }
    }
  }

  lemma SameNames(a: seq<string>, b: seq<string>)
    requires forall i, j | 0 <= i < j < |a| :: a[i] != a[j]
    requires forall i, j | 0 <= i < j < |b| :: b[i] != b[j]
    requires forall name :: name in a <==> name in b
    ensures multiset(a) == multiset(b)
  {
    forall name ensures multiset(a)[name] == multiset(b)[name] {
      OnceEach(a, name);
      OnceEach(b, name);
    }
  }

  lemma {:induction false} AfterSame(prefix: string, a: string, b: string)
    requires StringLe(a, b)
    ensures StringLe(prefix + a, prefix + b)
  {
    if prefix == [] {
      assert prefix + a == a && prefix + b == b;
    } else {
      AfterSame(prefix[1..], a, b);
      assert (prefix + a)[1..] == prefix[1..] + a && (prefix + b)[1..] == prefix[1..] + b;
    }
  }

  lemma FilesInOrder(d: string, a: char, b: char)
    requires a < b
    ensures StringLe(FileAt(d, a), FileAt(d, b))
  {
    var prefix := d + "/" + "test_";
    assert FileAt(d, a) == prefix + ([a] + ".py") && FileAt(d, b) == prefix + ([b] + ".py");
    AfterSame(prefix, [a] + ".py", [b] + ".py");
  }

  lemma FilesSorted(d: string) returns (files: seq<string>)
    ensures files == [FileAt(d, 'a'), FileAt(d, 'b'), FileAt(d, 'c')]
    ensures Sorted(files, StringLe) && forall i, j | 0 <= i < j < |files| :: files[i] != files[j]
  {
    files := [FileAt(d, 'a'), FileAt(d, 'b'), FileAt(d, 'c')];
    FileIs(d, 'a', 'b');
    FileIs(d, 'b', 'c');
    FileIs(d, 'a', 'c');
    FilesInOrder(d, 'a', 'b');
    FilesInOrder(d, 'b', 'c');
    FilesInOrder(d, 'a', 'c');
  }

  lemma FilesFound(m: Measured, d: string)
    requires IsMeasured(m, d)
    ensures m.FilesIn(d) == [FileAt(d, 'a'), FileAt(d, 'b'), FileAt(d, 'c')]
  {
    var keys := m.fileSeconds.keys;
    var files := FilesSorted(d);
    forall f ensures f in keys <==> f in files {
      FileKeysAre(m, d, f);
    }
    forall f | f in keys ensures Below(f, d) {
      FileIs(d, 'a', 'a');
      FileIs(d, 'b', 'b');
      FileIs(d, 'c', 'c');
    }
    AllAreBelow(keys, d);
    SameNames(keys, files);
    StringOrder();
    SortCorrect(keys, StringLe);
    SortedUnique(Sort(keys, StringLe), files, StringLe);
    MayBeSplit(m, d);
  }

  lemma ThirdPart(a: string, b: string, c: string, rest: string)
    requires '/' !in a && '/' !in b && '/' !in c
    ensures var parts := SplitOn(a + ['/'] + (b + ['/'] + (c + ['/'] + rest)), '/'); |parts| > 2 && parts[2] == c
  {
    SplitOnStep(a, b + ['/'] + (c + ['/'] + rest), '/');
    SplitOnStep(b, c + ['/'] + rest, '/');
    SplitOnStep(c, rest, '/');
  }

  // ---- A setting with nothing else to pack

  lemma KeysAre(m: Measured, d: string)
    requires IsMeasured(m, d)
    ensures m.seconds.keys == [d]
  {
    var keys := m.seconds.keys;
    forall e ensures e in keys <==> e in [d] {
      DirectoryKeysAre(m, d, e);
    }
    SameNames(keys, [d]);
    SameElements(keys, [d]);
    assert keys[0] in keys;
  }

  lemma OneOfTwo(d: string)
    ensures Sort(Dedup([d, d]), StringLe) == [d]
  {
    assert [d, d][1..] == [d] && [d][1..] == [];
    assert Dedup([d]) == [d] + [] == [d];
    assert Dedup([d, d]) == [d];
    assert Sort([d], StringLe) == [d];
  }

  lemma BothUnpinned(groups: seq<Group>, d: string)
    requires !IsPinned(groups, d)
    ensures Unpinned(groups, [d, d]) == [d, d]
  {
    assert [d, d][1..] == [d] && [d][1..] == [];
    assert Unpinned(groups, [d]) == [d] + [] == [d];
  }

  lemma PackableIs(groups: seq<Group>, m: Measured, d: string)
    requires IsMeasured(m, d) && !IsPinned(groups, d)
    ensures Packable(groups, m, [d]) == [d]
  {
    KeysAre(m, d);
    assert m.seconds.keys + [d] == [d, d];
    BothUnpinned(groups, d);
    OneOfTwo(d);
  }

  lemma MeasuredFilesApart(m: Measured, d: string)
    requires IsMeasured(m, d)
    ensures FilesApart(m)
  {
    forall f, g | f in m.fileSeconds.keys && g in m.fileSeconds.keys && f != g ensures !Comparable(f, g) {
      FileKeysAre(m, d, f);
      FileKeysAre(m, d, g);
      FilesFork(d, 'a', 'b');
      FilesFork(d, 'b', 'c');
      FilesFork(d, 'a', 'c');
    }
  }

  lemma FilesFork(d: string, a: char, b: char)
    requires a != b
    ensures !Comparable(FileAt(d, a), FileAt(d, b)) && !Comparable(FileAt(d, b), FileAt(d, a))
  {
    var prefix := d + "/" + "test_";
    assert FileAt(d, a) == prefix + ([a] + ".py") && FileAt(d, b) == prefix + ([b] + ".py");
    Fork(prefix, [a] + ".py", [b] + ".py");
    Fork(prefix, [b] + ".py", [a] + ".py");
  }

  ghost predicate AllPlain(groups: seq<Group>, roots: seq<string>) {
    && (forall k, e | 0 <= k < |groups| && e in groups[k].dirs :: Plain(e))
    && (forall e | e in roots :: Plain(e))
  }

  ghost predicate Alone(groups: seq<Group>, roots: seq<string>, d: string) {
    && UnderAny(d, roots) && !IsPinned(groups, d)
    && (forall k: nat, e | PinnedDir(groups, k, e) :: !Comparable(d, e))
  }

  /** A list, roots and a directory that the theorems cover, and no conflicts. */
  ghost predicate Suits(groups: seq<Group>, conflicts: seq<Conflict>, roots: seq<string>, d: string) {
    && Config(groups, roots) && roots != [] && AllPlain(groups, roots) && Alone(groups, roots, d)
    && |groups| == |conflicts| && (forall k | 0 <= k < |groups| :: groups[k].bins > 0 && conflicts[k] == NO_CONFLICT)
    && Plain(d) && !IsFile(d) && (forall c | 'a' <= c <= 'z' :: Plain(FileAt(d, c)))
    && ModuleOf(FileAt(d, 'a')) == ModuleOf(FileAt(d, 'b')) == ModuleOf(FileAt(d, 'c'))
  }

  lemma LoneDirectory(groups: seq<Group>, conflicts: seq<Conflict>, m: Measured, d: string, roots: seq<string>)
    requires IsMeasured(m, d) && Suits(groups, conflicts, roots, d)
    ensures Setting(groups, conflicts, m, [d], PACKED_SHARDS, roots) && Packable(groups, m, [d]) == [d]
  {
    MeasuredIsSound(m, Cases(d), Files(d));
    MeasuredFilesApart(m, d);
    PackableIs(groups, m, d);
    KeysAre(m, d);
    forall f | f in m.fileSeconds.keys ensures Plain(f) {
      FileKeysAre(m, d, f);
    }
  }

  lemma LoneIsHeavy(m: Measured, d: string)
    requires IsMeasured(m, d) && !IsFile(d)
    requires ModuleOf(FileAt(d, 'a')) == ModuleOf(FileAt(d, 'b')) == ModuleOf(FileAt(d, 'c'))
    ensures OneHeavyDirectory(m, d, FileAt(d, 'a'), FileAt(d, 'b'), FileAt(d, 'c'), 1.0)
  {
    MeasuredIsSound(m, Cases(d), Files(d));
    FilesFound(m, d);
    Weights(m, d, 'a');
    Weights(m, d, 'b');
    Weights(m, d, 'c');
    FilesInOrder(d, 'a', 'b');
    FilesInOrder(d, 'b', 'c');
    FilesInOrder(d, 'a', 'c');
  }

  /** What was measured of the three cases is planned, and some path is then collected by no one shard. */
  lemma LoneCollectedTwice(groups: seq<Group>, conflicts: seq<Conflict>, m: Measured, d: string, roots: seq<string>,
                           aliases: map<string, string>)
    requires IsMeasured(m, d) && Suits(groups, conflicts, roots, d)
    ensures Setting(groups, conflicts, m, [d], PACKED_SHARDS, roots)
    ensures var r := PlanAll(groups, conflicts, m, [d], PACKED_SHARDS, NO_CONFLICT, roots, aliases);
            r.Ready? && exists path :: UnderAny(path, roots) && forall i: nat :: !OnlyTaker(groups, r.planned, path, i)
  {
    LoneDirectory(groups, conflicts, m, d, roots);
    LoneIsHeavy(m, d);
    PinnedReady(groups, conflicts, m);
    HeavyDirectoryCollectedTwice(groups, conflicts, m, [d], roots, aliases, d, FileAt(d, 'a'), FileAt(d, 'b'), FileAt(d, 'c'), 1.0);
  }

  // ---- One directory, and the pinned list as it is

  const IDENTITY_PART := "identity/tests/e2e"
  const IDENTITY := MODULES + IDENTITY_PART
  const NO_CONFLICTS := [NO_CONFLICT, NO_CONFLICT, NO_CONFLICT, NO_CONFLICT]

  lemma ModuleIs(c: char)
    ensures ModuleOf(FileAt(IDENTITY, c)) == "identity"
  {
    var rest := "tests/e2e/" + (TailOf(c) + ".py");
    assert FileAt(IDENTITY, c) == "app" + ['/'] + ("modules" + ['/'] + ("identity" + ['/'] + rest));
    ThirdPart("app", "modules", "identity", rest);
    assert "app/modules/" <= FileAt(IDENTITY, c);
  }

  /** Characters from the dot on up to the brace: no white space and no dash. */
  ghost predicate Ordinary(s: string) {
    forall i | 0 <= i < |s| :: '.' <= s[i] <= '{'
  }

  lemma OrdinaryJoins(a: string, b: string)
    requires Ordinary(a) && Ordinary(b)
    ensures Ordinary(a + b)
  {
  }

  lemma OrdinaryIsPlain(s: string)
    requires Ordinary(s) && s != []
    ensures Plain(s)
  {
    forall c | c in s ensures !IsSpace(c) {
    }
    assert s[0] != '-';
  }

  lemma InModulesPlain(part: string)
    requires Ordinary(part)
    ensures Plain(MODULES + part)
  {
    assert Ordinary(MODULES);
    OrdinaryJoins(MODULES, part);
    OrdinaryIsPlain(MODULES + part);
  }

  lemma FilesArePlain(d: string, c: char)
    requires Ordinary(d) && 'a' <= c <= 'z'
    ensures Plain(FileAt(d, c))
  {
    OrdinaryIsPlain(FileAt(d, c));
  }

  lemma AgentParts()
    ensures Ordinary(AGENT_PART) && Ordinary(HERMETIC_PART) && Ordinary(RESEARCH_PART)
  {
    assert Ordinary("/test_") && Ordinary("agent_hermetic_journeys_e2e.py") && Ordinary("long_running_and_research_e2e.py");
    assert Ordinary(AGENT_PART);
    OrdinaryJoins(AGENT_PART, "/test_");
    OrdinaryJoins(AGENT_PART + "/test_", "agent_hermetic_journeys_e2e.py");
    OrdinaryJoins(AGENT_PART + "/test_", "long_running_and_research_e2e.py");
  }

  lemma OtherParts()
    ensures Ordinary(FUNCTIONS_PART) && Ordinary(WORKSPACES_PART)
    ensures Ordinary("datastore/tests/e2e") && Ordinary("pod/tests/e2e") && Ordinary(IDENTITY_PART)
  {
  }

  lemma PinnedArePlain()
    ensures Plain(FUNCTIONS) && Plain(WORKSPACES) && Plain(HERMETIC) && Plain(RESEARCH) && Plain(AGENT)
    ensures Plain(DATASTORE) && Plain(PODS)
  {
    Parts();
    AgentParts();
    OtherParts();
    InModulesPlain(FUNCTIONS_PART);
    InModulesPlain(WORKSPACES_PART);
    InModulesPlain(HERMETIC_PART);
    InModulesPlain(RESEARCH_PART);
    InModulesPlain(AGENT_PART);
    InModulesPlain("datastore/tests/e2e");
    InModulesPlain("pod/tests/e2e");
  }

  lemma RootsArePlain(d: string)
    requires d in CATCH_ALL_ROOTS
    ensures Plain(d)
  {
    assert Ordinary("app/modules") && Ordinary("app/core");
    OrdinaryIsPlain("app/modules");
    OrdinaryIsPlain("app/core");
  }

  lemma ListIsPlain()
    ensures AllPlain(PINNED, CATCH_ALL_ROOTS)
  {
    PinnedArePlain();
    forall e | e in CATCH_ALL_ROOTS ensures Plain(e) {
      RootsArePlain(e);
    }
    FourPlain(PINNED, FUNCTIONS, WORKSPACES, HERMETIC, RESEARCH, DATASTORE, PODS, AGENT);
  }

  lemma FourPlain(groups: seq<Group>, f: string, w: string, h: string, r: string, s: string, p: string, a: string)
    requires |groups| == 4 && groups[0].dirs == [f, w] && groups[1].dirs == [h, r] && groups[2].dirs == [s, p] && groups[3].dirs == [a]
    requires Plain(f) && Plain(w) && Plain(h) && Plain(r) && Plain(s) && Plain(p) && Plain(a)
    ensures forall k, e | 0 <= k < |groups| && e in groups[k].dirs :: Plain(e)
  {
  }

  lemma IdentityForks()
    ensures forall e | e in {FUNCTIONS, WORKSPACES, HERMETIC, RESEARCH, AGENT} :: !Comparable(IDENTITY, e)
  {
    Parts();
    Fork(MODULES, IDENTITY_PART, FUNCTIONS_PART);
    Fork(MODULES, IDENTITY_PART, WORKSPACES_PART);
    Fork(MODULES, IDENTITY_PART, HERMETIC_PART);
    Fork(MODULES, IDENTITY_PART, RESEARCH_PART);
    Fork(MODULES, IDENTITY_PART, AGENT_PART);
  }

  lemma IdentityAlone()
    ensures Alone(PINNED, CATCH_ALL_ROOTS, IDENTITY)
  {
    IdentityForks();
    InModules(IDENTITY_PART);
    AloneOf(PINNED, FUNCTIONS, WORKSPACES, HERMETIC, RESEARCH, AGENT, IDENTITY);
  }

  lemma AloneOf(groups: seq<Group>, f: string, w: string, h: string, r: string, a: string, d: string)
    requires Lists(groups, f, w, h, r, a) && forall e | e in {f, w, h, r, a} :: !Comparable(d, e)
    ensures !IsPinned(groups, d) && forall k: nat, e | PinnedDir(groups, k, e) :: !Comparable(d, e)
  {
    forall k: nat, e | PinnedDir(groups, k, e) ensures !Comparable(d, e) {
      WhereFrom(groups, f, w, h, r, a, k, e);
    }
    if IsPinned(groups, d) {
      var k :| 0 <= k < |groups| && !groups[k].overlay && d in groups[k].dirs;
      assert PinnedDir(groups, k, d);
    }
  }

  lemma IdentityIsPlain()
    ensures Plain(IDENTITY) && !IsFile(IDENTITY) && forall c | 'a' <= c <= 'z' :: Plain(FileAt(IDENTITY, c))
  {
    OtherParts();
    InModulesPlain(IDENTITY_PART);
    assert Ordinary(MODULES);
    OrdinaryJoins(MODULES, IDENTITY_PART);
    forall c | 'a' <= c <= 'z' ensures Plain(FileAt(IDENTITY, c)) {
      FilesArePlain(IDENTITY, c);
    }
    assert IDENTITY[|IDENTITY| - 1] == IDENTITY_PART[|IDENTITY_PART| - 1] == 'e';
  }

  lemma IdentitySuits()
    ensures Suits(PINNED, NO_CONFLICTS, CATCH_ALL_ROOTS, IDENTITY)
  {
    PinnedIsAConfig();
    ListIsPlain();
    IdentityAlone();
    IdentityIsPlain();
    ModuleIs('a');
    ModuleIs('b');
    ModuleIs('c');
  }

  /** The run: three cases measured, then planned without an error, and some path under the catch-all roots
      has no single collector. */
  method PlanIdentity(aliases: map<string, string>) returns (r: PlanOutcome)
    ensures r.Ready?
    ensures exists path :: UnderAny(path, CATCH_ALL_ROOTS) && forall i: nat :: !OnlyTaker(PINNED, r.planned, path, i)
  {
    var m := Measure(Cases(IDENTITY), Files(IDENTITY));
    IdentitySuits();
    LoneCollectedTwice(PINNED, NO_CONFLICTS, m, IDENTITY, CATCH_ALL_ROOTS, aliases);
    r := PlanShards(PINNED, NO_CONFLICTS, m, [IDENTITY], PACKED_SHARDS, NO_CONFLICT, CATCH_ALL_ROOTS, aliases);
  }
}
