/** When no two removals of a plan overlap. */
module CleanupTheorems {
  // And when none of them takes a worktree that stays; and no branch goes before the worktree that has it.

  import opened StaleArtifacts
  import opened StaleTheorems
  import opened CleanupPlan

  function RemovedBy(step: Step): seq<Path> {
    match step
    case RemoveWorktree(path) => [path]
    case RemoveTree(path) => [path]
    case Sweep(paths) => paths
    case _ => []
  }

  /** Everything the steps remove from the disk, in order. */
  function Removed(steps: seq<Step>): seq<Path> {
    if steps == [] then [] else RemovedBy(steps[0]) + Removed(steps[1..])
  }

  /** Neither is the other or lies in it. */
  predicate Disjoint(a: Path, b: Path) {
    !(a <= b) && !(b <= a)
  }

  /** No byte is under two of the paths. */
  ghost predicate Apart(paths: seq<Path>) {
    forall i, j | 0 <= i < j < |paths| :: Disjoint(paths[i], paths[j])
  }

  ghost predicate AllDisjoint(a: seq<Path>, b: seq<Path>) {
    forall p, q | p in a && q in b :: Disjoint(p, q)
  }

  lemma ApartConcat(a: seq<Path>, b: seq<Path>)
    ensures Apart(a + b) <==> Apart(a) && Apart(b) && AllDisjoint(a, b)
  {
    var all := a + b;
    if Apart(all) {
      forall i, j | 0 <= i < j < |a| ensures Disjoint(a[i], a[j]) {
        assert Disjoint(all[i], all[j]);
      }
      forall i, j | 0 <= i < j < |b| ensures Disjoint(b[i], b[j]) {
        assert Disjoint(all[|a| + i], all[|a| + j]);
      }
      forall p, q | p in a && q in b ensures Disjoint(p, q) {
        var i, j :| 0 <= i < |a| && 0 <= j < |b| && a[i] == p && b[j] == q;
        assert Disjoint(all[i], all[|a| + j]);
      }
    }
    if Apart(a) && Apart(b) && AllDisjoint(a, b) {
      forall i, j | 0 <= i < j < |all| ensures Disjoint(all[i], all[j]) {
        if i < |a| <= j {
          assert a[i] in a && b[j - |a|] in b;
        }
      }
    }
  }

  lemma {:induction false} RemovedConcat(a: seq<Step>, b: seq<Step>)
    ensures Removed(a + b) == Removed(a) + Removed(b)
  {
    if a == [] {
      assert a + b == b;
    } else {
      assert (a + b)[1..] == a[1..] + b;
      RemovedConcat(a[1..], b);
      assert RemovedBy(a[0]) + (Removed(a[1..]) + Removed(b)) == RemovedBy(a[0]) + Removed(a[1..]) + Removed(b);
    }
  }

  // ---- What the disk and the worktrees are like

  ghost predicate FilesProper(files: seq<File>) {
    forall i, j | 0 <= i < j < |files| :: files[i].name != files[j].name
  }

  ghost predicate ProfilesProper(profiles: seq<Profile>) {
    && (forall i, j | 0 <= i < j < |profiles| :: profiles[i].name != profiles[j].name)
    && forall p | p in profiles :: FilesProper(p.deps) && FilesProper(p.incremental)
  }

  ghost predicate ChildrenProper(children: seq<Child>) {
    forall i, j | 0 <= i < j < |children| :: children[i].name != children[j].name
  }

  /** No directory has a name twice. */
  ghost predicate Proper(w: World) {
    (forall p: Path :: ChildrenProper(w.children(p))) && AllProfilesProper(w)
  }

  ghost predicate AllProfilesProper(w: World) {
    forall p: Path :: ProfilesProper(w.profiles(p))
  }

  /** The name at `k` is hidden, and what leads there is no dependency directory or build output. */
  predicate HiddenAt(rel: Path, k: nat) {
    && k < |rel| && IsHidden(rel[k]) && rel[k] != ".venv"
    && (forall j: nat | j < k :: !IsDependencyDir(rel[j]))
    && !(k >= 2 && rel[0] == "desktop" && rel[1] == "target")
  }

  ghost predicate BehindHidden(rel: Path) {
    exists k: nat :: HiddenAt(rel, k)
  }

  /** A worktree lies in another only behind a hidden directory, as in `.claude/worktrees`. */
  ghost predicate Layout(worktrees: seq<Worktree>) {
    forall i, j | 0 <= i < |worktrees| && 0 <= j < |worktrees| && i != j && worktrees[i].path <= worktrees[j].path ::
      BehindHidden(worktrees[j].path[|worktrees[i].path|..])
  }

  // ---- What build output looks like

  /** A dependency directory, reached through directories that are descended into. */
  predicate DependencyRel(rel: Path) {
    && rel != [] && IsDependencyDir(rel[|rel| - 1])
    && forall k: nat | k + 1 < |rel| :: Descends(rel[k])
  }

  predicate TargetRel(rel: Path) {
    (|rel| == 2 || |rel| == 5) && rel[0] == "desktop" && rel[1] == "target"
  }

  predicate OutputRel(rel: Path) {
    TargetRel(rel) || DependencyRel(rel)
  }

  predicate OutputAt(root: Path, p: Path) {
    root <= p && OutputRel(p[|root|..])
  }

  lemma Differ(a: Path, b: Path, k: nat)
    requires k < |a| && k < |b| && a[k] != b[k]
    ensures Disjoint(a, b)
  {
  }

  lemma DependenciesDisjoint(a: Path, b: Path)
    requires DependencyRel(a) && DependencyRel(b) && a != b
    ensures Disjoint(a, b)
  {
    if |a| < |b| {
      assert Descends(b[|a| - 1]) && !Descends(a[|a| - 1]);
      Differ(a, b, |a| - 1);
    } else if |b| < |a| {
      assert Descends(a[|b| - 1]) && !Descends(b[|b| - 1]);
      Differ(a, b, |b| - 1);
    }
  }

  lemma TargetAndDependencyDisjoint(a: Path, b: Path)
    requires TargetRel(a) && DependencyRel(b)
    ensures Disjoint(a, b)
  {
    assert !IsDependencyDir("desktop") && !IsDependencyDir("target") && !Descends("target");
    if |b| > 2 {
      assert Descends(b[1]);
    }
    Differ(a, b, if |b| == 1 then 0 else 1);
  }

  /** A worktree behind a hidden directory is not in the build output around it, nor around it. */
  lemma HiddenDisjoint(rel: Path, nested: Path)
    requires OutputRel(rel) && BehindHidden(nested)
    ensures Disjoint(rel, nested)
  {
    var k: nat :| HiddenAt(nested, k);
    if TargetRel(rel) {
      assert !IsHidden("desktop") && !IsHidden("target");
      if k < 2 {
        Differ(rel, nested, k);
      } else if nested[0] != "desktop" {
        Differ(rel, nested, 0);
      } else {
        Differ(rel, nested, 1);
      }
    } else {
      var last := |rel| - 1;
      assert !IsHidden("node_modules");
      if k < last {
        assert Descends(rel[k]);
        Differ(rel, nested, k);
      } else if k == last {
        Differ(rel, nested, k);
      } else {
        Differ(rel, nested, last);
      }
    }
  }

  lemma StaysDisjoint(a: Path, b: Path, p: Path, q: Path)
    requires Disjoint(a, b) && a <= p && b <= q
    ensures Disjoint(p, q)
  {
    if |a| <= |b| {
      var k :| 0 <= k < |a| && a[k] != b[k];
    } else {
      var k :| 0 <= k < |b| && a[k] != b[k];
    }
  }

  lemma TailPrefix(root: Path, p: Path, q: Path)
    requires root <= p <= q
    ensures p[|root|..] <= q[|root|..]
  {
  }

  lemma UnderSameRoot(root: Path, p: Path, q: Path)
    requires root <= p && root <= q && Disjoint(p[|root|..], q[|root|..])
    ensures Disjoint(p, q)
  {
    if p <= q {
      TailPrefix(root, p, q);
    } else if q <= p {
      TailPrefix(root, q, p);
    }
  }

  /** Build output of a worktree is apart from whatever is in a worktree nested in it. */
  lemma NestedDisjoint(outer: Path, inner: Path, p: Path, q: Path)
    requires outer <= inner && BehindHidden(inner[|outer|..]) && OutputAt(outer, p) && inner <= q
    ensures Disjoint(p, q)
  {
    HiddenDisjoint(p[|outer|..], inner[|outer|..]);
    UnderSameRoot(outer, p, inner);
    StaysDisjoint(p, inner, p, q);
  }

  // ---- Dependency directories

  predicate IsFound(directory: Path, p: Path) {
    directory <= p && DependencyRel(p[|directory|..])
  }

  lemma FoundBelow(directory: Path, name: string, p: Path)
    requires IsFound(directory + [name], p) && Descends(name)
    ensures IsFound(directory, p) && p[|directory|] == name
  {
    var rel, below := p[|directory|..], p[|directory + [name]|..];
    assert p[|directory|] == (directory + [name])[|directory|];
    assert rel == [name] + below;
    forall k: nat | k + 1 < |rel| ensures Descends(rel[k]) {
      if k > 0 {
        assert rel[k] == below[k - 1];
      }
    }
  }

  /** What the walk finds below a directory, and under which of its children. */
  lemma {:induction false} WalkFinds(w: World, directory: Path, depth: nat)
    requires depth <= SEARCH_DEPTH
    ensures forall p | p in Walk(w, directory, depth) :: IsFound(directory, p)
    decreases SEARCH_DEPTH - depth, 1
  {
    WalkChildrenFinds(w, directory, w.children(directory), depth);
  }

  predicate InOneOf(children: seq<Child>, name: string) {
    exists c | c in children :: c.name == name
  }

  lemma {:induction false} WalkChildrenFinds(w: World, directory: Path, children: seq<Child>, depth: nat)
    requires depth <= SEARCH_DEPTH
    ensures forall p | p in WalkChildren(w, directory, children, depth) ::
              IsFound(directory, p) && InOneOf(children, p[|directory|])
    decreases SEARCH_DEPTH - depth, 0, |children|
  {
    if children != [] {
      var child := children[0];
      assert child in children && forall c | c in children[1..] :: c in children;
      WalkChildrenFinds(w, directory, children[1..], depth);
      if child.isDir && IsDependencyDir(child.name) {
        assert (directory + [child.name])[|directory|..] == [child.name];
      } else if child.isDir && depth < SEARCH_DEPTH && Descends(child.name) {
        WalkFinds(w, directory + [child.name], depth + 1);
        forall p | p in Walk(w, directory + [child.name], depth + 1)
          ensures IsFound(directory, p) && p[|directory|] == child.name
        {
          FoundBelow(directory, child.name, p);
        }
      }
    }
  }

  lemma {:induction false} WalkDistinct(w: World, directory: Path, depth: nat)
    requires depth <= SEARCH_DEPTH && Proper(w)
    ensures Distinct(Walk(w, directory, depth))
    decreases SEARCH_DEPTH - depth, 1
  {
    WalkChildrenDistinct(w, directory, w.children(directory), depth);
  }

  /** What one child gives. */
  function FromChild(w: World, directory: Path, child: Child, depth: nat): seq<Path>
    requires depth <= SEARCH_DEPTH
  {
    if !child.isDir then []
    else if IsDependencyDir(child.name) then [directory + [child.name]]
    else if depth < SEARCH_DEPTH && Descends(child.name) then Walk(w, directory + [child.name], depth + 1)
    else []
  }

  lemma FromChildIsUnder(w: World, directory: Path, child: Child, depth: nat)
    requires depth <= SEARCH_DEPTH
    ensures forall p | p in FromChild(w, directory, child, depth) :: IsFound(directory, p) && p[|directory|] == child.name
  {
    WalkChildrenFinds(w, directory, [child], depth);
    assert FromChild(w, directory, child, depth) + [] == FromChild(w, directory, child, depth);
    assert [child][1..] == [];
    assert WalkChildren(w, directory, [child], depth) == FromChild(w, directory, child, depth);
  }

  lemma {:induction false} WalkChildrenDistinct(w: World, directory: Path, children: seq<Child>, depth: nat)
    requires depth <= SEARCH_DEPTH && Proper(w) && ChildrenProper(children)
    ensures Distinct(WalkChildren(w, directory, children, depth))
    decreases SEARCH_DEPTH - depth, 0, |children|
  {
    if children != [] {
      var child, rest := children[0], children[1..];
      WalkChildrenDistinct(w, directory, rest, depth);
      if child.isDir && !IsDependencyDir(child.name) && depth < SEARCH_DEPTH && Descends(child.name) {
        WalkDistinct(w, directory + [child.name], depth + 1);
      }
      FromChildIsUnder(w, directory, child, depth);
      WalkChildrenFinds(w, directory, rest, depth);
      forall p | p in FromChild(w, directory, child, depth) ensures p !in WalkChildren(w, directory, rest, depth) {
        forall i | 0 <= i < |rest| ensures rest[i].name != child.name {
          assert children[0].name != children[i + 1].name;
        }
      }
      DistinctConcat(FromChild(w, directory, child, depth), WalkChildren(w, directory, rest, depth));
    }
  }

  lemma {:induction false} DeeperIs(root: Path, paths: seq<Path>)
    requires forall p | p in paths :: IsFound(root, p)
    ensures forall p :: p in Deeper(root, paths) <==> p in paths && |p| > |root| + 1
    ensures Distinct(paths) ==> Distinct(Deeper(root, paths))
  {
    if paths != [] {
      var first, rest := paths[0], paths[1..];
      assert first in paths && forall p :: p in paths <==> p == first || p in rest;
      DeeperIs(root, rest);
      assert first[..|first| - 1] == root <==> |first| == |root| + 1;
      if Distinct(paths) {
        assert first !in rest;
        DistinctConcat(if |first| == |root| + 1 then [] else [first], Deeper(root, rest));
      }
    }
  }

  function RootDir(w: World, root: Path, name: string): seq<Path> {
    if w.isDir(root + [name]) then [root + [name]] else []
  }

  lemma RootDirsInOrder(w: World, root: Path)
    ensures RootDirs(w, root, DEPENDENCY_DIRS) == RootDir(w, root, "node_modules") + RootDir(w, root, ".venv")
  {
    assert DEPENDENCY_DIRS[1..] == [".venv"] && [".venv"][1..] == [];
    assert RootDirs(w, root, [".venv"]) == RootDir(w, root, ".venv") + [] == RootDir(w, root, ".venv");
  }

  lemma RootDirIs(w: World, root: Path, name: string)
    requires IsDependencyDir(name)
    ensures Distinct(RootDir(w, root, name))
    ensures forall p | p in RootDir(w, root, name) :: IsFound(root, p) && |p| == |root| + 1 && p[|root|] == name
  {
    assert (root + [name])[|root|..] == [name];
  }

  lemma RootDirsAre(w: World, root: Path)
    ensures forall p | p in RootDirs(w, root, DEPENDENCY_DIRS) :: IsFound(root, p) && |p| == |root| + 1
    ensures Distinct(RootDirs(w, root, DEPENDENCY_DIRS))
  {
    RootDirsInOrder(w, root);
    RootDirIs(w, root, "node_modules");
    RootDirIs(w, root, ".venv");
    DistinctConcat(RootDir(w, root, "node_modules"), RootDir(w, root, ".venv"));
  }

  /** The dependency directories of a worktree: each once, and none in another. */
  lemma DependencyDirsApart(w: World, root: Path)
    requires Proper(w)
    ensures Apart(DependencyDirs(w, root)) && forall p | p in DependencyDirs(w, root) :: IsFound(root, p)
  {
    var walked := Walk(w, root, 1);
    WalkFinds(w, root, 1);
    WalkDistinct(w, root, 1);
    DeeperIs(root, walked);
    RootDirsAre(w, root);
    DistinctConcat(RootDirs(w, root, DEPENDENCY_DIRS), Deeper(root, walked));
    FoundApart(root, DependencyDirs(w, root));
  }

  lemma FoundDisjoint(root: Path, p: Path, q: Path)
    requires IsFound(root, p) && IsFound(root, q) && p != q
    ensures Disjoint(p, q)
  {
    assert p == root + p[|root|..] && q == root + q[|root|..];
    DependenciesDisjoint(p[|root|..], q[|root|..]);
    UnderSameRoot(root, p, q);
  }

  lemma FoundApart(root: Path, paths: seq<Path>)
    requires Distinct(paths) && forall p | p in paths :: IsFound(root, p)
    ensures Apart(paths)
  {
    forall i, j | 0 <= i < j < |paths| ensures Disjoint(paths[i], paths[j]) {
      FoundDisjoint(root, paths[i], paths[j]);
    }
  }

  lemma PrefixEquallyLong(a: Path, b: Path)
    requires |a| == |b|
    ensures a <= b <==> a == b
  {
    assert a == a[..|a|] && b == b[..|a|];
  }

  lemma EquallyDeepApart(paths: seq<Path>, depth: nat)
    requires Distinct(paths) && forall p | p in paths :: |p| == depth
    ensures Apart(paths)
  {
    forall i, j | 0 <= i < j < |paths| ensures Disjoint(paths[i], paths[j]) {
      PrefixEquallyLong(paths[i], paths[j]);
      PrefixEquallyLong(paths[j], paths[i]);
    }
  }

  // ---- Superseded artifacts

  lemma {:induction false} PathsInAre(directory: Path, files: seq<File>)
    ensures |PathsIn(directory, files)| == |files|
    ensures forall i | 0 <= i < |files| :: PathsIn(directory, files)[i] == directory + [files[i].name]
  {
    if files != [] {
      PathsInAre(directory, files[1..]);
    }
  }

  lemma SameNameSameFile(files: seq<File>, f: File, g: File)
    requires FilesProper(files) && f in files && g in files && f.name == g.name
    ensures f == g
  {
  }

  lemma SweptOfDirectory(directory: Path, files: seq<File>, cutoff: real)
    requires FilesProper(files)
    ensures var paths := PathsIn(directory, Stale(files, cutoff));
            Distinct(paths) && forall p | p in paths :: directory <= p && |p| == |directory| + 1
  {
    var stale := Stale(files, cutoff);
    StaleDistinct(files, cutoff);
    PathsInAre(directory, stale);
    var paths := PathsIn(directory, stale);
    forall i, j | 0 <= i < j < |paths| ensures paths[i] != paths[j] {
      OnlyArtifactsGo(files, cutoff, stale[i]);
      OnlyArtifactsGo(files, cutoff, stale[j]);
      if stale[i].name == stale[j].name {
        SameNameSameFile(files, stale[i], stale[j]);
      }
      assert paths[i][|directory|] == stale[i].name && paths[j][|directory|] == stale[j].name;
    }
  }

  predicate SweptUnder(target: Path, profile: string, p: Path) {
    target <= p && |p| == |target| + 3 && p[|target|] == profile
  }

  lemma SweptOfProfile(target: Path, profile: Profile, cutoff: real)
    requires FilesProper(profile.deps) && FilesProper(profile.incremental)
    ensures var paths := StaleOfProfile(target, profile, cutoff);
            Distinct(paths) && forall p | p in paths :: SweptUnder(target, profile.name, p)
  {
    var deps, incremental := target + [profile.name, "deps"], target + [profile.name, "incremental"];
    SweptOfDirectory(deps, profile.deps, cutoff);
    SweptOfDirectory(incremental, profile.incremental, cutoff);
    var a, b := PathsIn(deps, Stale(profile.deps, cutoff)), PathsIn(incremental, Stale(profile.incremental, cutoff));
    forall p | p in a || p in b ensures SweptUnder(target, profile.name, p) {
      assert deps[|target|] == profile.name && incremental[|target|] == profile.name;
    }
    forall p | p in a ensures p !in b {
      assert deps[|target| + 1] == "deps" && incremental[|target| + 1] == "incremental";
      assert p[|target| + 1] == "deps";
    }
    DistinctConcat(a, b);
  }

  lemma {:induction false} SweptOfProfiles(target: Path, profiles: seq<Profile>, cutoff: real)
    requires ProfilesProper(profiles)
    ensures var paths := StaleOfProfiles(target, profiles, cutoff);
            Distinct(paths) && forall p | p in paths :: exists f | f in profiles :: SweptUnder(target, f.name, p)
  {
    if profiles != [] {
      var first, rest := profiles[0], profiles[1..];
      assert first in profiles && forall f | f in rest :: f in profiles;
      SweptOfProfile(target, first, cutoff);
      SweptOfProfiles(target, rest, cutoff);
      var a, b := StaleOfProfile(target, first, cutoff), StaleOfProfiles(target, rest, cutoff);
      forall p | p in a ensures p !in b {
        forall i | 0 <= i < |rest| ensures !SweptUnder(target, rest[i].name, p) {
          assert profiles[0].name != profiles[i + 1].name;
        }
      }
      DistinctConcat(a, b);
    }
  }

  lemma SweptApart(target: Path, profiles: seq<Profile>, cutoff: real)
    requires ProfilesProper(profiles)
    ensures var paths := StaleOf(target, profiles, cutoff);
            Apart(paths) && forall p | p in paths :: target <= p && |p| == |target| + 3
  {
    SweptOfProfiles(target, profiles, cutoff);
    var paths := StaleOf(target, profiles, cutoff);
    forall p | p in paths ensures target <= p && |p| == |target| + 3 {
      var f :| f in profiles && SweptUnder(target, f.name, p);
    }
    EquallyDeepApart(paths, |target| + 3);
  }

  // ---- One worktree

  lemma {:induction false} RemovedTrees(paths: seq<Path>)
    ensures Removed(RemoveTrees(paths)) == paths
  {
    if paths != [] {
      RemovedTrees(paths[1..]);
    }
  }

  ghost predicate ApartInTarget(path: Path, paths: seq<Path>) {
    Apart(paths) && forall p | p in paths :: path <= p && TargetRel(p[|path|..])
  }

  lemma ChoiceRemoves(present: bool, idle: bool, building: bool, path: Path, target: Path, stale: seq<Path>)
    requires ApartInTarget(path, [target]) && ApartInTarget(path, stale)
    ensures ApartInTarget(path, Removed(TargetChoice(present, idle, building, target, stale)))
  {
    OneStep(RemoveTree(target));
    OneStep(Sweep(stale));
  }

  lemma SweptInTarget(path: Path, target: Path, profiles: seq<Profile>, cutoff: real)
    requires ProfilesProper(profiles) && target == TargetOf(path)
    ensures ApartInTarget(path, StaleOf(target, profiles, cutoff))
  {
    SweptApart(target, profiles, cutoff);
    forall p | p in StaleOf(target, profiles, cutoff) ensures path <= p && TargetRel(p[|path|..]) {
      InTarget(path, p);
    }
  }

  lemma LoneTarget(path: Path)
    ensures ApartInTarget(path, [TargetOf(path)])
  {
    InTarget(path, TargetOf(path));
  }

  lemma SupersededInTarget(w: World, path: Path)
    requires Proper(w)
    ensures ApartInTarget(path, Superseded(w, TargetOf(path)))
  {
    var profiles, cutoff := SupersededIs(w, TargetOf(path));
    SweptInTarget(path, TargetOf(path), profiles, cutoff);
  }

  lemma SupersededIs(w: World, target: Path) returns (profiles: seq<Profile>, cutoff: real)
    requires AllProfilesProper(w)
    ensures ProfilesProper(profiles) && Superseded(w, target) == StaleOf(target, profiles, cutoff)
  {
    profiles, cutoff := SupersededAt(w, target);
  }

  lemma SupersededAt(w: World, target: Path) returns (profiles: seq<Profile>, cutoff: real)
    ensures profiles == w.profiles(target) && Superseded(w, target) == StaleOf(target, profiles, cutoff)
  {
    profiles, cutoff := w.profiles(target), w.now - w.artifactAge;
  }

  lemma TargetParts(w: World, path: Path) returns (present: bool, idle: bool, building: bool, target: Path, stale: seq<Path>)
    ensures target == TargetOf(path) && stale == Superseded(w, target)
    ensures TargetSteps(w, path) == TargetChoice(present, idle, building, target, stale)
  {
    target := TargetOf(path);
    stale := Superseded(w, target);
    present, idle, building := w.isDir(target), !InUse(w, path) && Idle(w, path) > w.rustIdle, w.building(target);
  }

  lemma TargetRemovals(w: World, path: Path)
    requires Proper(w)
    ensures ApartInTarget(path, Removed(TargetSteps(w, path)))
  {
    LoneTarget(path);
    SupersededInTarget(w, path);
    var present, idle, building, target, stale := TargetParts(w, path);
    ChoiceRemoves(present, idle, building, path, target, stale);
  }

  lemma OneStep(step: Step)
    ensures Removed([step]) == RemovedBy(step)
  {
    assert [step][1..] == [] && RemovedBy(step) + [] == RemovedBy(step);
  }

  lemma InTarget(path: Path, p: Path)
    requires TargetOf(path) <= p && (|p| == |path| + 2 || |p| == |path| + 5)
    ensures path <= p && TargetRel(p[|path|..])
  {
    var target := TargetOf(path);
    assert path <= target;
    assert p[|path|] == target[|path|] == "desktop" && p[|path| + 1] == target[|path| + 1] == "target";
  }

  /** What one worktree's build output loses. */
  lemma OutputRemovals(w: World, t: Worktree, removing: set<Path>)
    requires Proper(w)
    ensures var removed := Removed(OutputOf(w, t, removing));
            Apart(removed) && forall p | p in removed :: OutputAt(t.path, p)
  {
    if !(t.path in removing || !w.isDir(t.path)) {
      var a, b := TargetSteps(w, t.path), DependencySteps(w, t.path);
      RemovedConcat(a, b);
      TargetRemovals(w, t.path);
      RemovedTrees(DependencyDirs(w, t.path));
      DependencyDirsApart(w, t.path);
      forall p, q | p in Removed(a) && q in Removed(b) ensures Disjoint(p, q) {
        TargetAndDependencyDisjoint(p[|t.path|..], q[|t.path|..]);
        UnderSameRoot(t.path, p, q);
      }
      ApartConcat(Removed(a), Removed(b));
    }
  }

  // ---- All worktrees

  /** What a worktree loses: itself when it is removed, otherwise build output. */
  predicate Loses(w: World, removing: set<Path>, t: Worktree, p: Path) {
    if IsRemoved(w, t) then p == t.path else p in Removed(OutputOf(w, t, removing))
  }

  predicate LosesNothing(w: World, removing: set<Path>, t: Worktree) {
    !IsRemoved(w, t) && Removed(OutputOf(w, t, removing)) == []
  }

  /** If the one is nested in the other it is behind a hidden directory, and loses nothing when the other
      is removed. */
  ghost predicate NestsWell(w: World, removing: set<Path>, outer: Worktree, inner: Worktree) {
    outer.path <= inner.path ==>
      BehindHidden(inner.path[|outer.path|..]) && (IsRemoved(w, outer) ==> LosesNothing(w, removing, inner))
  }

  ghost predicate Placed(w: World, removing: set<Path>, s: Worktree, t: Worktree) {
    NestsWell(w, removing, s, t) && NestsWell(w, removing, t, s)
  }

  lemma LosesBelow(w: World, removing: set<Path>, t: Worktree, p: Path)
    requires Proper(w) && Loses(w, removing, t, p)
    ensures t.path <= p && (!IsRemoved(w, t) ==> OutputAt(t.path, p)) && !LosesNothing(w, removing, t)
  {
    OutputRemovals(w, t, removing);
  }

  lemma LossesDisjoint(w: World, removing: set<Path>, s: Worktree, t: Worktree, p: Path, q: Path)
    requires Proper(w) && Placed(w, removing, s, t) && Loses(w, removing, s, p) && Loses(w, removing, t, q)
    ensures Disjoint(p, q)
  {
    LosesBelow(w, removing, s, p);
    LosesBelow(w, removing, t, q);
    if s.path <= t.path {
      NestedDisjoint(s.path, t.path, p, q);
    } else if t.path <= s.path {
      NestedDisjoint(t.path, s.path, q, p);
    } else {
      StaysDisjoint(s.path, t.path, p, q);
    }
  }

  ghost predicate LostByOne(w: World, removing: set<Path>, worktrees: seq<Worktree>, p: Path, removed: bool) {
    exists t :: t in worktrees && IsRemoved(w, t) == removed && Loses(w, removing, t, p)
  }

  /** The worktrees as they lie, and none that loses something is in a removed one. */
  ghost predicate AllPlaced(w: World, removing: set<Path>, worktrees: seq<Worktree>) {
    forall i, j | 0 <= i < |worktrees| && 0 <= j < |worktrees| && i != j :: NestsWell(w, removing, worktrees[i], worktrees[j])
  }

  lemma PlacedRest(w: World, removing: set<Path>, worktrees: seq<Worktree>)
    requires worktrees != [] && AllPlaced(w, removing, worktrees)
    ensures AllPlaced(w, removing, worktrees[1..])
    ensures forall t | t in worktrees[1..] :: Placed(w, removing, worktrees[0], t)
  {
    var rest := worktrees[1..];
    forall i, j | 0 <= i < |rest| && 0 <= j < |rest| && i != j ensures NestsWell(w, removing, rest[i], rest[j]) {
      assert NestsWell(w, removing, worktrees[i + 1], worktrees[j + 1]);
    }
    forall t | t in rest ensures Placed(w, removing, worktrees[0], t) {
      var i :| 0 <= i < |rest| && rest[i] == t;
      assert worktrees[i + 1] == t;
      assert NestsWell(w, removing, worktrees[0], worktrees[i + 1]) && NestsWell(w, removing, worktrees[i + 1], worktrees[0]);
    }
  }

  lemma OneAndOthers(w: World, removing: set<Path>, t: Worktree, others: seq<Worktree>, p: Path, q: Path, removed: bool)
    requires Proper(w) && Loses(w, removing, t, p) && LostByOne(w, removing, others, q, removed)
    requires forall s | s in others :: Placed(w, removing, t, s)
    ensures Disjoint(p, q)
  {
    var s :| s in others && IsRemoved(w, s) == removed && Loses(w, removing, s, q);
    LossesDisjoint(w, removing, t, s, p, q);
  }

  lemma {:induction false} WorktreesApart(w: World, worktrees: seq<Worktree>, removing: set<Path>)
    requires Proper(w) && AllPlaced(w, removing, worktrees)
    ensures Apart(Removed(WorktreeSteps(w, worktrees)))
  {
    if worktrees != [] {
      var t, rest := worktrees[0], worktrees[1..];
      PlacedRest(w, removing, worktrees);
      WorktreesApart(w, rest, removing);
      RemovedByWorktrees(w, rest, removing);
      var own := if IsRemoved(w, t) then [RemoveWorktree(t.path)] else [];
      RemovedConcat(own, WorktreeSteps(w, rest));
      OneStep(RemoveWorktree(t.path));
      forall p, q | p in Removed(own) && q in Removed(WorktreeSteps(w, rest)) ensures Disjoint(p, q) {
        OneAndOthers(w, removing, t, rest, p, q, true);
      }
      ApartConcat(Removed(own), Removed(WorktreeSteps(w, rest)));
    }
  }

  lemma {:induction false} RemovedByWorktrees(w: World, worktrees: seq<Worktree>, removing: set<Path>)
    ensures forall p | p in Removed(WorktreeSteps(w, worktrees)) :: LostByOne(w, removing, worktrees, p, true)
  {
    if worktrees != [] {
      var t, rest := worktrees[0], worktrees[1..];
      RemovedByWorktrees(w, rest, removing);
      assert t in worktrees && forall s | s in rest :: s in worktrees;
      var own := if IsRemoved(w, t) then [RemoveWorktree(t.path)] else [];
      RemovedConcat(own, WorktreeSteps(w, rest));
      OneStep(RemoveWorktree(t.path));
    }
  }

  ghost predicate Knows(w: World, worktrees: seq<Worktree>, removing: set<Path>) {
    forall t | t in worktrees && IsRemoved(w, t) :: t.path in removing
  }

  lemma {:induction false} RemovedByOutputs(w: World, worktrees: seq<Worktree>, removing: set<Path>)
    requires Knows(w, worktrees, removing)
    ensures forall p | p in Removed(OutputSteps(w, worktrees, removing)) :: LostByOne(w, removing, worktrees, p, false)
  {
    if worktrees != [] {
      var t, rest := worktrees[0], worktrees[1..];
      assert t in worktrees && forall s | s in rest :: s in worktrees;
      RemovedByOutputs(w, rest, removing);
      RemovedConcat(OutputOf(w, t, removing), OutputSteps(w, rest, removing));
      forall p | p in Removed(OutputOf(w, t, removing)) ensures !IsRemoved(w, t) && Loses(w, removing, t, p) {
      }
    }
  }

  lemma {:induction false} OutputsApart(w: World, worktrees: seq<Worktree>, removing: set<Path>)
    requires Proper(w) && AllPlaced(w, removing, worktrees) && Knows(w, worktrees, removing)
    ensures Apart(Removed(OutputSteps(w, worktrees, removing)))
  {
    if worktrees != [] {
      var t, rest := worktrees[0], worktrees[1..];
      PlacedRest(w, removing, worktrees);
      assert t in worktrees && forall s | s in rest :: s in worktrees;
      OutputsApart(w, rest, removing);
      RemovedByOutputs(w, rest, removing);
      OutputRemovals(w, t, removing);
      var a, b := OutputOf(w, t, removing), OutputSteps(w, rest, removing);
      RemovedConcat(a, b);
      forall p, q | p in Removed(a) && q in Removed(b) ensures Disjoint(p, q) {
        assert Loses(w, removing, t, p);
        OneAndOthers(w, removing, t, rest, p, q, false);
      }
      ApartConcat(Removed(a), Removed(b));
    }
  }

  lemma {:induction false} BranchesRemoveNothing(w: World, worktrees: seq<Worktree>, removing: set<Path>, branches: seq<Branch>)
    ensures Removed(BranchSteps(w, worktrees, removing, branches)) == []
  {
    if branches != [] {
      BranchesRemoveNothing(w, worktrees, removing, branches[1..]);
      var own := if IsDeleted(w, worktrees, removing, branches[0]) then [DeleteBranch(branches[0].name)] else [];
      RemovedConcat(own, BranchSteps(w, worktrees, removing, branches[1..]));
      OneStep(DeleteBranch(branches[0].name));
    }
  }

  lemma PlanRemoves(w: World, worktrees: seq<Worktree>, branches: seq<Branch>)
    ensures Removed(Planned(w, worktrees, branches)) ==
            Removed(WorktreeSteps(w, worktrees)) + Removed(OutputSteps(w, worktrees, Removing(w, worktrees)))
  {
    var removing := Removing(w, worktrees);
    var a, b := WorktreeSteps(w, worktrees), PruneStep(w, removing);
    var c, d := OutputSteps(w, worktrees, removing), BranchSteps(w, worktrees, removing, branches);
    RemovedConcat(a, b);
    RemovedConcat(a + b, c);
    RemovedConcat(a + b + c, d);
    OneStep(PruneWorktrees);
    BranchesRemoveNothing(w, worktrees, removing, branches);
  }

  lemma DifferentWorktrees(w: World, removing: set<Path>, worktrees: seq<Worktree>, s: Worktree, t: Worktree)
    requires AllPlaced(w, removing, worktrees) && s in worktrees && t in worktrees && s != t
    ensures Placed(w, removing, s, t)
  {
    var i :| 0 <= i < |worktrees| && worktrees[i] == s;
    var j :| 0 <= j < |worktrees| && worktrees[j] == t;
    assert NestsWell(w, removing, worktrees[i], worktrees[j]) && NestsWell(w, removing, worktrees[j], worktrees[i]);
  }

  /** No removed worktree has one in it that loses something itself. */
  ghost predicate RemovedHoldNoLoss(w: World, worktrees: seq<Worktree>, removing: set<Path>) {
    forall s, t | s in worktrees && t in worktrees && s.path < t.path && IsRemoved(w, s) :: LosesNothing(w, removing, t)
  }

  lemma AllArePlaced(w: World, worktrees: seq<Worktree>, removing: set<Path>)
    requires Layout(worktrees) && RemovedHoldNoLoss(w, worktrees, removing)
    ensures AllPlaced(w, removing, worktrees)
  {
    forall i, j | 0 <= i < |worktrees| && 0 <= j < |worktrees| && i != j
      ensures NestsWell(w, removing, worktrees[i], worktrees[j])
    {
      var s, t := worktrees[i], worktrees[j];
      assert s in worktrees && t in worktrees;
      if s.path <= t.path {
        assert t.path[|s.path|..] != [];
      }
    }
  }

  lemma PlacedPlanApart(w: World, worktrees: seq<Worktree>, branches: seq<Branch>)
    requires Proper(w) && AllPlaced(w, Removing(w, worktrees), worktrees)
    ensures Apart(Removed(Planned(w, worktrees, branches)))
  {
    var removing := Removing(w, worktrees);
    PlanRemoves(w, worktrees, branches);
    WorktreesApart(w, worktrees, removing);
    OutputsApart(w, worktrees, removing);
    RemovedByWorktrees(w, worktrees, removing);
    RemovedByOutputs(w, worktrees, removing);
    var a, b := Removed(WorktreeSteps(w, worktrees)), Removed(OutputSteps(w, worktrees, removing));
    forall p, q | p in a && q in b ensures Disjoint(p, q) {
      var s :| s in worktrees && IsRemoved(w, s) == true && Loses(w, removing, s, p);
      var t :| t in worktrees && IsRemoved(w, t) == false && Loses(w, removing, t, q);
      DifferentWorktrees(w, removing, worktrees, s, t);
      LossesDisjoint(w, removing, s, t, p, q);
    }
    ApartConcat(a, b);
  }

  // ---- And when they overlap

  lemma {:induction false} RemovedIsListed(w: World, worktrees: seq<Worktree>, t: Worktree)
    requires t in worktrees && IsRemoved(w, t)
    ensures t.path in Removed(WorktreeSteps(w, worktrees))
    ensures exists i :: 0 <= i < |WorktreeSteps(w, worktrees)| && WorktreeSteps(w, worktrees)[i] == RemoveWorktree(t.path)
  {
    var own := if IsRemoved(w, worktrees[0]) then [RemoveWorktree(worktrees[0].path)] else [];
    var rest := WorktreeSteps(w, worktrees[1..]);
    RemovedConcat(own, rest);
    if worktrees[0] == t {
      OneStep(RemoveWorktree(t.path));
      assert (own + rest)[0] == RemoveWorktree(t.path);
    } else {
      assert worktrees == [worktrees[0]] + worktrees[1..];
      RemovedIsListed(w, worktrees[1..], t);
      var i :| 0 <= i < |rest| && rest[i] == RemoveWorktree(t.path);
      assert (own + rest)[|own| + i] == rest[i];
    }
  }

  lemma {:induction false} OutputIsListed(w: World, worktrees: seq<Worktree>, removing: set<Path>, t: Worktree, p: Path)
    requires t in worktrees && p in Removed(OutputOf(w, t, removing))
    ensures p in Removed(OutputSteps(w, worktrees, removing))
  {
    FirstOutput(w, worktrees, removing);
    if worktrees[0] != t {
      assert worktrees == [worktrees[0]] + worktrees[1..];
      OutputIsListed(w, worktrees[1..], removing, t, p);
    }
  }

  lemma FirstOutput(w: World, worktrees: seq<Worktree>, removing: set<Path>)
    requires worktrees != []
    ensures Removed(OutputSteps(w, worktrees, removing)) ==
            Removed(OutputOf(w, worktrees[0], removing)) + Removed(OutputSteps(w, worktrees[1..], removing))
  {
    RemovedConcat(OutputOf(w, worktrees[0], removing), OutputSteps(w, worktrees[1..], removing));
  }

  lemma LossIsPlanned(w: World, worktrees: seq<Worktree>, branches: seq<Branch>, t: Worktree, p: Path)
    requires t in worktrees && Loses(w, Removing(w, worktrees), t, p)
    ensures p in Removed(Planned(w, worktrees, branches))
  {
    PlanRemoves(w, worktrees, branches);
    if IsRemoved(w, t) {
      RemovedIsListed(w, worktrees, t);
    } else {
      OutputIsListed(w, worktrees, Removing(w, worktrees), t, p);
    }
  }

  lemma NotApart(paths: seq<Path>, p: Path, q: Path)
    requires p in paths && q in paths && p < q
    ensures !Apart(paths)
  {
    var i :| 0 <= i < |paths| && paths[i] == p;
    var j :| 0 <= j < |paths| && paths[j] == q;
    assert !Disjoint(paths[i], paths[j]) && !Disjoint(paths[j], paths[i]);
  }

  /** Wherever it lies, what a worktree in a removed one loses the plan removes twice. */
  lemma NestedInRemovedOverlaps(w: World, worktrees: seq<Worktree>, branches: seq<Branch>, s: Worktree, t: Worktree)
    requires Proper(w) && s in worktrees && t in worktrees && s.path < t.path && IsRemoved(w, s)
    requires !LosesNothing(w, Removing(w, worktrees), t)
    ensures !Apart(Removed(Planned(w, worktrees, branches)))
  {
    var removing := Removing(w, worktrees);
    var p := if IsRemoved(w, t) then t.path else Removed(OutputOf(w, t, removing))[0];
    assert Loses(w, removing, t, p) && Loses(w, removing, s, s.path);
    LosesBelow(w, removing, t, p);
    LossIsPlanned(w, worktrees, branches, s, s.path);
    LossIsPlanned(w, worktrees, branches, t, p);
    NotApart(Removed(Planned(w, worktrees, branches)), s.path, p);
  }

  /** No path the plan removes is another it removes, or lies in one, so that no byte is counted or removed
      twice, if and only if no removed worktree has one in it that loses something itself. */
  lemma PlanRemovesApart(w: World, worktrees: seq<Worktree>, branches: seq<Branch>)
    requires Proper(w) && Layout(worktrees)
    ensures Apart(Removed(Planned(w, worktrees, branches))) <==>
      forall s, t | s in worktrees && t in worktrees && s.path < t.path && IsRemoved(w, s) ::
        !IsRemoved(w, t) && Removed(OutputOf(w, t, Removing(w, worktrees))) == []
  {
    var removing := Removing(w, worktrees);
    if RemovedHoldNoLoss(w, worktrees, removing) {
      AllArePlaced(w, worktrees, removing);
      PlacedPlanApart(w, worktrees, branches);
    } else {
      var s, t :| s in worktrees && t in worktrees && s.path < t.path && IsRemoved(w, s) && !LosesNothing(w, removing, t);
      NestedInRemovedOverlaps(w, worktrees, branches, s, t);
    }
  }

  // ---- Worktrees that stay

  /** The worktree is still there when the paths are gone. */
  ghost predicate Stands(paths: seq<Path>, t: Worktree) {
    forall p | p in paths :: !(p <= t.path)
  }

  lemma OutputSparesWorktrees(w: World, removing: set<Path>, worktrees: seq<Worktree>, s: Worktree, t: Worktree, p: Path)
    requires Proper(w) && Layout(worktrees) && s in worktrees && t in worktrees
    requires !IsRemoved(w, s) && Loses(w, removing, s, p)
    ensures !(p <= t.path)
  {
    LosesBelow(w, removing, s, p);
    if s.path <= t.path && s != t {
      var i :| 0 <= i < |worktrees| && worktrees[i] == s;
      var j :| 0 <= j < |worktrees| && worktrees[j] == t;
      assert BehindHidden(worktrees[j].path[|worktrees[i].path|..]);
      HiddenDisjoint(p[|s.path|..], t.path[|s.path|..]);
      UnderSameRoot(s.path, p, t.path);
    }
    assert |p| > |s.path|;
  }

  lemma LostInPlan(w: World, worktrees: seq<Worktree>, branches: seq<Branch>, p: Path) returns (s: Worktree)
    requires p in Removed(Planned(w, worktrees, branches))
    ensures s in worktrees && Loses(w, Removing(w, worktrees), s, p)
  {
    var removing := Removing(w, worktrees);
    PlanRemoves(w, worktrees, branches);
    RemovedByWorktrees(w, worktrees, removing);
    RemovedByOutputs(w, worktrees, removing);
    if p in Removed(WorktreeSteps(w, worktrees)) {
      s :| s in worktrees && IsRemoved(w, s) == true && Loses(w, removing, s, p);
    } else {
      s :| s in worktrees && IsRemoved(w, s) == false && Loses(w, removing, s, p);
    }
  }

  /** No path the plan removes is or holds a worktree that stays, if and only if none of those is in a
      removed one. */
  lemma SurvivorsStand(w: World, worktrees: seq<Worktree>, branches: seq<Branch>)
    requires Proper(w) && Layout(worktrees)
    ensures (forall t | t in worktrees && !IsRemoved(w, t) :: Stands(Removed(Planned(w, worktrees, branches)), t)) <==>
      forall s, t | s in worktrees && t in worktrees && s.path < t.path && IsRemoved(w, s) :: IsRemoved(w, t)
  {
    var paths := Removed(Planned(w, worktrees, branches));
    if forall t | t in worktrees && !IsRemoved(w, t) :: Stands(paths, t) {
      forall s, t | s in worktrees && t in worktrees && s.path < t.path && IsRemoved(w, s) ensures IsRemoved(w, t) {
        LossIsPlanned(w, worktrees, branches, s, s.path);
      }
    }
    if forall s, t | s in worktrees && t in worktrees && s.path < t.path && IsRemoved(w, s) :: IsRemoved(w, t) {
      forall t, p | t in worktrees && !IsRemoved(w, t) && p in paths ensures !(p <= t.path) {
        var s := LostInPlan(w, worktrees, branches, p);
        if IsRemoved(w, s) {
          DifferentPaths(worktrees, s, t);
        } else {
          OutputSparesWorktrees(w, Removing(w, worktrees), worktrees, s, t, p);
        }
      }
    }
  }

  lemma DifferentPaths(worktrees: seq<Worktree>, s: Worktree, t: Worktree)
    requires Layout(worktrees) && s in worktrees && t in worktrees && s != t
    ensures s.path != t.path
  {
    var i :| 0 <= i < |worktrees| && worktrees[i] == s;
    var j :| 0 <= j < |worktrees| && worktrees[j] == t;
    if s.path <= t.path {
      assert worktrees[i].path <= worktrees[j].path;
      NestedIsLonger(s.path, t.path);
    }
  }

  lemma NestedIsLonger(a: Path, b: Path)
    requires a <= b && BehindHidden(b[|a|..])
    ensures |a| < |b|
  {
  }

  // ---- Branches

  ghost predicate DeletesOnly(w: World, worktrees: seq<Worktree>, removing: set<Path>, step: Step) {
    step.DeleteBranch? && exists b :: IsDeleted(w, worktrees, removing, b) && b.name == step.name
  }

  lemma {:induction false} BranchStepsDelete(w: World, worktrees: seq<Worktree>, removing: set<Path>, branches: seq<Branch>)
    ensures forall s | s in BranchSteps(w, worktrees, removing, branches) :: DeletesOnly(w, worktrees, removing, s)
  {
    if branches != [] {
      BranchStepsDelete(w, worktrees, removing, branches[1..]);
    }
  }

  lemma {:induction false} OthersDoNotDelete(w: World, worktrees: seq<Worktree>, removing: set<Path>)
    ensures forall s | s in WorktreeSteps(w, worktrees) :: !s.DeleteBranch?
    ensures forall s | s in OutputSteps(w, worktrees, removing) :: !s.DeleteBranch?
  {
    if worktrees != [] {
      OthersDoNotDelete(w, worktrees[1..], removing);
      TreesDoNotDelete(DependencyDirs(w, worktrees[0].path));
    }
  }

  lemma {:induction false} TreesDoNotDelete(paths: seq<Path>)
    ensures forall s | s in RemoveTrees(paths) :: !s.DeleteBranch?
  {
    if paths != [] {
      TreesDoNotDelete(paths[1..]);
    }
  }

  lemma DeletedBranch(w: World, worktrees: seq<Worktree>, branches: seq<Branch>, i: nat)
    requires i < |Planned(w, worktrees, branches)| && Planned(w, worktrees, branches)[i].DeleteBranch?
    ensures |WorktreeSteps(w, worktrees)| <= i
    ensures DeletesOnly(w, worktrees, Removing(w, worktrees), Planned(w, worktrees, branches)[i])
  {
    var removing := Removing(w, worktrees);
    var a, b := WorktreeSteps(w, worktrees), PruneStep(w, removing);
    var c, d := OutputSteps(w, worktrees, removing), BranchSteps(w, worktrees, removing, branches);
    OthersDoNotDelete(w, worktrees, removing);
    BranchStepsDelete(w, worktrees, removing, branches);
    OnlyInTheLast(a, b, c, d, i);
  }

  lemma OnlyInTheLast(a: seq<Step>, b: seq<Step>, c: seq<Step>, d: seq<Step>, i: nat)
    requires i < |a + b + c + d| && (a + b + c + d)[i].DeleteBranch?
    requires forall s | s in a || s in b || s in c :: !s.DeleteBranch?
    ensures |a| <= i && (a + b + c + d)[i] in d
  {
    var before := a + b + c;
    assert forall k | 0 <= k < |before| :: before[k] in a || before[k] in b || before[k] in c;
    assert forall k | |before| <= k < |before + d| :: (before + d)[k] == d[k - |before|];
  }

  /** A branch that is deleted is not protected, and no worktree that stays has it checked out: one that
      has it is removed, by a step before. */
  lemma BranchGoesAfterItsWorktree(w: World, worktrees: seq<Worktree>, branches: seq<Branch>, i: nat, t: Worktree)
    requires var plan := Planned(w, worktrees, branches); i < |plan| && plan[i].DeleteBranch?
    ensures var name := Planned(w, worktrees, branches)[i].name;
            && name !in PROTECTED_BRANCHES && name != w.baseBranch && name != w.currentBranch
            && (t in worktrees && t.branch == name && t.branch != "" ==>
                t.path in Removing(w, worktrees)
                && exists j :: 0 <= j < i && Planned(w, worktrees, branches)[j] == RemoveWorktree(t.path))
  {
    var plan, name := Planned(w, worktrees, branches), Planned(w, worktrees, branches)[i].name;
    DeletedBranch(w, worktrees, branches, i);
    if t in worktrees && t.branch == name && t.branch != "" {
      assert t.path in Removing(w, worktrees);
      var s :| s in worktrees && IsRemoved(w, s) && s.path == t.path;
      RemovedIsListed(w, worktrees, s);
      var j :| 0 <= j < |WorktreeSteps(w, worktrees)| && WorktreeSteps(w, worktrees)[j] == RemoveWorktree(s.path);
      assert plan[j] == WorktreeSteps(w, worktrees)[j];
    }
  }
}
