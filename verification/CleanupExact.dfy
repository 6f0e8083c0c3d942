/** Exactly what a clean-up plan does. */
module CleanupExact {
  // Step by step kind: which worktrees, directories, artifacts and branches go, in terms of what git, the merge
  // oracle and the disk say, and that nothing else does.

  import opened Options
  import opened StaleArtifacts
  import opened CleanupPlan
  import opened CleanupTheorems

  // ---- The steps of each stage

  lemma {:induction false} RemovesWorktree(w: World, worktrees: seq<Worktree>, step: Step)
    ensures step in WorktreeSteps(w, worktrees) <==>
            exists t :: t in worktrees && IsRemoved(w, t) && step == RemoveWorktree(t.path)
  {
    if worktrees != [] {
      RemovesWorktree(w, worktrees[1..], step);
      assert worktrees == [worktrees[0]] + worktrees[1..];
    }
  }

  lemma {:induction false} OutputOfSome(w: World, worktrees: seq<Worktree>, removing: set<Path>, step: Step)
    ensures step in OutputSteps(w, worktrees, removing) <==>
            exists t :: t in worktrees && step in OutputOf(w, t, removing)
  {
    if worktrees != [] {
      OutputOfSome(w, worktrees[1..], removing, step);
      assert worktrees == [worktrees[0]] + worktrees[1..];
    }
  }

  lemma {:induction false} DeletesBranch(w: World, worktrees: seq<Worktree>, removing: set<Path>, branches: seq<Branch>, step: Step)
    ensures step in BranchSteps(w, worktrees, removing, branches) <==>
            exists b :: b in branches && IsDeleted(w, worktrees, removing, b) && step == DeleteBranch(b.name)
  {
    if branches != [] {
      DeletesBranch(w, worktrees, removing, branches[1..], step);
      assert branches == [branches[0]] + branches[1..];
    }
  }

  lemma {:induction false} TreesIn(paths: seq<Path>, step: Step)
    ensures step in RemoveTrees(paths) <==> step.RemoveTree? && step.path in paths
  {
    if paths != [] {
      TreesIn(paths[1..], step);
      assert paths == [paths[0]] + paths[1..];
    }
  }

  lemma OutputKinds(w: World, worktrees: seq<Worktree>, removing: set<Path>, t: Worktree, step: Step)
    requires step in OutputOf(w, t, removing)
    ensures step.RemoveTree? || step.Sweep?
  {
    TreesIn(DependencyDirs(w, t.path), step);
  }

  /** Which stage a step is of. */
  lemma StepOfStage(w: World, worktrees: seq<Worktree>, branches: seq<Branch>, step: Step)
    ensures var removing := Removing(w, worktrees);
            step in Planned(w, worktrees, branches) <==>
            match step
            case RemoveWorktree(_) => step in WorktreeSteps(w, worktrees)
            case PruneWorktrees => step in PruneStep(w, removing)
            case DeleteBranch(_) => step in BranchSteps(w, worktrees, removing, branches)
            case _ => step in OutputSteps(w, worktrees, removing)
  {
    var removing := Removing(w, worktrees);
    RemovesWorktree(w, worktrees, step);
    OutputOfSome(w, worktrees, removing, step);
    DeletesBranch(w, worktrees, removing, branches, step);
    if t :| t in worktrees && step in OutputOf(w, t, removing) {
      OutputKinds(w, worktrees, removing, t, step);
    }
  }

  // ---- Worktrees

  /** A worktree's removal is planned if and only if it is neither main, missing, current nor locked, is idle long
      enough, and its work is merged, committed, pushed and not in use. */
  lemma WorktreeGoesIff(w: World, worktrees: seq<Worktree>, branches: seq<Branch>, path: Path)
    ensures RemoveWorktree(path) in Planned(w, worktrees, branches) <==>
      exists t :: t in worktrees && t.path == path
        && !t.isMain && !t.prunable && w.isDir(path) && path != w.current && !t.locked
        && w.now - w.activity(path) >= w.worktreeIdle
        && w.hasOracle && w.merged(t.branch, t.head).Some?
        && !w.dirty(path)
        && w.unpushed(t.head, w.merged(t.branch, t.head)) == 0
        && !w.busy(path)
  {
    StepOfStage(w, worktrees, branches, RemoveWorktree(path));
    RemovesWorktree(w, worktrees, RemoveWorktree(path));
    forall t | t in worktrees && IsRemoved(w, t) && t.path == path
      ensures w.now - w.activity(path) >= w.worktreeIdle && w.merged(t.branch, t.head).Some?
    {
    }
  }

  lemma RemovingIff(w: World, worktrees: seq<Worktree>, branches: seq<Branch>, path: Path)
    ensures path in Removing(w, worktrees) <==> RemoveWorktree(path) in Planned(w, worktrees, branches)
  {
    StepOfStage(w, worktrees, branches, RemoveWorktree(path));
    RemovesWorktree(w, worktrees, RemoveWorktree(path));
  }

  /** Metadata is pruned if and only if git has some to prune or a worktree is removed. */
  lemma PruneIff(w: World, worktrees: seq<Worktree>, branches: seq<Branch>)
    ensures PruneWorktrees in Planned(w, worktrees, branches) <==>
            w.prunable || exists path :: RemoveWorktree(path) in Planned(w, worktrees, branches)
  {
    StepOfStage(w, worktrees, branches, PruneWorktrees);
    var removing := Removing(w, worktrees);
    if removing != {} {
      var path :| path in removing;
      RemovingIff(w, worktrees, branches, path);
    }
    forall path | RemoveWorktree(path) in Planned(w, worktrees, branches) ensures path in removing {
      RemovingIff(w, worktrees, branches, path);
    }
  }

  // ---- Branches

  /** A branch's deletion is planned if and only if it is neither protected nor checked out where it stays, is old
      enough, landed or lost its remote, and has nothing that is on no remote. */
  lemma BranchGoesIff(w: World, worktrees: seq<Worktree>, branches: seq<Branch>, name: string)
    ensures DeleteBranch(name) in Planned(w, worktrees, branches) <==>
      exists b :: b in branches && b.name == name
        && name != "main" && name != "master" && name != w.baseBranch && name != w.currentBranch
        && (forall t | t in worktrees && t.branch == name && name != "" :: RemoveWorktree(t.path) in Planned(w, worktrees, branches))
        && w.now - b.stamp >= w.branchAge
        && ((w.hasOracle && w.merged(name, b.tip).Some?) || b.gone)
        && w.unpushed(b.tip, if w.hasOracle then w.merged(name, b.tip) else None) == 0
  {
    var removing := Removing(w, worktrees);
    StepOfStage(w, worktrees, branches, DeleteBranch(name));
    DeletesBranch(w, worktrees, removing, branches, DeleteBranch(name));
    SurvivorIff(w, worktrees, branches, name);
  }

  lemma SurvivorIff(w: World, worktrees: seq<Worktree>, branches: seq<Branch>, name: string)
    ensures InSurvivor(worktrees, Removing(w, worktrees), name) <==>
      !forall t | t in worktrees && t.branch == name && name != "" :: RemoveWorktree(t.path) in Planned(w, worktrees, branches)
  {
    forall t | t in worktrees
      ensures t.path in Removing(w, worktrees) <==> RemoveWorktree(t.path) in Planned(w, worktrees, branches)
    {
      RemovingIff(w, worktrees, branches, t.path);
    }
  }

  // ---- Dependency directories

  /** A directory of that name, and no link, is in the directory. */
  ghost predicate HasDir(w: World, directory: Path, name: string) {
    exists child :: child in w.children(directory) && child.isDir && child.name == name
  }

  predicate Visible(name: string) {
    && (name == "" || name[0] != '.')
    && name !in {".git", "node_modules", ".venv", "target", ".next", "dist", "build"}
  }

  predicate IsDependencyName(name: string) {
    name == "node_modules" || name == ".venv"
  }

  /** The names lead from the directory to a dependency directory, through directories that are gone into. */
  ghost predicate Leads(w: World, directory: Path, rel: Path)
    decreases |rel|
  {
    && rel != [] && HasDir(w, directory, rel[0])
    && if |rel| == 1 then IsDependencyName(rel[0]) else Visible(rel[0]) && Leads(w, directory + [rel[0]], rel[1..])
  }

  lemma Names(name: string)
    ensures IsDependencyDir(name) <==> IsDependencyName(name)
    ensures Descends(name) <==> Visible(name)
  {
  }

  lemma {:induction false} WalkIff(w: World, directory: Path, depth: nat, p: Path)
    requires 1 <= depth <= SEARCH_DEPTH
    ensures p in Walk(w, directory, depth) <==>
            directory <= p && |p| - |directory| <= SEARCH_DEPTH + 1 - depth && Leads(w, directory, p[|directory|..])
    decreases SEARCH_DEPTH - depth, 1
  {
    WalkChildrenIff(w, directory, w.children(directory), depth, p);
    if directory < p && |p| - |directory| <= SEARCH_DEPTH + 1 - depth {
      LeadsByChild(w, directory, p, depth);
    }
  }

  /** What one child leads to. */
  ghost predicate LeadsBy(w: World, directory: Path, child: Child, depth: nat, p: Path) {
    && child.isDir && directory < p && p[|directory|] == child.name
    && |p| - |directory| <= SEARCH_DEPTH + 1 - depth
    && if |p| == |directory| + 1 then IsDependencyName(child.name)
       else Visible(child.name) && Leads(w, directory + [child.name], p[|directory| + 1..])
  }

  lemma LeadsByChild(w: World, directory: Path, p: Path, depth: nat)
    requires directory < p && |p| - |directory| <= SEARCH_DEPTH + 1 - depth
    ensures Leads(w, directory, p[|directory|..]) <==>
            exists child :: child in w.children(directory) && LeadsBy(w, directory, child, depth, p)
  {
    var rel := p[|directory|..];
    assert rel[1..] == p[|directory| + 1..] && rel[0] == p[|directory|];
    if Leads(w, directory, rel) {
      var child :| child in w.children(directory) && child.isDir && child.name == rel[0];
      assert LeadsBy(w, directory, child, depth, p);
    }
  }

  lemma {:induction false} WalkChildrenIff(w: World, directory: Path, children: seq<Child>, depth: nat, p: Path)
    requires 1 <= depth <= SEARCH_DEPTH
    ensures p in WalkChildren(w, directory, children, depth) <==>
            exists child :: child in children && LeadsBy(w, directory, child, depth, p)
    decreases SEARCH_DEPTH - depth, 0, |children|
  {
    if children != [] {
      WalkChildrenIff(w, directory, children[1..], depth, p);
      assert children == [children[0]] + children[1..];
      ChildIff(w, directory, children[0], depth, p);
      assert WalkChildren(w, directory, children, depth) ==
             FromChild(w, directory, children[0], depth) + WalkChildren(w, directory, children[1..], depth);
    }
  }

  lemma Under(directory: Path, name: string, p: Path)
    ensures directory + [name] <= p <==> directory < p && p[|directory|] == name
    ensures p == directory + [name] <==> directory + [name] <= p && |p| == |directory| + 1
  {
    var inner := directory + [name];
    if inner <= p {
      assert p[|directory|] == inner[|directory|];
    }
    if directory < p && p[|directory|] == name {
      assert p == inner + p[|inner|..];
    }
  }

  lemma {:induction false} ChildIff(w: World, directory: Path, child: Child, depth: nat, p: Path)
    requires 1 <= depth <= SEARCH_DEPTH
    ensures p in FromChild(w, directory, child, depth) <==> LeadsBy(w, directory, child, depth, p)
    decreases SEARCH_DEPTH - depth, 0, 0
  {
    Names(child.name);
    var inner := directory + [child.name];
    if child.isDir && !IsDependencyDir(child.name) && depth < SEARCH_DEPTH && Descends(child.name) {
      WalkIff(w, inner, depth + 1, p);
    }
    Under(directory, child.name, p);
  }

  /** A directory is taken for one of a worktree's if and only if it is right in it, link or not, or at most two visible
      directories further down. */
  ghost predicate IsDependency(w: World, root: Path, p: Path) {
    && root < p
    && if |p| == |root| + 1 then IsDependencyName(p[|root|]) && w.isDir(p)
       else |p| <= |root| + 3 && Leads(w, root, p[|root|..])
  }

  lemma RootDirsIff(w: World, root: Path, p: Path)
    ensures p in RootDirs(w, root, DEPENDENCY_DIRS) <==>
            root < p && |p| == |root| + 1 && IsDependencyName(p[|root|]) && w.isDir(p)
  {
    RootDirsInOrder(w, root);
    if root < p && |p| == |root| + 1 {
      assert p == root + [p[|root|]];
    }
  }

  lemma DependencyDirsIff(w: World, root: Path, p: Path)
    ensures p in DependencyDirs(w, root) <==> IsDependency(w, root, p)
  {
    var walked := Walk(w, root, 1);
    WalkFinds(w, root, 1);
    DeeperIs(root, walked);
    RootDirsIff(w, root, p);
    WalkIff(w, root, 1, p);
  }

  // ---- Build output

  /** The worktree stays and is there. */
  ghost predicate Remains(w: World, worktrees: seq<Worktree>, branches: seq<Branch>, t: Worktree) {
    t in worktrees && w.isDir(t.path) && RemoveWorktree(t.path) !in Planned(w, worktrees, branches)
  }

  /** Nobody works in the worktree, and nothing happened in it for longer than the limit. */
  predicate Unused(w: World, path: Path, limit: real) {
    path != w.current && !w.busy(path) && w.now - w.activity(path) > limit
  }

  /** A directory's removal is planned if and only if it is the build output or a dependency directory of a worktree
      that stays and has not been used for as long as either is kept. */
  lemma TreeGoesIff(w: World, worktrees: seq<Worktree>, branches: seq<Branch>, p: Path)
    ensures RemoveTree(p) in Planned(w, worktrees, branches) <==>
      exists t :: Remains(w, worktrees, branches, t)
        && (|| (p == t.path + ["desktop", "target"] && w.isDir(p) && Unused(w, t.path, w.rustIdle))
            || (IsDependency(w, t.path, p) && Unused(w, t.path, w.depsIdle)))
  {
    var step, removing := RemoveTree(p), Removing(w, worktrees);
    StepOfStage(w, worktrees, branches, step);
    OutputOfSome(w, worktrees, removing, step);
    forall t | t in worktrees
      ensures t.path in removing <==> RemoveWorktree(t.path) in Planned(w, worktrees, branches)
      ensures step in DependencySteps(w, t.path) <==> IsDependency(w, t.path, p) && Unused(w, t.path, w.depsIdle)
    {
      RemovingIff(w, worktrees, branches, t.path);
      TreesIn(DependencyDirs(w, t.path), step);
      DependencyDirsIff(w, t.path, p);
    }
  }

  /** The paths are all that is superseded in the worktree's build output, which is kept and not being built. */
  ghost predicate IsSwept(w: World, path: Path, paths: seq<Path>) {
    var target := path + ["desktop", "target"];
    && w.isDir(target) && !Unused(w, path, w.rustIdle) && !w.building(target)
    && paths != [] && paths == StaleOf(target, w.profiles(target), w.now - w.artifactAge)
  }

  lemma SweptInTarget(w: World, path: Path, paths: seq<Path>)
    ensures Sweep(paths) in TargetSteps(w, path) <==> IsSwept(w, path, paths)
  {
  }

  lemma SweptInOutput(w: World, t: Worktree, removing: set<Path>, paths: seq<Path>)
    ensures Sweep(paths) in OutputOf(w, t, removing) <==> t.path !in removing && w.isDir(t.path) && IsSwept(w, t.path, paths)
  {
    SweptInTarget(w, t.path, paths);
    TreesIn(DependencyDirs(w, t.path), Sweep(paths));
  }

  /** A sweep is planned if and only if it takes all that is superseded in the build output of a worktree that stays,
      is in use or was not long ago, and is not being built. */
  lemma SweepIff(w: World, worktrees: seq<Worktree>, branches: seq<Branch>, paths: seq<Path>)
    ensures Sweep(paths) in Planned(w, worktrees, branches) <==>
            exists t :: Remains(w, worktrees, branches, t) && IsSwept(w, t.path, paths)
  {
    var step, removing := Sweep(paths), Removing(w, worktrees);
    StepOfStage(w, worktrees, branches, step);
    OutputOfSome(w, worktrees, removing, step);
    forall t | t in worktrees
      ensures step in OutputOf(w, t, removing) <==> Remains(w, worktrees, branches, t) && IsSwept(w, t.path, paths)
    {
      RemovingIff(w, worktrees, branches, t.path);
      SweptInOutput(w, t, removing, paths);
    }
  }
}
