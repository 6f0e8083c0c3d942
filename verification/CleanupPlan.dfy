/** The plan of what a clean-up of worktrees, build output and branches removes. */
module CleanupPlan {
  import opened Options
  import opened StaleArtifacts

  /** The branch is empty when the worktree's head is detached. */
  datatype Worktree = Worktree(path: Path, head: string, branch: string, locked: bool, prunable: bool, isMain: bool)

  datatype Branch = Branch(name: string, tip: string, stamp: real, gone: bool)

  /** A name in a directory; `isDir` is true of a directory that is no link. */
  datatype Child = Child(name: string, isDir: bool)

  /** The limits in seconds, what git and the merge oracle answer, and what the disk looks like. Without
      a base to compare with there is no oracle. */
  datatype World = World(
    now: real, worktreeIdle: real, rustIdle: real, depsIdle: real, branchAge: real, artifactAge: real,
    current: Path, currentBranch: string, baseBranch: string,
    hasOracle: bool, merged: (string, string) -> Option<string>, unpushed: (string, Option<string>) -> nat,
    prunable: bool,
    isDir: Path -> bool, children: Path -> seq<Child>, profiles: Path -> seq<Profile>,
    activity: Path -> real, dirty: Path -> bool, busy: Path -> bool, building: Path -> bool)

  datatype Step =
    | RemoveWorktree(path: Path)
    | PruneWorktrees
    | RemoveTree(path: Path)
    | Sweep(paths: seq<Path>)
    | DeleteBranch(name: string)

  const DEPENDENCY_DIRS := ["node_modules", ".venv"]
  const SKIP_DESCENT := {".git", "node_modules", ".venv", "target", ".next", "dist", "build"}
  const SEARCH_DEPTH := 3
  const PROTECTED_BRANCHES := {"main", "master"}

  // ---- Worktrees

  function Idle(w: World, path: Path): real {
    w.now - w.activity(path)
  }

  /** Merged, clean, pushed, idle and not in use: the worktree goes. */
  predicate IsRemoved(w: World, t: Worktree) {
    && !t.isMain && !t.prunable && w.isDir(t.path) && t.path != w.current && !t.locked
    && Idle(w, t.path) >= w.worktreeIdle
    && w.hasOracle && w.merged(t.branch, t.head).Some?
    && !w.dirty(t.path) && w.unpushed(t.head, w.merged(t.branch, t.head)) == 0 && !w.busy(t.path)
  }

  function Removing(w: World, worktrees: seq<Worktree>): set<Path> {
    set t | t in worktrees && IsRemoved(w, t) :: t.path
  }

  function WorktreeSteps(w: World, worktrees: seq<Worktree>): seq<Step> {
    if worktrees == [] then []
    else (if IsRemoved(w, worktrees[0]) then [RemoveWorktree(worktrees[0].path)] else []) + WorktreeSteps(w, worktrees[1..])
  }

  function PruneStep(w: World, removing: set<Path>): seq<Step> {
    if w.prunable || removing != {} then [PruneWorktrees] else []
  }

  // ---- Build output

  predicate IsDependencyDir(name: string) {
    name in DEPENDENCY_DIRS
  }

  predicate IsHidden(name: string) {
    name != "" && name[0] == '.'
  }

  predicate Descends(name: string) {
    name !in SKIP_DESCENT && !IsHidden(name)
  }

  /** The dependency directories among a directory's children, and below those that are descended into. */
  function Walk(w: World, directory: Path, depth: nat): seq<Path>
    requires depth <= SEARCH_DEPTH
    decreases SEARCH_DEPTH - depth, 1
  {
    WalkChildren(w, directory, w.children(directory), depth)
  }

  function WalkChildren(w: World, directory: Path, children: seq<Child>, depth: nat): seq<Path>
    requires depth <= SEARCH_DEPTH
    decreases SEARCH_DEPTH - depth, 0, |children|
  {
    if children == [] then []
    else
      var child := children[0];
      (if !child.isDir then []
       else if IsDependencyDir(child.name) then [directory + [child.name]]
       else if depth < SEARCH_DEPTH && Descends(child.name) then Walk(w, directory + [child.name], depth + 1)
       else [])
      + WalkChildren(w, directory, children[1..], depth)
  }

  function RootDirs(w: World, root: Path, names: seq<string>): seq<Path> {
    if names == [] then []
    else (if w.isDir(root + [names[0]]) then [root + [names[0]]] else []) + RootDirs(w, root, names[1..])
  }

  /** The paths that are not right under the root. */
  function Deeper(root: Path, paths: seq<Path>): seq<Path> {
    if paths == [] then []
    else (if paths[0] != [] && paths[0][..|paths[0]| - 1] == root then [] else [paths[0]]) + Deeper(root, paths[1..])
  }

  function DependencyDirs(w: World, root: Path): seq<Path> {
    RootDirs(w, root, DEPENDENCY_DIRS) + Deeper(root, Walk(w, root, 1))
  }

  predicate InUse(w: World, path: Path) {
    path == w.current || w.busy(path)
  }

  function TargetOf(path: Path): Path {
    path + ["desktop", "target"]
  }

  function Superseded(w: World, target: Path): seq<Path> {
    StaleOf(target, w.profiles(target), w.now - w.artifactAge)
  }

  /** All of it goes when it is idle; otherwise what is stale does, unless cargo is building. */
  function TargetChoice(present: bool, idle: bool, building: bool, target: Path, stale: seq<Path>): seq<Step> {
    if !present then [] else if idle then [RemoveTree(target)] else if building || stale == [] then [] else [Sweep(stale)]
  }

  function TargetSteps(w: World, path: Path): seq<Step> {
    var target := TargetOf(path);
    TargetChoice(w.isDir(target), !InUse(w, path) && Idle(w, path) > w.rustIdle, w.building(target),
                 target, Superseded(w, target))
  }

  function RemoveTrees(paths: seq<Path>): seq<Step> {
    if paths == [] then [] else [RemoveTree(paths[0])] + RemoveTrees(paths[1..])
  }

  function DependencySteps(w: World, path: Path): seq<Step> {
    if InUse(w, path) || Idle(w, path) <= w.depsIdle then [] else RemoveTrees(DependencyDirs(w, path))
  }

  function OutputOf(w: World, t: Worktree, removing: set<Path>): seq<Step> {
    if t.path in removing || !w.isDir(t.path) then [] else TargetSteps(w, t.path) + DependencySteps(w, t.path)
  }

  function OutputSteps(w: World, worktrees: seq<Worktree>, removing: set<Path>): seq<Step> {
    if worktrees == [] then [] else OutputOf(w, worktrees[0], removing) + OutputSteps(w, worktrees[1..], removing)
  }

  // ---- Branches

  predicate InSurvivor(worktrees: seq<Worktree>, removing: set<Path>, name: string) {
    exists t | t in worktrees :: t.branch != "" && t.path !in removing && t.branch == name
  }

  predicate IsDeleted(w: World, worktrees: seq<Worktree>, removing: set<Path>, b: Branch) {
    var how := if w.hasOracle then w.merged(b.name, b.tip) else None;
    && b.name !in PROTECTED_BRANCHES && b.name != w.baseBranch && b.name != w.currentBranch
    && !InSurvivor(worktrees, removing, b.name)
    && w.now - b.stamp >= w.branchAge
    && (how.Some? || b.gone)
    && w.unpushed(b.tip, how) == 0
  }

  function BranchSteps(w: World, worktrees: seq<Worktree>, removing: set<Path>, branches: seq<Branch>): seq<Step> {
    if branches == [] then []
    else
      (if IsDeleted(w, worktrees, removing, branches[0]) then [DeleteBranch(branches[0].name)] else [])
      + BranchSteps(w, worktrees, removing, branches[1..])
  }

  /** The whole plan, in the order it is carried out. */
  function Planned(w: World, worktrees: seq<Worktree>, branches: seq<Branch>): seq<Step> {
    var removing := Removing(w, worktrees);
    WorktreeSteps(w, worktrees) + PruneStep(w, removing) + OutputSteps(w, worktrees, removing)
    + BranchSteps(w, worktrees, removing, branches)
  }

  // ---- Building the plan

  class Plan {
    var steps: seq<Step>

    constructor ()
      ensures steps == []
    {
      steps := [];
    }

    method Add(step: Step)
      modifies this
      ensures steps == old(steps) + [step]
    {
      steps := steps + [step];
    }

    /** Rule 3: worktrees whose work has landed. Returns the ones to remove. */
    method PlanWorktrees(w: World, worktrees: seq<Worktree>) returns (removing: set<Path>)
      modifies this
      ensures removing == Removing(w, worktrees)
      ensures steps == old(steps) + WorktreeSteps(w, worktrees) + PruneStep(w, removing)
    {
      removing := {};
      for i := 0 to |worktrees|
        invariant removing == Removing(w, worktrees[..i])
        invariant steps + WorktreeSteps(w, worktrees[i..]) == old(steps) + WorktreeSteps(w, worktrees)
      {
        var t := worktrees[i];
        assert worktrees[i..][1..] == worktrees[i + 1..];
        RemovingMore(w, worktrees, i);
        if t.isMain || t.prunable || !w.isDir(t.path) || t.path == w.current || t.locked {
          continue;
        }
        if Idle(w, t.path) < w.worktreeIdle || !w.hasOracle {
          continue;
        }
        var how := w.merged(t.branch, t.head);
        if how.None? || w.dirty(t.path) || w.unpushed(t.head, how) != 0 || w.busy(t.path) {
          continue;
        }
        removing := removing + {t.path};
        Add(RemoveWorktree(t.path));
      }
      assert worktrees[..|worktrees|] == worktrees;
      if w.prunable || removing != {} {
        Add(PruneWorktrees);
      }
    }

    /** Rules 1 and 2: build output in idle worktrees, stale Rust artifacts in any. */
    method PlanBuildOutput(w: World, worktrees: seq<Worktree>, removing: set<Path>)
      modifies this
      ensures steps == old(steps) + OutputSteps(w, worktrees, removing)
    {
      for i := 0 to |worktrees|
        invariant steps + OutputSteps(w, worktrees[i..], removing) == old(steps) + OutputSteps(w, worktrees, removing)
      {
        assert worktrees[i..][1..] == worktrees[i + 1..];
        StepsAssociative(steps, OutputOf(w, worktrees[i], removing), OutputSteps(w, worktrees[i + 1..], removing));
        PlanOutputOf(w, worktrees[i], removing);
      }
    }

    /** One worktree's build output. */
    method PlanOutputOf(w: World, t: Worktree, removing: set<Path>)
      modifies this
      ensures steps == old(steps) + OutputOf(w, t, removing)
    {
      if t.path in removing || !w.isDir(t.path) {
        return;
      }
      StepsAssociative(steps, TargetSteps(w, t.path), DependencySteps(w, t.path));
      PlanTarget(w, t.path);
      PlanDependencies(w, t.path);
    }

    method PlanTarget(w: World, path: Path)
      modifies this
      ensures steps == old(steps) + TargetSteps(w, path)
    {
      var target := TargetOf(path);
      if w.isDir(target) {
        if !InUse(w, path) && Idle(w, path) > w.rustIdle {
          Add(RemoveTree(target));
        } else if !w.building(target) {
          var stale := StalePaths(target, w.profiles(target), w.now - w.artifactAge);
          if stale != [] {
            Add(Sweep(stale));
          }
        }
      }
    }

    method PlanDependencies(w: World, path: Path)
      modifies this
      ensures steps == old(steps) + DependencySteps(w, path)
    {
      if InUse(w, path) || Idle(w, path) <= w.depsIdle {
        return;
      }
      var directories := DependencyDirs(w, path);
      for i := 0 to |directories|
        invariant steps + RemoveTrees(directories[i..]) == old(steps) + RemoveTrees(directories)
      {
        assert directories[i..][1..] == directories[i + 1..];
        Add(RemoveTree(directories[i]));
      }
    }

    /** Rule 4: old local branches that landed or lost their remote. */
    method PlanBranches(w: World, worktrees: seq<Worktree>, removing: set<Path>, branches: seq<Branch>)
      modifies this
      ensures steps == old(steps) + BranchSteps(w, worktrees, removing, branches)
    {
      var checkedOut := set t | t in worktrees && t.branch != "" && t.path !in removing :: t.branch;
      for i := 0 to |branches|
        invariant steps + BranchSteps(w, worktrees, removing, branches[i..]) ==
                  old(steps) + BranchSteps(w, worktrees, removing, branches)
      {
        var b := branches[i];
        assert branches[i..][1..] == branches[i + 1..];
        assert b.name in checkedOut <==> InSurvivor(worktrees, removing, b.name);
        if b.name in PROTECTED_BRANCHES || b.name == w.baseBranch || b.name == w.currentBranch || b.name in checkedOut {
          continue;
        }
        if w.now - b.stamp < w.branchAge {
          continue;
        }
        var how := if w.hasOracle then w.merged(b.name, b.tip) else None;
        if (how.None? && !b.gone) || w.unpushed(b.tip, how) != 0 {
          continue;
        }
        Add(DeleteBranch(b.name));
      }
    }
  }

  lemma StepsAssociative(a: seq<Step>, b: seq<Step>, c: seq<Step>)
    ensures a + b + c == a + (b + c)
  {
  }

  /** The planning half of `main`. */
  method MakePlan(w: World, worktrees: seq<Worktree>, branches: seq<Branch>) returns (plan: Plan)
    ensures fresh(plan) && plan.steps == Planned(w, worktrees, branches)
  {
    plan := new Plan();
    var removing := plan.PlanWorktrees(w, worktrees);
    assert [] + WorktreeSteps(w, worktrees) == WorktreeSteps(w, worktrees);
    plan.PlanBuildOutput(w, worktrees, removing);
    plan.PlanBranches(w, worktrees, removing, branches);
  }

  lemma RemovingMore(w: World, worktrees: seq<Worktree>, i: nat)
    requires i < |worktrees|
    ensures Removing(w, worktrees[..i + 1]) ==
            Removing(w, worktrees[..i]) + if IsRemoved(w, worktrees[i]) then {worktrees[i].path} else {}
  {
    assert worktrees[..i + 1] == worktrees[..i] + [worktrees[i]];
  }
}
