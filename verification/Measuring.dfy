/** Test time per directory and file. */
module Measuring {
  // Read off the cases of a JUnit report.

  import opened Paths
  import opened Sorting
  import opened Options
  import opened Text

  /** A report's case, once its class name has been split into an e2e directory and a dotted tail. */
  datatype Case = Case(directory: string, tail: string, time: real)

  /** A `Counter`: its keys in insertion order and their sums; a missing key counts as zero. */
  datatype Tally = Tally(keys: seq<string>, sums: map<string, real>) {
    function Get(key: string): real {
      if key in sums then sums[key] else 0.0
    }

    function Add(key: string, x: real): Tally {
      Tally(if key in sums then keys else keys + [key], sums[key := Get(key) + x])
    }

    ghost predicate Valid() {
      && (forall key :: key in keys <==> key in sums)
      && (forall i, j | 0 <= i < j < |keys| :: keys[i] != keys[j])
    }
  }

  const EMPTY := Tally([], map[])

  datatype Measured = Measured(seconds: Tally, fileSeconds: Tally, unsplittable: set<string>) {
    function Weight(path: string): real {
      if IsFile(path) then fileSeconds.Get(path) else seconds.Get(path)
    }

    function FilesIn(directory: string): seq<string> {
      if directory in unsplittable then [] else Sort(AllBelow(fileSeconds.keys, directory), StringLe)
    }
  }

  predicate IsFile(path: string) {
    |path| >= 3 && path[|path| - 3..] == ".py"
  }

  function AllBelow(names: seq<string>, directory: string): (r: seq<string>)
    ensures forall name :: name in r <==> name in names && Below(name, directory)
  {
    if names == [] then []
    else (if Below(names[0], directory) then [names[0]] else []) + AllBelow(names[1..], directory)
  }

  function Candidate(directory: string, parts: seq<string>, stop: nat): string
    requires stop <= |parts|
  {
    directory + "/" + Join(parts[..stop], "/") + ".py"
  }

  /** The file a class name came from: the longest dotted prefix of its tail that is a file. */
  function ResolveFrom(files: set<string>, directory: string, parts: seq<string>, stop: nat): Option<string>
    requires stop <= |parts|
  {
    if stop == 0 then None
    else if Candidate(directory, parts, stop) in files then Some(Candidate(directory, parts, stop))
    else ResolveFrom(files, directory, parts, stop - 1)
  }

  function Resolve(files: set<string>, directory: string, tail: string): Option<string> {
    ResolveFrom(files, directory, SplitOn(tail, '.'), |SplitOn(tail, '.')|)
  }

  method ResolveFile(files: set<string>, directory: string, tail: string) returns (r: Option<string>)
    ensures r == Resolve(files, directory, tail)
  {
    var parts := SplitOn(tail, '.');
    for stop := |parts| downto 0
      invariant Resolve(files, directory, tail) == ResolveFrom(files, directory, parts, stop)
    {
      var candidate := Candidate(directory, parts, stop + 1);
      if candidate in files {
        return Some(candidate);
      }
    }
    return None;
  }

  /** What it means to be the longest: no longer prefix is a file, and none is when none is found. */
  lemma {:induction false} ResolvesToLongest(files: set<string>, directory: string, parts: seq<string>, stop: nat)
    requires stop <= |parts|
    ensures match ResolveFrom(files, directory, parts, stop)
            case None => forall k | 1 <= k <= stop :: Candidate(directory, parts, k) !in files
            case Some(file) =>
              && file in files && IsFile(file) && Below(file, directory)
              && exists k :: 1 <= k <= stop && file == Candidate(directory, parts, k)
                   && forall l | k < l <= stop :: Candidate(directory, parts, l) !in files
  {
    if stop > 0 && Candidate(directory, parts, stop) !in files {
      ResolvesToLongest(files, directory, parts, stop - 1);
    }
  }

  // ---- What a report says, case by case

  function TimeIn(cases: seq<Case>, directory: string): real {
    if cases == [] then 0.0
    else
      var last := cases[|cases| - 1];
      TimeIn(cases[..|cases| - 1], directory) + if last.directory == directory then last.time else 0.0
  }

  function TimeOf(cases: seq<Case>, files: set<string>, file: string): real {
    if cases == [] then 0.0
    else
      var last := cases[|cases| - 1];
      TimeOf(cases[..|cases| - 1], files, file) +
      if Resolve(files, last.directory, last.tail) == Some(file) then last.time else 0.0
  }

  /** Time of the cases whose file lies below `directory`. */
  function TimeBelow(cases: seq<Case>, files: set<string>, directory: string): real {
    if cases == [] then 0.0
    else
      var last := cases[|cases| - 1];
      var file := Resolve(files, last.directory, last.tail);
      TimeBelow(cases[..|cases| - 1], files, directory) +
      if file.Some? && Below(file.value, directory) then last.time else 0.0
  }

  function Covered(names: seq<string>, t: Tally, directory: string): real {
    if names == [] then 0.0
    else
      var last := names[|names| - 1];
      Covered(names[..|names| - 1], t, directory) + if Below(last, directory) then t.Get(last) else 0.0
  }

  function Abs(x: real): real {
    if x < 0.0 then -x else x
  }

  predicate Unresolved(c: Case, files: set<string>) {
    Resolve(files, c.directory, c.tail).None?
  }

  /** `seconds` sums the time of every case by its directory, and has no other key. */
  ghost predicate SumsDirectories(seconds: Tally, cases: seq<Case>) {
    && seconds.Valid()
    && (forall d :: seconds.Get(d) == TimeIn(cases, d))
    && (forall d :: d in seconds.keys <==> exists c :: c in cases && c.directory == d)
  }

  /** `fileSeconds` sums the time of every resolved case by its file, and has no other key. */
  ghost predicate SumsFiles(fileSeconds: Tally, cases: seq<Case>, files: set<string>) {
    && fileSeconds.Valid()
    && (forall f :: fileSeconds.Get(f) == TimeOf(cases, files, f))
    && (forall f :: f in fileSeconds.keys <==> exists c :: c in cases && Resolve(files, c.directory, c.tail) == Some(f))
    && (forall d :: Covered(fileSeconds.keys, fileSeconds, d) == TimeBelow(cases, files, d))
  }

  ghost predicate HasUnresolved(cases: seq<Case>, files: set<string>, directory: string) {
    exists c :: c in cases && c.directory == directory && Unresolved(c, files)
  }

  ghost predicate MarksUnresolved(marked: set<string>, cases: seq<Case>, files: set<string>) {
    forall d :: d in marked <==> HasUnresolved(cases, files, d)
  }

  /** A directory may not be split when a case of it has no file, or its files miss its time by
      more than the tolerance. */
  ghost predicate Unsplittable(cases: seq<Case>, files: set<string>, directory: string) {
    || HasUnresolved(cases, files, directory)
    || ((exists c :: c in cases && c.directory == directory)
        && (TimeBelow(cases, files, directory) + 0.05 < TimeIn(cases, directory)
            || TimeIn(cases, directory) + 0.05 < TimeBelow(cases, files, directory)))
  }

  method Measure(cases: seq<Case>, files: set<string>) returns (m: Measured)
    ensures SumsDirectories(m.seconds, cases)
    ensures SumsFiles(m.fileSeconds, cases, files)
    ensures forall d :: d in m.unsplittable <==> Unsplittable(cases, files, d)
  {
    var seconds, fileSeconds, unresolved := MeasureCases(cases, files);
    var unsplittable := MarkUncovered(seconds, fileSeconds, unresolved);
    forall d ensures d in unsplittable <==> Unsplittable(cases, files, d) {
      MarkedMeans(seconds, fileSeconds, unresolved, cases, files, d);
    }
    m := Measured(seconds, fileSeconds, unsplittable);
  }

  lemma MarkedMeans(seconds: Tally, fileSeconds: Tally, unresolved: set<string>, cases: seq<Case>, files: set<string>, d: string)
    requires SumsDirectories(seconds, cases) && SumsFiles(fileSeconds, cases, files)
    requires MarksUnresolved(unresolved, cases, files)
    ensures (d in unresolved || (d in seconds.keys && Uncovered(seconds, fileSeconds, d))) <==> Unsplittable(cases, files, d)
  {
    assert seconds.Get(d) == TimeIn(cases, d);
    assert Covered(fileSeconds.keys, fileSeconds, d) == TimeBelow(cases, files, d);
  }

  /** The first half of measuring: every case added to its directory and its file. */
  method MeasureCases(cases: seq<Case>, files: set<string>)
    returns (seconds: Tally, fileSeconds: Tally, unresolved: set<string>)
    ensures SumsDirectories(seconds, cases)
    ensures SumsFiles(fileSeconds, cases, files)
    ensures MarksUnresolved(unresolved, cases, files)
  {
    seconds, fileSeconds, unresolved := EMPTY, EMPTY, {};
    for i := 0 to |cases|
      invariant SumsDirectories(seconds, cases[..i])
      invariant SumsFiles(fileSeconds, cases[..i], files)
      invariant MarksUnresolved(unresolved, cases[..i], files)
    {
      var c := cases[i];
      assert cases[..i + 1] == cases[..i] + [c];
      AddToDirectories(seconds, cases[..i], c);
      AddToFiles(fileSeconds, cases[..i], files, c);
      AddToUnresolved(unresolved, cases[..i], files, c);
      seconds := seconds.Add(c.directory, c.time);
      var file := ResolveFile(files, c.directory, c.tail);
      if file.None? {
        unresolved := unresolved + {c.directory};
      } else {
        fileSeconds := fileSeconds.Add(file.value, c.time);
      }
    }
    assert cases[..|cases|] == cases;
  }

  predicate Uncovered(seconds: Tally, fileSeconds: Tally, directory: string) {
    Abs(Covered(fileSeconds.keys, fileSeconds, directory) - seconds.Get(directory)) > 0.05
  }

  /** The second half of measuring: directories whose files do not account for their time. */
  method MarkUncovered(seconds: Tally, fileSeconds: Tally, unresolved: set<string>) returns (unsplittable: set<string>)
    ensures forall d :: d in unsplittable <==>
      d in unresolved || (d in seconds.keys && Uncovered(seconds, fileSeconds, d))
  {
    unsplittable := unresolved;
    for j := 0 to |seconds.keys|
      invariant forall d :: d in unsplittable <==>
        d in unresolved || (d in seconds.keys[..j] && Uncovered(seconds, fileSeconds, d))
    {
      var directory := seconds.keys[j];
      if Uncovered(seconds, fileSeconds, directory) {
        unsplittable := unsplittable + {directory};
      }
    }
  }

  lemma AddToUnresolved(marked: set<string>, cases: seq<Case>, files: set<string>, c: Case)
    requires MarksUnresolved(marked, cases, files)
    ensures MarksUnresolved(marked + if Unresolved(c, files) then {c.directory} else {}, cases + [c], files)
  {
    assert c in cases + [c];
    forall d | HasUnresolved(cases, files, d) ensures HasUnresolved(cases + [c], files, d) {
      var e :| e in cases && e.directory == d && Unresolved(e, files);
      assert e in cases + [c];
    }
  }

  lemma AddToDirectories(seconds: Tally, cases: seq<Case>, c: Case)
    requires SumsDirectories(seconds, cases)
    ensures SumsDirectories(seconds.Add(c.directory, c.time), cases + [c])
  {
    assert (cases + [c])[..|cases|] == cases;
    var after := seconds.Add(c.directory, c.time);
    forall d ensures d in after.keys <==> exists e :: e in cases + [c] && e.directory == d {
      assert c in cases + [c];
    }
  }

  /** The file counter after one more case. */
  function AddFile(fileSeconds: Tally, files: set<string>, c: Case): Tally {
    var file := Resolve(files, c.directory, c.tail);
    if file.None? then fileSeconds else fileSeconds.Add(file.value, c.time)
  }

  lemma FileKeys(fileSeconds: Tally, cases: seq<Case>, files: set<string>, c: Case, f: string)
    requires fileSeconds.Valid()
    requires f in fileSeconds.keys <==> exists e :: e in cases && Resolve(files, e.directory, e.tail) == Some(f)
    ensures f in AddFile(fileSeconds, files, c).keys <==>
      exists e :: e in cases + [c] && Resolve(files, e.directory, e.tail) == Some(f)
  {
    assert c in cases + [c];
    if f in fileSeconds.keys {
      var e :| e in cases && Resolve(files, e.directory, e.tail) == Some(f);
      assert e in cases + [c];
    }
  }

  lemma FileTimes(fileSeconds: Tally, cases: seq<Case>, files: set<string>, c: Case, f: string)
    requires fileSeconds.Get(f) == TimeOf(cases, files, f)
    ensures AddFile(fileSeconds, files, c).Get(f) == TimeOf(cases + [c], files, f)
  {
    assert (cases + [c])[..|cases|] == cases;
  }

  lemma FileCover(fileSeconds: Tally, cases: seq<Case>, files: set<string>, c: Case, d: string)
    requires fileSeconds.Valid()
    requires Covered(fileSeconds.keys, fileSeconds, d) == TimeBelow(cases, files, d)
    ensures var after := AddFile(fileSeconds, files, c);
            Covered(after.keys, after, d) == TimeBelow(cases + [c], files, d)
  {
    assert (cases + [c])[..|cases|] == cases;
    var file := Resolve(files, c.directory, c.tail);
    if file.Some? {
      CoveredAdd(fileSeconds, file.value, c.time, d);
    }
  }

  lemma AddToFiles(fileSeconds: Tally, cases: seq<Case>, files: set<string>, c: Case)
    requires SumsFiles(fileSeconds, cases, files)
    ensures SumsFiles(AddFile(fileSeconds, files, c), cases + [c], files)
  {
    forall f {
      FileKeys(fileSeconds, cases, files, c, f);
    }
    forall f {
      FileTimes(fileSeconds, cases, files, c, f);
    }
    forall d {
      FileCover(fileSeconds, cases, files, c, d);
    }
  }

  lemma CoveredAdd(t: Tally, key: string, x: real, d: string)
    requires t.Valid()
    ensures var t' := t.Add(key, x);
            Covered(t'.keys, t', d) == Covered(t.keys, t, d) + if Below(key, d) then x else 0.0
  {
    var t' := t.Add(key, x);
    CoveredChange(t.keys, t, key, x, d);
    if key !in t.sums {
      assert t'.keys[..|t.keys|] == t.keys;
    }
  }

  lemma {:induction false} CoveredChange(names: seq<string>, t: Tally, key: string, x: real, d: string)
    requires forall i, j | 0 <= i < j < |names| :: names[i] != names[j]
    ensures Covered(names, t.Add(key, x), d) ==
            Covered(names, t, d) + if key in names && Below(key, d) then x else 0.0
  {
    if names != [] {
      var n := |names| - 1;
      CoveredChange(names[..n], t, key, x, d);
      assert names == names[..n] + [names[n]];
    }
  }

  // ---- In exact arithmetic only an unresolved case makes a directory unsplittable

  /** e2e directories never hold one another. */
  ghost predicate Apart(cases: seq<Case>) {
    forall a, b | a in cases && b in cases && a.directory != b.directory :: !Comparable(a.directory, b.directory)
  }

  lemma ResolvedBelow(files: set<string>, c: Case)
    ensures var file := Resolve(files, c.directory, c.tail);
            file.Some? ==> file.value in files && IsFile(file.value) && Below(file.value, c.directory)
  {
    var parts := SplitOn(c.tail, '.');
    ResolvesToLongest(files, c.directory, parts, |parts|);
  }

  /** The files of a directory account for exactly its time, unless a case of it has no file. */
  lemma {:induction false} CoveredExactly(cases: seq<Case>, files: set<string>, d: string)
    requires forall c | c in cases && c.directory != d :: !Comparable(c.directory, d)
    requires !HasUnresolved(cases, files, d)
    ensures TimeBelow(cases, files, d) == TimeIn(cases, d)
  {
    if cases != [] {
      var last := cases[|cases| - 1];
      assert last in cases;
      forall c | c in cases[..|cases| - 1] ensures c in cases {
      }
      CoveredExactly(cases[..|cases| - 1], files, d);
      ResolvedBelow(files, last);
      var file := Resolve(files, last.directory, last.tail);
      if file.Some? && Below(file.value, d) {
        UnderComparable(file.value, d, last.directory);
      }
    }
  }

  lemma UnsplittableIffUnresolved(cases: seq<Case>, files: set<string>, d: string)
    requires Apart(cases) && exists c :: c in cases && c.directory == d
    ensures Unsplittable(cases, files, d) <==> HasUnresolved(cases, files, d)
  {
    if !HasUnresolved(cases, files, d) {
      CoveredExactly(cases, files, d);
    }
  }
}
