/** Arguments, and what they collect. */
module Collection {
  import opened Paths
  import opened Sorting
  import opened Text

  const IGNORE := "--ignore="

  datatype Shard = Shard(name: string, args: string)

  function Dedup(xs: seq<string>): (r: seq<string>)
    ensures forall x :: x in r <==> x in xs
  {
    if xs == [] then []
    else if xs[0] in xs[1..] then Dedup(xs[1..])
    else [xs[0]] + Dedup(xs[1..])
  }

  function Uncovered(xs: seq<string>, all: seq<string>): (r: seq<string>)
    ensures forall x :: x in r <==> x in xs && forall other | other in all && other != x :: !Below(x, other)
  {
    if xs == [] then []
    else (if exists other | other in all && other != xs[0] :: Below(xs[0], other) then [] else [xs[0]])
         + Uncovered(xs[1..], all)
  }

  /** The paths no other of them covers, in order. */
  function Topmost(paths: seq<string>): seq<string> {
    var ordered := Sort(Dedup(paths), StringLe);
    Uncovered(ordered, ordered)
  }

  lemma TopmostMembers(paths: seq<string>)
    ensures forall x :: x in Topmost(paths) <==> x in paths && forall other | other in paths && other != x :: !Below(x, other)
  {
    SortKeeps(Dedup(paths), StringLe);
  }

  lemma {:induction false} CoverOf(paths: seq<string>, q: string) returns (top: string)
    requires q in paths
    ensures top in Topmost(paths) && Under(q, top)
    decreases |q|
  {
    TopmostMembers(paths);
    if q in Topmost(paths) {
      top := q;
    } else {
      var other :| other in paths && other != q && Below(q, other);
      top := CoverOf(paths, other);
      UnderTransitive(q, other, top);
    }
  }

  /** Dropping what is already covered never changes what is ignored, and leaves nothing to drop. */
  lemma TopmostCovers(paths: seq<string>, path: string)
    ensures UnderAny(path, Topmost(paths)) <==> UnderAny(path, paths)
    ensures forall a, b | a in Topmost(paths) && b in Topmost(paths) && a != b :: !Under(a, b)
  {
    TopmostMembers(paths);
    if q :| q in paths && Under(path, q) {
      var top := CoverOf(paths, q);
      UnderTransitive(path, q, top);
    }
  }

  // ---- Rendering

  function Flags(paths: seq<string>): (r: seq<string>)
    ensures |r| == |paths|
    ensures forall i | 0 <= i < |r| :: r[i] == IGNORE + paths[i]
  {
    if paths == [] then [] else [IGNORE + paths[0]] + Flags(paths[1..])
  }

  function Arguments(members: seq<string>, roots: seq<string>, givenAway: seq<string>): seq<string> {
    if roots != [] then roots + Flags(Sort(givenAway, StringLe)) else Sort(members, StringLe)
  }

  /** Explicit members, or roots minus what went elsewhere. */
  function RenderArgs(members: seq<string>, roots: seq<string>, givenAway: seq<string>): string {
    Join(Arguments(members, roots, givenAway), " ")
  }

  // ---- Reading back

  /** `a.split("=", 1)[1]` of an argument that has an equals sign. */
  function AfterEquals(a: string): string {
    if IndexOf(a, '=') < |a| then a[IndexOf(a, '=') + 1..] else ""
  }

  function IgnoredBy(words: seq<string>): seq<string> {
    if words == [] then []
    else (if IGNORE <= words[0] then [AfterEquals(words[0])] else []) + IgnoredBy(words[1..])
  }

  function RootsOf(words: seq<string>): seq<string> {
    if words == [] then []
    else (if "--" <= words[0] then [] else [words[0]]) + RootsOf(words[1..])
  }

  predicate Collects(path: string, args: string) {
    !UnderAny(path, IgnoredBy(Words(args))) && UnderAny(path, RootsOf(Words(args)))
  }

  function CollectorNames(path: string, shards: seq<Shard>): seq<string> {
    if shards == [] then []
    else
      var last := shards[|shards| - 1];
      CollectorNames(path, shards[..|shards| - 1]) + if Collects(path, last.args) then [last.name] else []
  }

  /** The names of the shards that would collect `path`. */
  /** A shard is named if and only if it collects the path. */
  lemma {:induction false} CollectorIff(path: string, shards: seq<Shard>, name: string)
    ensures name in CollectorNames(path, shards) <==>
            exists shard :: shard in shards && Collects(path, shard.args) && shard.name == name
  {
    if shards != [] {
      var n := |shards| - 1;
      CollectorIff(path, shards[..n], name);
      assert shards == shards[..n] + [shards[n]];
    }
  }

  method Collectors(path: string, shards: seq<Shard>) returns (hits: seq<string>)
    ensures hits == CollectorNames(path, shards)
    ensures hits == [] <==> forall shard | shard in shards :: !Collects(path, shard.args)
  {
    hits := [];
    for i := 0 to |shards|
      invariant hits == CollectorNames(path, shards[..i])
      invariant hits == [] <==> forall shard | shard in shards[..i] :: !Collects(path, shard.args)
    {
      var shard := shards[i];
      assert shards[..i + 1][..i] == shards[..i] && shard in shards[..i + 1];
      var ignored := IgnoredBy(Words(shard.args));
      var roots := RootsOf(Words(shard.args));
      if UnderAny(path, ignored) {
        continue;
      }
      if UnderAny(path, roots) {
        hits := hits + [shard.name];
      }
    }
    assert shards[..|shards|] == shards;
  }

  /** A path that survives being one word of a command line. */
  predicate Plain(path: string) {
    path != [] && NoSpace(path) && !("--" <= path)
  }

  lemma FlagWord(path: string)
    requires Plain(path)
    ensures var flag := IGNORE + path;
            flag != [] && NoSpace(flag) && IGNORE <= flag && "--" <= flag && AfterEquals(flag) == path
  {
    var flag := IGNORE + path;
    assert flag[0] == '-' && flag[1] == '-' && flag[8] == '=';
    assert IndexOf(flag, '=') == 8 by {
      assert forall i | 0 <= i < 8 :: flag[i] != '=';
    }
    assert flag[9..] == path;
    forall c | c in flag ensures !IsSpace(c) {
      assert c in IGNORE || c in path;
    }
  }

  lemma {:induction false} FlagsRead(paths: seq<string>)
    requires forall path | path in paths :: Plain(path)
    ensures IgnoredBy(Flags(paths)) == paths && RootsOf(Flags(paths)) == []
  {
    if paths != [] {
      assert paths[0] in paths;
      FlagWord(paths[0]);
      FlagsRead(paths[1..]);
    }
  }

  lemma {:induction false} RootsRead(paths: seq<string>, rest: seq<string>)
    requires forall path | path in paths :: Plain(path)
    ensures IgnoredBy(paths + rest) == IgnoredBy(rest) && RootsOf(paths + rest) == paths + RootsOf(rest)
  {
    if paths == [] {
      assert paths + rest == rest;
    } else {
      assert paths[0] in paths && (paths + rest)[1..] == paths[1..] + rest;
      RootsRead(paths[1..], rest);
      assert [paths[0]] + (paths[1..] + RootsOf(rest)) == paths + RootsOf(rest);
      assert !(IGNORE <= paths[0]) by {
        assert IGNORE[..2] == "--";
      }
    }
  }

  lemma SameCover(path: string, a: seq<string>, b: seq<string>)
    requires forall x :: x in a <==> x in b
    ensures UnderAny(path, a) <==> UnderAny(path, b)
  {
  }

  /** Rendering and reading back agree: a roots shard collects what is under its roots and not given
      away, any other shard what is under its members. */
  lemma RenderCollects(path: string, members: seq<string>, roots: seq<string>, givenAway: seq<string>)
    requires forall p | p in members || p in roots || p in givenAway :: Plain(p)
    ensures Collects(path, RenderArgs(members, roots, givenAway)) <==>
      if roots != [] then UnderAny(path, roots) && !UnderAny(path, givenAway) else UnderAny(path, members)
  {
    var words := Arguments(members, roots, givenAway);
    var given := Sort(givenAway, StringLe);
    SortKeeps(givenAway, StringLe);
    SortKeeps(members, StringLe);
    forall w | w in words ensures w != [] && NoSpace(w) {
      if roots != [] && w in Flags(given) {
        var i :| 0 <= i < |given| && Flags(given)[i] == w;
        assert given[i] in given;
        FlagWord(given[i]);
      }
    }
    WordsOfJoin(words);
    if roots != [] {
      FlagsRead(given);
      RootsRead(roots, Flags(given));
      SameCover(path, given, givenAway);
    } else {
      RootsRead(Sort(members, StringLe), []);
      assert Sort(members, StringLe) + [] == Sort(members, StringLe);
      SameCover(path, Sort(members, StringLe), members);
    }
  }
}
