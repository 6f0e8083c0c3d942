/** Packing, opening directories. */
module Planning {
  // Whole directories first, and one directory of the heaviest bin broken open into its files at a time,
  // until the heaviest bin is close enough to the ideal.

  import opened Paths
  import opened Options
  import opened Sorting
  import opened Measuring
  import opened Packing
  import opened PackingTheorems

  const BALANCE_TOLERANCE := 1.05

  function Load(m: Measured, bin: seq<string>): real {
    if bin == [] then 0.0 else Load(m, bin[..|bin| - 1]) + m.Weight(bin[|bin| - 1])
  }

  function ItemsFor(m: Measured, units: seq<string>): seq<Item> {
    seq(|units|, i requires 0 <= i < |units| => Item(units[i], m.Weight(units[i])))
  }

  function Ideal(m: Measured, paths: seq<string>, bins: nat): real
    requires bins > 0
  {
    Load(m, paths) / bins as real
  }

  /** `max(packed, key=load)`: the first of the heaviest. */
  function Heaviest(m: Measured, packed: seq<seq<string>>): (h: nat)
    requires packed != []
    ensures h < |packed|
  {
    var n := |packed| - 1;
    if n == 0 then 0
    else
      var h := Heaviest(m, packed[..n]);
      if Load(m, packed[n]) > Load(m, packed[h]) then n else h
  }

  predicate Opens(m: Measured, path: string) {
    !IsFile(path) && |m.FilesIn(path)| > 1
  }

  function Openable(m: Measured, bin: seq<string>): (r: seq<string>)
    ensures forall path :: path in r <==> path in bin && Opens(m, path)
  {
    if bin == [] then []
    else (if Opens(m, bin[0]) then [bin[0]] else []) + Openable(m, bin[1..])
  }

  /** `max(openable, key=measured.weight)`. */
  function Worst(m: Measured, openable: seq<string>): (worst: string)
    requires openable != []
    ensures worst in openable
  {
    var n := |openable| - 1;
    if n == 0 then openable[0]
    else
      var worst := Worst(m, openable[..n]);
      if m.Weight(openable[n]) > m.Weight(worst) then openable[n] else worst
  }

  /** The directory to break open next, if any. */
  function Next(m: Measured, packed: seq<seq<string>>, ideal: real): Option<string>
    requires packed != []
  {
    var heaviest := packed[Heaviest(m, packed)];
    if Load(m, heaviest) <= ideal * BALANCE_TOLERANCE then None
    else if Openable(m, heaviest) == [] then None
    else Some(Worst(m, Openable(m, heaviest)))
  }

  function Without(units: seq<string>, d: string): (r: seq<string>)
    ensures forall u :: u in r <==> u in units && u != d
  {
    if units == [] then []
    else (if units[0] == d then [] else [units[0]]) + Without(units[1..], d)
  }

  function Open(m: Measured, units: seq<string>, d: string): seq<string> {
    Without(units, d) + m.FilesIn(d)
  }

  function Directories(units: seq<string>): nat {
    if units == [] then 0 else (if IsFile(units[0]) then 0 else 1) + Directories(units[1..])
  }

  /** What measuring guarantees: the file counter is a dictionary of files. */
  ghost predicate Sound(m: Measured) {
    && m.fileSeconds.Valid()
    && (forall f :: f in m.fileSeconds.keys ==> IsFile(f))
    && (m.fileSeconds.keys != [] ==> m.seconds.keys != [])
  }

  // ---- What packing does to a list of paths

  ghost function AllOf(bins: seq<seq<string>>): multiset<string> {
    if bins == [] then multiset{} else multiset(bins[0]) + AllOf(bins[1..])
  }

  ghost function Flatten(parts: seq<seq<Item>>): seq<Item> {
    if parts == [] then [] else parts[0] + Flatten(parts[1..])
  }

  lemma {:induction false} FlattenKeeps(parts: seq<seq<Item>>, bins: seq<seq<string>>)
    requires |parts| == |bins| && forall b | 0 <= b < |bins| :: bins[b] == Names(parts[b])
    ensures multiset(Flatten(parts)) == Contents(parts)
    ensures multiset(Names(Flatten(parts))) == AllOf(bins)
  {
    if parts != [] {
      FlattenKeeps(parts[1..], bins[1..]);
      assert Names(parts[0] + Flatten(parts[1..])) == Names(parts[0]) + Names(Flatten(parts[1..]));
    }
  }

  lemma {:induction false} NamesPermute(a: seq<Item>, b: seq<Item>)
    requires multiset(a) == multiset(b)
    ensures multiset(Names(a)) == multiset(Names(b))
    decreases |a|
  {
    assert |multiset(a)| == |multiset(b)|;
    if a != [] {
      assert a[0] in multiset(b);
      var i :| 0 <= i < |b| && b[i] == a[0];
      var a' := TakeAt(a, 0);
      var b' := TakeAt(b, i);
      NamesPermute(a', b');
    }
  }

  lemma TakeAt(items: seq<Item>, i: nat) returns (rest: seq<Item>)
    requires i < |items|
    ensures |rest| < |items|
    ensures multiset(rest) == multiset(items) - multiset{items[i]}
    ensures multiset(Names(items)) == multiset(Names(rest)) + multiset{items[i].name}
  {
    var p, x, q := items[..i], items[i], items[i + 1..];
    rest := p + q;
    assert items == p + [x] + q;
    assert Names(items) == Names(p) + [x.name] + Names(q);
    assert Names(p + q) == Names(p) + Names(q);
  }

  lemma {:induction false} LoadIsWeight(m: Measured, part: seq<Item>)
    requires forall x | x in part :: x.weight == m.Weight(x.name)
    ensures Load(m, Names(part)) == Weight(part)
  {
    if part != [] {
      var n := |part| - 1;
      assert part[n] in part;
      LoadIsWeight(m, part[..n]);
      assert Names(part)[..n] == Names(part[..n]);
    }
  }

  /** Packing shares the paths out as they are, and the loads it balanced are their weights. */
  lemma PackedUnits(m: Measured, units: seq<string>, bins: nat, c: Conflict)
    requires PackUnits(m, units, bins, c).Placed?
    ensures var packed := PackUnits(m, units, bins, c).bins;
            && |packed| == bins && AllOf(packed) == multiset(units)
            && forall b | 0 <= b < bins :: Load(m, packed[b]) == PackSpec(ItemsFor(m, units), bins, c).bins[b].load
  {
    var items := ItemsFor(m, units);
    var packed := PackUnits(m, units, bins, c).bins;
    var parts := PackPartitions(items, bins, c);
    assert forall b | 0 <= b < bins :: packed[b] == Names(parts[b]) by {
      assert forall b | 0 <= b < bins :: Holds(PackSpec(items, bins, c).bins[b], parts[b]);
    }
    FlattenKeeps(parts, packed);
    NamesPermute(Flatten(parts), items);
    assert Names(items) == units;
    forall b | 0 <= b < bins ensures Load(m, packed[b]) == PackSpec(items, bins, c).bins[b].load {
      assert Holds(PackSpec(items, bins, c).bins[b], parts[b]);
      forall x: Item | x in parts[b] ensures x.weight == m.Weight(x.name) {
        PartInContents(parts, b, x);
        assert x in multiset(items);
      }
      LoadIsWeight(m, parts[b]);
    }
  }

  lemma {:induction false} MemberOf(bins: seq<seq<string>>, b: nat, u: string)
    requires b < |bins| && u in bins[b]
    ensures u in AllOf(bins)
  {
    if b > 0 {
      MemberOf(bins[1..], b - 1, u);
    }
  }

  lemma {:induction false} DirectoriesConcat(a: seq<string>, b: seq<string>)
    ensures Directories(a + b) == Directories(a) + Directories(b)
  {
    if a == [] {
      assert a + b == b;
    } else {
      DirectoriesConcat(a[1..], b);
      assert (a + b)[1..] == a[1..] + b;
    }
  }

  lemma {:induction false} NoDirectories(files: seq<string>)
    requires forall f | f in files :: IsFile(f)
    ensures Directories(files) == 0
  {
    if files != [] {
      assert files[0] in files;
      NoDirectories(files[1..]);
    }
  }

  lemma {:induction false} DirectoriesAtMost(units: seq<string>)
    ensures Directories(units) <= |units|
  {
    if units != [] {
      DirectoriesAtMost(units[1..]);
    }
  }

  lemma {:induction false} WithoutShrinks(units: seq<string>, d: string)
    ensures Directories(Without(units, d)) <= Directories(units)
    ensures d in units && !IsFile(d) ==> Directories(Without(units, d)) < Directories(units)
  {
    if units != [] {
      WithoutShrinks(units[1..], d);
      DirectoriesConcat(if units[0] == d then [] else [units[0]], Without(units[1..], d));
    }
  }

  lemma FilesInAreFiles(m: Measured, d: string)
    requires Sound(m)
    ensures forall f :: f in m.FilesIn(d) ==> f in m.fileSeconds.keys && IsFile(f) && Below(f, d)
  {
    StringOrder();
    SortCorrect(AllBelow(m.fileSeconds.keys, d), StringLe);
  }

  lemma OpeningShrinks(m: Measured, units: seq<string>, d: string)
    requires Sound(m) && d in units && Opens(m, d)
    ensures Directories(Open(m, units, d)) < Directories(units)
    ensures m.fileSeconds.keys != []
  {
    FilesInAreFiles(m, d);
    assert m.FilesIn(d)[0] in m.fileSeconds.keys;
    NoDirectories(m.FilesIn(d));
    WithoutShrinks(units, d);
    DirectoriesConcat(Without(units, d), m.FilesIn(d));
  }

  /** A directory chosen to be opened is one of the units just packed. */
  lemma NextIsUnit(m: Measured, units: seq<string>, bins: nat, c: Conflict, ideal: real)
    requires bins > 0 && PackUnits(m, units, bins, c).Placed?
    ensures var next := Next(m, PackUnits(m, units, bins, c).bins, ideal);
            next.Some? ==> next.value in units && Opens(m, next.value)
  {
    PackedUnits(m, units, bins, c);
    var packed := PackUnits(m, units, bins, c).bins;
    var next := Next(m, packed, ideal);
    if next.Some? {
      MemberOf(packed, Heaviest(m, packed), next.value);
    }
  }

  function PackUnits(m: Measured, units: seq<string>, bins: nat, c: Conflict): PackResult {
    ResultOf(PackSpec(ItemsFor(m, units), bins, c))
  }

  lemma NothingToOpen(m: Measured, bins: nat, c: Conflict, ideal: real)
    requires bins > 0 && PackUnits(m, [], bins, c).Placed?
    ensures Next(m, PackUnits(m, [], bins, c).bins, ideal) == None
  {
    NextIsUnit(m, [], bins, c, ideal);
  }

  /** The plan with no bound on how many directories are opened; every opening leaves fewer. */
  ghost function Plan(m: Measured, units: seq<string>, bins: nat, c: Conflict, ideal: real): PackResult
    requires bins > 0 && Sound(m)
    decreases Directories(units)
  {
    match PackUnits(m, units, bins, c)
    case Exit(name) => Exit(name)
    case Placed(packed) =>
      match Next(m, packed, ideal)
      case None => Placed(packed)
      case Some(d) =>
        NextIsUnit(m, units, bins, c, ideal);
        OpeningShrinks(m, units, d);
        Plan(m, Open(m, units, d), bins, c, ideal)
  }

  /** How many directories such a plan opens. */
  ghost function Openings(m: Measured, units: seq<string>, bins: nat, c: Conflict, ideal: real): nat
    requires bins > 0 && Sound(m)
    decreases Directories(units)
  {
    match PackUnits(m, units, bins, c)
    case Exit(_) => 0
    case Placed(packed) =>
      match Next(m, packed, ideal)
      case None => 0
      case Some(d) =>
        NextIsUnit(m, units, bins, c, ideal);
        OpeningShrinks(m, units, d);
        1 + Openings(m, Open(m, units, d), bins, c, ideal)
  }

  /** Fewer than the rounds the loop is allowed, as long as there is anything to pack. */
  lemma {:induction false} OpeningsFit(m: Measured, paths: seq<string>, bins: nat, c: Conflict, ideal: real)
    requires bins > 0 && Sound(m)
    ensures Openings(m, paths, bins, c, ideal) <= Directories(paths) <= |paths|
    ensures paths != [] ==> Openings(m, paths, bins, c, ideal) < |paths| + |m.seconds.keys|
    decreases Directories(paths)
  {
    DirectoriesAtMost(paths);
    var r := PackUnits(m, paths, bins, c);
    if r.Placed? {
      var next := Next(m, r.bins, ideal);
      if next.Some? {
        NextIsUnit(m, paths, bins, c, ideal);
        OpeningShrinks(m, paths, next.value);
        OpeningsFit(m, Open(m, paths, next.value), bins, c, ideal);
      }
    }
  }

  method PlanBins(paths: seq<string>, m: Measured, bins: nat, conflict: Conflict) returns (r: PackResult)
    requires bins > 0 && Sound(m)
    ensures r == Plan(m, paths, bins, conflict, Ideal(m, paths, bins))
  {
    var units := paths;
    var ideal := Ideal(m, paths, bins);
    r := Pack(ItemsFor(m, units), bins, conflict);
    if r.Exit? {
      return;
    }
    var packed := r.bins;
    OpeningsFit(m, paths, bins, conflict, ideal);
    ghost var settled := false;
    for i := 0 to |paths| + |m.seconds.keys|
      invariant |packed| == bins && PackUnits(m, units, bins, conflict) == Placed(packed)
      invariant Plan(m, units, bins, conflict, ideal) == Plan(m, paths, bins, conflict, ideal)
      invariant Openings(m, units, bins, conflict, ideal) + i == Openings(m, paths, bins, conflict, ideal)
      invariant !settled && (paths == [] ==> units == [])
    {
      var heaviest := packed[Heaviest(m, packed)];
      if Load(m, heaviest) <= ideal * BALANCE_TOLERANCE {
        settled := true;
        break;
      }
      var openable := Openable(m, heaviest);
      if openable == [] {
        settled := true;
        break;
      }
      var worst := Worst(m, openable);
      NextIsUnit(m, units, bins, conflict, ideal);
      OpeningShrinks(m, units, worst);
      units := Open(m, units, worst);
      r := Pack(ItemsFor(m, units), bins, conflict);
      if r.Exit? {
        return;
      }
      packed := r.bins;
    }
    if !settled {
      assert paths == [];
      NothingToOpen(m, bins, conflict, ideal);
    }
    r := Placed(packed);
  }
}
