/** What the repacking promises. */
module PlanningTheorems {
  // Over any number of directories broken open.

  import opened Paths
  import opened Options
  import opened Sorting
  import opened Measuring
  import opened Packing
  import opened PackingTheorems
  import opened Planning

  // ---- The directories broken, in turn

  ghost function OpenAll(m: Measured, units: seq<string>, broken: seq<string>): seq<string>
    decreases |broken|
  {
    if broken == [] then units
    else OpenAll(m, Open(m, units, broken[0]), broken[1..])
  }

  ghost predicate EachOpens(m: Measured, units: seq<string>, broken: seq<string>)
    decreases |broken|
  {
    broken != [] ==>
      && broken[0] in units && Opens(m, broken[0])
      && EachOpens(m, Open(m, units, broken[0]), broken[1..])
  }

  /** The first of the heaviest bins. */
  ghost predicate IsHeaviest(m: Measured, packed: seq<seq<string>>, h: nat) {
    && h < |packed|
    && (forall b | 0 <= b < |packed| :: Load(m, packed[b]) <= Load(m, packed[h]))
    && (forall b | 0 <= b < h :: Load(m, packed[b]) < Load(m, packed[h]))
  }

  /** The first of the heaviest paths. */
  ghost predicate IsWorst(m: Measured, paths: seq<string>, i: nat) {
    && i < |paths|
    && (forall j | 0 <= j < |paths| :: m.Weight(paths[j]) <= m.Weight(paths[i]))
    && (forall j | 0 <= j < i :: m.Weight(paths[j]) < m.Weight(paths[i]))
  }

  /** The first of the heaviest of those that can be opened. */
  ghost predicate IsWorstOpenable(m: Measured, bin: seq<string>, i: nat) {
    && i < |bin| && Opens(m, bin[i])
    && (forall j | 0 <= j < |bin| && Opens(m, bin[j]) :: m.Weight(bin[j]) <= m.Weight(bin[i]))
    && (forall j | 0 <= j < i && Opens(m, bin[j]) :: m.Weight(bin[j]) < m.Weight(bin[i]))
  }

  /** The directory is what is to be opened in these bins: the heaviest that can be, of the heaviest bin, which is
      too heavy. */
  ghost predicate IsNext(m: Measured, packed: seq<seq<string>>, ideal: real, d: string) {
    exists h: nat, i: nat ::
      && IsHeaviest(m, packed, h) && Load(m, packed[h]) > ideal * BALANCE_TOLERANCE
      && IsWorstOpenable(m, packed[h], i) && packed[h][i] == d
  }

  /** Each was what was to be opened in the bins that the openings before it left. */
  ghost predicate InTurn(m: Measured, units: seq<string>, bins: nat, c: Conflict, ideal: real, broken: seq<string>)
    decreases |broken|
  {
    broken != [] ==>
      && PackUnits(m, units, bins, c).Placed?
      && IsNext(m, PackUnits(m, units, bins, c).bins, ideal, broken[0])
      && InTurn(m, Open(m, units, broken[0]), bins, c, ideal, broken[1..])
  }

  lemma {:induction false} HeaviestIsHeaviest(m: Measured, packed: seq<seq<string>>)
    requires packed != []
    ensures IsHeaviest(m, packed, Heaviest(m, packed))
  {
    var n := |packed| - 1;
    if n > 0 {
      HeaviestIsHeaviest(m, packed[..n]);
      var h := Heaviest(m, packed[..n]);
      assert packed[..n][h] == packed[h];
      forall b | 0 <= b < n ensures Load(m, packed[b]) <= Load(m, packed[h]) && (b < h ==> Load(m, packed[b]) < Load(m, packed[h])) {
        assert packed[..n][b] == packed[b];
      }
    }
  }

  lemma {:induction false} WorstIsWorst(m: Measured, paths: seq<string>) returns (i: nat)
    requires paths != []
    ensures IsWorst(m, paths, i) && paths[i] == Worst(m, paths)
  {
    var n := |paths| - 1;
    if n == 0 {
      i := 0;
    } else {
      i := WorstIsWorst(m, paths[..n]);
      assert paths[..n][i] == paths[i];
      forall j | 0 <= j < n ensures m.Weight(paths[j]) <= m.Weight(paths[i]) && (j < i ==> m.Weight(paths[j]) < m.Weight(paths[i])) {
        assert paths[..n][j] == paths[j];
      }
      if m.Weight(paths[n]) > m.Weight(paths[i]) {
        i := n;
      }
    }
  }

  /** Where an openable path stands in its bin, and which come before it. */
  lemma {:induction false} OpenableAt(m: Measured, bin: seq<string>, k: nat) returns (i: nat)
    requires k < |Openable(m, bin)|
    ensures i < |bin| && bin[i] == Openable(m, bin)[k] && Openable(m, bin[..i]) == Openable(m, bin)[..k]
  {
    if k == 0 && Opens(m, bin[0]) {
      i := 0;
    } else {
      var head := if Opens(m, bin[0]) then [bin[0]] else [];
      var j := OpenableAt(m, bin[1..], k - |head|);
      i := j + 1;
      assert bin[..i][1..] == bin[1..][..j];
      assert Openable(m, bin) == head + Openable(m, bin[1..]);
      assert Openable(m, bin[..i]) == head + Openable(m, bin[1..][..j]);
    }
  }

  lemma WorstOpenable(m: Measured, bin: seq<string>) returns (i: nat)
    requires Openable(m, bin) != []
    ensures IsWorstOpenable(m, bin, i) && bin[i] == Worst(m, Openable(m, bin))
  {
    var openable := Openable(m, bin);
    var k := WorstIsWorst(m, openable);
    i := OpenableAt(m, bin, k);
    assert openable[k] in openable;
    forall j | 0 <= j < |bin| && Opens(m, bin[j])
      ensures m.Weight(bin[j]) <= m.Weight(bin[i]) && (j < i ==> m.Weight(bin[j]) < m.Weight(bin[i]))
    {
      assert bin[j] in openable;
      if j < i {
        assert bin[..i][j] == bin[j];
        assert bin[j] in Openable(m, bin[..i]);
      }
    }
  }

  /** What the loop opens next is what is to be opened. */
  lemma NextIsNext(m: Measured, packed: seq<seq<string>>, ideal: real)
    requires packed != []
    ensures var next := Next(m, packed, ideal);
            && (next.Some? ==> IsNext(m, packed, ideal, next.value))
            && (next.None? <==> forall d :: !IsNext(m, packed, ideal, d))
  {
    var next, h := Next(m, packed, ideal), Heaviest(m, packed);
    HeaviestIsHeaviest(m, packed);
    if next.Some? {
      var i := WorstOpenable(m, packed[h]);
      assert IsHeaviest(m, packed, h) && IsWorstOpenable(m, packed[h], i) && packed[h][i] == next.value;
      assert IsNext(m, packed, ideal, next.value);
    }
  }

  /** A plan is one packing of what is left after opening some directories, each when it was to be opened, and
      it fails only if packing what some openings left failed. */
  lemma {:induction false} PlanIsPacking(m: Measured, units: seq<string>, bins: nat, c: Conflict, ideal: real)
    returns (broken: seq<string>)
    requires bins > 0 && Sound(m)
    ensures InTurn(m, units, bins, c, ideal, broken) && EachOpens(m, units, broken)
    ensures Plan(m, units, bins, c, ideal) == PackUnits(m, OpenAll(m, units, broken), bins, c)
    decreases Directories(units)
  {
    broken := [];
    var r := PackUnits(m, units, bins, c);
    if r.Placed? {
      var next := Next(m, r.bins, ideal);
      if next.Some? {
        NextIsUnit(m, units, bins, c, ideal);
        NextIsNext(m, r.bins, ideal);
        OpeningShrinks(m, units, next.value);
        var rest := PlanIsPacking(m, Open(m, units, next.value), bins, c, ideal);
        broken := [next.value] + rest;
      }
    }
  }

  // ---- How the loop ends

  /** At exit the heaviest bin is within the tolerance of the ideal, or nothing in it can be broken. */
  lemma {:induction false} PlanSettles(m: Measured, units: seq<string>, bins: nat, c: Conflict, ideal: real)
    returns (h: nat)
    requires bins > 0 && Sound(m) && Plan(m, units, bins, c, ideal).Placed?
    ensures var packed := Plan(m, units, bins, c, ideal).bins;
            && |packed| == bins && IsHeaviest(m, packed, h)
            && (Load(m, packed[h]) <= ideal * BALANCE_TOLERANCE || forall path | path in packed[h] :: !Opens(m, path))
    decreases Directories(units)
  {
    var packed := PackUnits(m, units, bins, c).bins;
    var next := Next(m, packed, ideal);
    if next.Some? {
      NextIsUnit(m, units, bins, c, ideal);
      OpeningShrinks(m, units, next.value);
      h := PlanSettles(m, Open(m, units, next.value), bins, c, ideal);
    } else {
      h := Heaviest(m, packed);
      HeaviestIsHeaviest(m, packed);
    }
  }

  // ---- Paths that never hold one another

  ghost predicate FilesApart(m: Measured) {
    forall a, b | a in m.fileSeconds.keys && b in m.fileSeconds.keys && a != b :: !Comparable(a, b)
  }

  lemma {:induction false} WithoutAntichain(units: seq<string>, d: string)
    requires Antichain(units)
    ensures Antichain(Without(units, d))
  {
    if units != [] {
      WithoutAntichain(units[1..], d);
      forall u | u in Without(units[1..], d) ensures !Comparable(units[0], u) {
        var i :| 0 <= i < |units[1..]| && units[1..][i] == u;
        assert units[i + 1] == u;
      }
    }
  }

  lemma {:induction false} AllBelowApart(names: seq<string>, d: string)
    requires Antichain(names)
    ensures Antichain(AllBelow(names, d))
  {
    if names != [] {
      AllBelowApart(names[1..], d);
      forall u | u in AllBelow(names[1..], d) ensures !Comparable(names[0], u) {
        var i :| 0 <= i < |names[1..]| && names[1..][i] == u;
        assert names[i + 1] == u;
      }
    }
  }

  lemma {:induction false} AntichainPermutes(a: seq<string>, b: seq<string>)
    requires multiset(a) == multiset(b) && Antichain(a)
    ensures Antichain(b)
  {
    forall i, j | 0 <= i < j < |b| ensures !Comparable(b[i], b[j]) {
      assert b[i] in multiset(a) && b[j] in multiset(a);
      var k :| 0 <= k < |a| && a[k] == b[i];
      var l :| 0 <= l < |a| && a[l] == b[j];
      if k == l {
        TwiceIn(b, i, j);
        OnceIn(a, k);
      }
    }
  }

  lemma TwiceIn(xs: seq<string>, i: nat, j: nat)
    requires i < j < |xs| && xs[i] == xs[j]
    ensures multiset(xs)[xs[i]] >= 2
  {
    assert xs == xs[..i] + [xs[i]] + xs[i + 1..j] + [xs[j]] + xs[j + 1..];
  }

  lemma OnceIn(xs: seq<string>, k: nat)
    requires k < |xs| && Antichain(xs)
    ensures multiset(xs)[xs[k]] == 1
  {
    assert xs == xs[..k] + [xs[k]] + xs[k + 1..];
    forall i | 0 <= i < |xs| && i != k ensures xs[i] != xs[k] {
      assert i < k ==> !Comparable(xs[i], xs[k]);
      assert k < i ==> !Comparable(xs[k], xs[i]);
    }
    assert xs[k] !in xs[..k] && xs[k] !in xs[k + 1..];
  }

  lemma DistinctNames(m: Measured)
    requires Sound(m) && FilesApart(m)
    ensures Antichain(m.fileSeconds.keys)
  {
    forall i, j | 0 <= i < j < |m.fileSeconds.keys| ensures !Comparable(m.fileSeconds.keys[i], m.fileSeconds.keys[j]) {
      assert m.fileSeconds.keys[i] != m.fileSeconds.keys[j];
    }
  }

  lemma FilesInAntichain(m: Measured, d: string)
    requires Sound(m) && FilesApart(m)
    ensures Antichain(m.FilesIn(d))
  {
    if d !in m.unsplittable {
      DistinctNames(m);
      AllBelowApart(m.fileSeconds.keys, d);
      StringOrder();
      SortCorrect(AllBelow(m.fileSeconds.keys, d), StringLe);
      AntichainPermutes(AllBelow(m.fileSeconds.keys, d), m.FilesIn(d));
    }
  }

  /** Opening a directory keeps the units apart and puts nothing outside what was there. */
  lemma OpenKeepsApart(m: Measured, units: seq<string>, d: string)
    requires Sound(m) && FilesApart(m) && Antichain(units) && d in units
    ensures Antichain(Open(m, units, d))
    ensures forall u | u in Open(m, units, d) :: UnderAny(u, units)
  {
    WithoutAntichain(units, d);
    FilesInAntichain(m, d);
    FilesInAreFiles(m, d);
    forall u, f | u in Without(units, d) && f in m.FilesIn(d) ensures !Comparable(u, f) {
      if Under(u, f) {
        UnderTransitive(u, f, d);
      } else if Under(f, u) {
        UnderComparable(f, u, d);
      }
      ApartMembers(units, u, d);
    }
  }

  lemma {:induction false} OpenAllKeepsApart(m: Measured, units: seq<string>, broken: seq<string>)
    requires Sound(m) && FilesApart(m) && Antichain(units) && EachOpens(m, units, broken)
    ensures Antichain(OpenAll(m, units, broken))
    ensures forall u | u in OpenAll(m, units, broken) :: UnderAny(u, units)
    decreases |broken|
  {
    if broken == [] {
      forall u | u in units ensures UnderAny(u, units) {
        assert Under(u, u);
      }
    } else {
      var next := Open(m, units, broken[0]);
      OpenKeepsApart(m, units, broken[0]);
      OpenAllKeepsApart(m, next, broken[1..]);
      forall u | u in OpenAll(m, units, broken) ensures UnderAny(u, units) {
        assert UnderAny(u, next);
        var v :| v in next && Under(u, v);
        var w :| w in units && Under(v, w);
        UnderTransitive(u, v, w);
      }
    }
  }

  // ---- The conflict rule, over any number of openings

  /** No bin of a plan holds members of modules from both sides. */
  lemma PlanStaysPeaceful(m: Measured, units: seq<string>, bins: nat, c: Conflict, ideal: real, b: nat, u: string, v: string)
    requires bins > 0 && Sound(m) && Disjoint(c) && Plan(m, units, bins, c, ideal).Placed?
    requires b < |Plan(m, units, bins, c, ideal).bins|
    requires u in Plan(m, units, bins, c, ideal).bins[b] && v in Plan(m, units, bins, c, ideal).bins[b]
    ensures !(ModuleOf(u) in c.owners && ModuleOf(v) in c.baseUsers)
  {
    var broken := PlanIsPacking(m, units, bins, c, ideal);
    var weights := ItemsFor(m, OpenAll(m, units, broken));
    var items := Sort(weights, ItemLe);
    RunStaysPeaceful(items, |items|, bins, c);
    var parts := PackPartitions(weights, bins, c);
    var bin := PackSpec(weights, bins, c).bins[b];
    assert Holds(bin, parts[b]);
    HeldModule(bin, parts[b], u);
    HeldModule(bin, parts[b], v);
    assert Peaceful(bin, c);
    assert ModuleOf(u) in c.owners ==> ModuleOf(u) in bin.held * c.owners;
    assert ModuleOf(v) in c.baseUsers ==> ModuleOf(v) in bin.held * c.baseUsers;
  }

  lemma HeldModule(bin: Bin, part: seq<Item>, u: string)
    requires Holds(bin, part) && u in bin.names
    ensures ModuleOf(u) in bin.held
  {
    var i :| 0 <= i < |bin.names| && bin.names[i] == u;
    assert part[i] in part && part[i].name == u;
  }

  // ---- Weight is conserved

  lemma {:induction false} LoadConcat(m: Measured, a: seq<string>, b: seq<string>)
    ensures Load(m, a + b) == Load(m, a) + Load(m, b)
  {
    if b == [] {
      assert a + b == a;
    } else {
      var n := |b| - 1;
      LoadConcat(m, a, b[..n]);
      assert (a + b)[..|a + b| - 1] == a + b[..n];
    }
  }

  lemma LoadOne(m: Measured, u: string)
    ensures Load(m, [u]) == m.Weight(u)
  {
    assert [u][..0] == [];
  }

  lemma {:induction false} LoadPermutes(m: Measured, a: seq<string>, b: seq<string>)
    requires multiset(a) == multiset(b)
    ensures Load(m, a) == Load(m, b)
    decreases |a|
  {
    assert |multiset(a)| == |multiset(b)|;
    if a != [] {
      assert a[0] in multiset(b);
      var i :| 0 <= i < |b| && b[i] == a[0];
      var a' := TakePath(m, a, 0);
      var b' := TakePath(m, b, i);
      LoadPermutes(m, a', b');
    }
  }

  lemma TakePath(m: Measured, xs: seq<string>, i: nat) returns (rest: seq<string>)
    requires i < |xs|
    ensures |rest| < |xs|
    ensures multiset(rest) == multiset(xs) - multiset{xs[i]}
    ensures Load(m, xs) == Load(m, rest) + m.Weight(xs[i])
  {
    var p, q := xs[..i], xs[i + 1..];
    rest := p + q;
    assert xs == p + [xs[i]] + q;
    LoadConcat(m, p + [xs[i]], q);
    LoadConcat(m, p, [xs[i]]);
    LoadConcat(m, p, q);
    LoadOne(m, xs[i]);
  }

  lemma {:induction false} WithoutLoad(m: Measured, units: seq<string>, d: string)
    requires Antichain(units)
    ensures Load(m, units) == Load(m, Without(units, d)) + if d in units then m.Weight(d) else 0.0
  {
    if units != [] {
      var u, rest := units[0], units[1..];
      WithoutLoad(m, rest, d);
      assert units == [u] + rest;
      LoadConcat(m, [u], rest);
      LoadOne(m, u);
      if u == d {
        forall i | 0 <= i < |rest| ensures rest[i] != d {
          assert !Comparable(units[0], units[i + 1]);
        }
        assert d !in rest;
        assert Without(units, d) == Without(rest, d);
      } else {
        LoadConcat(m, [u], Without(rest, d));
      }
    }
  }

  /** Every directory that may be opened is accounted for by its files. */
  ghost predicate Exact(m: Measured, units: seq<string>) {
    forall d | d in units && Opens(m, d) :: Load(m, m.FilesIn(d)) == m.Weight(d)
  }

  lemma OpenKeepsLoad(m: Measured, units: seq<string>, d: string)
    requires Exact(m, units) && Antichain(units) && d in units && Opens(m, d)
    ensures Load(m, Open(m, units, d)) == Load(m, units)
  {
    WithoutLoad(m, units, d);
    LoadConcat(m, Without(units, d), m.FilesIn(d));
  }

  lemma {:induction false} OpenAllKeepsLoad(m: Measured, units: seq<string>, broken: seq<string>)
    requires Sound(m) && FilesApart(m) && Exact(m, units) && Antichain(units) && EachOpens(m, units, broken)
    ensures Load(m, OpenAll(m, units, broken)) == Load(m, units)
    decreases |broken|
  {
    if broken != [] {
      OpenKeepsApart(m, units, broken[0]);
      OpenKeepsLoad(m, units, broken[0]);
      FilesInAreFiles(m, broken[0]);
      OpenAllKeepsLoad(m, Open(m, units, broken[0]), broken[1..]);
    }
  }

  ghost function LoadOfAll(m: Measured, packed: seq<seq<string>>): real {
    if packed == [] then 0.0 else Load(m, packed[0]) + LoadOfAll(m, packed[1..])
  }

  ghost function Concat(packed: seq<seq<string>>): seq<string> {
    if packed == [] then [] else packed[0] + Concat(packed[1..])
  }

  lemma {:induction false} ConcatKeeps(m: Measured, packed: seq<seq<string>>)
    ensures multiset(Concat(packed)) == AllOf(packed)
    ensures Load(m, Concat(packed)) == LoadOfAll(m, packed)
  {
    if packed != [] {
      ConcatKeeps(m, packed[1..]);
      LoadConcat(m, packed[0], Concat(packed[1..]));
    }
  }

  /** Breaking directories open moves weight about and loses none: the bins of the plan together
      weigh what the paths given to it weighed. */
  lemma PlanConservesWeight(m: Measured, paths: seq<string>, bins: nat, c: Conflict, ideal: real)
    requires bins > 0 && Sound(m) && FilesApart(m) && Exact(m, paths) && Antichain(paths)
    requires Plan(m, paths, bins, c, ideal).Placed?
    ensures LoadOfAll(m, Plan(m, paths, bins, c, ideal).bins) == Load(m, paths)
  {
    var broken := PlanIsPacking(m, paths, bins, c, ideal);
    var packed := Plan(m, paths, bins, c, ideal).bins;
    PackedUnits(m, OpenAll(m, paths, broken), bins, c);
    ConcatKeeps(m, packed);
    LoadPermutes(m, Concat(packed), OpenAll(m, paths, broken));
    OpenAllKeepsLoad(m, paths, broken);
  }

  // ---- Measuring meets what planning needs

  lemma {:induction false} AllBelowConcat(a: seq<string>, b: seq<string>, d: string)
    ensures AllBelow(a + b, d) == AllBelow(a, d) + AllBelow(b, d)
  {
    if a == [] {
      assert a + b == b;
    } else {
      AllBelowConcat(a[1..], b, d);
      var head := if Below(a[0], d) then [a[0]] else [];
      assert (a + b)[1..] == a[1..] + b && (a + b)[0] == a[0];
      assert head + (AllBelow(a[1..], d) + AllBelow(b, d)) == (head + AllBelow(a[1..], d)) + AllBelow(b, d);
    }
  }

  lemma {:induction false} CoveredIsLoad(m: Measured, names: seq<string>, d: string)
    requires forall f | f in names :: IsFile(f)
    ensures Load(m, AllBelow(names, d)) == Covered(names, m.fileSeconds, d)
  {
    if names != [] {
      var n := |names| - 1;
      assert names == names[..n] + [names[n]] && names[n] in names;
      CoveredIsLoad(m, names[..n], d);
      AllBelowConcat(names[..n], [names[n]], d);
      LoadConcat(m, AllBelow(names[..n], d), AllBelow([names[n]], d));
      LoadOne(m, names[n]);
    }
  }

  lemma MeasuredIsSound(m: Measured, cases: seq<Case>, files: set<string>)
    requires SumsDirectories(m.seconds, cases) && SumsFiles(m.fileSeconds, cases, files)
    ensures Sound(m)
    ensures forall f | f in m.fileSeconds.keys :: f in files
  {
    forall f | f in m.fileSeconds.keys ensures IsFile(f) && f in files && m.seconds.keys != [] {
      var c :| c in cases && Resolve(files, c.directory, c.tail) == Some(f);
      ResolvedBelow(files, c);
      assert c.directory in m.seconds.keys;
    }
    if m.fileSeconds.keys != [] {
      assert m.fileSeconds.keys[0] in m.fileSeconds.keys;
    }
  }

  /** In a report whose directories hold neither each other nor any other path being planned, every
      directory the planner may open weighs exactly what its files weigh. */
  lemma MeasuredIsExact(m: Measured, cases: seq<Case>, files: set<string>, paths: seq<string>)
    requires SumsDirectories(m.seconds, cases) && SumsFiles(m.fileSeconds, cases, files)
    requires forall e :: e in m.unsplittable <==> Unsplittable(cases, files, e)
    requires forall c, d | c in cases && d in paths && c.directory != d :: !Comparable(c.directory, d)
    ensures Exact(m, paths)
  {
    MeasuredIsSound(m, cases, files);
    forall d | d in paths && Opens(m, d) ensures Load(m, m.FilesIn(d)) == m.Weight(d) {
      MeasuredFilesIn(m, cases, files, d);
      CoveredExactly(cases, files, d);
      StringOrder();
      SortCorrect(AllBelow(m.fileSeconds.keys, d), StringLe);
      LoadPermutes(m, AllBelow(m.fileSeconds.keys, d), m.FilesIn(d));
      CoveredIsLoad(m, m.fileSeconds.keys, d);
    }
  }

  lemma MeasuredFilesIn(m: Measured, cases: seq<Case>, files: set<string>, d: string)
    requires SumsDirectories(m.seconds, cases) && SumsFiles(m.fileSeconds, cases, files)
    requires forall c | c in cases && c.directory != d :: !Comparable(c.directory, d)
    requires m.FilesIn(d) != []
    ensures d in m.seconds.keys
  {
    MeasuredIsSound(m, cases, files);
    FilesInAreFiles(m, d);
    var f := m.FilesIn(d)[0];
    assert f in m.FilesIn(d);
    var c :| c in cases && Resolve(files, c.directory, c.tail) == Some(f);
    ResolvedBelow(files, c);
    UnderComparable(f, d, c.directory);
  }
}
