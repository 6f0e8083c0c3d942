/** What the packer promises. */
module PackingTheorems {
  // A partition of its items, never two fighting modules in one bin, failure only when forced at that
  // step, the same answer for any input order, and the 4/3 bound.

  import opened Sorting
  import opened Packing
  import LptBound

  // ---- Weights and partitions

  ghost function Weight(items: seq<Item>): real {
    if items == [] then 0.0 else Weight(items[..|items| - 1]) + items[|items| - 1].weight
  }

  lemma {:induction false} WeightConcat(a: seq<Item>, b: seq<Item>)
    ensures Weight(a + b) == Weight(a) + Weight(b)
  {
    if b == [] {
      assert a + b == a;
    } else {
      var n := |b| - 1;
      WeightConcat(a, b[..n]);
      assert (a + b)[..|a + b| - 1] == a + b[..n];
    }
  }

  ghost function Contents(parts: seq<seq<Item>>): multiset<Item> {
    if parts == [] then multiset{} else multiset(parts[0]) + Contents(parts[1..])
  }

  lemma SumTail(a: multiset<Item>, b: multiset<Item>, x: multiset<Item>, d: multiset<Item>, y: multiset<Item>)
    requires b + x == d + y
    ensures (a + b) + x == (a + d) + y
  {
    assert (a + b) + x == a + (b + x);
    assert (a + d) + y == a + (d + y);
  }

  lemma SumCancel(a: multiset<Item>, b: multiset<Item>, x: multiset<Item>, y: multiset<Item>)
    requires a + x == b + (x + y)
    ensures a == b + y
  {
    forall e ensures a[e] == (b + y)[e] {
      assert (a + x)[e] == a[e] + x[e];
      assert (b + (x + y))[e] == b[e] + x[e] + y[e];
    }
  }

  lemma {:induction false} ContentsUpdate(parts: seq<seq<Item>>, b: nat, part: seq<Item>)
    requires b < |parts|
    ensures Contents(parts[b := part]) + multiset(parts[b]) == Contents(parts) + multiset(part)
  {
    if b == 0 {
      assert parts[0 := part][1..] == parts[1..];
    } else {
      ContentsUpdate(parts[1..], b - 1, part);
      assert parts[b := part][1..] == parts[1..][b - 1 := part];
      SumTail(multiset(parts[0]), Contents(parts[1..][b - 1 := part]), multiset(parts[b]), Contents(parts[1..]), multiset(part));
    }
  }

  lemma {:induction false} ContentsMember(parts: seq<seq<Item>>, x: Item) returns (b: nat, i: nat)
    requires x in Contents(parts)
    ensures b < |parts| && i < |parts[b]| && parts[b][i] == x
  {
    if x in multiset(parts[0]) {
      assert x in parts[0];
      b, i := 0, 0;
      i :| 0 <= i < |parts[0]| && parts[0][i] == x;
    } else {
      b, i := ContentsMember(parts[1..], x);
      b := b + 1;
    }
  }

  lemma {:induction false} NothingIn(parts: seq<seq<Item>>, b: nat)
    requires b < |parts| && Contents(parts) == multiset{}
    ensures parts[b] == []
  {
    if b == 0 {
      assert multiset(parts[0]) <= Contents(parts);
      assert |multiset(parts[0])| == |parts[0]|;
    } else {
      assert Contents(parts[1..]) <= Contents(parts);
      NothingIn(parts[1..], b - 1);
    }
  }

  lemma {:induction false} NothingYet(m: nat)
    ensures Contents(seq(m, _ => [])) == multiset{}
  {
    if m > 0 {
      NothingYet(m - 1);
      assert seq<seq<Item>>(m, _ => [])[1..] == seq(m - 1, _ => []);
    }
  }

  /** The same items shared out into `m` parts, none lost and none doubled. */
  ghost predicate Partition(parts: seq<seq<Item>>, items: seq<Item>, m: nat) {
    |parts| == m && Contents(parts) == multiset(items)
  }

  ghost function Names(items: seq<Item>): seq<string> {
    seq(|items|, i requires 0 <= i < |items| => items[i].name)
  }

  ghost function Modules(items: seq<Item>): set<string> {
    set item | item in items :: ModuleOf(item.name)
  }

  /** The items each bin received, in the order it received them. */
  ghost function Parts(items: seq<Item>, k: nat, m: nat, c: Conflict): (parts: seq<seq<Item>>)
    requires k <= |items| && Run(items, k, m, c).Packed?
    ensures |parts| == m
  {
    if k == 0 then seq(m, _ => [])
    else
      var before := Parts(items, k - 1, m, c);
      var bins := Run(items, k - 1, m, c).bins;
      var t := Target(bins, ModuleOf(items[k - 1].name), c, m);
      before[t := before[t] + [items[k - 1]]]
  }

  ghost predicate Holds(bin: Bin, part: seq<Item>) {
    bin.names == Names(part) && bin.load == Weight(part) && bin.held == Modules(part)
  }

  lemma AddHolds(bin: Bin, part: seq<Item>, item: Item)
    requires Holds(bin, part)
    ensures Holds(Add(bin, item), part + [item])
  {
    WeightConcat(part, [item]);
    assert Weight([item]) == Weight([]) + item.weight by { assert [item][..0] == []; }
    assert Names(part + [item]) == Names(part) + [item.name];
    assert Modules(part + [item]) == Modules(part) + {ModuleOf(item.name)} by {
      forall x ensures x in Modules(part + [item]) <==> x in Modules(part) + {ModuleOf(item.name)} {
        assert item in part + [item];
      }
    }
  }

  lemma ContentsAppend(parts: seq<seq<Item>>, t: nat, item: Item)
    requires t < |parts|
    ensures Contents(parts[t := parts[t] + [item]]) == Contents(parts) + multiset{item}
  {
    ContentsUpdate(parts, t, parts[t] + [item]);
    SumCancel(Contents(parts[t := parts[t] + [item]]), Contents(parts), multiset(parts[t]), multiset{item});
  }

  lemma PrefixGrows(items: seq<Item>, k: nat)
    requires k < |items|
    ensures multiset(items[..k + 1]) == multiset(items[..k]) + multiset{items[k]}
  {
    assert items[..k + 1] == items[..k] + [items[k]];
  }

  lemma RunStep(items: seq<Item>, k: nat, m: nat, c: Conflict) returns (t: nat)
    requires k < |items| && Run(items, k + 1, m, c).Packed?
    ensures t < m && Run(items, k, m, c).Packed?
    ensures Run(items, k + 1, m, c).bins ==
            Run(items, k, m, c).bins[t := Add(Run(items, k, m, c).bins[t], items[k])]
    ensures t == Target(Run(items, k, m, c).bins, ModuleOf(items[k].name), c, m)
  {
    t := Target(Run(items, k, m, c).bins, ModuleOf(items[k].name), c, m);
  }

  /** Every item is in exactly one bin. */
  lemma {:induction false} RunPartitions(items: seq<Item>, k: nat, m: nat, c: Conflict)
    requires k <= |items| && Run(items, k, m, c).Packed?
    ensures Partition(Parts(items, k, m, c), items[..k], m)
  {
    if k == 0 {
      NothingYet(m);
    } else {
      RunPartitions(items, k - 1, m, c);
      var t := RunStep(items, k - 1, m, c);
      ContentsAppend(Parts(items, k - 1, m, c), t, items[k - 1]);
      PrefixGrows(items, k - 1);
    }
  }

  /** Each bin's record is the truth about its members. */
  lemma {:induction false} RunRecords(items: seq<Item>, k: nat, m: nat, c: Conflict)
    requires k <= |items| && Run(items, k, m, c).Packed?
    ensures forall b | 0 <= b < m :: Holds(Run(items, k, m, c).bins[b], Parts(items, k, m, c)[b])
  {
    if k == 0 {
      assert Holds(Bin(0.0, [], {}), []);
    } else {
      RunRecords(items, k - 1, m, c);
      var t := RunStep(items, k - 1, m, c);
      AddHolds(Run(items, k - 1, m, c).bins[t], Parts(items, k - 1, m, c)[t], items[k - 1]);
    }
  }

  /** The packer's whole result: sorting first loses nothing either. */
  lemma PackPartitions(weights: seq<Item>, m: nat, c: Conflict) returns (parts: seq<seq<Item>>)
    requires PackSpec(weights, m, c).Packed?
    ensures Partition(parts, weights, m)
    ensures forall b | 0 <= b < m :: Holds(PackSpec(weights, m, c).bins[b], parts[b])
  {
    var items := Sort(weights, ItemLe);
    ItemOrder();
    SortCorrect(weights, ItemLe);
    parts := Parts(items, |items|, m, c);
    RunPartitions(items, |items|, m, c);
    RunRecords(items, |items|, m, c);
    assert items[..|items|] == items;
  }

  // ---- The order of packing

  /** `a` is packed before `b`: it weighs more, or the same and its name is smaller where the two first differ. */
  ghost predicate Before(a: Item, b: Item) {
    a.weight > b.weight || (a.weight == b.weight && exists k: nat :: SmallerAt(a.name, b.name, k))
  }

  /** The packer takes the items themselves, heaviest first and equal ones by name. */
  lemma PackedInOrder(weights: seq<Item>)
    ensures var items := Sort(weights, ItemLe);
            multiset(items) == multiset(weights) && forall i, j | 0 <= i < j < |items| :: Before(items[i], items[j])
  {
    ItemOrder();
    SortCorrect(weights, ItemLe);
    var items := Sort(weights, ItemLe);
    forall i, j | 0 <= i < j < |items| ensures Before(items[i], items[j]) {
      assert ItemLe(items[i], items[j]);
      StringLeIff(items[i].name, items[j].name);
    }
  }

  // ---- The order of the input does not matter

  lemma ItemOrder()
    ensures TotalOrder(ItemLe)
  {
    StringOrder();
  }

  /** "The same answer every time": even when the items arrive in another order. */
  lemma PackIgnoresOrder(a: seq<Item>, b: seq<Item>, m: nat, c: Conflict)
    requires multiset(a) == multiset(b)
    ensures PackSpec(a, m, c) == PackSpec(b, m, c)
  {
    ItemOrder();
    SortCanonical(a, b, ItemLe);
  }

  // ---- The conflict rule

  ghost predicate Disjoint(c: Conflict) {
    c.owners * c.baseUsers == {}
  }

  ghost predicate Peaceful(bin: Bin, c: Conflict) {
    bin.held * c.owners == {} || bin.held * c.baseUsers == {}
  }

  /** `bin` already holds a module whose session worker `mod` would fight. */
  ghost predicate Opposes(bin: Bin, mod: string, c: Conflict) {
    || (mod in c.owners && exists other :: other in bin.held && other in c.baseUsers)
    || (mod in c.baseUsers && exists other :: other in bin.held && other in c.owners)
  }

  lemma AllowedIffNotOpposed(bin: Bin, mod: string, c: Conflict)
    requires Disjoint(c)
    ensures Allowed(bin, mod, c) <==> !Opposes(bin, mod, c)
  {
    assert mod in c.owners ==> mod !in c.baseUsers by {
      assert mod in c.owners && mod in c.baseUsers ==> mod in c.owners * c.baseUsers;
    }
    assert forall x :: x in bin.held * c.owners <==> x in bin.held && x in c.owners;
    assert forall x :: x in bin.held * c.baseUsers <==> x in bin.held && x in c.baseUsers;
  }

  /** No bin ever holds modules from both sides, after any number of items. */
  lemma {:induction false} RunStaysPeaceful(items: seq<Item>, k: nat, m: nat, c: Conflict)
    requires k <= |items| && Disjoint(c) && Run(items, k, m, c).Packed?
    ensures forall b | 0 <= b < m :: Peaceful(Run(items, k, m, c).bins[b], c)
  {
    if k > 0 {
      RunStaysPeaceful(items, k - 1, m, c);
      var bins := Run(items, k - 1, m, c).bins;
      var mod := ModuleOf(items[k - 1].name);
      var t := Target(bins, mod, c, m);
      TargetIsLeast(bins, mod, c, m);
      AllowedIffNotOpposed(bins[t], mod, c);
      assert Peaceful(Add(bins[t], items[k - 1]), c);
    }
  }

  /** One step: the item lands on the first of the least-loaded bins that do not oppose it, every
      other bin is untouched, and the run ends there exactly when every bin opposes it. */
  lemma PlacementRule(items: seq<Item>, k: nat, m: nat, c: Conflict)
    requires k < |items| && Disjoint(c) && Run(items, k, m, c).Packed?
    ensures var bins := Run(items, k, m, c).bins;
            var mod := ModuleOf(items[k].name);
            match Run(items, k + 1, m, c)
            case CannotPlace(name) => name == items[k].name && forall b | 0 <= b < m :: Opposes(bins[b], mod, c)
            case Packed(after) =>
              exists t: nat :: t < m && !Opposes(bins[t], mod, c)
                && after == bins[t := Add(bins[t], items[k])]
                && forall b | 0 <= b < m && !Opposes(bins[b], mod, c) ::
                     bins[t].load <= bins[b].load && (b < t ==> bins[t].load < bins[b].load)
  {
    var bins := Run(items, k, m, c).bins;
    var mod := ModuleOf(items[k].name);
    forall b | 0 <= b < m ensures Allowed(bins[b], mod, c) <==> !Opposes(bins[b], mod, c) {
      AllowedIffNotOpposed(bins[b], mod, c);
    }
    TargetIsLeast(bins, mod, c, m);
    var t := Target(bins, mod, c, m);
    if t < m {
      assert Run(items, k + 1, m, c) == Packed(bins[t := Add(bins[t], items[k])]);
    }
  }

  /** After `j` items every bin opposes the next one. */
  ghost predicate Forced(items: seq<Item>, j: nat, m: nat, c: Conflict)
    requires j < |items|
  {
    && Run(items, j, m, c).Packed?
    && forall b | 0 <= b < m :: Opposes(Run(items, j, m, c).bins[b], ModuleOf(items[j].name), c)
  }

  lemma ForcedStep(items: seq<Item>, k: nat, m: nat, c: Conflict)
    requires k < |items| && Disjoint(c) && Run(items, k, m, c).Packed?
    ensures Run(items, k + 1, m, c).CannotPlace? <==> Forced(items, k, m, c)
  {
    PlacementRule(items, k, m, c);
  }

  /** The packer exits exactly when, at some step, every bin opposes the next item. */
  lemma {:induction false} ExitsIffForced(items: seq<Item>, k: nat, m: nat, c: Conflict)
    requires k <= |items| && Disjoint(c)
    ensures Run(items, k, m, c).CannotPlace? <==> exists j: nat :: j < k && Forced(items, j, m, c)
  {
    if k > 0 {
      var n := k - 1;
      ExitsIffForced(items, n, m, c);
      if Run(items, n, m, c).Packed? {
        ForcedStep(items, n, m, c);
        if Run(items, k, m, c).Packed? {
          forall j: nat | j < k ensures !Forced(items, j, m, c) {
            assert j < n || j == n;
          }
        }
      }
    }
  }

  // ---- The 4/3 bound

  ghost function Weights(items: seq<Item>): seq<real> {
    seq(|items|, i requires 0 <= i < |items| => items[i].weight)
  }

  ghost predicate NonNegative(items: seq<Item>) {
    forall item | item in items :: item.weight >= 0.0
  }

  /** No two of the items would ever be kept apart. */
  ghost predicate Conflictless(items: seq<Item>, c: Conflict) {
    forall a, b | a in items && b in items :: !(ModuleOf(a.name) in c.owners && ModuleOf(b.name) in c.baseUsers)
  }

  /** The bin each item was put in. */
  ghost function Choices(items: seq<Item>, k: nat, m: nat, c: Conflict): (g: seq<nat>)
    requires k <= |items| && Run(items, k, m, c).Packed?
    ensures |g| == k
    ensures forall i | 0 <= i < k :: g[i] < m
  {
    if k == 0 then []
    else
      var bins := Run(items, k - 1, m, c).bins;
      Choices(items, k - 1, m, c) + [Target(bins, ModuleOf(items[k - 1].name), c, m)]
  }

  /** Without conflicts every bin is allowed. */
  lemma {:induction false} AllAllowed(items: seq<Item>, k: nat, m: nat, c: Conflict, item: Item, b: nat)
    requires k <= |items| && Run(items, k, m, c).Packed? && b < m
    requires Conflictless(items, c) && item in items
    ensures Allowed(Run(items, k, m, c).bins[b], ModuleOf(item.name), c)
  {
    RunPartitions(items, k, m, c);
    RunRecords(items, k, m, c);
    var part := Parts(items, k, m, c)[b];
    assert Holds(Run(items, k, m, c).bins[b], part);
    forall x | x in part ensures x in items {
      PartInContents(Parts(items, k, m, c), b, x);
      assert x in multiset(items[..k]);
    }
  }

  lemma {:induction false} PartInContents(parts: seq<seq<Item>>, b: nat, x: Item)
    requires b < |parts| && x in parts[b]
    ensures x in Contents(parts)
  {
    if b > 0 {
      PartInContents(parts[1..], b - 1, x);
    }
  }

  /** A run without conflicts never exits. */
  lemma {:induction false} NeverExits(items: seq<Item>, k: nat, m: nat, c: Conflict)
    requires k <= |items| && m > 0 && Conflictless(items, c)
    ensures Run(items, k, m, c).Packed?
  {
    if k > 0 {
      NeverExits(items, k - 1, m, c);
      TargetWithoutConflict(items, k - 1, m, c);
    }
  }

  lemma TargetWithoutConflict(items: seq<Item>, k: nat, m: nat, c: Conflict)
    requires k < |items| && m > 0 && Conflictless(items, c) && Run(items, k, m, c).Packed?
    ensures var bins := Run(items, k, m, c).bins;
            var t := Target(bins, ModuleOf(items[k].name), c, m);
            t < m && forall b | 0 <= b < m :: bins[t].load <= bins[b].load
  {
    var bins := Run(items, k, m, c).bins;
    forall b: nat | b < m ensures Allowed(bins[b], ModuleOf(items[k].name), c) {
      AllAllowed(items, k, m, c, items[k], b);
    }
    assert Allowed(bins[0], ModuleOf(items[k].name), c);
    TargetIsLeast(bins, ModuleOf(items[k].name), c, m);
  }

  /** A bin's recorded load is the load its choices put on it. */
  lemma {:induction false} RunLoads(items: seq<Item>, k: nat, m: nat, c: Conflict, b: nat)
    requires k <= |items| && Run(items, k, m, c).Packed? && b < m
    ensures Run(items, k, m, c).bins[b].load == LptBound.Load(Weights(items[..k]), Choices(items, k, m, c), k, b)
  {
    if k > 0 {
      RunLoads(items, k - 1, m, c, b);
      LoadsStep(items, k - 1, m, c, b);
    }
  }

  lemma LoadsStep(items: seq<Item>, k: nat, m: nat, c: Conflict, b: nat)
    requires k < |items| && Run(items, k + 1, m, c).Packed? && b < m && Run(items, k, m, c).Packed?
    requires Run(items, k, m, c).bins[b].load == LptBound.Load(Weights(items[..k]), Choices(items, k, m, c), k, b)
    ensures Run(items, k + 1, m, c).bins[b].load ==
            LptBound.Load(Weights(items[..k + 1]), Choices(items, k + 1, m, c), k + 1, b)
  {
    var t := RunStep(items, k, m, c);
    WeightsGrow(items, k);
    LptBound.LoadExtended(Weights(items[..k]), Choices(items, k, m, c), items[k].weight, t, b);
  }

  lemma WeightsGrow(items: seq<Item>, k: nat)
    requires k < |items|
    ensures Weights(items[..k + 1]) == Weights(items[..k]) + [items[k].weight]
  {
  }

  /** A run without conflicts is greedy. */
  lemma {:induction false} RunIsGreedy(items: seq<Item>, k: nat, m: nat, c: Conflict)
    requires k <= |items| && m > 0 && Conflictless(items, c) && Run(items, k, m, c).Packed?
    ensures LptBound.Greedy(Weights(items[..k]), Choices(items, k, m, c), m)
  {
    if k > 0 {
      var n := k - 1;
      RunIsGreedy(items, n, m, c);
      TargetWithoutConflict(items, n, m, c);
      var t := RunStep(items, n, m, c);
      var w, g := Weights(items[..n]), Choices(items, n, m, c);
      forall b: nat | b < m ensures LptBound.Load(w, g, n, t) <= LptBound.Load(w, g, n, b) {
        RunLoads(items, n, m, c, b);
        RunLoads(items, n, m, c, t);
      }
      WeightsGrow(items, n);
      LptBound.ExtendGreedy(w, g, items[n].weight, t, m);
    }
  }

  /** Any sharing-out of the items can be read as an assignment of the packer's sorted items. */
  lemma {:induction false} AssignmentOf(parts: seq<seq<Item>>, items: seq<Item>, m: nat) returns (a: seq<nat>)
    requires Partition(parts, items, m)
    ensures LptBound.Assigns(a, |items|, m)
    ensures forall b: nat | b < m :: LptBound.Load(Weights(items), a, |items|, b) == Weight(parts[b])
    decreases |items|
  {
    if items == [] {
      a := [];
      forall b: nat | b < m ensures parts[b] == [] {
        NothingIn(parts, b);
      }
    } else {
      var n := |items| - 1;
      var x := items[n];
      assert items == items[..n] + [x];
      var p, rest := TakeOut(parts, items[..n], x, m);
      var a' := AssignmentOf(parts[p := rest], items[..n], m);
      a := a' + [p];
      assert Weights(items) == Weights(items[..n]) + [x.weight];
      forall b: nat | b < m ensures LptBound.Load(Weights(items), a, |items|, b) == Weight(parts[b]) {
        LptBound.LoadExtended(Weights(items[..n]), a', x.weight, p, b);
      }
    }
  }

  lemma TakeOut(parts: seq<seq<Item>>, items: seq<Item>, x: Item, m: nat) returns (p: nat, rest: seq<Item>)
    requires Partition(parts, items + [x], m)
    ensures p < m && Partition(parts[p := rest], items, m)
    ensures Weight(parts[p]) == Weight(rest) + x.weight
  {
    assert x in multiset(items + [x]);
    var i;
    p, i := ContentsMember(parts, x);
    rest := parts[p][..i] + parts[p][i + 1..];
    ContentsUpdate(parts, p, rest);
    PartAround(parts[p], i);
    TakenOut(Contents(parts[p := rest]), Contents(parts), multiset(parts[p]), multiset(rest), multiset(items), x);
  }

  lemma PartAround(part: seq<Item>, i: nat)
    requires i < |part|
    ensures var rest := part[..i] + part[i + 1..];
            Weight(part) == Weight(rest) + part[i].weight && multiset(part) == multiset(rest) + multiset{part[i]}
  {
    WeightAround(part[..i], part[i], part[i + 1..]);
    assert part == part[..i] + [part[i]] + part[i + 1..];
  }

  lemma TakenOut(after: multiset<Item>, all: multiset<Item>, part: multiset<Item>, rest: multiset<Item>,
                 items: multiset<Item>, x: Item)
    requires after + part == all + rest && part == rest + multiset{x} && all == items + multiset{x}
    ensures after == items
  {
    forall e ensures after[e] == items[e] {
      assert (after + part)[e] == (all + rest)[e];
    }
  }

  lemma WeightAround(before: seq<Item>, x: Item, after: seq<Item>)
    ensures Weight(before + [x] + after) == Weight(before + after) + x.weight
  {
    assert [x][..0] == [];
    WeightConcat(before + [x], after);
    WeightConcat(before, [x]);
    WeightConcat(before, after);
  }

  /** The docstring's claim, with Graham's exact constant: when no two modules fight, no way of
      sharing the same items among `m` bins has a heaviest bin below 3m/(4m - 1) of the packer's. */
  lemma PackWithinFourThirds(weights: seq<Item>, m: nat, c: Conflict, other: seq<seq<Item>>, t: real)
    requires m > 0 && NonNegative(weights) && Conflictless(weights, c)
    requires Partition(other, weights, m) && forall b | 0 <= b < m :: Weight(other[b]) <= t
    ensures PackSpec(weights, m, c).Packed?
    ensures forall b | 0 <= b < m :: LptBound.FourThirds(m, PackSpec(weights, m, c).bins[b].load, t)
  {
    var items := Sort(weights, ItemLe);
    ItemOrder();
    SortCorrect(weights, ItemLe);
    assert items[..|items|] == items;
    NeverExits(items, |items|, m, c);
    RunIsGreedy(items, |items|, m, c);
    var w, g := Weights(items), Choices(items, |items|, m, c);
    var a := AssignmentOf(other, items, m);
    assert LptBound.HeaviestFirst(w) by {
      forall i, j | 0 <= i < j < |w| ensures w[i] >= w[j] {
        assert ItemLe(items[i], items[j]);
      }
    }
    forall b: nat | b < m ensures LptBound.FourThirds(m, PackSpec(weights, m, c).bins[b].load, t) {
      RunLoads(items, |items|, m, c, b);
      LptBound.LptIsFourThirds(w, g, a, m, t, b);
    }
  }

  // ---- Exiting though there is a way

  lemma SortedStays(items: seq<Item>)
    requires Sorted(items, ItemLe)
    ensures Sort(items, ItemLe) == items
  {
    ItemOrder();
    SortCorrect(items, ItemLe);
    SortedUnique(Sort(items, ItemLe), items, ItemLe);
  }

  /** The bins of a two-bin run, one item later. */
  lemma NextOfTwo(items: seq<Item>, k: nat, c: Conflict, a: Bin, b: Bin)
    requires k < |items| && Run(items, k, 2, c) == Packed([a, b])
    ensures var mod, item := ModuleOf(items[k].name), items[k];
            Run(items, k + 1, 2, c) ==
              if Allowed(b, mod, c) && !(Allowed(a, mod, c) && a.load <= b.load) then Packed([a, Add(b, item)])
              else if Allowed(a, mod, c) then Packed([Add(a, item), b])
              else CannotPlace(item.name)
  {
    var mod := ModuleOf(items[k].name);
    assert Target([a, b], mod, c, 0) == 2;
    assert Target([a, b], mod, c, 1) == if Allowed(a, mod, c) then 0 else 2;
  }

  lemma FirstIn(item: Item, c: Conflict)
    ensures Add(Bin(0.0, [], {}), item) == Bin(item.weight, [item.name], {ModuleOf(item.name)})
    ensures Allowed(Bin(0.0, [], {}), ModuleOf(item.name), c)
  {
  }

  lemma AllowedBeside(bin: Bin, held: string, mod: string, c: Conflict)
    requires Disjoint(c) && bin.held == {held}
    ensures Allowed(bin, mod, c) <==> !(mod in c.owners && held in c.baseUsers) && !(mod in c.baseUsers && held in c.owners)
  {
    AllowedIffNotOpposed(bin, mod, c);
    assert held in bin.held;
  }

  /** The first two items always part ways when the second finds an empty bin. */
  lemma FirstTwo(items: seq<Item>, c: Conflict)
    requires |items| >= 2 && items[0].weight > 0.0
    ensures Run(items, 2, 2, c) == Packed([
              Bin(items[0].weight, [items[0].name], {ModuleOf(items[0].name)}),
              Bin(items[1].weight, [items[1].name], {ModuleOf(items[1].name)})])
  {
    var none := Bin(0.0, [], {});
    assert EmptyBins(2) == [none, none];
    FirstIn(items[0], c);
    FirstIn(items[1], c);
    NextOfTwo(items, 0, c, none, none);
    NextOfTwo(items, 1, c, Add(none, items[0]), none);
  }

  lemma TwoParts(a: seq<Item>, b: seq<Item>)
    ensures Contents([a, b]) == multiset(a + b)
  {
    assert [a, b][1..] == [b] && [b][1..] == [];
    assert Contents([b]) == multiset(b);
  }

  lemma PairOf(a: Item, b: Item) returns (pair: seq<Item>)
    ensures pair == [a, b]
    ensures Weight(pair) == a.weight + b.weight
    ensures Modules(pair) == {ModuleOf(a.name), ModuleOf(b.name)}
  {
    pair := [a, b];
    assert [a, b][..1] == [a] && [a][..0] == [];
    assert Weight([a]) == Weight([]) + a.weight;
    assert a in [a, b] && b in [a, b];
  }

  lemma ThirdExits(items: seq<Item>, c: Conflict)
    requires |items| == 3 && items[0].weight > 0.0 && Disjoint(c)
    requires ModuleOf(items[0].name) in c.owners && ModuleOf(items[1].name) in c.owners
    requires ModuleOf(items[2].name) in c.baseUsers
    ensures Run(items, |items|, 2, c) == CannotPlace(items[2].name)
  {
    FirstTwo(items, c);
    var left, right := Run(items, 2, 2, c).bins[0], Run(items, 2, 2, c).bins[1];
    AllowedBeside(left, ModuleOf(items[0].name), ModuleOf(items[2].name), c);
    AllowedBeside(right, ModuleOf(items[1].name), ModuleOf(items[2].name), c);
    NextOfTwo(items, 2, c, left, right);
  }

  /** The packer does not always find a legal sharing-out when there is one: with two owners' items
      ahead of a base user's it fills both of two bins with owners and exits. */
  lemma GreedyExitsThoughFeasible(o: string, p: string, u: string, c: Conflict)
    returns (items: seq<Item>, other: seq<seq<Item>>)
    requires Disjoint(c) && ModuleOf(o) in c.owners && ModuleOf(p) in c.owners && ModuleOf(u) in c.baseUsers
    ensures Names(items) == [o, p, u] && Partition(other, items, 2)
    ensures Modules(other[0]) == {ModuleOf(o), ModuleOf(p)} && other[1] == [items[2]]
    ensures PackSpec(items, 2, c) == CannotPlace(u)
  {
    var pair := PairOf(Item(o, 3.0), Item(p, 2.0));
    var d := Item(u, 1.0);
    items, other := pair + [d], [pair, [d]];
    SortedStays(items);
    ThirdExits(items, c);
    TwoParts(pair, [d]);
  }
}
