/** When packing can exit. */
module PackingConflicts {
  // It depends on how many items each side has and on nothing else: whatever the weights, packing succeeds
  // if neither side can fill every bin while the other has an item left, and otherwise some weights stop it.

  import opened Sorting
  import opened Packing
  import opened PackingTheorems

  predicate IsOf(item: Item, side: set<string>) {
    ModuleOf(item.name) in side
  }

  /** How many of the names are of modules in `side`. */
  function Count(names: seq<string>, side: set<string>): nat {
    if names == [] then 0 else (if ModuleOf(names[0]) in side then 1 else 0) + Count(names[1..], side)
  }

  function CountItems(items: seq<Item>, side: set<string>): nat {
    if items == [] then 0 else (if IsOf(items[0], side) then 1 else 0) + CountItems(items[1..], side)
  }

  function Weighted(names: seq<string>, weights: seq<real>): (items: seq<Item>)
    requires |names| == |weights|
    ensures |items| == |names|
  {
    seq(|names|, i requires 0 <= i < |names| => Item(names[i], weights[i]))
  }

  lemma {:induction false} CountWeighted(names: seq<string>, weights: seq<real>, side: set<string>)
    requires |names| == |weights|
    ensures CountItems(Weighted(names, weights), side) == Count(names, side)
  {
    if names != [] {
      CountWeighted(names[1..], weights[1..], side);
      assert Weighted(names, weights)[1..] == Weighted(names[1..], weights[1..]);
    }
  }

  lemma {:induction false} CountConcat(a: seq<Item>, b: seq<Item>, side: set<string>)
    ensures CountItems(a + b, side) == CountItems(a, side) + CountItems(b, side)
  {
    if a == [] {
      assert a + b == b;
    } else {
      assert (a + b)[1..] == a[1..] + b;
      CountConcat(a[1..], b, side);
    }
  }

  lemma {:induction false} CountInsert(x: Item, items: seq<Item>, side: set<string>)
    ensures CountItems(Insert(x, items, ItemLe), side) == CountItems([x] + items, side)
  {
    if items != [] && !ItemLe(x, items[0]) {
      CountInsert(x, items[1..], side);
      assert ([x] + items)[1..] == items && ([x] + items[1..])[1..] == items[1..];
    }
  }

  lemma {:induction false} CountSort(items: seq<Item>, side: set<string>)
    ensures CountItems(Sort(items, ItemLe), side) == CountItems(items, side)
  {
    if items != [] {
      CountSort(items[1..], side);
      CountInsert(items[0], Sort(items[1..], ItemLe), side);
      assert ([items[0]] + Sort(items[1..], ItemLe))[1..] == Sort(items[1..], ItemLe);
    }
  }

  lemma {:induction false} CountNone(items: seq<Item>, side: set<string>)
    requires forall item | item in items :: !IsOf(item, side)
    ensures CountItems(items, side) == 0
  {
    if items != [] {
      CountNone(items[1..], side);
    }
  }

  lemma {:induction false} SomeCounted(items: seq<Item>, side: set<string>) returns (i: nat)
    requires CountItems(items, side) > 0
    ensures i < |items| && IsOf(items[i], side)
  {
    if IsOf(items[0], side) {
      i := 0;
    } else {
      i := SomeCounted(items[1..], side);
      i := i + 1;
    }
  }

  lemma CountFirst(items: seq<Item>, k: nat, side: set<string>)
    requires k < |items|
    ensures CountItems(items[..k + 1], side) == CountItems(items[..k], side) + if IsOf(items[k], side) then 1 else 0
    ensures CountItems(items[..k + 1], side) <= CountItems(items, side)
  {
    assert items[..k + 1] == items[..k] + [items[k]] && items == items[..k + 1] + items[k + 1..];
    CountConcat(items[..k], [items[k]], side);
    CountConcat(items[..k + 1], items[k + 1..], side);
    assert [items[k]][1..] == [];
  }

  // ---- Which bins hold a module of one side

  ghost function Holding(bins: seq<Bin>, side: set<string>): set<nat> {
    set b: nat | b < |bins| && bins[b].held * side != {}
  }

  lemma AddKeeps(bin: Bin, item: Item, side: set<string>)
    ensures Add(bin, item).held * side != {} <==> bin.held * side != {} || IsOf(item, side)
  {
    var held := Add(bin, item).held;
    assert forall x :: x in held * side <==> x in side && (x in bin.held || x == ModuleOf(item.name));
    if bin.held * side != {} {
      var x :| x in bin.held * side;
      assert x in held * side;
    }
    if IsOf(item, side) {
      assert ModuleOf(item.name) in held * side;
    }
    if held * side != {} {
      var x :| x in held * side;
      assert x in bin.held * side || IsOf(item, side);
    }
  }

  lemma HoldingAdds(bins: seq<Bin>, t: nat, item: Item, side: set<string>)
    requires t < |bins|
    ensures Holding(bins[t := Add(bins[t], item)], side) == Holding(bins, side) + if IsOf(item, side) then {t} else {}
  {
    AddKeeps(bins[t], item, side);
  }

  function Upto(m: nat): (all: set<nat>)
    ensures |all| == m && forall b: nat :: b in all <==> b < m
  {
    if m == 0 then {} else Upto(m - 1) + {m - 1}
  }

  lemma AllHold(bins: seq<Bin>, side: set<string>)
    ensures |Holding(bins, side)| <= |bins|
    ensures |Holding(bins, side)| == |bins| <==> forall b: nat | b < |bins| :: b in Holding(bins, side)
  {
    assert Holding(bins, side) <= Upto(|bins|);
    Within(Holding(bins, side), Upto(|bins|));
  }

  lemma Within(part: set<nat>, all: set<nat>)
    requires part <= all
    ensures |part| <= |all| && (|part| == |all| <==> part == all)
  {
    assert all == part + (all - part);
    assert |all| == |part| + |all - part|;
  }

  // ---- Enough room

  /** No more bins hold a side than it has items. */
  lemma {:induction false} HoldingAtMost(items: seq<Item>, k: nat, m: nat, c: Conflict, side: set<string>)
    requires k <= |items| && Run(items, k, m, c).Packed?
    ensures |Holding(Run(items, k, m, c).bins, side)| <= CountItems(items[..k], side)
  {
    if k == 0 {
      assert Holding(EmptyBins(m), side) == {};
    } else {
      var t := RunStep(items, k - 1, m, c);
      HoldingAtMost(items, k - 1, m, c, side);
      HoldingAdds(Run(items, k - 1, m, c).bins, t, items[k - 1], side);
      CountFirst(items, k - 1, side);
    }
  }

  lemma OpposedHold(bins: seq<Bin>, mod: string, c: Conflict)
    requires Disjoint(c) && forall b | 0 <= b < |bins| :: Opposes(bins[b], mod, c)
    ensures mod in c.owners ==> |Holding(bins, c.baseUsers)| == |bins|
    ensures mod in c.baseUsers ==> |Holding(bins, c.owners)| == |bins|
    ensures |bins| > 0 ==> mod in c.owners || mod in c.baseUsers
  {
    AllHold(bins, c.baseUsers);
    AllHold(bins, c.owners);
    assert mod in c.owners && mod in c.baseUsers ==> mod in c.owners * c.baseUsers;
    forall b: nat | b < |bins|
      ensures mod in c.owners ==> b in Holding(bins, c.baseUsers)
      ensures mod in c.baseUsers ==> b in Holding(bins, c.owners)
    {
      assert Opposes(bins[b], mod, c);
      OpposedHolds(bins[b], mod, c);
    }
    assert |bins| > 0 ==> Opposes(bins[0], mod, c);
  }

  lemma OpposedHolds(bin: Bin, mod: string, c: Conflict)
    requires Disjoint(c) && Opposes(bin, mod, c)
    ensures mod in c.owners ==> bin.held * c.baseUsers != {}
    ensures mod in c.baseUsers ==> bin.held * c.owners != {}
  {
    assert mod in c.owners && mod in c.baseUsers ==> mod in c.owners * c.baseUsers;
    if mod in c.owners {
      var other :| other in bin.held && other in c.baseUsers;
      assert other in bin.held * c.baseUsers;
    } else {
      var other :| other in bin.held && other in c.owners;
      assert other in bin.held * c.owners;
    }
  }

  /** Neither side can fill every bin while the other has an item. */
  predicate Roomy(owners: nat, baseUsers: nat, m: nat) {
    (owners < m || baseUsers == 0) && (baseUsers < m || owners == 0)
  }

  lemma {:induction false} RoomyRunPacks(items: seq<Item>, k: nat, m: nat, c: Conflict)
    requires k <= |items| && m > 0 && Disjoint(c)
    requires Roomy(CountItems(items, c.owners), CountItems(items, c.baseUsers), m)
    ensures Run(items, k, m, c).Packed?
  {
    if k > 0 {
      RoomyRunPacks(items, k - 1, m, c);
      var bins := Run(items, k - 1, m, c).bins;
      HoldingAtMost(items, k - 1, m, c, c.owners);
      HoldingAtMost(items, k - 1, m, c, c.baseUsers);
      CountFirst(items, k - 1, c.owners);
      CountFirst(items, k - 1, c.baseUsers);
      PlacementRule(items, k - 1, m, c);
      if forall b | 0 <= b < m :: Opposes(bins[b], ModuleOf(items[k - 1].name), c) {
        OpposedHold(bins, ModuleOf(items[k - 1].name), c);
      }
    }
  }

  // ---- Too little room

  /** What the bins are like while only items of one side, weighing 2 each, have come. */
  ghost predicate Filling(bins: seq<Bin>, side: set<string>) {
    forall b | 0 <= b < |bins| :: bins[b].held <= side && bins[b].load >= 0.0 && (bins[b].held == {} <==> bins[b].load == 0.0)
  }

  lemma AllowedWhileFilling(bin: Bin, item: Item, c: Conflict, side: set<string>)
    requires Disjoint(c) && (side == c.owners || side == c.baseUsers) && bin.held <= side && IsOf(item, side)
    ensures Allowed(bin, ModuleOf(item.name), c)
  {
    OnlyOneSide(item, c);
    var other := if side == c.owners then c.baseUsers else c.owners;
    assert forall x | x in bin.held && x in other :: x in c.owners * c.baseUsers;
    assert bin.held * other == {};
  }

  lemma FillsAnEmptyBin(bins: seq<Bin>, item: Item, c: Conflict, side: set<string>)
    requires Disjoint(c) && (side == c.owners || side == c.baseUsers)
    requires Filling(bins, side) && IsOf(item, side) && item.weight == 2.0 && |Holding(bins, side)| < |bins|
    ensures var t := Target(bins, ModuleOf(item.name), c, |bins|);
            && t < |bins| && t !in Holding(bins, side)
            && Filling(bins[t := Add(bins[t], item)], side)
  {
    var mod := ModuleOf(item.name);
    forall b | 0 <= b < |bins| ensures Allowed(bins[b], mod, c) {
      AllowedWhileFilling(bins[b], item, c, side);
    }
    AllHold(bins, side);
    var e: nat :| e < |bins| && e !in Holding(bins, side);
    EmptyIfNotHolding(bins[e], side);
    TargetIsLeast(bins, mod, c, |bins|);
    var t := Target(bins, mod, c, |bins|);
    assert bins[t].load <= bins[e].load == 0.0;
    assert mod in Add(bins[t], item).held;
  }

  lemma EmptyIfNotHolding(bin: Bin, side: set<string>)
    requires bin.held <= side && bin.held * side == {}
    ensures bin.held == {}
  {
    assert bin.held * side == bin.held;
  }

  /** The first `m` items, all of one side, take a bin each. */
  lemma {:induction false} OneBinEach(items: seq<Item>, k: nat, m: nat, c: Conflict, side: set<string>)
    requires k <= m && k <= |items| && Disjoint(c) && (side == c.owners || side == c.baseUsers)
    requires forall i | 0 <= i < k :: IsOf(items[i], side) && items[i].weight == 2.0
    ensures var r := Run(items, k, m, c); r.Packed? && Filling(r.bins, side) && |Holding(r.bins, side)| == k
  {
    if k == 0 {
      assert Holding(EmptyBins(m), side) == {};
    } else {
      OneBinEach(items, k - 1, m, c, side);
      var next := OneBinMore(items, k - 1, m, c, side, Run(items, k - 1, m, c).bins);
    }
  }

  lemma OneBinMore(items: seq<Item>, k: nat, m: nat, c: Conflict, side: set<string>, bins: seq<Bin>) returns (next: seq<Bin>)
    requires k < m && k < |items| && Disjoint(c) && (side == c.owners || side == c.baseUsers)
    requires Run(items, k, m, c) == Packed(bins) && Filling(bins, side) && |Holding(bins, side)| == k
    requires IsOf(items[k], side) && items[k].weight == 2.0
    ensures Run(items, k + 1, m, c) == Packed(next) && Filling(next, side) && |Holding(next, side)| == k + 1
  {
    FillsAnEmptyBin(bins, items[k], c, side);
    var t := Target(bins, ModuleOf(items[k].name), c, m);
    HoldingAdds(bins, t, items[k], side);
    next := bins[t := Add(bins[t], items[k])];
  }

  ghost function HeldAt(items: seq<Item>, k: nat, m: nat, c: Conflict, side: set<string>): set<nat>
    requires k <= |items| && Run(items, k, m, c).Packed?
  {
    Holding(Run(items, k, m, c).bins, side)
  }

  lemma HeldGrows(items: seq<Item>, k: nat, m: nat, c: Conflict, side: set<string>)
    requires k < |items| && Run(items, k + 1, m, c).Packed?
    ensures Run(items, k, m, c).Packed? && HeldAt(items, k, m, c, side) <= HeldAt(items, k + 1, m, c, side)
  {
    var t := RunStep(items, k, m, c);
    HoldingAdds(Run(items, k, m, c).bins, t, items[k], side);
  }

  /** A bin that holds a side goes on holding it. */
  lemma {:induction false} HeldStays(items: seq<Item>, j: nat, k: nat, m: nat, c: Conflict, side: set<string>)
    requires j <= k <= |items| && Run(items, k, m, c).Packed? && Run(items, j, m, c).Packed?
    ensures HeldAt(items, j, m, c, side) <= HeldAt(items, k, m, c, side)
    decreases k - j
  {
    if j < k {
      RunSticks(items, j + 1, k, m, c);
      HeldGrows(items, j, m, c, side);
      HeldStays(items, j + 1, k, m, c, side);
    }
  }

  /** After `m` items of one side every bin holds it. */
  lemma AllHeldAfter(items: seq<Item>, j: nat, m: nat, c: Conflict, side: set<string>)
    requires m <= j <= |items| && Disjoint(c) && (side == c.owners || side == c.baseUsers)
    requires forall i | 0 <= i < m :: IsOf(items[i], side) && items[i].weight == 2.0
    requires Run(items, j, m, c).Packed?
    ensures forall b: nat | b < m :: Run(items, j, m, c).bins[b].held * side != {}
  {
    OneBinEach(items, m, m, c, side);
    HeldStays(items, m, j, m, c, side);
    AllHold(Run(items, m, m, c).bins, side);
    forall b: nat | b < m ensures Run(items, j, m, c).bins[b].held * side != {} {
      assert b in HeldAt(items, m, m, c, side);
      assert b in HeldAt(items, j, m, c, side);
    }
  }

  lemma ExitsWhenOpposed(items: seq<Item>, j: nat, m: nat, c: Conflict)
    requires j < |items| && Run(items, j, m, c).Packed?
    requires forall b: nat | b < m :: !Allowed(Run(items, j, m, c).bins[b], ModuleOf(items[j].name), c)
    ensures Run(items, j + 1, m, c).CannotPlace?
  {
    TargetIsLeast(Run(items, j, m, c).bins, ModuleOf(items[j].name), c, m);
  }

  /** With every bin held by the one side, an item of the other is not placed. */
  lemma HeldBinsRefuse(items: seq<Item>, m: nat, c: Conflict, side: set<string>, other: set<string>, j: nat)
    requires m <= j < |items| && Disjoint(c) && Opposite(c, side, other) && IsOf(items[j], other)
    requires forall i | 0 <= i < m :: IsOf(items[i], side) && items[i].weight == 2.0
    requires Run(items, j, m, c).Packed?
    ensures Run(items, j + 1, m, c).CannotPlace?
  {
    AllHeldAfter(items, j, m, c, side);
    forall b: nat | b < m ensures !Allowed(Run(items, j, m, c).bins[b], ModuleOf(items[j].name), c) {
      NotBesideOther(Run(items, j, m, c).bins[b], items[j], c, side, other);
    }
    ExitsWhenOpposed(items, j, m, c);
  }

  ghost predicate Opposite(c: Conflict, side: set<string>, other: set<string>) {
    (side == c.owners && other == c.baseUsers) || (side == c.baseUsers && other == c.owners)
  }

  lemma FullRunExits(items: seq<Item>, m: nat, c: Conflict, side: set<string>, other: set<string>, j: nat)
    requires m <= j < |items| && Disjoint(c) && Opposite(c, side, other) && IsOf(items[j], other)
    requires forall i | 0 <= i < m :: IsOf(items[i], side) && items[i].weight == 2.0
    ensures Run(items, |items|, m, c).CannotPlace?
  {
    if Run(items, j, m, c).Packed? {
      HeldBinsRefuse(items, m, c, side, other, j);
    }
    ExitSticks(items, if Run(items, j, m, c).Packed? then j + 1 else j, m, c);
  }

  lemma ExitSticks(items: seq<Item>, j: nat, m: nat, c: Conflict)
    requires j <= |items| && Run(items, j, m, c).CannotPlace?
    ensures Run(items, |items|, m, c).CannotPlace?
  {
    RunSticks(items, j, |items|, m, c);
  }

  lemma NotBesideOther(bin: Bin, item: Item, c: Conflict, side: set<string>, other: set<string>)
    requires Disjoint(c) && Opposite(c, side, other)
    requires bin.held * side != {} && IsOf(item, other)
    ensures !Allowed(bin, ModuleOf(item.name), c)
  {
    assert ModuleOf(item.name) in c.owners && ModuleOf(item.name) in c.baseUsers ==> ModuleOf(item.name) in c.owners * c.baseUsers;
  }

  /** Weights that put one side's items first. */
  function SideFirst(names: seq<string>, side: set<string>): (weights: seq<real>)
    ensures |weights| == |names|
  {
    seq(|names|, i requires 0 <= i < |names| => if ModuleOf(names[i]) in side then 2.0 else 1.0)
  }

  ghost predicate BySide(items: seq<Item>, side: set<string>) {
    forall item | item in items :: item.weight == if IsOf(item, side) then 2.0 else 1.0
  }

  lemma SideComesFirst(items: seq<Item>, m: nat, side: set<string>)
    requires Sorted(items, ItemLe) && BySide(items, side) && CountItems(items, side) >= m
    ensures m <= |items| && forall i | 0 <= i < m :: IsOf(items[i], side)
  {
    AtMostLength(items, side);
    forall i | 0 <= i < m ensures IsOf(items[i], side) {
      if !IsOf(items[i], side) {
        forall item | item in items[i..] ensures !IsOf(item, side) {
          var j :| 0 <= j < |items[i..]| && items[i..][j] == item;
          assert items[i + j] == item && items[i] in items && items[i + j] in items;
          assert j > 0 ==> ItemLe(items[i], items[i + j]);
        }
        CountNone(items[i..], side);
        assert items == items[..i] + items[i..];
        CountConcat(items[..i], items[i..], side);
        AtMostLength(items[..i], side);
      }
    }
  }

  lemma {:induction false} AtMostLength(items: seq<Item>, side: set<string>)
    ensures CountItems(items, side) <= |items|
  {
    if items != [] {
      AtMostLength(items[1..], side);
    }
  }

  lemma SideFirstSorted(names: seq<string>, side: set<string>) returns (items: seq<Item>)
    ensures items == Sort(Weighted(names, SideFirst(names, side)), ItemLe)
    ensures Sorted(items, ItemLe) && BySide(items, side)
    ensures forall group :: CountItems(items, group) == Count(names, group)
  {
    var weighted := Weighted(names, SideFirst(names, side));
    items := Sort(weighted, ItemLe);
    ItemOrder();
    SortCorrect(weighted, ItemLe);
    forall item | item in items ensures item.weight == if IsOf(item, side) then 2.0 else 1.0 {
      assert item in weighted;
    }
    forall group ensures CountItems(items, group) == Count(names, group) {
      CountWeighted(names, SideFirst(names, side), group);
      CountSort(weighted, group);
    }
  }

  lemma SideFirstExits(names: seq<string>, m: nat, c: Conflict, side: set<string>, other: set<string>)
    requires m > 0 && Disjoint(c) && Count(names, side) >= m && Count(names, other) > 0
    requires Opposite(c, side, other)
    ensures PackSpec(Weighted(names, SideFirst(names, side)), m, c).CannotPlace?
  {
    var items := SideFirstSorted(names, side);
    assert CountItems(items, side) >= m && CountItems(items, other) > 0;
    SideComesFirst(items, m, side);
    var j := SomeCounted(items, other);
    OnlyOneSide(items[j], c);
    FullRunExits(items, m, c, side, other, j);
  }

  lemma OnlyOneSide(item: Item, c: Conflict)
    requires Disjoint(c)
    ensures !(IsOf(item, c.owners) && IsOf(item, c.baseUsers))
  {
    assert IsOf(item, c.owners) && IsOf(item, c.baseUsers) ==> ModuleOf(item.name) in c.owners * c.baseUsers;
  }

  /** These weights, all positive, make the packer exit. */
  ghost predicate Stops(names: seq<string>, weights: seq<real>, m: nat, c: Conflict) {
    && |weights| == |names| && (forall x | x in weights :: x > 0.0)
    && PackSpec(Weighted(names, weights), m, c).CannotPlace?
  }

  /** Packing never exits, whatever the items weigh, if and only if neither side has an item for every bin
      while the other has one at all; and when it can exit, it does for some positive weights. */
  lemma PacksWhateverTheWeights(names: seq<string>, m: nat, c: Conflict)
    requires m > 0 && Disjoint(c)
    ensures (forall weights: seq<real> | |weights| == |names| :: PackSpec(Weighted(names, weights), m, c).Packed?) <==>
      (Count(names, c.owners) < m || Count(names, c.baseUsers) == 0)
      && (Count(names, c.baseUsers) < m || Count(names, c.owners) == 0)
    ensures (forall weights :: !Stops(names, weights, m, c)) <==>
      (Count(names, c.owners) < m || Count(names, c.baseUsers) == 0)
      && (Count(names, c.baseUsers) < m || Count(names, c.owners) == 0)
  {
    var owners, baseUsers := Count(names, c.owners), Count(names, c.baseUsers);
    if Roomy(owners, baseUsers, m) {
      forall weights: seq<real> | |weights| == |names| ensures PackSpec(Weighted(names, weights), m, c).Packed? {
        RoomyPacks(names, weights, m, c);
      }
    } else if owners >= m && baseUsers > 0 {
      SideFirstExits(names, m, c, c.owners, c.baseUsers);
      assert Stops(names, SideFirst(names, c.owners), m, c);
    } else {
      SideFirstExits(names, m, c, c.baseUsers, c.owners);
      assert Stops(names, SideFirst(names, c.baseUsers), m, c);
    }
  }

  lemma RoomyPacks(names: seq<string>, weights: seq<real>, m: nat, c: Conflict)
    requires m > 0 && Disjoint(c) && |weights| == |names|
    requires Roomy(Count(names, c.owners), Count(names, c.baseUsers), m)
    ensures PackSpec(Weighted(names, weights), m, c).Packed?
  {
    var weighted := Weighted(names, weights);
    CountWeighted(names, weights, c.owners);
    CountWeighted(names, weights, c.baseUsers);
    CountSort(weighted, c.owners);
    CountSort(weighted, c.baseUsers);
    var items := Sort(weighted, ItemLe);
    RoomyRunPacks(items, |items|, m, c);
  }
}
