/** Few items are packed best. */
module PackingLegal {
  // What the 4/3 claim says where the sides of a conflict are kept apart, and why it holds when there are
  // hardly more items than bins: the packing is then the best there is.

  import opened Sorting
  import opened Packing
  import opened PackingTheorems
  import opened PackingConflicts
  import LptBound

  /** No part holds an owner's item and a base user's. */
  ghost predicate KeepsApart(parts: seq<seq<Item>>, c: Conflict) {
    forall b | 0 <= b < |parts| :: Conflictless(parts[b], c)
  }

  ghost predicate AtMost(parts: seq<seq<Item>>, t: real) {
    forall b | 0 <= b < |parts| :: Weight(parts[b]) <= t
  }

  /** A sharing-out of the items among `m` bins that keeps the sides apart, none of them heavier than `t`. */
  ghost predicate Shares(parts: seq<seq<Item>>, items: seq<Item>, m: nat, c: Conflict, t: real) {
    Partition(parts, items, m) && KeepsApart(parts, c) && AtMost(parts, t)
  }

  ghost predicate LoadsWithin(bins: seq<Bin>, m: nat, t: real) {
    forall b | 0 <= b < |bins| :: LptBound.FourThirds(m, bins[b].load, t)
  }

  /** The claim for one input: it is packed, and no sharing-out that keeps the sides apart has a heaviest bin
      below 3m/(4m - 1) of the packer's. */
  ghost predicate ClaimHolds(items: seq<Item>, m: nat, c: Conflict) {
    && PackSpec(items, m, c).Packed?
    && forall parts, t :: Shares(parts, items, m, c, t) ==> LoadsWithin(PackSpec(items, m, c).bins, m, t)
  }

  // ---- Weights of parts

  lemma {:induction false} WeightNonNegative(items: seq<Item>)
    requires NonNegative(items)
    ensures Weight(items) >= 0.0
  {
    if items != [] {
      assert items[|items| - 1] in items;
      WeightNonNegative(items[..|items| - 1]);
    }
  }

  /** A part weighs no less than any of its items, or any two. */
  lemma WeightOfOne(part: seq<Item>, i: nat)
    requires NonNegative(part) && i < |part|
    ensures Weight(part) >= part[i].weight
  {
    assert part == part[..i] + [part[i]] + part[i + 1..];
    WeightAround(part[..i], part[i], part[i + 1..]);
    WeightNonNegative(part[..i] + part[i + 1..]);
  }

  lemma WeightOfTwo(part: seq<Item>, i: nat, j: nat)
    requires NonNegative(part) && i < j < |part|
    ensures Weight(part) >= part[i].weight + part[j].weight
  {
    var rest := part[..j] + part[j + 1..];
    assert part == part[..j] + [part[j]] + part[j + 1..];
    WeightAround(part[..j], part[j], part[j + 1..]);
    WeightOfOne(rest, i);
  }

  lemma PartsNonNegative(parts: seq<seq<Item>>, items: seq<Item>, m: nat, b: nat)
    requires Partition(parts, items, m) && NonNegative(items) && b < m
    ensures NonNegative(parts[b])
  {
    forall x | x in parts[b] ensures x.weight >= 0.0 {
      PartInContents(parts, b, x);
      assert x in multiset(items);
    }
  }

  /** No sharing-out is lighter than one item. */
  lemma ItemAtMost(parts: seq<seq<Item>>, items: seq<Item>, m: nat, t: real, x: Item)
    requires Partition(parts, items, m) && NonNegative(items) && AtMost(parts, t) && x in items
    ensures x.weight <= t
  {
    assert x in multiset(items);
    var b, i := ContentsMember(parts, x);
    PartsNonNegative(parts, items, m, b);
    WeightOfOne(parts[b], i);
  }

  // ---- While there is a bin to spare

  /** With fewer items placed than there are bins, one is empty. */
  lemma EmptyBinLeft(items: seq<Item>, k: nat, m: nat, c: Conflict) returns (e: nat)
    requires k < m && k <= |items| && Run(items, k, m, c).Packed?
    ensures e < m && Run(items, k, m, c).bins[e].held == {} && Run(items, k, m, c).bins[e].load == 0.0
  {
    var bins, all := Run(items, k, m, c).bins, Modules(items[..k]);
    HoldingAtMost(items, k, m, c, all);
    AtMostLength(items[..k], all);
    AllHold(bins, all);
    e :| e < m && e !in Holding(bins, all);
    RunPartitions(items, k, m, c);
    RunRecords(items, k, m, c);
    NothingHeld(items[..k], Parts(items, k, m, c), m, e, bins[e]);
  }

  lemma SomethingHeld(items: seq<Item>, parts: seq<seq<Item>>, m: nat, e: nat, bin: Bin)
    requires Partition(parts, items, m) && e < m && Holds(bin, parts[e]) && parts[e] != []
    ensures bin.held * Modules(items) != {}
  {
    var x := parts[e][0];
    PartInContents(parts, e, x);
    assert x in multiset(items) && x in parts[e];
    assert ModuleOf(x.name) in bin.held * Modules(items);
  }

  lemma NothingHeld(items: seq<Item>, parts: seq<seq<Item>>, m: nat, e: nat, bin: Bin)
    requires Partition(parts, items, m) && e < m && Holds(bin, parts[e]) && bin.held * Modules(items) == {}
    ensures bin.held == {} && bin.load == 0.0
  {
    if parts[e] != [] {
      SomethingHeld(items, parts, m, e, bin);
    }
  }

  lemma EmptyAllowed(bin: Bin, mod: string, c: Conflict)
    requires bin.held == {}
    ensures Allowed(bin, mod, c)
  {
  }

  ghost predicate LoadsAtMost(bins: seq<Bin>, w: real) {
    forall b | 0 <= b < |bins| :: 0.0 <= bins[b].load <= w
  }

  /** As long as there are bins to spare, each bin has at most one item that weighs anything. */
  lemma {:induction false} SpareLoads(items: seq<Item>, k: nat, m: nat, c: Conflict, w: real)
    requires k <= m && k <= |items| && w >= 0.0 && forall x | x in items :: 0.0 <= x.weight <= w
    ensures Run(items, k, m, c).Packed? && LoadsAtMost(Run(items, k, m, c).bins, w)
  {
    if k > 0 {
      SpareLoads(items, k - 1, m, c, w);
      var e := EmptyBinLeft(items, k - 1, m, c);
      SpareStep(Run(items, k - 1, m, c).bins, items[k - 1], e, c, w);
    }
  }

  lemma SpareStep(bins: seq<Bin>, item: Item, e: nat, c: Conflict, w: real)
    requires LoadsAtMost(bins, w) && e < |bins| && bins[e].held == {} && bins[e].load == 0.0 && 0.0 <= item.weight <= w
    ensures Place(bins, item, c).Packed? && LoadsAtMost(Place(bins, item, c).bins, w)
  {
    EmptyAllowed(bins[e], ModuleOf(item.name), c);
    TargetIsLeast(bins, ModuleOf(item.name), c, |bins|);
    var t := Target(bins, ModuleOf(item.name), c, |bins|);
    assert bins[t].load <= bins[e].load;
  }

  /** With no more items than bins the packing is the best there is. */
  lemma FewArePackedBest(items: seq<Item>, m: nat, c: Conflict, parts: seq<seq<Item>>, t: real)
    requires m > 0 && |items| <= m && NonNegative(items) && Partition(parts, items, m) && AtMost(parts, t)
    ensures PackSpec(items, m, c).Packed? && LoadsAtMost(PackSpec(items, m, c).bins, t)
  {
    var sorted := Sort(items, ItemLe);
    ItemOrder();
    SortCorrect(items, ItemLe);
    WeightNonNegative(parts[0]) by {
      PartsNonNegative(parts, items, m, 0);
    }
    forall x | x in sorted ensures 0.0 <= x.weight <= t {
      ItemAtMost(parts, items, m, t, x);
    }
    SpareLoads(sorted, |sorted|, m, c, t);
  }

  // ---- Items that all weigh something

  function Unused(): Bin {
    Bin(0.0, [], {})
  }

  /** The first `k` items, each in a bin of its own, in order. */
  function OneEach(items: seq<Item>, k: nat, m: nat): (bins: seq<Bin>)
    requires k <= |items|
    ensures |bins| == m
  {
    seq(m, b requires 0 <= b < m => if b < k then Add(Unused(), items[b]) else Unused())
  }

  lemma {:induction false} FirstTakeOneEach(items: seq<Item>, k: nat, m: nat, c: Conflict)
    requires k <= m && k <= |items| && forall i | 0 <= i < k :: items[i].weight > 0.0
    ensures Run(items, k, m, c) == Packed(OneEach(items, k, m))
  {
    if k == 0 {
      NoneYet(items, m, c);
    } else {
      var j := k - 1;
      FirstTakeOneEach(items, j, m, c);
      NextTakesOne(items, j, m, c);
    }
  }

  lemma NextTakesOne(items: seq<Item>, k: nat, m: nat, c: Conflict)
    requires k < m && k < |items| && forall i | 0 <= i < k :: items[i].weight > 0.0
    requires Run(items, k, m, c) == Packed(OneEach(items, k, m))
    ensures Run(items, k + 1, m, c) == Packed(OneEach(items, k + 1, m))
  {
    NextIsUnused(items, k, m, c);
    OneMoreBin(items, k, m);
  }

  lemma NoneYet(items: seq<Item>, m: nat, c: Conflict)
    ensures Run(items, 0, m, c) == Packed(OneEach(items, 0, m))
  {
    var empty, one := EmptyBins(m), OneEach(items, 0, m);
    forall b | 0 <= b < m ensures empty[b] == one[b] {
      assert empty[b] == Bin(0.0, [], {}) && one[b] == Unused();
    }
  }

  lemma OneMoreBin(items: seq<Item>, k: nat, m: nat)
    requires k < m && k < |items|
    ensures OneEach(items, k + 1, m) == OneEach(items, k, m)[k := Add(Unused(), items[k])]
  {
  }

  lemma NextIsUnused(items: seq<Item>, k: nat, m: nat, c: Conflict)
    requires k < m && k < |items| && forall i | 0 <= i < k :: items[i].weight > 0.0
    ensures Target(OneEach(items, k, m), ModuleOf(items[k].name), c, m) == k
  {
    var bins, mod := OneEach(items, k, m), ModuleOf(items[k].name);
    EmptyAllowed(bins[k], mod, c);
    TargetIsLeast(bins, mod, c, m);
  }

  /** Neither item keeps the other out of its bin. */
  predicate Friends(a: Item, b: Item, c: Conflict) {
    && !(IsOf(a, c.owners) && IsOf(b, c.baseUsers))
    && !(IsOf(a, c.baseUsers) && IsOf(b, c.owners))
  }

  lemma AllowedIffFriends(items: seq<Item>, k: nat, m: nat, c: Conflict, b: nat, item: Item)
    requires Disjoint(c) && k <= |items| && b < k <= m
    ensures Allowed(OneEach(items, k, m)[b], ModuleOf(item.name), c) <==> Friends(items[b], item, c)
  {
    AllowedBeside(OneEach(items, k, m)[b], ModuleOf(items[b].name), ModuleOf(item.name), c);
  }

  // ---- One item more than bins, and one of each side

  ghost predicate Falling(items: seq<Item>) {
    forall i, j | 0 <= i < j < |items| :: items[i].weight >= items[j].weight
  }

  lemma {:induction false} TwoCounted(items: seq<Item>, side: set<string>, i: nat, j: nat)
    requires i < j < |items| && IsOf(items[i], side) && IsOf(items[j], side)
    ensures CountItems(items, side) >= 2
  {
    if i > 0 {
      TwoCounted(items[1..], side, i - 1, j - 1);
    } else {
      OneCounted(items[1..], side, j - 1);
    }
  }

  lemma {:induction false} OneCounted(items: seq<Item>, side: set<string>, i: nat)
    requires i < |items| && IsOf(items[i], side)
    ensures CountItems(items, side) >= 1
  {
    if i > 0 {
      OneCounted(items[1..], side, i - 1);
    }
  }

  ghost predicate OneOfEach(items: seq<Item>, c: Conflict) {
    CountItems(items, c.owners) == 1 && CountItems(items, c.baseUsers) == 1
  }

  /** An item is kept out by one other at most. */
  lemma OneFoeAtMost(items: seq<Item>, c: Conflict, i: nat, j: nat, k: nat)
    requires Disjoint(c) && OneOfEach(items, c) && i < j < |items| && k < |items|
    ensures Friends(items[i], items[k], c) || Friends(items[j], items[k], c)
  {
    OnlyOneSide(items[k], c);
    if IsOf(items[i], c.owners) && IsOf(items[j], c.owners) {
      TwoCounted(items, c.owners, i, j);
    } else if IsOf(items[i], c.baseUsers) && IsOf(items[j], c.baseUsers) {
      TwoCounted(items, c.baseUsers, i, j);
    }
  }

  /** The last of `m + 1` items, all of which weigh something, joins the lightest it may. */
  lemma LastJoins(items: seq<Item>, m: nat, c: Conflict) returns (t: nat)
    requires m >= 2 && |items| == m + 1 && Disjoint(c) && OneOfEach(items, c)
    requires forall i | 0 <= i < m :: items[i].weight > 0.0
    ensures t < m && Friends(items[t], items[m], c)
    ensures Run(items, m + 1, m, c) == Packed(OneEach(items, m, m)[t := Add(OneEach(items, m, m)[t], items[m])])
    ensures forall b | 0 <= b < m && Friends(items[b], items[m], c) :: items[t].weight <= items[b].weight
  {
    var bins, mod := OneEach(items, m, m), ModuleOf(items[m].name);
    FirstTakeOneEach(items, m, m, c);
    TargetIsLeast(bins, mod, c, m);
    t := Target(bins, mod, c, m);
    OneFoeAtMost(items, c, m - 2, m - 1, m);
    forall b: nat | b < m ensures Allowed(bins[b], mod, c) <==> Friends(items[b], items[m], c) {
      AllowedIffFriends(items, m, m, c, b, items[m]);
    }
    LoadsOfOneEach(items, m, t);
    forall b | 0 <= b < m && Friends(items[b], items[m], c) ensures items[t].weight <= items[b].weight {
      LoadsOfOneEach(items, m, b);
    }
  }

  lemma LoadsOfOneEach(items: seq<Item>, m: nat, b: nat)
    requires b < m <= |items|
    ensures OneEach(items, m, m)[b].load == items[b].weight
  {
  }

  // ---- Any sharing-out puts two of them together

  lemma {:induction false} Lonely(parts: seq<seq<Item>>)
    requires forall b | 0 <= b < |parts| :: |parts[b]| <= 1
    ensures |Contents(parts)| <= |parts|
  {
    if parts != [] {
      Lonely(parts[1..]);
      assert |multiset(parts[0])| == |parts[0]|;
    }
  }

  /** More items than bins: some bin has two. */
  lemma TwoTogether(parts: seq<seq<Item>>, items: seq<Item>, m: nat) returns (b: nat)
    requires Partition(parts, items, m) && |items| > m
    ensures b < m && |parts[b]| >= 2
  {
    assert |multiset(items)| == |items|;
    if forall b | 0 <= b < |parts| :: |parts[b]| <= 1 {
      Lonely(parts);
    }
    b :| b < m && |parts[b]| >= 2;
  }

  lemma {:induction false} PartWithin(parts: seq<seq<Item>>, b: nat)
    requires b < |parts|
    ensures multiset(parts[b]) <= Contents(parts)
  {
    if b > 0 {
      PartWithin(parts[1..], b - 1);
    }
  }

  lemma PairWithin(part: seq<Item>)
    requires |part| >= 2
    ensures multiset{part[0], part[1]} <= multiset(part)
  {
    assert part == [part[0], part[1]] + part[2..];
  }

  lemma Elsewhere(items: seq<Item>, p: nat, y: Item) returns (q: nat)
    requires p < |items| && y in multiset(items) - multiset{items[p]}
    ensures q < |items| && q != p && items[q] == y
  {
    var rest := items[..p] + items[p + 1..];
    assert items == items[..p] + [items[p]] + items[p + 1..];
    assert multiset(items) == multiset(rest) + multiset{items[p]};
    assert y in rest;
    var k :| 0 <= k < |rest| && rest[k] == y;
    q := if k < p then k else k + 1;
  }

  /** Two items of a part stand at two places. */
  lemma TwoPlaces(items: seq<Item>, x: Item, y: Item) returns (p: nat, q: nat)
    requires multiset{x, y} <= multiset(items)
    ensures p < |items| && q < |items| && p != q && items[p] == x && items[q] == y
  {
    assert x in multiset{x, y};
    assert x in items;
    p :| 0 <= p < |items| && items[p] == x;
    assert multiset{x, y} - multiset{x} == multiset{y};
    assert multiset(items)[y] >= multiset{x, y}[y];
    q := Elsewhere(items, p, y);
  }

  /** Some two friends weigh no more than the heaviest bin. */
  lemma FriendsTogether(parts: seq<seq<Item>>, items: seq<Item>, m: nat, c: Conflict, t: real) returns (i: nat, j: nat)
    requires Shares(parts, items, m, c, t) && NonNegative(items) && |items| > m
    ensures i < j < |items| && Friends(items[i], items[j], c) && items[i].weight + items[j].weight <= t
  {
    var b := TwoTogether(parts, items, m);
    var part := parts[b];
    PartWithin(parts, b);
    PairWithin(part);
    var p, q := TwoPlaces(items, part[0], part[1]);
    PartsNonNegative(parts, items, m, b);
    WeightOfTwo(part, 0, 1);
    assert part[0] in part && part[1] in part;
    i, j := if p < q then p else q, if p < q then q else p;
  }

  /** What the last item joins is then light enough. */
  lemma LastIsLight(items: seq<Item>, m: nat, c: Conflict, parts: seq<seq<Item>>, t: real, join: nat)
    requires m >= 2 && |items| == m + 1 && Disjoint(c) && OneOfEach(items, c) && Falling(items) && NonNegative(items)
    requires Shares(parts, items, m, c, t) && join < m
    requires forall b | 0 <= b < m && Friends(items[b], items[m], c) :: items[join].weight <= items[b].weight
    ensures items[join].weight + items[m].weight <= t
  {
    var i, j := FriendsTogether(parts, items, m, c, t);
    assert items[j].weight >= items[m].weight;
    if i == m - 1 {
      assert j == m;
    } else {
      OneFoeAtMost(items, c, m - 2, m - 1, m);
      assert items[i].weight >= items[m - 2].weight >= items[m - 1].weight;
    }
  }

  lemma SortFalls(items: seq<Item>)
    ensures Falling(Sort(items, ItemLe))
  {
    ItemOrder();
    SortCorrect(items, ItemLe);
    var sorted := Sort(items, ItemLe);
    forall i, j | 0 <= i < j < |sorted| ensures sorted[i].weight >= sorted[j].weight {
      assert ItemLe(sorted[i], sorted[j]);
    }
  }

  lemma AddedLoads(bins: seq<Bin>, t: nat, item: Item, w: real)
    requires LoadsAtMost(bins, w) && t < |bins| && item.weight >= 0.0 && bins[t].load + item.weight <= w
    ensures LoadsAtMost(bins[t := Add(bins[t], item)], w)
  {
  }

  ghost predicate OneTooMany(items: seq<Item>, m: nat, c: Conflict) {
    m >= 2 && |items| == m + 1 && Disjoint(c) && OneOfEach(items, c) && Falling(items) && NonNegative(items)
  }

  lemma OneMoreThatWeighs(items: seq<Item>, m: nat, c: Conflict, parts: seq<seq<Item>>, t: real)
    requires OneTooMany(items, m, c) && Shares(parts, items, m, c, t) && items[m].weight > 0.0
    requires Run(items, m, m, c).Packed? && LoadsAtMost(Run(items, m, m, c).bins, t)
    ensures Run(items, m + 1, m, c).Packed? && LoadsAtMost(Run(items, m + 1, m, c).bins, t)
  {
    forall i | 0 <= i < m ensures items[i].weight > 0.0 {
      assert items[i].weight >= items[m].weight;
    }
    var join := LastJoins(items, m, c);
    LastIsLight(items, m, c, parts, t, join);
    FirstTakeOneEach(items, m, m, c);
    LoadsOfOneEach(items, m, join);
    AddedLoads(OneEach(items, m, m), join, items[m], t);
  }

  lemma OneMoreWeightless(items: seq<Item>, m: nat, c: Conflict, t: real)
    requires OneTooMany(items, m, c) && items[m].weight == 0.0
    requires Run(items, m, m, c).Packed? && LoadsAtMost(Run(items, m, m, c).bins, t)
    ensures Run(items, m + 1, m, c).Packed? && LoadsAtMost(Run(items, m + 1, m, c).bins, t)
  {
    RoomyRunPacks(items, m + 1, m, c);
    var target := RunStep(items, m, m, c);
    AddedLoads(Run(items, m, m, c).bins, target, items[m], t);
  }

  lemma OneMoreSorted(items: seq<Item>, m: nat, c: Conflict, parts: seq<seq<Item>>, t: real)
    requires OneTooMany(items, m, c) && Shares(parts, items, m, c, t)
    ensures Run(items, m + 1, m, c).Packed? && LoadsAtMost(Run(items, m + 1, m, c).bins, t)
  {
    forall x | x in items ensures 0.0 <= x.weight <= t {
      ItemAtMost(parts, items, m, t, x);
    }
    assert items[m] in items;
    SpareLoads(items, m, m, c, t);
    if items[m].weight > 0.0 {
      OneMoreThatWeighs(items, m, c, parts, t);
    } else {
      OneMoreWeightless(items, m, c, t);
    }
  }

  /** With one item more than bins and one on each side the packing is the best there is, too. */
  lemma OneMoreIsPackedBest(items: seq<Item>, m: nat, c: Conflict, parts: seq<seq<Item>>, t: real)
    requires m >= 2 && |items| == m + 1 && Disjoint(c) && OneOfEach(items, c) && NonNegative(items)
    requires Shares(parts, items, m, c, t)
    ensures PackSpec(items, m, c).Packed? && LoadsAtMost(PackSpec(items, m, c).bins, t)
  {
    var sorted := Sort(items, ItemLe);
    ItemOrder();
    SortCorrect(items, ItemLe);
    SortFalls(items);
    CountSort(items, c.owners);
    CountSort(items, c.baseUsers);
    OneMoreSorted(sorted, m, c, parts, t);
  }
}
