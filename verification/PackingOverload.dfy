/** Where the 4/3 claim stops. */
module PackingOverload {
  // With items of both sides, and more than a few, some weights make the packer exit or overload a bin: light
  // items take the bins that a later one needs. The claim holds for all weights exactly where that cannot be.

  import opened Sorting
  import opened Packing
  import opened PackingTheorems
  import opened PackingConflicts
  import opened PackingLegal
  import opened PackingWeights
  import LptBound

  // ---- Loads only grow

  /** The packer exits, or a bin ends up with 14.9 or more. */
  ghost predicate Overloads(packed: Packed) {
    packed.Packed? ==> exists b :: 0 <= b < |packed.bins| && packed.bins[b].load >= 14.9
  }

  lemma OverloadStep(bins: seq<Bin>, item: Item, c: Conflict)
    requires Overloads(Packed(bins)) && item.weight >= 0.0
    ensures Overloads(Place(bins, item, c))
  {
    var b :| 0 <= b < |bins| && bins[b].load >= 14.9;
    var t := Target(bins, ModuleOf(item.name), c, |bins|);
    if t < |bins| {
      assert bins[t := Add(bins[t], item)][b].load >= 14.9;
    }
  }

  lemma {:induction false} OverloadStays(items: seq<Item>, j: nat, k: nat, m: nat, c: Conflict)
    requires j <= k <= |items| && NonNegative(items) && Overloads(Run(items, j, m, c))
    ensures Overloads(Run(items, k, m, c))
  {
    if j < k {
      OverloadStays(items, j, k - 1, m, c);
      assert items[k - 1] in items;
      if Run(items, k - 1, m, c).Packed? {
        OverloadStep(Run(items, k - 1, m, c).bins, items[k - 1], c);
      }
    }
  }

  lemma TooMuch(m: nat, load: real, t: real)
    requires m >= 1 && load >= 14.9 && t <= 10.2
    ensures !LptBound.FourThirds(m, load, t)
  {
    var n := m as real;
    assert n * load >= n * 14.9;
    assert (4.0 * n - 1.0) * t <= (4.0 * n - 1.0) * 10.2;
    assert 3.0 * n * load == 3.0 * (n * load);
  }

  /** An overload where 10.2 is enough breaks the claim. */
  lemma OverloadBreaks(items: seq<Item>, m: nat, c: Conflict, parts: seq<seq<Item>>)
    requires m >= 1 && Shares(parts, items, m, c, 10.2) && Overloads(PackSpec(items, m, c))
    ensures !ClaimHolds(items, m, c)
  {
    var packed := PackSpec(items, m, c);
    if packed.Packed? {
      var b :| 0 <= b < |packed.bins| && packed.bins[b].load >= 14.9;
      TooMuch(m, packed.bins[b].load, 10.2);
    }
  }

  /** An item of 4.9 that may only join bins of 10 or more. */
  lemma OverloadsNow(items: seq<Item>, k: nat, m: nat, c: Conflict, bins: seq<Bin>)
    requires k < |items| && NonNegative(items) && Run(items, k, m, c) == Packed(bins) && items[k].weight == 4.9
    requires forall b: nat | b < m && Allowed(bins[b], ModuleOf(items[k].name), c) :: bins[b].load >= 10.0
    ensures Overloads(Run(items, |items|, m, c))
  {
    PlaceOverloads(bins, m, items[k], c);
    OverloadStays(items, k + 1, |items|, m, c);
  }

  lemma PlaceOverloads(bins: seq<Bin>, m: nat, item: Item, c: Conflict)
    requires |bins| == m && item.weight == 4.9
    requires forall b: nat | b < m && Allowed(bins[b], ModuleOf(item.name), c) :: bins[b].load >= 10.0
    ensures Overloads(Place(bins, item, c))
  {
    TargetIsLeast(bins, ModuleOf(item.name), c, m);
    var t := Target(bins, ModuleOf(item.name), c, m);
    if t < m {
      assert bins[t := Add(bins[t], item)][t].load >= 14.9;
    }
  }

  // ---- Two of one side, then one of the other

  /** Weights 10 for all but two bins, 5 twice, 4.9, and nothing. */
  function TwoAndOne(i: nat, m: nat): real
    requires m >= 2
  {
    if i < m - 2 then 10.0 else if i < m then 5.0 else if i == m then 4.9 else 0.0
  }

  lemma TwoAndOneOverload(items: seq<Item>, m: nat, c: Conflict, side: set<string>, other: set<string>)
    requires 2 <= m < |items| && Disjoint(c) && Opposite(c, side, other) && NonNegative(items)
    requires forall i: nat | i < |items| :: items[i].weight == TwoAndOne(i, m)
    requires IsOf(items[m - 2], side) && IsOf(items[m - 1], side) && IsOf(items[m], other)
    ensures Overloads(Run(items, |items|, m, c))
  {
    FirstTakeOneEach(items, m, m, c);
    var bins := OneEach(items, m, m);
    AllowedIffFriends(items, m, m, c, m - 2, items[m]);
    AllowedIffFriends(items, m, m, c, m - 1, items[m]);
    forall b: nat | b < m - 2 ensures bins[b].load >= 10.0 {
      LoadsOfOneEach(items, m, b);
    }
    OverloadsNow(items, m, m, c, bins);
  }

  // ---- One of each side, and two neutral items

  /** Weights 10 for all but two bins, 5.2, 5.1, 5, 4.9, and nothing. */
  function OneOfEachFalls(i: nat, m: nat): real
    requires m >= 2
  {
    if i < m - 2 then 10.0
    else if i == m - 2 then 5.2
    else if i == m - 1 then 5.1
    else if i == m then 5.0
    else if i == m + 1 then 4.9
    else 0.0
  }

  /** A neutral item joins the last bin, and only the bin before that stays below 10. */
  lemma NeutralJoinsLast(items: seq<Item>, m: nat, c: Conflict) returns (next: seq<Bin>)
    requires 2 <= m < |items| && Disjoint(c)
    requires forall i: nat | i < |items| :: items[i].weight == OneOfEachFalls(i, m)
    requires !IsOf(items[m], c.owners) && !IsOf(items[m], c.baseUsers)
    ensures Run(items, m + 1, m, c) == Packed(next) && |next| == m && next[m - 2] == OneEach(items, m, m)[m - 2]
    ensures forall b: nat | b < m && b != m - 2 :: next[b].load >= 10.0
  {
    FirstTakeOneEach(items, m, m, c);
    var bins, mod := OneEach(items, m, m), ModuleOf(items[m].name);
    forall b: nat | b < m ensures Allowed(bins[b], mod, c) && bins[b].load == items[b].weight {
      AllowedIffFriends(items, m, m, c, b, items[m]);
      LoadsOfOneEach(items, m, b);
    }
    TargetIsLeast(bins, mod, c, m);
    var t := Target(bins, mod, c, m);
    assert bins[t].load <= bins[m - 1].load;
    next := bins[m - 1 := Add(bins[m - 1], items[m])];
  }

  lemma OnlyFullBinsAllow(items: seq<Item>, m: nat, c: Conflict, next: seq<Bin>)
    requires 2 <= m && m + 1 < |items| && Disjoint(c) && |next| == m && next[m - 2] == OneEach(items, m, m)[m - 2]
    requires IsOf(items[m - 2], c.owners) && IsOf(items[m + 1], c.baseUsers)
    requires forall b: nat | b < m && b != m - 2 :: next[b].load >= 10.0
    ensures forall b: nat | b < m && Allowed(next[b], ModuleOf(items[m + 1].name), c) :: next[b].load >= 10.0
  {
    AllowedIffFriends(items, m, m, c, m - 2, items[m + 1]);
  }

  lemma OneOfEachOverload(items: seq<Item>, m: nat, c: Conflict)
    requires 2 <= m && m + 1 < |items| && Disjoint(c) && NonNegative(items)
    requires forall i: nat | i < |items| :: items[i].weight == OneOfEachFalls(i, m)
    requires IsOf(items[m - 2], c.owners) && IsOf(items[m + 1], c.baseUsers)
    requires !IsOf(items[m], c.owners) && !IsOf(items[m], c.baseUsers)
    ensures Overloads(Run(items, |items|, m, c))
  {
    var next := NeutralJoinsLast(items, m, c);
    OnlyFullBinsAllow(items, m, c, next);
    var k := m + 1;
    assert items[k].weight == 4.9;
    OverloadsNow(items, k, m, c, next);
  }

  // ---- The sharing-out they are measured against

  lemma ApartWithout(part: seq<Item>, c: Conflict, side: set<string>, other: set<string>)
    requires Opposite(c, side, other) && forall x | x in part :: !IsOf(x, side)
    ensures Conflictless(part, c)
  {
  }

  /** Each of the tens alone, and the rest in two bins. */
  lemma TensApart(tens: seq<string>, a: seq<Item>, b: seq<Item>, items: seq<Item>, m: nat, c: Conflict,
                  side: set<string>, other: set<string>) returns (parts: seq<seq<Item>>)
    requires m >= 2 && |tens| == m - 2 && Disjoint(c) && Opposite(c, side, other)
    requires (forall x | x in a :: !IsOf(x, other)) && (forall x | x in b :: !IsOf(x, side))
    requires Weight(a) <= 10.2 && Weight(b) <= 10.2
    requires multiset(items) == multiset(Weigh(tens, 10.0)) + multiset(a + b)
    ensures Shares(parts, items, m, c, 10.2)
  {
    var singles := Singles(Weigh(tens, 10.0));
    parts := singles + [a, b];
    ContentsConcat(singles, [a, b]);
    ContentsOfSingles(Weigh(tens, 10.0));
    TwoParts(a, b);
    ApartWithout(a, c, other, side);
    ApartWithout(b, c, side, other);
    forall k: nat | k < m ensures Conflictless(parts[k], c) && Weight(parts[k]) <= 10.2 {
      if k < m - 2 {
        SingleApart(Item(tens[k], 10.0), c);
        WeightOfSingle(Item(tens[k], 10.0));
      }
    }
  }

  lemma SingleApart(x: Item, c: Conflict)
    requires Disjoint(c)
    ensures Conflictless([x], c)
  {
    OnlyOneSide(x, c);
  }

  // ---- The names' weights

  ghost predicate Weighs(names: seq<string>, weights: seq<real>) {
    |weights| == |names| && forall x | x in weights :: x >= 0.0
  }

  /** Weights for which the claim does not hold. */
  ghost predicate Breaks(names: seq<string>, weights: seq<real>, m: nat, c: Conflict) {
    Weighs(names, weights) && !ClaimHolds(Weighted(names, weights), m, c)
  }

  /** What breaks the claim in one order breaks it in the order of the names. */
  lemma BreaksByName(names: seq<string>, items: seq<Item>, m: nat, c: Conflict, parts: seq<seq<Item>>)
    returns (weights: seq<real>)
    requires m >= 1 && multiset(names) == multiset(Names(items)) && NonNegative(items)
    requires Shares(parts, items, m, c, 10.2) && Overloads(PackSpec(items, m, c))
    ensures Breaks(names, weights, m, c)
  {
    weights := WeightsFor(names, items);
    var weighted := Weighted(names, weights);
    PackIgnoresOrder(weighted, items, m, c);
    OverloadBreaks(weighted, m, c, parts);
  }

  lemma NoneOf(names: seq<string>, side: set<string>)
    requires Count(names, side) == 0
    ensures forall x | x in names :: ModuleOf(x) !in side
  {
    if names != [] {
      NoneOf(names[1..], side);
    }
  }

  lemma TwoAndOneOf(names: seq<string>, c: Conflict, side: set<string>, other: set<string>)
    returns (p: string, q: string, u: string, rest: seq<string>)
    requires Disjoint(c) && Opposite(c, side, other) && Count(names, side) >= 2 && Count(names, other) >= 1
    ensures ModuleOf(p) in side && ModuleOf(q) in side && ModuleOf(u) in other && |rest| == |names| - 3
    ensures multiset(names) == multiset{p, q, u} + multiset(rest)
  {
    var others;
    p, others := PickOne(names, side);
    OnlyOneSide(Item(p, 0.0), c);
    var left;
    q, left := PickOne(others, side);
    OnlyOneSide(Item(q, 0.0), c);
    u, rest := PickOne(left, other);
    assert multiset(names) == multiset{p} + (multiset{q} + (multiset{u} + multiset(rest)));
  }

  /** With two of one side, one of the other and more items than bins. */
  lemma TwoAndOneBreaks(names: seq<string>, m: nat, c: Conflict, side: set<string>, other: set<string>)
    returns (weights: seq<real>)
    requires m >= 2 && |names| > m && Disjoint(c) && Opposite(c, side, other)
    requires Count(names, side) >= 2 && Count(names, other) >= 1
    ensures Breaks(names, weights, m, c)
  {
    var p, q, u, rest := TwoAndOneOf(names, c, side, other);
    var tens := rest[..m - 2];
    assert rest == tens + rest[m - 2..];
    var zs, zr := SplitBySide(rest[m - 2..], side);
    weights := TwoAndOneWeights(names, tens, p, q, u, zs, zr, m, c, side, other);
  }

  function TwoAndOneItems(tens: seq<string>, p: string, q: string, u: string, zeros: seq<string>): seq<Item> {
    Weigh(tens, 10.0) + [Item(p, 5.0), Item(q, 5.0), Item(u, 4.9)] + Weigh(zeros, 0.0)
  }

  lemma TwoAndOneFalls(tens: seq<string>, p: string, q: string, u: string, zeros: seq<string>, m: nat)
    requires m >= 2 && |tens| == m - 2
    ensures var items := TwoAndOneItems(tens, p, q, u, zeros);
            && Falling(items) && NonNegative(items) && |items| == m + 1 + |zeros|
            && (forall i: nat | i < |items| :: items[i].weight == TwoAndOne(i, m))
            && (forall x | x in items && x.weight == 5.0 :: x.name == p || x.name == q)
            && (forall x | x in items && x.weight == 4.9 :: x.name == u)
            && Names(items) == tens + [p, q, u] + zeros
  {
    var items := TwoAndOneItems(tens, p, q, u, zeros);
    forall i: nat | i < |items| ensures items[i].weight == TwoAndOne(i, m) {
    }
  }

  lemma TwoAndOneOrder(items: seq<Item>, sorted: seq<Item>, m: nat, p: string, q: string, u: string)
    requires m >= 2 && m < |sorted| && forall x :: x in sorted <==> x in items
    requires forall i: nat | i < |sorted| :: sorted[i].weight == TwoAndOne(i, m)
    requires forall x | x in items && x.weight == 5.0 :: x.name == p || x.name == q
    requires forall x | x in items && x.weight == 4.9 :: x.name == u
    ensures sorted[m - 2].name in {p, q} && sorted[m - 1].name in {p, q} && sorted[m].name == u
  {
    assert sorted[m - 2] in items && sorted[m - 1] in items && sorted[m] in items;
  }

  lemma TwoAndOnePacked(items: seq<Item>, tens: seq<string>, p: string, q: string, u: string, zeros: seq<string>, m: nat,
                        c: Conflict, side: set<string>, other: set<string>)
    requires m >= 2 && |tens| == m - 2 && Disjoint(c) && Opposite(c, side, other)
    requires items == TwoAndOneItems(tens, p, q, u, zeros)
    requires ModuleOf(p) in side && ModuleOf(q) in side && ModuleOf(u) in other
    ensures Overloads(PackSpec(items, m, c))
  {
    TwoAndOneFalls(tens, p, q, u, zeros, m);
    var sorted := SortKeepsWeights(items);
    TwoAndOneOrder(items, sorted, m, p, q, u);
    TwoAndOneOverload(sorted, m, c, side, other);
  }

  lemma ThreeOfThem(names: seq<string>, tens: seq<string>, p: string, q: string, u: string, zs: seq<string>, zr: seq<string>)
    requires multiset(names) == multiset(tens) + multiset{p, q, u} + multiset(zs) + multiset(zr)
    ensures multiset(names) == multiset(tens + [p, q, u] + (zs + zr))
  {
  }

  lemma TwoAndOneWeights(names: seq<string>, tens: seq<string>, p: string, q: string, u: string, zs: seq<string>,
                         zr: seq<string>, m: nat, c: Conflict, side: set<string>, other: set<string>)
    returns (weights: seq<real>)
    requires m >= 2 && |tens| == m - 2 && Disjoint(c) && Opposite(c, side, other)
    requires multiset(names) == multiset(tens) + multiset{p, q, u} + multiset(zs) + multiset(zr)
    requires ModuleOf(p) in side && ModuleOf(q) in side && ModuleOf(u) in other
    requires (forall x | x in zs :: ModuleOf(x) in side) && (forall x | x in zr :: ModuleOf(x) !in side)
    ensures Breaks(names, weights, m, c)
  {
    var items := TwoAndOneItems(tens, p, q, u, zs + zr);
    TwoAndOneFalls(tens, p, q, u, zs + zr, m);
    TwoAndOnePacked(items, tens, p, q, u, zs + zr, m, c, side, other);
    ThreeOfThem(names, tens, p, q, u, zs, zr);
    var parts := TwoAndOneParts(tens, p, q, u, zs, zr, items, m, c, side, other);
    weights := BreaksByName(names, items, m, c, parts);
  }

  lemma WeighConcat(a: seq<string>, b: seq<string>)
    ensures Weigh(a + b, 0.0) == Weigh(a, 0.0) + Weigh(b, 0.0)
  {
  }

  lemma TwoHalves(first: seq<Item>, a: seq<Item>, b: seq<Item>, x: seq<Item>, y: seq<Item>)
    ensures multiset(first + (a + b) + (x + y)) == multiset(first) + multiset((a + x) + (b + y))
  {
  }

  lemma AllOf(part: seq<Item>, c: Conflict, side: set<string>, other: set<string>)
    requires Disjoint(c) && Opposite(c, side, other) && forall x | x in part :: IsOf(x, side)
    ensures forall x | x in part :: !IsOf(x, other)
  {
    forall x | x in part ensures !IsOf(x, other) {
      OnlyOneSide(x, c);
    }
  }

  lemma NotOf(part: seq<Item>, u: Item, c: Conflict, side: set<string>, other: set<string>)
    requires Disjoint(c) && Opposite(c, side, other) && IsOf(u, other)
    requires forall x | x in part :: x == u || !IsOf(x, side)
    ensures forall x | x in part :: !IsOf(x, side)
  {
    OnlyOneSide(u, c);
  }

  lemma TwoAndOneParts(tens: seq<string>, p: string, q: string, u: string, zs: seq<string>, zr: seq<string>,
                       items: seq<Item>, m: nat, c: Conflict, side: set<string>, other: set<string>)
    returns (parts: seq<seq<Item>>)
    requires m >= 2 && |tens| == m - 2 && Disjoint(c) && Opposite(c, side, other)
    requires items == TwoAndOneItems(tens, p, q, u, zs + zr)
    requires ModuleOf(p) in side && ModuleOf(q) in side && ModuleOf(u) in other
    requires (forall x | x in zs :: ModuleOf(x) in side) && (forall x | x in zr :: ModuleOf(x) !in side)
    ensures Shares(parts, items, m, c, 10.2)
  {
    var pair := PairOf(Item(p, 5.0), Item(q, 5.0));
    var third := [Item(u, 4.9)];
    var a, b := pair + Weigh(zs, 0.0), third + Weigh(zr, 0.0);
    WithWeightless(pair, zs);
    WeightOfSingle(Item(u, 4.9));
    WithWeightless(third, zr);
    WeighConcat(zs, zr);
    TwoHalves(Weigh(tens, 10.0), pair, third, Weigh(zs, 0.0), Weigh(zr, 0.0));
    assert pair + third == [Item(p, 5.0), Item(q, 5.0), Item(u, 4.9)];
    AllOf(a, c, side, other);
    NotOf(b, Item(u, 4.9), c, side, other);
    parts := TensApart(tens, a, b, items, m, c, side, other);
  }

  lemma WithWeightless(items: seq<Item>, names: seq<string>)
    ensures Weight(items + Weigh(names, 0.0)) == Weight(items)
  {
    Weightless(names);
    WeightConcat(items, Weigh(names, 0.0));
  }

  function OneOfEachItems(tens: seq<string>, o: string, x: string, y: string, u: string, zeros: seq<string>): seq<Item> {
    Weigh(tens, 10.0) + [Item(o, 5.2), Item(x, 5.1), Item(y, 5.0), Item(u, 4.9)] + Weigh(zeros, 0.0)
  }

  lemma OneOfEachItemsFall(tens: seq<string>, o: string, x: string, y: string, u: string, zeros: seq<string>, m: nat)
    requires m >= 2 && |tens| == m - 2
    ensures var items := OneOfEachItems(tens, o, x, y, u, zeros);
            && Falling(items) && NonNegative(items) && |items| == m + 2 + |zeros|
            && (forall i: nat | i < |items| :: items[i].weight == OneOfEachFalls(i, m))
            && (forall item | item in items && item.weight == 5.2 :: item.name == o)
            && (forall item | item in items && item.weight == 5.0 :: item.name == y)
            && (forall item | item in items && item.weight == 4.9 :: item.name == u)
            && Names(items) == tens + [o, x, y, u] + zeros
  {
    var items := OneOfEachItems(tens, o, x, y, u, zeros);
    forall i: nat | i < |items| ensures items[i].weight == OneOfEachFalls(i, m) {
    }
  }

  lemma CrossedPairs(first: seq<Item>, o: Item, x: Item, y: Item, u: Item, last: seq<Item>)
    ensures multiset(first + [o, x, y, u] + last) == multiset(first) + multiset([o, y] + ([x, u] + last))
  {
  }

  lemma OneOfEachParts(tens: seq<string>, o: string, x: string, y: string, u: string, zeros: seq<string>,
                       items: seq<Item>, m: nat, c: Conflict)
    returns (parts: seq<seq<Item>>)
    requires m >= 2 && |tens| == m - 2 && Disjoint(c) && items == OneOfEachItems(tens, o, x, y, u, zeros)
    requires ModuleOf(o) in c.owners && ModuleOf(u) in c.baseUsers
    requires ModuleOf(x) !in c.owners && ModuleOf(y) !in c.baseUsers && forall z | z in zeros :: ModuleOf(z) !in c.owners
    ensures Shares(parts, items, m, c, 10.2)
  {
    var a := PairOf(Item(o, 5.2), Item(y, 5.0));
    var pair := PairOf(Item(x, 5.1), Item(u, 4.9));
    var b := pair + Weigh(zeros, 0.0);
    WithWeightless(pair, zeros);
    OnlyOneSide(Item(o, 5.2), c);
    OnlyOneSide(Item(u, 4.9), c);
    CrossedPairs(Weigh(tens, 10.0), Item(o, 5.2), Item(x, 5.1), Item(y, 5.0), Item(u, 4.9), Weigh(zeros, 0.0));
    parts := TensApart(tens, a, b, items, m, c, c.owners, c.baseUsers);
  }

  lemma OneOfEachOrder(items: seq<Item>, sorted: seq<Item>, m: nat, o: string, y: string, u: string)
    requires m >= 2 && m + 1 < |sorted| && forall x :: x in sorted <==> x in items
    requires forall i: nat | i < |sorted| :: sorted[i].weight == OneOfEachFalls(i, m)
    requires forall item | item in items && item.weight == 5.2 :: item.name == o
    requires forall item | item in items && item.weight == 5.0 :: item.name == y
    requires forall item | item in items && item.weight == 4.9 :: item.name == u
    ensures sorted[m - 2].name == o && sorted[m].name == y && sorted[m + 1].name == u
  {
    assert sorted[m - 2] in items && sorted[m] in items && sorted[m + 1] in items;
  }

  lemma OneOfEachPacked(items: seq<Item>, tens: seq<string>, o: string, x: string, y: string, u: string,
                        zeros: seq<string>, m: nat, c: Conflict)
    requires m >= 2 && |tens| == m - 2 && Disjoint(c) && items == OneOfEachItems(tens, o, x, y, u, zeros)
    requires ModuleOf(o) in c.owners && ModuleOf(u) in c.baseUsers
    requires ModuleOf(y) !in c.baseUsers && ModuleOf(y) !in c.owners
    ensures Overloads(PackSpec(items, m, c))
  {
    OneOfEachItemsFall(tens, o, x, y, u, zeros, m);
    var sorted := SortKeepsWeights(items);
    OneOfEachOrder(items, sorted, m, o, y, u);
    OneOfEachOverload(sorted, m, c);
  }

  lemma OneOfEachWeights(names: seq<string>, tens: seq<string>, o: string, x: string, y: string, u: string,
                         zeros: seq<string>, m: nat, c: Conflict) returns (weights: seq<real>)
    requires m >= 2 && |tens| == m - 2 && Disjoint(c)
    requires multiset(names) == multiset(tens) + multiset{o, x, y, u} + multiset(zeros)
    requires ModuleOf(o) in c.owners && ModuleOf(u) in c.baseUsers
    requires ModuleOf(x) !in c.owners && ModuleOf(y) !in c.baseUsers && ModuleOf(y) !in c.owners
    requires forall z | z in zeros :: ModuleOf(z) !in c.owners
    ensures Breaks(names, weights, m, c)
  {
    var items := OneOfEachItems(tens, o, x, y, u, zeros);
    OneOfEachItemsFall(tens, o, x, y, u, zeros, m);
    OneOfEachPacked(items, tens, o, x, y, u, zeros, m, c);
    assert multiset(names) == multiset(tens + [o, x, y, u] + zeros);
    var parts := OneOfEachParts(tens, o, x, y, u, zeros, items, m, c);
    weights := BreaksByName(names, items, m, c, parts);
  }

  lemma FirstTwoMoreAndRest(names: seq<string>, k: nat)
    requires k + 2 <= |names|
    ensures multiset(names) == multiset(names[..k]) + multiset{names[k], names[k + 1]} + multiset(names[k + 2..])
  {
    assert names == names[..k] + [names[k], names[k + 1]] + names[k + 2..];
  }

  lemma FourOfThem(names: seq<string>, rest: seq<string>, tens: seq<string>, o: string, u: string, x: string, y: string,
                   zeros: seq<string>)
    requires multiset(names) == multiset{o, u} + multiset(rest)
    requires multiset(rest) == multiset(tens) + multiset{x, y} + multiset(zeros)
    ensures multiset(names) == multiset(tens) + multiset{o, x, y, u} + multiset(zeros)
  {
    forall e ensures multiset(names)[e] == (multiset(tens) + multiset{o, x, y, u} + multiset(zeros))[e] {
    }
  }

  /** The one owner's name, the one base user's, and the neutral rest. */
  lemma OneOfEachSide(names: seq<string>, c: Conflict) returns (o: string, u: string, rest: seq<string>)
    requires Disjoint(c) && Count(names, c.owners) == 1 && Count(names, c.baseUsers) == 1
    ensures ModuleOf(o) in c.owners && ModuleOf(u) in c.baseUsers && |rest| == |names| - 2
    ensures multiset(names) == multiset{o, u} + multiset(rest)
    ensures forall x | x in rest :: ModuleOf(x) !in c.owners && ModuleOf(x) !in c.baseUsers
  {
    var some;
    o, some := PickOne(names, c.owners);
    OnlyOneSide(Item(o, 0.0), c);
    u, rest := PickOne(some, c.baseUsers);
    OnlyOneSide(Item(u, 0.0), c);
    NoneOf(rest, c.owners);
    NoneOf(rest, c.baseUsers);
    assert multiset(names) == multiset{o} + (multiset{u} + multiset(rest));
  }

  /** With one of each side and at least two items more than bins. */
  lemma OneOfEachBreaks(names: seq<string>, m: nat, c: Conflict) returns (weights: seq<real>)
    requires m >= 2 && |names| >= m + 2 && Disjoint(c)
    requires Count(names, c.owners) == 1 && Count(names, c.baseUsers) == 1
    ensures Breaks(names, weights, m, c)
  {
    var o, u, rest := OneOfEachSide(names, c);
    var tens, x, y, zeros := rest[..m - 2], rest[m - 2], rest[m - 1], rest[m..];
    FirstTwoMoreAndRest(rest, m - 2);
    FourOfThem(names, rest, tens, o, u, x, y, zeros);
    weights := OneOfEachWeights(names, tens, o, x, y, u, zeros, m, c);
  }

  /** One bin cannot take both sides at all. */
  lemma OneBinBreaks(names: seq<string>, c: Conflict) returns (weights: seq<real>)
    requires Disjoint(c) && Count(names, c.owners) > 0 && Count(names, c.baseUsers) > 0
    ensures Breaks(names, weights, 1, c)
  {
    weights := SideFirst(names, c.owners);
    SideFirstExits(names, 1, c, c.owners, c.baseUsers);
  }

  // ---- Where the claim holds

  /** One side has no item, or there are no more items than bins, or one more and just one on each side. */
  predicate Tame(names: seq<string>, m: nat, c: Conflict) {
    || Count(names, c.owners) == 0
    || Count(names, c.baseUsers) == 0
    || |names| <= m
    || (m >= 2 && Count(names, c.owners) == 1 && Count(names, c.baseUsers) == 1 && |names| == m + 1)
  }

  lemma NamesDecideSides(names: seq<string>, weights: seq<real>, c: Conflict)
    requires |weights| == |names| && (Count(names, c.owners) == 0 || Count(names, c.baseUsers) == 0)
    ensures Conflictless(Weighted(names, weights), c)
  {
    if Count(names, c.owners) == 0 {
      NoneOf(names, c.owners);
      ApartWithout(Weighted(names, weights), c, c.owners, c.baseUsers);
    } else {
      NoneOf(names, c.baseUsers);
      ApartWithout(Weighted(names, weights), c, c.baseUsers, c.owners);
    }
  }

  lemma WithinClaim(bins: seq<Bin>, m: nat, t: real)
    requires m > 0 && |bins| == m && LoadsAtMost(bins, t)
    ensures LoadsWithin(bins, m, t)
  {
    assert 0.0 <= bins[0].load <= t;
    forall b | 0 <= b < m ensures LptBound.FourThirds(m, bins[b].load, t) {
      LptBound.AtMostTime(m, bins[b].load, t);
    }
  }

  lemma OneSideHolds(items: seq<Item>, m: nat, c: Conflict)
    requires m > 0 && NonNegative(items) && Conflictless(items, c)
    ensures ClaimHolds(items, m, c)
  {
    var sorted := Sort(items, ItemLe);
    ItemOrder();
    SortCorrect(items, ItemLe);
    NeverExits(sorted, |sorted|, m, c);
    forall parts, t | Shares(parts, items, m, c, t) ensures LoadsWithin(PackSpec(items, m, c).bins, m, t) {
      PackWithinFourThirds(items, m, c, parts, t);
    }
  }

  lemma FewHold(items: seq<Item>, m: nat, c: Conflict)
    requires m > 0 && NonNegative(items) && |items| <= m
    ensures ClaimHolds(items, m, c)
  {
    var sorted := Sort(items, ItemLe);
    ItemOrder();
    SortCorrect(items, ItemLe);
    forall x | x in sorted ensures 0.0 <= x.weight <= Weight(sorted) {
      var i :| 0 <= i < |sorted| && sorted[i] == x;
      WeightOfOne(sorted, i);
    }
    WeightNonNegative(sorted);
    SpareLoads(sorted, |sorted|, m, c, Weight(sorted));
    forall parts, t | Shares(parts, items, m, c, t) ensures LoadsWithin(PackSpec(items, m, c).bins, m, t) {
      FewArePackedBest(items, m, c, parts, t);
      WithinClaim(PackSpec(items, m, c).bins, m, t);
    }
  }

  lemma OneMoreHolds(names: seq<string>, weights: seq<real>, m: nat, c: Conflict)
    requires m >= 2 && Disjoint(c) && Weighs(names, weights) && |names| == m + 1
    requires Count(names, c.owners) == 1 && Count(names, c.baseUsers) == 1
    ensures ClaimHolds(Weighted(names, weights), m, c)
  {
    var items := Weighted(names, weights);
    RoomyPacks(names, weights, m, c);
    CountWeighted(names, weights, c.owners);
    CountWeighted(names, weights, c.baseUsers);
    WeighedNonNegative(names, weights);
    forall parts, t | Shares(parts, items, m, c, t) ensures LoadsWithin(PackSpec(items, m, c).bins, m, t) {
      OneMoreIsPackedBest(items, m, c, parts, t);
      WithinClaim(PackSpec(items, m, c).bins, m, t);
    }
  }

  lemma WeighedNonNegative(names: seq<string>, weights: seq<real>)
    requires Weighs(names, weights)
    ensures NonNegative(Weighted(names, weights))
  {
    forall x | x in Weighted(names, weights) ensures x.weight >= 0.0 {
      var i :| 0 <= i < |names| && Weighted(names, weights)[i] == x;
      assert weights[i] in weights;
    }
  }

  // ---- Exactly when

  /** For all non-negative weights the packing succeeds within 4/3 of any sharing-out that keeps the sides apart, if
      and only if the names are tame. */
  lemma ClaimHoldsIff(names: seq<string>, m: nat, c: Conflict)
    requires m > 0 && Disjoint(c)
    ensures (forall weights: seq<real> | |weights| == |names| && (forall x | x in weights :: x >= 0.0) ::
               ClaimHolds(Weighted(names, weights), m, c)) <==>
            Tame(names, m, c)
  {
    if Tame(names, m, c) {
      forall weights: seq<real> | |weights| == |names| && (forall x | x in weights :: x >= 0.0)
        ensures ClaimHolds(Weighted(names, weights), m, c)
      {
        TameHolds(names, weights, m, c);
      }
    } else {
      var weights := WildBreaks(names, m, c);
    }
  }

  lemma TameHolds(names: seq<string>, weights: seq<real>, m: nat, c: Conflict)
    requires m > 0 && Disjoint(c) && Weighs(names, weights) && Tame(names, m, c)
    ensures ClaimHolds(Weighted(names, weights), m, c)
  {
    WeighedNonNegative(names, weights);
    if Count(names, c.owners) == 0 || Count(names, c.baseUsers) == 0 {
      NamesDecideSides(names, weights, c);
      OneSideHolds(Weighted(names, weights), m, c);
    } else if |names| <= m {
      FewHold(Weighted(names, weights), m, c);
    } else {
      OneMoreHolds(names, weights, m, c);
    }
  }

  lemma WildBreaks(names: seq<string>, m: nat, c: Conflict) returns (weights: seq<real>)
    requires m > 0 && Disjoint(c) && !Tame(names, m, c)
    ensures Breaks(names, weights, m, c)
  {
    if m == 1 {
      weights := OneBinBreaks(names, c);
    } else if Count(names, c.owners) >= 2 {
      weights := TwoAndOneBreaks(names, m, c, c.owners, c.baseUsers);
    } else if Count(names, c.baseUsers) >= 2 {
      weights := TwoAndOneBreaks(names, m, c, c.baseUsers, c.owners);
    } else {
      weights := OneOfEachBreaks(names, m, c);
    }
  }

  // ---- One such input, in the three bins of the packed lane

  lemma ThreeParts(x: Item, pair: seq<Item>, u: Item)
    ensures Contents([[x], pair, [u]]) == multiset([x] + pair + [u])
  {
    assert [[x], pair, [u]][1..] == [pair, [u]];
    TwoParts(pair, [u]);
  }

  lemma ThreeBinShares(items: seq<Item>, x: string, o: string, p: string, u: string, c: Conflict)
    returns (parts: seq<seq<Item>>)
    requires Disjoint(c) && ModuleOf(o) in c.owners && ModuleOf(p) in c.owners
    requires items == TwoAndOneItems([x], o, p, u, [])
    ensures Shares(parts, items, 3, c, 10.0)
  {
    var first, third := Item(x, 10.0), Item(u, 4.9);
    var pair := PairOf(Item(o, 5.0), Item(p, 5.0));
    parts := [[first], pair, [third]];
    assert items == [first] + pair + [third];
    ThreeParts(first, pair, third);
    WeightOfSingle(first);
    WeightOfSingle(third);
    ThreeApart(first, pair, third, c);
  }

  lemma ThreeApart(x: Item, pair: seq<Item>, u: Item, c: Conflict)
    requires Disjoint(c) && forall item | item in pair :: IsOf(item, c.owners)
    ensures KeepsApart([[x], pair, [u]], c)
  {
    SingleApart(x, c);
    SingleApart(u, c);
    AllOf(pair, c, c.owners, c.baseUsers);
    ApartWithout(pair, c, c.baseUsers, c.owners);
  }

  lemma ThreeBinsPack(items: seq<Item>, m: nat, c: Conflict, x: Item, o: Item, p: Item, u: Item)
    requires m > 2 && Disjoint(c) && items == [x, o, p, u] && !IsOf(x, c.owners)
    requires IsOf(o, c.owners) && IsOf(p, c.owners) && IsOf(u, c.baseUsers)
    ensures PackSpec(items, m, c).Packed?
  {
    OnlyOneSide(o, c);
    OnlyOneSide(p, c);
    OnlyOneSide(u, c);
    CountFour(items, x, o, p, u, c.owners);
    CountFour(items, x, o, p, u, c.baseUsers);
    CountSort(items, c.owners);
    CountSort(items, c.baseUsers);
    var sorted := Sort(items, ItemLe);
    RoomyRunPacks(sorted, |sorted|, m, c);
  }

  lemma CountOneMore(x: Item, rest: seq<Item>, side: set<string>)
    ensures CountItems([x] + rest, side) == CountItems(rest, side) + if IsOf(x, side) then 1 else 0
  {
    assert ([x] + rest)[1..] == rest;
  }

  lemma CountFour(items: seq<Item>, x: Item, o: Item, p: Item, u: Item, side: set<string>)
    requires items == [x, o, p, u] && (IsOf(u, side) <==> !IsOf(o, side)) && (IsOf(u, side) <==> !IsOf(p, side))
    requires IsOf(x, side) ==> IsOf(u, side)
    ensures CountItems(items, side) <= 2
  {
    assert items == [x] + [o, p, u] && [o, p, u] == [o] + [p, u] && [p, u] == [p] + [u] && [u] == [u] + [];
    CountOneMore(x, [o, p, u], side);
    CountOneMore(o, [p, u], side);
    CountOneMore(p, [u], side);
    CountOneMore(u, [], side);
  }

  lemma ThreeBinsOverload(items: seq<Item>, x: string, o: string, p: string, u: string, m: nat, c: Conflict)
    returns (b: nat)
    requires m == 3 && Disjoint(c) && ModuleOf(x) !in c.owners && items == TwoAndOneItems([x], o, p, u, [])
    requires ModuleOf(o) in c.owners && ModuleOf(p) in c.owners && ModuleOf(u) in c.baseUsers
    ensures PackSpec(items, m, c).Packed? && b < m && PackSpec(items, m, c).bins[b].load >= 14.9
  {
    TwoAndOnePacked(items, [x], o, p, u, [], m, c, c.owners, c.baseUsers);
    assert items == [Item(x, 10.0), Item(o, 5.0), Item(p, 5.0), Item(u, 4.9)];
    ThreeBinsPack(items, m, c, Item(x, 10.0), Item(o, 5.0), Item(p, 5.0), Item(u, 4.9));
    b :| b < m && PackSpec(items, m, c).bins[b].load >= 14.9;
  }

  /** Two owners' items, a base user's and one that is not an owner's: the packer makes a bin of 14.9 out of three,
      while sharing them out with the sides apart needs only 10, and 12.2 is the bound. */
  lemma ConflictBreaksTheBound(x: string, o: string, p: string, u: string, c: Conflict)
    returns (items: seq<Item>, other: seq<seq<Item>>, b: nat)
    requires Disjoint(c) && ModuleOf(x) !in c.owners
    requires ModuleOf(o) in c.owners && ModuleOf(p) in c.owners && ModuleOf(u) in c.baseUsers
    ensures Names(items) == [x, o, p, u] && Shares(other, items, 3, c, 10.0)
    ensures PackSpec(items, 3, c).Packed? && b < 3 && PackSpec(items, 3, c).bins[b].load >= 14.9
    ensures !LptBound.FourThirds(3, PackSpec(items, 3, c).bins[b].load, 10.0)
  {
    items := TwoAndOneItems([x], o, p, u, []);
    other := ThreeBinShares(items, x, o, p, u, c);
    b := ThreeBinsOverload(items, x, o, p, u, 3, c);
    TooMuch(3, PackSpec(items, 3, c).bins[b].load, 10.0);
  }
}
