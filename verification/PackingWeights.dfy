/** Choosing weights for names. */
module PackingWeights {
  // Items of chosen weights, whose order by weight is known, stand for weights of the given names.

  import opened Sorting
  import opened Packing
  import opened PackingTheorems
  import opened PackingConflicts
  import opened PackingLegal

  // ---- Weights in the order they fall

  lemma {:induction false} WeightsPermute(a: seq<Item>, b: seq<Item>)
    requires multiset(a) == multiset(b)
    ensures multiset(Weights(a)) == multiset(Weights(b))
    decreases |a|
  {
    SameElements(a, b);
    if a != [] {
      assert a[0] in b;
      var i :| 0 <= i < |b| && b[i] == a[0];
      var rest := WithoutAt(b, i);
      DropKeepsRest(b, i);
      assert a == [a[0]] + a[1..];
      Cancel(multiset(a[1..]), multiset(rest), a[0]);
      WeightsPermute(a[1..], rest);
      DropWeight(b, i);
      assert Weights(a) == [a[0].weight] + Weights(a[1..]);
    }
  }

  lemma Cancel<T>(a: multiset<T>, b: multiset<T>, x: T)
    requires multiset{x} + a == multiset{x} + b
    ensures a == b
  {
    forall e ensures a[e] == b[e] {
      assert (multiset{x} + a)[e] == (multiset{x} + b)[e];
    }
  }

  function WithoutAt<T>(xs: seq<T>, i: nat): (rest: seq<T>)
    requires i < |xs|
    ensures |rest| == |xs| - 1
  {
    xs[..i] + xs[i + 1..]
  }

  lemma DropKeepsRest<T>(xs: seq<T>, i: nat)
    requires i < |xs|
    ensures multiset(xs) == multiset{xs[i]} + multiset(WithoutAt(xs, i))
  {
    assert xs == xs[..i] + [xs[i]] + xs[i + 1..];
  }

  lemma DropWeight(items: seq<Item>, i: nat)
    requires i < |items|
    ensures multiset(Weights(items)) == multiset{items[i].weight} + multiset(Weights(WithoutAt(items, i)))
  {
    assert Weights(WithoutAt(items, i)) == WithoutAt(Weights(items), i);
    DropKeepsRest(Weights(items), i);
  }

  lemma DropName(items: seq<Item>, i: nat)
    requires i < |items|
    ensures multiset(Names(items)) == multiset{items[i].name} + multiset(Names(WithoutAt(items, i)))
  {
    assert Names(WithoutAt(items, i)) == WithoutAt(Names(items), i);
    DropKeepsRest(Names(items), i);
  }

  predicate AtLeast(x: real, y: real) {
    x >= y
  }

  /** Sorting items whose weights fall already changes no weight. */
  lemma SortKeepsWeights(items: seq<Item>) returns (sorted: seq<Item>)
    requires Falling(items)
    ensures sorted == Sort(items, ItemLe) && |sorted| == |items| && multiset(sorted) == multiset(items)
    ensures forall i | 0 <= i < |items| :: sorted[i].weight == items[i].weight
    ensures forall x :: x in sorted <==> x in items
  {
    sorted := Sort(items, ItemLe);
    ItemOrder();
    SortCorrect(items, ItemLe);
    SortFalls(items);
    WeightsPermute(sorted, items);
    SortedUnique(Weights(sorted), Weights(items), AtLeast);
    forall i | 0 <= i < |items| ensures sorted[i].weight == items[i].weight {
      assert Weights(sorted)[i] == Weights(items)[i];
    }
  }

  // ---- Items of one weight

  function Weigh(names: seq<string>, x: real): (items: seq<Item>)
    ensures |items| == |names|
  {
    seq(|names|, i requires 0 <= i < |names| => Item(names[i], x))
  }

  lemma {:induction false} Weightless(names: seq<string>)
    ensures Weight(Weigh(names, 0.0)) == 0.0
  {
    if names != [] {
      var n := |names| - 1;
      Weightless(names[..n]);
      assert Weigh(names, 0.0)[..n] == Weigh(names[..n], 0.0);
    }
  }

  /** Each item in a part of its own. */
  function Singles(items: seq<Item>): (parts: seq<seq<Item>>)
    ensures |parts| == |items|
  {
    seq(|items|, i requires 0 <= i < |items| => [items[i]])
  }

  lemma {:induction false} ContentsOfSingles(items: seq<Item>)
    ensures Contents(Singles(items)) == multiset(items)
  {
    if items != [] {
      ContentsOfSingles(items[1..]);
      assert Singles(items)[1..] == Singles(items[1..]) && items == [items[0]] + items[1..];
    }
  }

  lemma {:induction false} ContentsConcat(a: seq<seq<Item>>, b: seq<seq<Item>>)
    ensures Contents(a + b) == Contents(a) + Contents(b)
  {
    if a == [] {
      assert a + b == b;
    } else {
      assert (a + b)[1..] == a[1..] + b;
      ContentsConcat(a[1..], b);
    }
  }

  lemma WeightOfSingle(x: Item)
    ensures Weight([x]) == x.weight
  {
    assert [x][..0] == [];
  }

  // ---- Naming the items

  lemma FirstNamed(names: seq<string>, items: seq<Item>) returns (i: nat)
    requires names != [] && multiset(names) == multiset(Names(items))
    ensures i < |items| && items[i].name == names[0]
    ensures multiset(names[1..]) == multiset(Names(WithoutAt(items, i)))
  {
    SameElements(names, Names(items));
    assert names[0] in Names(items);
    i :| i < |items| && items[i].name == names[0];
    DropName(items, i);
    assert names == [names[0]] + names[1..];
    Cancel(multiset(names[1..]), multiset(Names(WithoutAt(items, i))), names[0]);
  }

  lemma WithoutIsWithin<T>(xs: seq<T>, i: nat)
    requires i < |xs|
    ensures forall x | x in WithoutAt(xs, i) :: x in xs
  {
  }

  /** Any items with these names are the names with some weights. */
  lemma {:induction false} WeightsFor(names: seq<string>, items: seq<Item>) returns (weights: seq<real>)
    requires multiset(names) == multiset(Names(items)) && NonNegative(items)
    ensures |weights| == |names| && (forall x | x in weights :: x >= 0.0)
    ensures multiset(Weighted(names, weights)) == multiset(items)
    decreases |names|
  {
    if names == [] {
      SameElements(names, Names(items));
      weights := [];
    } else {
      var i := FirstNamed(names, items);
      WithoutIsWithin(items, i);
      var others := WeightsFor(names[1..], WithoutAt(items, i));
      weights := [items[i].weight] + others;
      assert items[i] in items;
      DropKeepsRest(items, i);
      assert Weighted(names, weights) == [items[i]] + Weighted(names[1..], others);
    }
  }

  /** A name of the side, and the other names. */
  lemma {:induction false} PickOne(names: seq<string>, side: set<string>) returns (x: string, rest: seq<string>)
    requires Count(names, side) > 0
    ensures ModuleOf(x) in side && |rest| == |names| - 1 && multiset(names) == multiset{x} + multiset(rest)
    ensures forall s :: Count(names, s) == Count(rest, s) + if ModuleOf(x) in s then 1 else 0
  {
    assert names == [names[0]] + names[1..];
    if ModuleOf(names[0]) in side {
      x, rest := names[0], names[1..];
    } else {
      var more;
      x, more := PickOne(names[1..], side);
      rest := [names[0]] + more;
      assert rest[1..] == more;
    }
  }

  /** The names of the side, and those that are not. */
  lemma {:induction false} SplitBySide(names: seq<string>, side: set<string>) returns (with: seq<string>, without: seq<string>)
    ensures multiset(with) + multiset(without) == multiset(names)
    ensures (forall x | x in with :: ModuleOf(x) in side) && (forall x | x in without :: ModuleOf(x) !in side)
  {
    if names == [] {
      with, without := [], [];
    } else {
      with, without := SplitBySide(names[1..], side);
      assert names == [names[0]] + names[1..];
      if ModuleOf(names[0]) in side {
        with := [names[0]] + with;
      } else {
        without := [names[0]] + without;
      }
    }
  }
}
