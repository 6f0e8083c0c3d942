/** The greedy packer of the planner. */
module Packing {
  // Heaviest first, onto the least loaded bin that the session-worker conflict allows.

  import opened Sorting
  import opened Text

  datatype Item = Item(name: string, weight: real)

  /** One entry of the packer's `loads`: time so far, members, and the modules they come from. */
  datatype Bin = Bin(load: real, names: seq<string>, held: set<string>)

  datatype Conflict = Conflict(owners: set<string>, baseUsers: set<string>)

  const NO_CONFLICT := Conflict({}, {})

  datatype Packed = Packed(bins: seq<Bin>) | CannotPlace(name: string)

  datatype PackResult = Placed(bins: seq<seq<string>>) | Exit(name: string)

  /** `app/modules/pod/tests/e2e/test_x.py` is `pod`'s; anything else is `core`'s. */
  function ModuleOf(path: string): string {
    var parts := SplitOn(path, '/');
    if "app/modules/" <= path && |parts| > 2 then parts[2] else "core"
  }

  lemma FirstPart(s: string)
    ensures var first := SplitOn(s, '/')[0];
            '/' !in first && (s == first || first + "/" <= s)
  {
    var n := IndexOf(s, '/');
    assert s == s[..n] + s[n..];
    if n < |s| {
      assert s[..n + 1] == s[..n] + "/";
    }
  }

  lemma ThirdPart(a: string, b: string, rest: string)
    requires '/' !in a && '/' !in b
    ensures var parts := SplitOn(a + ['/'] + (b + ['/'] + rest), '/'); |parts| > 2 && parts[2] == SplitOn(rest, '/')[0]
  {
    SplitOnStep(a, b + ['/'] + rest, '/');
    SplitOnStep(b, rest, '/');
  }

  lemma Behind(prefix: string, s: string, first: string)
    requires s == first || first + "/" <= s
    ensures prefix + s == prefix + first || prefix + first + "/" <= prefix + s
  {
    if first + "/" <= s {
      assert prefix + first + "/" == prefix + (first + "/");
    }
  }

  /** Below `app/modules/` the module is the name that comes next; anything else is of `core`. */
  lemma ModuleIs(path: string)
    ensures var mod := ModuleOf(path);
            if "app/modules/" <= path
            then '/' !in mod && (path == "app/modules/" + mod || "app/modules/" + mod + "/" <= path)
            else mod == "core"
  {
    if "app/modules/" <= path {
      var rest := path[|"app/modules/"|..];
      assert path == "app" + ['/'] + ("modules" + ['/'] + rest);
      ThirdPart("app", "modules", rest);
      FirstPart(rest);
      Behind("app/modules/", rest, SplitOn(rest, '/')[0]);
      assert path == "app/modules/" + rest;
    }
  }

  /** The order the packer takes items in: heaviest first, ties by name. */
  predicate ItemLe(a: Item, b: Item) {
    a.weight > b.weight || (a.weight == b.weight && StringLe(a.name, b.name))
  }

  predicate Allowed(bin: Bin, mod: string, c: Conflict) {
    if mod in c.owners then bin.held * c.baseUsers == {}
    else if mod in c.baseUsers then bin.held * c.owners == {}
    else true
  }

  /** The first of the least-loaded allowed bins among the first `k`; `k` itself when none is. */
  function Target(bins: seq<Bin>, mod: string, c: Conflict, k: nat): (t: nat)
    requires k <= |bins|
    ensures t <= |bins|
  {
    if k == 0 then |bins|
    else
      var best := Target(bins, mod, c, k - 1);
      if Allowed(bins[k - 1], mod, c) && (best == |bins| || bins[k - 1].load < bins[best].load)
      then k - 1
      else best
  }

  lemma {:induction false} TargetIsLeast(bins: seq<Bin>, mod: string, c: Conflict, k: nat)
    requires k <= |bins|
    ensures var t := Target(bins, mod, c, k);
            && (t == |bins| <==> forall b | 0 <= b < k :: !Allowed(bins[b], mod, c))
            && (t < |bins| ==>
                  && t < k
                  && Allowed(bins[t], mod, c)
                  && (forall b | 0 <= b < k && Allowed(bins[b], mod, c) :: bins[t].load <= bins[b].load)
                  && (forall b | 0 <= b < t && Allowed(bins[b], mod, c) :: bins[t].load < bins[b].load))
  {
    if k > 0 {
      TargetIsLeast(bins, mod, c, k - 1);
    }
  }

  function Add(bin: Bin, item: Item): Bin {
    Bin(bin.load + item.weight, bin.names + [item.name], bin.held + {ModuleOf(item.name)})
  }

  function EmptyBins(m: nat): seq<Bin> {
    seq(m, _ => Bin(0.0, [], {}))
  }

  function Place(bins: seq<Bin>, item: Item, c: Conflict): Packed {
    var t := Target(bins, ModuleOf(item.name), c, |bins|);
    if t == |bins| then CannotPlace(item.name) else Packed(bins[t := Add(bins[t], item)])
  }

  /** The bins after the first `k` items. */
  function Run(items: seq<Item>, k: nat, m: nat, c: Conflict): (r: Packed)
    requires k <= |items|
    ensures r.Packed? ==> |r.bins| == m
  {
    if k == 0 then Packed(EmptyBins(m))
    else
      match Run(items, k - 1, m, c)
      case Packed(bins) => Place(bins, items[k - 1], c)
      case CannotPlace(name) => CannotPlace(name)
  }

  function PackSpec(weights: seq<Item>, m: nat, c: Conflict): Packed {
    var items := Sort(weights, ItemLe);
    Run(items, |items|, m, c)
  }

  function Members(bins: seq<Bin>): seq<seq<string>> {
    seq(|bins|, b requires 0 <= b < |bins| => bins[b].names)
  }

  function ResultOf(packed: Packed): PackResult {
    match packed
    case Packed(bins) => Placed(Members(bins))
    case CannotPlace(name) => Exit(name)
  }

  method Pack(weights: seq<Item>, bins: nat, conflict: Conflict) returns (r: PackResult)
    ensures r == ResultOf(PackSpec(weights, bins, conflict))
  {
    var loads := new Bin[bins](_ => Bin(0.0, [], {}));
    var items := Sort(weights, ItemLe);
    assert loads[..] == EmptyBins(bins);
    for i := 0 to |items|
      invariant loads.Length == bins
      invariant Run(items, i, bins, conflict) == Packed(loads[..])
    {
      var target := Target(loads[..], ModuleOf(items[i].name), conflict, bins);
      if target == bins {
        RunSticks(items, i + 1, |items|, bins, conflict);
        return Exit(items[i].name);
      }
      loads[target] := Add(loads[target], items[i]);
    }
    var names := seq(bins, b requires 0 <= b < bins reads loads => loads[b].names);
    assert names == Members(loads[..]);
    r := Placed(names);
  }

  /** Once an item cannot be placed the run is over. */
  lemma {:induction false} RunSticks(items: seq<Item>, j: nat, k: nat, m: nat, c: Conflict)
    requires j <= k <= |items|
    ensures Run(items, j, m, c).CannotPlace? ==> Run(items, k, m, c) == Run(items, j, m, c)
    ensures Run(items, k, m, c).Packed? ==> Run(items, j, m, c).Packed?
    decreases k
  {
    if j < k {
      RunSticks(items, j, k - 1, m, c);
    }
  }
}
