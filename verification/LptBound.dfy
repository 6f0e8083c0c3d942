/** Sharing jobs out heaviest first. */
module LptBound {
  // The mathematics behind the packer's 4/3 claim: each job goes on a least loaded machine, against any
  // other way of sharing the same jobs out. `w` is the weight of each job in the order taken, and an
  // assignment `g` names each job's machine. Nothing here knows about shards; `PackingTheorems` ties it
  // to the packer.

  ghost predicate Assigns(g: seq<nat>, n: nat, m: nat) {
    |g| == n && forall i | 0 <= i < n :: g[i] < m
  }

  /** What the first `k` jobs put on machine `b`. */
  ghost function Load(w: seq<real>, g: seq<nat>, k: nat, b: nat): real
    requires k <= |w| == |g|
  {
    if k == 0 then 0.0 else Load(w, g, k - 1, b) + if g[k - 1] == b then w[k - 1] else 0.0
  }

  ghost function Count(g: seq<nat>, k: nat, b: nat): nat
    requires k <= |g|
  {
    if k == 0 then 0 else Count(g, k - 1, b) + if g[k - 1] == b then 1 else 0
  }

  ghost function Total(w: seq<real>, k: nat): real
    requires k <= |w|
  {
    if k == 0 then 0.0 else Total(w, k - 1) + w[k - 1]
  }

  ghost predicate NonNegative(w: seq<real>) {
    forall i | 0 <= i < |w| :: w[i] >= 0.0
  }

  ghost predicate HeaviestFirst(w: seq<real>) {
    forall i, j | 0 <= i < j < |w| :: w[i] >= w[j]
  }

  ghost predicate LeastLoaded(w: seq<real>, g: seq<nat>, k: nat, b: nat)
    requires k < |w| == |g|
  {
    Load(w, g, k, g[k]) <= Load(w, g, k, b)
  }

  /** Each job goes to a machine no other machine is less loaded than. */
  ghost predicate Greedy(w: seq<real>, g: seq<nat>, m: nat) {
    && Assigns(g, |w|, m)
    && forall k: nat, b: nat | k < |w| && b < m :: LeastLoaded(w, g, k, b)
  }

  /** Two assignments that agree on the first `k` jobs put the same load on every machine. */
  lemma {:induction false} LoadPrefix(w: seq<real>, g: seq<nat>, w': seq<real>, g': seq<nat>, k: nat, b: nat)
    requires |w| == |g| && |w'| == |g'| && k <= |w| && k <= |w'|
    requires forall i | 0 <= i < k :: w[i] == w'[i] && g[i] == g'[i]
    ensures Load(w, g, k, b) == Load(w', g', k, b)
  {
    if k > 0 {
      LoadPrefix(w, g, w', g', k - 1, b);
    }
  }

  lemma LoadExtended(w: seq<real>, g: seq<nat>, x: real, t: nat, b: nat)
    requires |w| == |g|
    ensures Load(w + [x], g + [t], |w| + 1, b) == Load(w, g, |w|, b) + if b == t then x else 0.0
  {
    LoadPrefix(w + [x], g + [t], w, g, |w|, b);
  }

  /** One more job, put on a least-loaded machine, keeps a run greedy. */
  lemma ExtendGreedy(w: seq<real>, g: seq<nat>, x: real, t: nat, m: nat)
    requires Greedy(w, g, m) && t < m
    requires forall b: nat | b < m :: Load(w, g, |w|, t) <= Load(w, g, |w|, b)
    ensures Greedy(w + [x], g + [t], m)
  {
    var w', g' := w + [x], g + [t];
    forall k: nat, b: nat | k < |w'| && b < m ensures LeastLoaded(w', g', k, b) {
      LoadPrefix(w', g', w, g, k, b);
      LoadPrefix(w', g', w, g, k, g'[k]);
      assert k < |w| ==> LeastLoaded(w, g, k, b);
    }
  }

  /** Every machine finishes by `t`. */
  ghost predicate Within(w: seq<real>, a: seq<nat>, m: nat, t: real)
    requires |w| == |a|
  {
    forall b | 0 <= b < m :: Load(w, a, |w|, b) <= t
  }

  /** `n * x` by repeated addition, so that only the final lemmas meet a product of unknowns. */
  ghost function Times(n: nat, x: real): real {
    if n == 0 then 0.0 else Times(n - 1, x) + x
  }

  lemma {:induction false} TimesIsProduct(n: nat, x: real)
    ensures Times(n, x) == n as real * x
  {
    if n > 0 {
      TimesIsProduct(n - 1, x);
      assert n as real * x == (n - 1) as real * x + x;
    }
  }

  lemma {:induction false} TimesGrows(n: nat, k: nat, x: real)
    requires x >= 0.0
    ensures 0.0 <= Times(k, x) <= Times(n + k, x)
  {
    if n > 0 {
      TimesGrows(n - 1, k, x);
    } else if k > 0 {
      TimesGrows(0, k - 1, x);
    }
  }

  lemma SmallTimes(x: real)
    ensures Times(1, x) == x && Times(2, x) == x + x && Times(3, x) == x + x + x
  {
    assert Times(1, x) == x;
    assert Times(2, x) == x + x;
  }

  lemma Scale(x: real, y: real, t: real)
    requires t >= 0.0
    ensures x >= y ==> x * t >= y * t
  {
  }

  // ---- Loads and counts over one machine

  lemma {:induction false} LoadMonotone(w: seq<real>, g: seq<nat>, j: nat, k: nat, b: nat)
    requires NonNegative(w) && j <= k <= |w| == |g|
    ensures 0.0 <= Load(w, g, j, b) <= Load(w, g, k, b)
    ensures Total(w, j) <= Total(w, k)
    decreases j + k
  {
    if j < k {
      LoadMonotone(w, g, j, k - 1, b);
    } else if 0 < j {
      LoadMonotone(w, g, j - 1, k - 1, b);
    }
  }

  lemma {:induction false} OneJob(w: seq<real>, g: seq<nat>, k: nat, i: nat)
    requires NonNegative(w) && i < k <= |w| == |g|
    ensures Count(g, k, g[i]) >= 1
    ensures Load(w, g, k, g[i]) >= w[i]
    ensures Count(g, k, g[i]) == 1 ==> Load(w, g, k, g[i]) == w[i]
  {
    if i == k - 1 {
      LoadMonotone(w, g, k - 1, k, g[i]);
      if Count(g, k, g[i]) == 1 {
        EmptyLoad(w, g, k - 1, g[i]);
      }
    } else {
      OneJob(w, g, k - 1, i);
    }
  }

  lemma {:induction false} EmptyLoad(w: seq<real>, g: seq<nat>, k: nat, b: nat)
    requires k <= |w| == |g| && Count(g, k, b) == 0
    ensures Load(w, g, k, b) == 0.0
  {
    if k > 0 {
      EmptyLoad(w, g, k - 1, b);
    }
  }

  lemma {:induction false} TwoJobs(w: seq<real>, g: seq<nat>, k: nat, i: nat, j: nat)
    requires NonNegative(w) && i < j < k <= |w| == |g| && g[i] == g[j]
    ensures Load(w, g, k, g[i]) >= w[i] + w[j]
    ensures Count(g, k, g[i]) >= 2
  {
    if j == k - 1 {
      OneJob(w, g, k - 1, i);
    } else {
      TwoJobs(w, g, k - 1, i, j);
    }
  }

  lemma {:induction false} SomeJob(g: seq<nat>, k: nat, b: nat) returns (i: nat)
    requires k <= |g| && Count(g, k, b) >= 1
    ensures i < k && g[i] == b
  {
    if g[k - 1] == b {
      i := k - 1;
    } else {
      i := SomeJob(g, k - 1, b);
    }
  }

  /** `b`'s load was made by its last job on top of what it held before. */
  lemma {:induction false} LastJob(w: seq<real>, g: seq<nat>, k: nat, b: nat) returns (j: nat)
    requires k <= |w| == |g| && Count(g, k, b) >= 1
    ensures j < k && g[j] == b && Load(w, g, k, b) == Load(w, g, j + 1, b)
  {
    if g[k - 1] == b {
      j := k - 1;
    } else {
      j := LastJob(w, g, k - 1, b);
    }
  }

  /** When each of the first `k` jobs weighs more than t/3, so does the average job of a machine. */
  lemma {:induction false} ThirdsAddUp(w: seq<real>, g: seq<nat>, k: nat, b: nat, t: real)
    requires k <= |w| == |g|
    requires forall i | 0 <= i < k :: 3.0 * w[i] > t
    ensures 3.0 * Load(w, g, k, b) >= Times(Count(g, k, b), t)
    ensures Count(g, k, b) >= 1 ==> 3.0 * Load(w, g, k, b) > Times(Count(g, k, b), t)
  {
    if k > 0 {
      ThirdsAddUp(w, g, k - 1, b, t);
    }
  }

  // ---- Sums over the first `m` machines

  ghost function LoadSum(w: seq<real>, g: seq<nat>, k: nat, m: nat): real
    requires k <= |w| == |g|
  {
    if m == 0 then 0.0 else LoadSum(w, g, k, m - 1) + Load(w, g, k, m - 1)
  }

  ghost function CountSum(g: seq<nat>, k: nat, m: nat): nat
    requires k <= |g|
  {
    if m == 0 then 0 else CountSum(g, k, m - 1) + Count(g, k, m - 1)
  }

  lemma {:induction false} LoadSumStep(w: seq<real>, g: seq<nat>, k: nat, m: nat)
    requires 0 < k <= |w| == |g|
    ensures LoadSum(w, g, k, m) == LoadSum(w, g, k - 1, m) + if g[k - 1] < m then w[k - 1] else 0.0
    ensures CountSum(g, k, m) == CountSum(g, k - 1, m) + if g[k - 1] < m then 1 else 0
  {
    if m > 0 {
      LoadSumStep(w, g, k, m - 1);
    }
  }

  lemma {:induction false} SumsAreTotals(w: seq<real>, g: seq<nat>, k: nat, m: nat)
    requires k <= |w| && Assigns(g, |w|, m)
    ensures LoadSum(w, g, k, m) == Total(w, k)
    ensures CountSum(g, k, m) == k
  {
    if k > 0 {
      SumsAreTotals(w, g, k - 1, m);
      LoadSumStep(w, g, k, m);
    } else {
      EmptySums(w, g, m);
    }
  }

  lemma {:induction false} EmptySums(w: seq<real>, g: seq<nat>, m: nat)
    requires |w| == |g|
    ensures LoadSum(w, g, 0, m) == 0.0 && CountSum(g, 0, m) == 0
  {
    if m > 0 {
      EmptySums(w, g, m - 1);
    }
  }

  lemma {:induction false} AtLeastEach(w: seq<real>, g: seq<nat>, k: nat, m: nat, x: real)
    requires k <= |w| == |g|
    requires forall b | 0 <= b < m :: x <= Load(w, g, k, b)
    ensures Times(m, x) <= LoadSum(w, g, k, m)
  {
    if m > 0 {
      AtLeastEach(w, g, k, m - 1, x);
    }
  }

  lemma {:induction false} AtMostEach(w: seq<real>, g: seq<nat>, k: nat, m: nat, t: real)
    requires k <= |w| == |g|
    requires forall b | 0 <= b < m :: Load(w, g, k, b) <= t
    ensures LoadSum(w, g, k, m) <= Times(m, t)
  {
    if m > 0 {
      AtMostEach(w, g, k, m - 1, t);
    }
  }

  // ---- Machines holding exactly one job

  ghost function Singles(g: seq<nat>, k: nat, m: nat): (s: set<nat>)
    requires k <= |g|
    ensures forall b: nat :: b in s <==> b < m && Count(g, k, b) == 1
  {
    if m == 0 then {} else Singles(g, k, m - 1) + if Count(g, k, m - 1) == 1 then {m - 1} else {}
  }

  /** With at most two jobs a machine, the machines with one job fill up what 2m leaves over. */
  lemma {:induction false} SinglesFillTheGap(g: seq<nat>, k: nat, m: nat)
    requires k <= |g|
    requires forall b | 0 <= b < m :: Count(g, k, b) <= 2
    ensures |Singles(g, k, m)| <= 2 * m - CountSum(g, k, m)
    ensures (forall b | 0 <= b < m :: Count(g, k, b) >= 1) ==> |Singles(g, k, m)| == 2 * m - CountSum(g, k, m)
  {
    if m > 0 {
      SinglesFillTheGap(g, k, m - 1);
      assert m - 1 !in Singles(g, k, m - 1);
    }
  }

  lemma {:induction false} InjectionGrows(s: set<nat>, f: map<nat, nat>, t: set<nat>)
    requires s <= f.Keys && forall x | x in s :: f[x] in t
    requires forall x, y | x in s && y in s && x != y :: f[x] != f[y]
    ensures |s| <= |t|
  {
    if s != {} {
      var x :| x in s;
      InjectionGrows(s - {x}, f, t - {f[x]});
    }
  }

  /** The pigeonhole at the heart of the bound. Jobs 0..k all weigh over t/3 and some assignment
      `a` finishes them within `t`; if greedy so far leaves no machine empty and none with three,
      then one of its machines holds a single job that job `k` fits beside. */
  lemma SomeSingleHasRoom(w: seq<real>, g: seq<nat>, a: seq<nat>, k: nat, m: nat, t: real) returns (s: nat)
    requires NonNegative(w) && HeaviestFirst(w) && k < |w|
    requires Assigns(g, |w|, m) && Assigns(a, |w|, m) && Within(w, a, m, t)
    requires forall i | 0 <= i <= k :: 3.0 * w[i] > t
    requires forall b | 0 <= b < m :: 1 <= Count(g, k, b) <= 2
    ensures s < m && Count(g, k, s) == 1 && Load(w, g, k, s) + w[k] <= t
  {
    if exists s: nat :: s < m && Count(g, k, s) == 1 && Load(w, g, k, s) + w[k] <= t {
      s :| s < m && Count(g, k, s) == 1 && Load(w, g, k, s) + w[k] <= t;
    } else {
      s := 0;
      var next := k + 1;
      forall b: nat | b < m ensures Count(a, next, b) <= 2 {
        PairsAtMost(w, a, k, m, b, t);
      }
      var singles := Singles(g, k, m);
      var f := map b | b in singles :: a[JobOf(g, k, b)];
      forall b | b in singles ensures f[b] in Singles(a, k + 1, m) {
        AloneElsewhere(w, g, a, k, m, t, JobOf(g, k, b));
      }
      forall x, y | x in singles && y in singles && x != y ensures f[x] != f[y] {
        var i, j := JobOf(g, k, x), JobOf(g, k, y);
        if f[x] == f[y] {
          AloneElsewhere(w, g, a, k, m, t, i);
          TwoJobs(w, a, k + 1, if i < j then i else j, if i < j then j else i);
        }
      }
      InjectionGrows(singles, f, Singles(a, k + 1, m));
      SinglesFillTheGap(g, k, m);
      SinglesFillTheGap(a, k + 1, m);
      SumsAreTotals(w, g, k, m);
      SumsAreTotals(w, a, k + 1, m);
      assert false;
    }
  }

  ghost function JobOf(g: seq<nat>, k: nat, b: nat): (i: nat)
    requires k <= |g| && Count(g, k, b) >= 1
    ensures i < k && g[i] == b
  {
    if g[k - 1] == b then k - 1 else JobOf(g, k - 1, b)
  }

  lemma PairsAtMost(w: seq<real>, a: seq<nat>, k: nat, m: nat, b: nat, t: real)
    requires NonNegative(w) && k < |w| && Assigns(a, |w|, m) && Within(w, a, m, t) && b < m
    requires forall i | 0 <= i <= k :: 3.0 * w[i] > t
    ensures Count(a, k + 1, b) <= 2
  {
    ThirdsAddUp(w, a, k + 1, b, t);
    LoadMonotone(w, a, k + 1, |w|, b);
    LoadMonotone(w, a, 0, |w|, b);
    var c := Count(a, k + 1, b);
    if c >= 3 {
      TimesGrows(c - 3, 3, t);
      SmallTimes(t);
    }
  }

  /** A job that greedy left alone, and that job `k` does not fit beside, is alone in `a` too. */
  lemma AloneElsewhere(w: seq<real>, g: seq<nat>, a: seq<nat>, k: nat, m: nat, t: real, i: nat)
    requires NonNegative(w) && HeaviestFirst(w) && i < k < |w|
    requires Assigns(g, |w|, m) && Assigns(a, |w|, m) && Within(w, a, m, t)
    requires Count(g, k, g[i]) == 1 && Load(w, g, k, g[i]) + w[k] > t
    ensures Count(a, k + 1, a[i]) == 1
  {
    OneJob(w, g, k, i);
    OneJob(w, a, k + 1, i);
    LoadMonotone(w, a, k + 1, |w|, a[i]);
    if Count(a, k + 1, a[i]) >= 2 {
      var j := OtherJob(a, k + 1, i);
      assert w[j] >= w[k];
      TwoJobs(w, a, k + 1, if i < j then i else j, if i < j then j else i);
    }
  }

  lemma {:induction false} OtherJob(g: seq<nat>, k: nat, i: nat) returns (j: nat)
    requires i < k <= |g| && Count(g, k, g[i]) >= 2
    ensures j < k && j != i && g[j] == g[i]
  {
    if i == k - 1 {
      j := SomeJob(g, k - 1, g[i]);
    } else if g[k - 1] == g[i] {
      j := k - 1;
    } else {
      j := OtherJob(g, k - 1, i);
    }
  }

  /** While every job is over t/3 and the jobs can be done within `t`, greedy stays within `t`. */
  lemma {:induction false} BigJobsFit(w: seq<real>, g: seq<nat>, a: seq<nat>, k: nat, m: nat, t: real)
    requires NonNegative(w) && HeaviestFirst(w) && k <= |w| && Greedy(w, g, m)
    requires Assigns(a, |w|, m) && Within(w, a, m, t)
    requires forall i | 0 <= i < k :: 3.0 * w[i] > t
    ensures forall b | 0 <= b < m :: Count(g, k, b) <= 2 && (k > 0 ==> Load(w, g, k, b) <= t)
  {
    if k > 0 {
      var n := k - 1;
      BigJobsFit(w, g, a, n, m, t);
      OneJob(w, a, |w|, n);
      LoadMonotone(w, a, 0, |w|, a[n]);
      forall b | 0 <= b < m ensures Count(g, k, b) <= 2 && Load(w, g, k, b) <= t {
        ThirdsAddUp(w, g, n, b, t);
        SmallTimes(t);
        if n == 0 {
        } else if b == g[n] {
          if e: nat :| e < m && Count(g, n, e) == 0 {
            EmptyLoad(w, g, n, e);
            assert LeastLoaded(w, g, n, e);
            EmptyWhenUnloaded(w, g, n, b, t);
          } else {
            var s := SomeSingleHasRoom(w, g, a, n, m, t);
            assert LeastLoaded(w, g, n, s);
          }
        }
      }
    }
  }

  lemma EmptyWhenUnloaded(w: seq<real>, g: seq<nat>, k: nat, b: nat, t: real)
    requires k <= |w| == |g| && t >= 0.0 && Load(w, g, k, b) <= 0.0
    requires forall i | 0 <= i < k :: 3.0 * w[i] > t
    ensures Count(g, k, b) == 0 && Load(w, g, k, b) == 0.0
  {
    ThirdsAddUp(w, g, k, b, t);
    TimesGrows(Count(g, k, b), 0, t);
    TimesGrows(0, Count(g, k, b), t);
    if Count(g, k, b) == 0 {
      EmptyLoad(w, g, k, b);
    }
  }

  /** Before its last job, a greedy machine was no fuller than the average machine. */
  lemma AverageBound(w: seq<real>, g: seq<nat>, a: seq<nat>, m: nat, t: real, j: nat)
    requires NonNegative(w) && j < |w| && Greedy(w, g, m)
    requires Assigns(a, |w|, m) && Within(w, a, m, t)
    ensures Times(m, Load(w, g, j, g[j])) + w[j] <= Times(m, t)
  {
    LeastTimesMachines(w, g, m, j);
    LoadMonotone(w, g, j + 1, |w|, 0);
    SumsAreTotals(w, a, |w|, m);
    AtMostEach(w, a, |w|, m, t);
  }

  lemma LeastTimesMachines(w: seq<real>, g: seq<nat>, m: nat, j: nat)
    requires j < |w| && Greedy(w, g, m)
    ensures Times(m, Load(w, g, j, g[j])) <= Total(w, j)
  {
    forall b: nat | b < m ensures Load(w, g, j, g[j]) <= Load(w, g, j, b) {
      assert LeastLoaded(w, g, j, b);
    }
    AtLeastEach(w, g, j, m, Load(w, g, j, g[j]));
    SumsAreTotals(w, g, j, m);
  }

  lemma TimesAreNonNegative(w: seq<real>, a: seq<nat>, m: nat, t: real)
    requires NonNegative(w) && m > 0 && |w| == |a| && Within(w, a, m, t)
    ensures t >= 0.0
  {
    LoadMonotone(w, a, 0, |w|, 0);
  }

  lemma JobWithin(w: seq<real>, a: seq<nat>, m: nat, t: real, j: nat)
    requires NonNegative(w) && j < |w| && Assigns(a, |w|, m) && Within(w, a, m, t)
    ensures w[j] <= t
  {
    OneJob(w, a, |w|, j);
  }

  lemma ListArithmetic(m: real, t: real, before: real, last: real)
    requires m >= 1.0 && m * before + last <= m * t && last <= t
    ensures m * (before + last) <= (2.0 * m - 1.0) * t
  {
    Scale(t, last, m - 1.0);
    assert t * (m - 1.0) == m * t - t && last * (m - 1.0) == m * last - last;
    assert m * (before + last) == m * before + m * last;
    assert (2.0 * m - 1.0) * t == 2.0 * (m * t) - t;
  }

  lemma LptArithmetic(m: real, t: real, before: real, last: real)
    requires m >= 1.0 && m * before + last <= m * t && 3.0 * last <= t
    ensures 3.0 * m * (before + last) <= (4.0 * m - 1.0) * t
  {
    Scale(t, 3.0 * last, m - 1.0);
    assert t * (m - 1.0) == m * t - t && last * (m - 1.0) == m * last - last;
    assert 3.0 * last * (m - 1.0) == 3.0 * (last * (m - 1.0));
    assert 3.0 * m * (before + last) == 3.0 * (m * before) + 3.0 * (m * last);
    assert (4.0 * m - 1.0) * t == 4.0 * (m * t) - t;
  }

  lemma TimesBelow(n: nat, t: real, before: real, last: real)
    requires Times(n, before) + last <= Times(n, t)
    ensures n as real * before + last <= n as real * t
  {
    TimesIsProduct(n, before);
    TimesIsProduct(n, t);
  }

  lemma WithinIsFourThirds(m: real, t: real, load: real)
    requires m >= 1.0 && 0.0 <= t && load <= t
    ensures m * load <= (2.0 * m - 1.0) * t
    ensures 3.0 * m * load <= (4.0 * m - 1.0) * t
  {
    Scale(t, load, m);
    Scale(m, 1.0, t);
    assert 3.0 * m * load == 3.0 * (m * load);
    assert 3.0 * (m * t) + (m * t - t) == (4.0 * m - 1.0) * t;
  }

  /** Graham's first bound, for jobs in any order: within 2 - 1/m of any other assignment. */
  lemma ListSchedulingBound(w: seq<real>, g: seq<nat>, a: seq<nat>, m: nat, t: real, b: nat)
    requires NonNegative(w) && Greedy(w, g, m) && b < m
    requires Assigns(a, |w|, m) && Within(w, a, m, t)
    ensures m as real * Load(w, g, |w|, b) <= (2.0 * m as real - 1.0) * t
  {
    TimesAreNonNegative(w, a, m, t);
    if Count(g, |w|, b) == 0 {
      EmptyLoad(w, g, |w|, b);
      WithinIsFourThirds(m as real, t, 0.0);
    } else {
      var j := LastJob(w, g, |w|, b);
      AverageBound(w, g, a, m, t, j);
      JobWithin(w, a, m, t, j);
      TimesBelow(m, t, Load(w, g, j, b), w[j]);
      ListArithmetic(m as real, t, Load(w, g, j, b), w[j]);
    }
  }

  lemma HeavyLastJob(w: seq<real>, g: seq<nat>, a: seq<nat>, m: nat, t: real, b: nat, j: nat)
    requires NonNegative(w) && HeaviestFirst(w) && Greedy(w, g, m) && b < m && j < |w|
    requires Assigns(a, |w|, m) && Within(w, a, m, t)
    requires 3.0 * w[j] > t
    ensures Load(w, g, j + 1, b) <= t
  {
    forall i | 0 <= i < j + 1 ensures 3.0 * w[i] > t {
      assert i < j ==> w[i] >= w[j];
    }
    BigJobsFit(w, g, a, j + 1, m, t);
  }

  ghost predicate FourThirds(m: nat, load: real, t: real) {
    3.0 * m as real * load <= (4.0 * m as real - 1.0) * t
  }

  lemma AtMostTime(m: nat, load: real, t: real)
    requires m >= 1 && 0.0 <= t && load <= t
    ensures FourThirds(m, load, t)
  {
    WithinIsFourThirds(m as real, t, load);
  }

  lemma LightLastJob(w: seq<real>, g: seq<nat>, a: seq<nat>, m: nat, t: real, j: nat)
    requires NonNegative(w) && Greedy(w, g, m) && j < |w|
    requires Assigns(a, |w|, m) && Within(w, a, m, t)
    requires 3.0 * w[j] <= t
    ensures FourThirds(m, Load(w, g, j + 1, g[j]), t)
  {
    AverageBound(w, g, a, m, t, j);
    LightFinish(m, t, Load(w, g, j, g[j]), w[j]);
  }

  lemma LightFinish(m: nat, t: real, before: real, last: real)
    requires m >= 1 && Times(m, before) + last <= Times(m, t) && 3.0 * last <= t
    ensures FourThirds(m, before + last, t)
  {
    TimesBelow(m, t, before, last);
    LptArithmetic(m as real, t, before, last);
  }

  /** Graham's second bound, heaviest job first: within 4/3 - 1/(3m) of any other assignment. */
  lemma LptIsFourThirds(w: seq<real>, g: seq<nat>, a: seq<nat>, m: nat, t: real, b: nat)
    requires NonNegative(w) && HeaviestFirst(w) && Greedy(w, g, m) && b < m
    requires Assigns(a, |w|, m) && Within(w, a, m, t)
    ensures FourThirds(m, Load(w, g, |w|, b), t)
  {
    TimesAreNonNegative(w, a, m, t);
    if Count(g, |w|, b) == 0 {
      EmptyLoad(w, g, |w|, b);
      AtMostTime(m, 0.0, t);
    } else {
      var j := LastJob(w, g, |w|, b);
      if 3.0 * w[j] <= t {
        LightLastJob(w, g, a, m, t, j);
      } else {
        HeavyLastJob(w, g, a, m, t, b, j);
        AtMostTime(m, Load(w, g, |w|, b), t);
      }
    }
  }
}
