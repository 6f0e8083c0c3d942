/** The order of nightly versions. */
module NightlyVersions {
  import opened Options
  import opened Numbers
  import opened Text
  import Sorting

  /** The tuple Python compares; a version without an attempt has attempt 0. */
  datatype Order = Order(major: nat, minor: nat, patch: nat, run: nat, attempt: nat)

  /** Python's `a < b` on the tuples. */
  predicate Less(a: Order, b: Order) {
    || a.major < b.major
    || (a.major == b.major && (
          || a.minor < b.minor
          || (a.minor == b.minor && (
                || a.patch < b.patch
                || (a.patch == b.patch && (a.run < b.run || (a.run == b.run && a.attempt < b.attempt)))))))
  }

  const NIGHTLY := "-nightly."

  // ---- Reading a version

  /** A numeral without leading zeros, and what follows it. */
  function TakeNumeral(s: string): (r: Option<(nat, string)>)
    ensures r.Some? ==> |r.value.1| < |s|
  {
    match TakeRun(s, IsDigit)
    case None => None
    case Some((digits, rest)) => if Canonical(digits) then Some((Value(digits), rest)) else None
  }

  /** A numeral and the `separator` after it. */
  function TakeField(s: string, separator: string): Option<(nat, string)> {
    match TakeNumeral(s)
    case None => None
    case Some((n, rest)) =>
      match StripPrefix(rest, separator)
      case None => None
      case Some(after) => Some((n, after))
  }

  /** The run and the attempt, which may be left out. */
  function ParseBuild(s: string): Option<(nat, nat)> {
    match TakeNumeral(s)
    case None => None
    case Some((run, rest)) =>
      if run == 0 then None
      else if rest == [] then Some((run, 0))
      else
        match StripPrefix(rest, ".")
        case None => None
        case Some(digits) =>
          match TakeNumeral(digits)
          case None => None
          case Some((attempt, end)) => if attempt > 0 && end == [] then Some((run, attempt)) else None
  }

  /** `version_order`, where no answer is its error. */
  function VersionOrder(version: string): Option<Order> {
    match TakeField(version, ".")
    case None => None
    case Some((major, a)) =>
      match TakeField(a, ".")
      case None => None
      case Some((minor, b)) =>
        match TakeField(b, NIGHTLY)
        case None => None
        case Some((patch, c)) =>
          match ParseBuild(c)
          case None => None
          case Some((run, attempt)) => Some(Order(major, minor, patch, run, attempt))
  }

  /** `str` of an integer. */
  function Printed(n: int): string {
    if n < 0 then "-" + Decimal(-n) else Decimal(n)
  }

  /** `nightly_version`, where no answer is its error. */
  function NightlyVersion(base: string, run: int, attempt: int): Option<string> {
    var version := base + NIGHTLY + Printed(run) + "." + Printed(attempt);
    if VersionOrder(version).None? || attempt < 1 then None else Some(version)
  }

  // ---- A version is the text of its order, and of no other

  function ShowCore(major: nat, minor: nat, patch: nat): string {
    Decimal(major) + "." + Decimal(minor) + "." + Decimal(patch)
  }

  function ShowBuild(run: nat, attempt: nat): string {
    Decimal(run) + if attempt == 0 then "" else "." + Decimal(attempt)
  }

  function Show(o: Order): string {
    Decimal(o.major) + ("." + (Decimal(o.minor) + ("." + (Decimal(o.patch) + (NIGHTLY + ShowBuild(o.run, o.attempt))))))
  }

  lemma NumeralTaken(n: nat, rest: string)
    requires rest != [] ==> !IsDigit(rest[0])
    ensures TakeNumeral(Decimal(n) + rest) == Some((n, rest))
  {
    ValueOfDecimal(n);
    TakesRun(Decimal(n), rest, IsDigit);
  }

  lemma NumeralWas(s: string)
    requires TakeNumeral(s).Some?
    ensures s == Decimal(TakeNumeral(s).value.0) + TakeNumeral(s).value.1
  {
    var digits := TakeRun(s, IsDigit).value.0;
    DecimalOfValue(digits);
  }

  lemma {:induction false} PrefixWas(s: string, prefix: string)
    requires StripPrefix(s, prefix).Some?
    ensures s == prefix + StripPrefix(s, prefix).value
  {
    if prefix != [] {
      PrefixWas(s[1..], prefix[1..]);
    }
  }

  lemma FieldTaken(n: nat, separator: string, rest: string)
    requires separator != [] && !IsDigit(separator[0])
    ensures TakeField(Decimal(n) + (separator + rest), separator) == Some((n, rest))
  {
    NumeralTaken(n, separator + rest);
    StripsPrefix(separator, rest);
  }

  lemma FieldWas(s: string, separator: string)
    requires TakeField(s, separator).Some?
    ensures s == Decimal(TakeField(s, separator).value.0) + (separator + TakeField(s, separator).value.1)
  {
    NumeralWas(s);
    PrefixWas(TakeNumeral(s).value.1, separator);
  }

  lemma BuildTaken(run: nat, attempt: nat)
    requires run > 0
    ensures ParseBuild(ShowBuild(run, attempt)) == Some((run, attempt))
  {
    var rest := if attempt == 0 then "" else "." + Decimal(attempt);
    NumeralTaken(run, rest);
    if attempt > 0 {
      StripsPrefix(".", Decimal(attempt));
      NumeralTaken(attempt, "");
      assert Decimal(attempt) + "" == Decimal(attempt);
    }
  }

  lemma BuildWas(s: string)
    requires ParseBuild(s).Some?
    ensures ParseBuild(s).value.0 > 0 && s == ShowBuild(ParseBuild(s).value.0, ParseBuild(s).value.1)
  {
    NumeralWas(s);
    var rest := TakeNumeral(s).value.1;
    if rest != [] {
      PrefixWas(rest, ".");
      NumeralWas(StripPrefix(rest, ".").value);
    }
  }

  lemma ShownIsRead(o: Order)
    requires o.run > 0
    ensures VersionOrder(Show(o)) == Some(o)
  {
    var build := ShowBuild(o.run, o.attempt);
    var c := Decimal(o.patch) + (NIGHTLY + build);
    var b := Decimal(o.minor) + ("." + c);
    FieldTaken(o.major, ".", b);
    FieldTaken(o.minor, ".", c);
    assert NIGHTLY[0] == '-';
    FieldTaken(o.patch, NIGHTLY, build);
    BuildTaken(o.run, o.attempt);
  }

  lemma ReadIsShown(version: string)
    requires VersionOrder(version).Some?
    ensures VersionOrder(version).value.run > 0 && version == Show(VersionOrder(version).value)
  {
    FieldWas(version, ".");
    var a := TakeField(version, ".").value.1;
    FieldWas(a, ".");
    var b := TakeField(a, ".").value.1;
    FieldWas(b, NIGHTLY);
    BuildWas(TakeField(b, NIGHTLY).value.1);
  }

  /** A version is accepted with an order if and only if it is that order's one text. */
  lemma AcceptedIffShown(version: string, o: Order)
    ensures VersionOrder(version) == Some(o) <==> o.run > 0 && version == Show(o)
  {
    if VersionOrder(version) == Some(o) {
      ReadIsShown(version);
    }
    if o.run > 0 {
      ShownIsRead(o);
    }
  }

  /** Versions with one order are one version. */
  lemma OrderInjective(s: string, t: string)
    requires VersionOrder(s).Some? && VersionOrder(s) == VersionOrder(t)
    ensures s == t
  {
    AcceptedIffShown(s, VersionOrder(s).value);
    AcceptedIffShown(t, VersionOrder(t).value);
  }

  lemma LessIsTotalOrder(a: Order, b: Order, c: Order)
    ensures !Less(a, a) && (Less(a, b) && Less(b, c) ==> Less(a, c)) && (Less(a, b) || a == b || Less(b, a))
  {
  }

  // ---- Semantic Versioning 2.0.0, item 11, for versions without build metadata

  datatype SemVer = SemVer(core: seq<string>, pre: seq<string>)

  function SplitVersion(s: string): SemVer {
    var i := IndexOf(s, '-');
    SemVer(SplitOn(s[..i], '.'), if i == |s| then [] else SplitOn(s[i + 1..], '.'))
  }

  function NumberOf(s: string): nat {
    if AllDigits(s) then Value(s) else 0
  }

  predicate CoreLess(a: seq<string>, b: seq<string>) {
    && a != [] && b != []
    && (NumberOf(a[0]) < NumberOf(b[0]) || (NumberOf(a[0]) == NumberOf(b[0]) && CoreLess(a[1..], b[1..])))
  }

  predicate IdentifierLess(a: string, b: string) {
    if AllDigits(a) then !AllDigits(b) || Value(a) < Value(b)
    else !AllDigits(b) && a != b && Sorting.StringLe(a, b)
  }

  predicate PreLess(a: seq<string>, b: seq<string>) {
    && b != []
    && (a == [] || IdentifierLess(a[0], b[0]) || (a[0] == b[0] && PreLess(a[1..], b[1..])))
  }

  predicate Precedes(s: string, t: string) {
    var a, b := SplitVersion(s), SplitVersion(t);
    || CoreLess(a.core, b.core)
    || (!CoreLess(b.core, a.core) && a.pre != [] && (b.pre == [] || PreLess(a.pre, b.pre)))
  }

  function Identifiers(run: nat, attempt: nat): seq<string> {
    ["nightly", Decimal(run)] + if attempt == 0 then [] else [Decimal(attempt)]
  }

  lemma NumeralPlain(n: nat)
    ensures var d := Decimal(n); AllDigits(d) && NumberOf(d) == n && '.' !in d && '-' !in d
  {
    ValueOfDecimal(n);
  }

  lemma SplitNumerals(a: nat, rest: string)
    ensures SplitOn(Decimal(a) + "." + rest, '.') == [Decimal(a)] + SplitOn(rest, '.')
    ensures SplitOn(Decimal(a), '.') == [Decimal(a)]
  {
    NumeralPlain(a);
    SplitOnStep(Decimal(a), rest, '.');
    SplitOnLast(Decimal(a), '.');
  }

  lemma CoreSplits(a: nat, b: nat, c: nat)
    ensures SplitOn(ShowCore(a, b, c), '.') == [Decimal(a), Decimal(b), Decimal(c)]
    ensures '-' !in ShowCore(a, b, c)
  {
    NumeralPlain(a);
    NumeralPlain(b);
    NumeralPlain(c);
    SplitNumerals(a, Decimal(b) + "." + Decimal(c));
    SplitNumerals(b, Decimal(c));
    SplitNumerals(c, "");
    Dotted(Decimal(a), Decimal(b), Decimal(c));
  }

  lemma Dotted(a: string, b: string, c: string)
    ensures a + "." + b + "." + c == a + "." + (b + "." + c)
  {
  }

  lemma BuildSplits(run: nat, attempt: nat)
    ensures SplitOn(ShowBuild(run, attempt), '.') == [Decimal(run)] + if attempt == 0 then [] else [Decimal(attempt)]
  {
    SplitNumerals(run, Decimal(attempt));
    SplitNumerals(attempt, "");
    if attempt == 0 {
      assert ShowBuild(run, attempt) == Decimal(run);
    } else {
      assert ShowBuild(run, attempt) == Decimal(run) + "." + Decimal(attempt);
    }
  }

  lemma PreSplits(run: nat, attempt: nat)
    ensures SplitOn("nightly" + ['.'] + ShowBuild(run, attempt), '.') == Identifiers(run, attempt)
  {
    BuildSplits(run, attempt);
    SplitOnStep("nightly", ShowBuild(run, attempt), '.');
  }

  lemma FirstDash(head: string, rest: string)
    requires '-' !in head
    ensures IndexOf(head + "-" + rest, '-') == |head|
  {
    var s := head + "-" + rest;
    assert s[|head|] == '-';
    assert forall i | 0 <= i < |head| :: s[i] == head[i] && head[i] in head;
  }

  lemma SplitsAtDash(core: string, pre: string)
    requires '-' !in core
    ensures SplitVersion(core + "-" + pre) == SemVer(SplitOn(core, '.'), SplitOn(pre, '.'))
  {
    FirstDash(core, pre);
    var s := core + "-" + pre;
    assert s[..|core|] == core && s[|core| + 1..] == pre;
  }

  lemma Regroup(a: string, b: string, c: string, d: string)
    ensures a + ("." + (b + ("." + (c + (NIGHTLY + d))))) == (a + "." + b + "." + c) + "-" + ("nightly" + ['.'] + d)
  {
    assert NIGHTLY == "-" + ("nightly" + ['.']);
  }

  lemma ShownInTwo(o: Order)
    ensures Show(o) == ShowCore(o.major, o.minor, o.patch) + "-" + ("nightly" + ['.'] + ShowBuild(o.run, o.attempt))
  {
    Regroup(Decimal(o.major), Decimal(o.minor), Decimal(o.patch), ShowBuild(o.run, o.attempt));
  }

  function CoreOf(o: Order): seq<string> {
    [Decimal(o.major), Decimal(o.minor), Decimal(o.patch)]
  }

  lemma ShownSplits(o: Order)
    ensures SplitVersion(Show(o)) == SemVer(CoreOf(o), Identifiers(o.run, o.attempt))
  {
    var core, pre := ShowCore(o.major, o.minor, o.patch), "nightly" + ['.'] + ShowBuild(o.run, o.attempt);
    ShownInTwo(o);
    CoreSplits(o.major, o.minor, o.patch);
    PreSplits(o.run, o.attempt);
    SplitsAtDash(core, pre);
  }

  lemma CoreStep(m: nat, n: nat, a: seq<string>, b: seq<string>)
    ensures CoreLess([Decimal(m)] + a, [Decimal(n)] + b) <==> m < n || (m == n && CoreLess(a, b))
  {
    NumeralPlain(m);
    NumeralPlain(n);
    assert ([Decimal(m)] + a)[1..] == a && ([Decimal(n)] + b)[1..] == b;
  }

  lemma CoreCompares(a: Order, b: Order)
    ensures CoreLess(CoreOf(a), CoreOf(b)) <==>
            a.major < b.major || (a.major == b.major && (a.minor < b.minor ||
            (a.minor == b.minor && a.patch < b.patch)))
  {
    CoreStep(a.patch, b.patch, [], []);
    CoreStep(a.minor, b.minor, [Decimal(a.patch)] + [], [Decimal(b.patch)] + []);
    CoreStep(a.major, b.major, [Decimal(a.minor)] + ([Decimal(a.patch)] + []), [Decimal(b.minor)] + ([Decimal(b.patch)] + []));
    CoreInSteps(a);
    CoreInSteps(b);
  }

  lemma CoreInSteps(a: Order)
    ensures CoreOf(a) == [Decimal(a.major)] + ([Decimal(a.minor)] + ([Decimal(a.patch)] + []))
  {
  }

  lemma NumeralsCompare(a: nat, b: nat)
    ensures IdentifierLess(Decimal(a), Decimal(b)) <==> a < b
    ensures Decimal(a) == Decimal(b) <==> a == b
  {
    NumeralPlain(a);
    NumeralPlain(b);
  }

  lemma AttemptsCompare(m: nat, n: nat)
    ensures PreLess(if m == 0 then [] else [Decimal(m)], if n == 0 then [] else [Decimal(n)]) <==> m < n
  {
    NumeralsCompare(m, n);
    assert [Decimal(m)][1..] == [] && [Decimal(n)][1..] == [];
  }

  lemma BuildsCompare(r: nat, m: nat, s: nat, n: nat)
    ensures PreLess(Identifiers(r, m), Identifiers(s, n)) <==> r < s || (r == s && m < n)
  {
    var a, b := Identifiers(r, m), Identifiers(s, n);
    assert a[1..] == [Decimal(r)] + if m == 0 then [] else [Decimal(m)];
    assert b[1..] == [Decimal(s)] + if n == 0 then [] else [Decimal(n)];
    assert a[1..][1..] == if m == 0 then [] else [Decimal(m)];
    assert b[1..][1..] == if n == 0 then [] else [Decimal(n)];
    NumeralsCompare(r, s);
    AttemptsCompare(m, n);
    assert !IdentifierLess("nightly", "nightly");
  }

  /** On accepted versions the tuples compare exactly as Semantic Versioning says the versions do. */
  lemma OrderIsPrecedence(s: string, t: string)
    requires VersionOrder(s).Some? && VersionOrder(t).Some?
    ensures Less(VersionOrder(s).value, VersionOrder(t).value) <==> Precedes(s, t)
  {
    var a, b := VersionOrder(s).value, VersionOrder(t).value;
    AcceptedIffShown(s, a);
    AcceptedIffShown(t, b);
    ShownSplits(a);
    ShownSplits(b);
    CoreCompares(a, b);
    CoreCompares(b, a);
    BuildsCompare(a.run, a.attempt, b.run, b.attempt);
  }

  // ---- What a nightly version is made of

  /** A version is made of a base, run and attempt if and only if the base is three numerals and the
      others are positive, and it gives all three back. */
  lemma NightlyVersionIs(base: string, run: int, attempt: int, o: Order)
    ensures NightlyVersion(base, run, attempt).Some? && VersionOrder(NightlyVersion(base, run, attempt).value) == Some(o)
            <==> base == ShowCore(o.major, o.minor, o.patch) && run == o.run > 0 && attempt == o.attempt > 0
  {
    var version := base + NIGHTLY + Printed(run) + "." + Printed(attempt);
    AcceptedIffShown(version, o);
    if base == ShowCore(o.major, o.minor, o.patch) && run == o.run > 0 && attempt == o.attempt > 0 {
      VersionRegroup(base, Printed(run), Printed(attempt));
      ShownInTwo(o);
    } else if VersionOrder(version) == Some(o) && attempt >= 1 {
      PartsAreThose(base, run, attempt, o);
    }
  }

  lemma VersionRegroup(base: string, run: string, attempt: string)
    ensures base + NIGHTLY + run + "." + attempt == base + "-" + ("nightly" + ['.'] + (run + "." + attempt))
  {
    assert NIGHTLY == "-" + ("nightly" + ['.']);
  }

  lemma PartsAreThose(base: string, run: int, attempt: int, o: Order)
    requires base + NIGHTLY + Printed(run) + "." + Printed(attempt) == Show(o) && o.run > 0 && attempt >= 1
    ensures base == ShowCore(o.major, o.minor, o.patch) && run == o.run && attempt == o.attempt
  {
    var core, build := ShowCore(o.major, o.minor, o.patch), ShowBuild(o.run, o.attempt);
    var own := Printed(run) + "." + Printed(attempt);
    CoreSplits(o.major, o.minor, o.patch);
    BuildPlain(o.run, o.attempt);
    ShownInTwo(o);
    VersionRegroup(base, Printed(run), Printed(attempt));
    OneDash(base, "nightly" + ['.'] + own, core, "nightly" + ['.'] + build);
    Cancels("nightly" + ['.'], own, build);
    RunTaken(run, attempt, o);
  }

  lemma RunTaken(run: int, attempt: int, o: Order)
    requires attempt > 0 && o.run > 0 && Printed(run) + "." + Printed(attempt) == ShowBuild(o.run, o.attempt)
    ensures run == o.run && attempt == o.attempt
  {
    BuildPlain(o.run, o.attempt);
    NoMinus(run, "." + Printed(attempt), ShowBuild(o.run, o.attempt));
    BuildTaken(o.run, o.attempt);
    BuildReads(run, attempt);
  }

  lemma NoMinus(run: int, rest: string, s: string)
    requires Printed(run) + rest == s && '-' !in s
    ensures run >= 0
  {
    assert run < 0 ==> '-' in Printed(run) + rest;
  }

  lemma BuildReads(run: nat, attempt: nat)
    requires attempt > 0 && ParseBuild(Decimal(run) + "." + Decimal(attempt)).Some?
    ensures ParseBuild(Decimal(run) + "." + Decimal(attempt)) == Some((run, attempt))
  {
    assert Decimal(run) + ("." + Decimal(attempt)) == Decimal(run) + "." + Decimal(attempt);
    NumeralTaken(run, "." + Decimal(attempt));
    StripsPrefix(".", Decimal(attempt));
    NumeralTaken(attempt, "");
    assert Decimal(attempt) + "" == Decimal(attempt);
  }

  lemma BuildPlain(run: nat, attempt: nat)
    ensures '-' !in ShowBuild(run, attempt)
  {
    NumeralPlain(run);
    NumeralPlain(attempt);
  }

  lemma Cancels(prefix: string, a: string, b: string)
    requires prefix + a == prefix + b
    ensures a == b
  {
    assert a == (prefix + a)[|prefix|..] && b == (prefix + b)[|prefix|..];
  }

  /** A text with one dash is cut at it in one way. */
  lemma OneDash(a: string, b: string, c: string, d: string)
    requires a + "-" + b == c + "-" + d && '-' !in c && '-' !in d
    ensures a == c && b == d
  {
    var s := c + "-" + d;
    assert (a + "-" + b)[|a|] == '-';
    assert forall i | 0 <= i < |c| :: s[i] == c[i] && c[i] in c;
    assert forall i | |c| < i < |s| :: s[i] == d[i - |c| - 1] && d[i - |c| - 1] in d;
    assert |a| == |c|;
    assert s[..|c|] == c && s[|c| + 1..] == d && (a + "-" + b)[..|a|] == a && (a + "-" + b)[|a| + 1..] == b;
  }
}
