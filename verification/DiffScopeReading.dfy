/** Which lines are read, and as what. */
module DiffScopeReading {
  // Of a diff and of the ranges' file, whoever wrote them: nothing else is taken for a hunk header or a range.

  import opened Options
  import opened Numbers
  import opened Text
  import opened DiffScope
  import opened DiffScopeTheorems

  // ---- Hunk headers

  predicate IsNumber(s: string, n: nat) {
    s != [] && AllDigits(s) && Value(s) == n
  }

  /** A line that begins as a hunk header: the old side, the new side's start, its length or none for one. */
  ghost predicate Header(line: string, oldSide: string, first: string, more: string, rest: string, start: nat, length: nat) {
    && line == "@@ -" + (oldSide + (" +" + (first + (more + (" @@" + rest)))))
    && oldSide != [] && NoSpace(oldSide) && IsNumber(first, start)
    && if more == "" then length == 1 else more[0] == ',' && IsNumber(more[1..], length)
  }

  lemma LengthIs(s: string) returns (more: string, rest: string)
    requires HunkLength(s).Some?
    ensures s == more + (" @@" + rest)
    ensures var length := HunkLength(s).value;
            if more == "" then length == 1 else more[0] == ',' && IsNumber(more[1..], length)
  {
    if s[0] == ',' {
      TakenIs(s[1..], IsDigit);
      var digits, after := TakeRun(s[1..], IsDigit).value.0, TakeRun(s[1..], IsDigit).value.1;
      StrippedIs(after, " @@");
      more, rest := "," + digits, StripPrefix(after, " @@").value;
      assert more[1..] == digits && s == [s[0]] + s[1..];
    } else {
      StrippedIs(s, " @@");
      more, rest := "", StripPrefix(s, " @@").value;
    }
  }

  lemma LengthRead(more: string, rest: string, length: nat)
    requires if more == "" then length == 1 else more[0] == ',' && IsNumber(more[1..], length)
    ensures HunkLength(more + (" @@" + rest)) == Some(length)
  {
    var s := more + (" @@" + rest);
    StripsPrefix(" @@", rest);
    if more == "" {
      assert s == " @@" + rest;
    } else {
      assert s[1..] == more[1..] + (" @@" + rest);
      TakesRun(more[1..], " @@" + rest, IsDigit);
    }
  }

  lemma HeaderIs(line: string) returns (oldSide: string, first: string, more: string, rest: string)
    requires ParseHunk(line).Some?
    ensures Header(line, oldSide, first, more, rest, ParseHunk(line).value.0, ParseHunk(line).value.1)
  {
    StrippedIs(line, "@@ -");
    var a := StripPrefix(line, "@@ -").value;
    TakenIs(a, NotSpace);
    oldSide := TakeRun(a, NotSpace).value.0;
    var b := TakeRun(a, NotSpace).value.1;
    StrippedIs(b, " +");
    var c := StripPrefix(b, " +").value;
    TakenIs(c, IsDigit);
    first := TakeRun(c, IsDigit).value.0;
    more, rest := LengthIs(TakeRun(c, IsDigit).value.1);
  }

  lemma HeaderRead(line: string, oldSide: string, first: string, more: string, rest: string, start: nat, length: nat)
    requires Header(line, oldSide, first, more, rest, start, length)
    ensures ParseHunk(line) == Some((start, length))
  {
    var d := more + (" @@" + rest);
    LengthRead(more, rest, length);
    assert d != [] && !IsDigit(d[0]) by {
      assert more == "" ==> d[0] == ' ';
    }
    TakesRun(first, d, IsDigit);
    StripsPrefix(" +", first + d);
    TakesRun(oldSide, " +" + (first + d), NotSpace);
    StripsPrefix("@@ -", oldSide + (" +" + (first + d)));
  }

  /** A line is taken for a hunk header if and only if it begins as one, and then with its start and length. */
  lemma HunkIff(line: string, start: nat, length: nat)
    ensures ParseHunk(line) == Some((start, length)) <==>
            exists oldSide, first, more, rest :: Header(line, oldSide, first, more, rest, start, length)
  {
    if ParseHunk(line) == Some((start, length)) {
      var oldSide, first, more, rest := HeaderIs(line);
    }
    forall oldSide, first, more, rest | Header(line, oldSide, first, more, rest, start, length)
      ensures ParseHunk(line) == Some((start, length))
    {
      HeaderRead(line, oldSide, first, more, rest, start, length);
    }
  }

  // ---- Numbers as `int` reads them

  function Joined(groups: seq<string>): string {
    if groups == [] then [] else groups[0] + Joined(groups[1..])
  }

  ghost predicate AreGroups(groups: seq<string>) {
    groups != [] && forall g | g in groups :: g != [] && AllDigits(g)
  }

  /** Groups of digits with single underscores between them. */
  ghost predicate Numeral(s: string, groups: seq<string>, n: nat) {
    && AreGroups(groups) && s == Join(groups, "_")
    && AllDigits(Joined(groups)) && Value(Joined(groups)) == n
  }

  lemma {:induction false} JoinedDigits(groups: seq<string>)
    requires forall g | g in groups :: AllDigits(g)
    ensures AllDigits(Joined(groups))
  {
    if groups != [] {
      JoinedDigits(groups[1..]);
      assert groups[0] in groups;
    }
  }

  lemma {:induction false} DigitsOfDigits(s: string, rest: string)
    requires AllDigits(s)
    ensures DigitsOf(s + rest) == s + DigitsOf(rest)
  {
    if s == [] {
      assert s + rest == rest;
    } else {
      assert s[0] in s && (s + rest)[1..] == s[1..] + rest;
      DigitsOfDigits(s[1..], rest);
      assert s == [s[0]] + s[1..];
    }
  }

  lemma NumeralStep(g: string, rest: string)
    requires g != [] && AllDigits(g) && IsNumeral(rest)
    ensures IsNumeral(g + "_" + rest) && DigitsOf(g + "_" + rest) == g + DigitsOf(rest)
  {
    var s := g + "_" + rest;
    forall i | 0 <= i < |s| - 1 ensures IsDigit(s[i]) || (s[i] == '_' && s[i + 1] != '_') {
      if i < |g| {
        assert s[i] == g[i] && g[i] in g;
      } else if i == |g| {
        assert s[i] == '_' && s[i + 1] == rest[0];
      } else {
        assert s[i] == rest[i - |g| - 1] && s[i + 1] == rest[i - |g|];
      }
    }
    assert g[0] in g && s[0] == g[0] && s[|s| - 1] == rest[|rest| - 1];
    assert s == g + ("_" + rest);
    DigitsOfDigits(g, "_" + rest);
    assert ("_" + rest)[1..] == rest;
  }

  lemma DigitsAreNumeral(g: string)
    requires g != [] && AllDigits(g)
    ensures IsNumeral(g) && DigitsOf(g) == g
  {
    assert g[0] in g && g[|g| - 1] in g;
    assert forall i | 0 <= i < |g| :: g[i] in g;
    DigitsOfDigits(g, "");
    assert g + "" == g;
  }

  lemma {:induction false} GroupsRead(groups: seq<string>)
    requires AreGroups(groups)
    ensures IsNumeral(Join(groups, "_")) && DigitsOf(Join(groups, "_")) == Joined(groups)
  {
    var g, rest := groups[0], groups[1..];
    assert g in groups;
    if rest == [] {
      DigitsAreNumeral(g);
      assert g + [] == g;
    } else {
      forall x | x in rest ensures x in groups {
      }
      GroupsRead(rest);
      NumeralStep(g, Join(rest, "_"));
    }
  }

  /** Cut at its first underscore, the rest is a numeral again. */
  lemma {:induction false} GroupsOf(s: string) returns (groups: seq<string>)
    requires IsNumeral(s)
    ensures AreGroups(groups) && s == Join(groups, "_")
    decreases |s|
  {
    var n := IndexOf(s, '_');
    var g := s[..n];
    assert forall i | 0 <= i < n :: IsDigit(s[i]);
    if n == |s| {
      groups := [s];
      assert s[..n] == s;
    } else {
      var rest := s[n + 1..];
      RestIsNumeral(s, n);
      var more := GroupsOf(rest);
      groups := [g] + more;
      assert groups[1..] == more && s == g + "_" + rest;
      forall x | x in groups ensures x != [] && AllDigits(x) {
        assert x == g || x in more;
      }
    }
  }

  lemma RestIsNumeral(s: string, n: nat)
    requires IsNumeral(s) && n < |s| && s[n] == '_'
    ensures IsNumeral(s[n + 1..]) && n > 0
  {
    var rest := s[n + 1..];
    assert n < |s| - 1 && s[n + 1] != '_';
    forall i | 0 <= i < |rest| - 1 ensures IsDigit(rest[i]) || (rest[i] == '_' && rest[i + 1] != '_') {
      assert rest[i] == s[n + 1 + i] && rest[i + 1] == s[n + 2 + i];
    }
  }

  lemma NumeralIff(s: string, n: nat)
    ensures ParseNumeral(s) == Some(n) <==> exists groups :: Numeral(s, groups, n)
  {
    if ParseNumeral(s) == Some(n) {
      var groups := GroupsOf(s);
      GroupsRead(groups);
      assert Numeral(s, groups, n);
    }
    forall groups | Numeral(s, groups, n) ensures ParseNumeral(s) == Some(n) {
      GroupsRead(groups);
    }
  }

  /** White space, a sign or none, groups of digits, white space. */
  ghost predicate IsInt(s: string, n: int) {
    exists sign, body, groups, size ::
      && Trim(s) == sign + body && (sign == "" || sign == "+" || sign == "-") && Numeral(body, groups, size)
      && n == if sign == "-" then -(size as int) else size as int
  }

  lemma IntIff(s: string, n: int)
    ensures ParseInt(s) == Some(n) <==> IsInt(s, n)
  {
    if ParseInt(s) == Some(n) {
      IntFound(s);
    }
    if IsInt(s, n) {
      var sign, body, groups, size :|
        && Trim(s) == sign + body && (sign == "" || sign == "+" || sign == "-") && Numeral(body, groups, size)
        && n == if sign == "-" then -(size as int) else size as int;
      IntRead(s, sign, body, groups, size);
    }
  }

  lemma IntFound(s: string)
    requires ParseInt(s).Some?
    ensures IsInt(s, ParseInt(s).value)
  {
    var sign, body := SignOf(Trim(s));
    var size := ParseNumeral(body).value;
    NumeralIff(body, size);
    var groups :| Numeral(body, groups, size);
  }

  lemma SignOf(t: string) returns (sign: string, body: string)
    ensures t == sign + body && (sign == "" || sign == "+" || sign == "-")
    ensures var signed := t != [] && (t[0] == '-' || t[0] == '+');
            body == (if signed then t[1..] else t) && (sign == "-" <==> signed && t[0] == '-')
  {
    if t != [] && t[0] == '-' {
      sign, body := "-", t[1..];
    } else if t != [] && t[0] == '+' {
      sign, body := "+", t[1..];
    } else {
      sign, body := "", t;
    }
  }

  lemma IntRead(s: string, sign: string, body: string, groups: seq<string>, size: nat)
    requires Trim(s) == sign + body && (sign == "" || sign == "+" || sign == "-") && Numeral(body, groups, size)
    ensures ParseInt(s) == Some(if sign == "-" then -(size as int) else size as int)
  {
    NumeralIff(body, size);
    SignIs(Trim(s), sign, body);
  }

  lemma SignIs(t: string, x: string, y: string)
    requires t == x + y && (x == "" || x == "+" || x == "-") && IsNumeral(y)
    ensures t != [] && (t[0] == '-' || t[0] == '+' <==> x != "") && (t[0] == '-' <==> x == "-")
    ensures y == if x != "" then t[1..] else t
  {
    assert x == "" ==> t[0] == y[0];
  }

  // ---- Ranges

  /** A path that may have colons in it, a colon, and two numbers around the first dash. */
  ghost predicate Range(line: string, path: string, first: string, last: string, span: Span) {
    && Trim(line) == path + ":" + (first + "-" + last)
    && ':' !in first && '-' !in first && ':' !in last
    && IsInt(first, span.first as int) && IsInt(last, span.last)
  }

  lemma DashSplits(text: string, first: string, last: string)
    requires text == first + "-" + last && '-' !in first
    ensures IndexOf(text, '-') == |first| && text[..|first|] == first && text[|first| + 1..] == last
  {
    assert text[|first|] == '-';
    assert forall i | 0 <= i < |first| :: text[i] == first[i] && first[i] in first;
  }

  lemma EmptyIsNoInt()
    ensures ParseInt("") == None
  {
  }

  lemma AtDash(text: string) returns (first: string, last: string)
    requires IndexOf(text, '-') < |text|
    ensures text == first + "-" + last && '-' !in first
    ensures first == text[..IndexOf(text, '-')] && last == text[IndexOf(text, '-') + 1..]
  {
    var dash := IndexOf(text, '-');
    first, last := text[..dash], text[dash + 1..];
  }

  lemma SpanIs(text: string) returns (first: string, last: string)
    requires ParseSpan(text).Some?
    ensures text == first + "-" + last && '-' !in first
    ensures IsInt(first, ParseSpan(text).value.first as int) && IsInt(last, ParseSpan(text).value.last)
  {
    EmptyIsNoInt();
    first, last := AtDash(text);
    IntIff(first, ParseSpan(text).value.first as int);
    IntIff(last, ParseSpan(text).value.last);
  }

  /** A line is taken for a range if and only if it is one, and malformed lines are skipped. */
  lemma RangeIff(line: string, path: string, span: Span)
    ensures ReadEntry(line) == Some((path, span)) <==> exists first, last :: Range(line, path, first, last, span)
  {
    if ReadEntry(line) == Some((path, span)) {
      var first, last := RangeIs(line);
    }
    forall first, last | Range(line, path, first, last, span) ensures ReadEntry(line) == Some((path, span)) {
      RangeRead(line, path, first, last, span);
    }
  }

  lemma RangeIs(line: string) returns (first: string, last: string)
    requires ReadEntry(line).Some?
    ensures Range(line, ReadEntry(line).value.0, first, last, ReadEntry(line).value.1)
  {
    var entry := Trim(line);
    var at := LastColon(entry);
    var text := entry[at + 1..];
    first, last := SpanIs(text);
    ColonFree(first, last, text);
    CutAtColon(entry, at);
  }

  lemma CutAtColon(entry: string, at: nat)
    requires at < |entry| && entry[at] == ':'
    ensures entry == entry[..at] + ":" + entry[at + 1..]
  {
  }

  lemma SpanRead(text: string, first: string, last: string, span: Span)
    requires text == first + "-" + last && '-' !in first && IsInt(first, span.first as int) && IsInt(last, span.last)
    ensures ParseSpan(text) == Some(span)
  {
    DashSplits(text, first, last);
    IntIff(first, span.first as int);
    IntIff(last, span.last);
  }

  lemma RangeRead(line: string, path: string, first: string, last: string, span: Span)
    requires Range(line, path, first, last, span)
    ensures ReadEntry(line) == Some((path, span))
  {
    var entry, text := Trim(line), first + "-" + last;
    assert ':' !in text;
    LastColonAt(path, text);
    assert entry == path + ":" + text;
    assert entry[..|path|] == path && entry[|path| + 1..] == text;
    SpanRead(text, first, last, span);
  }

  lemma ColonFree(first: string, last: string, text: string)
    requires text == first + "-" + last && ':' !in text
    ensures ':' !in first && ':' !in last
  {
    assert forall c | c in first || c in last :: c in text;
  }
}
