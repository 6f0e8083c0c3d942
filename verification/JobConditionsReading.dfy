/** Nothing is guessed at. */
module JobConditionsReading {
  // A condition is decided only where it is a printed condition, and then as it reads; a text that the structure
  // check lets through is made of comparisons, white space and the operators' characters.

  import opened Options
  import opened Text
  import P = PythonBool
  import X = PythonText
  import R = PythonReading
  import opened JobConditions
  import opened JobConditionsTheorems

  // ---- What a match says of the text

  lemma OneMoreSpace(s: string, more: string, rest: string)
    requires s != [] && IsSpace(s[0]) && AllSpace(more) && s[1..] == more + rest
    ensures AllSpace([s[0]] + more) && s == ([s[0]] + more) + rest
  {
    assert s == [s[0]] + s[1..];
  }

  lemma {:induction false} SkippedIs(s: string) returns (space: string)
    ensures AllSpace(space) && s == space + SkipSpace(s)
  {
    if s != [] && IsSpace(s[0]) {
      var more := SkippedIs(s[1..]);
      space := [s[0]] + more;
      OneMoreSpace(s, more, SkipSpace(s[1..]));
    } else {
      space := "";
    }
  }

  lemma EqualsIs(s: string) returns (before: string, after: string)
    requires SkipEquals(s).Some?
    ensures AllSpace(before) && AllSpace(after) && s == before + ("==" + (after + SkipEquals(s).value))
  {
    before := SkippedIs(s);
    StrippedIs(SkipSpace(s), "==");
    after := SkippedIs(StripPrefix(SkipSpace(s), "==").value);
  }

  lemma OutputRegroups(l: Lexeme, b: string, rest: string)
    requires l.LTest? && l.test.OutputIsTrue? && b == l.before + ("==" + (l.after + (TRUE_LITERAL + rest)))
    ensures OUTPUTS + (l.test.name + b) == TestText(l) + rest
  {
    var end := "==" + (l.after + TRUE_LITERAL);
    assert b == (l.before + end) + rest;
    Regroups(OUTPUTS, l.test.name, l.before + end, rest);
  }

  lemma Regroups(a: string, b: string, c: string, d: string)
    ensures a + (b + (c + d)) == (a + (b + c)) + d
  {
  }

  lemma OutputIs(s: string) returns (l: Lexeme)
    requires MatchOutput(s).Some?
    ensures l.LTest? && l.test == MatchOutput(s).value.0 && LexemesSpelled([l])
    ensures s == TestText(l) + MatchOutput(s).value.1
  {
    StrippedIs(s, OUTPUTS);
    var a := StripPrefix(s, OUTPUTS).value;
    TakenIs(a, IsOutputChar);
    var name, b := TakeRun(a, IsOutputChar).value.0, TakeRun(a, IsOutputChar).value.1;
    var before, after := EqualsIs(b);
    StrippedIs(SkipEquals(b).value, TRUE_LITERAL);
    l := LTest(OutputIsTrue(name), before, after);
    OutputRegroups(l, b, MatchOutput(s).value.1);
  }

  lemma EventIsThat(s: string) returns (l: Lexeme)
    requires MatchEvent(s).Some?
    ensures l.LTest? && l.test == MatchEvent(s).value.0 && LexemesSpelled([l])
    ensures s == TestText(l) + MatchEvent(s).value.1
  {
    StrippedIs(s, EVENT_NAME);
    var a := StripPrefix(s, EVENT_NAME).value;
    var before, after := EqualsIs(a);
    var b := SkipEquals(a).value;
    StrippedIs(b, "'");
    var c := StripPrefix(b, "'").value;
    TakenIs(c, IsEventChar);
    var name, d := TakeRun(c, IsEventChar).value.0, TakeRun(c, IsEventChar).value.1;
    StrippedIs(d, "'");
    l := LTest(EventIs(name), before, after);
    var rest := MatchEvent(s).value.1;
    assert TestText(l) + rest == EVENT_NAME + (before + ("==" + (after + ("'" + (name + ("'" + rest))))));
  }

  /** What is matched is a comparison, with white space around its `==` only, and with `==`. */
  lemma MatchIs(s: string) returns (l: Lexeme)
    requires MatchTest(s).Some?
    ensures l.LTest? && l.test == MatchTest(s).value.0 && LexemesSpelled([l])
    ensures s == TestText(l) + MatchTest(s).value.1
  {
    if MatchOutput(s).Some? {
      l := OutputIs(s);
    } else {
      l := EventIsThat(s);
    }
  }

  // ---- What is left after the comparisons

  predicate IsOperatorChar(c: char) {
    IsSpace(c) || c == '(' || c == ')' || c == '|' || c == '&'
  }

  lemma {:induction false} StructureChars(s: string)
    requires Structure(s)
    ensures forall c | c in s :: IsOperatorChar(c)
    decreases |s|
  {
    if s != [] {
      if IsSpace(s[0]) || s[0] == '(' || s[0] == ')' {
        StructureChars(s[1..]);
        assert s == [s[0]] + s[1..];
      } else {
        StructureChars(s[2..]);
        assert s == [s[0], s[1]] + s[2..];
      }
    }
  }

  lemma {:induction false} WithoutMarksDrops(s: string)
    ensures forall c | c in s && c != '@' :: c in WithoutMarks(s)
  {
    if s != [] {
      WithoutMarksDrops(s[1..]);
      assert s == [s[0]] + s[1..];
    }
  }

  /** A comparison, or a character that stays. */
  datatype Piece = Comparison(l: Lexeme) | Other(c: char)

  predicate PieceFits(p: Piece) {
    if p.Comparison? then p.l.LTest? && LexemesSpelled([p.l]) else IsOperatorChar(p.c) || p.c == '@'
  }

  function PiecesText(ps: seq<Piece>): string
    requires forall p | p in ps :: PieceFits(p)
  {
    if ps == [] then ""
    else
      assert PieceFits(ps[0]);
      (if ps[0].Comparison? then TestText(ps[0].l) else [ps[0].c]) + PiecesText(ps[1..])
  }

  ghost predicate MadeOf(s: string, ps: seq<Piece>) {
    (forall p | p in ps :: PieceFits(p)) && s == PiecesText(ps)
  }

  lemma PutPiece(p: Piece, ps: seq<Piece>)
    requires PieceFits(p) && forall q | q in ps :: PieceFits(q)
    ensures var text := if p.Comparison? then TestText(p.l) else [p.c];
            MadeOf(text + PiecesText(ps), [p] + ps)
  {
    assert ([p] + ps)[1..] == ps;
  }

  lemma FirstPiece(s: string, more: seq<Piece>) returns (first: Piece)
    requires s != [] && MadeOf(Rest(s), more) && (MatchTest(s).None? ==> IsOperatorChar(s[0]) || s[0] == '@')
    ensures MadeOf(s, [first] + more) && (first.Comparison? <==> MatchTest(s).Some?)
  {
    if MatchTest(s).Some? {
      var l := MatchIs(s);
      first := Comparison(l);
    } else {
      first := Other(s[0]);
      assert s == [s[0]] + s[1..];
    }
    PutPiece(first, more);
  }

  lemma {:induction false} PiecesOf(s: string, outputs: map<string, string>, event: Option<string>) returns (ps: seq<Piece>)
    requires Substitute(s, outputs, event).Substituted?
    requires forall c | c in Substitute(s, outputs, event).skeleton :: IsOperatorChar(c) || c == '@'
    ensures MadeOf(s, ps)
    ensures Substitute(s, outputs, event).values != [] ==> exists p :: p in ps && p.Comparison?
    decreases |s|
  {
    if s == [] {
      ps := [];
    } else {
      var skeleton, rest := Substitute(s, outputs, event).skeleton, Substitute(Rest(s), outputs, event);
      assert rest.Substituted? && skeleton == [skeleton[0]] + rest.skeleton && skeleton[0] in skeleton;
      var more := PiecesOf(Rest(s), outputs, event);
      var first := FirstPiece(s, more);
      ps := [first] + more;
      assert first in ps;
    }
  }

  /** What is not refused is comparisons, at least one, and characters of white space and operators. */
  lemma OthersAreRefused(s: string, outputs: map<string, string>, event: Option<string>)
    requires Decide(s, outputs, event) != Unevaluable
    ensures exists ps: seq<Piece>, p: Piece :: MadeOf(s, ps) && p in ps && p.Comparison?
  {
    var skeleton := Substitute(s, outputs, event).skeleton;
    StructureChars(WithoutMarks(skeleton));
    WithoutMarksDrops(skeleton);
    var ps := PiecesOf(s, outputs, event);
  }

  // ---- What Python can read

  /** No operator of the workflow's and no mark is left. */
  predicate Clean(s: string) {
    '|' !in s && '&' !in s && '@' !in s
  }

  lemma {:induction false} LexClean(s: string)
    requires P.Lex(s).Some?
    ensures Clean(s)
    decreases |s|
  {
    if s != [] {
      if IsSpace(s[0]) || s[0] == '(' || s[0] == ')' {
        LexClean(s[1..]);
        assert s == [s[0]] + s[1..];
      } else {
        var n := P.WordLength(s);
        R.WordLengthIs(s);
        LexClean(s[n..]);
        assert s == s[..n] + s[n..];
      }
    }
  }

  function Marks(s: string): nat {
    if s == [] then 0 else (if s[0] == '@' then 1 else 0) + Marks(s[1..])
  }

  lemma {:induction false} MarksJoin(a: string, b: string)
    ensures Marks(a + b) == Marks(a) + Marks(b)
  {
    if a == [] {
      assert a + b == b;
    } else {
      assert (a + b)[1..] == a[1..] + b;
      MarksJoin(a[1..], b);
    }
  }

  lemma {:induction false} NoMarks(s: string)
    ensures Marks(s) == 0 <==> '@' !in s
  {
    if s != [] {
      NoMarks(s[1..]);
      assert s == [s[0]] + s[1..];
    }
  }

  lemma {:induction false} MarkReplaced(s: string, text: string)
    requires '@' !in text
    ensures Marks(ReplaceMark(s, text)) == if Marks(s) > 0 then Marks(s) - 1 else 0
    ensures forall c | c in s && c != '@' :: c in ReplaceMark(s, text)
  {
    if s != [] {
      assert s == [s[0]] + s[1..];
      if s[0] == '@' {
        MarksJoin(text, s[1..]);
        NoMarks(text);
      } else {
        MarkReplaced(s[1..], text);
        MarksJoin([s[0]], ReplaceMark(s[1..], text));
      }
    }
  }

  /** With as many marks as values or more, none is left only if there are as many; all else stays. */
  lemma {:induction false} MarksFor(s: string, values: seq<bool>)
    requires Marks(s) >= |values| && Clean(ReplaceMarks(s, values))
    ensures Marks(s) == |values| && '|' !in s && '&' !in s
    decreases |values|
  {
    if values == [] {
      NoMarks(s);
    } else {
      MarkReplaced(s, BoolText(values[0]));
      MarksFor(ReplaceMark(s, BoolText(values[0])), values[1..]);
    }
  }

  lemma {:induction false} PairsKeepMarks(s: string, c: char, text: string)
    requires c != '@' && '@' !in text
    ensures Marks(ReplacePairs(s, c, text)) == Marks(s)
    decreases |s|
  {
    if s != [] {
      if |s| >= 2 && s[0] == c && s[1] == c {
        PairsKeepMarks(s[2..], c, text);
        MarksJoin(text, ReplacePairs(s[2..], c, text));
        NoMarks(text);
      } else {
        PairsKeepMarks(s[1..], c, text);
      }
    }
  }

  lemma {:induction false} MarksAtLeast(s: string, outputs: map<string, string>, event: Option<string>)
    requires Substitute(s, outputs, event).Substituted?
    ensures Marks(Substitute(s, outputs, event).skeleton) >= |Substitute(s, outputs, event).values|
    decreases |s|
  {
    if s != [] {
      MarksAtLeast(Rest(s), outputs, event);
    }
  }

  // ---- The lexemes of a text that can be read

  /** The skeleton translates into nothing that has to be refused. */
  predicate Translates(skeleton: string, values: seq<bool>) {
    && (forall c | c in skeleton :: IsOperatorChar(c) || c == '@')
    && '|' !in AsPython(skeleton) && '&' !in AsPython(skeleton) && Marks(skeleton) == |values|
  }

  lemma AsPythonChar(c: char, rest: string)
    requires c != '|' && c != '&'
    ensures AsPython([c] + rest) == [c] + AsPython(rest)
  {
    ReplacePairsKeeps([c], rest, '|', " or ");
    ReplacePairsKeeps([c], ReplacePairs(rest, '|', " or "), '&', " and ");
  }

  lemma AsPythonOr(rest: string)
    ensures AsPython("||" + rest) == " or " + AsPython(rest)
  {
    assert ("||" + rest)[2..] == rest;
    ReplacePairsKeeps(" or ", ReplacePairs(rest, '|', " or "), '&', " and ");
  }

  lemma AsPythonAnd(rest: string)
    ensures AsPython("&&" + rest) == " and " + AsPython(rest)
  {
    ReplacePairsKeeps("&&", rest, '|', " or ");
    var inner := ReplacePairs(rest, '|', " or ");
    assert ("&&" + inner)[2..] == inner;
  }

  /** A bar or an ampersand alone stays. */
  lemma SingleStays(c: char, rest: string)
    requires (c == '|' || c == '&') && (rest == [] || rest[0] != c)
    ensures c in AsPython([c] + rest)
  {
    var text := [c] + rest;
    if c == '|' {
      assert ReplacePairs(text, '|', " or ") == ['|'] + ReplacePairs(text[1..], '|', " or ");
      ReplacePairsKeeps("|", ReplacePairs(rest, '|', " or "), '&', " and ");
    } else {
      ReplacePairsKeeps("&", rest, '|', " or ");
      var inner := ReplacePairs(rest, '|', " or ");
      assert inner == [] || inner[0] != '&';
      assert ("&" + inner)[1..] == inner;
    }
  }

  ghost predicate Reads(s: string, ls: seq<Lexeme>, gaps: seq<string>) {
    |gaps| == |ls| + 1 && Blanks(gaps) && LexemesSpelled(ls) && s == Spread(ls, gaps, Printed)
  }

  lemma PutLexeme(l: Lexeme, s: string, ls: seq<Lexeme>, gaps: seq<string>)
    requires LexemesSpelled([l]) && Reads(s, ls, gaps)
    ensures Reads(TextAt(l, Printed) + s, [l] + ls, [""] + gaps)
  {
    assert ([l] + ls)[1..] == ls && ([""] + gaps)[1..] == gaps;
    assert "" + (TextAt(l, Printed) + s) == TextAt(l, Printed) + s;
    forall x | x in [l] + ls && x.LTest? ensures Spelled(x.test) && AllSpace(x.before) && AllSpace(x.after) {
      assert x in [l] || x in ls;
    }
  }

  lemma BlanksWiden(c: char, gaps: seq<string>)
    requires IsSpace(c) && gaps != [] && Blanks(gaps)
    ensures Blanks([[c] + gaps[0]] + gaps[1..])
  {
    forall g | g in [[c] + gaps[0]] + gaps[1..] ensures AllSpace(g) {
      assert gaps[0] in gaps;
      assert g == [c] + gaps[0] || g in gaps;
    }
  }

  lemma PutSpace(c: char, s: string, ls: seq<Lexeme>, gaps: seq<string>) returns (wide: seq<string>)
    requires IsSpace(c) && Reads(s, ls, gaps)
    ensures Reads([c] + s, ls, wide)
  {
    wide := [[c] + gaps[0]] + gaps[1..];
    BlanksWiden(c, gaps);
    assert wide[1..] == gaps[1..];
    var rest := if ls == [] then "" else TextAt(ls[0], Printed) + Spread(ls[1..], gaps[1..], Printed);
    assert [c] + (gaps[0] + rest) == ([c] + gaps[0]) + rest;
  }

  function LexemeOf(c: char): Lexeme {
    if c == '(' then LOpen else if c == ')' then LClose else if c == '|' then LOr else LAnd
  }

  lemma PutChars(s: string, n: nat, ls: seq<Lexeme>, gaps: seq<string>)
    requires n <= |s| && s != [] && Reads(s[n..], ls, gaps)
    requires n == (if s[0] == '|' || s[0] == '&' then 2 else 1) && (n == 2 ==> s[1] == s[0])
    requires s[0] == '(' || s[0] == ')' || s[0] == '|' || s[0] == '&'
    ensures Reads(s, [LexemeOf(s[0])] + ls, [""] + gaps)
  {
    PutLexeme(LexemeOf(s[0]), s[n..], ls, gaps);
    CharsText(s, n);
  }

  lemma CharsText(s: string, n: nat)
    requires n <= |s| && s != [] && n == (if s[0] == '|' || s[0] == '&' then 2 else 1) && (n == 2 ==> s[1] == s[0])
    requires s[0] == '(' || s[0] == ')' || s[0] == '|' || s[0] == '&'
    ensures s == TextAt(LexemeOf(s[0]), Printed) + s[n..]
  {
  }

  /** Past a comparison, or a character of its own. */
  lemma TranslatesOn(s: string, outputs: map<string, string>, event: Option<string>)
    requires s != [] && Substitute(s, outputs, event).Substituted?
    requires Translates(Substitute(s, outputs, event).skeleton, Substitute(s, outputs, event).values)
    requires MatchTest(s).Some? || (s[0] != '|' && s[0] != '&')
    ensures var rest := Substitute(Rest(s), outputs, event); rest.Substituted? && Translates(rest.skeleton, rest.values)
    ensures MatchTest(s).None? ==> IsSpace(s[0]) || s[0] == '(' || s[0] == ')'
  {
    var all, rest := Substitute(s, outputs, event), Substitute(Rest(s), outputs, event);
    var c := if MatchTest(s).Some? then '@' else s[0];
    assert all.skeleton == [c] + rest.skeleton;
    AsPythonChar(c, rest.skeleton);
    MarksAtLeast(Rest(s), outputs, event);
    assert c in all.skeleton;
  }

  /** Past two bars, or two ampersands. */
  lemma TranslatesPair(s: string, outputs: map<string, string>, event: Option<string>)
    requires s != [] && Substitute(s, outputs, event).Substituted?
    requires Translates(Substitute(s, outputs, event).skeleton, Substitute(s, outputs, event).values)
    requires MatchTest(s).None? && (s[0] == '|' || s[0] == '&')
    ensures |s| >= 2 && s[1] == s[0]
    ensures var rest := Substitute(s[2..], outputs, event); rest.Substituted? && Translates(rest.skeleton, rest.values)
  {
    var c, all, next := s[0], Substitute(s, outputs, event), Substitute(s[1..], outputs, event);
    assert all.skeleton == [c] + next.skeleton;
    if next.skeleton == [] || next.skeleton[0] != c {
      SingleStays(c, next.skeleton);
    }
    SecondOfPair(s[1..], c, outputs, event);
    var rest := Substitute(s[2..], outputs, event).skeleton;
    assert all.skeleton == [c, c] + rest;
    MarksJoin([c, c], rest);
    NoMarks([c, c]);
    if c == '|' {
      AsPythonOr(rest);
      assert all.skeleton == "||" + rest;
    } else {
      AsPythonAnd(rest);
      assert all.skeleton == "&&" + rest;
    }
  }

  lemma SecondOfPair(s: string, c: char, outputs: map<string, string>, event: Option<string>)
    requires c != '@' && Substitute(s, outputs, event).Substituted?
    requires Substitute(s, outputs, event).skeleton != [] && Substitute(s, outputs, event).skeleton[0] == c
    ensures s != [] && s[0] == c && MatchTest(s).None?
    ensures var rest := Substitute(s[1..], outputs, event);
            rest.Substituted? && Substitute(s, outputs, event) == Substituted([c] + rest.skeleton, rest.values)
  {
    var rest := Substitute(Rest(s), outputs, event);
    assert rest.Substituted? ==> [] + rest.values == rest.values;
  }

  lemma {:induction false} LexemesOf(s: string, outputs: map<string, string>, event: Option<string>)
    returns (ls: seq<Lexeme>, gaps: seq<string>)
    requires Substitute(s, outputs, event).Substituted?
    requires Translates(Substitute(s, outputs, event).skeleton, Substitute(s, outputs, event).values)
    ensures Reads(s, ls, gaps)
    decreases |s|
  {
    if s == [] {
      ls, gaps := [], [""];
    } else if MatchTest(s).Some? {
      TranslatesOn(s, outputs, event);
      ls, gaps := LexemesOf(Rest(s), outputs, event);
      var l := MatchIs(s);
      PutLexeme(l, Rest(s), ls, gaps);
      ls, gaps := [l] + ls, [""] + gaps;
    } else if s[0] == '|' || s[0] == '&' {
      TranslatesPair(s, outputs, event);
      ls, gaps := LexemesOf(s[2..], outputs, event);
      PutChars(s, 2, ls, gaps);
      ls, gaps := [LexemeOf(s[0])] + ls, [""] + gaps;
    } else {
      TranslatesOn(s, outputs, event);
      ls, gaps := LexemesOf(s[1..], outputs, event);
      if IsSpace(s[0]) {
        assert s == [s[0]] + s[1..];
        gaps := PutSpace(s[0], s[1..], ls, gaps);
      } else {
        PutChars(s, 1, ls, gaps);
        ls, gaps := [LexemeOf(s[0])] + ls, [""] + gaps;
      }
    }
  }

  // ---- The condition they print

  lemma ToksSlice(ls: seq<Lexeme>, outputs: map<string, string>, event: Option<string>, i: nat, j: nat)
    requires i <= j <= |ls|
    ensures ToksOf(ls, outputs, event)[i..j] == ToksOf(ls[i..j], outputs, event)
  {
  }

  lemma SpelledSlice(ls: seq<Lexeme>, i: nat, j: nat)
    requires i <= j <= |ls| && LexemesSpelled(ls)
    ensures LexemesSpelled(ls[i..j])
  {
    forall l | l in ls[i..j] ensures l in ls {
    }
  }

  /** Two halves and what stands between them. */
  lemma Halves(ls: seq<Lexeme>, outputs: map<string, string>, event: Option<string>, a: seq<P.Tok>, t: P.Tok, b: seq<P.Tok>)
    returns (left: seq<Lexeme>, l: Lexeme, right: seq<Lexeme>)
    requires LexemesSpelled(ls) && ToksOf(ls, outputs, event) == a + [t] + b
    ensures ls == left + [l] + right && LexemesSpelled(left) && LexemesSpelled(right)
    ensures ToksOf(left, outputs, event) == a && TokOf(l, outputs, event) == t && ToksOf(right, outputs, event) == b
  {
    var k, all := |a|, a + [t] + b;
    assert all[..k] == a && all[k] == t && all[k + 1..] == b && |all| == |ls|;
    left, l, right := ls[..k], ls[k], ls[k + 1..];
    ToksSlice(ls, outputs, event, 0, k);
    ToksSlice(ls, outputs, event, k + 1, |ls|);
    SpelledSlice(ls, 0, k);
    SpelledSlice(ls, k + 1, |ls|);
    assert TokOf(ls[k], outputs, event) == all[k];
    assert ls[..k] == ls[0..k] && ls[k + 1..] == ls[k + 1..|ls|];
  }

  lemma Inside(ls: seq<Lexeme>, outputs: map<string, string>, event: Option<string>, a: seq<P.Tok>) returns (inner: seq<Lexeme>)
    requires LexemesSpelled(ls) && ToksOf(ls, outputs, event) == [P.Open] + a + [P.Close]
    ensures ls == [LOpen] + inner + [LClose] && LexemesSpelled(inner) && ToksOf(inner, outputs, event) == a
  {
    var n, all := |ls|, [P.Open] + a + [P.Close];
    assert all[0] == P.Open && all[n - 1] == P.Close && all[1..n - 1] == a;
    inner := ls[1..n - 1];
    ToksSlice(ls, outputs, event, 1, n - 1);
    SpelledSlice(ls, 1, n - 1);
    assert TokOf(ls[0], outputs, event) == all[0] && TokOf(ls[n - 1], outputs, event) == all[n - 1];
    assert ls == [ls[0]] + inner + [ls[n - 1]];
  }

  lemma NoNots(e: P.Expr, ls: seq<Lexeme>, outputs: map<string, string>, event: Option<string>)
    requires P.Toks(e) == ToksOf(ls, outputs, event)
    ensures !e.Not?
  {
    assert P.Toks(e) != [] ==> P.Toks(e)[0] == TokOf(ls[0], outputs, event);
  }

  lemma {:induction false} ConditionOf(e: P.Expr, level: P.Level, ls: seq<Lexeme>, outputs: map<string, string>, event: Option<string>)
    returns (c: Cond)
    requires P.Fits(e, level) && P.Toks(e) == ToksOf(ls, outputs, event) && LexemesSpelled(ls)
    ensures Lexemes(c) == ls && WellFormed(c, level != P.OrLevel)
    decreases e
  {
    NoNots(e, ls, outputs, event);
    match e
    case Lit(b) =>
      var l := ls[0];
      assert ls == [l] && TokOf(l, outputs, event) == P.Toks(e)[0];
      c := Compare(l.test, l.before, l.after);
    case And(a, b) =>
      var left, l, right := Halves(ls, outputs, event, P.Toks(a), P.AndTok, P.Toks(b));
      var x := ConditionOf(a, P.AndLevel, left, outputs, event);
      var y := ConditionOf(b, P.AndLevel, right, outputs, event);
      c := Both(x, y);
    case Or(a, b) =>
      var left, l, right := Halves(ls, outputs, event, P.Toks(a), P.OrTok, P.Toks(b));
      var x := ConditionOf(a, P.OrLevel, left, outputs, event);
      var y := ConditionOf(b, P.OrLevel, right, outputs, event);
      c := Either(x, y);
    case Group(a) =>
      var inner := Inside(ls, outputs, event, P.Toks(a));
      var x := ConditionOf(a, P.OrLevel, inner, outputs, event);
      c := Parens(x);
  }

  lemma PaddedIsBlank(ls: seq<Lexeme>, gaps: seq<string>)
    requires |gaps| == |ls| + 1 && Blanks(gaps)
    ensures forall g | g in Padded("", ls, gaps) :: AllSpace(g)
  {
    var padded := Padded("", ls, gaps);
    forall g | g in padded ensures AllSpace(g) {
      var i :| 0 <= i < |padded| && padded[i] == g;
      PaddedAt("", ls, gaps, i);
      assert gaps[i] in gaps;
      PaddingFits(if i == 0 then "" else Side(ls[i - 1]), gaps[i], if i < |ls| then Side(ls[i]) else "", 0);
    }
  }

  /** Lexemes whose values Python reads as an expression are a condition's. */
  lemma ReadLexemes(ls: seq<Lexeme>, gaps: seq<string>, outputs: map<string, string>, event: Option<string>) returns (c: Cond)
    requires |gaps| == |ls| + 1 && Blanks(gaps) && LexemesSpelled(ls)
    requires P.Eval(Spread(ls, gaps, Valued(outputs, event))).Answer?
    ensures WellFormed(c, false) && Lexemes(c) == ls
  {
    var text, padded, ts := Spread(ls, gaps, Valued(outputs, event)), Padded("", ls, gaps), ToksOf(ls, outputs, event);
    assert "" + text == text;
    ValuedIsSpread("", ls, gaps, outputs, event);
    PaddedIsBlank(ls, gaps);
    R.LexedIsSpaced(ts, padded);
    X.LexSpread(ts, padded);
    var e := R.TreeOf(ts);
    c := ConditionOf(e, P.OrLevel, ls, outputs, event);
  }

  // ---- Decided exactly when

  /** The text prints the condition, its line breaks fit, and an event is given where one is compared. */
  ghost predicate Prints(s: string, c: Cond, event: Option<string>) {
    && WellFormed(c, false) && (ComparesEvent(c) ==> event.Some?)
    && exists gaps :: |gaps| == |Lexemes(c)| + 1 && Blanks(gaps) && BreaksFit(Lexemes(c), gaps)
                      && s == Spread(Lexemes(c), gaps, Printed)
  }

  lemma DecidedIsRead(s: string, outputs: map<string, string>, event: Option<string>) returns (ls: seq<Lexeme>, gaps: seq<string>)
    requires Decide(s, outputs, event).Decided?
    ensures Reads(s, ls, gaps) && P.Eval(Spread(ls, gaps, Valued(outputs, event))).Answer?
  {
    var skeleton, values := Substitute(s, outputs, event).skeleton, Substitute(s, outputs, event).values;
    StructureChars(WithoutMarks(skeleton));
    WithoutMarksDrops(skeleton);
    LexClean(ReplaceMarks(AsPython(skeleton), values));
    MarksAtLeast(s, outputs, event);
    PairsKeepMarks(skeleton, '|', " or ");
    PairsKeepMarks(ReplacePairs(skeleton, '|', " or "), '&', " and ");
    MarksFor(AsPython(skeleton), values);
    ls, gaps := LexemesOf(s, outputs, event);
    SubstitutePrinted(ls, gaps, outputs, event);
    OrsReplaced(ls, gaps);
    AndsReplaced(ls, gaps);
    MarksReplaced(ls, gaps, outputs, event);
  }

  /** A text is decided if and only if it prints a condition, and as that is true or not. */
  lemma DecidedIff(s: string, outputs: map<string, string>, event: Option<string>, v: bool)
    ensures Decide(s, outputs, event) == Decided(v) <==> exists c :: Prints(s, c, event) && Truth(c, outputs, event) == v
  {
    if Decide(s, outputs, event) == Decided(v) {
      var ls, gaps := DecidedIsRead(s, outputs, event);
      var c := ReadLexemes(ls, gaps, outputs, event);
      PrintedConditionDecides(c, gaps, outputs, event);
      assert Prints(s, c, event);
    }
    forall c | Prints(s, c, event) && Truth(c, outputs, event) == v ensures Decide(s, outputs, event) == Decided(v) {
      var gaps :| |gaps| == |Lexemes(c)| + 1 && Blanks(gaps) && BreaksFit(Lexemes(c), gaps)
                  && s == Spread(Lexemes(c), gaps, Printed);
      PrintedConditionDecides(c, gaps, outputs, event);
    }
  }

  // ---- What the structure check lets through

  lemma {:induction false} WalkPlain(p: P.Place, s: string)
    requires !p.over && p.line != P.Indenting(false) && forall c | c in s :: !IsSpace(c) && c != '(' && c != ')'
    ensures P.Walk(p, s) == if s == [] then Some(p) else Some(P.Place(p.depth, P.Inside, false))
    decreases |s|
  {
    if s != [] {
      assert s[0] in s;
      WalkPlain(P.Place(p.depth, P.Inside, false), s[1..]);
    }
  }

  lemma PlainIsUnclear(s: string)
    requires s != [] && '|' in s && forall c | c in s :: !IsSpace(c) && c != '(' && c != ')'
    ensures P.Eval(s) == P.Unclear
  {
    assert s[0] in s;
    assert P.SkipIndent(s) == s;
    WalkPlain(P.Place(0, P.Indenting(true), false), s);
    if P.Lex(s).Some? {
      LexClean(s);
    }
  }

  function Bar(t: string): string {
    ['|'] + t
  }

  function Mark(t: string): string {
    ['@'] + t
  }

  /** Marks with a bar in front of each. */
  function Barred(n: nat): string {
    if n == 0 then [] else Bar(Mark(Barred(n - 1)))
  }

  function BarredValues(values: seq<bool>): string {
    if values == [] then [] else Bar(BoolText(values[0]) + BarredValues(values[1..]))
  }

  lemma {:induction false} BarredMarks(n: nat, values: seq<bool>)
    requires n == |values|
    ensures ReplaceMarks(Barred(n), values) == BarredValues(values)
    ensures WithoutMarks(Barred(n)) == seq(n, _ => '|')
    ensures AsPython(Barred(n)) == Barred(n)
  {
    if n > 0 {
      BarredMarks(n - 1, values[1..]);
      var rest := Barred(n - 1);
      OneMark(rest, values);
      BarOnly(Mark(rest), values);
      MarkFirst(rest);
    }
  }

  lemma OneMark(rest: string, values: seq<bool>)
    requires values != []
    ensures ReplaceMarks(Mark(rest), values) == BoolText(values[0]) + ReplaceMarks(rest, values[1..])
  {
    assert Mark(rest)[1..] == rest;
    ReplaceMarksSkip(BoolText(values[0]), rest, values[1..]);
  }

  lemma BarOnly(t: string, values: seq<bool>)
    requires t != [] && t[0] != '|'
    ensures AsPython(Bar(t)) == Bar(AsPython(t)) && WithoutMarks(Bar(t)) == Bar(WithoutMarks(t))
    ensures ReplaceMarks(Bar(t), values) == Bar(ReplaceMarks(t, values))
  {
    assert Bar(t)[1..] == t;
    ReplacePairsKeeps(['|'], ReplacePairs(t, '|', " or "), '&', " and ");
    ReplaceMarksSkip(['|'], t, values);
  }

  lemma {:induction false} BarsStructure(n: nat)
    ensures Structure(seq(2 * n, _ => '|'))
  {
    if n > 0 {
      BarsStructure(n - 1);
      assert seq(2 * n, _ => '|')[2..] == seq(2 * (n - 1), _ => '|');
    }
  }

  lemma {:induction false} BarredPlain(values: seq<bool>)
    ensures forall c | c in BarredValues(values) :: !IsSpace(c) && c != '(' && c != ')'
    ensures values != [] ==> '|' in BarredValues(values)
  {
    if values != [] {
      BarredPlain(values[1..]);
    }
  }

  /** Comparisons with a single bar before each but the first, and no space. */
  function BarredTests(ls: seq<Lexeme>): string
    requires forall l | l in ls :: l.LTest?
  {
    if ls == [] then [] else assert ls[0] in ls; Bar(TestText(ls[0]) + BarredTests(ls[1..]))
  }

  lemma BarAhead(t: string, outputs: map<string, string>, event: Option<string>)
    requires Substitute(t, outputs, event).Substituted?
    ensures var after := Substitute(t, outputs, event);
            Substitute(Bar(t), outputs, event) == Substituted(Bar(after.skeleton), after.values)
  {
    SubstituteChar('|', t, outputs, event);
    assert [] + Substitute(t, outputs, event).values == Substitute(t, outputs, event).values;
  }

  lemma TestAhead(l: Lexeme, t: string, outputs: map<string, string>, event: Option<string>)
    requires l.LTest? && LexemesSpelled([l]) && event.Some? && Substitute(t, outputs, event).Substituted?
    ensures var r, after := Substitute(TestText(l) + t, outputs, event), Substitute(t, outputs, event);
            r.Substituted? && r.skeleton == Mark(after.skeleton) && |r.values| == |after.values| + 1
  {
    SubstituteTest(l, t, outputs, event);
  }

  lemma {:induction false} BarredSubstitute(ls: seq<Lexeme>, outputs: map<string, string>, event: Option<string>)
    requires (forall l | l in ls :: l.LTest?) && LexemesSpelled(ls) && event.Some?
    ensures var r := Substitute(BarredTests(ls), outputs, event);
            r.Substituted? && r.skeleton == Barred(|ls|) && |r.values| == |ls|
  {
    if ls != [] {
      SpelledTail(ls);
      forall l | l in ls[1..] ensures l in ls {
      }
      BarredSubstitute(ls[1..], outputs, event);
      assert ls[0] in ls;
      TestAhead(ls[0], BarredTests(ls[1..]), outputs, event);
      BarAhead(TestText(ls[0]) + BarredTests(ls[1..]), outputs, event);
    }
  }

  lemma MarkFirst(rest: string)
    ensures AsPython(Mark(rest)) == Mark(AsPython(rest)) && WithoutMarks(Mark(rest)) == WithoutMarks(rest)
  {
    AsPythonChar('@', rest);
    assert Mark(rest)[1..] == rest;
    assert [] + WithoutMarks(rest) == WithoutMarks(rest);
  }

  lemma BarredPasses(n: nat)
    requires n % 2 == 0
    ensures Structure(WithoutMarks(Mark(Barred(n))))
  {
    MarkFirst(Barred(n));
    var none := seq(n, _ => false);
    BarredMarks(n, none);
    BarsStructure(n / 2);
  }

  lemma BarredUnclear(n: nat, values: seq<bool>)
    requires n > 0 && |values| == n + 1
    ensures P.Eval(ReplaceMarks(AsPython(Mark(Barred(n))), values)) == P.Unclear
  {
    MarkFirst(Barred(n));
    BarredMarks(n, values[1..]);
    OneMark(Barred(n), values);
    BoolPlain(values[0]);
    UnclearText(ReplaceMarks(Mark(Barred(n)), values), BoolText(values[0]), values[1..]);
  }

  lemma BoolPlain(v: bool)
    ensures forall c | c in BoolText(v) :: !IsSpace(c) && c != '(' && c != ')'
  {
  }

  lemma UnclearText(s: string, word: string, values: seq<bool>)
    requires s == word + BarredValues(values) && values != [] && forall c | c in word :: !IsSpace(c) && c != '(' && c != ')'
    ensures P.Eval(s) == P.Unclear
  {
    BarredPlain(values);
    assert forall c | c in s :: c in word || c in BarredValues(values);
    PlainIsUnclear(s);
  }

  lemma DecidesMalformed(s: string, outputs: map<string, string>, event: Option<string>, n: nat)
    requires n > 0 && n % 2 == 0 && Substitute(s, outputs, event).Substituted?
    requires Substitute(s, outputs, event).skeleton == Mark(Barred(n)) && |Substitute(s, outputs, event).values| == n + 1
    ensures Decide(s, outputs, event) == Malformed
  {
    BarredPasses(n);
    BarredUnclear(n, Substitute(s, outputs, event).values);
  }

  /** An odd number of comparisons, and at least three, with a single bar between any two and no space, pass the
      check, which is made for two bars. */
  lemma SingleBarsPass(first: Lexeme, ls: seq<Lexeme>, outputs: map<string, string>, event: Option<string>)
    requires first.LTest? && LexemesSpelled([first]) && event.Some? && ls != [] && |ls| % 2 == 0
    requires (forall l | l in ls :: l.LTest?) && LexemesSpelled(ls)
    ensures Decide(TestText(first) + BarredTests(ls), outputs, event) == Malformed
  {
    BarredSubstitute(ls, outputs, event);
    TestAhead(first, BarredTests(ls), outputs, event);
    DecidesMalformed(TestText(first) + BarredTests(ls), outputs, event, |ls|);
  }
}
