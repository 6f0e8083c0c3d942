/** A condition decides as it reads. */
module JobConditionsTheorems {
  // Printing a condition and evaluating it gives its truth value, unless an event is compared and none was
  // given, or a line breaks outside parentheses.

  import opened Options
  import opened Text
  import P = PythonBool
  import X = PythonText
  import opened JobConditions

  // ---- Conditions, and how workflows spell them

  /** A condition: comparisons with the spacing around their `==`, joined by `&&`, `||` and parentheses. */
  datatype Cond =
    | Compare(test: Test, before: string, after: string)
    | Both(l: Cond, r: Cond)
    | Either(l: Cond, r: Cond)
    | Parens(c: Cond)

  datatype Lexeme = LOpen | LClose | LOr | LAnd | LTest(test: Test, before: string, after: string)

  function Lexemes(c: Cond): (ls: seq<Lexeme>)
    ensures ls != []
  {
    match c
    case Compare(test, before, after) => [LTest(test, before, after)]
    case Both(l, r) => Lexemes(l) + [LAnd] + Lexemes(r)
    case Either(l, r) => Lexemes(l) + [LOr] + Lexemes(r)
    case Parens(x) => [LOpen] + Lexemes(x) + [LClose]
  }

  predicate Spelled(test: Test) {
    match test
    case OutputIsTrue(name) => name != [] && forall c | c in name :: IsOutputChar(c)
    case EventIs(name) => name != [] && forall c | c in name :: IsEventChar(c)
  }

  /** Names are spelled with the characters allowed, and `||` inside `&&` is in parentheses. */
  predicate WellFormed(c: Cond, insideAnd: bool) {
    match c
    case Compare(test, before, after) =>
      Spelled(test) && AllSpace(before) && AllSpace(after)
    case Both(l, r) => WellFormed(l, true) && WellFormed(r, true)
    case Either(l, r) => !insideAnd && WellFormed(l, false) && WellFormed(r, false)
    case Parens(x) => WellFormed(x, false)
  }

  predicate Truth(c: Cond, outputs: map<string, string>, event: Option<string>) {
    match c
    case Compare(OutputIsTrue(name), _, _) => name in outputs && outputs[name] == "true"
    case Compare(EventIs(name), _, _) => event == Some(name)
    case Both(l, r) => Truth(l, outputs, event) && Truth(r, outputs, event)
    case Either(l, r) => Truth(l, outputs, event) || Truth(r, outputs, event)
    case Parens(x) => Truth(x, outputs, event)
  }

  predicate ComparesEvent(c: Cond) {
    match c
    case Compare(test, _, _) => test.EventIs?
    case Both(l, r) => ComparesEvent(l) || ComparesEvent(r)
    case Either(l, r) => ComparesEvent(l) || ComparesEvent(r)
    case Parens(x) => ComparesEvent(x)
  }

  function TestText(l: Lexeme): string
    requires l.LTest?
  {
    match l.test
    case OutputIsTrue(name) => OUTPUTS + (name + (l.before + ("==" + (l.after + TRUE_LITERAL))))
    case EventIs(name) => EVENT_NAME + (l.before + ("==" + (l.after + ("'" + (name + "'")))))
  }

  // ---- A lexeme's text at each stage of the translation

  datatype Stage = Printed | Marked | WithOr | WithAnd | Valued(outputs: map<string, string>, event: Option<string>)

  function TextAt(l: Lexeme, stage: Stage): string {
    match l
    case LOpen => "("
    case LClose => ")"
    case LOr => if stage.Printed? || stage.Marked? then "||" else " or "
    case LAnd => if stage.Printed? || stage.Marked? || stage.WithOr? then "&&" else " and "
    case LTest(_, _, _) =>
      if stage.Printed? then TestText(l)
      else if stage.Valued? then BoolText(Holds(l.test, stage.outputs, stage.event) == Some(true))
      else "@"
  }

  /** Lexemes with the spacing around and between them; `|gaps| == |ls| + 1`. */
  function Spread(ls: seq<Lexeme>, gaps: seq<string>, stage: Stage): string
    requires |gaps| == |ls| + 1
  {
    gaps[0] + if ls == [] then "" else TextAt(ls[0], stage) + Spread(ls[1..], gaps[1..], stage)
  }

  predicate Blanks(gaps: seq<string>) {
    forall g | g in gaps :: AllSpace(g)
  }

  predicate LexemesSpelled(ls: seq<Lexeme>) {
    forall l | l in ls && l.LTest? :: Spelled(l.test) && AllSpace(l.before) && AllSpace(l.after)
  }

  function ValuesOf(ls: seq<Lexeme>, outputs: map<string, string>, event: Option<string>): seq<bool> {
    if ls == [] then []
    else (if ls[0].LTest? then [Holds(ls[0].test, outputs, event) == Some(true)] else []) + ValuesOf(ls[1..], outputs, event)
  }

  predicate NeedsEvent(ls: seq<Lexeme>) {
    exists l :: l in ls && l.LTest? && l.test.EventIs?
  }

  // ---- Matching a printed comparison

  lemma {:induction false} SkipsSpace(space: string, rest: string)
    requires AllSpace(space) && (rest != [] ==> !IsSpace(rest[0]))
    ensures SkipSpace(space + rest) == rest
  {
    if space == [] {
      assert space + rest == rest;
    } else {
      assert (space + rest)[1..] == space[1..] + rest;
      SkipsSpace(space[1..], rest);
    }
  }

  lemma SkipsEquals(before: string, after: string, rest: string)
    requires AllSpace(before) && AllSpace(after)
    requires rest != [] && !IsSpace(rest[0])
    ensures SkipEquals(before + ("==" + (after + rest))) == Some(rest)
  {
    SkipsSpace(before, "==" + (after + rest));
    StripsPrefix("==", after + rest);
    SkipsSpace(after, rest);
  }

  lemma NothingMatches(s: string)
    requires s != [] && s[0] != 'n' && s[0] != 'g'
    ensures MatchTest(s) == None
  {
    assert OUTPUTS[0] == 'n' && EVENT_NAME[0] == 'g';
  }

  lemma OutputMatches(l: Lexeme, rest: string)
    requires l.LTest? && l.test.OutputIsTrue? && LexemesSpelled([l])
    ensures MatchTest(TestText(l) + rest) == Some((l.test, rest))
  {
    assert l in [l];
    var name := l.test.name;
    var tail := "==" + (l.after + (TRUE_LITERAL + rest));
    assert TestText(l) + rest == OUTPUTS + (name + (l.before + tail));
    StripsPrefix(OUTPUTS, name + (l.before + tail));
    assert l.before + tail != [];
    assert !IsOutputChar((l.before + tail)[0]) by {
      if l.before != [] {
        assert l.before[0] in l.before;
      }
    }
    TakesRun(name, l.before + tail, IsOutputChar);
    SkipsEquals(l.before, l.after, TRUE_LITERAL + rest);
    StripsPrefix(TRUE_LITERAL, rest);
  }

  lemma EventMatches(l: Lexeme, rest: string)
    requires l.LTest? && l.test.EventIs? && LexemesSpelled([l])
    ensures MatchTest(TestText(l) + rest) == Some((l.test, rest))
  {
    assert l in [l];
    var name := l.test.name;
    var quoted := "'" + (name + ("'" + rest));
    assert TestText(l) + rest == EVENT_NAME + (l.before + ("==" + (l.after + quoted)));
    assert (TestText(l) + rest)[0] == 'g' && OUTPUTS[0] == 'n';
    StripsPrefix(EVENT_NAME, l.before + ("==" + (l.after + quoted)));
    SkipsEquals(l.before, l.after, quoted);
    StripsPrefix("'", name + ("'" + rest));
    TakesRun(name, "'" + rest, IsEventChar);
    StripsPrefix("'", rest);
  }

  // ---- Stage by stage: first one lexeme, then the whole line

  lemma BlankTail(gaps: seq<string>)
    requires gaps != [] && Blanks(gaps)
    ensures AllSpace(gaps[0]) && Blanks(gaps[1..])
    ensures forall c | c in gaps[0] :: c != 'n' && c != 'g' && c != '@' && c != '|' && c != '&'
  {
    assert gaps[0] in gaps;
    forall g | g in gaps[1..] ensures g in gaps {
    }
  }

  lemma SpelledTail(ls: seq<Lexeme>)
    requires ls != [] && LexemesSpelled(ls)
    ensures LexemesSpelled([ls[0]]) && LexemesSpelled(ls[1..])
  {
    assert ls[0] in ls;
    forall l | l in ls[1..] ensures l in ls {
    }
  }

  function PrependText(text: string, rest: Substituted): Substituted {
    if rest.NoEvent? then NoEvent else Substituted(text + rest.skeleton, rest.values)
  }

  /** Text that begins no comparison passes through the substitution. */
  lemma {:induction false} SubstituteKeeps(text: string, rest: string, outputs: map<string, string>, event: Option<string>)
    requires 'n' !in text && 'g' !in text
    ensures Substitute(text + rest, outputs, event) == PrependText(text, Substitute(rest, outputs, event))
  {
    if text == [] {
      assert text + rest == rest;
    } else {
      assert text[0] in text && text + rest == [text[0]] + (text[1..] + rest);
      SubstituteChar(text[0], text[1..] + rest, outputs, event);
      SubstituteKeeps(text[1..], rest, outputs, event);
      PrependChar(text, Substitute(rest, outputs, event));
    }
  }

  lemma SubstituteChar(c: char, rest: string, outputs: map<string, string>, event: Option<string>)
    requires c != 'n' && c != 'g'
    ensures Substitute([c] + rest, outputs, event) == Prepend(c, [], Substitute(rest, outputs, event))
  {
    NothingMatches([c] + rest);
    assert Rest([c] + rest) == rest;
  }

  lemma PrependChar(text: string, rest: Substituted)
    requires text != []
    ensures PrependText(text, rest) == Prepend(text[0], [], PrependText(text[1..], rest))
  {
    if rest.Substituted? {
      assert text + rest.skeleton == [text[0]] + (text[1..] + rest.skeleton);
    }
  }

  lemma SubstituteTest(l: Lexeme, tail: string, outputs: map<string, string>, event: Option<string>)
    requires l.LTest? && LexemesSpelled([l])
    ensures Substitute(TestText(l) + tail, outputs, event) ==
      if event.None? && l.test.EventIs? then NoEvent
      else Prepend('@', [Holds(l.test, outputs, event) == Some(true)], Substitute(tail, outputs, event))
  {
    if l.test.OutputIsTrue? {
      OutputMatches(l, tail);
    } else {
      EventMatches(l, tail);
    }
    assert TestText(l) != [];
    assert Rest(TestText(l) + tail) == tail;
  }

  lemma {:induction false} SubstitutePrinted(ls: seq<Lexeme>, gaps: seq<string>, outputs: map<string, string>, event: Option<string>)
    requires |gaps| == |ls| + 1 && Blanks(gaps) && LexemesSpelled(ls)
    ensures Substitute(Spread(ls, gaps, Printed), outputs, event) ==
      if event.None? && NeedsEvent(ls) then NoEvent
      else Substituted(Spread(ls, gaps, Marked), ValuesOf(ls, outputs, event))
  {
    BlankTail(gaps);
    if ls == [] {
      SubstituteKeeps(gaps[0], "", outputs, event);
    } else {
      var l, tail := ls[0], Spread(ls[1..], gaps[1..], Printed);
      SubstituteKeeps(gaps[0], TextAt(l, Printed) + tail, outputs, event);
      SpelledTail(ls);
      SubstitutePrinted(ls[1..], gaps[1..], outputs, event);
      NeedsEventTail(ls);
      SubstitutePiece(l, tail, outputs, event);
    }
  }

  lemma SubstitutePiece(l: Lexeme, tail: string, outputs: map<string, string>, event: Option<string>)
    requires LexemesSpelled([l])
    ensures var rest := Substitute(tail, outputs, event);
            Substitute(TextAt(l, Printed) + tail, outputs, event) ==
            if rest.NoEvent? || (l.LTest? && l.test.EventIs? && event.None?) then NoEvent
            else Substituted(TextAt(l, Marked) + rest.skeleton,
                             (if l.LTest? then [Holds(l.test, outputs, event) == Some(true)] else []) + rest.values)
  {
    var rest := Substitute(tail, outputs, event);
    if l.LTest? {
      SubstituteTest(l, tail, outputs, event);
    } else {
      SubstituteKeeps(TextAt(l, Printed), tail, outputs, event);
      assert rest.Substituted? ==> [] + rest.values == rest.values;
    }
  }

  lemma NeedsEventTail(ls: seq<Lexeme>)
    requires ls != []
    ensures NeedsEvent(ls) <==> (ls[0].LTest? && ls[0].test.EventIs?) || NeedsEvent(ls[1..])
  {
    assert ls == [ls[0]] + ls[1..];
    assert ls[0] in ls;
  }

  lemma {:induction false} WithoutMarksKeeps(text: string, rest: string)
    requires '@' !in text
    ensures WithoutMarks(text + rest) == text + WithoutMarks(rest)
  {
    if text == [] {
      assert text + rest == rest;
    } else {
      assert text[0] in text && (text + rest)[1..] == text[1..] + rest;
      WithoutMarksKeeps(text[1..], rest);
      assert text == [text[0]] + text[1..];
    }
  }

  lemma {:induction false} StructureKeeps(text: string, rest: string)
    requires AllSpace(text) && Structure(rest)
    ensures Structure(text + rest)
  {
    if text == [] {
      assert text + rest == rest;
    } else {
      assert text[0] in text && (text + rest)[1..] == text[1..] + rest;
      StructureKeeps(text[1..], rest);
    }
  }

  lemma StructurePiece(l: Lexeme, tail: string)
    requires Structure(WithoutMarks(tail))
    ensures Structure(WithoutMarks(TextAt(l, Marked) + tail))
  {
    var head := TextAt(l, Marked);
    if l.LTest? {
      assert ("@" + tail)[1..] == tail;
      assert WithoutMarks("@" + tail) == [] + WithoutMarks(tail) == WithoutMarks(tail);
    } else {
      WithoutMarksKeeps(head, tail);
      var rest := WithoutMarks(tail);
      assert (head + rest)[|head|..] == rest;
      assert l.LOpen? || l.LClose? ==> |head| == 1;
      assert l.LOr? || l.LAnd? ==> |head| == 2 && (head + rest)[0] == (head + rest)[1];
    }
  }

  lemma {:induction false} MarkedIsStructure(ls: seq<Lexeme>, gaps: seq<string>)
    requires |gaps| == |ls| + 1 && Blanks(gaps)
    ensures Structure(WithoutMarks(Spread(ls, gaps, Marked)))
  {
    BlankTail(gaps);
    var after := if ls == [] then "" else TextAt(ls[0], Marked) + Spread(ls[1..], gaps[1..], Marked);
    if ls != [] {
      MarkedIsStructure(ls[1..], gaps[1..]);
      StructurePiece(ls[0], Spread(ls[1..], gaps[1..], Marked));
    }
    WithoutMarksKeeps(gaps[0], after);
    StructureKeeps(gaps[0], WithoutMarks(after));
  }

  lemma {:induction false} ReplacePairsKeeps(text: string, rest: string, c: char, word: string)
    requires c !in text
    ensures ReplacePairs(text + rest, c, word) == text + ReplacePairs(rest, c, word)
  {
    if text == [] {
      assert text + rest == rest;
    } else {
      assert text[0] in text && (text + rest)[1..] == text[1..] + rest;
      ReplacePairsKeeps(text[1..], rest, c, word);
      assert text == [text[0]] + text[1..];
    }
  }

  lemma OrPiece(l: Lexeme, tail: string)
    ensures ReplacePairs(TextAt(l, Marked) + tail, '|', " or ") == TextAt(l, WithOr) + ReplacePairs(tail, '|', " or ")
  {
    if l.LOr? {
      assert ("||" + tail)[2..] == tail;
    } else {
      ReplacePairsKeeps(TextAt(l, Marked), tail, '|', " or ");
    }
  }

  lemma AndPiece(l: Lexeme, tail: string)
    ensures ReplacePairs(TextAt(l, WithOr) + tail, '&', " and ") == TextAt(l, WithAnd) + ReplacePairs(tail, '&', " and ")
  {
    if l.LAnd? {
      assert ("&&" + tail)[2..] == tail;
    } else {
      ReplacePairsKeeps(TextAt(l, WithOr), tail, '&', " and ");
    }
  }

  lemma {:induction false} OrsReplaced(ls: seq<Lexeme>, gaps: seq<string>)
    requires |gaps| == |ls| + 1 && Blanks(gaps)
    ensures ReplacePairs(Spread(ls, gaps, Marked), '|', " or ") == Spread(ls, gaps, WithOr)
  {
    BlankTail(gaps);
    if ls == [] {
      ReplacePairsKeeps(gaps[0], "", '|', " or ");
    } else {
      var tail := Spread(ls[1..], gaps[1..], Marked);
      OrsReplaced(ls[1..], gaps[1..]);
      ReplacePairsKeeps(gaps[0], TextAt(ls[0], Marked) + tail, '|', " or ");
      OrPiece(ls[0], tail);
    }
  }

  lemma {:induction false} AndsReplaced(ls: seq<Lexeme>, gaps: seq<string>)
    requires |gaps| == |ls| + 1 && Blanks(gaps)
    ensures ReplacePairs(Spread(ls, gaps, WithOr), '&', " and ") == Spread(ls, gaps, WithAnd)
  {
    BlankTail(gaps);
    if ls == [] {
      ReplacePairsKeeps(gaps[0], "", '&', " and ");
    } else {
      var tail := Spread(ls[1..], gaps[1..], WithOr);
      AndsReplaced(ls[1..], gaps[1..]);
      ReplacePairsKeeps(gaps[0], TextAt(ls[0], WithOr) + tail, '&', " and ");
      AndPiece(ls[0], tail);
    }
  }

  lemma {:induction false} ReplaceMarkSkips(text: string, rest: string, word: string)
    requires '@' !in text
    ensures ReplaceMark(text + rest, word) == text + ReplaceMark(rest, word)
  {
    if text == [] {
      assert text + rest == rest;
    } else {
      assert text[0] in text && (text + rest)[1..] == text[1..] + rest;
      ReplaceMarkSkips(text[1..], rest, word);
      assert text == [text[0]] + text[1..];
    }
  }

  lemma {:induction false} ReplaceMarksSkip(text: string, rest: string, values: seq<bool>)
    requires '@' !in text
    ensures ReplaceMarks(text + rest, values) == text + ReplaceMarks(rest, values)
    decreases |values|
  {
    if values != [] {
      ReplaceMarkSkips(text, rest, BoolText(values[0]));
      ReplaceMarksSkip(text, ReplaceMark(rest, BoolText(values[0])), values[1..]);
    }
  }

  lemma MarkPiece(l: Lexeme, tail: string, values: seq<bool>, outputs: map<string, string>, event: Option<string>)
    ensures ReplaceMarks(TextAt(l, WithAnd) + tail, (if l.LTest? then [Holds(l.test, outputs, event) == Some(true)] else []) + values)
            == TextAt(l, Valued(outputs, event)) + ReplaceMarks(tail, values)
  {
    if l.LTest? {
      var v := Holds(l.test, outputs, event) == Some(true);
      assert ("@" + tail)[1..] == tail;
      assert ([v] + values)[1..] == values;
      ReplaceMarksSkip(BoolText(v), tail, values);
    } else {
      assert [] + values == values;
      ReplaceMarksSkip(TextAt(l, WithAnd), tail, values);
    }
  }

  /** Replacing the marks one at a time pairs each with its own comparison's value. */
  lemma {:induction false} MarksReplaced(ls: seq<Lexeme>, gaps: seq<string>, outputs: map<string, string>, event: Option<string>)
    requires |gaps| == |ls| + 1 && Blanks(gaps)
    ensures ReplaceMarks(Spread(ls, gaps, WithAnd), ValuesOf(ls, outputs, event)) == Spread(ls, gaps, Valued(outputs, event))
  {
    BlankTail(gaps);
    if ls == [] {
      ReplaceMarksSkip(gaps[0], "", []);
    } else {
      var tail := Spread(ls[1..], gaps[1..], WithAnd);
      MarksReplaced(ls[1..], gaps[1..], outputs, event);
      ReplaceMarksSkip(gaps[0], TextAt(ls[0], WithAnd) + tail, ValuesOf(ls, outputs, event));
      MarkPiece(ls[0], tail, ValuesOf(ls[1..], outputs, event), outputs, event);
    }
  }

  // ---- What Python reads

  function TokOf(l: Lexeme, outputs: map<string, string>, event: Option<string>): P.Tok {
    match l
    case LOpen => P.Open
    case LClose => P.Close
    case LOr => P.OrTok
    case LAnd => P.AndTok
    case LTest(test, _, _) => if Holds(test, outputs, event) == Some(true) then P.TrueTok else P.FalseTok
  }

  function ToksOf(ls: seq<Lexeme>, outputs: map<string, string>, event: Option<string>): seq<P.Tok> {
    seq(|ls|, i requires 0 <= i < |ls| => TokOf(ls[i], outputs, event))
  }

  /** No comparison directly follows another. */
  ghost predicate TestsApart(ls: seq<Lexeme>) {
    forall i | 0 <= i < |ls| - 1 :: !(ls[i].LTest? && ls[i + 1].LTest?)
  }

  /** The space an operator has on either side. */
  function Side(l: Lexeme): string {
    if l.LOr? || l.LAnd? then " " else ""
  }

  /** The spacing with the operators' own, behind `before`. */
  function Padded(before: string, ls: seq<Lexeme>, gaps: seq<string>): (r: seq<string>)
    requires |gaps| == |ls| + 1
    ensures |r| == |gaps|
    decreases |ls|
  {
    if ls == [] then [before + gaps[0]]
    else [before + gaps[0] + Side(ls[0])] + Padded(Side(ls[0]), ls[1..], gaps[1..])
  }

  lemma {:induction false} PaddedAt(before: string, ls: seq<Lexeme>, gaps: seq<string>, i: nat)
    requires |gaps| == |ls| + 1 && i < |gaps|
    ensures Padded(before, ls, gaps)[i] ==
      (if i == 0 then before else Side(ls[i - 1])) + gaps[i] + (if i < |ls| then Side(ls[i]) else "")
    decreases |ls|
  {
    if i > 0 {
      PaddedAt(Side(ls[0]), ls[1..], gaps[1..], i - 1);
    } else if ls == [] {
      assert before + gaps[0] + "" == before + gaps[0];
    }
  }

  lemma ValuedPiece(l: Lexeme, outputs: map<string, string>, event: Option<string>)
    ensures TextAt(l, Valued(outputs, event)) == Side(l) + (X.TextOf(TokOf(l, outputs, event)) + Side(l))
  {
  }

  lemma {:induction false} ValuedIsSpread(before: string, ls: seq<Lexeme>, gaps: seq<string>, outputs: map<string, string>, event: Option<string>)
    requires |gaps| == |ls| + 1
    ensures before + Spread(ls, gaps, Valued(outputs, event)) == X.Spread(ToksOf(ls, outputs, event), Padded(before, ls, gaps))
    decreases |ls|
  {
    var stage := Valued(outputs, event);
    if ls == [] {
      assert gaps[0] + "" == gaps[0] && before + gaps[0] + "" == before + gaps[0];
    } else {
      var l, tail := ls[0], Spread(ls[1..], gaps[1..], stage);
      ValuedIsSpread(Side(l), ls[1..], gaps[1..], outputs, event);
      ValuedPiece(l, outputs, event);
      PiecesJoin(before, gaps[0], Side(l), X.TextOf(TokOf(l, outputs, event)), tail);
      assert ToksOf(ls, outputs, event) == [TokOf(l, outputs, event)] + ToksOf(ls[1..], outputs, event);
    }
  }

  lemma PiecesJoin(before: string, gap: string, side: string, text: string, tail: string)
    ensures before + (gap + ((side + (text + side)) + tail)) == (before + gap + side) + (text + (side + tail))
  {
  }

  /** Parentheses left open. */
  function Depth(ls: seq<Lexeme>): int {
    if ls == [] then 0 else (if ls[0].LOpen? then 1 else if ls[0].LClose? then -1 else 0) + Depth(ls[1..])
  }

  /** Line breaks stand in parentheses, or before or behind the whole condition, and all other spacing is
      made of spaces, tabs and form feeds. */
  ghost predicate BreaksFit(ls: seq<Lexeme>, gaps: seq<string>)
    requires |gaps| == |ls| + 1
  {
    X.LeadFits(gaps[0]) && X.TrailFits(gaps[|ls|]) && InnerBreaksFit(ls, gaps)
  }

  ghost predicate InnerBreaksFit(ls: seq<Lexeme>, gaps: seq<string>)
    requires |gaps| == |ls| + 1
  {
    forall i | 0 < i < |ls| :: X.GapFits(gaps[i], Depth(ls[..i]))
  }

  lemma {:induction false} DepthOfToks(ls: seq<Lexeme>, outputs: map<string, string>, event: Option<string>)
    ensures X.Depth(ToksOf(ls, outputs, event)) == Depth(ls)
  {
    if ls != [] {
      DepthOfToks(ls[1..], outputs, event);
      assert ToksOf(ls, outputs, event)[1..] == ToksOf(ls[1..], outputs, event);
    }
  }

  /** The operators' own spaces change nothing. */
  lemma PaddingFits(a: string, g: string, b: string, depth: int)
    requires (a == "" || a == " ") && (b == "" || b == " ")
    ensures X.GapFits(a + g + b, depth) <==> X.GapFits(g, depth)
    ensures AllSpace(g) ==> AllSpace(a + g + b)
  {
    assert forall c :: c in a + g + b <==> c in a || c in g || c in b;
  }

  lemma BreaksFitPadded(ls: seq<Lexeme>, gaps: seq<string>, outputs: map<string, string>, event: Option<string>)
    requires ls != [] && |gaps| == |ls| + 1 && Side(ls[0]) == "" && Side(ls[|ls| - 1]) == ""
    ensures X.GapsFit(ToksOf(ls, outputs, event), Padded("", ls, gaps)) <==> BreaksFit(ls, gaps)
  {
    PaddedAt("", ls, gaps, 0);
    PaddedAt("", ls, gaps, |ls|);
    assert "" + gaps[0] + "" == gaps[0] && "" + gaps[|ls|] + "" == gaps[|ls|];
    InnerBreaksFitPadded(ls, gaps, outputs, event);
  }

  lemma InnerBreaksFitPadded(ls: seq<Lexeme>, gaps: seq<string>, outputs: map<string, string>, event: Option<string>)
    requires |gaps| == |ls| + 1
    ensures X.InnerGapsFit(ToksOf(ls, outputs, event), Padded("", ls, gaps)) <==> InnerBreaksFit(ls, gaps)
  {
    var ts, padded := ToksOf(ls, outputs, event), Padded("", ls, gaps);
    if X.InnerGapsFit(ts, padded) {
      forall i | 0 < i < |ls| ensures X.GapFits(gaps[i], Depth(ls[..i])) {
        InnerGap(ls, gaps, i, outputs, event);
        assert X.GapFits(padded[i], X.Depth(ts[..i]));
      }
    }
    if InnerBreaksFit(ls, gaps) {
      forall i | 0 < i < |ts| ensures X.GapFits(padded[i], X.Depth(ts[..i])) {
        InnerGap(ls, gaps, i, outputs, event);
      }
    }
  }

  lemma InnerGap(ls: seq<Lexeme>, gaps: seq<string>, i: nat, outputs: map<string, string>, event: Option<string>)
    requires 0 < i < |ls| && |gaps| == |ls| + 1
    ensures X.GapFits(Padded("", ls, gaps)[i], X.Depth(ToksOf(ls, outputs, event)[..i])) <==> X.GapFits(gaps[i], Depth(ls[..i]))
  {
    assert ToksOf(ls, outputs, event)[..i] == ToksOf(ls[..i], outputs, event);
    DepthOfToks(ls[..i], outputs, event);
    PaddedAt("", ls, gaps, i);
    PaddingFits(Side(ls[i - 1]), gaps[i], Side(ls[i]), Depth(ls[..i]));
  }

  lemma PaddedIsSpaced(ls: seq<Lexeme>, gaps: seq<string>, outputs: map<string, string>, event: Option<string>)
    requires |gaps| == |ls| + 1 && Blanks(gaps) && TestsApart(ls)
    ensures X.Spaced(ToksOf(ls, outputs, event), Padded("", ls, gaps))
  {
    var ts, padded := ToksOf(ls, outputs, event), Padded("", ls, gaps);
    forall g | g in padded ensures AllSpace(g) {
      var i :| 0 <= i < |padded| && padded[i] == g;
      PaddedAt("", ls, gaps, i);
      assert gaps[i] in gaps;
      PaddingFits(if i == 0 then "" else Side(ls[i - 1]), gaps[i], if i < |ls| then Side(ls[i]) else "", 0);
    }
    forall i | 0 < i < |ts| && X.IsWord(ts[i - 1]) && X.IsWord(ts[i]) ensures padded[i] != [] {
      PaddedAt("", ls, gaps, i);
      assert !(ls[i - 1].LTest? && ls[(i - 1) + 1].LTest?);
    }
  }

  // ---- The whole translation

  /** The condition as a tree of Python's. */
  function AsExpr(c: Cond, outputs: map<string, string>, event: Option<string>): P.Expr {
    match c
    case Compare(test, _, _) => P.Lit(Holds(test, outputs, event) == Some(true))
    case Both(l, r) => P.And(AsExpr(l, outputs, event), AsExpr(r, outputs, event))
    case Either(l, r) => P.Or(AsExpr(l, outputs, event), AsExpr(r, outputs, event))
    case Parens(x) => P.Group(AsExpr(x, outputs, event))
  }

  lemma {:induction false} LexemesRead(c: Cond, insideAnd: bool, outputs: map<string, string>, event: Option<string>)
    requires WellFormed(c, insideAnd)
    ensures var e := AsExpr(c, outputs, event);
            && ToksOf(Lexemes(c), outputs, event) == P.Toks(e)
            && P.Fits(e, if insideAnd then P.AndLevel else P.OrLevel)
            && P.Value(e) == Truth(c, outputs, event)
  {
    match c
    case Compare(_, _, _) =>
    case Both(l, r) =>
      LexemesRead(l, true, outputs, event);
      LexemesRead(r, true, outputs, event);
      ToksJoin(Lexemes(l), LAnd, Lexemes(r), outputs, event);
    case Either(l, r) =>
      LexemesRead(l, false, outputs, event);
      LexemesRead(r, false, outputs, event);
      ToksJoin(Lexemes(l), LOr, Lexemes(r), outputs, event);
    case Parens(x) =>
      LexemesRead(x, false, outputs, event);
      ToksGroup(Lexemes(x), outputs, event);
  }

  lemma ToksGroup(ls: seq<Lexeme>, outputs: map<string, string>, event: Option<string>)
    ensures ToksOf([LOpen] + ls + [LClose], outputs, event) == [P.Open] + ToksOf(ls, outputs, event) + [P.Close]
  {
  }

  lemma ToksJoin(a: seq<Lexeme>, l: Lexeme, b: seq<Lexeme>, outputs: map<string, string>, event: Option<string>)
    ensures ToksOf(a + [l] + b, outputs, event) ==
            ToksOf(a, outputs, event) + [TokOf(l, outputs, event)] + ToksOf(b, outputs, event)
  {
  }

  lemma {:induction false} LexemesAre(c: Cond, insideAnd: bool)
    requires WellFormed(c, insideAnd)
    ensures LexemesSpelled(Lexemes(c)) && TestsApart(Lexemes(c))
    ensures NeedsEvent(Lexemes(c)) <==> ComparesEvent(c)
    ensures exists l :: l in Lexemes(c) && l.LTest?
  {
    match c
    case Compare(test, before, after) => assert LTest(test, before, after) in Lexemes(c);
    case Both(l, r) =>
      LexemesAre(l, true);
      LexemesAre(r, true);
      NeedsJoin(Lexemes(l), LAnd, Lexemes(r));
    case Either(l, r) =>
      LexemesAre(l, false);
      LexemesAre(r, false);
      NeedsJoin(Lexemes(l), LOr, Lexemes(r));
    case Parens(x) =>
      LexemesAre(x, false);
      NeedsGroup(Lexemes(x));
  }

  lemma NeedsGroup(ls: seq<Lexeme>)
    requires LexemesSpelled(ls) && TestsApart(ls)
    ensures var all := [LOpen] + ls + [LClose];
            && LexemesSpelled(all) && TestsApart(all) && (NeedsEvent(all) <==> NeedsEvent(ls))
            && (forall x :: x in ls ==> x in all)
  {
    NeedsJoin([], LOpen, ls);
    assert [] + [LOpen] + ls == [LOpen] + ls;
    NeedsJoin([LOpen] + ls, LClose, []);
    assert [LOpen] + ls + [LClose] + [] == [LOpen] + ls + [LClose];
  }

  /** No operator stands first or last. */
  lemma {:induction false} EndsAreBare(c: Cond)
    ensures Side(Lexemes(c)[0]) == "" && Side(Lexemes(c)[|Lexemes(c)| - 1]) == ""
  {
    match c
    case Compare(_, _, _) =>
    case Both(l, r) =>
      EndsAreBare(l);
      EndsAreBare(r);
    case Either(l, r) =>
      EndsAreBare(l);
      EndsAreBare(r);
    case Parens(x) =>
  }

  lemma NeedsJoin(a: seq<Lexeme>, l: Lexeme, b: seq<Lexeme>)
    requires !l.LTest? && LexemesSpelled(a) && LexemesSpelled(b) && TestsApart(a) && TestsApart(b)
    ensures LexemesSpelled(a + [l] + b) && TestsApart(a + [l] + b)
    ensures NeedsEvent(a + [l] + b) <==> NeedsEvent(a) || NeedsEvent(b)
    ensures forall x :: x in a + [l] + b <==> x in a || x == l || x in b
  {
    var all := a + [l] + b;
    forall i | 0 <= i < |all| - 1 ensures !(all[i].LTest? && all[i + 1].LTest?) {
      if i < |a| - 1 {
        assert all[i] == a[i] && all[i + 1] == a[i + 1];
      } else if i > |a| {
        var j := i - |a| - 1;
        assert all[i] == b[j] && all[i + 1] == b[j + 1];
      }
    }
    if NeedsEvent(all) {
      var x :| x in all && x.LTest? && x.test.EventIs?;
      assert x in a || x in b;
    }
    if NeedsEvent(a) || NeedsEvent(b) {
      var x :| (x in a || x in b) && x.LTest? && x.test.EventIs?;
      assert x in all;
    }
  }

  lemma {:induction false} SomeValues(ls: seq<Lexeme>, outputs: map<string, string>, event: Option<string>)
    requires exists l :: l in ls && l.LTest?
    ensures ValuesOf(ls, outputs, event) != []
  {
    if !ls[0].LTest? {
      SomeValues(ls[1..], outputs, event);
    }
  }

  /** The translation is faithful: a printed condition comes to its truth value, unless it compares an
      event and none was given, or a line breaks outside parentheses, when the check says it cannot tell. */
  lemma PrintedConditionDecides(c: Cond, gaps: seq<string>, outputs: map<string, string>, event: Option<string>)
    requires WellFormed(c, false) && |gaps| == |Lexemes(c)| + 1 && Blanks(gaps)
    ensures Decide(Spread(Lexemes(c), gaps, Printed), outputs, event) ==
      if (ComparesEvent(c) && event.None?) || !BreaksFit(Lexemes(c), gaps) then Unevaluable
      else Decided(Truth(c, outputs, event))
  {
    var ls := Lexemes(c);
    LexemesAre(c, false);
    SubstitutePrinted(ls, gaps, outputs, event);
    MarkedIsStructure(ls, gaps);
    SomeValues(ls, outputs, event);
    OrsReplaced(ls, gaps);
    AndsReplaced(ls, gaps);
    MarksReplaced(ls, gaps, outputs, event);
    ValuedEvaluates(c, gaps, outputs, event);
  }

  lemma ValuedEvaluates(c: Cond, gaps: seq<string>, outputs: map<string, string>, event: Option<string>)
    requires WellFormed(c, false) && |gaps| == |Lexemes(c)| + 1 && Blanks(gaps)
    ensures P.Eval(Spread(Lexemes(c), gaps, Valued(outputs, event))) ==
      if BreaksFit(Lexemes(c), gaps) then P.Answer(Truth(c, outputs, event)) else P.Refused
  {
    var ls := Lexemes(c);
    LexemesAre(c, false);
    EndsAreBare(c);
    LexemesRead(c, false, outputs, event);
    var text := Spread(ls, gaps, Valued(outputs, event));
    assert "" + text == text;
    ValuedIsSpread("", ls, gaps, outputs, event);
    PaddedIsSpaced(ls, gaps, outputs, event);
    BreaksFitPadded(ls, gaps, outputs, event);
    X.WrittenTreeEvaluates(AsExpr(c, outputs, event), Padded("", ls, gaps));
  }
}
