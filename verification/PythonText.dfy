/** Python's boolean expressions as text. */
module PythonText {
  // However tokens are spaced, the text is read as those tokens, and it is laid out as one expression
  // exactly when its line breaks stand in parentheses or around the whole.

  import opened Options
  import opened Text
  import opened PythonBool

  function TextOf(t: Tok): (s: string)
    ensures s != []
  {
    match t
    case TrueTok => "True"
    case FalseTok => "False"
    case NotTok => "not"
    case AndTok => "and"
    case OrTok => "or"
    case Open => "("
    case Close => ")"
  }

  predicate IsWord(t: Tok) {
    t != Open && t != Close
  }

  /** Tokens with the spacing around and between them; `|gaps| == |ts| + 1`. */
  function Spread(ts: seq<Tok>, gaps: seq<string>): string
    requires |gaps| == |ts| + 1
  {
    gaps[0] + if ts == [] then "" else TextOf(ts[0]) + Spread(ts[1..], gaps[1..])
  }

  /** Spacing is white space, and some stands between any two words. */
  ghost predicate Spaced(ts: seq<Tok>, gaps: seq<string>) {
    && |gaps| == |ts| + 1
    && (forall g | g in gaps :: AllSpace(g))
    && (forall i | 0 < i < |ts| && IsWord(ts[i - 1]) && IsWord(ts[i]) :: gaps[i] != [])
  }

  lemma SpacedTail(ts: seq<Tok>, gaps: seq<string>)
    requires ts != [] && Spaced(ts, gaps)
    ensures Spaced(ts[1..], gaps[1..]) && AllSpace(gaps[0])
  {
    assert gaps[0] in gaps;
    forall i | 0 < i < |ts| - 1 && IsWord(ts[1..][i - 1]) && IsWord(ts[1..][i]) ensures gaps[1..][i] != [] {
      assert IsWord(ts[(i + 1) - 1]) && IsWord(ts[i + 1]);
    }
  }

  // ---- The tokens read

  lemma {:induction false} LexSkips(space: string, rest: string)
    requires AllSpace(space)
    ensures Lex(space + rest) == Lex(rest)
  {
    if space == [] {
      assert space + rest == rest;
    } else {
      assert space[0] in space && (space + rest)[1..] == space[1..] + rest;
      LexSkips(space[1..], rest);
    }
  }

  lemma LexParen(t: Tok, rest: string)
    requires !IsWord(t)
    ensures Lex(TextOf(t) + rest) == Before(t, Lex(rest))
  {
    assert (TextOf(t) + rest)[1..] == rest;
  }

  lemma TextIsWord(t: Tok)
    requires IsWord(t)
    ensures var word := TextOf(t);
            && WordTok(word) == Some(t) && IsWordStart(word[0]) && (forall c | c in word :: IsWordChar(c))
  {
  }

  lemma LexWord(t: Tok, rest: string)
    requires IsWord(t) && (rest != [] ==> !IsWordChar(rest[0]))
    ensures Lex(TextOf(t) + rest) == Before(t, Lex(rest))
  {
    TextIsWord(t);
    LexWordText(TextOf(t), rest);
  }

  lemma LexWordText(word: string, rest: string)
    requires word != [] && IsWordStart(word[0]) && WordTok(word).Some?
    requires (forall c | c in word :: IsWordChar(c)) && (rest != [] ==> !IsWordChar(rest[0]))
    ensures Lex(word + rest) == Before(WordTok(word).value, Lex(rest))
  {
    WordRuns(word, rest);
    assert (word + rest)[..|word|] == word && (word + rest)[|word|..] == rest;
  }

  /** After a word comes something that cannot extend it. */
  lemma WordEnds(ts: seq<Tok>, gaps: seq<string>)
    requires ts != [] && Spaced(ts, gaps) && IsWord(ts[0])
    ensures var tail := Spread(ts[1..], gaps[1..]); tail != [] ==> !IsWordChar(tail[0])
  {
    var tail := Spread(ts[1..], gaps[1..]);
    assert gaps[1] in gaps;
    if gaps[1] != [] {
      assert gaps[1][0] in gaps[1] && tail[0] == gaps[1][0];
    } else if |ts| > 1 {
      assert !IsWord(ts[1]) by {
        assert IsWord(ts[1 - 1]);
      }
      assert tail[0] == TextOf(ts[1])[0];
    }
  }

  lemma {:induction false} LexSpread(ts: seq<Tok>, gaps: seq<string>)
    requires Spaced(ts, gaps)
    ensures Lex(Spread(ts, gaps)) == Some(ts)
  {
    assert gaps[0] in gaps;
    if ts == [] {
      LexSkips(gaps[0], "");
    } else {
      var tail := Spread(ts[1..], gaps[1..]);
      SpacedTail(ts, gaps);
      LexSkips(gaps[0], TextOf(ts[0]) + tail);
      LexSpread(ts[1..], gaps[1..]);
      if IsWord(ts[0]) {
        WordEnds(ts, gaps);
        LexWord(ts[0], tail);
      } else {
        LexParen(ts[0], tail);
      }
      assert [ts[0]] + ts[1..] == ts;
    }
  }

  // ---- The lines

  /** Spaces, tabs, form feeds and line breaks. */
  predicate Free(g: string) {
    forall c | c in g :: IsLayout(c)
  }

  /** The same without line breaks. */
  predicate Flat(g: string) {
    forall c | c in g :: IsLayout(c) && !IsBreak(c)
  }

  predicate Indented(g: string) {
    forall c | c in g :: IsIndent(c)
  }

  /** No indentation is left open at the end. */
  predicate EndsFlush(g: string) {
    g == [] || !IsIndent(g[|g| - 1])
  }

  /** Before the first token: indentation, or empty lines and none. */
  predicate LeadFits(g: string) {
    Indented(g) || (Free(g) && EndsFlush(g))
  }

  /** Behind the last one. */
  predicate TrailFits(g: string) {
    Flat(g) || (Free(g) && EndsFlush(g))
  }

  /** Between two tokens with `depth` parentheses open. */
  predicate GapFits(g: string, depth: int) {
    if depth > 0 then Free(g) else Flat(g)
  }

  function Delta(t: Tok): int {
    match t
    case Open => 1
    case Close => -1
    case _ => 0
  }

  /** Parentheses left open. */
  function Depth(ts: seq<Tok>): int {
    if ts == [] then 0 else Delta(ts[0]) + Depth(ts[1..])
  }

  /** Parentheses match. */
  ghost predicate Closed(ts: seq<Tok>) {
    Depth(ts) == 0 && forall i | 0 <= i <= |ts| :: Depth(ts[..i]) >= 0
  }

  /** Line breaks stand in parentheses, or before or behind everything. */
  ghost predicate GapsFit(ts: seq<Tok>, gaps: seq<string>)
    requires |gaps| == |ts| + 1
  {
    LeadFits(gaps[0]) && TrailFits(gaps[|ts|]) && InnerGapsFit(ts, gaps)
  }

  ghost predicate InnerGapsFit(ts: seq<Tok>, gaps: seq<string>)
    requires |gaps| == |ts| + 1
  {
    forall i | 0 < i < |ts| :: GapFits(gaps[i], Depth(ts[..i]))
  }

  /** The same from the first gap on, with `depth` parentheses open before it. */
  predicate RestFits(ts: seq<Tok>, gaps: seq<string>, depth: int)
    requires |gaps| == |ts| + 1
  {
    if ts == [] then depth == 0 && TrailFits(gaps[0])
    else GapFits(gaps[0], depth) && depth + Delta(ts[0]) >= 0 && RestFits(ts[1..], gaps[1..], depth + Delta(ts[0]))
  }

  lemma {:induction false} WalkJoin(p: Place, a: string, b: string)
    ensures Walk(p, a + b) == match Walk(p, a) case None => None case Some(q) => Walk(q, b)
    decreases |a|
  {
    if a == [] {
      assert a + b == b;
    } else {
      assert (a + b)[1..] == a[1..] + b;
      if Step(p, a[0]).Some? {
        WalkJoin(Step(p, a[0]).value, a[1..], b);
      }
    }
  }

  lemma Split(g: string)
    requires g != []
    ensures Free(g) <==> IsLayout(g[0]) && Free(g[1..])
    ensures Flat(g) <==> IsLayout(g[0]) && !IsBreak(g[0]) && Flat(g[1..])
    ensures Indented(g) <==> IsIndent(g[0]) && Indented(g[1..])
    ensures AllSpace(g) ==> IsSpace(g[0]) && AllSpace(g[1..])
    ensures |g| > 1 ==> EndsFlush(g) == EndsFlush(g[1..])
  {
    assert g == [g[0]] + g[1..];
    assert g[0] in g;
    forall c | c in g[1..] ensures c in g {
    }
  }

  lemma {:induction false} WalkInParens(p: Place, g: string)
    requires p.depth > 0 && AllSpace(g)
    ensures Walk(p, g) == if Free(g) then Some(p) else None
  {
    if g != [] {
      Split(g);
      WalkInParens(p, g[1..]);
    }
  }

  lemma {:induction false} WalkIndenting(flush: bool, over: bool, g: string)
    requires AllSpace(g)
    ensures Walk(Place(0, Indenting(flush), over), g) ==
      if Free(g) then Some(Place(0, Indenting(if g == [] then flush else EndsFlush(g)), over)) else None
    decreases |g|
  {
    if g != [] {
      Split(g);
      WalkIndenting(!IsIndent(g[0]), over, g[1..]);
    }
  }

  lemma {:induction false} WalkOnLine(g: string)
    requires AllSpace(g)
    ensures Walk(Place(0, Inside, false), g) ==
      if !Free(g) then None
      else if Flat(g) then Some(Place(0, Inside, false))
      else Some(Place(0, Indenting(EndsFlush(g)), true))
  {
    if g != [] {
      Split(g);
      if IsBreak(g[0]) {
        WalkIndenting(true, true, g[1..]);
      } else {
        WalkOnLine(g[1..]);
      }
    }
  }

  lemma {:induction false} WalkWord(d: nat, word: string)
    requires forall c | c in word :: IsWordChar(c)
    ensures Walk(Place(d, Inside, false), word) == Some(Place(d, Inside, false))
  {
    if word != [] {
      assert word[0] in word;
      WalkWord(d, word[1..]);
    }
  }

  lemma WalkTok(d: nat, line: Line, t: Tok)
    requires line != Indenting(false)
    ensures Walk(Place(d, line, false), TextOf(t)) ==
      if d + Delta(t) < 0 then None else Some(Place(d + Delta(t), Inside, false))
  {
    var text := TextOf(t);
    if IsWord(t) {
      WalkWord(d, text[1..]);
    } else {
      assert text[1..] == "";
    }
  }

  /** No token may stand behind a line break outside parentheses, or be indented. */
  lemma NoTokenAfter(p: Place, t: Tok)
    requires p.over || p.line == Indenting(false)
    ensures Walk(p, TextOf(t)) == None
  {
  }

  lemma {:induction false} RestEnds(ts: seq<Tok>, gaps: seq<string>, d: nat)
    requires |gaps| == |ts| + 1 && forall g | g in gaps :: AllSpace(g)
    ensures Ends(Walk(Place(d, Inside, false), Spread(ts, gaps))) <==> RestFits(ts, gaps, d)
  {
    assert gaps[0] in gaps;
    var p := Place(d, Inside, false);
    GapEnds(d, gaps[0]);
    if ts == [] {
      assert Spread(ts, gaps) == gaps[0];
    } else {
      var tail := Spread(ts[1..], gaps[1..]);
      WalkJoin(p, gaps[0], TextOf(ts[0]) + tail);
      forall g | g in gaps[1..] ensures g in gaps {
      }
      if Walk(p, gaps[0]).Some? {
        TokEnds(Walk(p, gaps[0]).value, d, ts[0], tail);
      }
      if d + Delta(ts[0]) >= 0 {
        RestEnds(ts[1..], gaps[1..], d + Delta(ts[0]));
      }
    }
  }

  /** White space behind a token: nothing changes where it fits between two; and where it fits at the end. */
  lemma GapEnds(d: nat, g: string)
    requires AllSpace(g)
    ensures var p := Walk(Place(d, Inside, false), g);
            && (Ends(p) <==> d == 0 && TrailFits(g))
            && (GapFits(g, d) ==> p == Some(Place(d, Inside, false)))
            && (!GapFits(g, d) && p.Some? ==> p.value.over)
  {
    if d > 0 {
      WalkInParens(Place(d, Inside, false), g);
    } else {
      WalkOnLine(g);
      if Flat(g) {
        assert Free(g);
      }
    }
  }

  lemma TokEnds(p: Place, d: nat, t: Tok, tail: string)
    requires p == Place(d, Inside, false) || p.over
    ensures Walk(p, TextOf(t) + tail) ==
      if p.over || d + Delta(t) < 0 then None else Walk(Place(d + Delta(t), Inside, false), tail)
  {
    WalkJoin(p, TextOf(t), tail);
    if p.over {
      NoTokenAfter(p, t);
    } else {
      WalkTok(d, Inside, t);
    }
  }

  lemma {:induction false} SkipsIndent(g: string, rest: string)
    requires rest == [] || !IsIndent(rest[0])
    ensures SkipIndent(g + rest) == SkipIndent(g) + rest
    ensures Free(SkipIndent(g)) <==> Free(g)
    ensures SkipIndent(g) == [] <==> Indented(g)
    ensures SkipIndent(g) != [] ==> EndsFlush(SkipIndent(g)) == EndsFlush(g)
    ensures AllSpace(g) ==> AllSpace(SkipIndent(g))
  {
    if g == [] {
      assert g + rest == rest;
    } else {
      assert (g + rest)[1..] == g[1..] + rest;
      Split(g);
      SkipsIndent(g[1..], rest);
      assert IsIndent(g[0]) && |g| == 1 ==> SkipIndent(g) == [];
    }
  }

  lemma LaidOutStarts(g: string, t: Tok, tail: string)
    requires AllSpace(g)
    ensures LaidOut(g + (TextOf(t) + tail)) <==>
      LeadFits(g) && Delta(t) >= 0 && Ends(Walk(Place(Delta(t), Inside, false), tail))
  {
    var text := TextOf(t) + tail;
    SkipsIndent(g, text);
    var lead := SkipIndent(g);
    WalkIndenting(true, false, lead);
    WalkJoin(Place(0, Indenting(true), false), lead, text);
    assert Indented(g) ==> Free(lead);
    var flush := lead == [] || EndsFlush(lead);
    WalkJoin(Place(0, Indenting(flush), false), TextOf(t), tail);
    if flush {
      WalkTok(0, Indenting(true), t);
    } else {
      NoTokenAfter(Place(0, Indenting(false), false), t);
    }
  }

  /** Every gap fits that has a token behind it, with `depth` parentheses open before the first. */
  ghost predicate BetweenFit(ts: seq<Tok>, gaps: seq<string>, depth: int)
    requires |gaps| == |ts| + 1
  {
    forall i | 0 <= i < |ts| :: GapFits(gaps[i], depth + Depth(ts[..i]))
  }

  ghost predicate NeverBelow(ts: seq<Tok>, depth: int) {
    forall i | 0 < i <= |ts| :: depth + Depth(ts[..i]) >= 0
  }

  lemma DepthBehindFirst(ts: seq<Tok>, i: nat)
    requires i < |ts|
    ensures Depth(ts[..i + 1]) == Delta(ts[0]) + Depth(ts[1..][..i])
  {
    assert ts[..i + 1][1..] == ts[1..][..i];
  }

  lemma BetweenFitStep(ts: seq<Tok>, gaps: seq<string>, depth: int)
    requires ts != [] && |gaps| == |ts| + 1
    ensures BetweenFit(ts, gaps, depth) <==>
      GapFits(gaps[0], depth) && BetweenFit(ts[1..], gaps[1..], depth + Delta(ts[0]))
  {
    assert ts[..0] == [];
    if BetweenFit(ts, gaps, depth) {
      forall i | 0 <= i < |ts[1..]| ensures GapFits(gaps[1..][i], depth + Delta(ts[0]) + Depth(ts[1..][..i])) {
        DepthBehindFirst(ts, i);
        assert GapFits(gaps[i + 1], depth + Depth(ts[..i + 1]));
      }
    }
    if GapFits(gaps[0], depth) && BetweenFit(ts[1..], gaps[1..], depth + Delta(ts[0])) {
      forall i | 0 <= i < |ts| ensures GapFits(gaps[i], depth + Depth(ts[..i])) {
        if i > 0 {
          DepthBehindFirst(ts, i - 1);
          assert GapFits(gaps[1..][i - 1], depth + Delta(ts[0]) + Depth(ts[1..][..i - 1]));
        }
      }
    }
  }

  lemma NeverBelowStep(ts: seq<Tok>, depth: int)
    requires ts != []
    ensures NeverBelow(ts, depth) <==> depth + Delta(ts[0]) >= 0 && NeverBelow(ts[1..], depth + Delta(ts[0]))
  {
    DepthBehindFirst(ts, 0);
    assert ts[1..][..0] == [];
    if NeverBelow(ts, depth) {
      assert depth + Depth(ts[..1]) >= 0;
      forall i | 0 < i <= |ts[1..]| ensures depth + Delta(ts[0]) + Depth(ts[1..][..i]) >= 0 {
        DepthBehindFirst(ts, i);
        assert depth + Depth(ts[..i + 1]) >= 0;
      }
    }
    if depth + Delta(ts[0]) >= 0 && NeverBelow(ts[1..], depth + Delta(ts[0])) {
      forall i | 0 < i <= |ts| ensures depth + Depth(ts[..i]) >= 0 {
        DepthBehindFirst(ts, i - 1);
      }
    }
  }

  lemma {:induction false} RestIsGaps(ts: seq<Tok>, gaps: seq<string>, depth: int)
    requires |gaps| == |ts| + 1
    ensures RestFits(ts, gaps, depth) <==>
      depth + Depth(ts) == 0 && TrailFits(gaps[|ts|]) && BetweenFit(ts, gaps, depth) && NeverBelow(ts, depth)
  {
    if ts != [] {
      RestIsGaps(ts[1..], gaps[1..], depth + Delta(ts[0]));
      BetweenFitStep(ts, gaps, depth);
      NeverBelowStep(ts, depth);
    }
  }

  /** Tokens under any spacing are laid out as one expression if and only if the parentheses match and
      the spacing fits. */
  lemma LaidOutIff(ts: seq<Tok>, gaps: seq<string>)
    requires ts != [] && Spaced(ts, gaps)
    ensures LaidOut(Spread(ts, gaps)) <==> Closed(ts) && GapsFit(ts, gaps)
  {
    SpacedTail(ts, gaps);
    LaidOutStarts(gaps[0], ts[0], Spread(ts[1..], gaps[1..]));
    if Delta(ts[0]) >= 0 {
      RestEnds(ts[1..], gaps[1..], Delta(ts[0]));
    }
    RestIsGaps(ts[1..], gaps[1..], Delta(ts[0]));
    FirstApart(ts, gaps);
  }

  lemma FirstApart(ts: seq<Tok>, gaps: seq<string>)
    requires ts != [] && |gaps| == |ts| + 1
    ensures var rest, d := ts[1..], Delta(ts[0]);
      Closed(ts) && GapsFit(ts, gaps) <==>
      && LeadFits(gaps[0]) && d >= 0 && d + Depth(rest) == 0 && TrailFits(gaps[|ts|])
      && BetweenFit(rest, gaps[1..], d) && NeverBelow(rest, d)
  {
    NeverBelowStep(ts, 0);
    assert ts[..0] == [];
    assert Closed(ts) <==> Depth(ts) == 0 && NeverBelow(ts, 0);
    InnerFit(ts, gaps);
  }

  lemma InnerFit(ts: seq<Tok>, gaps: seq<string>)
    requires ts != [] && |gaps| == |ts| + 1
    ensures InnerGapsFit(ts, gaps) <==> BetweenFit(ts[1..], gaps[1..], Delta(ts[0]))
  {
    if InnerGapsFit(ts, gaps) {
      forall i | 0 <= i < |ts[1..]| ensures GapFits(gaps[1..][i], Delta(ts[0]) + Depth(ts[1..][..i])) {
        DepthBehindFirst(ts, i);
        assert GapFits(gaps[i + 1], Depth(ts[..i + 1]));
      }
    }
    if BetweenFit(ts[1..], gaps[1..], Delta(ts[0])) {
      forall i | 0 < i < |ts| ensures GapFits(gaps[i], Depth(ts[..i])) {
        DepthBehindFirst(ts, i - 1);
        assert GapFits(gaps[1..][i - 1], Delta(ts[0]) + Depth(ts[1..][..i - 1]));
      }
    }
  }

  // ---- Trees

  lemma {:induction false} DepthJoin(a: seq<Tok>, b: seq<Tok>)
    ensures Depth(a + b) == Depth(a) + Depth(b)
  {
    if a == [] {
      assert a + b == b;
    } else {
      assert (a + b)[1..] == a[1..] + b;
      DepthJoin(a[1..], b);
    }
  }

  lemma ClosedJoin(a: seq<Tok>, b: seq<Tok>)
    requires Closed(a) && Closed(b)
    ensures Closed(a + b)
  {
    DepthJoin(a, b);
    forall i | 0 <= i <= |a + b| ensures Depth((a + b)[..i]) >= 0 {
      if i <= |a| {
        assert (a + b)[..i] == a[..i];
      } else {
        assert (a + b)[..i] == a + b[..i - |a|];
        DepthJoin(a, b[..i - |a|]);
      }
    }
  }

  lemma ClosedGroup(a: seq<Tok>)
    requires Closed(a)
    ensures Closed([Open] + a + [Close])
  {
    var all := [Open] + a + [Close];
    forall i | 0 <= i <= |all| ensures Depth(all[..i]) >= 0 && (i == |all| ==> Depth(all[..i]) == 0) {
      if 0 < i <= |a| + 1 {
        assert all[..i] == [Open] + a[..i - 1];
        DepthJoin([Open], a[..i - 1]);
      } else if i == |all| {
        assert all[..i] == [Open] + a + [Close];
        DepthJoin([Open] + a, [Close]);
        DepthJoin([Open], a);
      }
    }
    assert all[..|all|] == all;
  }

  lemma ClosedOne(t: Tok)
    requires Delta(t) == 0
    ensures Closed([t])
  {
    forall i | 0 <= i <= 1 ensures Depth([t][..i]) == 0 {
      assert i == 1 ==> [t][..i] == [t];
    }
    assert [t][..1] == [t];
  }

  lemma {:induction false} TreeCloses(e: Expr)
    ensures Closed(Toks(e)) && Toks(e) != []
  {
    match e
    case Lit(b) => ClosedOne(if b then TrueTok else FalseTok);
    case Not(x) =>
      TreeCloses(x);
      ClosedOne(NotTok);
      ClosedJoin([NotTok], Toks(x));
    case And(l, r) =>
      TreeCloses(l);
      TreeCloses(r);
      ClosedOne(AndTok);
      ClosedJoin(Toks(l), [AndTok]);
      ClosedJoin(Toks(l) + [AndTok], Toks(r));
    case Or(l, r) =>
      TreeCloses(l);
      TreeCloses(r);
      ClosedOne(OrTok);
      ClosedJoin(Toks(l), [OrTok]);
      ClosedJoin(Toks(l) + [OrTok], Toks(r));
    case Group(x) =>
      TreeCloses(x);
      ClosedGroup(Toks(x));
  }

  /** Python evaluates a written tree to its value if and only if its line breaks stand in parentheses or
      around the whole, and refuses it otherwise. */
  lemma WrittenTreeEvaluates(e: Expr, gaps: seq<string>)
    requires Fits(e, OrLevel) && Spaced(Toks(e), gaps)
    ensures Eval(Spread(Toks(e), gaps)) == if GapsFit(Toks(e), gaps) then Answer(Value(e)) else Refused
  {
    TreeCloses(e);
    LaidOutIff(Toks(e), gaps);
    LexSpread(Toks(e), gaps);
    PrintedTreeEvaluates(e);
  }
}
