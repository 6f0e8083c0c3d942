/** Deciding a pytest `-m` expression. */
module MarkerSelection {
  // Against one test's markers, again by way of Python.

  import opened Text
  import P = PythonBool
  import X = PythonText

  /** `Unsupported`: the expression holds a character that is in no token, and the check raises.
      `Fails`: the tokens are none of the expressions modelled. */
  datatype Selection = Selected(value: bool) | Unsupported | Fails

  /** The token `s` begins with: a word, or one parenthesis; empty when it begins with neither. */
  function TokenLength(s: string): (n: nat)
    ensures n <= |s|
  {
    if s == [] then 0
    else if s[0] == '(' || s[0] == ')' then 1
    else if P.IsWordStart(s[0]) then P.WordLength(s)
    else 0
  }

  /** `TOKENS.findall(s)`. */
  function FindTokens(s: string): seq<string>
    decreases |s|
  {
    var n := TokenLength(s);
    if s == [] then [] else if n == 0 then FindTokens(s[1..]) else [s[..n]] + FindTokens(s[n..])
  }

  /** `TOKENS.sub("", s)`. */
  function LeftOver(s: string): string
    decreases |s|
  {
    var n := TokenLength(s);
    if s == [] then [] else if n == 0 then [s[0]] + LeftOver(s[1..]) else LeftOver(s[n..])
  }

  predicate IsSyntax(token: string) {
    token == "not" || token == "and" || token == "or" || token == "(" || token == ")"
  }

  function RenderToken(token: string, markers: set<string>): string {
    if IsSyntax(token) then token else if token in markers then "True" else "False"
  }

  function RenderTokens(tokens: seq<string>, markers: set<string>): (rendered: seq<string>)
    ensures |rendered| == |tokens|
  {
    if tokens == [] then [] else [RenderToken(tokens[0], markers)] + RenderTokens(tokens[1..], markers)
  }

  function Select(expression: string, markers: set<string>): Selection {
    if Join(Words(LeftOver(expression)), "") != "" then Unsupported
    else
      SelectionOf(P.Eval(Join(RenderTokens(FindTokens(expression), markers), " ")))
  }

  function SelectionOf(answer: P.Answer): Selection {
    if answer.Answer? then Selected(answer.value) else Fails
  }

  method Selects(expression: string, markers: set<string>) returns (r: Selection)
    ensures r == Select(expression, markers)
  {
    var rendered := [];
    var tokens := FindTokens(expression);
    for i := 0 to |tokens|
      invariant RenderTokens(tokens, markers) == rendered + RenderTokens(tokens[i..], markers)
    {
      assert tokens[i..][1..] == tokens[i + 1..];
      rendered := rendered + [RenderToken(tokens[i], markers)];
    }
    assert rendered == RenderTokens(tokens, markers);
    if Join(Words(LeftOver(expression)), "") != "" {
      return Unsupported;
    }
    r := SelectionOf(P.Eval(Join(rendered, " ")));
  }

  // ---- Marker expressions, and how they are written

  datatype Marks =
    | Marker(name: string)
    | Not(e: Marks)
    | And(l: Marks, r: Marks)
    | Or(l: Marks, r: Marks)
    | Group(e: Marks)

  predicate IsName(name: string) {
    && name != [] && P.IsWordStart(name[0]) && (forall c | c in name :: P.IsWordChar(c))
    && !IsSyntax(name)
  }

  predicate WellFormed(e: Marks, level: P.Level) {
    match e
    case Marker(name) => IsName(name)
    case Not(x) => WellFormed(x, P.NotLevel)
    case And(l, r) => level != P.NotLevel && WellFormed(l, P.AndLevel) && WellFormed(r, P.AndLevel)
    case Or(l, r) => level == P.OrLevel && WellFormed(l, P.OrLevel) && WellFormed(r, P.OrLevel)
    case Group(x) => WellFormed(x, P.OrLevel)
  }

  predicate Truth(e: Marks, markers: set<string>) {
    match e
    case Marker(name) => name in markers
    case Not(x) => !Truth(x, markers)
    case And(l, r) => Truth(l, markers) && Truth(r, markers)
    case Or(l, r) => Truth(l, markers) || Truth(r, markers)
    case Group(x) => Truth(x, markers)
  }

  function Tokens(e: Marks): seq<string> {
    match e
    case Marker(name) => [name]
    case Not(x) => ["not"] + Tokens(x)
    case And(l, r) => Tokens(l) + ["and"] + Tokens(r)
    case Or(l, r) => Tokens(l) + ["or"] + Tokens(r)
    case Group(x) => ["("] + Tokens(x) + [")"]
  }

  /** Tokens with spacing around and between them; `|gaps| == |tokens| + 1`. */
  function Spread(tokens: seq<string>, gaps: seq<string>): string
    requires |gaps| == |tokens| + 1
  {
    gaps[0] + if tokens == [] then "" else tokens[0] + Spread(tokens[1..], gaps[1..])
  }

  predicate IsParen(token: string) {
    token == "(" || token == ")"
  }

  predicate IsToken(token: string) {
    IsParen(token) || (token != [] && P.IsWordStart(token[0]) && forall c | c in token :: P.IsWordChar(c))
  }

  /** Spacing is white space, and some stands between any two words. */
  predicate Spaced(tokens: seq<string>, gaps: seq<string>) {
    && |gaps| == |tokens| + 1
    && (forall g | g in gaps :: AllSpace(g))
    && (forall i | 0 < i < |tokens| && !IsParen(tokens[i - 1]) && !IsParen(tokens[i]) :: gaps[i] != [])
  }

  lemma SkipsSpace(c: char, rest: string)
    requires IsSpace(c)
    ensures FindTokens([c] + rest) == FindTokens(rest)
    ensures LeftOver([c] + rest) == [c] + LeftOver(rest)
  {
    assert ([c] + rest)[1..] == rest && !P.IsWordStart(c);
  }

  lemma {:induction false} SkipsSpaces(space: string, rest: string)
    requires AllSpace(space)
    ensures FindTokens(space + rest) == FindTokens(rest)
    ensures LeftOver(space + rest) == space + LeftOver(rest)
  {
    if space == [] {
      assert space + rest == rest;
    } else {
      assert space[0] in space && space + rest == [space[0]] + (space[1..] + rest);
      SkipsSpace(space[0], space[1..] + rest);
      SkipsSpaces(space[1..], rest);
      assert space == [space[0]] + space[1..];
    }
  }

  lemma TakesToken(token: string, rest: string)
    requires IsToken(token) && (IsParen(token) || rest == [] || !P.IsWordChar(rest[0]))
    ensures FindTokens(token + rest) == [token] + FindTokens(rest)
    ensures LeftOver(token + rest) == LeftOver(rest)
  {
    if !IsParen(token) {
      P.WordRuns(token, rest);
    }
    assert (token + rest)[..|token|] == token && (token + rest)[|token|..] == rest;
  }

  lemma SpacedTail(tokens: seq<string>, gaps: seq<string>)
    requires tokens != [] && Spaced(tokens, gaps)
    ensures Spaced(tokens[1..], gaps[1..]) && AllSpace(gaps[0])
  {
    assert gaps[0] in gaps;
    forall i | 0 < i < |tokens| - 1 && !IsParen(tokens[1..][i - 1]) && !IsParen(tokens[1..][i])
      ensures gaps[1..][i] != []
    {
      assert !IsParen(tokens[(i + 1) - 1]) && !IsParen(tokens[i + 1]);
    }
  }

  /** Reading a spaced line finds its tokens and leaves only white space over. */
  lemma {:induction false} ReadsTokens(tokens: seq<string>, gaps: seq<string>)
    requires Spaced(tokens, gaps) && forall t | t in tokens :: IsToken(t)
    ensures FindTokens(Spread(tokens, gaps)) == tokens
    ensures AllSpace(LeftOver(Spread(tokens, gaps)))
  {
    assert gaps[0] in gaps;
    if tokens == [] {
      SkipsSpaces(gaps[0], "");
    } else {
      var tail := Spread(tokens[1..], gaps[1..]);
      SpacedTail(tokens, gaps);
      SkipsSpaces(gaps[0], tokens[0] + tail);
      ReadsTokens(tokens[1..], gaps[1..]);
      assert tokens[0] in tokens;
      if !IsParen(tokens[0]) {
        WordEnds(tokens, gaps);
      }
      TakesToken(tokens[0], tail);
    }
  }

  /** After a word comes something that cannot extend it. */
  lemma WordEnds(tokens: seq<string>, gaps: seq<string>)
    requires tokens != [] && Spaced(tokens, gaps) && !IsParen(tokens[0])
    ensures var tail := Spread(tokens[1..], gaps[1..]); tail == [] || !P.IsWordChar(tail[0])
  {
    var tail := Spread(tokens[1..], gaps[1..]);
    assert gaps[1] in gaps;
    if gaps[1] != [] {
      assert gaps[1][0] in gaps[1] && tail[0] == gaps[1][0];
    } else if |tokens| > 1 {
      assert IsParen(tokens[1]) by {
        assert !IsParen(tokens[1 - 1]);
      }
      assert tail[0] == tokens[1][0];
    }
  }

  lemma {:induction false} NoWords(space: string)
    requires AllSpace(space)
    ensures Words(space) == []
  {
    if space != [] {
      assert space[0] in space;
      NoWords(space[1..]);
    }
  }

  // ---- The Python text

  function TokOf(token: string, markers: set<string>): P.Tok {
    if token == "(" then P.Open
    else if token == ")" then P.Close
    else if token == "not" then P.NotTok
    else if token == "and" then P.AndTok
    else if token == "or" then P.OrTok
    else if token in markers then P.TrueTok
    else P.FalseTok
  }

  function ToksOf(tokens: seq<string>, markers: set<string>): (ts: seq<P.Tok>)
    ensures |ts| == |tokens|
  {
    if tokens == [] then [] else [TokOf(tokens[0], markers)] + ToksOf(tokens[1..], markers)
  }

  lemma RendersTok(token: string, markers: set<string>)
    ensures RenderToken(token, markers) == X.TextOf(TokOf(token, markers))
  {
  }

  /** One space between tokens and none around them. */
  function OneSpace(first: string, n: nat): (gaps: seq<string>)
    ensures |gaps| == n + 1
    decreases n
  {
    if n == 0 then [""] else [first] + OneSpace(" ", n - 1)
  }

  lemma {:induction false} OneSpaceAt(first: string, n: nat, i: nat)
    requires i <= n
    ensures OneSpace(first, n)[i] == if i == n then "" else if i == 0 then first else " "
    decreases n
  {
    if 0 < n && 0 < i {
      OneSpaceAt(" ", n - 1, i - 1);
    }
  }

  lemma {:induction false} RenderedIsSpread(first: string, tokens: seq<string>, markers: set<string>)
    requires tokens != []
    ensures first + Join(RenderTokens(tokens, markers), " ") == X.Spread(ToksOf(tokens, markers), OneSpace(first, |tokens|))
    decreases |tokens|
  {
    var text, rest := RenderToken(tokens[0], markers), RenderTokens(tokens[1..], markers);
    assert ([text] + rest)[1..] == rest;
    RendersTok(tokens[0], markers);
    if rest == [] {
      assert X.Spread(ToksOf(tokens[1..], markers), [""]) == "" + "" == "";
      assert text + "" == text;
    } else {
      RenderedIsSpread(" ", tokens[1..], markers);
      SpaceBehind(text, Join(rest, " "));
    }
  }

  lemma SpaceBehind(text: string, rest: string)
    ensures text + " " + rest == text + (" " + rest)
  {
  }

  /** The rendered line is laid out as one expression. */
  lemma OneSpaceFits(ts: seq<P.Tok>)
    requires ts != []
    ensures X.Spaced(ts, OneSpace("", |ts|)) && X.GapsFit(ts, OneSpace("", |ts|))
  {
    var gaps := OneSpace("", |ts|);
    forall i | 0 <= i <= |ts| ensures gaps[i] == if i == 0 || i == |ts| then "" else " " {
      OneSpaceAt("", |ts|, i);
    }
  }

  function AsExpr(e: Marks, markers: set<string>): P.Expr {
    match e
    case Marker(name) => P.Lit(name in markers)
    case Not(x) => P.Not(AsExpr(x, markers))
    case And(l, r) => P.And(AsExpr(l, markers), AsExpr(r, markers))
    case Or(l, r) => P.Or(AsExpr(l, markers), AsExpr(r, markers))
    case Group(x) => P.Group(AsExpr(x, markers))
  }

  lemma {:induction false} ToksConcat(a: seq<string>, b: seq<string>, markers: set<string>)
    ensures ToksOf(a + b, markers) == ToksOf(a, markers) + ToksOf(b, markers)
  {
    if a == [] {
      assert a + b == b;
    } else {
      assert (a + b)[1..] == a[1..] + b;
      ToksConcat(a[1..], b, markers);
    }
  }

  lemma ToksOfOne(token: string, markers: set<string>)
    ensures ToksOf([token], markers) == [TokOf(token, markers)]
  {
    assert [token][1..] == [];
  }

  lemma ToksJoin(a: seq<string>, token: string, b: seq<string>, markers: set<string>)
    ensures ToksOf(a + [token] + b, markers) == ToksOf(a, markers) + [TokOf(token, markers)] + ToksOf(b, markers)
  {
    ToksOfOne(token, markers);
    ToksConcat(a, [token], markers);
    ToksConcat(a + [token], b, markers);
  }

  /** The rendered tokens are the tree's, word for word. */
  lemma {:induction false} TreeRead(e: Marks, level: P.Level, markers: set<string>)
    requires WellFormed(e, level)
    ensures ToksOf(Tokens(e), markers) == P.Toks(AsExpr(e, markers))
  {
    match e
    case Marker(name) => ToksOfOne(name, markers);
    case Not(x) =>
      TreeRead(x, P.NotLevel, markers);
      ToksJoin([], "not", Tokens(x), markers);
      assert [] + ["not"] + Tokens(x) == Tokens(e);
    case And(l, r) =>
      TreeRead(l, P.AndLevel, markers);
      TreeRead(r, P.AndLevel, markers);
      ToksJoin(Tokens(l), "and", Tokens(r), markers);
    case Or(l, r) =>
      TreeRead(l, P.OrLevel, markers);
      TreeRead(r, P.OrLevel, markers);
      ToksJoin(Tokens(l), "or", Tokens(r), markers);
    case Group(x) =>
      TreeRead(x, P.OrLevel, markers);
      GroupRead(Tokens(x), markers);
  }

  lemma GroupRead(tokens: seq<string>, markers: set<string>)
    ensures ToksOf(["("] + tokens + [")"], markers) == [P.Open] + ToksOf(tokens, markers) + [P.Close]
  {
    ToksJoin([], "(", tokens, markers);
    assert [] + ["("] + tokens == ["("] + tokens;
    ToksJoin(["("] + tokens, ")", [], markers);
    assert ["("] + tokens + [")"] + [] == ["("] + tokens + [")"];
  }

  lemma {:induction false} TreeMeans(e: Marks, level: P.Level, markers: set<string>)
    requires WellFormed(e, level)
    ensures P.Fits(AsExpr(e, markers), level) && P.Value(AsExpr(e, markers)) == Truth(e, markers)
    ensures Tokens(e) != [] && forall t | t in Tokens(e) :: IsToken(t)
  {
    match e
    case Marker(name) =>
    case Not(x) => TreeMeans(x, P.NotLevel, markers);
    case And(l, r) =>
      TreeMeans(l, P.AndLevel, markers);
      TreeMeans(r, P.AndLevel, markers);
    case Or(l, r) =>
      TreeMeans(l, P.OrLevel, markers);
      TreeMeans(r, P.OrLevel, markers);
    case Group(x) => TreeMeans(x, P.OrLevel, markers);
  }

  /** A marker expression, written with any spacing and any parentheses beyond those it needs, selects
      a test exactly when it is true of the test's markers. */
  lemma WrittenExpressionSelects(e: Marks, gaps: seq<string>, markers: set<string>)
    requires WellFormed(e, P.OrLevel) && Spaced(Tokens(e), gaps)
    ensures Select(Spread(Tokens(e), gaps), markers) == Selected(Truth(e, markers))
  {
    TreeRead(e, P.OrLevel, markers);
    TreeMeans(e, P.OrLevel, markers);
    ReadsTokens(Tokens(e), gaps);
    NoWords(LeftOver(Spread(Tokens(e), gaps)));
    RenderedEvaluates(e, markers);
  }

  lemma RenderedEvaluates(e: Marks, markers: set<string>)
    requires WellFormed(e, P.OrLevel)
    ensures P.Eval(Join(RenderTokens(Tokens(e), markers), " ")) == P.Answer(Truth(e, markers))
  {
    TreeRead(e, P.OrLevel, markers);
    TreeMeans(e, P.OrLevel, markers);
    var text := Join(RenderTokens(Tokens(e), markers), " ");
    assert "" + text == text;
    RenderedIsSpread("", Tokens(e), markers);
    var ts := P.Toks(AsExpr(e, markers));
    OneSpaceFits(ts);
    X.WrittenTreeEvaluates(AsExpr(e, markers), OneSpace("", |ts|));
  }

  // ---- Which expressions are read at all

  lemma {:induction false} SomeWord(s: string)
    requires !AllSpace(s)
    ensures Join(Words(s), "") != ""
  {
    if IsSpace(s[0]) {
      assert s == [s[0]] + s[1..];
      SomeWord(s[1..]);
    } else {
      assert s[..WordEnd(s)] != [];
    }
  }

  ghost predicate Made(s: string, tokens: seq<string>, gaps: seq<string>) {
    Spaced(tokens, gaps) && (forall t | t in tokens :: IsToken(t)) && s == Spread(tokens, gaps)
  }

  /** Words and parentheses, with white space around them and between any two words. */
  ghost predicate MadeOfTokens(s: string) {
    exists tokens, gaps :: Made(s, tokens, gaps)
  }

  lemma {:induction false} WordLengthIs(s: string)
    ensures var n := P.WordLength(s);
            && (forall c | c in s[..n] :: P.IsWordChar(c))
            && (n < |s| ==> !P.IsWordChar(s[n]))
  {
    if s != [] && P.IsWordChar(s[0]) {
      WordLengthIs(s[1..]);
      assert s[..P.WordLength(s)] == [s[0]] + s[1..][..P.WordLength(s) - 1];
    }
  }

  lemma TokenFound(s: string)
    requires TokenLength(s) > 0
    ensures var n := TokenLength(s);
            && IsToken(s[..n])
            && (IsParen(s[..n]) || s[n..] == [] || !P.IsWordChar(s[n..][0]))
  {
    if s[0] == '(' || s[0] == ')' {
      assert s[..1] == [s[0]];
    } else {
      WordLengthIs(s);
    }
  }

  lemma WidenFirst(c: char, s: string, tokens: seq<string>, gaps: seq<string>)
    requires IsSpace(c) && Made(s, tokens, gaps)
    ensures Made([c] + s, tokens, [[c] + gaps[0]] + gaps[1..])
  {
    var wide := [[c] + gaps[0]] + gaps[1..];
    assert wide[1..] == gaps[1..] && gaps[0] in gaps;
    forall g | g in wide ensures AllSpace(g) {
      assert g == [c] + gaps[0] || g in gaps;
    }
    var rest := if tokens == [] then "" else tokens[0] + Spread(tokens[1..], gaps[1..]);
    assert [c] + (gaps[0] + rest) == ([c] + gaps[0]) + rest;
  }

  lemma SpaceBeforeWord(s: string, tokens: seq<string>, gaps: seq<string>)
    requires Made(s, tokens, gaps) && tokens != [] && !IsParen(tokens[0]) && (s == [] || !P.IsWordChar(s[0]))
    ensures gaps[0] != []
  {
    assert tokens[0] in tokens;
    assert s == gaps[0] + (tokens[0] + Spread(tokens[1..], gaps[1..]));
    assert s[0] == (gaps[0] + tokens[0])[0];
  }

  lemma PutToken(token: string, s: string, tokens: seq<string>, gaps: seq<string>)
    requires IsToken(token) && (IsParen(token) || s == [] || !P.IsWordChar(s[0])) && Made(s, tokens, gaps)
    ensures Made(token + s, [token] + tokens, [""] + gaps)
  {
    var all, spaces := [token] + tokens, [""] + gaps;
    assert all[1..] == tokens && spaces[1..] == gaps;
    assert "" + (token + s) == token + s;
    forall i | 0 < i < |all| && !IsParen(all[i - 1]) && !IsParen(all[i]) ensures spaces[i] != [] {
      if i == 1 {
        SpaceBeforeWord(s, tokens, gaps);
      } else {
        assert !IsParen(tokens[(i - 1) - 1]) && !IsParen(tokens[i - 1]);
      }
    }
  }

  /** A text with nothing but white space between its tokens is made of the tokens found. */
  lemma {:induction false} GapsOf(s: string) returns (gaps: seq<string>)
    requires AllSpace(LeftOver(s))
    ensures Made(s, FindTokens(s), gaps)
    decreases |s|
  {
    var n := TokenLength(s);
    if s == [] {
      gaps := [""];
    } else if n == 0 {
      assert LeftOver(s)[0] == s[0] && LeftOver(s)[1..] == LeftOver(s[1..]);
      gaps := GapsOf(s[1..]);
      WidenFirst(s[0], s[1..], FindTokens(s[1..]), gaps);
      gaps := [[s[0]] + gaps[0]] + gaps[1..];
      assert [s[0]] + s[1..] == s;
    } else {
      gaps := GapsOf(s[n..]);
      TokenFound(s);
      PutToken(s[..n], s[n..], FindTokens(s[n..]), gaps);
      gaps := [""] + gaps;
      assert s[..n] + s[n..] == s;
    }
  }

  /** An expression is refused if and only if it is not made of tokens and white space. */
  lemma StrayCharacterRefused(expression: string, markers: set<string>)
    ensures Select(expression, markers) == Unsupported <==> !MadeOfTokens(expression)
  {
    var left := LeftOver(expression);
    if AllSpace(left) {
      NoWords(left);
      var gaps := GapsOf(expression);
    } else {
      SomeWord(left);
    }
    if MadeOfTokens(expression) {
      var tokens, gaps :| Made(expression, tokens, gaps);
      ReadsTokens(tokens, gaps);
    }
  }
}
