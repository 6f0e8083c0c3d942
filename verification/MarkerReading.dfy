/** A marker expression that selects is a written one. */
module MarkerReading {
  // The other half of writing and selecting: an answer is given for marker expressions and for nothing else.

  import opened Options
  import opened Text
  import P = PythonBool
  import X = PythonText
  import R = PythonReading
  import opened MarkerSelection

  lemma ToksAt(tokens: seq<string>, markers: set<string>, i: nat)
    requires i < |tokens|
    ensures ToksOf(tokens, markers)[i] == TokOf(tokens[i], markers)
  {
    if i > 0 {
      ToksAt(tokens[1..], markers, i - 1);
    }
  }

  lemma ToksSplit(tokens: seq<string>, markers: set<string>, k: nat)
    requires k <= |tokens|
    ensures ToksOf(tokens[..k], markers) == ToksOf(tokens, markers)[..k]
    ensures ToksOf(tokens[k..], markers) == ToksOf(tokens, markers)[k..]
  {
    assert tokens == tokens[..k] + tokens[k..];
    ToksConcat(tokens[..k], tokens[k..], markers);
  }

  ghost predicate AreTokens(tokens: seq<string>) {
    forall t | t in tokens :: IsToken(t)
  }

  lemma TokensPart(tokens: seq<string>, i: nat, j: nat)
    requires i <= j <= |tokens| && AreTokens(tokens)
    ensures AreTokens(tokens[i..j])
  {
    forall t | t in tokens[i..j] ensures IsToken(t) {
      assert t in tokens;
    }
  }

  /** Two halves and what stands between them. */
  lemma Halves(tokens: seq<string>, markers: set<string>, a: seq<P.Tok>, t: P.Tok, b: seq<P.Tok>)
    returns (left: seq<string>, token: string, right: seq<string>)
    requires AreTokens(tokens) && ToksOf(tokens, markers) == a + [t] + b
    ensures tokens == left + [token] + right && AreTokens(left) && AreTokens(right)
    ensures ToksOf(left, markers) == a && TokOf(token, markers) == t && ToksOf(right, markers) == b
  {
    var k, all := |a|, a + [t] + b;
    assert all[..k] == a && all[k] == t && all[k + 1..] == b;
    left, token, right := tokens[..k], tokens[k], tokens[k + 1..];
    ToksAt(tokens, markers, k);
    ToksSplit(tokens, markers, k);
    ToksSplit(tokens, markers, k + 1);
    TokensPart(tokens, 0, k);
    TokensPart(tokens, k + 1, |tokens|);
    assert tokens[..k] == tokens[0..k] && tokens[k + 1..] == tokens[k + 1..|tokens|];
  }

  lemma SyntaxOf(token: string, markers: set<string>)
    ensures TokOf(token, markers) == P.NotTok <==> token == "not"
    ensures TokOf(token, markers) == P.AndTok <==> token == "and"
    ensures TokOf(token, markers) == P.OrTok <==> token == "or"
    ensures TokOf(token, markers) == P.Open <==> token == "("
    ensures TokOf(token, markers) == P.Close <==> token == ")"
    ensures TokOf(token, markers) == P.TrueTok ==> token in markers
    ensures TokOf(token, markers) == P.FalseTok ==> token !in markers
  {
  }

  lemma {:induction false} MarksOf(e: P.Expr, level: P.Level, tokens: seq<string>, markers: set<string>) returns (m: Marks)
    requires P.Fits(e, level) && P.Toks(e) == ToksOf(tokens, markers) && AreTokens(tokens)
    ensures Tokens(m) == tokens && WellFormed(m, level)
    decreases e
  {
    match e
    case Lit(b) =>
      m := MarkerOf(e, tokens, markers);
    case Not(x) =>
      assert P.Toks(e) == [] + [P.NotTok] + P.Toks(x);
      var left, token, right := Halves(tokens, markers, [], P.NotTok, P.Toks(x));
      SyntaxOf(token, markers);
      var y := MarksOf(x, P.NotLevel, right, markers);
      m := Not(y);
      assert left == [];
    case And(a, b) =>
      var left, token, right := Halves(tokens, markers, P.Toks(a), P.AndTok, P.Toks(b));
      SyntaxOf(token, markers);
      var x := MarksOf(a, P.AndLevel, left, markers);
      var y := MarksOf(b, P.AndLevel, right, markers);
      m := And(x, y);
    case Or(a, b) =>
      var left, token, right := Halves(tokens, markers, P.Toks(a), P.OrTok, P.Toks(b));
      SyntaxOf(token, markers);
      var x := MarksOf(a, P.OrLevel, left, markers);
      var y := MarksOf(b, P.OrLevel, right, markers);
      m := Or(x, y);
    case Group(a) =>
      var inner := InParens(tokens, markers, P.Toks(a));
      var x := MarksOf(a, P.OrLevel, inner, markers);
      m := Group(x);
  }

  lemma MarkerOf(e: P.Expr, tokens: seq<string>, markers: set<string>) returns (m: Marks)
    requires e.Lit? && P.Toks(e) == ToksOf(tokens, markers) && AreTokens(tokens)
    ensures Tokens(m) == tokens && WellFormed(m, P.NotLevel) && m.Marker?
  {
    var token := tokens[0];
    ToksAt(tokens, markers, 0);
    SyntaxOf(token, markers);
    assert token in tokens && tokens == [token];
    m := Marker(token);
  }

  lemma InParens(tokens: seq<string>, markers: set<string>, a: seq<P.Tok>) returns (inner: seq<string>)
    requires AreTokens(tokens) && ToksOf(tokens, markers) == [P.Open] + a + [P.Close]
    ensures tokens == ["("] + inner + [")"] && AreTokens(inner) && ToksOf(inner, markers) == a
  {
    assert [P.Open] + a + [P.Close] == [] + [P.Open] + (a + [P.Close]);
    var left, open, rest := Halves(tokens, markers, [], P.Open, a + [P.Close]);
    assert left == [];
    assert a + [P.Close] == a + [P.Close] + [];
    var close, right;
    inner, close, right := Halves(rest, markers, a, P.Close, []);
    assert right == [];
    SyntaxOf(open, markers);
    SyntaxOf(close, markers);
  }

  lemma NothingIsNone(tokens: seq<string>, markers: set<string>)
    ensures tokens == [] ==> !P.Eval(Join(RenderTokens(tokens, markers), " ")).Answer?
  {
    assert P.Lex("") == Some([]);
  }

  /** The tokens rendered as Python's, where they are an expression. */
  lemma RenderedIsRead(tokens: seq<string>, markers: set<string>) returns (m: Marks)
    requires AreTokens(tokens) && P.Eval(Join(RenderTokens(tokens, markers), " ")).Answer?
    ensures Tokens(m) == tokens && WellFormed(m, P.OrLevel)
  {
    var text, ts := Join(RenderTokens(tokens, markers), " "), ToksOf(tokens, markers);
    NothingIsNone(tokens, markers);
    assert "" + text == text;
    RenderedIsSpread("", tokens, markers);
    OneSpaceFits(ts);
    X.LexSpread(ts, OneSpace("", |ts|));
    var e := R.TreeOf(ts);
    m := MarksOf(e, P.OrLevel, tokens, markers);
  }

  /** The text writes the expression. */
  ghost predicate Writes(s: string, m: Marks) {
    WellFormed(m, P.OrLevel) && exists gaps :: Spaced(Tokens(m), gaps) && s == Spread(Tokens(m), gaps)
  }

  /** A text selects a test, or does not, if and only if it writes an expression that is true of the test's markers,
      or is not. */
  lemma SelectedIff(s: string, markers: set<string>, v: bool)
    ensures Select(s, markers) == Selected(v) <==> exists m :: Writes(s, m) && Truth(m, markers) == v
  {
    if Select(s, markers) == Selected(v) {
      if !AllSpace(LeftOver(s)) {
        SomeWord(LeftOver(s));
      }
      var gaps := GapsOf(s);
      var m := RenderedIsRead(FindTokens(s), markers);
      WrittenExpressionSelects(m, gaps, markers);
      assert Writes(s, m);
    }
    forall m | Writes(s, m) && Truth(m, markers) == v ensures Select(s, markers) == Selected(v) {
      var gaps :| Spaced(Tokens(m), gaps) && s == Spread(Tokens(m), gaps);
      WrittenExpressionSelects(m, gaps, markers);
    }
  }
}
