/** What Python reads is a written tree. */
module PythonReading {
  // The other half of writing and evaluating: whatever `eval` answers for, and nothing else, is a tree written
  // with white space that fits, and the answer is the tree's value.

  import opened Options
  import opened Text
  import opened PythonBool
  import opened PythonText

  // ---- From tokens to a tree

  lemma FitsLooser(e: Expr)
    ensures Fits(e, NotLevel) ==> Fits(e, AndLevel)
    ensures Fits(e, AndLevel) ==> Fits(e, OrLevel)
  {
  }

  lemma Regroups(a: seq<Tok>, t: Tok, b: seq<Tok>, rest: seq<Tok>, ts: seq<Tok>)
    requires ts != [] && ts[0] == t && ts[1..] == b + rest
    ensures a + ts == (a + [t] + b) + rest
  {
    assert ts == [t] + ts[1..];
  }

  lemma {:induction false} ReadNot(ts: seq<Tok>) returns (e: Expr, rest: seq<Tok>)
    requires ParseNot(ts).Some?
    ensures Fits(e, NotLevel) && Toks(e) + rest == ts && ParseNot(ts) == Some((Value(e), rest))
    decreases |ts|, 1
  {
    assert ts == [ts[0]] + ts[1..];
    match ts[0]
    case TrueTok => e, rest := Lit(true), ts[1..];
    case FalseTok => e, rest := Lit(false), ts[1..];
    case NotTok =>
      var x;
      x, rest := ReadNot(ts[1..]);
      e := Not(x);
      assert Toks(e) + rest == [NotTok] + (Toks(x) + rest);
    case Open =>
      var x, after := ReadOr(ts[1..]);
      e, rest := Group(x), after[1..];
      assert after == [Close] + rest;
      assert Toks(e) + rest == [Open] + (Toks(x) + ([Close] + rest));
  }

  lemma {:induction false} ReadAnd(ts: seq<Tok>) returns (e: Expr, rest: seq<Tok>)
    requires ParseAnd(ts).Some?
    ensures Fits(e, AndLevel) && Toks(e) + rest == ts && ParseAnd(ts) == Some((Value(e), rest))
    decreases |ts|, 3
  {
    var first, tail := ReadNot(ts);
    FitsLooser(first);
    e, rest := ReadAndTail(first, tail);
  }

  lemma {:induction false} ReadAndTail(first: Expr, ts: seq<Tok>) returns (e: Expr, rest: seq<Tok>)
    requires Fits(first, AndLevel) && AndTail(Value(first), ts).Some?
    ensures Fits(e, AndLevel) && Toks(e) + rest == Toks(first) + ts && AndTail(Value(first), ts) == Some((Value(e), rest))
    decreases |ts|, 2
  {
    if ts != [] && ts[0] == AndTok {
      var second, tail := ReadNot(ts[1..]);
      FitsLooser(second);
      var both := And(first, second);
      Regroups(Toks(first), AndTok, Toks(second), tail, ts);
      e, rest := ReadAndTail(both, tail);
    } else {
      e, rest := first, ts;
    }
  }

  lemma {:induction false} ReadOr(ts: seq<Tok>) returns (e: Expr, rest: seq<Tok>)
    requires ParseOr(ts).Some?
    ensures Fits(e, OrLevel) && Toks(e) + rest == ts && ParseOr(ts) == Some((Value(e), rest))
    decreases |ts|, 5
  {
    var first, tail := ReadAnd(ts);
    FitsLooser(first);
    e, rest := ReadOrTail(first, tail);
  }

  lemma {:induction false} ReadOrTail(first: Expr, ts: seq<Tok>) returns (e: Expr, rest: seq<Tok>)
    requires Fits(first, OrLevel) && OrTail(Value(first), ts).Some?
    ensures Fits(e, OrLevel) && Toks(e) + rest == Toks(first) + ts && OrTail(Value(first), ts) == Some((Value(e), rest))
    decreases |ts|, 4
  {
    if ts != [] && ts[0] == OrTok {
      var second, tail := ReadAnd(ts[1..]);
      FitsLooser(second);
      var both := Or(first, second);
      Regroups(Toks(first), OrTok, Toks(second), tail, ts);
      e, rest := ReadOrTail(both, tail);
    } else {
      e, rest := first, ts;
    }
  }

  /** Tokens have a value if and only if they are those of a tree with it. */
  lemma TokensAreATree(ts: seq<Tok>, v: bool)
    ensures EvalTokens(ts) == Some(v) <==> exists e :: Fits(e, OrLevel) && Toks(e) == ts && Value(e) == v
  {
    if EvalTokens(ts) == Some(v) {
      var e := TreeOf(ts);
    }
    forall e | Fits(e, OrLevel) && Toks(e) == ts && Value(e) == v ensures EvalTokens(ts) == Some(v) {
      PrintedTreeEvaluates(e);
    }
  }

  lemma TreeOf(ts: seq<Tok>) returns (e: Expr)
    requires EvalTokens(ts).Some?
    ensures Fits(e, OrLevel) && Toks(e) == ts && EvalTokens(ts) == Some(Value(e))
  {
    var rest;
    e, rest := ReadOr(ts);
    assert Toks(e) + [] == Toks(e);
  }

  // ---- From text to tokens

  lemma {:induction false} WordLengthIs(s: string)
    ensures var n := WordLength(s);
            (forall c | c in s[..n] :: IsWordChar(c)) && (n < |s| ==> !IsWordChar(s[n]))
  {
    if s != [] && IsWordChar(s[0]) {
      WordLengthIs(s[1..]);
      assert s[..WordLength(s)] == [s[0]] + s[1..][..WordLength(s) - 1];
    }
  }

  lemma WordTokIs(word: string)
    requires WordTok(word).Some?
    ensures IsWord(WordTok(word).value) && TextOf(WordTok(word).value) == word
  {
  }

  lemma WidenFirst(c: char, ts: seq<Tok>, gaps: seq<string>) returns (wide: seq<string>)
    requires IsSpace(c) && Spaced(ts, gaps)
    ensures Spaced(ts, wide) && Spread(ts, wide) == [c] + Spread(ts, gaps)
  {
    wide := [[c] + gaps[0]] + gaps[1..];
    forall g | g in wide ensures AllSpace(g) {
      assert gaps[0] in gaps;
      assert g == [c] + gaps[0] || g in gaps;
    }
    assert wide[1..] == gaps[1..];
    var rest := if ts == [] then "" else TextOf(ts[0]) + Spread(ts[1..], gaps[1..]);
    assert [c] + (gaps[0] + rest) == ([c] + gaps[0]) + rest;
  }

  /** Where a word follows, and the text does not go on with a word's character, there is space first. */
  lemma SpaceFirst(ts: seq<Tok>, gaps: seq<string>)
    requires Spaced(ts, gaps) && ts != [] && IsWord(ts[0])
    requires Spread(ts, gaps) != [] ==> !IsWordChar(Spread(ts, gaps)[0])
    ensures gaps[0] != []
  {
    TextIsWord(ts[0]);
    assert Spread(ts, gaps) == gaps[0] + (TextOf(ts[0]) + Spread(ts[1..], gaps[1..]));
  }

  lemma PutTok(t: Tok, ts: seq<Tok>, gaps: seq<string>)
    requires Spaced(ts, gaps) && (IsWord(t) ==> Spread(ts, gaps) == [] || !IsWordChar(Spread(ts, gaps)[0]))
    ensures Spaced([t] + ts, [""] + gaps) && Spread([t] + ts, [""] + gaps) == TextOf(t) + Spread(ts, gaps)
  {
    var all, spaces := [t] + ts, [""] + gaps;
    assert all[1..] == ts && spaces[1..] == gaps;
    assert "" + (TextOf(t) + Spread(ts, gaps)) == TextOf(t) + Spread(ts, gaps);
    forall i | 0 < i < |all| && IsWord(all[i - 1]) && IsWord(all[i]) ensures spaces[i] != [] {
      if i == 1 {
        SpaceFirst(ts, gaps);
      } else {
        assert IsWord(ts[(i - 1) - 1]) && IsWord(ts[i - 1]);
      }
    }
  }

  lemma PutWord(s: string, n: nat, ts: seq<Tok>, gaps: seq<string>)
    requires n == WordLength(s) && WordTok(s[..n]).Some? && Spaced(ts, gaps) && s[n..] == Spread(ts, gaps)
    ensures var t := WordTok(s[..n]).value; Spaced([t] + ts, [""] + gaps) && s == Spread([t] + ts, [""] + gaps)
  {
    WordEndsThere(s, n);
    WordTokIs(s[..n]);
    PutTok(WordTok(s[..n]).value, ts, gaps);
    CutAt(s, n);
  }

  lemma WordEndsThere(s: string, n: nat)
    requires n == WordLength(s)
    ensures s[n..] == [] || !IsWordChar(s[n..][0])
  {
    WordLengthIs(s);
  }

  lemma CutAt(s: string, n: nat)
    requires n <= |s|
    ensures s[..n] + s[n..] == s
  {
  }

  /** A text read as tokens is those tokens, spaced. */
  lemma {:induction false} LexedIsSpread(s: string) returns (gaps: seq<string>)
    requires Lex(s).Some?
    ensures Spaced(Lex(s).value, gaps) && s == Spread(Lex(s).value, gaps)
    decreases |s|
  {
    if s == [] {
      gaps := [""];
    } else if IsSpace(s[0]) {
      gaps := LexedIsSpread(s[1..]);
      gaps := WidenFirst(s[0], Lex(s).value, gaps);
      assert s == [s[0]] + s[1..];
    } else if s[0] == '(' || s[0] == ')' {
      gaps := LexedIsSpread(s[1..]);
      PutTok(if s[0] == '(' then Open else Close, Lex(s[1..]).value, gaps);
      gaps := [""] + gaps;
      assert s == [s[0]] + s[1..];
    } else {
      var n := WordLength(s);
      gaps := LexedIsSpread(s[n..]);
      PutWord(s, n, Lex(s[n..]).value, gaps);
      gaps := [""] + gaps;
    }
  }

  lemma FirstLetters(a: Tok, b: Tok)
    requires IsWord(a) && IsWord(b) && TextOf(a)[0] == TextOf(b)[0]
    ensures a == b
  {
  }

  /** Two words without a space are read as one, which is none of Python's. */
  lemma WordsNeedSpace(a: Tok, b: Tok, rest: string)
    requires IsWord(a) && IsWord(b)
    ensures Lex(TextOf(a) + (TextOf(b) + rest)) == None
  {
    var x, y := TextOf(a), TextOf(b);
    var s := x + (y + rest);
    var n := WordLength(s);
    TextIsWord(a);
    TextIsWord(b);
    WordLengthIs(s);
    assert s[|x|] == y[0];
    LongWord(x, y + rest);
    if WordTok(s[..n]).Some? {
      WordTokIs(s[..n]);
      FirstLetters(WordTok(s[..n]).value, a);
    }
  }

  lemma {:induction false} LongWord(word: string, rest: string)
    requires (forall c | c in word :: IsWordChar(c)) && rest != [] && IsWordChar(rest[0])
    ensures WordLength(word + rest) > |word|
  {
    if word == [] {
      assert word + rest == rest;
    } else {
      assert (word + rest)[1..] == word[1..] + rest;
      LongWord(word[1..], rest);
    }
  }

  lemma SpacedStep(ts: seq<Tok>, gaps: seq<string>)
    requires ts != [] && |gaps| == |ts| + 1 && AllSpace(gaps[0]) && Spaced(ts[1..], gaps[1..])
    requires |ts| > 1 && IsWord(ts[0]) && IsWord(ts[1]) ==> gaps[1] != []
    ensures Spaced(ts, gaps)
  {
    assert gaps == [gaps[0]] + gaps[1..];
    forall i | 0 < i < |ts| && IsWord(ts[i - 1]) && IsWord(ts[i]) ensures gaps[i] != [] {
      if i > 1 {
        assert IsWord(ts[1..][(i - 1) - 1]) && IsWord(ts[1..][i - 1]);
      }
    }
  }

  /** Where the words that follow one another were not spaced, the text could not be read. */
  lemma {:induction false} LexedIsSpaced(ts: seq<Tok>, gaps: seq<string>)
    requires |gaps| == |ts| + 1 && (forall g | g in gaps :: AllSpace(g)) && Lex(Spread(ts, gaps)).Some?
    ensures Spaced(ts, gaps)
  {
    assert gaps[0] in gaps;
    if ts != [] {
      var t, tail := ts[0], Spread(ts[1..], gaps[1..]);
      LexSkips(gaps[0], TextOf(t) + tail);
      if |ts| > 1 && IsWord(t) && IsWord(ts[1]) && gaps[1] == [] {
        UnspacedWords(ts, gaps);
      }
      TailLexes(ts, gaps);
      LexedIsSpaced(ts[1..], gaps[1..]);
      SpacedStep(ts, gaps);
    }
  }

  lemma UnspacedWords(ts: seq<Tok>, gaps: seq<string>)
    requires |ts| > 1 && |gaps| == |ts| + 1 && IsWord(ts[0]) && IsWord(ts[1]) && gaps[1] == []
    ensures Lex(TextOf(ts[0]) + Spread(ts[1..], gaps[1..])) == None
  {
    var rest := Spread(ts[1..][1..], gaps[1..][1..]);
    assert Spread(ts[1..], gaps[1..]) == TextOf(ts[1]) + rest;
    WordsNeedSpace(ts[0], ts[1], rest);
  }

  lemma TailLexes(ts: seq<Tok>, gaps: seq<string>)
    requires ts != [] && |gaps| == |ts| + 1 && (forall g | g in gaps :: AllSpace(g))
    requires |ts| > 1 && IsWord(ts[0]) && IsWord(ts[1]) ==> gaps[1] != []
    requires Lex(TextOf(ts[0]) + Spread(ts[1..], gaps[1..])).Some?
    ensures Lex(Spread(ts[1..], gaps[1..])).Some?
  {
    var tail := Spread(ts[1..], gaps[1..]);
    if !IsWord(ts[0]) {
      LexParen(ts[0], tail);
    } else {
      assert gaps[1] in gaps;
      if gaps[1] != [] {
        assert gaps[1][0] in gaps[1] && tail[0] == gaps[1][0];
      } else if |ts| > 1 {
        assert tail[0] == TextOf(ts[1])[0];
      }
      LexWord(ts[0], tail);
    }
  }

  /** The text is the tree's, with white space that fits. */
  ghost predicate Writes(s: string, e: Expr) {
    Fits(e, OrLevel) && exists gaps :: Spaced(Toks(e), gaps) && GapsFit(Toks(e), gaps) && s == Spread(Toks(e), gaps)
  }

  /** `eval` answers with a value if and only if the text is a written tree with that value. */
  lemma AnswersIff(s: string, v: bool)
    ensures Eval(s) == Answer(v) <==> exists e :: Writes(s, e) && Value(e) == v
  {
    if Eval(s) == Answer(v) {
      var ts := Lex(s).value;
      var e := TreeOf(ts);
      var gaps := LexedIsSpread(s);
      TreeCloses(e);
      LaidOutIff(ts, gaps);
      assert Writes(s, e);
    }
    forall e | Writes(s, e) && Value(e) == v ensures Eval(s) == Answer(v) {
      var gaps :| Spaced(Toks(e), gaps) && GapsFit(Toks(e), gaps) && s == Spread(Toks(e), gaps);
      WrittenTreeEvaluates(e, gaps);
    }
  }
}
