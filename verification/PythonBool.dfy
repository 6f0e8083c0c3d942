/** Python's boolean expressions. */
module PythonBool {
  // Over `True`, `False`, `not`, `and`, `or` and parentheses: their text, how it may be laid out in lines
  // (section 2.1 of the Python Language Reference), and the value `eval` gives it (section 6.11).

  import opened Options
  import opened Text

  datatype Tok = TrueTok | FalseTok | NotTok | AndTok | OrTok | Open | Close

  predicate IsWordStart(c: char) {
    'A' <= c <= 'Z' || 'a' <= c <= 'z' || c == '_'
  }

  predicate IsWordChar(c: char) {
    IsWordStart(c) || '0' <= c <= '9'
  }

  /** Length of the longest run of word characters `s` begins with. */
  function WordLength(s: string): (n: nat)
    ensures n <= |s|
    ensures s != [] && IsWordChar(s[0]) ==> n > 0
  {
    if s == [] || !IsWordChar(s[0]) then 0 else 1 + WordLength(s[1..])
  }

  lemma {:induction false} WordRuns(word: string, rest: string)
    requires (forall c | c in word :: IsWordChar(c)) && (rest != [] ==> !IsWordChar(rest[0]))
    ensures WordLength(word + rest) == |word|
  {
    if word == [] {
      assert word + rest == rest;
    } else {
      assert (word + rest)[1..] == word[1..] + rest;
      WordRuns(word[1..], rest);
    }
  }

  function WordTok(word: string): Option<Tok> {
    if word == "True" then Some(TrueTok)
    else if word == "False" then Some(FalseTok)
    else if word == "not" then Some(NotTok)
    else if word == "and" then Some(AndTok)
    else if word == "or" then Some(OrTok)
    else None
  }

  /** The tokens of a text; none when it holds anything but the words above, parentheses and white space. */
  function Lex(s: string): Option<seq<Tok>>
    decreases |s|
  {
    if s == [] then Some([])
    else if IsSpace(s[0]) then Lex(s[1..])
    else if s[0] == '(' then Before(Open, Lex(s[1..]))
    else if s[0] == ')' then Before(Close, Lex(s[1..]))
    else if IsWordStart(s[0]) then
      var n := WordLength(s);
      match WordTok(s[..n])
      case None => None
      case Some(tok) => Before(tok, Lex(s[n..]))
    else None
  }

  function Before(tok: Tok, rest: Option<seq<Tok>>): Option<seq<Tok>> {
    if rest.Some? then Some([tok] + rest.value) else None
  }

  // ---- Lines

  const FORM_FEED := '\U{0C}'

  predicate IsIndent(c: char) {
    c == ' ' || c == '\t'
  }

  predicate IsBreak(c: char) {
    c == '\n' || c == '\r'
  }

  /** White space that may stand between tokens; any other is an error. */
  predicate IsLayout(c: char) {
    IsIndent(c) || IsBreak(c) || c == FORM_FEED
  }

  /** Nothing but white space on the line so far, ending at column 0 or not; or something. */
  datatype Line = Indenting(flush: bool) | Inside

  /** How many parentheses are open, the line, and whether the expression's line has ended. */
  datatype Place = Place(depth: nat, line: Line, over: bool)

  /** The place behind `c`; none where `c` may not stand. Breaks in parentheses end no line. */
  function Step(p: Place, c: char): Option<Place> {
    if !IsSpace(c) then
      if p.over || p.line == Indenting(false) || (c == ')' && p.depth == 0) then None
      else Some(Place(if c == '(' then p.depth + 1 else if c == ')' then p.depth - 1 else p.depth, Inside, false))
    else if !IsLayout(c) then None
    else if p.depth > 0 then Some(p)
    else if IsBreak(c) then Some(Place(0, Indenting(true), p.over || p.line.Inside?))
    else if p.line.Indenting? then Some(p.(line := Indenting(!IsIndent(c))))
    else Some(p)
  }

  function Walk(p: Place, s: string): Option<Place>
    decreases |s|
  {
    if s == [] then Some(p)
    else
      match Step(p, s[0])
      case None => None
      case Some(q) => Walk(q, s[1..])
  }

  /** `s.lstrip(" \t")`, which `eval` begins with. */
  function SkipIndent(s: string): string {
    if s != [] && IsIndent(s[0]) then SkipIndent(s[1..]) else s
  }

  predicate Ends(p: Option<Place>) {
    p.Some? && p.value.depth == 0 && p.value.line != Indenting(false)
  }

  /** One expression on one line, apart from breaks in parentheses and empty lines around it. */
  predicate LaidOut(s: string) {
    Ends(Walk(Place(0, Indenting(true), false), SkipIndent(s)))
  }

  // ---- Expressions

  // or_test: and_test ("or" and_test)*

  function ParseOr(ts: seq<Tok>): (r: Option<(bool, seq<Tok>)>)
    ensures r.Some? ==> |r.value.1| < |ts|
    decreases |ts|, 5
  {
    match ParseAnd(ts)
    case None => None
    case Some((v, rest)) => OrTail(v, rest)
  }

  function OrTail(v: bool, ts: seq<Tok>): (r: Option<(bool, seq<Tok>)>)
    ensures r.Some? ==> |r.value.1| <= |ts|
    decreases |ts|, 4
  {
    if ts != [] && ts[0] == OrTok then
      match ParseAnd(ts[1..])
      case None => None
      case Some((w, rest)) => OrTail(v || w, rest)
    else Some((v, ts))
  }

  // and_test: not_test ("and" not_test)*

  function ParseAnd(ts: seq<Tok>): (r: Option<(bool, seq<Tok>)>)
    ensures r.Some? ==> |r.value.1| < |ts|
    decreases |ts|, 3
  {
    match ParseNot(ts)
    case None => None
    case Some((v, rest)) => AndTail(v, rest)
  }

  function AndTail(v: bool, ts: seq<Tok>): (r: Option<(bool, seq<Tok>)>)
    ensures r.Some? ==> |r.value.1| <= |ts|
    decreases |ts|, 2
  {
    if ts != [] && ts[0] == AndTok then
      match ParseNot(ts[1..])
      case None => None
      case Some((w, rest)) => AndTail(v && w, rest)
    else Some((v, ts))
  }

  // not_test: "not" not_test | "True" | "False" | "(" or_test ")"

  function ParseNot(ts: seq<Tok>): (r: Option<(bool, seq<Tok>)>)
    ensures r.Some? ==> |r.value.1| < |ts|
    decreases |ts|, 1
  {
    if ts == [] then None
    else
      match ts[0]
      case TrueTok => Some((true, ts[1..]))
      case FalseTok => Some((false, ts[1..]))
      case NotTok => (
        match ParseNot(ts[1..])
        case None => None
        case Some((v, rest)) => Some((!v, rest)))
      case Open => (
        match ParseOr(ts[1..])
        case None => None
        case Some((v, rest)) => if rest != [] && rest[0] == Close then Some((v, rest[1..])) else None)
      case _ => None
  }

  function EvalTokens(ts: seq<Tok>): Option<bool> {
    match ParseOr(ts)
    case None => None
    case Some((v, rest)) => if rest == [] then Some(v) else None
  }

  /** `Refused`: a syntax error. `Unclear`: the tokens are none of the expressions modelled; Python may
      raise on them, or read a call or a tuple. */
  datatype Answer = Answer(value: bool) | Refused | Unclear

  /** `eval(s)`, for a text of words, parentheses and white space. */
  function Eval(s: string): Answer {
    if !LaidOut(s) then Refused
    else
      var value := match Lex(s) case None => None case Some(ts) => EvalTokens(ts);
      if value.None? then Unclear else Answer(value.value)
  }

  // ---- Trees, and how they print

  datatype Expr =
    | Lit(b: bool)
    | Not(e: Expr)
    | And(l: Expr, r: Expr)
    | Or(l: Expr, r: Expr)
    | Group(e: Expr)

  function Value(e: Expr): bool {
    match e
    case Lit(b) => b
    case Not(x) => !Value(x)
    case And(l, r) => Value(l) && Value(r)
    case Or(l, r) => Value(l) || Value(r)
    case Group(x) => Value(x)
  }

  function Toks(e: Expr): seq<Tok> {
    match e
    case Lit(b) => [if b then TrueTok else FalseTok]
    case Not(x) => [NotTok] + Toks(x)
    case And(l, r) => Toks(l) + [AndTok] + Toks(r)
    case Or(l, r) => Toks(l) + [OrTok] + Toks(r)
    case Group(x) => [Open] + Toks(x) + [Close]
  }

  datatype Level = OrLevel | AndLevel | NotLevel

  /** Parentheses stand wherever an operator binds more loosely than the place it is in. */
  predicate Fits(e: Expr, level: Level) {
    match e
    case Lit(_) => true
    case Not(x) => Fits(x, NotLevel)
    case And(l, r) => level != NotLevel && Fits(l, AndLevel) && Fits(r, AndLevel)
    case Or(l, r) => level == OrLevel && Fits(l, OrLevel) && Fits(r, OrLevel)
    case Group(x) => Fits(x, OrLevel)
  }

  predicate StartsWith(ts: seq<Tok>, tok: Tok) {
    ts != [] && ts[0] == tok
  }

  lemma {:induction false} NotPrints(e: Expr, rest: seq<Tok>)
    requires Fits(e, NotLevel)
    ensures ParseNot(Toks(e) + rest) == Some((Value(e), rest))
    decreases e, 0
  {
    match e
    case Lit(b) => assert (Toks(e) + rest)[1..] == rest;
    case Not(x) =>
      assert (Toks(e) + rest)[1..] == Toks(x) + rest;
      NotPrints(x, rest);
    case Group(x) =>
      assert (Toks(e) + rest)[1..] == Toks(x) + ([Close] + rest);
      OrPrints(x, [Close] + rest);
      assert ([Close] + rest)[1..] == rest;
  }

  lemma {:induction false} AndPrints(e: Expr, rest: seq<Tok>)
    requires Fits(e, AndLevel)
    ensures ParseAnd(Toks(e) + rest) == AndTail(Value(e), rest)
    decreases e, 1
  {
    if e.And? {
      assert Toks(e) + rest == Toks(e.l) + ([AndTok] + Toks(e.r) + rest);
      AndPrints(e.l, [AndTok] + Toks(e.r) + rest);
      AndContinues(Value(e.l), e.r, rest);
    } else {
      NotPrints(e, rest);
    }
  }

  lemma {:induction false} AndContinues(v: bool, e: Expr, rest: seq<Tok>)
    requires Fits(e, AndLevel)
    ensures AndTail(v, [AndTok] + Toks(e) + rest) == AndTail(v && Value(e), rest)
    decreases e, 1
  {
    if e.And? {
      var tail := [AndTok] + Toks(e.r) + rest;
      assert [AndTok] + Toks(e) + rest == [AndTok] + Toks(e.l) + tail;
      AndContinues(v, e.l, tail);
      AndContinues(v && Value(e.l), e.r, rest);
    } else {
      assert ([AndTok] + Toks(e) + rest)[1..] == Toks(e) + rest;
      NotPrints(e, rest);
    }
  }

  lemma {:induction false} OrPrints(e: Expr, rest: seq<Tok>)
    requires Fits(e, OrLevel) && !StartsWith(rest, AndTok)
    ensures ParseOr(Toks(e) + rest) == OrTail(Value(e), rest)
    decreases e, 2
  {
    if e.Or? {
      assert Toks(e) + rest == Toks(e.l) + ([OrTok] + Toks(e.r) + rest);
      OrPrints(e.l, [OrTok] + Toks(e.r) + rest);
      OrContinues(Value(e.l), e.r, rest);
    } else {
      AndPrints(e, rest);
    }
  }

  lemma {:induction false} OrContinues(v: bool, e: Expr, rest: seq<Tok>)
    requires Fits(e, OrLevel) && !StartsWith(rest, AndTok)
    ensures OrTail(v, [OrTok] + Toks(e) + rest) == OrTail(v || Value(e), rest)
    decreases e, 2
  {
    if e.Or? {
      var tail := [OrTok] + Toks(e.r) + rest;
      assert [OrTok] + Toks(e) + rest == [OrTok] + Toks(e.l) + tail;
      OrContinues(v, e.l, tail);
      OrContinues(v || Value(e.l), e.r, rest);
    } else {
      assert ([OrTok] + Toks(e) + rest)[1..] == Toks(e) + rest;
      AndPrints(e, rest);
    }
  }

  /** Python reads a printed tree back as the tree: `not` before `and` before `or`. */
  lemma PrintedTreeEvaluates(e: Expr)
    requires Fits(e, OrLevel)
    ensures EvalTokens(Toks(e)) == Some(Value(e))
  {
    assert Toks(e) + [] == Toks(e);
    OrPrints(e, []);
  }
}
