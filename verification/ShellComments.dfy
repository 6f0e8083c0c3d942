/** Shell lines without their comments. */
module ShellComments {
  import opened Options
  import opened Text

  // ---- What a line is made of

  /** A character in double quotes, on its own or after a backslash. */
  datatype Inner = Plain(c: char) | Escape(c: char)

  /** A piece of a line. The last three can only end it: a lone backslash, and quotes that do not close. */
  datatype Piece =
    | Bare(c: char)
    | Escaped(c: char)
    | Single(text: string)
    | Double(inner: seq<Inner>)
    | Backslash
    | OpenSingle(text: string)
    | OpenDouble(inner: seq<Inner>, backslash: bool)

  predicate InnerOk(inner: seq<Inner>) {
    forall x | x in inner :: x.Plain? ==> x.c != '\\' && x.c != '"'
  }

  predicate PieceOk(p: Piece) {
    match p
    case Bare(c) => c != '\\' && c != '\'' && c != '"'
    case Single(text) => '\'' !in text
    case OpenSingle(text) => '\'' !in text
    case Double(inner) => InnerOk(inner)
    case OpenDouble(inner, _) => InnerOk(inner)
    case _ => true
  }

  predicate Ends(p: Piece) {
    p.Backslash? || p.OpenSingle? || p.OpenDouble?
  }

  predicate WellFormed(pieces: seq<Piece>) {
    && (forall p | p in pieces :: PieceOk(p))
    && forall i | 0 <= i < |pieces| - 1 :: !Ends(pieces[i])
  }

  function ShowInner(inner: seq<Inner>): string {
    if inner == [] then ""
    else (match inner[0] case Plain(c) => [c] case Escape(c) => ['\\', c]) + ShowInner(inner[1..])
  }

  function ShowPiece(p: Piece): (s: string)
    ensures s != []
  {
    match p
    case Bare(c) => [c]
    case Escaped(c) => ['\\', c]
    case Single(text) => ['\''] + text + ['\'']
    case Double(inner) => ['"'] + ShowInner(inner) + ['"']
    case Backslash => ['\\']
    case OpenSingle(text) => ['\''] + text
    case OpenDouble(inner, backslash) => ['"'] + ShowInner(inner) + if backslash then ['\\'] else []
  }

  function Show(pieces: seq<Piece>): string {
    if pieces == [] then "" else ShowPiece(pieces[0]) + Show(pieces[1..])
  }

  // ---- Where a comment begins

  /** The character before is white space, or there is none. */
  predicate AtWordStart(before: Option<char>) {
    before.None? || IsSpace(before.value)
  }

  function Last(s: string): char
    requires s != []
  {
    s[|s| - 1]
  }

  /** The pieces before the first bare `#` at the start of a word. */
  function BeforeComment(before: Option<char>, pieces: seq<Piece>): seq<Piece>
    decreases |pieces|
  {
    if pieces == [] then []
    else if pieces[0] == Bare('#') && AtWordStart(before) then []
    else [pieces[0]] + BeforeComment(Some(Last(ShowPiece(pieces[0]))), pieces[1..])
  }

  // ---- The scanner

  /** How many more characters are kept, when `quote` is the quote that is open. */
  function Kept(before: Option<char>, rest: string, quote: Option<char>): (n: nat)
    ensures n <= |rest|
    decreases |rest|
  {
    if rest == [] then 0
    else if rest[0] == '\\' && quote != Some('\'') then
      if |rest| == 1 then 1 else 2 + Kept(Some(rest[1]), rest[2..], quote)
    else if quote.None? && rest[0] == '#' && AtWordStart(before) then 0
    else 1 + Kept(Some(rest[0]), rest[1..], Next(quote, rest[0]))
  }

  /** The quote that is open after a character that is not escaped. */
  function Next(quote: Option<char>, c: char): Option<char> {
    if quote.None? then if c == '\'' || c == '"' then Some(c) else None
    else if c == quote.value then None else quote
  }

  function Without(line: string): string {
    line[..Kept(None, line, None)]
  }

  function Before(line: string, index: nat): Option<char>
    requires index <= |line|
  {
    if index == 0 then None else Some(line[index - 1])
  }

  method WithoutInlineComment(line: string) returns (r: string)
    ensures r == Without(line)
  {
    var quote: Option<char> := None;
    var index := 0;
    while index < |line|
      invariant index <= |line| ==>
                  index + Kept(Before(line, index), line[index..], quote) == Kept(None, line, None)
      invariant index > |line| ==> Kept(None, line, None) == |line|
    {
      var c := line[index];
      var rest := line[index..];
      assert rest[1..] == line[index + 1..];
      assert |rest| > 1 ==> rest[2..] == line[index + 2..];
      if c == '\\' && quote != Some('\'') {
        index := index + 2;
        continue;
      }
      if quote == None {
        if c == '\'' || c == '"' {
          quote := Some(c);
        } else if c == '#' && (index == 0 || IsSpace(line[index - 1])) {
          return line[..index];
        }
      } else if Some(c) == quote {
        quote := None;
      }
      index := index + 1;
    }
    assert line[..|line|] == line;
    r := line;
  }

  // ---- The scanner reads pieces

  lemma KeepsOne(before: Option<char>, c: char, rest: string, quote: Option<char>)
    requires (c == '\\' ==> quote == Some('\'')) && !(quote.None? && c == '#' && AtWordStart(before))
    ensures Kept(before, [c] + rest, quote) == 1 + Kept(Some(c), rest, Next(quote, c))
  {
    assert ([c] + rest)[1..] == rest;
  }

  lemma KeepsTwo(before: Option<char>, c: char, rest: string, quote: Option<char>)
    requires quote != Some('\'')
    ensures Kept(before, ['\\', c] + rest, quote) == 2 + Kept(Some(c), rest, quote)
  {
    assert (['\\', c] + rest)[2..] == rest && (['\\', c] + rest)[1] == c;
  }

  lemma {:induction false} ReadsSingle(before: Option<char>, text: string, rest: string)
    requires '\'' !in text
    ensures Kept(before, text, Some('\'')) == |text|
    ensures Kept(before, text + (['\''] + rest), Some('\'')) == |text| + 1 + Kept(Some('\''), rest, None)
    decreases |text|
  {
    var tail := ['\''] + rest;
    if text == [] {
      assert text + tail == tail;
      KeepsOne(before, '\'', rest, Some('\''));
    } else {
      var c, more := text[0], text[1..];
      assert c in text && text == [c] + more && text + tail == [c] + (more + tail);
      ReadsSingle(Some(c), more, rest);
      KeepsOne(before, c, more, Some('\''));
      KeepsOne(before, c, more + tail, Some('\''));
    }
  }

  function ShowOne(x: Inner): string {
    match x case Plain(c) => [c] case Escape(c) => ['\\', c]
  }

  lemma ReadsInner(before: Option<char>, x: Inner, rest: string)
    requires x.Plain? ==> x.c != '\\' && x.c != '"'
    ensures Kept(before, ShowOne(x) + rest, Some('"')) ==
            |ShowOne(x)| + Kept(Some(Last(ShowOne(x))), rest, Some('"'))
  {
    if x.Plain? {
      KeepsOne(before, x.c, rest, Some('"'));
    } else {
      KeepsTwo(before, x.c, rest, Some('"'));
    }
  }

  lemma Together(a: string, b: string, c: string)
    ensures a + b + c == a + (b + c)
  {
  }

  /** What is in double quotes, with `tail` behind it. */
  lemma {:induction false} ReadsDouble(before: Option<char>, inner: seq<Inner>, tail: string, n: nat)
    requires InnerOk(inner)
    requires forall b: Option<char> :: Kept(b, tail, Some('"')) == n
    ensures Kept(before, ShowInner(inner) + tail, Some('"')) == |ShowInner(inner)| + n
    decreases |inner|
  {
    if inner == [] {
      assert ShowInner(inner) + tail == tail;
    } else {
      var x, more := inner[0], inner[1..];
      assert x in inner;
      var shown := ShowOne(x);
      ReadsDouble(Some(Last(shown)), more, tail, n);
      ReadsInner(before, x, ShowInner(more) + tail);
      Together(shown, ShowInner(more), tail);
    }
  }

  lemma QuotedApart(q: char, body: string, rest: string)
    ensures [q] + body + [q] + rest == [q] + (body + ([q] + rest))
  {
  }

  lemma ReadsQuoted(before: Option<char>, p: Piece, rest: string)
    requires PieceOk(p) && (p.Single? || p.Double?)
    ensures Kept(before, ShowPiece(p) + rest, None) == |ShowPiece(p)| + Kept(Some(Last(ShowPiece(p))), rest, None)
  {
    if p.Single? {
      QuotedApart('\'', p.text, rest);
      KeepsOne(before, '\'', p.text + (['\''] + rest), None);
      ReadsSingle(Some('\''), p.text, rest);
    } else {
      var body := ShowInner(p.inner);
      QuotedApart('"', body, rest);
      KeepsOne(before, '"', body + (['"'] + rest), None);
      forall b: Option<char> ensures Kept(b, ['"'] + rest, Some('"')) == 1 + Kept(Some('"'), rest, None) {
        KeepsOne(b, '"', rest, Some('"'));
      }
      ReadsDouble(Some('"'), p.inner, ['"'] + rest, 1 + Kept(Some('"'), rest, None));
    }
  }

  lemma ReadsOpen(before: Option<char>, p: Piece)
    requires PieceOk(p) && Ends(p)
    ensures Kept(before, ShowPiece(p), None) == |ShowPiece(p)|
  {
    match p
    case Backslash =>
    case OpenSingle(text) =>
      KeepsOne(before, '\'', text, None);
      ReadsSingle(Some('\''), text, []);
    case OpenDouble(inner, backslash) =>
      var tail := if backslash then ['\\'] else [];
      assert ShowPiece(p) == ['"'] + (ShowInner(inner) + tail);
      KeepsOne(before, '"', ShowInner(inner) + tail, None);
      ReadsDouble(Some('"'), inner, tail, |tail|);
  }

  lemma ReadsPiece(before: Option<char>, p: Piece, rest: string)
    requires PieceOk(p) && (Ends(p) ==> rest == [])
    requires !(p == Bare('#') && AtWordStart(before))
    ensures Kept(before, ShowPiece(p) + rest, None) == |ShowPiece(p)| + Kept(Some(Last(ShowPiece(p))), rest, None)
  {
    if p.Bare? {
      KeepsOne(before, p.c, rest, None);
    } else if p.Escaped? {
      KeepsTwo(before, p.c, rest, None);
    } else if Ends(p) {
      ReadsOpen(before, p);
      assert ShowPiece(p) + rest == ShowPiece(p);
    } else {
      ReadsQuoted(before, p, rest);
    }
  }

  lemma {:induction false} ReadsPieces(before: Option<char>, pieces: seq<Piece>)
    requires WellFormed(pieces)
    ensures Kept(before, Show(pieces), None) == |Show(BeforeComment(before, pieces))|
    ensures Show(BeforeComment(before, pieces)) <= Show(pieces)
    decreases |pieces|
  {
    if pieces != [] {
      var p, rest := pieces[0], pieces[1..];
      assert p in pieces;
      if p == Bare('#') && AtWordStart(before) {
      } else {
        assert Ends(p) ==> rest == [];
        WellFormedRest(pieces);
        ReadsPiece(before, p, Show(rest));
        var last := Some(Last(ShowPiece(p)));
        ReadsPieces(last, rest);
        var kept := BeforeComment(last, rest);
        assert ([p] + kept)[1..] == kept;
        assert Show([p] + kept) == ShowPiece(p) + Show(kept);
      }
    }
  }

  lemma WellFormedRest(pieces: seq<Piece>)
    requires pieces != [] && WellFormed(pieces)
    ensures WellFormed(pieces[1..])
  {
    var rest := pieces[1..];
    assert forall i | 0 <= i < |rest| :: rest[i] == pieces[i + 1];
  }

  /** However a line is put together of pieces, what is left of it is what comes before the first bare
      `#` at the start of a word; all of it, when there is none. */
  lemma WithoutIsBeforeComment(pieces: seq<Piece>)
    requires WellFormed(pieces)
    ensures Without(Show(pieces)) == Show(BeforeComment(None, pieces))
  {
    ReadsPieces(None, pieces);
  }

  // ---- Every line is put together of pieces

  /** The pieces of what is inside double quotes, and whether the quotes close. */
  datatype Quoted = Quoted(inner: seq<Inner>, backslash: bool, closed: bool, rest: string)

  lemma ShownFirst(x: Inner, inner: seq<Inner>, s: string, tail: string)
    requires |ShowOne(x)| <= |s| && s[..|ShowOne(x)|] == ShowOne(x) && s[|ShowOne(x)|..] == ShowInner(inner) + tail
    ensures s == ShowInner([x] + inner) + tail
  {
    assert ([x] + inner)[1..] == inner;
    assert ShowInner([x] + inner) == ShowOne(x) + ShowInner(inner);
    assert s == ShowOne(x) + (ShowInner(inner) + tail);
  }

  function ReadDouble(s: string): (r: Quoted)
    ensures InnerOk(r.inner) && |r.rest| <= |s|
    ensures r.closed ==> !r.backslash && s == ShowInner(r.inner) + (['"'] + r.rest)
    ensures !r.closed ==> s == ShowInner(r.inner) + if r.backslash then ['\\'] else []
    decreases |s|
  {
    if s == [] then Quoted([], false, false, [])
    else if s[0] == '"' then Quoted([], false, true, s[1..])
    else if s == ['\\'] then Quoted([], true, false, [])
    else
      var x := if s[0] == '\\' then Escape(s[1]) else Plain(s[0]);
      var r := ReadDouble(s[|ShowOne(x)|..]);
      ShownFirst(x, r.inner, s, if r.closed then ['"'] + r.rest else if r.backslash then ['\\'] else []);
      r.(inner := [x] + r.inner)
  }

  /** The first piece of a line. */
  function FirstPiece(s: string): (p: Piece)
    requires s != []
    ensures PieceOk(p) && ShowPiece(p) <= s && (Ends(p) ==> ShowPiece(p) == s)
  {
    if s[0] == '\\' then if |s| == 1 then Backslash else Escaped(s[1])
    else if s[0] == '\'' then
      var i := IndexOf(s[1..], '\'');
      assert '\'' !in s[1..][..i];
      if i < |s[1..]| then
        assert ['\''] + s[1..][..i] + ['\''] == s[..i + 2];
        Single(s[1..][..i])
      else
        assert ['\''] + s[1..][..i] == s;
        OpenSingle(s[1..][..i])
    else if s[0] == '"' then
      var r := ReadDouble(s[1..]);
      assert s == ['"'] + s[1..];
      if r.closed then
        assert s == (['"'] + ShowInner(r.inner) + ['"']) + r.rest;
        Double(r.inner)
      else OpenDouble(r.inner, r.backslash)
    else Bare(s[0])
  }

  function PiecesOf(s: string): seq<Piece>
    decreases |s|
  {
    if s == [] then [] else [FirstPiece(s)] + PiecesOf(s[|ShowPiece(FirstPiece(s))|..])
  }

  /** Every line is the pieces it is read as. */
  lemma {:induction false} EveryLineIsPieces(s: string)
    ensures WellFormed(PiecesOf(s)) && Show(PiecesOf(s)) == s
    decreases |s|
  {
    if s != [] {
      var p := FirstPiece(s);
      var rest := s[|ShowPiece(p)|..];
      EveryLineIsPieces(rest);
      assert s == ShowPiece(p) + rest;
      var all := [p] + PiecesOf(rest);
      assert all[1..] == PiecesOf(rest);
      assert forall i | 0 < i < |all| :: all[i] == PiecesOf(rest)[i - 1];
      assert Ends(p) ==> rest == [];
    }
  }

  // ---- Once is enough

  lemma {:induction false} NoCommentLeft(before: Option<char>, pieces: seq<Piece>)
    ensures BeforeComment(before, BeforeComment(before, pieces)) == BeforeComment(before, pieces)
    ensures BeforeComment(before, pieces) <= pieces
    decreases |pieces|
  {
    if pieces != [] && !(pieces[0] == Bare('#') && AtWordStart(before)) {
      var last := Some(Last(ShowPiece(pieces[0])));
      NoCommentLeft(last, pieces[1..]);
      var kept := BeforeComment(last, pieces[1..]);
      assert ([pieces[0]] + kept)[1..] == kept;
    }
  }

  /** Stripping a stripped line changes nothing. */
  lemma WithoutTwice(line: string)
    ensures Without(Without(line)) == Without(line)
  {
    var pieces := PiecesOf(line);
    EveryLineIsPieces(line);
    WithoutIsBeforeComment(pieces);
    NoCommentLeft(None, pieces);
    var kept := BeforeComment(None, pieces);
    assert WellFormed(kept);
    WithoutIsBeforeComment(kept);
  }

  // ---- Whether the shell would cut there

  /** What may stand right before a comment, if anything does. */
  type Starts = Option<Piece> -> bool

  function Previous(pieces: seq<Piece>, i: nat): Option<Piece>
    requires i <= |pieces|
  {
    if i == 0 then None else Some(pieces[i - 1])
  }

  predicate CommentAt(starts: Starts, pieces: seq<Piece>, i: nat)
    requires i < |pieces|
  {
    pieces[i] == Bare('#') && starts(Previous(pieces, i))
  }

  /** Where the first comment begins, from the `k`th piece on; at the end, when there is none. */
  function CutFrom(starts: Starts, pieces: seq<Piece>, k: nat): (n: nat)
    requires k <= |pieces|
    ensures k <= n <= |pieces|
    ensures forall i: nat | k <= i < n :: !CommentAt(starts, pieces, i)
    ensures n < |pieces| ==> CommentAt(starts, pieces, n)
    decreases |pieces| - k
  {
    if k == |pieces| || CommentAt(starts, pieces, k) then k else CutFrom(starts, pieces, k + 1)
  }

  function Cut(starts: Starts, pieces: seq<Piece>): (n: nat)
    ensures n <= |pieces|
  {
    CutFrom(starts, pieces, 0)
  }

  /** White space on its own, or the second half of an escape. */
  predicate ScannerStarts(before: Option<Piece>) {
    before.None? || ((before.value.Bare? || before.value.Escaped?) && IsSpace(before.value.c))
  }

  /** The same, but that an escaped blank is part of a word. */
  predicate WordStarts(before: Option<Piece>) {
    before.None? || (before.value.Bare? && IsSpace(before.value.c))
  }

  predicate IsBlank(c: char) {
    c == ' ' || c == '\t'
  }

  predicate IsOperator(c: char) {
    c == '&' || c == '|' || c == ';' || c == '<' || c == '>' || c == '(' || c == ')'
  }

  /** A comment begins where a word may: behind a blank or an operator (section 2.3 of the Shell Command
      Language of POSIX.1-2017). */
  predicate ShellStarts(before: Option<Piece>) {
    before.None? || (before.value.Bare? && (IsBlank(before.value.c) || IsOperator(before.value.c)))
  }

  lemma LastOfPiece(p: Piece)
    requires PieceOk(p) && !Ends(p)
    ensures AtWordStart(Some(Last(ShowPiece(p)))) <==> ScannerStarts(Some(p))
  {
  }

  lemma CommentHere(before: Option<Piece>, p: Piece)
    requires before.Some? ==> PieceOk(before.value) && !Ends(before.value)
    ensures (p == Bare('#') && AtWordStart(if before.None? then None else Some(Last(ShowPiece(before.value))))) <==>
            (p == Bare('#') && ScannerStarts(before))
  {
    if before.Some? {
      LastOfPiece(before.value);
    }
  }

  function LastBefore(pieces: seq<Piece>, k: nat): Option<char>
    requires k <= |pieces|
  {
    if k == 0 then None else Some(Last(ShowPiece(pieces[k - 1])))
  }

  lemma CommentStep(pieces: seq<Piece>, k: nat)
    requires WellFormed(pieces) && k < |pieces|
    ensures BeforeComment(LastBefore(pieces, k), pieces[k..]) ==
            if CommentAt(ScannerStarts, pieces, k) then []
            else [pieces[k]] + BeforeComment(LastBefore(pieces, k + 1), pieces[k + 1..])
  {
    var before := Previous(pieces, k);
    if before.Some? {
      assert before.value in pieces;
    }
    CommentHere(before, pieces[k]);
    assert pieces[k..][1..] == pieces[k + 1..];
  }

  lemma {:induction false} ScannerCutFrom(pieces: seq<Piece>, k: nat)
    requires WellFormed(pieces) && k <= |pieces|
    ensures BeforeComment(LastBefore(pieces, k), pieces[k..]) == pieces[k..CutFrom(ScannerStarts, pieces, k)]
    decreases |pieces| - k
  {
    if k < |pieces| {
      CommentStep(pieces, k);
      if !CommentAt(ScannerStarts, pieces, k) {
        ScannerCutFrom(pieces, k + 1);
        Rejoin(pieces, k, CutFrom(ScannerStarts, pieces, k + 1));
      }
    }
  }

  lemma Rejoin(pieces: seq<Piece>, k: nat, n: nat)
    requires k < n <= |pieces|
    ensures [pieces[k]] + pieces[k + 1..n] == pieces[k..n]
  {
  }

  /** The scanner keeps the pieces before its first comment. */
  lemma ScannerCuts(pieces: seq<Piece>)
    requires WellFormed(pieces)
    ensures Without(Show(pieces)) == Show(pieces[..Cut(ScannerStarts, pieces)])
  {
    WithoutIsBeforeComment(pieces);
    ScannerCutFrom(pieces, 0);
    assert pieces[0..] == pieces;
    assert pieces[0..Cut(ScannerStarts, pieces)] == pieces[..Cut(ScannerStarts, pieces)];
  }

  lemma {:induction false} ShowConcat(a: seq<Piece>, b: seq<Piece>)
    ensures Show(a + b) == Show(a) + Show(b)
  {
    if a == [] {
      assert a + b == b;
    } else {
      assert (a + b)[1..] == a[1..] + b;
      ShowConcat(a[1..], b);
      Together(ShowPiece(a[0]), Show(a[1..]), Show(b));
    }
  }

  /** Fewer pieces show less. */
  lemma ShownPrefix(pieces: seq<Piece>, i: nat, j: nat)
    requires i < j <= |pieces|
    ensures Show(pieces[..i]) <= Show(pieces[..j]) && Show(pieces[..i]) != Show(pieces[..j])
  {
    assert pieces[..j] == pieces[..i] + pieces[i..j];
    ShowConcat(pieces[..i], pieces[i..j]);
    assert Show(pieces[i..j]) == ShowPiece(pieces[i]) + Show(pieces[i..j][1..]);
  }

  lemma ShownPrefixes(pieces: seq<Piece>, i: nat, j: nat)
    requires i <= |pieces| && j <= |pieces|
    ensures Show(pieces[..i]) <= Show(pieces[..j]) <==> i <= j
    ensures Show(pieces[..i]) == Show(pieces[..j]) <==> i == j
  {
    if i < j {
      ShownPrefix(pieces, i, j);
    } else if j < i {
      ShownPrefix(pieces, j, i);
    }
  }

  ghost predicate AgreeUpTo(one: Starts, two: Starts, pieces: seq<Piece>, n: nat) {
    forall i: nat | i < |pieces| && i <= n :: CommentAt(one, pieces, i) == CommentAt(two, pieces, i)
  }

  /** The two readings cut at one place if and only if they agree on every `#` up to the second's. */
  lemma SameCut(one: Starts, two: Starts, pieces: seq<Piece>)
    ensures Cut(one, pieces) == Cut(two, pieces) <==> AgreeUpTo(one, two, pieces, Cut(two, pieces))
  {
    var m, n := Cut(one, pieces), Cut(two, pieces);
    if m < n {
      assert CommentAt(one, pieces, m) && !CommentAt(two, pieces, m);
    } else if n < m {
      assert !CommentAt(one, pieces, n) && CommentAt(two, pieces, n);
    }
  }

  /** The first cuts no later if and only if it takes a `#` up to the second's comment for one. */
  lemma EarlierCut(one: Starts, two: Starts, pieces: seq<Piece>)
    ensures Cut(one, pieces) <= Cut(two, pieces) <==>
      Cut(two, pieces) == |pieces| || exists i: nat :: i <= Cut(two, pieces) && CommentAt(one, pieces, i)
  {
    var m := Cut(one, pieces);
    if m < |pieces| {
      assert CommentAt(one, pieces, m);
    }
  }

  /** A `#` right behind white space, escaped or not. */
  predicate BehindSpace(pieces: seq<Piece>, i: nat)
    requires i < |pieces|
  {
    pieces[i] == Bare('#') && i > 0 && (pieces[i - 1].Bare? || pieces[i - 1].Escaped?) && IsSpace(pieces[i - 1].c)
  }

  predicate BehindEscapedSpace(pieces: seq<Piece>, i: nat)
    requires i < |pieces|
  {
    BehindSpace(pieces, i) && pieces[i - 1].Escaped?
  }

  predicate BehindOperator(pieces: seq<Piece>, i: nat)
    requires i < |pieces|
  {
    pieces[i] == Bare('#') && i > 0 && pieces[i - 1].Bare? && IsOperator(pieces[i - 1].c)
  }

  lemma CommentsAre(pieces: seq<Piece>, i: nat)
    requires i < |pieces|
    ensures CommentAt(ScannerStarts, pieces, i) <==> (i == 0 && pieces[i] == Bare('#')) || BehindSpace(pieces, i)
    ensures CommentAt(WordStarts, pieces, i) <==>
      (i == 0 && pieces[i] == Bare('#')) || (BehindSpace(pieces, i) && !BehindEscapedSpace(pieces, i))
    ensures CommentAt(ShellStarts, pieces, i) ==> CommentAt(ScannerStarts, pieces, i) != BehindOperator(pieces, i)
    ensures BehindOperator(pieces, i) ==> CommentAt(ShellStarts, pieces, i)
    ensures i == 0 && pieces[i] == Bare('#') ==> CommentAt(ShellStarts, pieces, i)
  {
  }

  lemma WordsAgree(pieces: seq<Piece>)
    ensures var n := Cut(WordStarts, pieces);
            AgreeUpTo(ScannerStarts, WordStarts, pieces, n) <==> forall i: nat | i < n :: !BehindEscapedSpace(pieces, i)
  {
    var n := Cut(WordStarts, pieces);
    forall i: nat | i < |pieces| && i <= n
      ensures CommentAt(ScannerStarts, pieces, i) == CommentAt(WordStarts, pieces, i) <==>
              (i < n ==> !BehindEscapedSpace(pieces, i))
    {
      CommentsAre(pieces, i);
    }
  }

  /** Where an escaped blank does not end a word, the scanner is right if and only if no `#` stands behind one
      before the first comment. */
  lemma OnlyEscapedSpacesMislead(pieces: seq<Piece>)
    requires WellFormed(pieces)
    ensures var n := Cut(WordStarts, pieces);
            Without(Show(pieces)) == Show(pieces[..n]) <==> forall i: nat | i < n :: !BehindEscapedSpace(pieces, i)
  {
    ScannerCuts(pieces);
    ShownPrefixes(pieces, Cut(ScannerStarts, pieces), Cut(WordStarts, pieces));
    SameCut(ScannerStarts, WordStarts, pieces);
    WordsAgree(pieces);
  }

  lemma ShellAgrees(pieces: seq<Piece>)
    ensures var n := Cut(ShellStarts, pieces);
            AgreeUpTo(ScannerStarts, ShellStarts, pieces, n) <==>
            (forall i: nat | i < n :: !BehindSpace(pieces, i)) && (n < |pieces| ==> !BehindOperator(pieces, n))
  {
    var n := Cut(ShellStarts, pieces);
    forall i: nat | i < |pieces| && i <= n
      ensures CommentAt(ScannerStarts, pieces, i) == CommentAt(ShellStarts, pieces, i) <==>
              if i < n then !BehindSpace(pieces, i) else !BehindOperator(pieces, i)
    {
      CommentsAre(pieces, i);
    }
  }

  /** What the scanner keeps is what the shell reads if and only if no `#` before the shell's comment stands
      behind white space, and the comment itself does not stand behind an operator. */
  lemma KeepsWhatTheShellReads(pieces: seq<Piece>)
    requires WellFormed(pieces)
    ensures var n := Cut(ShellStarts, pieces);
            Without(Show(pieces)) == Show(pieces[..n]) <==>
            (forall i: nat | i < n :: !BehindSpace(pieces, i)) && (n < |pieces| ==> !BehindOperator(pieces, n))
  {
    ScannerCuts(pieces);
    ShownPrefixes(pieces, Cut(ScannerStarts, pieces), Cut(ShellStarts, pieces));
    SameCut(ScannerStarts, ShellStarts, pieces);
    ShellAgrees(pieces);
  }

  /** The scanner strips at least what the shell does if and only if the shell's comment, if there is one,
      does not stand behind an operator, or a `#` before it stands behind white space. */
  lemma StripsEnough(pieces: seq<Piece>)
    requires WellFormed(pieces)
    ensures var n := Cut(ShellStarts, pieces);
            Without(Show(pieces)) <= Show(pieces[..n]) <==>
            n == |pieces| || !BehindOperator(pieces, n) || exists i: nat :: i < n && BehindSpace(pieces, i)
  {
    var n := Cut(ShellStarts, pieces);
    ScannerCuts(pieces);
    ShownPrefixes(pieces, Cut(ScannerStarts, pieces), n);
    EarlierCut(ScannerStarts, ShellStarts, pieces);
    forall i: nat | i < |pieces| && i <= n
      ensures CommentAt(ScannerStarts, pieces, i) <==> if i < n then BehindSpace(pieces, i) else !BehindOperator(pieces, i)
    {
      CommentsAre(pieces, i);
    }
  }

  // ---- Two lines

  lemma ShowTwo(a: Piece, b: Piece)
    ensures Show([a, b]) == ShowPiece(a) + ShowPiece(b)
  {
    assert [a, b][1..] == [b] && [b][1..] == [];
    assert Show([b]) == ShowPiece(b) + "" == ShowPiece(b);
  }

  lemma ShowFour(a: Piece, b: Piece, c: Piece, d: Piece)
    ensures Show([a, b, c, d]) == ShowPiece(a) + ShowPiece(b) + (ShowPiece(c) + ShowPiece(d))
  {
    assert [a, b, c, d] == [a, b] + [c, d];
    ShowConcat([a, b], [c, d]);
    ShowTwo(a, b);
    ShowTwo(c, d);
  }

  /** A `#` after an escaped space is cut off, though to the shell it is part of the word. */
  lemma EscapedSpaceIsTakenForABreak()
    ensures var pieces := [Bare('a'), Escaped(' '), Bare('#'), Bare('b')];
            && Show(pieces) == "a\\ #b" && Without("a\\ #b") == "a\\ " && Cut(ShellStarts, pieces) == |pieces|
  {
    var pieces := [Bare('a'), Escaped(' '), Bare('#'), Bare('b')];
    ShowFour(pieces[0], pieces[1], pieces[2], pieces[3]);
    ScannerCuts(pieces);
    assert CommentAt(ScannerStarts, pieces, 2) && !CommentAt(ShellStarts, pieces, 2);
    assert pieces[..2] == [Bare('a'), Escaped(' ')];
    ShowTwo(Bare('a'), Escaped(' '));
  }

  /** A `#` after a semicolon is left standing, though to the shell it begins a comment. */
  lemma OperatorIsNotTakenForABreak()
    ensures var pieces := [Bare('a'), Bare(';'), Bare('#'), Bare('b')];
            && Show(pieces) == "a;#b" && Without("a;#b") == "a;#b" && Cut(ShellStarts, pieces) == 2
  {
    var pieces := [Bare('a'), Bare(';'), Bare('#'), Bare('b')];
    ShowFour(pieces[0], pieces[1], pieces[2], pieces[3]);
    ScannerCuts(pieces);
    assert !CommentAt(ScannerStarts, pieces, 2) && CommentAt(ShellStarts, pieces, 2);
    assert pieces[..4] == pieces;
  }
}
