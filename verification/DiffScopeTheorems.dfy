/** A line is touched when it was added. */
module DiffScopeTheorems {
  // A diff, printed as git prints it, is parsed, written out as ranges and read back.

  import opened Options
  import opened Numbers
  import opened Text
  import opened GitPaths
  import opened DiffScope

  // ---- Diffs, and how git prints them with no context lines

  /** A run of lines taken out and put in. The texts are arbitrary: one may look like a header. */
  datatype Hunk = Hunk(oldRange: string, start: nat, section: string, removed: seq<string>, added: seq<string>,
                       oldUnterminated: bool, newUnterminated: bool)

  /** The new side of a file's change: a path, nothing (the file went), or no hunks to speak of. */
  datatype Target = NewFile(path: string) | Gone | Unnamed

  datatype FileDiff = FileDiff(title: string, extra: seq<string>, target: Target, hunks: seq<Hunk>)

  function Count(n: nat): string {
    if n == 1 then "" else "," + Decimal(n)
  }

  function HunkHeader(h: Hunk): string {
    "@@ -" + (h.oldRange + (" +" + (Decimal(h.start) + (Count(|h.added|) + (" @@" + h.section)))))
  }

  function Marked(mark: char, texts: seq<string>): seq<string> {
    if texts == [] then [] else [[mark] + texts[0]] + Marked(mark, texts[1..])
  }

  function Unterminated(b: bool): seq<string> {
    if b then ["\\ No newline at end of file"] else []
  }

  function HunkBody(h: Hunk): seq<string> {
    Marked('-', h.removed) + Unterminated(h.oldUnterminated) + Marked('+', h.added) + Unterminated(h.newUnterminated)
  }

  function HunkLines(hunks: seq<Hunk>): seq<string> {
    if hunks == [] then [] else [HunkHeader(hunks[0])] + HunkBody(hunks[0]) + HunkLines(hunks[1..])
  }

  /** Git puts a tab after a name that has a space in it. */
  function TargetText(path: string): string {
    GitForm("b/" + path) + if ' ' in path then "\t" else ""
  }

  function TargetLines(target: Target): seq<string> {
    match target
    case NewFile(path) => [TARGET_LINE + TargetText(path)]
    case Gone => [TARGET_LINE + "/dev/null"]
    case Unnamed => []
  }

  function FileLines(f: FileDiff): seq<string> {
    [DIFF_LINE + f.title] + f.extra + TargetLines(f.target) + HunkLines(f.hunks)
  }

  function DiffLines(d: seq<FileDiff>): seq<string> {
    if d == [] then [] else FileLines(d[0]) + DiffLines(d[1..])
  }

  /** A line as it is read: with its newline. */
  function Terminated(lines: seq<string>): seq<string> {
    if lines == [] then [] else [lines[0] + "\n"] + Terminated(lines[1..])
  }

  predicate NoNewline(s: string) {
    '\n' !in s
  }

  /** A line of a file's header before its `+++ `: index, mode, similarity, `--- `. */
  predicate IsExtra(line: string) {
    && NoNewline(line)
    && StripPrefix(line, DIFF_LINE).None? && StripPrefix(line, TARGET_LINE).None? && ParseHunk(line).None?
  }

  predicate WellFormedHunk(h: Hunk) {
    && h.oldRange != [] && (forall c | c in h.oldRange :: !IsSpace(c))
    && NoNewline(h.section)
    && (forall t | t in h.removed :: NoNewline(t)) && (forall t | t in h.added :: NoNewline(t))
  }

  predicate WellFormedFile(f: FileDiff) {
    && NoNewline(f.title) && (forall l | l in f.extra :: IsExtra(l))
    && (forall h | h in f.hunks :: WellFormedHunk(h))
    && (f.target.NewFile? ==> f.target.path != "")
    && (f.target.Gone? ==> forall h | h in f.hunks :: h.added == [])
    && (f.target.Unnamed? ==> f.hunks == [])
  }

  predicate WellFormed(d: seq<FileDiff>) {
    forall f | f in d :: WellFormedFile(f)
  }

  /** The diff puts line `line` in the new version of `path`. */
  ghost predicate Adds(d: seq<FileDiff>, path: string, line: int) {
    exists f, h :: f in d && f.target == NewFile(path) && h in f.hunks && h.start <= line < h.start + |h.added|
  }

  // ---- Lines the parser passes over

  lemma RStripsOne(line: string)
    requires NoNewline(line)
    ensures RStripNewlines(line + "\n") == line
  {
    assert (line + "\n")[..|line|] == line;
    assert line != [] ==> line[|line| - 1] in line;
  }

  lemma {:induction false} TerminatedConcat(a: seq<string>, b: seq<string>)
    ensures Terminated(a + b) == Terminated(a) + Terminated(b)
  {
    if a == [] {
      assert a + b == b;
    } else {
      assert (a + b)[1..] == a[1..] + b;
      TerminatedConcat(a[1..], b);
    }
  }

  lemma {:induction false} FeedConcat(st: State, a: seq<string>, b: seq<string>)
    ensures Feed(st, a + b) == match Feed(st, a) { case None => None case Some(mid) => Feed(mid, b) }
    decreases |a|
  {
    if a == [] {
      assert a + b == b;
    } else {
      assert (a + b)[1..] == a[1..] + b;
      var next := Step(st, a[0]);
      if next.Some? {
        FeedConcat(next.value, a[1..], b);
      }
    }
  }

  predicate IsBody(line: string) {
    NoNewline(line) && line != [] && (line[0] == '-' || line[0] == '+' || line[0] == '\\')
  }

  /** Inside a hunk no line of text is taken for a header, whatever it looks like. */
  lemma BodyLineIgnored(st: State, line: string)
    requires !st.inHeader && IsBody(line)
    ensures Step(st, line + "\n") == Some(st)
  {
    RStripsOne(line);
    assert DIFF_LINE[0] == 'd';
    assert "@@ -"[0] == '@';
  }

  lemma {:induction false} BodyIgnored(st: State, lines: seq<string>)
    requires !st.inHeader && forall l | l in lines :: IsBody(l)
    ensures Feed(st, Terminated(lines)) == Some(st)
  {
    if lines != [] {
      assert lines[0] in lines;
      BodyLineIgnored(st, lines[0]);
      BodyIgnored(st, lines[1..]);
    }
  }

  lemma {:induction false} MarkedIsBody(mark: char, texts: seq<string>)
    requires (mark == '-' || mark == '+') && forall t | t in texts :: NoNewline(t)
    ensures forall l | l in Marked(mark, texts) :: IsBody(l)
  {
    if texts != [] {
      assert texts[0] in texts;
      MarkedIsBody(mark, texts[1..]);
    }
  }

  lemma HunkBodyIgnored(st: State, h: Hunk)
    requires !st.inHeader && WellFormedHunk(h)
    ensures Feed(st, Terminated(HunkBody(h))) == Some(st)
  {
    MarkedIsBody('-', h.removed);
    MarkedIsBody('+', h.added);
    forall l | l in HunkBody(h) ensures IsBody(l) {
    }
    BodyIgnored(st, HunkBody(h));
  }

  lemma {:induction false} ExtraIgnored(st: State, lines: seq<string>)
    requires forall l | l in lines :: IsExtra(l)
    ensures Feed(st, Terminated(lines)) == Some(st)
  {
    if lines != [] {
      assert lines[0] in lines;
      RStripsOne(lines[0]);
      ExtraIgnored(st, lines[1..]);
    }
  }

  // ---- Lines the parser acts on

  lemma DecimalPrints(n: nat, rest: string)
    requires rest != [] ==> !IsDigit(rest[0])
    ensures TakeRun(Decimal(n) + rest, IsDigit) == Some((Decimal(n), rest)) && Value(Decimal(n)) == n
  {
    ValueOfDecimal(n);
    TakesRun(Decimal(n), rest, IsDigit);
  }

  lemma HunkLengthRead(n: nat, section: string)
    ensures HunkLength(Count(n) + (" @@" + section)) == Some(n)
    ensures (Count(n) + (" @@" + section))[0] == ',' || (Count(n) + (" @@" + section))[0] == ' '
  {
    StripsPrefix(" @@", section);
    var tail := " @@" + section;
    if n == 1 {
      assert Count(n) + tail == tail && tail[0] == ' ';
    } else {
      assert (Count(n) + tail)[0] == ',' && (Count(n) + tail)[1..] == Decimal(n) + tail;
      DecimalPrints(n, tail);
    }
  }

  /** A printed hunk header gives back the new side's start and length. */
  lemma HunkHeaderRead(h: Hunk)
    requires WellFormedHunk(h)
    ensures ParseHunk(HunkHeader(h)) == Some((h.start, |h.added|))
  {
    var rest := Count(|h.added|) + (" @@" + h.section);
    HunkLengthRead(|h.added|, h.section);
    StripsPrefix("@@ -", h.oldRange + (" +" + (Decimal(h.start) + rest)));
    assert IsSpace(' ');
    TakesRun(h.oldRange, " +" + (Decimal(h.start) + rest), NotSpace);
    StripsPrefix(" +", Decimal(h.start) + rest);
    DecimalPrints(h.start, rest);
  }

  lemma {:induction false} DigitsAreOneLine(n: nat)
    ensures forall c | c in Decimal(n) :: '0' <= c <= '9'
  {
    ValueOfDecimal(n);
  }

  lemma HunkHeaderOneLine(h: Hunk)
    requires WellFormedHunk(h)
    ensures NoNewline(HunkHeader(h))
  {
    DigitsAreOneLine(h.start);
    DigitsAreOneLine(|h.added|);
    assert IsSpace('\n');
  }

  /** A file's spans on the new side, hunk by hunk; a hunk that only deletes leaves none. */
  function SpansFrom(hunks: seq<Hunk>): seq<Span> {
    if hunks == [] then []
    else
      var h := hunks[0];
      (if h.added == [] then [] else [Span(h.start, h.start + |h.added| - 1)]) + SpansFrom(hunks[1..])
  }

  function AddAll(changed: seq<Entry>, path: string, spans: seq<Span>): seq<Entry>
    decreases |spans|
  {
    if path == "" || spans == [] then changed else AddAll(AddSpan(changed, path, spans[0]), path, spans[1..])
  }

  lemma HunkHeaderFed(st: State, h: Hunk)
    requires WellFormedHunk(h)
    ensures Step(st, HunkHeader(h) + "\n") ==
            Some(State(AddAll(st.changed, st.current, SpansFrom([h])), st.current, false))
  {
    HunkHeaderOneLine(h);
    RStripsOne(HunkHeader(h));
    HunkHeaderRead(h);
    assert HunkHeader(h)[0] == '@' && DIFF_LINE[0] == 'd' && TARGET_LINE[0] == '+';
    assert [h][1..] == [];
    if st.current != "" && h.added != [] {
      var span := Span(h.start, h.start + |h.added| - 1);
      assert SpansFrom([h]) == [span] && [span][1..] == [];
      assert AddAll(AddSpan(st.changed, st.current, span), st.current, []) == AddSpan(st.changed, st.current, span);
    }
  }

  lemma {:induction false} AddAllConcat(changed: seq<Entry>, path: string, a: seq<Span>, b: seq<Span>)
    ensures AddAll(changed, path, a + b) == AddAll(AddAll(changed, path, a), path, b)
    decreases |a|
  {
    if a == [] {
      assert a + b == b;
    } else if path != "" {
      assert (a + b)[1..] == a[1..] + b;
      AddAllConcat(AddSpan(changed, path, a[0]), path, a[1..], b);
    }
  }

  lemma HunkFed(st: State, h: Hunk, rest: seq<string>)
    requires WellFormedHunk(h)
    ensures Feed(st, Terminated([HunkHeader(h)] + HunkBody(h) + rest)) ==
            Feed(State(AddAll(st.changed, st.current, SpansFrom([h])), st.current, false), Terminated(rest))
  {
    var next := State(AddAll(st.changed, st.current, SpansFrom([h])), st.current, false);
    HunkHeaderFed(st, h);
    HunkBodyIgnored(next, h);
    FirstFed(st, HunkHeader(h), HunkBody(h), rest, next);
  }

  lemma {:induction false} HunksFed(st: State, hunks: seq<Hunk>)
    requires forall h | h in hunks :: WellFormedHunk(h)
    ensures Feed(st, Terminated(HunkLines(hunks))) ==
            Some(State(AddAll(st.changed, st.current, SpansFrom(hunks)), st.current, st.inHeader && hunks == []))
    decreases |hunks|
  {
    if hunks != [] {
      var h, rest := hunks[0], hunks[1..];
      assert h in hunks;
      HunkFed(st, h, HunkLines(rest));
      var mid := AddAll(st.changed, st.current, SpansFrom([h]));
      HunksFed(State(mid, st.current, false), rest);
      AddAllConcat(st.changed, st.current, SpansFrom([h]), SpansFrom(rest));
      SpansFromFirst(hunks);
    }
  }

  lemma SpansFromFirst(hunks: seq<Hunk>)
    requires hunks != []
    ensures SpansFrom(hunks) == SpansFrom([hunks[0]]) + SpansFrom(hunks[1..])
  {
    assert [hunks[0]][1..] == [];
  }

  /** Feeding a line, lines the state is not moved by, and the rest. */
  lemma FirstFed(st: State, first: string, ignored: seq<string>, rest: seq<string>, next: State)
    requires Step(st, first + "\n") == Some(next) && Feed(next, Terminated(ignored)) == Some(next)
    ensures Feed(st, Terminated([first] + ignored + rest)) == Feed(next, Terminated(rest))
  {
    assert [first] + ignored + rest == [first] + (ignored + rest);
    TerminatedConcat(ignored, rest);
    FeedConcat(next, Terminated(ignored), Terminated(rest));
    assert Terminated([first] + (ignored + rest)) == [first + "\n"] + Terminated(ignored + rest) by {
      assert ([first] + (ignored + rest))[1..] == ignored + rest;
    }
    assert ([first + "\n"] + Terminated(ignored + rest))[1..] == Terminated(ignored + rest);
  }

  /** The name the parser keeps for a file: its path, unless a space in it made git put a tab after
      the name, which the parser takes for part of it, or which keeps it from unquoting. */
  function Recorded(target: Target): string {
    match target
    case NewFile(path) =>
      if ' ' !in path then path else if NeedsQuotes("b/" + path) then "" else path + "\t"
    case Gone => ""
    case Unnamed => ""
  }

  lemma TargetRead(path: string)
    ensures TargetOf(TargetText(path)) == Some(Recorded(NewFile(path)))
    ensures NoNewline(TARGET_LINE + TargetText(path))
  {
    var name := "b/" + path;
    GitFormIsPrintable(name);
    assert name[2..] == path;
    if ' ' !in path {
      UnquotesGitForm(name);
      assert TargetText(path) == GitForm(name);
    } else {
      var text := TargetText(path);
      assert text[|text| - 1] == '\t';
      assert UnquotePath(text) == Some(text);
      if !NeedsQuotes(name) {
        assert text[2..] == path + "\t";
      }
    }
  }

  lemma TargetLineFed(st: State, text: string)
    requires st.inHeader && NoNewline(TARGET_LINE + text) && TargetOf(text).Some?
    ensures Step(st, TARGET_LINE + text + "\n") == Some(st.(current := TargetOf(text).value))
  {
    RStripsOne(TARGET_LINE + text);
    StripsPrefix(TARGET_LINE, text);
    assert (TARGET_LINE + text)[0] == '+' && DIFF_LINE[0] == 'd';
  }

  lemma TargetLinesFed(st: State, target: Target)
    requires st.inHeader && st.current == ""
    ensures Feed(st, Terminated(TargetLines(target))) == Some(st.(current := Recorded(target)))
  {
    match target
    case NewFile(path) =>
      TargetRead(path);
      TargetLineFed(st, TargetText(path));
      assert Terminated(TargetLines(target))[1..] == [];
    case Gone =>
      assert "/dev/null"[0] == '/' && "b/"[0] == 'b';
      assert UnquotePath("/dev/null") == Some("/dev/null");
      TargetLineFed(st, "/dev/null");
      assert Terminated(TargetLines(target))[1..] == [];
    case Unnamed =>
  }

  lemma DiffLineFed(st: State, title: string)
    requires NoNewline(title)
    ensures Step(st, DIFF_LINE + title + "\n") == Some(State(st.changed, "", true))
  {
    RStripsOne(DIFF_LINE + title);
    StripsPrefix(DIFF_LINE, title);
  }

  /** One file's part of the diff adds its spans under its recorded name, whatever came before. */
  lemma FileFed(st: State, f: FileDiff)
    requires WellFormedFile(f)
    ensures var end := Feed(st, Terminated(FileLines(f)));
            end.Some? && end.value.changed == AddAll(st.changed, Recorded(f.target), SpansFrom(f.hunks))
  {
    var header := State(st.changed, "", true);
    DiffLineFed(st, f.title);
    ExtraIgnored(header, f.extra);
    var rest := TargetLines(f.target) + HunkLines(f.hunks);
    assert FileLines(f) == [DIFF_LINE + f.title] + f.extra + rest;
    FirstFed(st, DIFF_LINE + f.title, f.extra, rest, header);
    TerminatedConcat(TargetLines(f.target), HunkLines(f.hunks));
    TargetLinesFed(header, f.target);
    FeedConcat(header, Terminated(TargetLines(f.target)), Terminated(HunkLines(f.hunks)));
    HunksFed(header.(current := Recorded(f.target)), f.hunks);
  }

  function RecordAll(changed: seq<Entry>, d: seq<FileDiff>): seq<Entry>
    decreases |d|
  {
    if d == [] then changed else RecordAll(AddAll(changed, Recorded(d[0].target), SpansFrom(d[0].hunks)), d[1..])
  }

  lemma {:induction false} DiffFed(st: State, d: seq<FileDiff>)
    requires WellFormed(d)
    ensures var end := Feed(st, Terminated(DiffLines(d))); end.Some? && end.value.changed == RecordAll(st.changed, d)
    decreases |d|
  {
    if d != [] {
      assert d[0] in d;
      FileFed(st, d[0]);
      TerminatedConcat(FileLines(d[0]), DiffLines(d[1..]));
      FeedConcat(st, Terminated(FileLines(d[0])), Terminated(DiffLines(d[1..])));
      DiffFed(Feed(st, Terminated(FileLines(d[0]))).value, d[1..]);
    }
  }

  // ---- Dictionaries

  lemma {:induction false} SpansOfAdd(changed: seq<Entry>, path: string, span: Span, q: string)
    ensures SpansOf(AddSpan(changed, path, span), q) == SpansOf(changed, q) + if q == path then [span] else []
  {
    if changed != [] && changed[0].path != path {
      SpansOfAdd(changed[1..], path, span, q);
    }
  }

  lemma {:induction false} SpansOfAddAll(changed: seq<Entry>, path: string, spans: seq<Span>, q: string)
    ensures SpansOf(AddAll(changed, path, spans), q) == SpansOf(changed, q) + if q == path && path != "" then spans else []
    decreases |spans|
  {
    if path != "" && spans != [] {
      SpansOfAdd(changed, path, spans[0], q);
      SpansOfAddAll(AddSpan(changed, path, spans[0]), path, spans[1..], q);
      assert spans == [spans[0]] + spans[1..];
    }
  }

  /** The spans a diff gives a name. */
  function SpansFor(d: seq<FileDiff>, q: string): seq<Span> {
    if d == [] then []
    else (if Recorded(d[0].target) == q && q != "" then SpansFrom(d[0].hunks) else []) + SpansFor(d[1..], q)
  }

  lemma {:induction false} SpansOfRecordAll(changed: seq<Entry>, d: seq<FileDiff>, q: string)
    ensures SpansOf(RecordAll(changed, d), q) == SpansOf(changed, q) + SpansFor(d, q)
    decreases |d|
  {
    if d != [] {
      var name, spans := Recorded(d[0].target), SpansFrom(d[0].hunks);
      SpansOfAddAll(changed, name, spans, q);
      SpansOfRecordAll(AddAll(changed, name, spans), d[1..], q);
    }
  }

  /** Every entry has a path of its own. */
  predicate Unique(changed: seq<Entry>) {
    forall i, j | 0 <= i < j < |changed| :: changed[i].path != changed[j].path
  }

  predicate Keys(changed: seq<Entry>, allowed: string -> bool) {
    forall e | e in changed :: allowed(e.path)
  }

  predicate IsKey(changed: seq<Entry>, path: string) {
    exists e | e in changed :: e.path == path
  }

  lemma {:induction false} AddSpanAddsKey(changed: seq<Entry>, path: string, span: Span, q: string)
    ensures IsKey(AddSpan(changed, path, span), q) <==> q == path || IsKey(changed, q)
  {
    var more := AddSpan(changed, path, span);
    if changed == [] {
      assert more[0] in more;
    } else {
      assert changed == [changed[0]] + changed[1..] && more == [more[0]] + more[1..];
      assert more[0] in more && changed[0] in changed;
      if changed[0].path != path {
        AddSpanAddsKey(changed[1..], path, span, q);
      }
    }
  }

  lemma {:induction false} AddSpanUnique(changed: seq<Entry>, path: string, span: Span)
    requires Unique(changed)
    ensures Unique(AddSpan(changed, path, span))
  {
    if changed != [] && changed[0].path != path {
      AddSpanUnique(changed[1..], path, span);
      AddSpanAddsKey(changed[1..], path, span, changed[0].path);
      var rest := AddSpan(changed[1..], path, span);
      forall j | 0 <= j < |rest| ensures changed[0].path != rest[j].path {
        assert rest[j] in rest;
        assert IsKey(rest, rest[j].path);
      }
    }
  }

  lemma AddSpanKeeps(changed: seq<Entry>, path: string, span: Span, allowed: string -> bool)
    requires Unique(changed) && Keys(changed, allowed) && allowed(path)
    ensures Unique(AddSpan(changed, path, span)) && Keys(AddSpan(changed, path, span), allowed)
  {
    AddSpanUnique(changed, path, span);
    forall e | e in AddSpan(changed, path, span) ensures allowed(e.path) {
      assert IsKey(AddSpan(changed, path, span), e.path);
      AddSpanAddsKey(changed, path, span, e.path);
    }
  }

  lemma {:induction false} AddAllKeeps(changed: seq<Entry>, path: string, spans: seq<Span>, allowed: string -> bool)
    requires Unique(changed) && Keys(changed, allowed) && (spans != [] && path != "" ==> allowed(path))
    ensures Unique(AddAll(changed, path, spans)) && Keys(AddAll(changed, path, spans), allowed)
    decreases |spans|
  {
    if path != "" && spans != [] {
      AddSpanKeeps(changed, path, spans[0], allowed);
      AddAllKeeps(AddSpan(changed, path, spans[0]), path, spans[1..], allowed);
    }
  }

  lemma {:induction false} RecordAllKeeps(changed: seq<Entry>, d: seq<FileDiff>, allowed: string -> bool)
    requires Unique(changed) && Keys(changed, allowed)
    requires forall f | f in d && SpansFrom(f.hunks) != [] && Recorded(f.target) != "" :: allowed(Recorded(f.target))
    ensures Unique(RecordAll(changed, d)) && Keys(RecordAll(changed, d), allowed)
    decreases |d|
  {
    if d != [] {
      assert d[0] in d;
      AddAllKeeps(changed, Recorded(d[0].target), SpansFrom(d[0].hunks), allowed);
      RecordAllKeeps(AddAll(changed, Recorded(d[0].target), SpansFrom(d[0].hunks)), d[1..], allowed);
    }
  }

  // ---- Writing out and reading back

  /** A path that survives a line of its own, stripped. */
  predicate Survives(path: string) {
    path != "" && OneLine(path) && !IsSpace(path[0])
  }

  lemma DigitsNotSpace(c: char)
    requires '0' <= c <= '9'
    ensures !IsSpace(c) && !IsLineBreak(c) && c != ':' && c != '-'
  {
  }

  lemma LastColonAt(path: string, rest: string)
    requires ':' !in rest
    ensures ':' in path + ":" + rest && LastColon(path + ":" + rest) == |path|
  {
    var s := path + ":" + rest;
    assert s[|path|] == ':';
    assert s[|path| + 1..] == rest;
    LastColonUnique(s, LastColon(s), |path|);
  }

  lemma TailHas(s: string, n: nat, m: nat)
    requires n < m < |s|
    ensures s[m] in s[n + 1..]
  {
    assert s[n + 1..][m - n - 1] == s[m];
  }

  lemma LastColonUnique(s: string, n: nat, m: nat)
    requires n < |s| && m < |s| && s[n] == ':' && s[m] == ':' && ':' !in s[n + 1..] && ':' !in s[m + 1..]
    ensures n == m
  {
    if n < m {
      TailHas(s, n, m);
    } else if m < n {
      TailHas(s, m, n);
    }
  }

  lemma DashAt(first: string, last: string)
    requires '-' !in first
    ensures IndexOf(first + "-" + last, '-') == |first|
  {
    var s := first + "-" + last;
    assert s[|first|] == '-';
    assert forall i | 0 <= i < |first| :: s[i] == first[i] && first[i] in first;
  }

  lemma {:induction false} DigitsKept(s: string)
    requires AllDigits(s)
    ensures DigitsOf(s) == s
  {
    if s != [] {
      DigitsKept(s[1..]);
      assert s == [s[0]] + s[1..];
    }
  }

  lemma ParsesNumeral(n: nat)
    ensures ParseNumeral(Decimal(n)) == Some(n)
  {
    ValueOfDecimal(n);
    DigitsKept(Decimal(n));
    assert forall i | 0 <= i < |Decimal(n)| :: Decimal(n)[i] in Decimal(n);
  }

  lemma NothingToTrim(s: string)
    requires s != [] && !IsSpace(s[0]) && !IsSpace(s[|s| - 1])
    ensures Trim(s) == s
  {
  }

  lemma DecimalIsPlain(n: nat)
    ensures var d := Decimal(n);
            d != [] && forall c | c in d :: !IsSpace(c) && !IsLineBreak(c) && c != ':' && c != '-' && c != '+'
  {
    ValueOfDecimal(n);
    forall c | c in Decimal(n) ensures !IsSpace(c) && !IsLineBreak(c) && c != ':' && c != '-' && c != '+' {
      DigitsNotSpace(c);
    }
  }

  lemma ParsesPositive(d: string, n: nat)
    requires d != [] && (forall c | c in d :: !IsSpace(c) && c != '-' && c != '+') && ParseNumeral(d) == Some(n)
    ensures ParseInt(d) == Some(n)
  {
    assert d[0] in d && d[|d| - 1] in d;
    NothingToTrim(d);
  }

  lemma PlainNumeral(n: nat)
    ensures var d := Decimal(n);
            && ParseInt(d) == Some(n) && ':' !in d && '-' !in d && d != []
            && forall c | c in d :: !IsSpace(c) && !IsLineBreak(c)
  {
    DecimalIsPlain(n);
    ParsesNumeral(n);
    ParsesPositive(Decimal(n), n);
  }

  lemma ParsesNegative(d: string, n: int)
    requires d != [] && (forall c | c in d :: !IsSpace(c)) && n >= 0 && ParseNumeral(d) == Some(n)
    ensures ParseInt("-" + d) == Some(0 - n)
  {
    var s := "-" + d;
    assert d[|d| - 1] in d && s[1..] == d && s[|s| - 1] == d[|d| - 1];
    NothingToTrim(s);
  }

  lemma NegativeParses(n: nat)
    ensures ParseInt("-" + Decimal(n)) == Some(0 - n as int)
  {
    DecimalIsPlain(n);
    ParsesNumeral(n);
    ParsesNegative(Decimal(n), n);
  }

  lemma TextParses(n: int, text: string)
    requires text == if n >= 0 then Decimal(n) else "-" + Decimal(-n)
    ensures ParseInt(text) == Some(n)
  {
    if n >= 0 {
      PlainNumeral(n);
    } else {
      NegativeParses(-n);
    }
  }

  lemma IntTextParses(n: int)
    ensures ParseInt(IntText(n)) == Some(n)
  {
    TextParses(n, IntText(n));
  }

  lemma IntTextPlain(n: int)
    ensures var d := IntText(n); ':' !in d && d != [] && forall c | c in d :: !IsSpace(c) && !IsLineBreak(c)
  {
    DecimalIsPlain(if n >= 0 then n else -n);
  }

  /** The text after a written entry's colon. */
  function SpanText(span: Span): string {
    Decimal(span.first) + "-" + IntText(span.last)
  }

  lemma SpanTextPlain(span: Span)
    ensures var text := SpanText(span);
            && ':' !in text && (forall c | c in text :: !IsSpace(c) && !IsLineBreak(c)) && text != []
  {
    PlainNumeral(span.first);
    IntTextPlain(span.last);
  }

  lemma TextsParse(first: string, last: string, a: nat, b: int)
    requires '-' !in first && ParseInt(first) == Some(a) && ParseInt(last) == Some(b)
    ensures ParseSpan(first + "-" + last) == Some(Span(a, b))
  {
    DashAt(first, last);
    var text := first + "-" + last;
    assert text[..|first|] == first && text[|first| + 1..] == last;
  }

  lemma SpanParses(span: Span)
    ensures ParseSpan(SpanText(span)) == Some(span)
  {
    PlainNumeral(span.first);
    IntTextParses(span.last);
    TextsParse(Decimal(span.first), IntText(span.last), span.first, span.last);
  }

  lemma EntryTrimmed(path: string, text: string)
    requires Survives(path) && text != [] && forall c | c in text :: !IsSpace(c)
    ensures Trim(path + ":" + text) == path + ":" + text
  {
    var entry := path + ":" + text;
    assert text[|text| - 1] in text && entry[|entry| - 1] == text[|text| - 1] && entry[0] == path[0];
  }

  lemma EntryReads(path: string, text: string)
    requires Survives(path) && text != [] && ':' !in text && forall c | c in text :: !IsSpace(c)
    ensures ReadEntry(path + ":" + text) ==
            match ParseSpan(text) { case None => None case Some(span) => Some((path, span)) }
  {
    EntryTrimmed(path, text);
    LastColonAt(path, text);
    var entry := path + ":" + text;
    assert entry[|path| + 1..] == text && entry[..|path|] == path;
  }

  /** A written span reads back as itself. */
  lemma SpanReadsBack(path: string, span: Span)
    requires Survives(path)
    ensures OneLine(FormatSpan(path, span)) && ReadEntry(FormatSpan(path, span)) == Some((path, span))
  {
    SpanTextPlain(span);
    SpanParses(span);
    FormatsAs(path, span);
    EntryReads(path, SpanText(span));
  }

  lemma FormatsAs(path: string, span: Span)
    ensures FormatSpan(path, span) == path + ":" + SpanText(span)
  {
  }

  /** All the spans a dictionary's entries give a path. */
  function AllSpans(changed: seq<Entry>, q: string): seq<Span> {
    if changed == [] then [] else (if changed[0].path == q then changed[0].spans else []) + AllSpans(changed[1..], q)
  }

  lemma {:induction false} UniqueSpans(changed: seq<Entry>, q: string)
    requires Unique(changed)
    ensures AllSpans(changed, q) == SpansOf(changed, q)
  {
    if changed != [] {
      UniqueSpans(changed[1..], q);
      if changed[0].path == q {
        NoSpans(changed[1..], q);
      }
    }
  }

  lemma {:induction false} NoSpans(changed: seq<Entry>, q: string)
    requires forall e | e in changed :: e.path != q
    ensures AllSpans(changed, q) == []
  {
    if changed != [] {
      assert changed[0] in changed;
      NoSpans(changed[1..], q);
    }
  }

  lemma {:induction false} ReadLinesConcat(acc: seq<Entry>, a: seq<string>, b: seq<string>)
    ensures ReadLines(acc, a + b) == ReadLines(ReadLines(acc, a), b)
    decreases |a|
  {
    if a == [] {
      assert a + b == b;
    } else {
      assert (a + b)[1..] == a[1..] + b;
      var entry := ReadEntry(a[0]);
      ReadLinesConcat(if entry.None? then acc else AddSpan(acc, entry.value.0, entry.value.1), a[1..], b);
    }
  }

  lemma OneRead(acc: seq<Entry>, path: string, span: Span, rest: seq<string>)
    requires Survives(path)
    ensures ReadLines(acc, [FormatSpan(path, span)] + rest) == ReadLines(AddSpan(acc, path, span), rest)
  {
    SpanReadsBack(path, span);
    assert ([FormatSpan(path, span)] + rest)[1..] == rest;
  }

  lemma Associative(a: seq<Span>, b: seq<Span>, c: seq<Span>)
    ensures a + b + c == a + (b + c)
  {
  }

  lemma {:induction false} SpansReadBack(acc: seq<Entry>, path: string, spans: seq<Span>, q: string)
    requires Survives(path)
    ensures SpansOf(ReadLines(acc, FormatSpans(path, spans)), q) == SpansOf(acc, q) + if q == path then spans else []
    decreases |spans|
  {
    if spans != [] {
      OneRead(acc, path, spans[0], FormatSpans(path, spans[1..]));
      SpansOfAdd(acc, path, spans[0], q);
      SpansReadBack(AddSpan(acc, path, spans[0]), path, spans[1..], q);
      assert spans == [spans[0]] + spans[1..];
      Associative(SpansOf(acc, q), [spans[0]], spans[1..]);
    }
  }

  lemma EntryReadsBack(acc: seq<Entry>, e: Entry, q: string, rest: seq<string>) returns (mid: seq<Entry>)
    requires Survives(e.path)
    ensures SpansOf(mid, q) == SpansOf(acc, q) + if e.path == q then e.spans else []
    ensures ReadLines(acc, FormatSpans(e.path, e.spans) + rest) == ReadLines(mid, rest)
  {
    mid := ReadLines(acc, FormatSpans(e.path, e.spans));
    SpansReadBack(acc, e.path, e.spans, q);
    ReadLinesConcat(acc, FormatSpans(e.path, e.spans), rest);
  }

  lemma {:induction false} RangesReadBack(acc: seq<Entry>, changed: seq<Entry>, q: string)
    requires forall e | e in changed :: Survives(e.path)
    ensures SpansOf(ReadLines(acc, FormatRanges(changed)), q) == SpansOf(acc, q) + AllSpans(changed, q)
    decreases |changed|
  {
    if changed != [] {
      assert changed[0] in changed;
      var mid := EntryReadsBack(acc, changed[0], q, FormatRanges(changed[1..]));
      RangesReadBack(mid, changed[1..], q);
      Associative(SpansOf(acc, q), if changed[0].path == q then changed[0].spans else [], AllSpans(changed[1..], q));
    }
  }

  lemma {:induction false} FileSplits(entries: seq<string>)
    requires forall e | e in entries :: OneLine(e)
    ensures SplitLines(AsFile(entries)) == entries
  {
    if entries != [] {
      assert entries[0] in entries;
      FileSplits(entries[1..]);
      SplitsFirstLine(entries[0], AsFile(entries[1..]));
    }
  }

  lemma {:induction false} FormattedOneLine(changed: seq<Entry>)
    requires forall e | e in changed :: Survives(e.path)
    ensures forall l | l in FormatRanges(changed) :: OneLine(l)
  {
    if changed != [] {
      assert changed[0] in changed;
      FormattedSpansOneLine(changed[0].path, changed[0].spans);
      FormattedOneLine(changed[1..]);
    }
  }

  lemma {:induction false} FormattedSpansOneLine(path: string, spans: seq<Span>)
    requires Survives(path)
    ensures forall l | l in FormatSpans(path, spans) :: OneLine(l)
  {
    if spans != [] {
      SpanReadsBack(path, spans[0]);
      FormattedSpansOneLine(path, spans[1..]);
    }
  }

  // ---- The whole way round

  /** Parse a diff, write its ranges to a file, and read the file. */
  function Scope(lines: seq<string>): Option<seq<Entry>> {
    match Feed(START, lines)
    case None => None
    case Some(end) => Some(ReadLines([], SplitLines(AsFile(FormatRanges(end.changed)))))
  }

  /** A path with no space, no line break and no white space in front. */
  predicate Safe(path: string) {
    ' ' !in path && Survives(path)
  }

  predicate AddsLines(f: FileDiff) {
    f.target.NewFile? && exists h :: h in f.hunks && h.added != []
  }

  lemma {:induction false} SpansFromHunks(hunks: seq<Hunk>, line: int)
    ensures (exists span | span in SpansFrom(hunks) :: span.first <= line <= span.last) <==>
            exists h | h in hunks :: h.start <= line < h.start + |h.added|
    ensures SpansFrom(hunks) != [] <==> exists h :: h in hunks && h.added != []
  {
    if hunks != [] {
      SpansFromHunks(hunks[1..], line);
      var h := hunks[0];
      assert forall x :: x in hunks <==> x == h || x in hunks[1..];
      assert h.added != [] ==> Span(h.start, h.start + |h.added| - 1) in SpansFrom(hunks);
    }
  }

  lemma {:induction false} SpansForAdds(d: seq<FileDiff>, q: string, line: int)
    requires q != ""
    ensures (exists span | span in SpansFor(d, q) :: span.first <= line <= span.last) <==>
            exists f, h :: f in d && Recorded(f.target) == q && h in f.hunks && h.start <= line < h.start + |h.added|
  {
    if d != [] {
      SpansForAdds(d[1..], q, line);
      SpansFromHunks(d[0].hunks, line);
      assert forall x :: x in d <==> x == d[0] || x in d[1..];
    }
  }

  /** For every diff whose files with added lines have safe paths, however misleading its text: a line
      of a path is touched exactly when the diff added it. */
  lemma TouchedIffAdded(d: seq<FileDiff>, path: string, line: int)
    requires WellFormed(d) && forall f | f in d && AddsLines(f) :: Safe(f.target.path)
    ensures Scope(Terminated(DiffLines(d))).Some?
    ensures Touched(Scope(Terminated(DiffLines(d))).value, path, line) <==> Adds(d, path, line)
  {
    DiffFed(START, d);
    var changed := RecordAll([], d);
    forall f | f in d && SpansFrom(f.hunks) != [] && Recorded(f.target) != "" ensures Survives(Recorded(f.target)) {
      SpansFromHunks(f.hunks, 0);
    }
    RecordAllKeeps([], d, Survives);
    FormattedOneLine(changed);
    FileSplits(FormatRanges(changed));
    RangesReadBack([], changed, path);
    UniqueSpans(changed, path);
    SpansOfRecordAll([], d, path);
    TouchedIsAdds(d, path, line);
  }

  lemma TouchedIsAdds(d: seq<FileDiff>, path: string, line: int)
    requires WellFormed(d) && forall f | f in d && AddsLines(f) :: Safe(f.target.path)
    ensures (exists span | span in SpansFor(d, path) :: span.first <= line <= span.last) <==> Adds(d, path, line)
  {
    if path == "" {
      NoSpansForNothing(d);
      assert !Adds(d, path, line);
    } else {
      SpansForAdds(d, path, line);
      forall f, h | f in d && h in f.hunks && h.start <= line < h.start + |h.added|
        ensures Recorded(f.target) == path <==> f.target == NewFile(path)
      {
        assert WellFormedFile(f);
        assert f.target.NewFile? ==> AddsLines(f);
      }
    }
  }

  lemma {:induction false} NoSpansForNothing(d: seq<FileDiff>)
    ensures SpansFor(d, "") == []
  {
    if d != [] {
      NoSpansForNothing(d[1..]);
    }
  }
}
