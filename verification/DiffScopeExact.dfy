/** Where a diff scope is exact. */
module DiffScopeExact {
  // Their ranges survive being written out and read back, and no others do.

  import opened Options
  import opened Numbers
  import opened Text
  import opened GitPaths
  import opened DiffScope
  import opened DiffScopeTheorems

  /** A line is touched after parsing the printed diff, writing its ranges and reading them back. */
  ghost predicate Scoped(d: seq<FileDiff>, path: string, line: int) {
    var scope := Scope(Terminated(DiffLines(d)));
    scope.Some? && Touched(scope.value, path, line)
  }

  /** The lines touched are exactly the lines the diff added. */
  ghost predicate ScopesExactly(d: seq<FileDiff>) {
    forall path, line: int :: Scoped(d, path, line) <==> Adds(d, path, line)
  }

  predicate AllSafe(d: seq<FileDiff>) {
    forall f | f in d && AddsLines(f) :: Safe(f.target.path)
  }

  // ---- What can be read back

  predicate ReadsAs(lines: seq<string>, q: string, span: Span) {
    exists l :: l in lines && ReadEntry(l) == Some((q, span))
  }

  lemma {:induction false} ReadFromALine(acc: seq<Entry>, lines: seq<string>, q: string, span: Span)
    requires span in SpansOf(ReadLines(acc, lines), q)
    ensures span in SpansOf(acc, q) || ReadsAs(lines, q, span)
    decreases |lines|
  {
    if lines != [] {
      var entry := ReadEntry(lines[0]);
      assert lines[0] in lines;
      assert ReadsAs(lines[1..], q, span) ==> ReadsAs(lines, q, span);
      if entry.None? {
        ReadFromALine(acc, lines[1..], q, span);
      } else {
        ReadFromALine(AddSpan(acc, entry.value.0, entry.value.1), lines[1..], q, span);
        SpansOfAdd(acc, entry.value.0, entry.value.1, q);
      }
    }
  }

  lemma {:induction false} TrimDrops(s: string) returns (k: nat)
    requires s != [] && !IsSpace(s[|s| - 1])
    ensures k < |s| && Trim(s) == s[k..] && !IsSpace(s[k]) && forall i | 0 <= i < k :: IsSpace(s[i])
  {
    if IsSpace(s[0]) {
      var rest := TrimDrops(s[1..]);
      k := rest + 1;
      assert s[1..][rest..] == s[k..];
    } else {
      k := 0;
    }
  }

  lemma {:induction false} LineEndIsFirst(s: string)
    ensures forall i | 0 <= i < LineEnd(s) :: !IsLineBreak(s[i])
  {
    if s != [] && !IsLineBreak(s[0]) {
      LineEndIsFirst(s[1..]);
    }
  }

  lemma {:induction false} SplitsToOneLine(s: string)
    ensures forall l | l in SplitLines(s) :: OneLine(l)
    decreases |s|
  {
    if s != [] {
      LineEndIsFirst(s);
      var n := LineEnd(s);
      if n < |s| {
        SplitsToOneLine(s[if s[n] == '\r' && n + 1 < |s| && s[n + 1] == '\n' then n + 2 else n + 1..]);
      }
    }
  }

  /** A name read back has no line break in it and no white space in front. */
  lemma NameReadIsPlain(line: string, q: string, span: Span)
    requires OneLine(line) && ReadEntry(line) == Some((q, span))
    ensures OneLine(q) && (q != "" ==> !IsSpace(q[0])) && forall c | c in q :: c in line
  {
    TrimKeeps(line);
    assert q <= Trim(line);
  }

  // ---- Each line of the file comes from one entry

  lemma {:induction false} LineEndBefore(x: string, tail: string)
    requires tail != [] && tail[0] == '\n'
    ensures LineEnd(x + tail) == LineEnd(x)
  {
    if x == [] {
      assert x + tail == tail;
    } else {
      assert (x + tail)[1..] == x[1..] + tail;
      LineEndBefore(x[1..], tail);
    }
  }

  /** What is left of `x` after its first line break. */
  function AfterBreak(x: string): (y: string)
    requires LineEnd(x) < |x|
    ensures |y| < |x| && (y != [] ==> y[|y| - 1] == x[|x| - 1])
  {
    var n := LineEnd(x);
    x[if x[n] == '\r' && n + 1 < |x| && x[n + 1] == '\n' then n + 2 else n + 1..]
  }

  lemma SplitStep(x: string, tail: string)
    requires LineEnd(x) < |x| && x[|x| - 1] != '\r' && tail != [] && tail[0] == '\n'
    ensures SplitLines(x + tail) == [x[..LineEnd(x)]] + SplitLines(AfterBreak(x) + tail)
  {
    var n := LineEnd(x);
    LineEndBefore(x, tail);
    Sliced(x, tail, n);
    assert (x + tail)[n] == x[n] && (x + tail)[n + 1] == if n + 1 < |x| then x[n + 1] else tail[0];
    if x[n] == '\r' && n + 1 < |x| && x[n + 1] == '\n' {
      Sliced(x, tail, n + 2);
    } else {
      Sliced(x, tail, n + 1);
    }
  }

  lemma Sliced(x: string, tail: string, k: nat)
    requires k <= |x|
    ensures (x + tail)[k..] == x[k..] + tail && (x + tail)[..k] == x[..k]
  {
  }

  lemma {:induction false} SplitsApart(x: string, rest: string)
    requires x != [] ==> x[|x| - 1] != '\r'
    ensures SplitLines(x + ("\n" + rest)) == SplitLines(x + "\n") + SplitLines(rest)
    decreases |x|
  {
    if LineEnd(x) == |x| {
      LineEndIsFirst(x);
      SplitsFirstLine(x, rest);
      LoneLine(x);
      NewlineBetween(x, rest);
    } else {
      SplitStep(x, "\n" + rest);
      SplitStep(x, "\n");
      SplitsApart(AfterBreak(x), rest);
      Prepended([x[..LineEnd(x)]], SplitLines(AfterBreak(x) + "\n"), SplitLines(rest));
    }
  }

  lemma NewlineBetween(x: string, rest: string)
    ensures x + ("\n" + rest) == x + "\n" + rest
  {
  }

  lemma Prepended(a: seq<string>, b: seq<string>, c: seq<string>)
    ensures a + (b + c) == a + b + c
  {
  }

  lemma LoneLine(x: string)
    requires OneLine(x)
    ensures SplitLines(x + "\n") == [x]
  {
    SplitsFirstLine(x, "");
    assert x + "\n" + "" == x + "\n";
  }

  predicate LineOfSome(entries: seq<string>, line: string) {
    exists e :: e in entries && line in SplitLines(e + "\n")
  }

  lemma {:induction false} FileLineOfSome(entries: seq<string>, line: string)
    requires forall e | e in entries :: e != [] && e[|e| - 1] != '\r'
    requires line in SplitLines(AsFile(entries))
    ensures LineOfSome(entries, line)
  {
    if entries != [] {
      assert entries[0] in entries;
      SplitsApart(entries[0], AsFile(entries[1..]));
      NewlineBetween(entries[0], AsFile(entries[1..]));
      if line !in SplitLines(entries[0] + "\n") {
        FileLineOfSome(entries[1..], line);
        assert forall e | e in entries[1..] :: e in entries;
      }
    }
  }

  lemma {:induction false} SplitKeeps(s: string)
    ensures forall l, c | l in SplitLines(s) && c in l :: c in s
    decreases |s|
  {
    if s != [] {
      var n := LineEnd(s);
      if n < |s| {
        var rest := AfterBreak(s);
        SplitKeeps(rest);
        assert SplitLines(s) == [s[..n]] + SplitLines(rest);
        assert forall c | c in rest :: c in s;
      }
    }
  }

  // ---- What the file's entries are

  /** The diff adds lines to a file the parser keeps under this name. */
  ghost predicate Keeps(d: seq<FileDiff>, name: string) {
    exists f :: f in d && AddsLines(f) && Recorded(f.target) == name && name != ""
  }

  ghost predicate IsEntry(d: seq<FileDiff>, e: string) {
    exists name, span :: Keeps(d, name) && e == FormatSpan(name, span)
  }

  lemma {:induction false} FormattedSpans(d: seq<FileDiff>, name: string, spans: seq<Span>)
    requires Keeps(d, name)
    ensures forall e | e in FormatSpans(name, spans) :: IsEntry(d, e)
  {
    if spans != [] {
      FormattedSpans(d, name, spans[1..]);
    }
  }

  lemma {:induction false} Formatted(d: seq<FileDiff>, changed: seq<Entry>)
    requires forall e | e in changed :: Keeps(d, e.path)
    ensures forall e | e in FormatRanges(changed) :: IsEntry(d, e)
  {
    if changed != [] {
      assert changed[0] in changed;
      FormattedSpans(d, changed[0].path, changed[0].spans);
      Formatted(d, changed[1..]);
    }
  }

  lemma EntriesOf(d: seq<FileDiff>)
    requires WellFormed(d)
    ensures forall e | e in FormatRanges(RecordAll([], d)) :: IsEntry(d, e)
  {
    forall f | f in d && SpansFrom(f.hunks) != [] && Recorded(f.target) != "" ensures Keeps(d, Recorded(f.target)) {
      SpansFromHunks(f.hunks, 0);
      assert AddsLines(f);
    }
    RecordAllKeeps([], d, name => Keeps(d, name));
    Formatted(d, RecordAll([], d));
  }

  lemma EntryEndsInDigit(name: string, span: Span)
    ensures var e := FormatSpan(name, span); e != [] && !IsSpace(e[|e| - 1])
  {
    IntTextPlain(span.last);
    var e, last := FormatSpan(name, span), IntText(span.last);
    assert last != [] && e[|e| - 1] == last[|last| - 1] && last[|last| - 1] in last;
  }

  lemma SpaceOfName(name: string, span: Span)
    requires ' ' in FormatSpan(name, span)
    ensures ' ' in name
  {
    PlainNumeral(span.first);
    IntTextPlain(span.last);
    assert IsSpace(' ');
  }

  /** An entry on one line reads back as its name without the white space in front. */
  lemma EntryReadsAs(name: string, span: Span, q: string, read: Span)
    requires ReadEntry(FormatSpan(name, span)) == Some((q, read))
    ensures exists k :: 0 <= k <= |name| && q == name[k..]
  {
    FormatsAs(name, span);
    SpanTextPlain(span);
    var k := EntryTrims(name, SpanText(span));
    ReadsName(FormatSpan(name, span), name[k..], SpanText(span));
  }

  lemma EntryTrims(name: string, text: string) returns (k: nat)
    requires text != [] && forall c | c in text :: !IsSpace(c)
    ensures k <= |name| && Trim(name + ":" + text) == name[k..] + ":" + text
  {
    var e := name + ":" + text;
    assert e[|e| - 1] == text[|text| - 1] && text[|text| - 1] in text;
    k := TrimDrops(e);
    assert e[|name|] == ':' && !IsSpace(':');
  }

  lemma ReadsName(e: string, name: string, text: string)
    requires Trim(e) == name + ":" + text && ':' !in text && ReadEntry(e).Some?
    ensures ReadEntry(e).value.0 == name
  {
    LastColonAt(name, text);
    assert (name + ":" + text)[..|name|] == name;
  }

  /** A path with a space that git does not quote. */
  predicate Tabbed(f: FileDiff) {
    AddsLines(f) && ' ' in f.target.path && !NeedsQuotes("b/" + f.target.path)
  }

  predicate SomeTabbed(d: seq<FileDiff>) {
    exists f :: f in d && Tabbed(f)
  }

  lemma TabbedIsOneLine(f: FileDiff)
    requires Tabbed(f)
    ensures OneLine(Recorded(f.target)) && f.target.path[|f.target.path| - 1] != '\t'
  {
    var path, name := f.target.path, "b/" + f.target.path;
    UnquotedIsPlain(name);
    forall c | c in path ensures !IsLineBreak(c) && c != '\t' {
      assert c in name && IsPlainChar(c);
    }
    assert path[|path| - 1] in path;
    assert Recorded(f.target) == path + "\t";
  }

  /** A name with a space in it is read back only with a tab behind it, and only when the diff adds to
      a path with a space that git does not quote. */
  lemma SpacedNameRead(d: seq<FileDiff>, e: string, line: string, q: string, span: Span)
    requires IsEntry(d, e) && line in SplitLines(e + "\n") && ReadEntry(line) == Some((q, span)) && ' ' in q
    ensures q[|q| - 1] == '\t' && SomeTabbed(d)
  {
    var name, written :| Keeps(d, name) && e == FormatSpan(name, written);
    SplitsToOneLine(e + "\n");
    SplitKeeps(e + "\n");
    NameReadIsPlain(line, q, span);
    assert ' ' in e;
    SpaceOfName(name, written);
    var f :| f in d && AddsLines(f) && Recorded(f.target) == name;
    assert Tabbed(f);
    TabbedIsOneLine(f);
    EntryOneLine(name, written);
    LoneLine(e);
    EntryReadsAs(name, written, q, span);
  }

  lemma EntryOneLine(name: string, span: Span)
    requires OneLine(name)
    ensures OneLine(FormatSpan(name, span))
  {
    SpanTextPlain(span);
    FormatsAs(name, span);
  }

  lemma ScopeIs(d: seq<FileDiff>)
    requires WellFormed(d)
    ensures Scope(Terminated(DiffLines(d))) ==
            Some(ReadLines([], SplitLines(AsFile(FormatRanges(RecordAll([], d))))))
  {
    DiffFed(START, d);
  }

  /** The name is plain, and one with a space in it ends in a tab. */
  predicate MayTouch(d: seq<FileDiff>, q: string) {
    && OneLine(q) && (q != "" ==> !IsSpace(q[0]))
    && (' ' in q ==> q[|q| - 1] == '\t' && SomeTabbed(d))
  }

  /** A touched line goes back to a line of the file. */
  lemma LineRead(d: seq<FileDiff>, q: string, line: int) returns (l: string, span: Span)
    requires WellFormed(d) && Scoped(d, q, line)
    ensures l in SplitLines(AsFile(FormatRanges(RecordAll([], d)))) && ReadEntry(l) == Some((q, span))
  {
    ScopeIs(d);
    var lines := SplitLines(AsFile(FormatRanges(RecordAll([], d))));
    span :| span in SpansOf(ReadLines([], lines), q);
    ReadFromALine([], lines, q, span);
    l :| l in lines && ReadEntry(l) == Some((q, span));
  }

  /** Whatever the diff, a touched name is plain, and one with a space in it ends in a tab. */
  lemma TouchedNames(d: seq<FileDiff>, q: string, line: int)
    requires WellFormed(d)
    requires Scoped(d, q, line)
    ensures MayTouch(d, q)
  {
    var entries := FormatRanges(RecordAll([], d));
    var l, span := LineRead(d, q, line);
    SplitsToOneLine(AsFile(entries));
    NameReadIsPlain(l, q, span);
    EntriesOf(d);
    forall e | e in entries ensures e != [] && e[|e| - 1] != '\r' {
      var name, written :| Keeps(d, name) && e == FormatSpan(name, written);
      EntryEndsInDigit(name, written);
    }
    FileLineOfSome(entries, l);
    var e :| e in entries && l in SplitLines(e + "\n");
    if ' ' in q {
      SpacedNameRead(d, e, l, q, span);
    }
  }

  // ---- Exactly the safe paths

  lemma AddedLine(d: seq<FileDiff>, f: FileDiff) returns (line: int)
    requires f in d && AddsLines(f)
    ensures Adds(d, f.target.path, line)
  {
    var h :| h in f.hunks && h.added != [];
    line := h.start;
    assert f.target == NewFile(f.target.path);
  }

  lemma UnsafeNeedsTabbed(d: seq<FileDiff>, f: FileDiff, line: int)
    requires WellFormed(d) && f in d && AddsLines(f) && !Safe(f.target.path) && Scoped(d, f.target.path, line)
    ensures SomeTabbed(d)
  {
    TouchedNames(d, f.target.path, line);
    assert WellFormedFile(f);
  }

  lemma TabbedIsLost(d: seq<FileDiff>, g: FileDiff, line: int)
    requires WellFormed(d) && g in d && Tabbed(g)
    ensures !Scoped(d, g.target.path, line)
  {
    TabbedMayNotTouch(d, g);
    if Scoped(d, g.target.path, line) {
      TouchedNames(d, g.target.path, line);
    }
  }

  lemma TabbedMayNotTouch(d: seq<FileDiff>, g: FileDiff)
    requires Tabbed(g)
    ensures !MayTouch(d, g.target.path)
  {
    TabbedIsOneLine(g);
  }

  /** A diff that adds lines to an unsafe path has an added line that is not touched. */
  lemma UnsafeLosesALine(d: seq<FileDiff>, f: FileDiff) returns (path: string, line: int)
    requires WellFormed(d) && f in d && AddsLines(f) && !Safe(f.target.path)
    ensures Adds(d, path, line) && !Scoped(d, path, line)
  {
    path := f.target.path;
    line := AddedLine(d, f);
    if Scoped(d, path, line) {
      UnsafeNeedsTabbed(d, f, line);
      var g :| g in d && Tabbed(g);
      path := g.target.path;
      line := AddedLine(d, g);
      TabbedIsLost(d, g, line);
    }
  }

  lemma SafeScopesExactly(d: seq<FileDiff>)
    requires WellFormed(d) && AllSafe(d)
    ensures ScopesExactly(d)
  {
    ScopeIs(d);
    forall path, line: int ensures Scoped(d, path, line) <==> Adds(d, path, line) {
      TouchedIffAdded(d, path, line);
    }
  }

  /** The ranges written and read back are right for every path and line if and only if no path the
      diff adds lines to has a space, a line break or white space in front. */
  lemma ScopesExactlyIffSafe(d: seq<FileDiff>)
    requires WellFormed(d)
    ensures ScopesExactly(d) <==> AllSafe(d)
  {
    if AllSafe(d) {
      SafeScopesExactly(d);
    } else {
      var f :| f in d && AddsLines(f) && !Safe(f.target.path);
      var path, line := UnsafeLosesALine(d, f);
    }
  }
}
