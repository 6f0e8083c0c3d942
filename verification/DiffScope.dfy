/** Which lines a `git diff -U0` added. */
module DiffScope {
  // As ranges, written out and read back.

  import opened Options
  import opened Numbers
  import opened Text
  import opened GitPaths

  datatype Span = Span(first: nat, last: int)

  /** A file's spans; a whole result is a dictionary, so a path appears once. */
  datatype Entry = Entry(path: string, spans: seq<Span>)

  /** `changed.setdefault(path, []).append(span)`. */
  function AddSpan(changed: seq<Entry>, path: string, span: Span): seq<Entry> {
    if changed == [] then [Entry(path, [span])]
    else if changed[0].path == path then [Entry(path, changed[0].spans + [span])] + changed[1..]
    else [changed[0]] + AddSpan(changed[1..], path, span)
  }

  /** `changed.get(path, ())`. */
  function SpansOf(changed: seq<Entry>, path: string): seq<Span> {
    if changed == [] then []
    else if changed[0].path == path then changed[0].spans
    else SpansOf(changed[1..], path)
  }

  predicate Touched(changed: seq<Entry>, path: string, line: int) {
    exists span | span in SpansOf(changed, path) :: span.first <= line <= span.last
  }

  // ---- Parsing

  /** `current` is empty when no file of the diff's new side is being read. */
  datatype State = State(changed: seq<Entry>, current: string, inHeader: bool)

  const START := State([], "", true)

  function RStripNewlines(s: string): string {
    if s != [] && s[|s| - 1] == '\n' then RStripNewlines(s[..|s| - 1]) else s
  }

  predicate NotSpace(c: char) {
    !IsSpace(c)
  }

  /** The new side's start and length in a line that begins as a hunk header. */
  function ParseHunk(line: string): Option<(nat, nat)> {
    match StripPrefix(line, "@@ -")
    case None => None
    case Some(a) =>
      match TakeRun(a, NotSpace)
      case None => None
      case Some((_, b)) =>
        match StripPrefix(b, " +")
        case None => None
        case Some(c) =>
          match TakeRun(c, IsDigit)
          case None => None
          case Some((start, d)) =>
            match HunkLength(d)
            case None => None
            case Some(length) => Some((Value(start), length))
  }

  /** The length after a hunk's start: one when left out. */
  function HunkLength(s: string): Option<nat> {
    if s != [] && s[0] == ',' then
      match TakeRun(s[1..], IsDigit)
      case None => None
      case Some((digits, rest)) => if StripPrefix(rest, " @@").Some? then Some(Value(digits)) else None
    else if StripPrefix(s, " @@").Some? then Some(1)
    else None
  }

  /** The file a `+++ ` line names, or none on the new side; no answer for text git never writes. */
  function TargetOf(text: string): Option<string> {
    match UnquotePath(text)
    case None => None
    case Some(target) => Some(if "b/" <= target then target[2..] else "")
  }

  const DIFF_LINE := "diff --git "
  const TARGET_LINE := "+++ "

  function Step(st: State, raw: string): Option<State> {
    var line := RStripNewlines(raw);
    if StripPrefix(line, DIFF_LINE).Some? then Some(State(st.changed, "", true))
    else if st.inHeader && StripPrefix(line, TARGET_LINE).Some? then
      match TargetOf(StripPrefix(line, TARGET_LINE).value)
      case None => None
      case Some(current) => Some(st.(current := current))
    else
      match ParseHunk(line)
      case None => Some(st)
      case Some((start, length)) =>
        if st.current == "" || length == 0 then Some(st.(inHeader := false))
        else Some(State(AddSpan(st.changed, st.current, Span(start, start + length - 1)), st.current, false))
  }

  function Feed(st: State, lines: seq<string>): Option<State>
    decreases |lines|
  {
    if lines == [] then Some(st)
    else
      match Step(st, lines[0])
      case None => None
      case Some(next) => Feed(next, lines[1..])
  }

  method ParseUnifiedDiff(lines: seq<string>) returns (r: Option<seq<Entry>>)
    ensures match Feed(START, lines)
            case None => r == None
            case Some(end) => r == Some(end.changed)
  {
    var st := START;
    for i := 0 to |lines|
      invariant Feed(START, lines) == Feed(st, lines[i..])
    {
      assert lines[i..][1..] == lines[i + 1..];
      var next := Step(st, lines[i]);
      if next.None? {
        return None;
      }
      st := next.value;
    }
    r := Some(st.changed);
  }

  // ---- Writing the ranges and reading them back

  function FormatSpan(path: string, span: Span): string {
    path + ":" + Decimal(span.first) + "-" + IntText(span.last)
  }

  function FormatSpans(path: string, spans: seq<Span>): seq<string> {
    if spans == [] then [] else [FormatSpan(path, spans[0])] + FormatSpans(path, spans[1..])
  }

  function FormatRanges(changed: seq<Entry>): seq<string> {
    if changed == [] then [] else FormatSpans(changed[0].path, changed[0].spans) + FormatRanges(changed[1..])
  }

  /** What printing the entries one a line leaves in the file. */
  function AsFile(entries: seq<string>): string {
    if entries == [] then "" else entries[0] + "\n" + AsFile(entries[1..])
  }

  /** `entry.rpartition(":")`, for an entry that has a colon. */
  function LastColon(s: string): (n: nat)
    requires ':' in s
    ensures n < |s| && s[n] == ':' && ':' !in s[n + 1..]
  {
    if s[|s| - 1] == ':' then |s| - 1
    else
      assert ':' in s[..|s| - 1] by {
        assert s == s[..|s| - 1] + [s[|s| - 1]];
      }
      var n := LastColon(s[..|s| - 1]);
      assert s[n + 1..] == s[..|s| - 1][n + 1..] + [s[|s| - 1]];
      n
  }

  /** ASCII digits, single underscores between them. */
  predicate IsNumeral(s: string) {
    && s != [] && IsDigit(s[0]) && IsDigit(s[|s| - 1])
    && forall i | 0 <= i < |s| - 1 :: IsDigit(s[i]) || (s[i] == '_' && s[i + 1] != '_')
  }

  function DigitsOf(s: string): (digits: string)
    ensures AllDigits(digits)
  {
    if s == [] then [] else (if IsDigit(s[0]) then [s[0]] else []) + DigitsOf(s[1..])
  }

  function ParseNumeral(s: string): Option<nat> {
    if IsNumeral(s) then Some(Value(DigitsOf(s))) else None
  }

  /** `int(s)`, for ASCII digits; no answer is its error. */
  function ParseInt(s: string): Option<int> {
    var t := Trim(s);
    var signed := t != [] && (t[0] == '-' || t[0] == '+');
    match ParseNumeral(if signed then t[1..] else t)
    case None => None
    case Some(n) => Some(if signed && t[0] == '-' then -(n as int) else n as int)
  }

  lemma NoDashNotNegative(s: string)
    requires '-' !in s && ParseInt(s).Some?
    ensures ParseInt(s).value >= 0
  {
    TrimKeeps(s);
    assert Trim(s) != [] ==> Trim(s)[0] in Trim(s);
  }

  /** The two numbers around the first dash. */
  function ParseSpan(text: string): Option<Span> {
    var dash := IndexOf(text, '-');
    var first := ParseInt(text[..dash]);
    var last := ParseInt(if dash < |text| then text[dash + 1..] else "");
    if first.None? || last.None? then None
    else
      NoDashNotNegative(text[..dash]);
      Some(Span(first.value, last.value))
  }

  /** One line read back; malformed lines are skipped. */
  function ReadEntry(line: string): Option<(string, Span)> {
    var entry := Trim(line);
    if ':' !in entry then None
    else
      var at := LastColon(entry);
      match ParseSpan(entry[at + 1..])
      case None => None
      case Some(span) => Some((entry[..at], span))
  }

  function ReadLines(changed: seq<Entry>, lines: seq<string>): seq<Entry>
    decreases |lines|
  {
    if lines == [] then changed
    else
      match ReadEntry(lines[0])
      case None => ReadLines(changed, lines[1..])
      case Some((path, span)) => ReadLines(AddSpan(changed, path, span), lines[1..])
  }

  method ReadRanges(text: string) returns (changed: seq<Entry>)
    ensures changed == ReadLines([], SplitLines(text))
  {
    changed := [];
    var lines := SplitLines(text);
    for i := 0 to |lines|
      invariant ReadLines([], lines) == ReadLines(changed, lines[i..])
    {
      assert lines[i..][1..] == lines[i + 1..];
      var entry := ReadEntry(lines[i]);
      if entry.None? {
        continue;
      }
      changed := AddSpan(changed, entry.value.0, entry.value.1);
    }
  }
}
