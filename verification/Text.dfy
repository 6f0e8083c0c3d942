/** Python's string methods, as far as the scripts use them: splitting, joining, trimming, lines. */
module Text {
  import opened Options

  /** Where `c` first occurs in `s`, or `|s|`. */
  function IndexOf(s: string, c: char): (i: nat)
    ensures i <= |s|
    ensures forall j | 0 <= j < i :: s[j] != c
    ensures i < |s| ==> s[i] == c
  {
    if s == [] || s[0] == c then 0 else 1 + IndexOf(s[1..], c)
  }

  /** Python's `s.split(c)`. */
  function SplitOn(s: string, c: char): (parts: seq<string>)
    ensures |parts| >= 1
    decreases |s|
  {
    var i := IndexOf(s, c);
    if i == |s| then [s] else [s[..i]] + SplitOn(s[i + 1..], c)
  }

  lemma SplitOnStep(head: string, tail: string, c: char)
    requires c !in head
    ensures SplitOn(head + [c] + tail, c) == [head] + SplitOn(tail, c)
  {
    var s := head + [c] + tail;
    assert s[|head|] == c;
    assert forall i | 0 <= i < |head| :: s[i] == head[i] && head[i] in head;
    assert IndexOf(s, c) == |head|;
    assert s[..|head|] == head && s[|head| + 1..] == tail;
  }

  lemma SplitOnLast(s: string, c: char)
    requires c !in s
    ensures SplitOn(s, c) == [s]
  {
    assert forall i | 0 <= i < |s| :: s[i] in s;
    assert IndexOf(s, c) == |s|;
  }

  /** Python's `separator.join(parts)`. */
  function Join(parts: seq<string>, separator: string): string {
    if parts == [] then "" else if |parts| == 1 then parts[0]
    else parts[0] + separator + Join(parts[1..], separator)
  }

  /** `str.isspace` of one character. */
  predicate IsSpace(c: char) {
    || c == ' ' || '\t' <= c <= '\r' || '\U{1C}' <= c <= '\U{1F}' || c == '\U{85}' || c == '\U{A0}'
    || c == '\U{1680}' || '\U{2000}' <= c <= '\U{200A}' || c == '\U{2028}' || c == '\U{2029}'
    || c == '\U{202F}' || c == '\U{205F}' || c == '\U{3000}'
  }

  predicate IsHex(s: string) {
    forall c | c in s :: '0' <= c <= '9' || 'a' <= c <= 'f'
  }

  predicate AllSpace(s: string) {
    forall c | c in s :: IsSpace(c)
  }

  predicate NoSpace(s: string) {
    forall c | c in s :: !IsSpace(c)
  }

  /** Length of the longest prefix without white space. */
  function WordEnd(s: string): (n: nat)
    ensures n <= |s|
    ensures s != [] && !IsSpace(s[0]) ==> n > 0
  {
    if s == [] || IsSpace(s[0]) then 0 else 1 + WordEnd(s[1..])
  }

  /** Python's `s.split()`: the words between runs of white space. */
  function Words(s: string): seq<string>
    decreases |s|
  {
    if s == [] then []
    else if IsSpace(s[0]) then Words(s[1..])
    else [s[..WordEnd(s)]] + Words(s[WordEnd(s)..])
  }

  lemma {:induction false} WordEndsAtSpace(w: string, rest: string)
    requires NoSpace(w) && (rest == [] || IsSpace(rest[0]))
    ensures WordEnd(w + rest) == |w|
  {
    if w == [] {
      assert w + rest == rest;
    } else {
      assert w[0] in w && (w + rest)[1..] == w[1..] + rest;
      WordEndsAtSpace(w[1..], rest);
    }
  }

  /** Splitting undoes joining with spaces. */
  lemma {:induction false} WordsOfJoin(words: seq<string>)
    requires forall w | w in words :: w != [] && NoSpace(w)
    ensures Words(Join(words, " ")) == words
  {
    if words != [] {
      var w, rest := words[0], words[1..];
      assert w in words && w[0] in w;
      forall x | x in rest ensures x in words {
      }
      WordsOfJoin(rest);
      var tail := if rest == [] then [] else " " + Join(rest, " ");
      assert Join(words, " ") == w + tail;
      WordEndsAtSpace(w, tail);
      assert (w + tail)[..|w|] == w && (w + tail)[|w|..] == tail;
      if rest != [] {
        assert tail[1..] == Join(rest, " ");
      }
    }
  }

  // ---- Reading from the front

  /** What follows `prefix`, when `s` begins with it. */
  function StripPrefix(s: string, prefix: string): (r: Option<string>)
    ensures r.Some? ==> |r.value| + |prefix| == |s|
  {
    if prefix == [] then Some(s)
    else if s != [] && s[0] == prefix[0] then StripPrefix(s[1..], prefix[1..])
    else None
  }

  /** Length of the longest run `s` begins with of characters `keep` accepts. */
  function RunLength(s: string, keep: char -> bool): (n: nat)
    ensures n <= |s|
    ensures forall i | 0 <= i < n :: keep(s[i])
  {
    if s == [] || !keep(s[0]) then 0 else 1 + RunLength(s[1..], keep)
  }

  /** A run of at least one `keep` character, and what follows it. */
  function TakeRun(s: string, keep: char -> bool): (r: Option<(string, string)>)
    ensures r.Some? ==> |r.value.1| < |s| && forall c | c in r.value.0 :: keep(c)
  {
    var n := RunLength(s, keep);
    if n == 0 then None else Some((s[..n], s[n..]))
  }

  lemma {:induction false} StripsPrefix(prefix: string, rest: string)
    ensures StripPrefix(prefix + rest, prefix) == Some(rest)
  {
    if prefix == [] {
      assert prefix + rest == rest;
    } else {
      assert (prefix + rest)[1..] == prefix[1..] + rest;
      StripsPrefix(prefix[1..], rest);
    }
  }

  lemma {:induction false} StrippedIs(s: string, prefix: string)
    requires StripPrefix(s, prefix).Some?
    ensures s == prefix + StripPrefix(s, prefix).value
  {
    if prefix != [] {
      StrippedIs(s[1..], prefix[1..]);
      assert s == [s[0]] + s[1..] && prefix == [prefix[0]] + prefix[1..];
    }
  }

  lemma TakenIs(s: string, keep: char -> bool)
    requires TakeRun(s, keep).Some?
    ensures var taken := TakeRun(s, keep).value; taken.0 != [] && s == taken.0 + taken.1
  {
  }

  lemma {:induction false} TakesRun(name: string, rest: string, keep: char -> bool)
    requires name != [] && (forall c | c in name :: keep(c)) && (rest != [] ==> !keep(rest[0]))
    ensures TakeRun(name + rest, keep) == Some((name, rest))
  {
    RunsTo(name, rest, keep);
  }

  lemma {:induction false} RunsTo(name: string, rest: string, keep: char -> bool)
    requires (forall c | c in name :: keep(c)) && (rest != [] ==> !keep(rest[0]))
    ensures RunLength(name + rest, keep) == |name|
  {
    if name == [] {
      assert name + rest == rest;
    } else {
      assert (name + rest)[1..] == name[1..] + rest;
      RunsTo(name[1..], rest, keep);
    }
  }

  // ---- Lines

  /** `s.strip()`. */
  function Trim(s: string): string {
    if s == [] then []
    else if IsSpace(s[0]) then Trim(s[1..])
    else if IsSpace(s[|s| - 1]) then Trim(s[..|s| - 1])
    else s
  }

  lemma {:induction false} TrimKeeps(s: string)
    ensures forall c | c in Trim(s) :: c in s
    ensures Trim(s) != [] ==> !IsSpace(Trim(s)[0])
    decreases |s|
  {
    if s != [] {
      if IsSpace(s[0]) {
        TrimKeeps(s[1..]);
      } else if IsSpace(s[|s| - 1]) {
        TrimKeeps(s[..|s| - 1]);
      }
    }
  }

  /** The characters `str.splitlines` ends a line at. */
  predicate IsLineBreak(c: char) {
    '\n' <= c <= '\r' || '\U{1C}' <= c <= '\U{1E}' || c == '\U{85}' || c == '\U{2028}' || c == '\U{2029}'
  }

  predicate OneLine(s: string) {
    forall c | c in s :: !IsLineBreak(c)
  }

  function LineEnd(s: string): (n: nat)
    ensures n <= |s|
    ensures n < |s| ==> IsLineBreak(s[n])
  {
    if s == [] || IsLineBreak(s[0]) then 0 else 1 + LineEnd(s[1..])
  }

  /** `s.splitlines()`; a carriage return and the newline after it are one break. */
  function SplitLines(s: string): seq<string>
    decreases |s|
  {
    if s == [] then []
    else
      var n := LineEnd(s);
      if n == |s| then [s]
      else [s[..n]] + SplitLines(s[if s[n] == '\r' && n + 1 < |s| && s[n + 1] == '\n' then n + 2 else n + 1..])
  }

  lemma {:induction false} LineEndsAtNewline(line: string, rest: string)
    requires OneLine(line)
    ensures LineEnd(line + "\n" + rest) == |line|
  {
    if line == [] {
      assert line + "\n" + rest == "\n" + rest;
    } else {
      assert line[0] in line && (line + "\n" + rest)[1..] == line[1..] + "\n" + rest;
      LineEndsAtNewline(line[1..], rest);
    }
  }

  lemma SplitsFirstLine(line: string, rest: string)
    requires OneLine(line)
    ensures SplitLines(line + "\n" + rest) == [line] + SplitLines(rest)
  {
    LineEndsAtNewline(line, rest);
    var s := line + "\n" + rest;
    assert s[..|line|] == line && s[|line| + 1..] == rest && s[|line|] == '\n';
  }
}
