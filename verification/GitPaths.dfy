/** Git's quoted form of a path, and reading it. */
module GitPaths {
  // C-style escapes over UTF-8 bytes.

  import opened Options
  import opened Utf8

  // ---- Git's side

  /** Bytes git will not write as they are: controls, the quote, the backslash and everything past ASCII. */
  predicate NeedsEscape(b: byte) {
    b < 0x20 || b == 0x22 || b == 0x5C || b >= 0x7F
  }

  /** The letter of a byte's named escape. */
  function NameOf(b: byte): Option<char> {
    if b == 7 then Some('a')
    else if b == 8 then Some('b')
    else if b == 9 then Some('t')
    else if b == 10 then Some('n')
    else if b == 11 then Some('v')
    else if b == 12 then Some('f')
    else if b == 13 then Some('r')
    else if b == 0x22 then Some('"')
    else if b == 0x5C then Some('\\')
    else None
  }

  function OctalDigit(d: int): char
    requires 0 <= d < 8
  {
    (48 + d) as char
  }

  function EscapeByte(b: byte): string {
    if !NeedsEscape(b) then [b as char]
    else if NameOf(b).Some? then ['\\', NameOf(b).value]
    else ['\\', OctalDigit(b as int / 64), OctalDigit(b as int / 8 % 8), OctalDigit(b as int % 8)]
  }

  function Escape(bs: seq<byte>): string {
    if bs == [] then [] else EscapeByte(bs[0]) + Escape(bs[1..])
  }

  predicate NeedsQuotes(path: string) {
    exists b | b in Encode(path) :: NeedsEscape(b)
  }

  /** A path as git writes it with its default `core.quotePath`. */
  function GitForm(path: string): string {
    if NeedsQuotes(path) then ['"'] + Escape(Encode(path)) + ['"'] else path
  }

  // ---- The reader's side

  predicate IsOctal(c: char) {
    '0' <= c <= '7'
  }

  function ByteNamed(c: char): Option<byte> {
    if c == 'a' then Some(7)
    else if c == 'b' then Some(8)
    else if c == 't' then Some(9)
    else if c == 'n' then Some(10)
    else if c == 'v' then Some(11)
    else if c == 'f' then Some(12)
    else if c == 'r' then Some(13)
    else if c == '"' then Some(0x22)
    else if c == '\'' then Some(0x27)
    else if c == '\\' then Some(0x5C)
    else None
  }

  /** How many octal digits an escape takes: at most three. */
  function OctalRun(s: string, limit: nat): (n: nat)
    ensures n <= |s| && n <= limit
    ensures forall i | 0 <= i < n :: IsOctal(s[i])
    decreases limit
  {
    if limit == 0 || s == [] || !IsOctal(s[0]) then 0 else 1 + OctalRun(s[1..], limit - 1)
  }

  function OctalDigitValue(c: char): nat
    requires IsOctal(c)
  {
    c as int - 48
  }

  function OctalValue(s: string): nat
    requires forall c | c in s :: IsOctal(c)
  {
    if s == [] then 0
    else
      assert forall c | c in s[..|s| - 1] :: c in s;
      8 * OctalValue(s[..|s| - 1]) + OctalDigitValue(s[|s| - 1])
  }

  /** The byte at the front of a quoted body, and how much text it took: a named or octal escape, or
      ASCII as it is. None for the escapes git never writes and for values past a byte. */
  function UnescapeOne(s: string): (r: Option<(byte, nat)>)
    requires s != []
    ensures r.Some? ==> 0 < r.value.1 <= |s|
  {
    if s[0] != '\\' then
      if s[0] as int < 0x80 then Some((s[0] as byte, 1)) else None
    else if |s| == 1 then None
    else if ByteNamed(s[1]).Some? then Some((ByteNamed(s[1]).value, 2))
    else
      var n := OctalRun(s[1..], 3);
      if n == 0 then None
      else
        assert forall c | c in s[1..][..n] :: IsOctal(c);
        var v := OctalValue(s[1..][..n]);
        if v < 0x100 then Some((v as byte, 1 + n)) else None
  }

  /** The bytes a quoted body stands for. */
  function Unescape(s: string): Option<seq<byte>>
    decreases |s|
  {
    if s == [] then Some([])
    else
      match UnescapeOne(s)
      case None => None
      case Some((b, n)) => Then(b, Unescape(s[n..]))
  }

  function Then(b: byte, rest: Option<seq<byte>>): Option<seq<byte>> {
    if rest.Some? then Some([b] + rest.value) else None
  }

  /** Git's form of a path, as the file's name; none for text git never writes. */
  function UnquotePath(path: string): Option<string> {
    if |path| < 2 || path[0] != '"' || path[|path| - 1] != '"' then Some(path)
    else
      match Unescape(path[1..|path| - 1])
      case None => None
      case Some(bs) => Decode(bs)
  }

  /** Only a text in quotes is unquoted, and of it what is between them. */
  lemma UnquotesQuoted(path: string, inner: string)
    ensures path == "\"" + inner + "\"" ==> UnquotePath(path) == if Unescape(inner).None? then None else Decode(Unescape(inner).value)
    ensures (forall text :: path != "\"" + text + "\"") ==> UnquotePath(path) == Some(path)
  {
    if path == "\"" + inner + "\"" {
      assert path[1..|path| - 1] == inner;
    }
    if |path| >= 2 && path[0] == '"' && path[|path| - 1] == '"' {
      assert path == "\"" + path[1..|path| - 1] + "\"";
    }
  }

  lemma UnescapesByte(b: byte, rest: string)
    ensures UnescapeOne(EscapeByte(b) + rest) == Some((b, |EscapeByte(b)|))
  {
    if NeedsEscape(b) && NameOf(b).None? {
      OctalOfByte(b, rest);
    }
  }

  lemma OctalSplit(v: int)
    requires 0 <= v < 256
    ensures 64 * (v / 64) + 8 * (v / 8 % 8) + v % 8 == v
  {
    assert v / 8 == v / 64 * 8 + v / 8 % 8;
  }

  /** Three octal digits are read as the byte they were written for, whatever follows. */
  lemma OctalOfByte(b: byte, rest: string)
    requires NeedsEscape(b) && NameOf(b).None?
    ensures UnescapeOne(EscapeByte(b) + rest) == Some((b, 4))
  {
    var v := b as int;
    OctalSplit(v);
    UnescapesOctal(OctalDigit(v / 64), OctalDigit(v / 8 % 8), OctalDigit(v % 8), b, rest);
  }

  lemma UnescapesOctal(x: char, y: char, z: char, b: byte, rest: string)
    requires IsOctal(x) && IsOctal(y) && IsOctal(z)
    requires 64 * OctalDigitValue(x) + 8 * OctalDigitValue(y) + OctalDigitValue(z) == b as int
    ensures UnescapeOne(['\\', x, y, z] + rest) == Some((b, 4))
  {
    var s := ['\\', x, y, z] + rest;
    assert s[1..] == [x, y, z] + rest;
    OctalRunOfThree(x, y, z, rest);
    assert s[1..][..3] == [x, y, z];
    OctalValueOfThree(x, y, z);
  }

  lemma OctalRunOfThree(x: char, y: char, z: char, rest: string)
    requires IsOctal(x) && IsOctal(y) && IsOctal(z)
    ensures OctalRun([x, y, z] + rest, 3) == 3
  {
    var s := [x, y, z] + rest;
    assert s[1..][1..][1..] == rest;
    assert OctalRun(s[1..][1..][1..], 0) == 0;
    assert OctalRun(s[1..][1..], 1) == 1;
    assert OctalRun(s[1..], 2) == 2;
  }

  lemma OctalValueOfThree(x: char, y: char, z: char)
    requires IsOctal(x) && IsOctal(y) && IsOctal(z)
    ensures OctalValue([x, y, z]) == 64 * OctalDigitValue(x) + 8 * OctalDigitValue(y) + OctalDigitValue(z)
  {
    assert [x, y, z][..2] == [x, y] && [x, y][..1] == [x] && [x][..0] == [];
    assert OctalValue([x]) == OctalDigitValue(x);
    assert OctalValue([x, y]) == 8 * OctalDigitValue(x) + OctalDigitValue(y);
  }

  lemma {:induction false} UnescapesEscaped(bs: seq<byte>)
    ensures Unescape(Escape(bs)) == Some(bs)
  {
    if bs != [] {
      UnescapesByte(bs[0], Escape(bs[1..]));
      assert Escape(bs)[|EscapeByte(bs[0])|..] == Escape(bs[1..]);
      UnescapesEscaped(bs[1..]);
      assert bs == [bs[0]] + bs[1..];
    }
  }

  /** Text git writes as it is: printable ASCII but for the quote and the backslash. */
  predicate IsPlainChar(c: char) {
    ' ' <= c <= '~' && c != '"' && c != '\\'
  }

  lemma {:induction false} UnquotedIsPlain(path: string)
    requires !NeedsQuotes(path)
    ensures forall c | c in path :: IsPlainChar(c)
  {
    if path != [] {
      assert path == [path[0]] + path[1..];
      assert forall b | b in EncodeChar(path[0]) || b in Encode(path[1..]) :: b in Encode(path);
      UnquotedIsPlain(path[1..]);
      assert EncodeChar(path[0])[0] in EncodeChar(path[0]);
    }
  }

  lemma {:induction false} EscapedIsPrintable(bs: seq<byte>)
    ensures forall c | c in Escape(bs) :: ' ' <= c <= '~'
  {
    if bs != [] {
      EscapedIsPrintable(bs[1..]);
      forall c | c in EscapeByte(bs[0]) ensures ' ' <= c <= '~' {
      }
    }
  }

  lemma GitFormIsPrintable(path: string)
    ensures forall c | c in GitForm(path) :: ' ' <= c <= '~'
  {
    if NeedsQuotes(path) {
      EscapedIsPrintable(Encode(path));
    } else {
      UnquotedIsPlain(path);
    }
  }

  /** Reading git's form gives back the path, for every path there is: the ones git quotes, and the
      ones it leaves alone. */
  lemma UnquotesGitForm(path: string)
    ensures UnquotePath(GitForm(path)) == Some(path)
  {
    if NeedsQuotes(path) {
      var form := GitForm(path);
      assert form[1..|form| - 1] == Escape(Encode(path));
      UnescapesEscaped(Encode(path));
      DecodesEncoded(path);
    } else {
      UnquotedIsPlain(path);
      assert |path| > 0 ==> path[0] in path;
    }
  }
}
