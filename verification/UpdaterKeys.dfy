/** The ids of the keys that sign updates and check them. */
module UpdaterKeys {
  import opened Options
  import opened Text
  import opened Utf8

  // ---- Base64 (section 4 of RFC 4648)

  function CharOf(n: nat): char
    requires n < 64
  {
    if n < 26 then ('A' as int + n) as char
    else if n < 52 then ('a' as int + (n - 26)) as char
    else if n < 62 then ('0' as int + (n - 52)) as char
    else if n == 62 then '+' else '/'
  }

  function SextetOf(c: char): (r: Option<nat>)
    ensures r.Some? ==> r.value < 64
  {
    if 'A' <= c <= 'Z' then Some(c as int - 'A' as int)
    else if 'a' <= c <= 'z' then Some(c as int - 'a' as int + 26)
    else if '0' <= c <= '9' then Some(c as int - '0' as int + 52)
    else if c == '+' then Some(62)
    else if c == '/' then Some(63)
    else None
  }

  /** Two, three or four characters for one, two or three bytes. */
  function Group(bs: seq<byte>): string
    requires 1 <= |bs| <= 3
  {
    var a := bs[0] as int;
    if |bs| == 1 then [CharOf(a / 4), CharOf(a % 4 * 16), '=', '=']
    else
      var b := bs[1] as int;
      if |bs| == 2 then [CharOf(a / 4), CharOf(a % 4 * 16 + b / 16), CharOf(b % 16 * 4), '=']
      else
        var c := bs[2] as int;
        [CharOf(a / 4), CharOf(a % 4 * 16 + b / 16), CharOf(b % 16 * 4 + c / 64), CharOf(c % 64)]
  }

  function Base64(bs: seq<byte>): string {
    if bs == [] then "" else if |bs| <= 3 then Group(bs) else Group(bs[..3]) + Base64(bs[3..])
  }

  /** The bytes of four characters; padding only where there is nothing after them. */
  function Ungroup(q: string, last: bool): Option<seq<byte>>
    requires |q| == 4
  {
    var w, x, y, z := SextetOf(q[0]), SextetOf(q[1]), SextetOf(q[2]), SextetOf(q[3]);
    if w.None? || x.None? then None
    else
      var first := (w.value * 4 + x.value / 16) as byte;
      if last && q[3] == '=' && q[2] == '=' then Some([first])
      else if y.None? then None
      else
        var second := (x.value % 16 * 16 + y.value / 4) as byte;
        if last && q[3] == '=' then Some([first, second])
        else if z.None? then None
        else Some([first, second, (y.value % 4 * 64 + z.value) as byte])
  }

  /** `base64.b64decode(s, validate=True)`; no answer is its error. */
  function Unbase64(s: string): Option<seq<byte>> {
    if s == [] then Some([])
    else if |s| < 4 then None
    else
      match Ungroup(s[..4], |s| == 4)
      case None => None
      case Some(first) =>
        match Unbase64(s[4..])
        case None => None
        case Some(rest) => Some(first + rest)
  }

  lemma SextetOfChar(n: nat)
    requires n < 64
    ensures SextetOf(CharOf(n)) == Some(n) && CharOf(n) != '='
  {
  }

  lemma UngroupsOne(p: byte)
    ensures Ungroup(Group([p]), true) == Some([p])
  {
    var a := p as int;
    SextetOfChar(a / 4);
    SextetOfChar(a % 4 * 16);
    assert (a % 4 * 16) / 16 == a % 4 && (a / 4 * 4 + a % 4) as byte == p;
  }

  /** The middle sextet of two bytes gives back its halves. */
  lemma Middle(a: nat, b: nat)
    requires a < 256 && b < 256
    ensures var x := a % 4 * 16 + b / 16; x < 64 && x / 16 == a % 4 && x % 16 == b / 16 && a / 4 * 4 + x / 16 == a
  {
  }

  lemma Last(b: nat, c: nat)
    requires b < 256 && c < 256
    ensures var y := b % 16 * 4 + c / 64; y < 64 && b / 16 * 16 + y / 4 == b && y % 4 * 64 + c % 64 == c
  {
  }

  lemma UngroupsTwo(p: byte, q: byte)
    ensures Ungroup(Group([p, q]), true) == Some([p, q])
  {
    var a, b := p as int, q as int;
    Middle(a, b);
    SextetOfChar(a / 4);
    SextetOfChar(a % 4 * 16 + b / 16);
    SextetOfChar(b % 16 * 4);
    assert (b % 16 * 4) / 4 == b % 16 && b / 16 * 16 + b % 16 == b;
  }

  /** Four sextets that make up three bytes give them back. */
  lemma UngroupOf(w: nat, x: nat, y: nat, z: nat, p: byte, q: byte, r: byte, last: bool)
    requires w < 64 && x < 64 && y < 64 && z < 64
    requires w * 4 + x / 16 == p as int && x % 16 * 16 + y / 4 == q as int && y % 4 * 64 + z == r as int
    ensures Ungroup([CharOf(w), CharOf(x), CharOf(y), CharOf(z)], last) == Some([p, q, r])
  {
    SextetOfChar(w);
    SextetOfChar(x);
    SextetOfChar(y);
    SextetOfChar(z);
  }

  lemma SextetsOfThree(a: nat, b: nat, c: nat)
    requires a < 256 && b < 256 && c < 256
    ensures var x, y := a % 4 * 16 + b / 16, b % 16 * 4 + c / 64;
            && a / 4 < 64 && x < 64 && y < 64 && c % 64 < 64
            && a / 4 * 4 + x / 16 == a && x % 16 * 16 + y / 4 == b && y % 4 * 64 + c % 64 == c
  {
    Middle(a, b);
    Last(b, c);
  }

  lemma GroupOfThree(p: byte, q: byte, r: byte)
    ensures var a, b, c := p as int, q as int, r as int;
            Group([p, q, r]) == [CharOf(a / 4), CharOf(a % 4 * 16 + b / 16), CharOf(b % 16 * 4 + c / 64), CharOf(c % 64)]
  {
  }

  lemma UngroupsThree(p: byte, q: byte, r: byte, last: bool)
    ensures Ungroup(Group([p, q, r]), last) == Some([p, q, r])
  {
    var a, b, c := p as int, q as int, r as int;
    SextetsOfThree(a, b, c);
    GroupOfThree(p, q, r);
    UngroupOf(a / 4, a % 4 * 16 + b / 16, b % 16 * 4 + c / 64, c % 64, p, q, r, last);
  }

  lemma Ungroups(bs: seq<byte>, last: bool)
    requires 1 <= |bs| <= 3 && (|bs| < 3 ==> last)
    ensures Ungroup(Group(bs), last) == Some(bs)
  {
    if |bs| == 1 {
      assert bs == [bs[0]];
      UngroupsOne(bs[0]);
    } else if |bs| == 2 {
      assert bs == [bs[0], bs[1]];
      UngroupsTwo(bs[0], bs[1]);
    } else {
      assert bs == [bs[0], bs[1], bs[2]];
      UngroupsThree(bs[0], bs[1], bs[2], last);
    }
  }

  /** Decoding undoes encoding, for all bytes. */
  lemma {:induction false} DecodesBase64(bs: seq<byte>)
    ensures Unbase64(Base64(bs)) == Some(bs)
  {
    if bs == [] {
    } else if |bs| <= 3 {
      Ungroups(bs, true);
      assert Group(bs)[..4] == Group(bs) && Group(bs)[4..] == [] && bs + [] == bs;
    } else {
      var rest := Base64(bs[3..]);
      DecodesBase64(bs[3..]);
      Ungroups(bs[..3], false);
      assert rest != [];
      assert (Group(bs[..3]) + rest)[..4] == Group(bs[..3]) && (Group(bs[..3]) + rest)[4..] == rest;
      assert bs[..3] + bs[3..] == bs;
    }
  }

  predicate IsBase64Char(c: char) {
    SextetOf(c).Some? || c == '='
  }

  lemma {:induction false} Base64IsPlain(bs: seq<byte>)
    ensures forall c | c in Base64(bs) :: IsBase64Char(c)
    ensures bs != [] ==> Base64(bs) != []
  {
    if |bs| > 3 {
      Base64IsPlain(bs[3..]);
      GroupIsPlain(bs[..3]);
    } else if bs != [] {
      GroupIsPlain(bs);
    }
  }

  lemma GroupIsPlain(bs: seq<byte>)
    requires 1 <= |bs| <= 3
    ensures forall c | c in Group(bs) :: IsBase64Char(c)
  {
    forall n: nat | n < 64 ensures IsBase64Char(CharOf(n)) {
      SextetOfChar(n);
    }
  }

  /** Text with another character in it does not decode. */
  lemma {:induction false} OthersDoNotDecode(s: string, c: char)
    requires c in s && !IsBase64Char(c)
    ensures Unbase64(s) == None
  {
    if |s| >= 4 {
      if c in s[..4] {
        var q := s[..4];
        assert c == q[0] || c == q[1] || c == q[2] || c == q[3];
      } else {
        assert s == s[..4] + s[4..];
        OthersDoNotDecode(s[4..], c);
      }
    }
  }

  // ---- Minisign files

  const UNTRUSTED := "untrusted comment:"
  const TRUSTED := "trusted comment:"

  function NonBlank(lines: seq<string>): seq<string> {
    if lines == [] then []
    else (if Trim(lines[0]) == "" then [] else [Trim(lines[0])]) + NonBlank(lines[1..])
  }

  /** A text's lines, stripped, without the empty ones. */
  function LinesOf(text: string): seq<string> {
    NonBlank(SplitLines(text))
  }

  function FirstPayload(lines: seq<string>): Option<string> {
    if lines == [] then None
    else if UNTRUSTED <= lines[0] || TRUSTED <= lines[0] then FirstPayload(lines[1..])
    else Some(lines[0])
  }

  /** `_payload_line`. */
  function PayloadLine(text: string): Option<string> {
    FirstPayload(LinesOf(text))
  }

  function HexDigit(n: nat): char
    requires n < 16
  {
    if n < 10 then ('0' as int + n) as char else ('A' as int + (n - 10)) as char
  }

  function Hex(bs: seq<byte>): string {
    if bs == [] then "" else [HexDigit(bs[0] as int / 16), HexDigit(bs[0] as int % 16)] + Hex(bs[1..])
  }

  function Reversed(bs: seq<byte>): seq<byte> {
    if bs == [] then [] else Reversed(bs[1..]) + [bs[0]]
  }

  const ALGORITHMS: set<seq<byte>> := {[0x45, 0x64], [0x45, 0x44]}
  const PUBLIC_KEY_BYTES := 42
  const SIGNATURE_BYTES := 74

  /** The id as it is printed: the eight bytes backwards, in hex. */
  function IdOf(raw: seq<byte>): string
    requires |raw| >= 10
  {
    Hex(Reversed(raw[2..10]))
  }

  /** `_key_id`. */
  function KeyId(raw: seq<byte>, length: nat): Option<string>
    requires length >= 10
  {
    if |raw| != length || raw[..2] !in ALGORITHMS then None else Some(IdOf(raw))
  }

  /** The id in a minisign text. */
  function IdIn(text: string, length: nat): Option<string>
    requires length >= 10
  {
    match PayloadLine(text)
    case None => None
    case Some(line) =>
      match Unbase64(line)
      case None => None
      case Some(raw) => KeyId(raw, length)
  }

  predicate IsAscii(s: string) {
    forall c | c in s :: c < '\U{80}'
  }

  function Decoded(s: string): Option<string> {
    match Unbase64(s)
    case None => None
    case Some(bs) => Decode(bs)
  }

  predicate Contains(s: string, part: string) {
    part <= s || (s != [] && Contains(s[1..], part))
  }

  /** `public_key_id`. */
  function PublicKeyId(pubkey: string): Option<string> {
    match Decoded(pubkey)
    case None => None
    case Some(text) => IdIn(text, PUBLIC_KEY_BYTES)
  }

  /** `signature_key_id`: text that is not ASCII makes decoding it raise what is not caught. */
  function SignatureKeyId(signature: string): Option<string> {
    var s := Trim(signature);
    if !IsAscii(s) then None
    else
      var decoded := Decoded(s);
      IdIn(if decoded.Some? && Contains(decoded.value, "comment:") then decoded.value else s, SIGNATURE_BYTES)
  }

  /** `check`: what it prints, or no answer for its error. */
  function Check(pubkey: string, signature: string, rotating: bool): Option<string> {
    if pubkey == "" then None
    else
      match PublicKeyId(pubkey)
      case None => None
      case Some(expected) =>
        match SignatureKeyId(signature)
        case None => None
        case Some(actual) =>
          if rotating then if expected == actual then None else Some(actual + " -> " + expected)
          else if expected != actual then None else Some(expected)
  }

  // ---- Trimming a text does not change its lines

  lemma {:induction false} TrimDropsLast(t: string, c: char)
    requires IsSpace(c)
    ensures Trim(t + [c]) == Trim(t)
  {
    var s := t + [c];
    if t == [] {
      assert s[1..] == [];
    } else if IsSpace(t[0]) {
      assert s[1..] == t[1..] + [c];
      TrimDropsLast(t[1..], c);
    } else {
      assert s[..|s| - 1] == t;
    }
  }

  lemma {:induction false} LineEndLast(t: string, c: char)
    ensures LineEnd(t) < |t| ==> LineEnd(t + [c]) == LineEnd(t)
    ensures LineEnd(t) == |t| ==> LineEnd(t + [c]) == |t| + if IsLineBreak(c) then 0 else 1
  {
    var s := t + [c];
    if t == [] {
      assert s[1..] == [];
    } else {
      assert s[1..] == t[1..] + [c];
      if !IsLineBreak(t[0]) {
        LineEndLast(t[1..], c);
      }
    }
  }

  /** Where the line after the first begins. */
  function NextLine(s: string): (k: nat)
    requires LineEnd(s) < |s|
    ensures LineEnd(s) < k <= |s|
  {
    BehindBreak(s, LineEnd(s))
  }

  /** Behind the line break at `n`. */
  function BehindBreak(s: string, n: nat): (k: nat)
    requires n < |s|
    ensures n < k <= |s|
  {
    if s[n] == '\r' && n + 1 < |s| && s[n + 1] == '\n' then n + 2 else n + 1
  }

  lemma FirstNonBlank(line: string, lines: seq<string>)
    ensures NonBlank([line] + lines) == IfNotBlank(line) + NonBlank(lines)
  {
    assert ([line] + lines)[1..] == lines;
  }

  lemma SplitsAtBreak(s: string)
    requires LineEnd(s) < |s|
    ensures SplitLines(s) == [s[..LineEnd(s)]] + SplitLines(s[NextLine(s)..])
  {
  }

  function IfNotBlank(line: string): seq<string> {
    if Trim(line) == "" then [] else [Trim(line)]
  }

  lemma FirstLine(s: string)
    requires LineEnd(s) < |s|
    ensures LinesOf(s) == IfNotBlank(s[..LineEnd(s)]) + LinesOf(s[NextLine(s)..])
  {
    SplitsAtBreak(s);
    FirstNonBlank(s[..LineEnd(s)], SplitLines(s[NextLine(s)..]));
  }

  lemma LastLine(s: string)
    requires s != [] && LineEnd(s) == |s|
    ensures LinesOf(s) == IfNotBlank(s)
  {
    FirstNonBlank(s, []);
    assert SplitLines(s) == [s] + [];
  }

  lemma NoLines()
    ensures LinesOf("") == []
  {
  }

  /** White space behind a text without a line break. */
  lemma DropsLastOfLine(t: string, c: char)
    requires IsSpace(c) && LineEnd(t) == |t|
    ensures LinesOf(t + [c]) == LinesOf(t)
  {
    var s := t + [c];
    LineEndLast(t, c);
    NoLines();
    if t != [] {
      LastLine(t);
    }
    if IsLineBreak(c) {
      FirstLine(s);
      assert s[..|t|] == t && s[NextLine(s)..] == [];
    } else {
      LastLine(s);
      TrimDropsLast(t, c);
    }
  }

  /** A newline that joins a carriage return at the end. */
  lemma DropsNewline(t: string)
    requires LineEnd(t) + 1 == |t| && t[|t| - 1] == '\r'
    ensures LinesOf(t + ['\n']) == LinesOf(t)
  {
    var s := t + ['\n'];
    LineEndLast(t, '\n');
    FirstLine(s);
    FirstLine(t);
    assert s[..LineEnd(t)] == t[..LineEnd(t)] && s[NextLine(s)..] == [] && t[NextLine(t)..] == [];
  }

  lemma LongerText(t: string, c: char)
    requires LineEnd(t) < |t| && !(LineEnd(t) + 1 == |t| && t[|t| - 1] == '\r' && c == '\n')
    ensures var s := t + [c];
            && LineEnd(s) == LineEnd(t) && NextLine(s) == NextLine(t)
            && s[..LineEnd(t)] == t[..LineEnd(t)] && s[NextLine(t)..] == t[NextLine(t)..] + [c]
  {
    LineEndLast(t, c);
    LongerBehind(t, c, LineEnd(t));
  }

  lemma LongerBehind(t: string, c: char, n: nat)
    requires n < |t| && !(n + 1 == |t| && t[|t| - 1] == '\r' && c == '\n')
    ensures var s := t + [c];
            var k := BehindBreak(t, n);
            BehindBreak(s, n) == k && s[..n] == t[..n] && s[k..] == t[k..] + [c]
  {
  }

  lemma {:induction false} DropsLast(t: string, c: char)
    requires IsSpace(c)
    ensures LinesOf(t + [c]) == LinesOf(t)
    decreases |t|
  {
    if LineEnd(t) == |t| {
      DropsLastOfLine(t, c);
    } else if LineEnd(t) + 1 == |t| && t[|t| - 1] == '\r' && c == '\n' {
      DropsNewline(t);
    } else {
      LongerText(t, c);
      DropsLast(t[NextLine(t)..], c);
      FirstLine(t + [c]);
      FirstLine(t);
    }
  }

  lemma DropsFirst(c: char, t: string)
    requires IsSpace(c)
    ensures LinesOf([c] + t) == LinesOf(t)
  {
    var s := [c] + t;
    assert s[1..] == t;
    if IsLineBreak(c) {
      assert s[..0] == [] && LineEnd(s) == 0;
      if c == '\r' && t != [] && t[0] == '\n' {
        assert s[2..] == t[1..] && t[..0] == [];
      }
    } else {
      DropsFirstOfLine(c, t);
    }
  }

  lemma TrimDropsFirst(c: char, t: string)
    requires IsSpace(c)
    ensures Trim([c] + t) == Trim(t)
  {
    assert ([c] + t)[1..] == t;
  }

  lemma LongerLine(c: char, t: string)
    requires !IsLineBreak(c)
    ensures LineEnd([c] + t) == LineEnd(t) + 1
    ensures LineEnd(t) < |t| ==> NextLine([c] + t) == NextLine(t) + 1
  {
    assert ([c] + t)[1..] == t;
    if LineEnd(t) < |t| {
      LaterBehind(c, t, LineEnd(t));
    }
  }

  lemma LaterBehind(c: char, t: string, n: nat)
    requires n < |t|
    ensures BehindBreak([c] + t, n + 1) == BehindBreak(t, n) + 1
  {
    assert forall i | 0 <= i < |t| :: ([c] + t)[i + 1] == t[i];
  }

  lemma LongerLineRest(c: char, t: string, k: nat)
    requires k <= |t|
    ensures ([c] + t)[..k + 1] == [c] + t[..k] && ([c] + t)[k + 1..] == t[k..]
  {
  }

  lemma DropsFirstOfLine(c: char, t: string)
    requires IsSpace(c) && !IsLineBreak(c)
    ensures LinesOf([c] + t) == LinesOf(t)
  {
    LongerLine(c, t);
    if LineEnd(t) < |t| {
      DropsFirstOfSeveral(c, t);
    } else {
      LastLine([c] + t);
      TrimDropsFirst(c, t);
      if t != [] {
        LastLine(t);
      }
    }
  }

  lemma DropsFirstOfSeveral(c: char, t: string)
    requires IsSpace(c) && !IsLineBreak(c) && LineEnd(t) < |t|
    ensures LinesOf([c] + t) == LinesOf(t)
  {
    LongerLine(c, t);
    LongerLineRest(c, t, LineEnd(t));
    LongerLineRest(c, t, NextLine(t));
    TrimDropsFirst(c, t[..LineEnd(t)]);
    FirstLine([c] + t);
    FirstLine(t);
  }

  lemma {:induction false} TrimKeepsLines(s: string)
    ensures PayloadLine(Trim(s)) == PayloadLine(s)
    decreases |s|
  {
    if s != [] {
      if IsSpace(s[0]) {
        assert s == [s[0]] + s[1..];
        DropsFirst(s[0], s[1..]);
        TrimKeepsLines(s[1..]);
      } else if IsSpace(s[|s| - 1]) {
        assert s == s[..|s| - 1] + [s[|s| - 1]];
        DropsLast(s[..|s| - 1], s[|s| - 1]);
        TrimKeepsLines(s[..|s| - 1]);
      }
    }
  }

  // ---- The raw file and its base64

  lemma {:induction false} AsciiStays(s: string)
    ensures forall c | c in Trim(s) :: c in s
    ensures forall c | c in s && !IsSpace(c) :: c in Trim(s)
    decreases |s|
  {
    if s != [] {
      if IsSpace(s[0]) {
        AsciiStays(s[1..]);
        assert s == [s[0]] + s[1..];
      } else if IsSpace(s[|s| - 1]) {
        AsciiStays(s[..|s| - 1]);
        assert s == s[..|s| - 1] + [s[|s| - 1]];
      }
    }
  }

  lemma {:induction false} ContainsColon(s: string)
    requires Contains(s, "comment:")
    ensures ':' in s
  {
    if "comment:" <= s {
      assert s[7] == "comment:"[7] == ':';
    } else {
      ContainsColon(s[1..]);
    }
  }

  lemma PlainTrims(s: string)
    requires forall c | c in s :: IsBase64Char(c)
    ensures Trim(s) == s && IsAscii(s)
  {
    if s != [] {
      assert s[0] in s && s[|s| - 1] in s;
    }
  }

  lemma RawRead(text: string)
    requires Contains(text, "comment:")
    ensures SignatureKeyId(text) == if IsAscii(Trim(text)) then IdIn(text, SIGNATURE_BYTES) else None
  {
    var raw := Trim(text);
    ContainsColon(text);
    AsciiStays(text);
    assert ':' in raw && !IsBase64Char(':');
    OthersDoNotDecode(raw, ':');
    TrimKeepsLines(text);
  }

  lemma EncodedRead(text: string)
    requires Contains(text, "comment:")
    ensures SignatureKeyId(Base64(Encode(text))) == IdIn(text, SIGNATURE_BYTES)
  {
    var encoded := Base64(Encode(text));
    Base64IsPlain(Encode(text));
    PlainTrims(encoded);
    DecodesBase64(Encode(text));
    DecodesEncoded(text);
    assert Decoded(encoded) == Some(text);
  }

  /** A minisign text and its base64 have the same key id, or neither has one, if and only if all its
      characters are ASCII or there is no id in it: the text has a colon in it, so it never passes for
      base64, and with another character it is refused as it is. */
  lemma FormsAgree(text: string)
    requires Contains(text, "comment:")
    ensures SignatureKeyId(Base64(Encode(text))) == IdIn(text, SIGNATURE_BYTES)
    ensures SignatureKeyId(text) == SignatureKeyId(Base64(Encode(text))) <==>
      IsAscii(Trim(text)) || IdIn(text, SIGNATURE_BYTES) == None
  {
    RawRead(text);
    EncodedRead(text);
  }

  // ---- Ids

  lemma HexDigitsDiffer(m: nat, n: nat)
    requires m < 16 && n < 16 && HexDigit(m) == HexDigit(n)
    ensures m == n
  {
  }

  lemma {:induction false} HexInjective(a: seq<byte>, b: seq<byte>)
    requires Hex(a) == Hex(b)
    ensures a == b
  {
    if a != [] && b != [] {
      assert Hex(a)[2..] == Hex(a[1..]) && Hex(b)[2..] == Hex(b[1..]);
      assert Hex(a)[0] == Hex(b)[0] && Hex(a)[1] == Hex(b)[1];
      HexDigitsDiffer(a[0] as int / 16, b[0] as int / 16);
      HexDigitsDiffer(a[0] as int % 16, b[0] as int % 16);
      HexInjective(a[1..], b[1..]);
      assert a == [a[0]] + a[1..] && b == [b[0]] + b[1..];
    }
  }

  lemma {:induction false} ReversedInjective(a: seq<byte>, b: seq<byte>)
    requires Reversed(a) == Reversed(b)
    ensures a == b
  {
    if a != [] && b != [] {
      LastOfReversed(a);
      LastOfReversed(b);
      ReversedInjective(a[1..], b[1..]);
      assert a == [a[0]] + a[1..] && b == [b[0]] + b[1..];
    }
  }

  lemma LastOfReversed(a: seq<byte>)
    requires a != []
    ensures var r := Reversed(a); r != [] && r[|r| - 1] == a[0] && r[..|r| - 1] == Reversed(a[1..])
  {
  }

  /** Two ids are one if and only if the eight bytes agree. */
  lemma IdsAgree(a: seq<byte>, b: seq<byte>)
    requires |a| >= 10 && |b| >= 10
    ensures IdOf(a) == IdOf(b) <==> a[2..10] == b[2..10]
  {
    if IdOf(a) == IdOf(b) {
      HexInjective(Reversed(a[2..10]), Reversed(b[2..10]));
      ReversedInjective(a[2..10], b[2..10]);
    }
  }

  // ---- Files as minisign writes them

  function KeyFile(comment: string, raw: seq<byte>): string {
    (UNTRUSTED + comment) + "\n" + (Base64(raw) + "\n" + "")
  }

  function SignatureFile(comment: string, raw: seq<byte>, trusted: string, global: seq<byte>): string {
    (UNTRUSTED + comment) + "\n" + (Base64(raw) + "\n" + ((TRUSTED + trusted) + "\n" + (Base64(global) + "\n" + "")))
  }

  lemma {:induction false} TrimKeepsPrefix(prefix: string, s: string)
    requires prefix != [] && !IsSpace(prefix[0]) && !IsSpace(prefix[|prefix| - 1]) && prefix <= s
    ensures prefix <= Trim(s)
    decreases |s|
  {
    assert s[0] == prefix[0];
    assert s[|prefix| - 1] == prefix[|prefix| - 1];
    if IsSpace(s[|s| - 1]) {
      TrimKeepsPrefix(prefix, s[..|s| - 1]);
    }
  }

  /** After a comment line, the base64 line is the payload. */
  lemma PayloadFound(comment: string, raw: seq<byte>, rest: string)
    requires OneLine(comment) && raw != []
    ensures PayloadLine((UNTRUSTED + comment) + "\n" + (Base64(raw) + "\n" + rest)) == Some(Base64(raw))
  {
    var payload := Base64(raw);
    Base64IsPlain(raw);
    PlainTrims(payload);
    PlainIsOneLine(payload);
    NotAComment(payload, UNTRUSTED);
    NotAComment(payload, TRUSTED);
    CommentLine(comment);
    PayloadAfter(UNTRUSTED + comment, payload, rest);
  }

  lemma CommentLine(comment: string)
    requires OneLine(comment)
    ensures OneLine(UNTRUSTED + comment) && UNTRUSTED <= Trim(UNTRUSTED + comment)
  {
    assert UNTRUSTED <= UNTRUSTED + comment;
    TrimKeepsPrefix(UNTRUSTED, UNTRUSTED + comment);
  }

  lemma PayloadAfter(first: string, payload: string, rest: string)
    requires OneLine(first) && UNTRUSTED <= Trim(first)
    requires OneLine(payload) && payload != "" && Trim(payload) == payload
    requires !(UNTRUSTED <= payload) && !(TRUSTED <= payload)
    ensures PayloadLine(first + "\n" + (payload + "\n" + rest)) == Some(payload)
  {
    SplitsFirstLine(first, payload + "\n" + rest);
    SplitsFirstLine(payload, rest);
    var lines := SplitLines(rest);
    FirstNonBlank(payload, lines);
    FirstNonBlank(first, [payload] + lines);
    FirstIs(payload, NonBlank(lines));
    FirstIs(Trim(first), [payload] + NonBlank(lines));
  }

  lemma FirstIs(line: string, lines: seq<string>)
    ensures FirstPayload([line] + lines) ==
            if UNTRUSTED <= line || TRUSTED <= line then FirstPayload(lines) else Some(line)
  {
    assert ([line] + lines)[1..] == lines;
  }

  lemma PlainIsOneLine(s: string)
    requires forall c | c in s :: IsBase64Char(c)
    ensures OneLine(s)
  {
    forall c | c in s ensures !IsLineBreak(c) {
    }
  }

  lemma NotAComment(s: string, prefix: string)
    requires (forall c | c in s :: IsBase64Char(c)) && ':' in prefix
    ensures !(prefix <= s)
  {
    if prefix <= s {
      PrefixHas(prefix, s, ':');
    }
  }

  lemma PrefixHas(prefix: string, s: string, c: char)
    requires prefix <= s && c in prefix
    ensures c in s
  {
    var i :| 0 <= i < |prefix| && prefix[i] == c;
    assert s[i] == c;
  }

  lemma {:induction false} ContainsAfter(head: string, tail: string, part: string)
    requires part <= tail
    ensures Contains(head + tail, part)
    decreases |head|
  {
    if head == [] {
      assert head + tail == tail;
    } else {
      assert (head + tail)[1..] == head[1..] + tail;
      ContainsAfter(head[1..], tail, part);
    }
  }

  predicate IsKey(raw: seq<byte>, length: nat) {
    |raw| == length >= 10 && raw[..2] in ALGORITHMS
  }

  /** A public key as the configuration has it gives the id in its key file. */
  lemma PublicKeyRead(comment: string, raw: seq<byte>)
    requires OneLine(comment) && IsKey(raw, PUBLIC_KEY_BYTES)
    ensures PublicKeyId(Base64(Encode(KeyFile(comment, raw)))) == Some(IdOf(raw))
  {
    var text := KeyFile(comment, raw);
    DecodesBase64(Encode(text));
    DecodesEncoded(text);
    PayloadFound(comment, raw, "");
    DecodesBase64(raw);
  }

  lemma FileHasId(comment: string, raw: seq<byte>, trusted: string, global: seq<byte>)
    requires OneLine(comment) && IsKey(raw, SIGNATURE_BYTES)
    ensures var file := SignatureFile(comment, raw, trusted, global);
            Contains(file, "comment:") && IdIn(file, SIGNATURE_BYTES) == Some(IdOf(raw))
  {
    var rest := (TRUSTED + trusted) + "\n" + (Base64(global) + "\n" + "");
    PayloadFound(comment, raw, rest);
    DecodesBase64(raw);
    HasComment(comment + "\n" + (Base64(raw) + "\n" + rest));
    Regroup(comment, Base64(raw) + "\n" + rest);
  }

  /** A signature file gives the id of the key that signed, or none when it is not all ASCII. */
  lemma SignatureRead(comment: string, raw: seq<byte>, trusted: string, global: seq<byte>)
    requires OneLine(comment) && IsKey(raw, SIGNATURE_BYTES)
    ensures var file := SignatureFile(comment, raw, trusted, global);
            SignatureKeyId(file) == if IsAscii(Trim(file)) then Some(IdOf(raw)) else None
  {
    FileHasId(comment, raw, trusted, global);
    RawRead(SignatureFile(comment, raw, trusted, global));
  }

  /** Its base64 does, whatever the comments. */
  lemma EncodedSignatureRead(comment: string, raw: seq<byte>, trusted: string, global: seq<byte>)
    requires OneLine(comment) && IsKey(raw, SIGNATURE_BYTES)
    ensures SignatureKeyId(Base64(Encode(SignatureFile(comment, raw, trusted, global)))) == Some(IdOf(raw))
  {
    FileHasId(comment, raw, trusted, global);
    EncodedRead(SignatureFile(comment, raw, trusted, global));
  }

  lemma HasComment(rest: string)
    ensures Contains(UNTRUSTED + rest, "comment:")
  {
    var tail := "comment:" + rest;
    assert "comment:" <= tail;
    ContainsAfter("untrusted ", tail, "comment:");
    assert UNTRUSTED == "untrusted " + "comment:";
    assert UNTRUSTED + rest == "untrusted " + tail;
  }

  lemma Regroup(comment: string, rest: string)
    ensures (UNTRUSTED + comment) + "\n" + rest == UNTRUSTED + (comment + "\n" + rest)
  {
  }

  /** The check passes if and only if the key ids agree, and in a declared rotation if and only if they do not: for
      the base64 of any signature file, and for a file that is all ASCII. */
  lemma ChecksTheKeys(keyComment: string, key: seq<byte>, comment: string, raw: seq<byte>, trusted: string,
                      global: seq<byte>, inBase64: bool, rotating: bool)
    requires OneLine(keyComment) && IsKey(key, PUBLIC_KEY_BYTES)
    requires OneLine(comment) && IsKey(raw, SIGNATURE_BYTES)
    ensures var file := SignatureFile(comment, raw, trusted, global);
            var pubkey := Base64(Encode(KeyFile(keyComment, key)));
            Check(pubkey, if inBase64 then Base64(Encode(file)) else file, rotating).Some? <==>
            (inBase64 || IsAscii(Trim(file))) && (key[2..10] == raw[2..10]) != rotating
  {
    var text := KeyFile(keyComment, key);
    PublicKeyRead(keyComment, key);
    SignatureRead(comment, raw, trusted, global);
    EncodedSignatureRead(comment, raw, trusted, global);
    IdsAgree(key, raw);
    assert Encode(text) != [] by {
      assert text != [];
    }
    Base64IsPlain(Encode(text));
  }
}
