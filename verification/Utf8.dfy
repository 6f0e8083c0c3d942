/** UTF-8, as section 3 of RFC 3629 has it: characters as one to four bytes. */
module Utf8 {
  import opened Options

  newtype byte = x: int | 0 <= x < 0x100

  function EncodeChar(c: char): seq<byte> {
    var v := c as int;
    if v < 0x80 then [v as byte]
    else if v < 0x800 then [(0xC0 + v / 0x40) as byte, (0x80 + v % 0x40) as byte]
    else if v < 0x10000 then
      [(0xE0 + v / 0x1000) as byte, (0x80 + v / 0x40 % 0x40) as byte, (0x80 + v % 0x40) as byte]
    else
      [(0xF0 + v / 0x40000) as byte, (0x80 + v / 0x1000 % 0x40) as byte, (0x80 + v / 0x40 % 0x40) as byte,
       (0x80 + v % 0x40) as byte]
  }

  function Encode(s: string): seq<byte> {
    if s == [] then [] else EncodeChar(s[0]) + Encode(s[1..])
  }

  predicate Continues(b: byte) {
    0x80 <= b < 0xC0
  }

  predicate IsScalar(v: int) {
    0 <= v < 0xD800 || 0xE000 <= v < 0x110000
  }

  /** How many bytes the sequence led by `b` has; 0 when `b` leads none. */
  function SequenceLength(b: byte): nat {
    if b < 0x80 then 1
    else if 0xC2 <= b < 0xE0 then 2
    else if 0xE0 <= b < 0xF0 then 3
    else if 0xF0 <= b < 0xF5 then 4
    else 0
  }

  /** The code point of a sequence of the right length. */
  function CodePoint(bs: seq<byte>): int
    requires 1 <= |bs| <= 4
  {
    if |bs| == 1 then bs[0] as int
    else if |bs| == 2 then (bs[0] as int - 0xC0) * 0x40 + (bs[1] as int - 0x80)
    else if |bs| == 3 then
      (bs[0] as int - 0xE0) * 0x1000 + (bs[1] as int - 0x80) * 0x40 + (bs[2] as int - 0x80)
    else
      (bs[0] as int - 0xF0) * 0x40000 + (bs[1] as int - 0x80) * 0x1000 + (bs[2] as int - 0x80) * 0x40 + (bs[3] as int - 0x80)
  }

  function Least(n: nat): int {
    if n == 1 then 0 else if n == 2 then 0x80 else if n == 3 then 0x800 else 0x10000
  }

  /** The character at the front of `bs` and how many bytes it took; none for what is not UTF-8. */
  function DecodeChar(bs: seq<byte>): (r: Option<(char, nat)>)
    ensures r.Some? ==> 0 < r.value.1 <= |bs|
  {
    if bs == [] then None
    else
      var n := SequenceLength(bs[0]);
      if n == 0 || n > |bs| || exists i | 1 <= i < n :: !Continues(bs[i]) then None
      else
        var v := CodePoint(bs[..n]);
        if Least(n) <= v && IsScalar(v) then Some((v as char, n)) else None
  }

  function Decode(bs: seq<byte>): Option<string>
    decreases |bs|
  {
    if bs == [] then Some([])
    else
      match DecodeChar(bs)
      case None => None
      case Some((c, n)) => Before(c, Decode(bs[n..]))
  }

  function Before(c: char, rest: Option<string>): Option<string> {
    if rest.Some? then Some([c] + rest.value) else None
  }

  lemma DecodesChar(c: char, rest: seq<byte>)
    ensures DecodeChar(EncodeChar(c) + rest) == Some((c, |EncodeChar(c)|))
  {
    var enc := EncodeChar(c);
    var bs := enc + rest;
    assert bs[..|enc|] == enc;
    EncodedShape(c);
    assert bs[0] == enc[0];
    assert forall i | 1 <= i < |enc| :: bs[i] == enc[i] && Continues(enc[i]);
    CodePointOfEncoded(c);
  }

  lemma EncodedShape(c: char)
    ensures var enc := EncodeChar(c);
            && 1 <= |enc| <= 4 && SequenceLength(enc[0]) == |enc| && Least(|enc|) <= c as int
            && forall i | 1 <= i < |enc| :: Continues(enc[i])
  {
  }

  lemma CodePointOfEncoded(c: char)
    ensures 1 <= |EncodeChar(c)| <= 4 && CodePoint(EncodeChar(c)) == c as int
  {
    var v := c as int;
    assert v == v / 0x40 * 0x40 + v % 0x40;
    assert v / 0x40 == v / 0x1000 * 0x40 + v / 0x40 % 0x40;
    assert v / 0x1000 == v / 0x40000 * 0x40 + v / 0x1000 % 0x40;
  }

  /** Decoding undoes encoding, for every string. */
  lemma {:induction false} DecodesEncoded(s: string)
    ensures Decode(Encode(s)) == Some(s)
  {
    if s != [] {
      DecodesChar(s[0], Encode(s[1..]));
      DecodesEncoded(s[1..]);
      assert s == [s[0]] + s[1..];
      assert Encode(s)[|EncodeChar(s[0])|..] == Encode(s[1..]);
    }
  }

  lemma EncodesTwo(a: byte, b: byte)
    requires 0xC2 <= a < 0xE0 && Continues(b)
    ensures var v := CodePoint([a, b]); 0x80 <= v < 0x800 && EncodeChar(v as char) == [a, b]
  {
    var v := (a as int - 0xC0) * 0x40 + (b as int - 0x80);
    assert v / 0x40 == a as int - 0xC0 && v % 0x40 == b as int - 0x80;
  }

  lemma EncodesThree(a: byte, b: byte, c: byte)
    requires 0xE0 <= a < 0xF0 && Continues(b) && Continues(c)
    requires 0x800 <= CodePoint([a, b, c]) && IsScalar(CodePoint([a, b, c]))
    ensures EncodeChar(CodePoint([a, b, c]) as char) == [a, b, c]
  {
    var v := (a as int - 0xE0) * 0x1000 + (b as int - 0x80) * 0x40 + (c as int - 0x80);
    assert v / 0x40 == (a as int - 0xE0) * 0x40 + (b as int - 0x80) && v % 0x40 == c as int - 0x80;
    assert v / 0x1000 == a as int - 0xE0 && v / 0x40 % 0x40 == b as int - 0x80;
  }

  lemma EncodesFour(a: byte, b: byte, c: byte, d: byte)
    requires 0xF0 <= a < 0xF5 && Continues(b) && Continues(c) && Continues(d)
    requires 0x10000 <= CodePoint([a, b, c, d]) && IsScalar(CodePoint([a, b, c, d]))
    ensures EncodeChar(CodePoint([a, b, c, d]) as char) == [a, b, c, d]
  {
    var v := (a as int - 0xF0) * 0x40000 + (b as int - 0x80) * 0x1000 + (c as int - 0x80) * 0x40 + (d as int - 0x80);
    var w := (a as int - 0xF0) * 0x1000 + (b as int - 0x80) * 0x40 + (c as int - 0x80);
    assert v == w * 0x40 + (d as int - 0x80) && v / 0x40 == w && v % 0x40 == d as int - 0x80;
    var u := (a as int - 0xF0) * 0x40 + (b as int - 0x80);
    assert w == u * 0x40 + (c as int - 0x80) && w / 0x40 == u && w % 0x40 == c as int - 0x80;
    assert v / 0x1000 == u && u / 0x40 == a as int - 0xF0 && u % 0x40 == b as int - 0x80;
    assert v / 0x40000 == a as int - 0xF0;
  }

  lemma EncodesChar(bs: seq<byte>)
    requires DecodeChar(bs).Some?
    ensures EncodeChar(DecodeChar(bs).value.0) == bs[..DecodeChar(bs).value.1]
  {
    var n := DecodeChar(bs).value.1;
    if n == 1 {
      assert bs[..1] == [bs[0]];
    } else if n == 2 {
      assert bs[..2] == [bs[0], bs[1]];
      EncodesTwo(bs[0], bs[1]);
    } else if n == 3 {
      assert bs[..3] == [bs[0], bs[1], bs[2]];
      EncodesThree(bs[0], bs[1], bs[2]);
    } else {
      assert bs[..4] == [bs[0], bs[1], bs[2], bs[3]];
      EncodesFour(bs[0], bs[1], bs[2], bs[3]);
    }
  }

  lemma EncodeMore(c: char, rest: string)
    ensures Encode([c] + rest) == EncodeChar(c) + Encode(rest)
  {
    assert ([c] + rest)[1..] == rest;
  }

  lemma CutAt(bs: seq<byte>, n: nat)
    requires n <= |bs|
    ensures bs[..n] + bs[n..] == bs
  {
  }

  lemma {:induction false} EncodesDecoded(bs: seq<byte>)
    requires Decode(bs).Some?
    ensures Encode(Decode(bs).value) == bs
    decreases |bs|
  {
    if bs != [] {
      var c, n := DecodeChar(bs).value.0, DecodeChar(bs).value.1;
      EncodesChar(bs);
      EncodesDecoded(bs[n..]);
      EncodeMore(c, Decode(bs[n..]).value);
      CutAt(bs, n);
    }
  }

  /** Bytes decode if and only if they are some string's encoding, and then as that string. */
  lemma DecodesIff(bs: seq<byte>, s: string)
    ensures Decode(bs) == Some(s) <==> bs == Encode(s)
  {
    DecodesEncoded(s);
    if Decode(bs) == Some(s) {
      EncodesDecoded(bs);
    }
  }
}
