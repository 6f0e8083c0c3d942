/** Which keys and signatures are accepted at all. */
module UpdaterKeysExact {
  // And what their ids are: the other half of reading what minisign writes.

  import opened Options
  import opened Text
  import opened Utf8
  import opened UpdaterKeys

  // ---- Base64 that decodes

  lemma CharOfSextet(c: char)
    requires SextetOf(c).Some?
    ensures CharOf(SextetOf(c).value) == c
  {
  }

  lemma RegroupsOne(w: nat, x: nat)
    requires w < 64 && x < 64
    ensures var a := w * 4 + x / 16; a < 256 && a / 4 == w && a % 4 == x / 16
  {
  }

  lemma RegroupsTwo(w: nat, x: nat, y: nat)
    requires w < 64 && x < 64 && y < 64
    ensures var a, b := w * 4 + x / 16, x % 16 * 16 + y / 4;
            a < 256 && b < 256 && a / 4 == w && a % 4 * 16 + b / 16 == x && b % 16 == y / 4
  {
    RegroupsOne(w, x);
  }

  lemma RegroupsThree(w: nat, x: nat, y: nat, z: nat)
    requires w < 64 && x < 64 && y < 64 && z < 64
    ensures var a, b, c := w * 4 + x / 16, x % 16 * 16 + y / 4, y % 4 * 64 + z;
            && a < 256 && b < 256 && c < 256
            && a / 4 == w && a % 4 * 16 + b / 16 == x && b % 16 * 4 + c / 64 == y && c % 64 == z
  {
    RegroupsTwo(w, x, y);
  }

  /** Four characters are what their bytes are written as, but for the unused bits of the last. */
  ghost predicate Grouped(q: string, bs: seq<byte>)
    requires |q| == 4 && 1 <= |bs| <= 3
  {
    forall i | 0 <= i < 4 && (|bs| == 3 || i != |bs|) :: q[i] == Group(bs)[i]
  }

  lemma UngroupIs(q: string, last: bool)
    requires |q| == 4 && Ungroup(q, last).Some?
    ensures var bs := Ungroup(q, last).value; 1 <= |bs| <= 3 && (|bs| < 3 ==> last) && Grouped(q, bs)
  {
    var w, x := SextetOf(q[0]).value, SextetOf(q[1]).value;
    CharOfSextet(q[0]);
    CharOfSextet(q[1]);
    RegroupsOne(w, x);
    if SextetOf(q[2]).Some? {
      var y := SextetOf(q[2]).value;
      CharOfSextet(q[2]);
      RegroupsTwo(w, x, y);
      if SextetOf(q[3]).Some? {
        CharOfSextet(q[3]);
        RegroupsThree(w, x, y, SextetOf(q[3]).value);
      }
    }
  }

  /** Where the last character stands that says anything of a last group of one or two bytes. */
  function LastOf(bs: seq<byte>): nat {
    4 * (|bs| / 3) + |bs| % 3
  }

  lemma {:induction false} LengthOf(bs: seq<byte>)
    ensures |Base64(bs)| == 4 * ((|bs| + 2) / 3)
  {
    if |bs| > 3 {
      LengthOf(bs[3..]);
    }
  }

  lemma Base64Of(first: seq<byte>, rest: seq<byte>)
    requires |first| == 3 || (1 <= |first| < 3 && rest == [])
    ensures Base64(first + rest) == Group(first) + Base64(rest)
  {
    if rest == [] {
      assert first + rest == first && Group(first) + "" == Group(first);
    } else {
      assert (first + rest)[..3] == first && (first + rest)[3..] == rest;
    }
  }

  /** The text is what the bytes encode as, but for the unused bits of its last character. */
  ghost predicate Encodes(s: string, bs: seq<byte>) {
    |s| == |Base64(bs)| && forall i | 0 <= i < |s| && (|bs| % 3 == 0 || i != LastOf(bs)) :: s[i] == Base64(bs)[i]
  }

  lemma GroupEncodes(q: string, first: seq<byte>, t: string, rest: seq<byte>)
    requires |q| == 4 && (|first| == 3 || (1 <= |first| < 3 && rest == [])) && Grouped(q, first) && Encodes(t, rest)
    ensures Encodes(q + t, first + rest)
  {
    Base64Of(first, rest);
    LengthOf(first);
    assert |Group(first)| == 4;
    if |first| == 3 {
      assert LastOf(first + rest) == 4 + LastOf(rest) && |first + rest| % 3 == |rest| % 3;
    } else {
      assert first + rest == first && t == "";
    }
  }

  /** What decodes is what its bytes encode as, but for the unused bits of its last character. */
  lemma {:induction false} DecodedIsEncoded(s: string)
    requires Unbase64(s).Some?
    ensures Encodes(s, Unbase64(s).value)
  {
    if s != [] {
      var first, rest := Ungroup(s[..4], |s| == 4).value, Unbase64(s[4..]).value;
      UngroupIs(s[..4], |s| == 4);
      DecodedIsEncoded(s[4..]);
      GroupEncodes(s[..4], first, s[4..], rest);
      assert s == s[..4] + s[4..];
    }
  }

  // ---- The payload line

  predicate Skipped(line: string) {
    Trim(line) == "" || "untrusted comment:" <= Trim(line) || "trusted comment:" <= Trim(line)
  }

  /** The line is the first, stripped, that is neither empty nor a comment. */
  ghost predicate IsPayload(lines: seq<string>, line: string) {
    exists k: nat :: k < |lines| && !Skipped(lines[k]) && line == Trim(lines[k]) && forall j | 0 <= j < k :: Skipped(lines[j])
  }

  lemma {:induction false} FirstPayloadIff(lines: seq<string>, line: string)
    ensures FirstPayload(NonBlank(lines)) == Some(line) <==> IsPayload(lines, line)
  {
    if lines != [] {
      FirstPayloadIff(lines[1..], line);
      var rest := NonBlank(lines[1..]);
      FirstIs(Trim(lines[0]), rest);
      assert [] + rest == rest;
      PayloadLater(lines, line);
    }
  }

  lemma PayloadLater(lines: seq<string>, line: string)
    requires lines != []
    ensures IsPayload(lines, line) <==> if Skipped(lines[0]) then IsPayload(lines[1..], line) else line == Trim(lines[0])
  {
    if Skipped(lines[0]) && IsPayload(lines[1..], line) {
      var k: nat :| k < |lines[1..]| && !Skipped(lines[1..][k]) && line == Trim(lines[1..][k])
                    && forall j | 0 <= j < k :: Skipped(lines[1..][j]);
      assert lines[k + 1] == lines[1..][k];
      forall j | 0 <= j < k + 1 ensures Skipped(lines[j]) {
        assert j > 0 ==> lines[j] == lines[1..][j - 1];
      }
    }
    if IsPayload(lines, line) {
      var k: nat :| k < |lines| && !Skipped(lines[k]) && line == Trim(lines[k]) && forall j | 0 <= j < k :: Skipped(lines[j]);
      if k > 0 {
        assert lines[1..][k - 1] == lines[k];
        forall j | 0 <= j < k - 1 ensures Skipped(lines[1..][j]) {
          assert lines[1..][j] == lines[j + 1];
        }
      }
    }
  }

  // ---- Ids

  /** The text's payload decodes to the bytes, which are as many as asked for and begin with one of Ed25519's marks. */
  ghost predicate Holds(text: string, length: nat, raw: seq<byte>) {
    && (exists line :: IsPayload(SplitLines(text), line) && Unbase64(line) == Some(raw))
    && |raw| == length && length >= 10
    && raw[0] == 0x45 && (raw[1] == 0x64 || raw[1] == 0x44)
  }

  /** The id is eight bytes from the third on, the last first, two upper-case hex digits each. */
  predicate IsIdOf(id: string, raw: seq<byte>) {
    && |raw| >= 10 && |id| == 16
    && forall i | 0 <= i < 8 ::
         id[2 * i] == "0123456789ABCDEF"[raw[9 - i] as int / 16] && id[2 * i + 1] == "0123456789ABCDEF"[raw[9 - i] as int % 16]
  }

  lemma {:induction false} HexAt(bs: seq<byte>, i: nat)
    requires i < |bs|
    ensures |Hex(bs)| == 2 * |bs|
    ensures Hex(bs)[2 * i] == HexDigit(bs[i] as int / 16) && Hex(bs)[2 * i + 1] == HexDigit(bs[i] as int % 16)
  {
    if i > 0 {
      HexAt(bs[1..], i - 1);
    } else if |bs| > 1 {
      HexAt(bs[1..], 0);
    }
  }

  lemma {:induction false} ReversedAt(bs: seq<byte>, i: nat)
    requires i < |bs|
    ensures |Reversed(bs)| == |bs| && Reversed(bs)[i] == bs[|bs| - 1 - i]
  {
    if |bs| > 1 {
      ReversedAt(bs[1..], if i < |bs| - 1 then i else 0);
    }
  }

  lemma HexDigitIs(n: nat)
    requires n < 16
    ensures HexDigit(n) == "0123456789ABCDEF"[n]
  {
  }

  lemma IdIff(id: string, raw: seq<byte>)
    requires |raw| >= 10
    ensures IsIdOf(id, raw) <==> id == IdOf(raw)
  {
    IdOfIsId(raw);
    if IsIdOf(id, raw) {
      var of := IdOf(raw);
      forall i | 0 <= i < 8 ensures id[2 * i] == of[2 * i] && id[2 * i + 1] == of[2 * i + 1] {
        assert of[2 * i] == "0123456789ABCDEF"[raw[9 - i] as int / 16];
      }
      SameByPairs(id, of);
    }
  }

  lemma IdOfIsId(raw: seq<byte>)
    requires |raw| >= 10
    ensures IsIdOf(IdOf(raw), raw)
  {
    var bytes := raw[2..10];
    ReversedAt(bytes, 0);
    HexAt(Reversed(bytes), 0);
    forall i | 0 <= i < 8
      ensures IdOf(raw)[2 * i] == "0123456789ABCDEF"[raw[9 - i] as int / 16]
      ensures IdOf(raw)[2 * i + 1] == "0123456789ABCDEF"[raw[9 - i] as int % 16]
    {
      ReversedAt(bytes, i);
      HexAt(Reversed(bytes), i);
      HexDigitIs(raw[9 - i] as int / 16);
      HexDigitIs(raw[9 - i] as int % 16);
    }
  }

  lemma SameByPairs(a: string, b: string)
    requires |a| == |b| == 16 && forall i | 0 <= i < 8 :: a[2 * i] == b[2 * i] && a[2 * i + 1] == b[2 * i + 1]
    ensures a == b
  {
    forall k | 0 <= k < 16 ensures a[k] == b[k] {
      var i := k / 2;
      assert k == 2 * i || k == 2 * i + 1;
    }
  }

  /** A text has an id if and only if its payload is a key or signature of that length, and then that one's. */
  lemma IdInIff(text: string, length: nat, id: string)
    requires length >= 10
    ensures IdIn(text, length) == Some(id) <==> exists raw :: Holds(text, length, raw) && IsIdOf(id, raw)
  {
    forall line ensures PayloadLine(text) == Some(line) <==> IsPayload(SplitLines(text), line) {
      FirstPayloadIff(SplitLines(text), line);
    }
    forall raw: seq<byte> | |raw| >= 10 ensures raw[..2] in ALGORITHMS <==> raw[0] == 0x45 && (raw[1] == 0x64 || raw[1] == 0x44) {
      assert raw[..2] == [raw[0], raw[1]];
    }
    forall raw: seq<byte> | |raw| >= 10 ensures IsIdOf(id, raw) <==> id == IdOf(raw) {
      IdIff(id, raw);
    }
  }

  // ---- The check

  /** The configured text is the base64 of a key file with the key in it. */
  ghost predicate IsPublicKey(pubkey: string, key: seq<byte>) {
    Decoded(pubkey).Some? && Holds(Decoded(pubkey).value, 42, key)
  }

  /** The text, stripped and all ASCII, is a signature file with the signature in it, or the base64 of one that has a
      comment in it. */
  ghost predicate IsSignature(signature: string, raw: seq<byte>) {
    var s := Trim(signature);
    && IsAscii(s)
    && if Decoded(s).Some? && Contains(Decoded(s).value, "comment:") then Holds(Decoded(s).value, 74, raw) else Holds(s, 74, raw)
  }

  lemma PublicKeyIff(pubkey: string, id: string)
    ensures PublicKeyId(pubkey) == Some(id) <==> exists key :: IsPublicKey(pubkey, key) && IsIdOf(id, key)
  {
    if Decoded(pubkey).Some? {
      IdInIff(Decoded(pubkey).value, 42, id);
    }
  }

  lemma SignatureIff(signature: string, id: string)
    ensures SignatureKeyId(signature) == Some(id) <==> exists raw :: IsSignature(signature, raw) && IsIdOf(id, raw)
  {
    var s := Trim(signature);
    if Decoded(s).Some? && Contains(Decoded(s).value, "comment:") {
      IdInIff(Decoded(s).value, 74, id);
    } else {
      IdInIff(s, 74, id);
    }
  }

  /** Whatever is configured and whatever is signed: the check passes if and only if one is a public key, the other a
      signature, and their ids agree, or in a declared rotation do not. */
  lemma PassesIff(pubkey: string, signature: string, rotating: bool)
    ensures Check(pubkey, signature, rotating).Some? <==>
            exists key, raw :: IsPublicKey(pubkey, key) && IsSignature(signature, raw) && (key[2..10] == raw[2..10]) != rotating
  {
    if Check(pubkey, signature, rotating).Some? {
      PublicKeyIff(pubkey, PublicKeyId(pubkey).value);
      SignatureIff(signature, SignatureKeyId(signature).value);
      var key :| IsPublicKey(pubkey, key) && IsIdOf(PublicKeyId(pubkey).value, key);
      var raw :| IsSignature(signature, raw) && IsIdOf(SignatureKeyId(signature).value, raw);
      IdIff(PublicKeyId(pubkey).value, key);
      IdIff(SignatureKeyId(signature).value, raw);
      IdsAgree(key, raw);
    }
    forall key, raw | IsPublicKey(pubkey, key) && IsSignature(signature, raw) && (key[2..10] == raw[2..10]) != rotating
      ensures Check(pubkey, signature, rotating).Some?
    {
      IdIff(IdOf(key), key);
      IdIff(IdOf(raw), raw);
      PublicKeyIff(pubkey, IdOf(key));
      SignatureIff(signature, IdOf(raw));
      IdsAgree(key, raw);
    }
  }
}
