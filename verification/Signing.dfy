/** Base64, the canonical release message, and signing and verification over an abstract signature scheme. */
module Signing {
  import opened Common

  // ---------- base64, section 4 of RFC 4648 ----------

  type Sextet = x: int | 0 <= x < 64

  function CharOf(n: Sextet): char {
    if n < 26 then 'A' + n as char
    else if n < 52 then 'a' + (n - 26) as char
    else if n < 62 then '0' + (n - 52) as char
    else if n == 62 then '+' else '/'
  }

  function SextetOf(c: char): Option<Sextet> {
    if 'A' <= c <= 'Z' then Some(c as int - 'A' as int)
    else if 'a' <= c <= 'z' then Some(c as int - 'a' as int + 26)
    else if '0' <= c <= '9' then Some(c as int - '0' as int + 52)
    else if c == '+' then Some(62) else if c == '/' then Some(63) else None
  }

  lemma SextetRoundTrip(n: Sextet)
    ensures SextetOf(CharOf(n)) == Some(n)
    ensures CharOf(n) != '=' && !IsSpace(CharOf(n))
  {
  }

  /** The alphabet characters of the encoding, without padding. */
  function Unpadded(b: Bytes): string {
    if b == [] then []
    else if |b| == 1 then [CharOf(b[0] / 4), CharOf(b[0] % 4 * 16)]
    else if |b| == 2 then [CharOf(b[0] / 4), CharOf(b[0] % 4 * 16 + b[1] / 16), CharOf(b[1] % 16 * 4)]
    else [CharOf(b[0] / 4), CharOf(b[0] % 4 * 16 + b[1] / 16), CharOf(b[1] % 16 * 4 + b[2] / 64), CharOf(b[2] % 64)]
         + Unpadded(b[3..])
  }

  function Padding(n: nat): string {
    if n % 3 == 0 then [] else if n % 3 == 1 then "==" else "="
  }

  function Encode(b: Bytes): string {
    Unpadded(b) + Padding(|b|)
  }

  predicate IsSpace(c: char) {
    c == '\t' || c == '\n' || c == 12 as char || c == '\r' || c == ' '
  }

  function StripSpace(s: string): string {
    if s == [] then [] else (if IsSpace(s[0]) then [] else [s[0]]) + StripSpace(s[1..])
  }

  /** Up to two padding characters are dropped from a text whose length is a multiple of four. */
  function StripPadding(s: string): string {
    if |s| % 4 != 0 || s == [] || s[|s| - 1] != '=' then s
    else if s[|s| - 2] == '=' then s[..|s| - 2] else s[..|s| - 1]
  }

  /** Four characters give three bytes; two or three left over give one or two, and spare bits are dropped. */
  function DecodeChars(s: string): Option<Bytes> {
    if s == [] then Some([])
    else if |s| == 1 || SextetOf(s[0]).None? || SextetOf(s[1]).None? then None
    else
      var v0, v1 := SextetOf(s[0]).value, SextetOf(s[1]).value;
      if |s| == 2 then Some([v0 * 4 + v1 / 16])
      else if SextetOf(s[2]).None? then None
      else
        var v2 := SextetOf(s[2]).value;
        if |s| == 3 then Some([v0 * 4 + v1 / 16, v1 % 16 * 16 + v2 / 4])
        else if SextetOf(s[3]).None? then None
        else
          var v3 := SextetOf(s[3]).value;
          match DecodeChars(s[4..])
          case None => None
          case Some(rest) => Some([v0 * 4 + v1 / 16, v1 % 16 * 16 + v2 / 4, v2 % 4 * 64 + v3] + rest)
  }

  function Decode(s: string): Option<Bytes> {
    DecodeChars(StripPadding(StripSpace(s)))
  }

  predicate InAlphabet(s: string) {
    forall c :: c in s ==> c != '=' && !IsSpace(c)
  }

  lemma Triple(b0: Byte, b1: Byte, b2: Byte)
    ensures b0 / 4 * 4 + (b0 % 4 * 16 + b1 / 16) / 16 == b0
    ensures (b0 % 4 * 16 + b1 / 16) % 16 * 16 + (b1 % 16 * 4 + b2 / 64) / 4 == b1
    ensures (b1 % 16 * 4 + b2 / 64) % 4 * 64 + b2 % 64 == b2
  {
  }

  lemma FourDecode(s: string, n0: Sextet, n1: Sextet, n2: Sextet, n3: Sextet)
    requires |s| >= 4 && DecodeChars(s[4..]).Some?
    requires SextetOf(s[0]) == Some(n0) && SextetOf(s[1]) == Some(n1)
    requires SextetOf(s[2]) == Some(n2) && SextetOf(s[3]) == Some(n3)
    ensures DecodeChars(s) ==
            Some([n0 * 4 + n1 / 16, n1 % 16 * 16 + n2 / 4, n2 % 4 * 64 + n3] + DecodeChars(s[4..]).value)
  {
  }

  lemma QuadDecodes(n0: Sextet, n1: Sextet, n2: Sextet, n3: Sextet, rest: string)
    requires DecodeChars(rest).Some?
    ensures DecodeChars([CharOf(n0), CharOf(n1), CharOf(n2), CharOf(n3)] + rest) ==
            Some([n0 * 4 + n1 / 16, n1 % 16 * 16 + n2 / 4, n2 % 4 * 64 + n3] + DecodeChars(rest).value)
  {
    SextetRoundTrip(n0);
    SextetRoundTrip(n1);
    SextetRoundTrip(n2);
    SextetRoundTrip(n3);
    var s := [CharOf(n0), CharOf(n1), CharOf(n2), CharOf(n3)] + rest;
    assert s[4..] == rest;
    FourDecode(s, n0, n1, n2, n3);
  }

  lemma TailsDecode(n0: Sextet, n1: Sextet, n2: Sextet)
    ensures DecodeChars([CharOf(n0), CharOf(n1)]) == Some([n0 * 4 + n1 / 16])
    ensures DecodeChars([CharOf(n0), CharOf(n1), CharOf(n2)]) == Some([n0 * 4 + n1 / 16, n1 % 16 * 16 + n2 / 4])
  {
    SextetRoundTrip(n0);
    SextetRoundTrip(n1);
    SextetRoundTrip(n2);
  }

  lemma OneByteDecodes(x: Byte)
    ensures DecodeChars(Unpadded([x])) == Some([x])
  {
    var n0, n1 := x / 4, x % 4 * 16;
    assert n0 * 4 + n1 / 16 == x;
    TailsDecode(n0, n1, 0);
    assert Unpadded([x]) == [CharOf(n0), CharOf(n1)];
  }

  lemma TwoBytesDecode(x: Byte, y: Byte)
    ensures DecodeChars(Unpadded([x, y])) == Some([x, y])
  {
    var n0, n1, n2 := x / 4, x % 4 * 16 + y / 16, y % 16 * 4;
    assert n0 * 4 + n1 / 16 == x && n1 % 16 * 16 + n2 / 4 == y;
    TailsDecode(n0, n1, n2);
    assert Unpadded([x, y]) == [CharOf(n0), CharOf(n1), CharOf(n2)];
  }

  lemma QuadGives(n0: Sextet, n1: Sextet, n2: Sextet, n3: Sextet, b0: Byte, b1: Byte, b2: Byte, rest: string)
    requires n0 * 4 + n1 / 16 == b0 && n1 % 16 * 16 + n2 / 4 == b1 && n2 % 4 * 64 + n3 == b2
    requires DecodeChars(rest).Some?
    ensures DecodeChars([CharOf(n0), CharOf(n1), CharOf(n2), CharOf(n3)] + rest) ==
            Some([b0, b1, b2] + DecodeChars(rest).value)
  {
    QuadDecodes(n0, n1, n2, n3, rest);
  }

  lemma BytesDecode(b0: Byte, b1: Byte, b2: Byte, rest: string)
    requires DecodeChars(rest).Some?
    ensures DecodeChars([CharOf(b0 / 4), CharOf(b0 % 4 * 16 + b1 / 16), CharOf(b1 % 16 * 4 + b2 / 64), CharOf(b2 % 64)]
                        + rest) == Some([b0, b1, b2] + DecodeChars(rest).value)
  {
    Triple(b0, b1, b2);
    QuadGives(b0 / 4, b0 % 4 * 16 + b1 / 16, b1 % 16 * 4 + b2 / 64, b2 % 64, b0, b1, b2, rest);
  }

  lemma {:induction false} UnpaddedDecodes(b: Bytes)
    ensures DecodeChars(Unpadded(b)) == Some(b)
  {
    if |b| >= 3 {
      UnpaddedDecodes(b[3..]);
      BytesDecode(b[0], b[1], b[2], Unpadded(b[3..]));
      assert b == [b[0], b[1], b[2]] + b[3..];
    } else if |b| == 2 {
      TwoBytesDecode(b[0], b[1]);
      assert b == [b[0], b[1]];
    } else if |b| == 1 {
      OneByteDecodes(b[0]);
      assert b == [b[0]];
    }
  }

  lemma {:induction false} UnpaddedAlphabet(b: Bytes)
    ensures InAlphabet(Unpadded(b))
  {
    forall n: Sextet ensures CharOf(n) != '=' && !IsSpace(CharOf(n)) {
      SextetRoundTrip(n);
    }
    if |b| >= 3 {
      UnpaddedAlphabet(b[3..]);
    }
  }

  function Characters(n: nat): nat {
    if n == 0 then 0 else if n < 3 then n + 1 else 4 + Characters(n - 3)
  }

  lemma {:induction false} CharactersOf(q: nat, r: nat)
    requires r < 3
    ensures Characters(3 * q + r) == 4 * q + (if r == 0 then 0 else r + 1)
  {
    if q > 0 {
      CharactersOf(q - 1, r);
    }
  }

  lemma CharactersCount(n: nat)
    ensures Characters(n) % 4 == if n % 3 == 0 then 0 else n % 3 + 1
    ensures Characters(n) + |Padding(n)| == (n + 2) / 3 * 4
  {
    var q, r := n / 3, n % 3;
    CharactersOf(q, r);
    assert |Padding(n)| == if r == 0 then 0 else 3 - r;
    assert (n + 2) / 3 == if r == 0 then q else q + 1;
  }

  lemma {:induction false} UnpaddedLength(b: Bytes)
    ensures |Unpadded(b)| == Characters(|b|)
  {
    if |b| >= 3 {
      UnpaddedLength(b[3..]);
    }
  }

  lemma {:induction false} NothingToStrip(s: string)
    requires forall c :: c in s ==> !IsSpace(c)
    ensures StripSpace(s) == s
  {
    if s != [] {
      NothingToStrip(s[1..]);
      assert s == [s[0]] + s[1..];
    }
  }

  lemma StripOnePad(u: string)
    requires InAlphabet(u) && |u| % 4 == 3
    ensures StripPadding(u + ['=']) == u
  {
    var s := u + ['='];
    assert s[|s| - 2] == u[|u| - 1] && u[|u| - 1] in u;
    assert s[..|s| - 1] == u;
  }

  lemma StripTwoPads(u: string)
    requires |u| % 4 == 2
    ensures StripPadding(u + ['=', '=']) == u
  {
    var s := u + ['=', '='];
    assert s[..|s| - 2] == u;
  }

  lemma PaddingIsStripped(b: Bytes)
    ensures StripPadding(StripSpace(Encode(b))) == Unpadded(b)
    ensures |Encode(b)| == (|b| + 2) / 3 * 4
  {
    var u := Unpadded(b);
    UnpaddedAlphabet(b);
    UnpaddedLength(b);
    CharactersCount(|b|);
    NothingToStrip(Encode(b));
    if |b| % 3 == 0 {
      assert Encode(b) == u;
      assert u != [] ==> u[|u| - 1] in u;
    } else if |b| % 3 == 1 {
      assert Encode(b) == u + ['=', '='];
      StripTwoPads(u);
    } else {
      assert Encode(b) == u + ['='];
      StripOnePad(u);
    }
  }

  /** Table 1 of the RFC. */
  lemma CharIs(n: Sextet)
    ensures n < 26 ==> CharOf(n) == "ABCDEFGHIJKLMNOPQRSTUVWXYZ"[n]
    ensures 26 <= n < 52 ==> CharOf(n) == "abcdefghijklmnopqrstuvwxyz"[n - 26]
    ensures 52 <= n < 62 ==> CharOf(n) == "0123456789"[n - 52]
    ensures n == 62 ==> CharOf(n) == '+'
    ensures n == 63 ==> CharOf(n) == '/'
  {
  }

  /** The k-th group of up to three bytes as a number of 24 bits. */
  function Group(b: Bytes, k: nat): int
    requires 3 * k < |b|
  {
    var b0: int, b1: int, b2: int := b[3 * k], if 3 * k + 1 < |b| then b[3 * k + 1] else 0,
                                     if 3 * k + 2 < |b| then b[3 * k + 2] else 0;
    b0 * 65536 + b1 * 256 + b2
  }

  lemma SextetsOfGroup(b0: Byte, b1: Byte, b2: Byte)
    ensures (b0 / 4) * 262144 + (b0 % 4 * 16 + b1 / 16) * 4096 + (b1 % 16 * 4 + b2 / 64) * 64 + b2 % 64
            == (b0 as int) * 65536 + (b1 as int) * 256 + b2
  {
  }

  lemma EncodeRest(b: Bytes)
    requires |b| >= 3
    ensures Encode(b) == [CharOf(b[0] / 4), CharOf(b[0] % 4 * 16 + b[1] / 16), CharOf(b[1] % 16 * 4 + b[2] / 64),
                          CharOf(b[2] % 64)] + Encode(b[3..])
  {
    assert Padding(|b|) == Padding(|b[3..]|);
  }

  lemma EncodeLast(b: Bytes)
    requires 1 <= |b| <= 2
    ensures |b| == 1 ==> Encode(b) == [CharOf(b[0] / 4), CharOf(b[0] % 4 * 16), '=', '=']
    ensures |b| == 2 ==>
              Encode(b) == [CharOf(b[0] / 4), CharOf(b[0] % 4 * 16 + b[1] / 16), CharOf(b[1] % 16 * 4), '=']
  {
  }

  /** Four characters of Table 1 that spell a number of 24 bits, six bits each, the highest first, or the first two or
      three of them and padding when the group has one or two bytes. */
  predicate Spells(block: string, group: int, bytes: nat, n0: Sextet, n1: Sextet, n2: Sextet, n3: Sextet) {
    && (n0 as int) * 262144 + (n1 as int) * 4096 + (n2 as int) * 64 + n3 == group
    && |block| == 4 && block[0] == CharOf(n0) && block[1] == CharOf(n1)
    && block[2] == (if bytes > 1 then CharOf(n2) else '=')
    && block[3] == (if bytes > 2 then CharOf(n3) else '=')
  }

  lemma FirstGroupEncodes(b: Bytes) returns (n0: Sextet, n1: Sextet, n2: Sextet, n3: Sextet)
    requires b != []
    ensures |Encode(b)| >= 4 && Spells(Encode(b)[..4], Group(b, 0), |b|, n0, n1, n2, n3)
  {
    var b1: Byte, b2: Byte := if 1 < |b| then b[1] else 0, if 2 < |b| then b[2] else 0;
    n0, n1, n2, n3 := b[0] / 4, b[0] % 4 * 16 + b1 / 16, b1 % 16 * 4 + b2 / 64, b2 % 64;
    SextetsOfGroup(b[0], b1, b2);
    if |b| >= 3 {
      EncodeRest(b);
    } else {
      EncodeLast(b);
    }
  }

  lemma LaterCharacters(b: Bytes, i: nat)
    requires |b| >= 3 && i + 4 <= |Encode(b[3..])|
    ensures |Encode(b)| == 4 + |Encode(b[3..])| && Encode(b)[4 + i..8 + i] == Encode(b[3..])[i..i + 4]
  {
    EncodeRest(b);
  }

  /** Section 4 of the RFC: the k-th four characters spell the k-th group of up to three bytes. */
  lemma {:induction false} GroupsEncode(b: Bytes, k: nat) returns (n0: Sextet, n1: Sextet, n2: Sextet, n3: Sextet)
    requires 3 * k < |b|
    ensures |Encode(b)| >= 4 * k + 4
    ensures Spells(Encode(b)[4 * k..4 * k + 4], Group(b, k), |b| - 3 * k, n0, n1, n2, n3)
  {
    if k == 0 {
      n0, n1, n2, n3 := FirstGroupEncodes(b);
    } else {
      n0, n1, n2, n3 := GroupsEncode(b[3..], k - 1);
      assert Group(b, k) == Group(b[3..], k - 1);
      LaterCharacters(b, 4 * (k - 1));
    }
  }

  lemma ShortDecodesIff(s: string)
    requires |s| < 4
    ensures DecodeChars(s).Some? <==> |s| != 1 && forall i :: 0 <= i < |s| ==> SextetOf(s[i]).Some?
  {
  }

  lemma FourDecodeIff(s: string)
    requires |s| >= 4
    ensures DecodeChars(s).Some? <==>
            && DecodeChars(s[4..]).Some? && SextetOf(s[0]).Some? && SextetOf(s[1]).Some?
            && SextetOf(s[2]).Some? && SextetOf(s[3]).Some?
  {
  }

  lemma {:induction false} DecodesIffAlphabet(s: string)
    ensures DecodeChars(s).Some? <==> |s| % 4 != 1 && forall i :: 0 <= i < |s| ==> SextetOf(s[i]).Some?
    decreases |s|
  {
    if |s| >= 4 {
      FourDecodeIff(s);
      DecodesIffAlphabet(s[4..]);
      assert forall i :: 4 <= i < |s| ==> s[i] == s[4..][i - 4];
      assert forall i :: 0 <= i < |s[4..]| ==> s[4..][i] == s[i + 4];
    } else {
      ShortDecodesIff(s);
    }
  }

  lemma SextetIff(c: char)
    ensures SextetOf(c).Some? <==>
            c in "ABCDEFGHIJKLMNOPQRSTUVWXYZ" || c in "abcdefghijklmnopqrstuvwxyz" || c in "0123456789" || c in "+/"
  {
    if SextetOf(c).Some? {
      var n := SextetOf(c).value;
      CharIs(n);
      assert CharOf(n) == c;
    } else {
      forall n: int | 0 <= n < 64 ensures CharOf(n) != c {
        SextetRoundTrip(n);
      }
      CharsAre();
    }
  }

  lemma CharsAre()
    ensures forall i :: 0 <= i < 26 ==> "ABCDEFGHIJKLMNOPQRSTUVWXYZ"[i] == CharOf(i)
    ensures forall i :: 0 <= i < 26 ==> "abcdefghijklmnopqrstuvwxyz"[i] == CharOf(i + 26)
    ensures forall i :: 0 <= i < 10 ==> "0123456789"[i] == CharOf(i + 52)
  {
    forall i | 0 <= i < 26 ensures "ABCDEFGHIJKLMNOPQRSTUVWXYZ"[i] == CharOf(i) { CharIs(i); }
    forall i | 0 <= i < 26 ensures "abcdefghijklmnopqrstuvwxyz"[i] == CharOf(i + 26) { CharIs(i + 26); }
    forall i | 0 <= i < 10 ensures "0123456789"[i] == CharOf(i + 52) { CharIs(i + 52); }
  }

  /** atob on a text without white space and padding: it throws unless every character is in the alphabet and the
      number of characters leaves a remainder other than one. */
  lemma BareTextDecodesIff(s: string)
    requires forall c :: c in s ==> !IsSpace(c) && c != '='
    ensures Decode(s).Some? <==> |s| % 4 != 1 && forall i :: 0 <= i < |s| ==> SextetOf(s[i]).Some?
  {
    NothingToStrip(s);
    assert s != [] ==> s[|s| - 1] in s;
    DecodesIffAlphabet(s);
  }

  lemma {:induction false} StripAppend(a: string, b: string)
    ensures StripSpace(a + b) == StripSpace(a) + StripSpace(b)
  {
    if a == [] {
      assert a + b == b;
    } else {
      assert (a + b)[1..] == a[1..] + b;
      StripAppend(a[1..], b);
    }
  }

  /** The five white space characters that atob ignores, anywhere. */
  lemma SpaceIsIgnored(a: string, c: char, b: string)
    requires c in {' ', '\t', '\n', '\r', 12 as char}
    ensures Decode(a + [c] + b) == Decode(a + b)
  {
    StripAppend(a + [c], b);
    StripAppend(a, [c]);
    StripAppend(a, b);
    assert IsSpace(c) && [c][1..] == [];
    assert StripSpace([c]) == StripSpace([]) == [];
    assert StripSpace(a) + [] == StripSpace(a);
  }

  lemma SpacesAre(c: char)
    ensures IsSpace(c) <==> c in {' ', '\t', '\n', '\r', 12 as char}
  {
  }

  /** Decoding what was encoded gives the bytes back, and the encoding has 4 * ceil(n / 3) characters. */
  lemma Base64RoundTrip(b: Bytes)
    ensures Decode(Encode(b)) == Some(b)
    ensures |Encode(b)| == (|b| + 2) / 3 * 4
  {
    UnpaddedDecodes(b);
    PaddingIsStripped(b);
  }

  /** One character per byte, as String.fromCharCode and charCodeAt translate. */
  function Binary(b: Bytes): string {
    seq(|b|, i requires 0 <= i < |b| => b[i] as char)
  }

  /** btoa: the text's characters are its bytes; a character above 255 is an error. */
  function Btoa(binary: string): Option<string> {
    if forall i :: 0 <= i < |binary| ==> binary[i] as int < 256
    then Some(Encode(seq(|binary|, i requires 0 <= i < |binary| && binary[i] as int < 256 => binary[i] as int)))
    else None
  }

  function Atob(s: string): Option<string> {
    match Decode(s)
    case None => None
    case Some(b) => Some(Binary(b))
  }

  lemma BtoaOfBinary(b: Bytes)
    ensures Btoa(Binary(b)) == Some(Encode(b))
  {
    var s := Binary(b);
    assert forall i :: 0 <= i < |s| ==> s[i] as int == b[i];
    assert seq(|s|, i requires 0 <= i < |s| && s[i] as int < 256 => s[i] as int) == b;
  }

  method BytesToBase64(bytes: Bytes) returns (r: string)
    ensures r == Encode(bytes)
    ensures Decode(r) == Some(bytes) && |r| == (|bytes| + 2) / 3 * 4
  {
    var binary: string := [];
    for i := 0 to |bytes|
      invariant binary == Binary(bytes[..i])
    {
      assert bytes[..i + 1] == bytes[..i] + [bytes[i]];
      binary := binary + [bytes[i] as char];
    }
    assert bytes[..|bytes|] == bytes;
    BtoaOfBinary(bytes);
    Base64RoundTrip(bytes);
    r := Btoa(binary).value;
  }

  /** None stands for the exception that atob throws. */
  method Base64ToBytes(base64: string) returns (r: Option<Bytes>)
    ensures r == Decode(base64)
  {
    var decoded := Atob(base64);
    if decoded.None? {
      return None;
    }
    var binary := decoded.value;
    var bytes := new Byte[|binary|];
    for i := 0 to |binary|
      invariant forall k :: 0 <= k < i ==> bytes[k] == Decode(base64).value[k]
    {
      bytes[i] := binary[i] as int;
    }
    assert bytes[..] == Decode(base64).value;
    r := Some(bytes[..]);
  }

  // ---------- the canonical message ----------

  datatype SigningInput = SigningInput(
    bundleHash: string, version: string, platform: string, channel: string, runtimeVersion: string)

  function Join(parts: seq<string>, separator: char): string {
    if parts == [] then [] else if |parts| == 1 then parts[0]
    else parts[0] + [separator] + Join(parts[1..], separator)
  }

  function CanonicalReleaseMessage(i: SigningInput): string {
    Join([i.bundleHash, i.version, i.platform, i.channel, i.runtimeVersion], '\n')
  }

  /** Reads the message back: the first four lines, then whatever is left. */
  function ParseMessage(s: string): Option<SigningInput> {
    match Break(s, '\n') case None => None case Some((bundleHash, s1)) =>
    match Break(s1, '\n') case None => None case Some((version, s2)) =>
    match Break(s2, '\n') case None => None case Some((platform, s3)) =>
    match Break(s3, '\n') case None => None case Some((channel, runtimeVersion)) =>
      Some(SigningInput(bundleHash, version, platform, channel, runtimeVersion))
  }

  predicate OneLiners(i: SigningInput) {
    '\n' !in i.bundleHash && '\n' !in i.version && '\n' !in i.platform && '\n' !in i.channel
  }

  lemma MessageLines(i: SigningInput)
    ensures CanonicalReleaseMessage(i) ==
            i.bundleHash + ['\n']
            + (i.version + ['\n'] + (i.platform + ['\n'] + (i.channel + ['\n'] + i.runtimeVersion)))
  {
    var p4 := [i.runtimeVersion];
    var p3 := [i.channel] + p4;
    var p2 := [i.platform] + p3;
    var p1 := [i.version] + p2;
    var s3 := i.channel + ['\n'] + i.runtimeVersion;
    var s2 := i.platform + ['\n'] + s3;
    var s1 := i.version + ['\n'] + s2;
    assert Join(p4, '\n') == i.runtimeVersion;
    assert p3[1..] == p4 && Join(p3, '\n') == s3;
    assert p2[1..] == p3 && Join(p2, '\n') == s2;
    assert p1[1..] == p2 && Join(p1, '\n') == s1;
    var p0 := [i.bundleHash, i.version, i.platform, i.channel, i.runtimeVersion];
    assert p0[1..] == p1;
  }

  /** The message determines its fields by this parser exactly when the first four contain no newline; the
      fifth is arbitrary. */
  lemma MessageParsesBackIff(i: SigningInput)
    ensures ParseMessage(CanonicalReleaseMessage(i)) == Some(i) <==> OneLiners(i)
  {
    var s := CanonicalReleaseMessage(i);
    MessageLines(i);
    var s3 := i.channel + ['\n'] + i.runtimeVersion;
    var s2 := i.platform + ['\n'] + s3;
    var s1 := i.version + ['\n'] + s2;
    if OneLiners(i) {
      BreakFinds(i.bundleHash, '\n', s1);
      BreakFinds(i.version, '\n', s2);
      BreakFinds(i.platform, '\n', s3);
      BreakFinds(i.channel, '\n', i.runtimeVersion);
    } else {
      ParsedAreOneLiners(s);
    }
  }

  lemma ParsedAreOneLiners(s: string)
    ensures ParseMessage(s).Some? ==> OneLiners(ParseMessage(s).value)
  {
    BreakSound(s, '\n');
    if Break(s, '\n').Some? {
      var s1 := Break(s, '\n').value.1;
      BreakSound(s1, '\n');
      if Break(s1, '\n').Some? {
        var s2 := Break(s1, '\n').value.1;
        BreakSound(s2, '\n');
        if Break(s2, '\n').Some? {
          BreakSound(Break(s2, '\n').value.1, '\n');
        }
      }
    }
  }

  /** Two inputs with the same message are the same input. */
  lemma MessageIsInjective(i: SigningInput, j: SigningInput)
    requires OneLiners(i) && OneLiners(j) && CanonicalReleaseMessage(i) == CanonicalReleaseMessage(j)
    ensures i == j
  {
    MessageParsesBackIff(i);
    MessageParsesBackIff(j);
  }

  /** The condition is needed: a newline moved from one field to the next keeps the message. */
  lemma NewlinesCollide(hash: string, a: string, b: string, c: string, channel: string, runtime: string)
    ensures CanonicalReleaseMessage(SigningInput(hash, a + ['\n'] + b, c, channel, runtime)) ==
            CanonicalReleaseMessage(SigningInput(hash, a, b + ['\n'] + c, channel, runtime))
  {
    var i := SigningInput(hash, a + ['\n'] + b, c, channel, runtime);
    var j := SigningInput(hash, a, b + ['\n'] + c, channel, runtime);
    MessageLines(i);
    MessageLines(j);
    var s3 := channel + ['\n'] + runtime;
    assert (a + ['\n'] + b) + ['\n'] + (c + ['\n'] + s3) == a + ['\n'] + ((b + ['\n'] + c) + ['\n'] + s3);
  }

  // ---------- signatures ----------

  /** The library functions: SHA-256, Ed25519 and UTF-8 encoding. */
  datatype Crypto = Crypto(
    sha256: Bytes -> Bytes,
    sign: (Bytes, Bytes) -> Bytes,               // message, private key
    verify: (Bytes, Bytes, Bytes) -> bool,       // signature, message, public key
    publicKey: Bytes -> Bytes,
    utf8: string -> Bytes)

  /** What was signed with a key verifies with its public key. */
  ghost predicate SignaturesVerify(c: Crypto) {
    forall key: Bytes, message: Bytes :: c.verify(c.sign(message, key), message, c.publicKey(key))
  }

  ghost predicate Utf8Injective(c: Crypto) {
    forall s: string, t: string :: c.utf8(s) == c.utf8(t) ==> s == t
  }

  function HexDigit(n: int): char
    requires 0 <= n < 16
  {
    if n < 10 then '0' + n as char else 'a' + (n - 10) as char
  }

  function Hex(b: Bytes): string {
    if b == [] then [] else [HexDigit(b[0] / 16), HexDigit(b[0] % 16)] + Hex(b[1..])
  }

  function Sha256Hex(c: Crypto, b: Bytes): string {
    Hex(c.sha256(b))
  }

  /** Every byte becomes its two digits, the high one first. */
  lemma {:induction false} HexCharacters(b: Bytes, i: nat)
    requires i < |b|
    ensures |Hex(b)| == 2 * |b|
    ensures Hex(b)[2 * i] == "0123456789abcdef"[b[i] / 16] && Hex(b)[2 * i + 1] == "0123456789abcdef"[b[i] % 16]
  {
    if i == 0 {
      HexLength(b);
      HexDigitIs(b[0] / 16);
      HexDigitIs(b[0] % 16);
    } else {
      HexCharacters(b[1..], i - 1);
      assert Hex(b)[2 * i] == Hex(b[1..])[2 * (i - 1)] && Hex(b)[2 * i + 1] == Hex(b[1..])[2 * (i - 1) + 1];
    }
  }

  lemma {:induction false} HexLength(b: Bytes)
    ensures |Hex(b)| == 2 * |b|
  {
    if b != [] {
      HexLength(b[1..]);
    }
  }

  lemma HexDigitIs(n: int)
    requires 0 <= n < 16
    ensures HexDigit(n) == "0123456789abcdef"[n]
  {
  }

  /** The inverse, for lower-case digits. */
  function Unhex(s: string): Option<Bytes> {
    if s == [] then Some([])
    else if |s| == 1 then None
    else
      match (Nibble(s[0]), Nibble(s[1]), Unhex(s[2..]))
      case (Some(high), Some(low), Some(rest)) => Some([16 * high + low] + rest)
      case _ => None
  }

  function Nibble(c: char): (n: Option<int>)
    ensures n.Some? ==> 0 <= n.value < 16
  {
    if '0' <= c <= '9' then Some(c as int - '0' as int)
    else if 'a' <= c <= 'f' then Some(c as int - 'a' as int + 10) else None
  }

  lemma NibbleOf(n: int)
    requires 0 <= n < 16
    ensures Nibble(HexDigit(n)) == Some(n)
  {
  }

  lemma DigitOf(c: char)
    requires Nibble(c).Some?
    ensures HexDigit(Nibble(c).value) == c
  {
  }

  lemma {:induction false} HexDecodes(b: Bytes)
    ensures Unhex(Hex(b)) == Some(b)
  {
    if b != [] {
      HexDecodes(b[1..]);
      NibbleOf(b[0] / 16);
      NibbleOf(b[0] % 16);
      assert Hex(b)[2..] == Hex(b[1..]);
      assert b == [b[0]] + b[1..];
    }
  }

  lemma {:induction false} DecodedIsHex(s: string)
    requires Unhex(s).Some?
    ensures s == Hex(Unhex(s).value)
  {
    if |s| >= 2 {
      DecodedIsHex(s[2..]);
      DigitOf(s[0]);
      DigitOf(s[1]);
      assert s == [s[0], s[1]] + s[2..];
    }
  }

  /** A text is the hex form of a digest if and only if it decodes to it, so two digests never share a text. */
  lemma HexIff(s: string, b: Bytes)
    ensures s == Hex(b) <==> Unhex(s) == Some(b)
  {
    HexDecodes(b);
    if Unhex(s).Some? {
      DecodedIsHex(s);
    }
  }

  lemma {:induction false} HexHasNoNewline(b: Bytes)
    ensures '\n' !in Hex(b)
  {
    if b != [] {
      HexHasNoNewline(b[1..]);
    }
  }

  /** None stands for the exception that a malformed private key raises. */
  function SignRelease(c: Crypto, privateKey: string, i: SigningInput): Option<string> {
    match Decode(privateKey)
    case None => None
    case Some(key) => Some(Encode(c.sign(c.utf8(CanonicalReleaseMessage(i)), key)))
  }

  function VerifyRelease(c: Crypto, publicKey: string, i: SigningInput, signature: string): bool {
    match (Decode(publicKey), Decode(signature))
    case (Some(key), Some(sig)) => c.verify(sig, c.utf8(CanonicalReleaseMessage(i)), key)
    case _ => false
  }

  /** The signed text, and nothing else, decides: both keys and signatures must be base64. */
  lemma VerifiesIff(c: Crypto, publicKey: string, i: SigningInput, signature: string)
    ensures VerifyRelease(c, publicKey, i, signature) <==>
            && Decode(publicKey).Some? && Decode(signature).Some?
            && c.verify(Decode(signature).value,
                        c.utf8(i.bundleHash + "\n" + i.version + "\n" + i.platform + "\n" + i.channel + "\n"
                               + i.runtimeVersion),
                        Decode(publicKey).value)
  {
    MessageText(i);
  }

  lemma MessageText(i: SigningInput)
    ensures CanonicalReleaseMessage(i) ==
            i.bundleHash + "\n" + i.version + "\n" + i.platform + "\n" + i.channel + "\n" + i.runtimeVersion
  {
    MessageLines(i);
    var s3 := i.channel + ['\n'] + i.runtimeVersion;
    var s2 := i.platform + ['\n'] + s3;
    assert i.bundleHash + "\n" + i.version + "\n" + i.platform + "\n" + i.channel + "\n" + i.runtimeVersion ==
           i.bundleHash + ['\n'] + (i.version + ['\n'] + s2);
  }

  /** A release signed with a private key verifies under the matching public key, whatever its fields. */
  lemma SignedReleaseVerifies(c: Crypto, key: Bytes, i: SigningInput)
    requires SignaturesVerify(c)
    ensures SignRelease(c, Encode(key), i).Some?
    ensures VerifyRelease(c, Encode(c.publicKey(key)), i, SignRelease(c, Encode(key), i).value)
  {
    var message := c.utf8(CanonicalReleaseMessage(i));
    Base64RoundTrip(key);
    Base64RoundTrip(c.publicKey(key));
    Base64RoundTrip(c.sign(message, key));
    assert c.verify(c.sign(message, key), message, c.publicKey(key));
  }

  /** If only the messages of `released` verify under a key, then an input that verifies is one of them, in all five
      fields, if and only if its first four fields contain no newline. */
  lemma VerifiedInputWasReleased(
    c: Crypto, publicKey: Bytes, released: set<SigningInput>, i: SigningInput, signature: string)
    requires OnlyReleasedVerify(c, publicKey, released) && VerifyRelease(c, Encode(publicKey), i, signature)
    ensures i in released <==> OneLiners(i)
  {
    Base64RoundTrip(publicKey);
    var message := c.utf8(CanonicalReleaseMessage(i));
    assert c.verify(Decode(signature).value, message, publicKey);
    var j :| j in released && message == c.utf8(CanonicalReleaseMessage(j));
    if OneLiners(i) {
      MessageIsInjective(i, j);
    }
  }

  /** The key signs nothing but the messages of `released`, none of which has a newline in its first four fields. */
  ghost predicate OnlyReleasedVerify(c: Crypto, publicKey: Bytes, released: set<SigningInput>) {
    && Utf8Injective(c)
    && (forall j :: j in released ==> OneLiners(j))
    && forall sig: Bytes, message: Bytes ::
         c.verify(sig, message, publicKey) ==>
           exists j :: j in released && message == c.utf8(CanonicalReleaseMessage(j))
  }
}
