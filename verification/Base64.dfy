/** The standard Base64 alphabet with canonical padding (section 4 of RFC 4648). */
module Base64 {
  import opened Results

  type Byte = b: nat | b < 256
  type Sextet = v: nat | v < 64

  function SextetChar(v: Sextet): (c: char)
    ensures InAlphabet(c) && CharSextet(c) == Some(v)
  {
    if v < 26 then ('A' as int + v) as char
    else if v < 52 then ('a' as int + (v - 26)) as char
    else if v < 62 then ('0' as int + (v - 52)) as char
    else if v == 62 then '+'
    else '/'
  }

  predicate InAlphabet(c: char) {
    'A' <= c <= 'Z' || 'a' <= c <= 'z' || '0' <= c <= '9' || c == '+' || c == '/'
  }

  function CharSextet(c: char): (r: Option<Sextet>)
    ensures r.Some? <==> InAlphabet(c)
  {
    if 'A' <= c <= 'Z' then Some(c as int - 'A' as int)
    else if 'a' <= c <= 'z' then Some(c as int - 'a' as int + 26)
    else if '0' <= c <= '9' then Some(c as int - '0' as int + 52)
    else if c == '+' then Some(62)
    else if c == '/' then Some(63)
    else None
  }

  lemma SextetCharInverse(c: char)
    requires InAlphabet(c)
    ensures SextetChar(CharSextet(c).value) == c
  {
  }

  // Three bytes are four sextets: the sextets of bytes a, b, c ...
  function Sextet0(a: Byte): Sextet { a / 4 }

  function Sextet1(a: Byte, b: Byte): Sextet { a % 4 * 16 + b / 16 }

  function Sextet2(b: Byte, c: Byte): Sextet { b % 16 * 4 + c / 64 }

  function Sextet3(c: Byte): Sextet { c % 64 }

  // ... and the bytes of sextets p, q, r, s.
  function Byte0(p: Sextet, q: Sextet): Byte { p * 4 + q / 16 }

  function Byte1(q: Sextet, r: Sextet): Byte { q % 16 * 16 + r / 4 }

  function Byte2(r: Sextet, s: Sextet): Byte { r % 4 * 64 + s }

  lemma BytesOfSextets(a: Byte, b: Byte, c: Byte)
    ensures Byte0(Sextet0(a), Sextet1(a, b)) == a
    ensures Byte1(Sextet1(a, b), Sextet2(b, c)) == b
    ensures Byte2(Sextet2(b, c), Sextet3(c)) == c
    ensures Sextet1(a, 0) % 16 == 0 && Sextet2(b, 0) % 4 == 0
  {
    assert Sextet1(a, b) / 16 == a % 4 && Sextet1(a, b) % 16 == b / 16;
    assert Sextet2(b, c) / 4 == b % 16 && Sextet2(b, c) % 4 == c / 64;
  }

  lemma SextetsOfBytes(p: Sextet, q: Sextet, r: Sextet, s: Sextet)
    ensures Sextet0(Byte0(p, q)) == p
    ensures Sextet1(Byte0(p, q), Byte1(q, r)) == q
    ensures Sextet2(Byte1(q, r), Byte2(r, s)) == r
    ensures Sextet3(Byte2(r, s)) == s
    ensures q % 16 == 0 ==> Sextet1(Byte0(p, q), 0) == q
    ensures r % 4 == 0 ==> Sextet2(Byte1(q, r), 0) == r
  {
    assert Byte0(p, q) / 4 == p && Byte0(p, q) % 4 == q / 16;
    assert Byte1(q, r) / 16 == q % 16 && Byte1(q, r) % 16 == r / 4;
    assert Byte2(r, s) / 64 == r % 4 && Byte2(r, s) % 64 == s;
  }

  function EncodeGroup(a: Byte, b: Byte, c: Byte): (text: string)
    ensures |text| == 4 && forall k :: 0 <= k < 4 ==> InAlphabet(text[k])
  {
    [SextetChar(Sextet0(a)), SextetChar(Sextet1(a, b)), SextetChar(Sextet2(b, c)), SextetChar(Sextet3(c))]
  }

  // One or two bytes that are left over are padded to a group.
  function EncodeOne(a: Byte): (text: string)
    ensures |text| == 4
  {
    [SextetChar(Sextet0(a)), SextetChar(Sextet1(a, 0)), '=', '=']
  }

  function EncodeTwo(a: Byte, b: Byte): (text: string)
    ensures |text| == 4
  {
    [SextetChar(Sextet0(a)), SextetChar(Sextet1(a, b)), SextetChar(Sextet2(b, 0)), '=']
  }

  function Encode(bytes: seq<Byte>): string {
    if bytes == [] then ""
    else if |bytes| == 1 then EncodeOne(bytes[0])
    else if |bytes| == 2 then EncodeTwo(bytes[0], bytes[1])
    else EncodeGroup(bytes[0], bytes[1], bytes[2]) + Encode(bytes[3..])
  }

  predicate Encodable(c: char) { InAlphabet(c) || c == '=' }

  lemma {:induction false} EncodedCharacters(bytes: seq<Byte>)
    ensures forall c :: c in Encode(bytes) ==> Encodable(c)
  {
    hide InAlphabet;
    if |bytes| > 2 {
      EncodedCharacters(bytes[3..]);
    }
  }

  /** The bytes of one full group, or `None` when a symbol is not in the alphabet. */
  function DecodeGroup(text: string): (r: Option<seq<Byte>>)
    requires |text| == 4
    ensures r.Some? ==> |r.value| == 3
  {
    var p, q, r, s := CharSextet(text[0]), CharSextet(text[1]), CharSextet(text[2]), CharSextet(text[3]);
    if p.Some? && q.Some? && r.Some? && s.Some? then
      Some([Byte0(p.value, q.value), Byte1(q.value, r.value), Byte2(r.value, s.value)])
    else None
  }

  /** The last group when it is padded; the bits the padding leaves over must be zero. */
  function DecodePadded(text: string): (r: Option<seq<Byte>>)
    requires |text| == 4 && text[3] == '='
    ensures r.Some? ==> 1 <= |r.value| <= 2
  {
    var p, q, r := CharSextet(text[0]), CharSextet(text[1]), CharSextet(text[2]);
    if p.None? || q.None? then None
    else if text[2] == '=' then
      (if q.value % 16 == 0 then Some([Byte0(p.value, q.value)]) else None)
    else if r.Some? && r.value % 4 == 0 then
      Some([Byte0(p.value, q.value), Byte1(q.value, r.value)])
    else None
  }

  function Decode(text: string): Option<seq<Byte>> {
    if text == "" then Some([])
    else if |text| < 4 then None
    else if |text| == 4 && text[3] == '=' then DecodePadded(text)
    else
      var group := DecodeGroup(text[..4]);
      var rest := Decode(text[4..]);
      if group.Some? && rest.Some? then Some(group.value + rest.value) else None
  }

  lemma {:induction false} DecodeEncodeGroup(a: Byte, b: Byte, c: Byte)
    ensures DecodeGroup(EncodeGroup(a, b, c)) == Some([a, b, c])
    ensures EncodeOne(a)[3] == '=' && DecodePadded(EncodeOne(a)) == Some([a])
    ensures EncodeTwo(a, b)[3] == '=' && DecodePadded(EncodeTwo(a, b)) == Some([a, b])
  {
    hide SextetChar, CharSextet, Sextet0, Sextet1, Sextet2, Sextet3, Byte0, Byte1, Byte2;
    BytesOfSextets(a, b, c);
    BytesOfSextets(a, b, 0);
    BytesOfSextets(a, 0, 0);
  }

  /** The alphabet is the standard one, in its order (Table 1 of RFC 4648): the
      capitals, the small letters, the digits, and two more. */
  lemma {:induction false} AlphabetIsStandard(v: Sextet)
    ensures SextetChar(0) == 'A' && SextetChar(25) == 'Z' && SextetChar(26) == 'a' && SextetChar(51) == 'z'
    ensures SextetChar(52) == '0' && SextetChar(61) == '9' && SextetChar(62) == '+' && SextetChar(63) == '/'
    ensures v < 62 && v !in {25, 51, 61} ==> SextetChar(v + 1) as int == SextetChar(v) as int + 1
  {
  }

  lemma SextetsAreBits(a: Byte, b: Byte, c: Byte)
    ensures a * 0x1_0000 + b * 0x100 + c
         == Sextet0(a) * 0x4_0000 + Sextet1(a, b) * 0x1000 + Sextet2(b, c) * 0x40 + Sextet3(c)
  {
    assert a == a / 4 * 4 + a % 4 && b == b / 16 * 16 + b % 16 && c == c / 64 * 64 + c % 64;
  }

  /** Three bytes and their four characters are the same 24 bits, high bits first. */
  lemma {:induction false} GroupsAreBits(a: Byte, b: Byte, c: Byte)
    ensures var text := EncodeGroup(a, b, c);
            a * 0x1_0000 + b * 0x100 + c
            == CharSextet(text[0]).value * 0x4_0000 + CharSextet(text[1]).value * 0x1000
               + CharSextet(text[2]).value * 0x40 + CharSextet(text[3]).value
  {
    hide SextetChar, CharSextet, Sextet0, Sextet1, Sextet2, Sextet3;
    SextetsAreBits(a, b, c);
  }

  /** Padding stands for missing bytes, whose bits count as zero. */
  lemma {:induction false} PaddingIsZeros(a: Byte, b: Byte)
    ensures EncodeTwo(a, b) == EncodeGroup(a, b, 0)[..3] + "="
    ensures EncodeOne(a) == EncodeGroup(a, 0, 0)[..2] + "=="
  {
    hide SextetChar, Sextet0, Sextet1, Sextet2, Sextet3;
    var two, one := EncodeGroup(a, b, 0), EncodeGroup(a, 0, 0);
    assert two[..3] == [two[0], two[1], two[2]] && one[..2] == [one[0], one[1]];
  }

  /** Decoding undoes encoding. */
  lemma {:induction false} DecodeEncode(bytes: seq<Byte>)
    ensures Decode(Encode(bytes)) == Some(bytes)
  {
    hide EncodeGroup, EncodeOne, EncodeTwo, DecodeGroup, DecodePadded;
    if |bytes| == 1 {
      DecodeEncodeGroup(bytes[0], 0, 0);
      assert bytes == [bytes[0]];
    } else if |bytes| == 2 {
      DecodeEncodeGroup(bytes[0], bytes[1], 0);
      assert bytes == [bytes[0], bytes[1]];
    } else if |bytes| > 2 {
      var text := Encode(bytes);
      assert text[..4] == EncodeGroup(bytes[0], bytes[1], bytes[2]);
      assert text[4..] == Encode(bytes[3..]);
      DecodeEncode(bytes[3..]);
      DecodeEncodeGroup(bytes[0], bytes[1], bytes[2]);
      assert InAlphabet(text[..4][3]);
      assert [bytes[0], bytes[1], bytes[2]] + bytes[3..] == bytes;
    }
  }

  lemma {:induction false} PaddedIsCanonical(text: string)
    requires |text| == 4 && text[3] == '=' && DecodePadded(text).Some?
    ensures Encode(DecodePadded(text).value) == text
  {
    hide SextetChar, CharSextet, Sextet0, Sextet1, Sextet2, Sextet3, Byte0, Byte1, Byte2;
    SextetCharInverse(text[0]);
    SextetCharInverse(text[1]);
    var p, q := CharSextet(text[0]).value, CharSextet(text[1]).value;
    if text[2] == '=' {
      SextetsOfBytes(p, q, 0, 0);
    } else {
      SextetCharInverse(text[2]);
      SextetsOfBytes(p, q, CharSextet(text[2]).value, 0);
    }
  }

  /** A group that decodes is four symbols of the alphabet. */
  lemma {:induction false} SymbolsOfGroup(text: string) returns (p: Sextet, q: Sextet, r: Sextet, s: Sextet)
    requires |text| == 4 && DecodeGroup(text).Some?
    ensures text == [SextetChar(p), SextetChar(q), SextetChar(r), SextetChar(s)]
    ensures DecodeGroup(text).value == [Byte0(p, q), Byte1(q, r), Byte2(r, s)]
  {
    hide SextetChar, CharSextet, Byte0, Byte1, Byte2;
    SextetCharInverse(text[0]);
    SextetCharInverse(text[1]);
    SextetCharInverse(text[2]);
    SextetCharInverse(text[3]);
    p, q, r, s := CharSextet(text[0]).value, CharSextet(text[1]).value, CharSextet(text[2]).value,
      CharSextet(text[3]).value;
  }

  lemma GroupOf(p: Sextet, q: Sextet, r: Sextet, s: Sextet, a: Byte, b: Byte, c: Byte)
    requires p == Sextet0(a) && q == Sextet1(a, b) && r == Sextet2(b, c) && s == Sextet3(c)
    ensures EncodeGroup(a, b, c) == [SextetChar(p), SextetChar(q), SextetChar(r), SextetChar(s)]
  {
  }

  /** Only canonical text decodes: every accepted text is the encoding of its bytes. */
  lemma {:induction false} EncodeDecode(text: string)
    requires Decode(text).Some?
    ensures Encode(Decode(text).value) == text
  {
    hide EncodeGroup, EncodeOne, EncodeTwo, DecodeGroup, DecodePadded, SextetChar;
    hide Sextet0, Sextet1, Sextet2, Sextet3, Byte0, Byte1, Byte2;
    if text != "" {
      if |text| == 4 && text[3] == '=' {
        PaddedIsCanonical(text);
      } else {
        EncodeDecode(text[4..]);
        var p, q, r, s := SymbolsOfGroup(text[..4]);
        SextetsOfBytes(p, q, r, s);
        GroupOf(p, q, r, s, Byte0(p, q), Byte1(q, r), Byte2(r, s));
        var group, rest := DecodeGroup(text[..4]).value, Decode(text[4..]).value;
        assert (group + rest)[3..] == rest;
        assert text == text[..4] + text[4..];
      }
    }
  }
}
