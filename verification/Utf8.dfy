/** UTF-8 (section 3 of RFC 3629), and reading bytes as text the lossy way: what is
    not well-formed becomes U+FFFD, one for each sequence that breaks off. */
module Utf8 {
  import opened Base64
  import opened Search

  const REPLACEMENT := '\U{FFFD}'

  function EncodeChar(c: char): (bytes: seq<Byte>)
    ensures bytes != []
  {
    var v := c as int;
    if v < 0x80 then [v]
    else if v < 0x800 then [0xC0 + v / 0x40, 0x80 + v % 0x40]
    else if v < 0x1_0000 then [0xE0 + v / 0x1000, 0x80 + v / 0x40 % 0x40, 0x80 + v % 0x40]
    else [0xF0 + v / 0x4_0000, 0x80 + v / 0x1000 % 0x40, 0x80 + v / 0x40 % 0x40, 0x80 + v % 0x40]
  }

  function EncodeUtf8(text: string): seq<Byte> {
    if text == "" then [] else EncodeChar(text[0]) + EncodeUtf8(text[1..])
  }

  predicate Continues(b: Byte) { 0x80 <= b < 0xC0 }

  /** How many bytes a first byte announces; none if nothing starts with it. */
  function Width(b: Byte): nat {
    if b < 0x80 then 1
    else if 0xC2 <= b < 0xE0 then 2
    else if 0xE0 <= b < 0xF0 then 3
    else if 0xF0 <= b < 0xF5 then 4
    else 0
  }

  /** The second bytes that a first one allows: no overlong forms, no surrogates,
      nothing behind U+10FFFF. */
  predicate SecondFits(b: Byte, second: Byte) {
    if b == 0xE0 then 0xA0 <= second < 0xC0
    else if b == 0xED then 0x80 <= second < 0xA0
    else if b == 0xF0 then 0x90 <= second < 0xC0
    else if b == 0xF4 then 0x80 <= second < 0x90
    else Continues(second)
  }

  /** The bytes that are read as one character, or as one broken sequence. */
  function Taken(bytes: seq<Byte>): (n: nat)
    requires bytes != []
    ensures 1 <= n <= |bytes|
    ensures n > 1 ==> forall k :: 0 <= k < n ==> bytes[k] >= 0x80
  {
    var width := Width(bytes[0]);
    if width <= 1 || |bytes| < 2 || !SecondFits(bytes[0], bytes[1]) then 1
    else if width == 2 || |bytes| < 3 || !Continues(bytes[2]) then 2
    else if width == 3 || |bytes| < 4 || !Continues(bytes[3]) then 3
    else 4
  }

  // The numbers that two, three and four bytes stand for.
  function Code2(a: Byte, b: Byte): int { (a - 0xC0 as int) * 0x40 + (b - 0x80 as int) }

  function Code3(a: Byte, b: Byte, c: Byte): int {
    (a - 0xE0 as int) * 0x1000 + (b - 0x80 as int) * 0x40 + (c - 0x80 as int)
  }

  function Code4(a: Byte, b: Byte, c: Byte, d: Byte): int {
    (a - 0xF0 as int) * 0x4_0000 + (b - 0x80 as int) * 0x1000 + (c - 0x80 as int) * 0x40 + (d - 0x80 as int)
  }

  function First(bytes: seq<Byte>): (c: char)
    requires bytes != []
    ensures if bytes[0] < 0x80 then Taken(bytes) == 1 && c == bytes[0] as char else c as int >= 0x80
  {
    var n := Taken(bytes);
    if n != Width(bytes[0]) then REPLACEMENT
    else if n == 1 then bytes[0] as char
    else if n == 2 then Code2(bytes[0], bytes[1]) as char
    else if n == 3 then Code3(bytes[0], bytes[1], bytes[2]) as char
    else Code4(bytes[0], bytes[1], bytes[2], bytes[3]) as char
  }

  function FromUtf8Lossy(bytes: seq<Byte>): string {
    if bytes == [] then "" else [First(bytes)] + FromUtf8Lossy(bytes[Taken(bytes)..])
  }

  // ---------------------------------------------------------------------
  // Text survives
  // ---------------------------------------------------------------------

  lemma TwoBytes(v: nat)
    requires 0x80 <= v < 0x800
    ensures 0xC2 <= 0xC0 + v / 0x40 < 0xE0 && Continues(0x80 + v % 0x40)
    ensures Code2(0xC0 + v / 0x40, 0x80 + v % 0x40) == v
  {
  }

  lemma ThreeBytes(v: nat)
    requires 0x800 <= v < 0x1_0000 && !(0xD800 <= v < 0xE000)
    ensures 0xE0 <= 0xE0 + v / 0x1000 < 0xF0 && Continues(0x80 + v % 0x40)
    ensures SecondFits(0xE0 + v / 0x1000, 0x80 + v / 0x40 % 0x40)
    ensures Code3(0xE0 + v / 0x1000, 0x80 + v / 0x40 % 0x40, 0x80 + v % 0x40) == v
  {
  }

  lemma FourBytes(v: nat)
    requires 0x1_0000 <= v < 0x11_0000
    ensures 0xF0 <= 0xF0 + v / 0x4_0000 < 0xF5
    ensures Continues(0x80 + v / 0x40 % 0x40) && Continues(0x80 + v % 0x40)
    ensures SecondFits(0xF0 + v / 0x4_0000, 0x80 + v / 0x1000 % 0x40)
    ensures Code4(0xF0 + v / 0x4_0000, 0x80 + v / 0x1000 % 0x40, 0x80 + v / 0x40 % 0x40, 0x80 + v % 0x40) == v
  {
    hide SecondFits, Continues;
    Sixes(v);
    FourBytesFit(0xF0 + v / 0x4_0000, 0x80 + v / 0x1000 % 0x40);
    Continuing(v);
    Continuing(v / 0x40);
  }

  /** Six bits at a time. */
  lemma Sixes(v: nat)
    ensures v == v / 0x4_0000 * 0x4_0000 + v / 0x1000 % 0x40 * 0x1000 + v / 0x40 % 0x40 * 0x40 + v % 0x40
    ensures 0x1_0000 <= v < 0x11_0000 ==> v / 0x4_0000 < 5
    ensures 0x1_0000 <= v < 0x4_0000 ==> v / 0x1000 % 0x40 >= 0x10
    ensures 0x10_0000 <= v < 0x11_0000 ==> v / 0x4_0000 == 4 && v / 0x1000 % 0x40 < 0x10
    ensures v / 0x4_0000 == 4 ==> v >= 0x10_0000
    ensures v / 0x4_0000 == 0 ==> v < 0x4_0000
  {
    var x, y, z := v / 0x40, v / 0x1000, v / 0x4_0000;
    assert y == x / 0x40 && z == y / 0x40;
  }

  lemma FourBytesFit(a: Byte, b: Byte)
    requires 0xF0 <= a < 0xF5 && 0x80 <= b < 0xC0
    requires (a == 0xF0 ==> b >= 0x90) && (a == 0xF4 ==> b < 0x90)
    ensures SecondFits(a, b)
  {
  }

  lemma Continuing(v: nat)
    ensures Continues(0x80 + v % 0x40)
  {
  }

  lemma FirstOfEncoded(c: char, rest: seq<Byte>)
    ensures var bytes := EncodeChar(c) + rest;
            Taken(bytes) == |EncodeChar(c)| && First(bytes) == c
  {
    hide Code2, Code3, Code4, SecondFits, Continues;
    var v := c as int;
    if 0x80 <= v < 0x800 {
      TwoBytes(v);
      TwoBytesFit(0xC0 + v / 0x40, 0x80 + v % 0x40);
    } else if 0x800 <= v < 0x1_0000 {
      ThreeBytes(v);
    } else if 0x1_0000 <= v {
      FourBytes(v);
    }
  }

  lemma TwoBytesFit(a: Byte, b: Byte)
    requires 0xC2 <= a < 0xE0 && Continues(b)
    ensures SecondFits(a, b)
  {
  }

  /** Well-formed text is read as what it is. */
  lemma {:induction false} TextSurvives(text: string)
    ensures FromUtf8Lossy(EncodeUtf8(text)) == text
  {
    if text != "" {
      TextSurvives(text[1..]);
      FirstOfEncoded(text[0], EncodeUtf8(text[1..]));
      assert EncodeUtf8(text)[|EncodeChar(text[0])|..] == EncodeUtf8(text[1..]);
    }
  }

  // ---------------------------------------------------------------------
  // What does not survive
  // ---------------------------------------------------------------------

  /** The first `n` bytes begin the encoding of some character. */
  ghost predicate BeginsCharacter(bytes: seq<Byte>, n: nat) {
    exists c :: BeginsThis(bytes, n, c)
  }

  predicate BeginsThis(bytes: seq<Byte>, n: nat, c: char) {
    n <= |bytes| && n <= |EncodeChar(c)| && EncodeChar(c)[..n] == bytes[..n]
  }

  lemma BackFromTwo(a: Byte, b: Byte)
    requires 0xC2 <= a < 0xE0 && Continues(b)
    ensures 0x80 <= Code2(a, b) < 0x800 && EncodeChar(Code2(a, b) as char) == [a, b]
  {
  }

  lemma BackFromThree(a: Byte, b: Byte, c: Byte)
    requires 0xE0 <= a < 0xF0 && SecondFits(a, b) && Continues(c)
    ensures 0x800 <= Code3(a, b, c) < 0x1_0000 && !(0xD800 <= Code3(a, b, c) < 0xE000)
    ensures EncodeChar(Code3(a, b, c) as char) == [a, b, c]
  {
    var v := Code3(a, b, c);
    assert v / 0x1000 == a - 0xE0 && v / 0x40 == (a - 0xE0) * 0x40 + (b - 0x80);
  }

  lemma BackFromFour(a: Byte, b: Byte, c: Byte, d: Byte)
    requires 0xF0 <= a < 0xF5 && SecondFits(a, b) && Continues(c) && Continues(d)
    ensures 0x1_0000 <= Code4(a, b, c, d) < 0x11_0000
    ensures EncodeChar(Code4(a, b, c, d) as char) == [a, b, c, d]
  {
    var v := Code4(a, b, c, d);
    assert v / 0x40 == (a - 0xF0) * 0x1000 + (b - 0x80) * 0x40 + (c - 0x80);
    assert v / 0x1000 == (a - 0xF0) * 0x40 + (b - 0x80);
    assert v / 0x4_0000 == a - 0xF0;
  }

  /** What the first bytes of an encoding look like. */
  predicate LooksBegun(bytes: seq<Byte>, n: nat)
    requires n <= |bytes|
  {
    && (n >= 1 ==> Width(bytes[0]) >= n)
    && (n >= 2 ==> SecondFits(bytes[0], bytes[1]))
    && (n >= 3 ==> Continues(bytes[2]))
    && (n >= 4 ==> Continues(bytes[3]))
  }

  lemma EncodedLooks(c: char)
    ensures LooksBegun(EncodeChar(c), |EncodeChar(c)|)
  {
    hide SecondFits, Continues;
    var v := c as int;
    if 0x80 <= v < 0x800 {
      TwoBytes(v);
      TwoBytesFit(0xC0 + v / 0x40, 0x80 + v % 0x40);
    } else if 0x800 <= v < 0x1_0000 {
      ThreeBytes(v);
    } else if 0x1_0000 <= v {
      FourBytes(v);
    }
  }

  lemma BegunLooks(bytes: seq<Byte>, n: nat, c: char)
    requires BeginsThis(bytes, n, c)
    ensures LooksBegun(bytes, n)
  {
    hide EncodeChar, SecondFits, Continues, Width;
    EncodedLooks(c);
    forall k | 0 <= k < n
      ensures bytes[k] == EncodeChar(c)[k]
    {
      assert bytes[..n][k] == bytes[k] && EncodeChar(c)[..n][k] == EncodeChar(c)[k];
    }
  }

  /** The second byte that every first one allows. */
  function SomeSecond(b: Byte): Byte {
    if b == 0xE0 then 0xA0 else if b == 0xF0 then 0x90 else 0x80
  }

  /** The bytes made whole in some way. */
  function MadeWhole(bytes: seq<Byte>, n: nat): char
    requires 1 <= n <= |bytes| && n <= 4 && LooksBegun(bytes, n)
  {
    var width := Width(bytes[0]);
    var second := if n >= 2 then bytes[1] else SomeSecond(bytes[0]);
    var third := if n >= 3 then bytes[2] else 0x80;
    if width == 1 then bytes[0] as char
    else if width == 2 then Code2(bytes[0], second) as char
    else if width == 3 then (BackFromThree(bytes[0], second, third); Code3(bytes[0], second, third) as char)
    else
      var fourth := if n >= 4 then bytes[3] else 0x80;
      (BackFromFour(bytes[0], second, third, fourth); Code4(bytes[0], second, third, fourth) as char)
  }

  lemma LooksIsBegun(bytes: seq<Byte>, n: nat)
    requires 1 <= n <= |bytes| && n <= 4 && LooksBegun(bytes, n)
    ensures BeginsThis(bytes, n, MadeWhole(bytes, n))
  {
    hide Code2, Code3, Code4, EncodeChar;
    var width := Width(bytes[0]);
    var second := if n >= 2 then bytes[1] else SomeSecond(bytes[0]);
    var third := if n >= 3 then bytes[2] else 0x80;
    var fourth := if n >= 4 then bytes[3] else 0x80;
    if width == 1 {
      OneByte(bytes[0]);
    } else if width == 2 {
      BackFromTwo(bytes[0], second);
    } else if width == 3 {
      BackFromThree(bytes[0], second, third);
    } else {
      BackFromFour(bytes[0], second, third, fourth);
    }
    SameStart(EncodeChar(MadeWhole(bytes, n)), bytes, n);
  }

  lemma SameStart(one: seq<Byte>, other: seq<Byte>, n: nat)
    requires n <= |one| && n <= |other| && forall k :: 0 <= k < n ==> one[k] == other[k]
    ensures one[..n] == other[..n]
  {
  }

  lemma OneByte(b: Byte)
    requires b < 0x80
    ensures EncodeChar(b as char) == [b]
  {
  }

  lemma TakenLooks(bytes: seq<Byte>)
    requires bytes != []
    ensures var n := Taken(bytes);
            && (n == 1 || LooksBegun(bytes, n)) && n <= 4
            && (n < |bytes| && n < Width(bytes[0]) ==> !LooksBegun(bytes, n + 1))
            && (n == Width(bytes[0]) ==> LooksBegun(bytes, n))
            && n <= (if Width(bytes[0]) == 0 then 1 else Width(bytes[0]))
  {
  }

  lemma LooksLess(bytes: seq<Byte>, n: nat, m: nat)
    requires m <= n <= |bytes| && LooksBegun(bytes, n)
    ensures LooksBegun(bytes, m)
  {
  }

  /** Exactly the longest beginning of a character is read at once; it is the
      character if it is whole, and U+FFFD if it is not, as is a byte that begins
      none (section 3.9 of the Unicode Standard). */
  lemma {:induction false} TakesTheLongest(bytes: seq<Byte>)
    requires bytes != []
    ensures Taken(bytes) > 1 ==> BeginsCharacter(bytes, Taken(bytes))
    ensures forall n :: Taken(bytes) < n <= |bytes| ==> !BeginsCharacter(bytes, n)
    ensures if exists c :: EncodeChar(c) <= bytes then
              EncodeChar(First(bytes)) == bytes[..Taken(bytes)]
            else
              First(bytes) == REPLACEMENT
  {
    hide Taken, First, LooksBegun, EncodeChar, Width;
    var m := Taken(bytes);
    TakenLooks(bytes);
    if m > 1 {
      LooksIsBegun(bytes, m);
    }
    forall n | m < n <= |bytes|
      ensures !BeginsCharacter(bytes, n)
    {
      if c :| BeginsThis(bytes, n, c) {
        BegunLooks(bytes, n, c);
        LooksLess(bytes, n, m + 1);
      }
    }
    if c :| EncodeChar(c) <= bytes {
      WholeIsFirst(bytes, c);
    } else {
      if m == Width(bytes[0]) {
        LooksIsBegun(bytes, m);
        WholeWidth(bytes, m);
      }
      BrokenIsReplaced(bytes);
    }
  }

  lemma WholeIsFirst(bytes: seq<Byte>, c: char)
    requires EncodeChar(c) <= bytes
    ensures bytes != [] && First(bytes) == c && bytes[..Taken(bytes)] == EncodeChar(c)
  {
    hide Taken, First, EncodeChar;
    FirstOfEncoded(c, bytes[|EncodeChar(c)|..]);
    assert EncodeChar(c) + bytes[|EncodeChar(c)|..] == bytes;
  }

  lemma WholeWidth(bytes: seq<Byte>, n: nat)
    requires 1 <= n <= |bytes| && n <= 4 && LooksBegun(bytes, n) && n == Width(bytes[0])
    ensures |EncodeChar(MadeWhole(bytes, n))| == n
  {
    hide Code2, Code3, Code4, EncodeChar;
    if n == 1 {
      OneByte(bytes[0]);
    } else if n == 2 {
      BackFromTwo(bytes[0], bytes[1]);
    } else if n == 3 {
      BackFromThree(bytes[0], bytes[1], bytes[2]);
    } else {
      BackFromFour(bytes[0], bytes[1], bytes[2], bytes[3]);
    }
  }

  lemma BrokenIsReplaced(bytes: seq<Byte>)
    requires bytes != [] && Taken(bytes) != Width(bytes[0])
    ensures First(bytes) == REPLACEMENT
  {
  }

  /** Nothing is lost exactly when the bytes were somebody's text. */
  lemma LosslessExactly(bytes: seq<Byte>)
    ensures EncodeUtf8(FromUtf8Lossy(bytes)) == bytes <==> exists text :: bytes == EncodeUtf8(text)
  {
    if text :| bytes == EncodeUtf8(text) {
      TextSurvives(text);
    }
  }

  // ---------------------------------------------------------------------
  // Chunk by chunk
  // ---------------------------------------------------------------------

  function Joined(chunks: seq<seq<Byte>>): seq<Byte> {
    if chunks == [] then [] else chunks[0] + Joined(chunks[1..])
  }

  /** Reading every chunk on its own, as it arrives. */
  function TextOf(chunks: seq<seq<Byte>>): string {
    if chunks == [] then "" else FromUtf8Lossy(chunks[0]) + TextOf(chunks[1..])
  }

  lemma {:induction false} JoinedAppend(chunks: seq<seq<Byte>>, more: seq<seq<Byte>>)
    ensures Joined(chunks + more) == Joined(chunks) + Joined(more)
    ensures TextOf(chunks + more) == TextOf(chunks) + TextOf(more)
    decreases |chunks|
  {
    if chunks == [] {
      assert chunks + more == more;
    } else {
      JoinedAppend(chunks[1..], more);
      assert (chunks + more)[1..] == chunks[1..] + more;
    }
  }

  predicate IsAscii(text: string) {
    forall k :: 0 <= k < |text| ==> text[k] as int < 0x80
  }

  predicate IsRaw(text: string) {
    forall k :: 0 <= k < |text| ==> text[k] as int < 0x100
  }

  /** The bytes of text that has one character per byte. */
  function Bytes(text: string): seq<Byte>
    requires IsRaw(text)
  {
    seq(|text|, k requires 0 <= k < |text| => text[k] as int)
  }

  /** The chunks without the first character. */
  function Behind(chunks: seq<seq<Byte>>): seq<seq<Byte>>
    requires chunks != [] && chunks[0] != []
  {
    [chunks[0][Taken(chunks[0])..]] + chunks[1..]
  }

  lemma AddChunk(chunk: seq<Byte>, chunks: seq<seq<Byte>>)
    ensures Joined([chunk] + chunks) == chunk + Joined(chunks)
    ensures TextOf([chunk] + chunks) == FromUtf8Lossy(chunk) + TextOf(chunks)
  {
    assert ([chunk] + chunks)[1..] == chunks;
  }

  lemma Regroup<T>(one: seq<T>, two: seq<T>, three: seq<T>)
    ensures one + two + three == one + (two + three)
  {
  }

  lemma ReadOne(bytes: seq<Byte>)
    requires bytes != []
    ensures FromUtf8Lossy(bytes) == [First(bytes)] + FromUtf8Lossy(bytes[Taken(bytes)..])
  {
    hide Taken, First;
  }

  lemma OneCharacter(chunks: seq<seq<Byte>>)
    requires chunks != [] && chunks[0] != []
    ensures TextOf(chunks) == [First(chunks[0])] + TextOf(Behind(chunks))
    ensures Joined(chunks) == chunks[0][..Taken(chunks[0])] + Joined(Behind(chunks))
  {
    hide Taken, First, FromUtf8Lossy, TextOf, Joined;
    var chunk, rest, n := chunks[0], chunks[1..], Taken(chunks[0]);
    AddChunk(chunk, rest);
    AddChunk(chunk[n..], rest);
    assert [chunk] + rest == chunks;
    ReadOne(chunk);
    Regroup([First(chunk)], FromUtf8Lossy(chunk[n..]), TextOf(rest));
    Regroup(chunk[..n], chunk[n..], Joined(rest));
    assert chunk[..n] + chunk[n..] == chunk;
  }

  lemma EmptyChunk(chunks: seq<seq<Byte>>)
    requires chunks != [] && chunks[0] == []
    ensures TextOf(chunks) == TextOf(chunks[1..]) && Joined(chunks) == Joined(chunks[1..])
  {
  }

  function FirstLength(chunks: seq<seq<Byte>>): nat {
    if chunks == [] then 0 else |chunks[0]|
  }

  /** ASCII text stands at the front of what was read exactly when its bytes stand
      at the front of what was sent. */
  lemma {:induction false} AsciiInFront(chunks: seq<seq<Byte>>, text: string)
    requires IsAscii(text)
    ensures text <= TextOf(chunks) <==> Bytes(text) <= Joined(chunks)
    decreases |chunks|, FirstLength(chunks)
  {
    if text == "" || chunks == [] {
    } else if chunks[0] == [] {
      EmptyChunk(chunks);
      AsciiInFront(chunks[1..], text);
    } else {
      var rest := text[1..];
      OneCharacter(chunks);
      AsciiInFront(Behind(chunks), rest);
      PrefixCons([First(chunks[0])], TextOf(Behind(chunks)), text);
      PrefixCons(chunks[0][..Taken(chunks[0])], Joined(Behind(chunks)), Bytes(text));
      assert Bytes(text)[1..] == Bytes(rest);
    }
  }

  lemma PrefixCons<T>(front: seq<T>, behind: seq<T>, pattern: seq<T>)
    requires front != [] && pattern != []
    ensures |front| == 1 ==> (pattern <= front + behind <==> pattern[0] == front[0] && pattern[1..] <= behind)
    ensures pattern <= front + behind ==> pattern[0] == front[0]
  {
    var whole := front + behind;
    if |front| == 1 {
      if pattern <= whole {
        assert pattern[1..] == whole[..|pattern|][1..] == behind[..|pattern| - 1];
      }
      if pattern[0] == front[0] && pattern[1..] <= behind {
        assert pattern == [pattern[0]] + pattern[1..];
        assert behind == pattern[1..] + behind[|pattern| - 1..];
        assert whole[..|pattern|] == pattern;
      }
    }
  }

  lemma OccursBehind<T>(front: seq<T>, behind: seq<T>, pattern: seq<T>, at: int)
    requires |front| <= at
    ensures OccursAt(pattern, front + behind, at) <==> OccursAt(pattern, behind, at - |front|)
  {
    var whole := front + behind;
    if at <= |whole| - |pattern| {
      assert whole[at..at + |pattern|] == behind[at - |front|..at - |front| + |pattern|];
    }
  }

  lemma BytesInjective(pattern: string, text: string, at: int)
    requires IsAscii(pattern) && IsRaw(text)
    ensures OccursAt(Bytes(pattern), Bytes(text), at) <==> OccursAt(pattern, text, at)
  {
    if 0 <= at <= |text| - |pattern| {
      OccursPointwise(pattern, text, at);
      OccursPointwise(Bytes(pattern), Bytes(text), at);
      forall k | 0 <= k < |pattern|
        ensures Bytes(text)[at + k] == Bytes(pattern)[k] <==> text[at + k] == pattern[k]
      {
      }
    }
  }

  /** Reading invents no ASCII text ... */
  lemma {:induction false} ReadMeansSent(chunks: seq<seq<Byte>>, text: string, at: nat) returns (sentAt: nat)
    requires IsAscii(text) && OccursAt(text, TextOf(chunks), at)
    ensures OccursAt(Bytes(text), Joined(chunks), sentAt)
    decreases |chunks|, FirstLength(chunks)
  {
    hide Taken, First, FromUtf8Lossy;
    if at == 0 {
      AsciiInFront(chunks, text);
      sentAt := 0;
    } else if chunks[0] == [] {
      EmptyChunk(chunks);
      sentAt := ReadMeansSent(chunks[1..], text, at);
    } else {
      OneCharacter(chunks);
      OccursBehind([First(chunks[0])], TextOf(Behind(chunks)), text, at);
      var later := ReadMeansSent(Behind(chunks), text, at - 1);
      sentAt := later + Taken(chunks[0]);
      OccursBehind(chunks[0][..Taken(chunks[0])], Joined(Behind(chunks)), Bytes(text), sentAt);
    }
  }

  /** ... and loses none. */
  lemma {:induction false} SentMeansRead(chunks: seq<seq<Byte>>, text: string, at: nat) returns (readAt: nat)
    requires IsAscii(text) && text != "" && OccursAt(Bytes(text), Joined(chunks), at)
    ensures OccursAt(text, TextOf(chunks), readAt)
    decreases |chunks|, FirstLength(chunks)
  {
    hide Taken, First, FromUtf8Lossy;
    if at == 0 {
      AsciiInFront(chunks, text);
      readAt := 0;
    } else if chunks[0] == [] {
      EmptyChunk(chunks);
      readAt := SentMeansRead(chunks[1..], text, at);
    } else {
      var n := Taken(chunks[0]);
      OneCharacter(chunks);
      assert Joined(chunks)[at] == Bytes(text)[0] < 0x80;
      assert n <= at;
      OccursBehind(chunks[0][..n], Joined(Behind(chunks)), Bytes(text), at);
      var later := SentMeansRead(Behind(chunks), text, at - n);
      readAt := later + 1;
      OccursBehind([First(chunks[0])], TextOf(Behind(chunks)), text, readAt);
    }
  }

  /** However the bytes were cut, and whatever else is among them: any ASCII text
      can be found in what was read exactly when it was in what was sent. */
  lemma AsciiSurvives(chunks: seq<seq<Byte>>, text: string)
    requires IsAscii(text)
    ensures Contains(text, TextOf(chunks)) <==> Contains(Bytes(text), Joined(chunks))
  {
    if at :| OccursAt(text, TextOf(chunks), at) {
      var sentAt := ReadMeansSent(chunks, text, at);
    }
    if at :| OccursAt(Bytes(text), Joined(chunks), at) {
      if text == "" {
        assert OccursAt(text, TextOf(chunks), 0);
      } else {
        var readAt := SentMeansRead(chunks, text, at);
      }
    }
  }

  // ---------------------------------------------------------------------
  // Cutting where a byte is ASCII
  // ---------------------------------------------------------------------

  /** One of the bytes at the cut is ASCII, so no character spans it. */
  predicate CleanCut(bytes: seq<Byte>, n: nat)
    requires n <= |bytes|
  {
    n == 0 || n == |bytes| || bytes[n - 1] < 0x80 || bytes[n] < 0x80
  }

  lemma TakenInside(bytes: seq<Byte>, n: nat)
    requires 0 < n <= |bytes| && CleanCut(bytes, n)
    ensures Taken(bytes) <= n
  {
    hide Taken;
  }

  lemma FirstInside(bytes: seq<Byte>, n: nat)
    requires 0 < n <= |bytes| && Taken(bytes) <= n
    ensures Taken(bytes[..n]) == Taken(bytes)
  {
    hide SecondFits, Continues, Width;
    var part := bytes[..n];
    assert forall k :: 0 <= k < n ==> part[k] == bytes[k];
  }

  lemma SameFirst(bytes: seq<Byte>, part: seq<Byte>)
    requires bytes != [] && part != [] && part <= bytes && Taken(part) == Taken(bytes)
    ensures First(part) == First(bytes)
  {
    hide Taken, Code2, Code3, Code4, Width;
    assert forall k :: 0 <= k < |part| ==> part[k] == bytes[k];
  }

  lemma CutLater(bytes: seq<Byte>, n: nat, m: nat)
    requires m <= n <= |bytes| && CleanCut(bytes, n)
    ensures CleanCut(bytes[m..], n - m)
  {
  }

  lemma CutTwice(bytes: seq<Byte>, m: nat, n: nat)
    requires m <= n <= |bytes|
    ensures bytes[m..][..n - m] == bytes[..n][m..] && bytes[m..][n - m..] == bytes[n..]
  {
  }

  lemma {:induction false} ReadInParts(bytes: seq<Byte>, n: nat)
    requires n <= |bytes| && CleanCut(bytes, n)
    ensures FromUtf8Lossy(bytes) == FromUtf8Lossy(bytes[..n]) + FromUtf8Lossy(bytes[n..])
    decreases n
  {
    hide Taken, First, CleanCut;
    if n == 0 {
      assert bytes[0..] == bytes;
    } else {
      var part, m := bytes[..n], Taken(bytes);
      TakenInside(bytes, n);
      FirstInside(bytes, n);
      SameFirst(bytes, part);
      CutLater(bytes, n, m);
      ReadInParts(bytes[m..], n - m);
      CutTwice(bytes, m, n);
      Regroup([First(bytes)], FromUtf8Lossy(part[m..]), FromUtf8Lossy(bytes[n..]));
    }
  }

  /** What was read can be taken apart where what was sent has a clean cut. */
  lemma {:induction false} ReadApart(chunks: seq<seq<Byte>>, n: nat)
      returns (before: seq<seq<Byte>>, after: seq<seq<Byte>>)
    requires n <= |Joined(chunks)| && CleanCut(Joined(chunks), n)
    ensures Joined(before) == Joined(chunks)[..n] && Joined(after) == Joined(chunks)[n..]
    ensures TextOf(chunks) == TextOf(before) + TextOf(after)
  {
    hide FromUtf8Lossy;
    if chunks == [] {
      before, after := [], [];
    } else {
      var chunk, rest := chunks[0], chunks[1..];
      assert Joined(chunks) == chunk + Joined(rest);
      if n <= |chunk| {
        ReadInParts(chunk, n);
        before, after := [chunk[..n]], [chunk[n..]] + rest;
        AddChunk(chunk[..n], []);
        AddChunk(chunk[n..], rest);
      } else {
        assert CleanCut(Joined(rest), n - |chunk|);
        var front, back := ReadApart(rest, n - |chunk|);
        before, after := [chunk] + front, back;
        AddChunk(chunk, front);
      }
    }
  }

  /** ASCII text comes through as it is, however it was cut. */
  lemma {:induction false} AsciiIsRead(chunks: seq<seq<Byte>>, text: string)
    requires IsAscii(text) && Joined(chunks) == Bytes(text)
    ensures TextOf(chunks) == text
    decreases |chunks|, FirstLength(chunks)
  {
    if chunks == [] {
    } else if chunks[0] == [] {
      EmptyChunk(chunks);
      AsciiIsRead(chunks[1..], text);
    } else {
      hide Taken, First, TextOf, FromUtf8Lossy;
      OneCharacter(chunks);
      assert Bytes(text)[0] == chunks[0][0];
      assert Bytes(text)[1..] == Bytes(text[1..]);
      AsciiIsRead(Behind(chunks), text[1..]);
      assert [text[0]] + text[1..] == text;
    }
  }

  /** What starts with something other than a given ASCII character is read as
      text that does, too. */
  lemma {:induction false} FirstRead(chunks: seq<seq<Byte>>)
    requires Joined(chunks) != []
    ensures var text, sent := TextOf(chunks), Joined(chunks)[0];
            text != "" && (text[0] as int == sent || (text[0] as int >= 0x80 && sent >= 0x80))
    decreases |chunks|
  {
    if chunks[0] == [] {
      EmptyChunk(chunks);
      FirstRead(chunks[1..]);
    } else {
      OneCharacter(chunks);
    }
  }
}
