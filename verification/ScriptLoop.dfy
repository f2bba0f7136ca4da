/** Running a typed script: the receive loop reads the terminal's bytes chunk by
    chunk, waits for the status and takes the output apart. */
module ScriptLoop {
  import opened Results
  import opened Search
  import opened Base64
  import opened TerminalScript
  import opened Utf8
  import Lease = TerminalLease
  import Tap = TerminalTap
  import Target = TargetShell

  datatype LoopError = RanOut | TooMuchOutput | NotParsed(error: ScriptError)

  function Utf8Length(text: string): nat {
    |EncodeUtf8(text)|
  }

  /** The text with which the loop stops. The chunks may run out first, because of
      a timeout, an overflow or a closed tap. */
  function CollectUntilStatus(chunks: seq<seq<Byte>>, m: TerminalScriptMarkers, collected: string)
    : Result<string, LoopError>
  {
    if chunks == [] then Err(RanOut)
    else
      var grown := collected + FromUtf8Lossy(chunks[0]);
      if TerminalScriptStatus(grown, m).Some? then Ok(grown)
      else if Utf8Length(grown) > Tap.MAX_COLLECTED then Err(TooMuchOutput)
      else CollectUntilStatus(chunks[1..], m, grown)
  }

  function Parsed(collected: Result<string, LoopError>, m: TerminalScriptMarkers)
    : Result<TerminalScriptOutput, LoopError>
  {
    match collected
    case Err(error) => Err(error)
    case Ok(text) =>
      match ParseTerminalScriptOutput(text, m)
      case Ok(output) => Ok(output)
      case Err(error) => Err(NotParsed(error))
  }

  method RunScriptViaTerminal(chunks: seq<seq<Byte>>, m: TerminalScriptMarkers)
      returns (result: Result<TerminalScriptOutput, LoopError>)
    ensures result == Parsed(CollectUntilStatus(chunks, m, ""), m)
  {
    hide TerminalScriptStatus, ParseTerminalScriptOutput, FromUtf8Lossy, EncodeUtf8;
    var collected := "";
    for taken := 0 to |chunks|
      invariant CollectUntilStatus(chunks, m, "") == CollectUntilStatus(chunks[taken..], m, collected)
    {
      assert chunks[taken..][1..] == chunks[taken + 1..];
      collected := collected + FromUtf8Lossy(chunks[taken]);
      if TerminalScriptStatus(collected, m).Some? {
        var parsed := ParseTerminalScriptOutput(collected, m);
        return match parsed case Ok(output) => Ok(output) case Err(error) => Err(NotParsed(error));
      }
      if Utf8Length(collected) > Tap.MAX_COLLECTED {
        return Err(TooMuchOutput);
      }
    }
    result := Err(RanOut);
  }

  // ---------------------------------------------------------------------
  // What the loop reads
  // ---------------------------------------------------------------------

  /** Everything up to and including the digits of the status. */
  function UpToStatus(m: TerminalScriptMarkers, noise: Noise, status: nat): string {
    UpToEnd(m, noise) + Decimal(status)
  }

  /** The part of it that the script prints. */
  function Framed(m: TerminalScriptMarkers, noise: Noise, status: nat): string {
    m.Stdout() + noise.outBlock + m.Stderr() + noise.errBlock + m.End() + Decimal(status)
  }

  lemma BlockIsAscii(block: string, bytes: seq<Byte>)
    requires Compact(block) == Encode(bytes)
    ensures IsAscii(block)
  {
    hide Compact, Encode;
    EncodedCharacters(bytes);
    forall k | 0 <= k < |block|
      ensures block[k] as int < 0x80
    {
      if !IsAsciiWhitespace(block[k]) && block[k] !in Compact(block) {
        CompactLoses(block, block[k]);
      }
    }
  }

  lemma TokenIsAscii(token: string)
    requires WellFormed(token)
    ensures IsAscii(token) && token != ""
  {
    forall k | 0 <= k < |token|
      ensures token[k] as int < 0x80
    {
      if k < 10 {
        assert token[k] == token[..10][k];
      }
    }
  }

  lemma FramedIsAscii(m: TerminalScriptMarkers, noise: Noise, output: ScriptOutput)
    requires WellFormed(m.token) && Harmless(m, noise, output)
    ensures IsAscii(Framed(m, noise, output.status)) && Framed(m, noise, output.status) != ""
    ensures UpToStatus(m, noise, output.status) == noise.before + Framed(m, noise, output.status)
  {
    hide Compact, Encode, WellFormed, Contains, NoMarker, Decimal;
    TokenIsAscii(m.token);
    BlockIsAscii(noise.outBlock, output.stdout);
    BlockIsAscii(noise.errBlock, output.stderr);
    DecimalIsAscii(output.status);
  }

  lemma DecimalIsAscii(n: nat)
    ensures IsAscii(Decimal(n))
  {
    hide Decimal;
    DecimalDigits(n);
    forall k | 0 <= k < |Decimal(n)|
      ensures Decimal(n)[k] as int < 0x80
    {
      assert Lease.IsDigit(Decimal(n)[k]);
    }
  }

  /** Text without a marker reads as text without one. */
  lemma NoMarkerRead(chunks: seq<seq<Byte>>, text: string, token: string)
    requires IsRaw(text) && Joined(chunks) == Bytes(text) && WellFormed(token) && NoMarker(text, token)
    ensures NoMarker(TextOf(chunks), token)
  {
    TokenIsAscii(token);
    forall tag, at | IsTag(tag) && OccursAt(Marker(token, tag), TextOf(chunks), at)
      ensures false
    {
      var sentAt := ReadMeansSent(chunks, Marker(token, tag), at);
      BytesInjective(Marker(token, tag), text, sentAt);
    }
  }

  /** Up to the status only the text before the markers depends on how the bytes
      were cut, and it brings up no marker. */
  lemma {:induction false} ReadUpToStatus(chunks: seq<seq<Byte>>, m: TerminalScriptMarkers, noise: Noise,
                                          output: ScriptOutput)
      returns (before: string)
    requires WellFormed(m.token) && Harmless(m, noise, output) && IsRaw(UpToStatus(m, noise, output.status))
    requires Joined(chunks) == Bytes(UpToStatus(m, noise, output.status))
    ensures TextOf(chunks) == UpToStatus(m, noise.(before := before), output.status)
    ensures Harmless(m, noise.(before := before), output)
  {
    hide Compact, Encode, WellFormed, Contains, NoMarker, Decimal, UpToStatus, Framed;
    var framed := Framed(m, noise, output.status);
    FramedIsAscii(m, noise, output);
    var sent := noise.before + framed;
    assert IsRaw(noise.before) by {
      assert forall k :: 0 <= k < |noise.before| ==> sent[k] == noise.before[k];
    }
    var front, back := ReadApart(chunks, |noise.before|);
    assert Joined(front) == Bytes(noise.before) && Joined(back) == Bytes(framed);
    AsciiIsRead(back, framed);
    NoMarkerRead(front, noise.before, m.token);
    before := TextOf(front);
    OtherBefore(m, noise, output, before);
  }

  lemma OtherBefore(m: TerminalScriptMarkers, noise: Noise, output: ScriptOutput, before: string)
    requires WellFormed(m.token) && Harmless(m, noise, output) && NoMarker(before, m.token)
    ensures Harmless(m, noise.(before := before), output)
    ensures UpToStatus(m, noise.(before := before), output.status) == before + Framed(m, noise, output.status)
  {
    hide Compact, Encode, WellFormed, Contains, NoMarker, Decimal;
    FramedIsAscii(m, noise.(before := before), output);
  }

  /** Bytes that do not reach behind the digits have no status. */
  lemma {:induction false} NoStatusYet(chunks: seq<seq<Byte>>, m: TerminalScriptMarkers, noise: Noise,
                                       output: ScriptOutput)
    requires WellFormed(m.token) && Harmless(m, noise, output) && IsRaw(UpToStatus(m, noise, output.status))
    requires Joined(chunks) <= Bytes(UpToStatus(m, noise, output.status))
    ensures TerminalScriptStatus(TextOf(chunks), m) == None
  {
    hide WellFormed, Harmless, UpToStatus, TerminalScriptStatus, FromUtf8Lossy, ParseTerminalScriptOutput;
    var sent := Bytes(UpToStatus(m, noise, output.status));
    var rest := sent[|Joined(chunks)|..];
    JoinedAppend(chunks, [rest]);
    assert Joined([rest]) == rest + [] == rest;
    assert Joined(chunks) + rest == sent;
    var before := ReadUpToStatus(chunks + [rest], m, noise, output);
    var read := noise.(before := before);
    UpToStatusIsPrinted(m, read, output.status, TextOf(chunks));
    NeverCutShort(m, read, output, |TextOf(chunks)|);
  }

  lemma UpToStatusIsPrinted(m: TerminalScriptMarkers, noise: Noise, status: nat, part: string)
    requires part <= UpToStatus(m, noise, status)
    ensures |part| <= |UpToEnd(m, noise)| + |Decimal(status)| < |Printed(m, noise, status)|
    ensures Printed(m, noise, status)[..|part|] == part
  {
    hide UpToEnd, Decimal;
  }

  /** And bytes that do have the right one, and give the right output. */
  lemma {:induction false} StatusReached(chunks: seq<seq<Byte>>, m: TerminalScriptMarkers, noise: Noise,
                                         output: ScriptOutput)
    requires WellFormed(m.token) && Harmless(m, noise, output) && IsRaw(Printed(m, noise, output.status))
    requires |UpToStatus(m, noise, output.status)| < |Joined(chunks)|
    requires Joined(chunks) <= Bytes(Printed(m, noise, output.status))
    ensures TerminalScriptStatus(TextOf(chunks), m).Some?
    ensures ParseTerminalScriptOutput(TextOf(chunks), m) == Ok(Readable(output))
  {
    hide WellFormed, Harmless, UpToStatus, TerminalScriptStatus, FromUtf8Lossy, ParseTerminalScriptOutput, Printed;
    var n := |UpToStatus(m, noise, output.status)|;
    PrintedApart(m, noise, output, |Joined(chunks)|);
    var front, back := ReadApart(chunks, n);
    var before := ReadUpToStatus(front, m, noise, output);
    var behind := ([noise.terminator] + noise.tail)[..|Joined(chunks)| - n];
    assert Joined(back) == Bytes(behind);
    BehindTheStatus(back, m, noise, output, behind);
    var text := TextOf(back);
    var before' := noise.(before := before);
    var read := before'.(terminator := text[0], tail := text[1..]);
    NewTail(m, before', output, text);
    assert TextOf(chunks) == Printed(m, read, output.status);
    assert Printed(m, read, output.status)[..|TextOf(chunks)|] == TextOf(chunks);
    NeverCutShort(m, read, output, |TextOf(chunks)|);
  }

  /** The bytes sent, taken apart behind the digits of the status. */
  lemma {:induction false} PrintedApart(m: TerminalScriptMarkers, noise: Noise, output: ScriptOutput, n: nat)
    requires WellFormed(m.token) && Harmless(m, noise, output) && IsRaw(Printed(m, noise, output.status))
    requires |UpToStatus(m, noise, output.status)| < n <= |Printed(m, noise, output.status)|
    ensures var start, behind := UpToStatus(m, noise, output.status), [noise.terminator] + noise.tail;
            && IsRaw(start) && IsRaw(behind) && n - |start| <= |behind|
            && Bytes(Printed(m, noise, output.status))[..n][..|start|] == Bytes(start)
            && Bytes(Printed(m, noise, output.status))[..n][|start|..] == Bytes(behind[..n - |start|])
            && CleanCut(Bytes(Printed(m, noise, output.status))[..n], |start|)
  {
    hide WellFormed, Harmless, UpToEnd, Decimal, Framed;
    var start, behind := UpToStatus(m, noise, output.status), [noise.terminator] + noise.tail;
    assert Printed(m, noise, output.status) == start + behind;
    RawApart(start, behind, n);
    FramedIsAscii(m, noise, output);
    var framed := Framed(m, noise, output.status);
    assert start[|start| - 1] == framed[|framed| - 1];
  }

  lemma RawApart(start: string, behind: string, n: nat)
    requires IsRaw(start + behind) && |start| < n <= |start + behind|
    ensures IsRaw(start) && IsRaw(behind)
    ensures Bytes(start + behind)[..n][..|start|] == Bytes(start)
    ensures Bytes(start + behind)[..n][|start|..] == Bytes(behind[..n - |start|])
    ensures start != "" && start[|start| - 1] as int < 0x80 ==> CleanCut(Bytes(start + behind)[..n], |start|)
  {
    var whole := start + behind;
    assert forall k :: 0 <= k < |start| ==> whole[k] == start[k];
    assert forall k :: 0 <= k < |behind| ==> whole[|start| + k] == behind[k];
  }

  lemma {:induction false} BehindTheStatus(chunks: seq<seq<Byte>>, m: TerminalScriptMarkers, noise: Noise,
                                           output: ScriptOutput, behind: string)
    requires WellFormed(m.token) && Harmless(m, noise, output)
    requires IsRaw(behind) && behind != "" && behind <= [noise.terminator] + noise.tail
    requires Joined(chunks) == Bytes(behind)
    ensures var text := TextOf(chunks);
            text != "" && !Lease.IsDigit(text[0]) && !Contains(m.End(), text)
  {
    hide WellFormed, FromUtf8Lossy, Compact, Encode, NoMarker;
    FirstRead(chunks);
    TokenIsAscii(m.token);
    AsciiSurvives(chunks, m.End());
    if at :| OccursAt(Bytes(m.End()), Bytes(behind), at) {
      BytesInjective(m.End(), behind, at);
      OccursInPrefix(m.End(), behind, [noise.terminator] + noise.tail, at);
    }
  }

  lemma NewTail(m: TerminalScriptMarkers, noise: Noise, output: ScriptOutput, text: string)
    requires Harmless(m, noise, output)
    requires text != "" && !Lease.IsDigit(text[0]) && !Contains(m.End(), text)
    ensures var read := noise.(terminator := text[0], tail := text[1..]);
            && Harmless(m, read, output)
            && Printed(m, read, output.status) == UpToStatus(m, noise, output.status) + text
            && |UpToEnd(m, read)| + |Decimal(output.status)| == |UpToStatus(m, noise, output.status)|
  {
    hide Contains, NoMarker, Compact, Encode, Decimal;
    assert [text[0]] + text[1..] == text;
  }

  // ---------------------------------------------------------------------
  // The whole loop
  // ---------------------------------------------------------------------

  /** Of all texts held before the status came, none was too long. */
  predicate WithinLimit(chunks: seq<seq<Byte>>, from: nat, upToStatus: nat) {
    forall i :: from < i <= |chunks| && |Joined(chunks[..i])| <= upToStatus ==>
      Utf8Length(TextOf(chunks[..i])) <= Tap.MAX_COLLECTED
  }

  lemma NextPart(chunks: seq<seq<Byte>>, from: nat)
    requires from < |chunks|
    ensures TextOf(chunks[..from + 1]) == TextOf(chunks[..from]) + FromUtf8Lossy(chunks[from])
    ensures Joined(chunks[..from + 1]) == Joined(chunks[..from]) + chunks[from]
  {
    hide FromUtf8Lossy, TextOf, Joined;
    assert chunks[..from + 1] == chunks[..from] + [chunks[from]];
    JoinedAppend(chunks[..from], [chunks[from]]);
    JustOne(chunks[from]);
  }

  lemma PartIsPrefix(chunks: seq<seq<Byte>>, n: nat)
    requires n <= |chunks|
    ensures Joined(chunks[..n]) <= Joined(chunks)
  {
    hide TextOf, Joined;
    assert chunks == chunks[..n] + chunks[n..];
    JoinedAppend(chunks[..n], chunks[n..]);
  }

  lemma JustOne(chunk: seq<Byte>)
    ensures TextOf([chunk]) == FromUtf8Lossy(chunk) && Joined([chunk]) == chunk
  {
    hide FromUtf8Lossy;
    AddChunk(chunk, []);
    assert [chunk] + [] == [chunk];
  }

  lemma {:induction false} LoopFrom(chunks: seq<seq<Byte>>, from: nat, m: TerminalScriptMarkers, noise: Noise,
                                    output: ScriptOutput)
    requires WellFormed(m.token) && Harmless(m, noise, output) && IsRaw(Printed(m, noise, output.status))
    requires Joined(chunks) == Bytes(Printed(m, noise, output.status))
    requires from <= |chunks| && |Joined(chunks[..from])| <= |UpToStatus(m, noise, output.status)|
    ensures Parsed(CollectUntilStatus(chunks[from..], m, TextOf(chunks[..from])), m)
         == if WithinLimit(chunks, from, |UpToStatus(m, noise, output.status)|) then Ok(Readable(output))
            else Err(TooMuchOutput)
    decreases |chunks| - from
  {
    hide WellFormed, Harmless, UpToStatus, TerminalScriptStatus, FromUtf8Lossy, ParseTerminalScriptOutput, Printed;
    hide EncodeUtf8, Readable, Joined, TextOf, Bytes;
    var n := |UpToStatus(m, noise, output.status)|;
    UpToStatusFits(m, noise, output);
    assert chunks[..|chunks|] == chunks;
    if from < |chunks| {
      NextPart(chunks, from);
      PartIsPrefix(chunks, from + 1);
      assert chunks[from..][1..] == chunks[from + 1..];
      if |Joined(chunks[..from + 1])| <= n {
        NoStatusYet(chunks[..from + 1], m, noise, output);
        if Utf8Length(TextOf(chunks[..from + 1])) <= Tap.MAX_COLLECTED {
          LoopFrom(chunks, from + 1, m, noise, output);
        }
      } else {
        StatusReached(chunks[..from + 1], m, noise, output);
        LaterAreLonger(chunks, from + 1);
      }
    }
  }

  lemma {:induction false} LaterAreLonger(chunks: seq<seq<Byte>>, from: nat)
    requires from <= |chunks|
    ensures forall i :: from <= i <= |chunks| ==> |Joined(chunks[..from])| <= |Joined(chunks[..i])|
  {
    forall i | from <= i <= |chunks|
      ensures |Joined(chunks[..from])| <= |Joined(chunks[..i])|
    {
      assert chunks[..i] == chunks[..from] + chunks[from..i];
      JoinedAppend(chunks[..from], chunks[from..i]);
    }
  }

  lemma UpToStatusFits(m: TerminalScriptMarkers, noise: Noise, output: ScriptOutput)
    requires IsRaw(Printed(m, noise, output.status))
    ensures |UpToStatus(m, noise, output.status)| < |Bytes(Printed(m, noise, output.status))|
    ensures IsRaw(UpToStatus(m, noise, output.status))
    ensures |Bytes(UpToStatus(m, noise, output.status))| == |UpToStatus(m, noise, output.status)|
    ensures Bytes(UpToStatus(m, noise, output.status)) <= Bytes(Printed(m, noise, output.status))
  {
    hide UpToEnd, Decimal;
    var start, whole := UpToStatus(m, noise, output.status), Printed(m, noise, output.status);
    assert whole == start + ([noise.terminator] + noise.tail);
    assert forall k :: 0 <= k < |start| ==> whole[k] == start[k];
  }

  /** From the terminal's bytes to the caller: for every script, whatever bytes it
      wrote and whatever harmless bytes surround them, and however the terminal
      cut them into chunks, the loop returns exactly that output and status; or
      gives up if and only if it held too much before the status came. */
  lemma {:induction false} ScriptComesBack(chunks: seq<seq<Byte>>, m: TerminalScriptMarkers, noise: Noise,
                                           output: ScriptOutput)
    requires WellFormed(m.token) && Harmless(m, noise, output) && IsRaw(Printed(m, noise, output.status))
    requires Joined(chunks) == Bytes(Printed(m, noise, output.status))
    ensures Parsed(CollectUntilStatus(chunks, m, ""), m)
         == if WithinLimit(chunks, 0, |UpToStatus(m, noise, output.status)|) then Ok(Readable(output))
            else Err(TooMuchOutput)
  {
    hide WellFormed, Harmless, UpToStatus, CollectUntilStatus, Printed, WithinLimit;
    assert chunks[..0] == [] && chunks[0..] == chunks;
    LoopFrom(chunks, 0, m, noise, output);
  }

  /** The whole way: a command is typed, the target runs it and prints, the terminal
      cuts that into chunks, and the loop returns what the command wrote and its
      status, or gives up if and only if it held too much before the status came. */
  lemma {:induction false} AgentGetsTheOutput(chunks: seq<seq<Byte>>, command: string, m: TerminalScriptMarkers,
                                              t: Target.Target, before: string, after: string)
    requires WellFormed(m.token) && Target.Sound(t) && |t.temps| >= 2 && IsRaw(command) && t.list == command
    requires NoMarker(before, m.token) && !Contains(m.End(), after)
    requires var ran := Target.Interactive(Typed(TypedLines(Bytes(command), m)), t);
             ran.Some? ==>
               && IsRaw(before + ran.value.printed + after)
               && Joined(chunks) == Bytes(before + ran.value.printed + after)
    ensures var ran := Target.Interactive(Typed(TypedLines(Bytes(command), m)), t);
            && ran.Some? && |t.eol| <= |before| + |ran.value.printed|
            && Parsed(CollectUntilStatus(chunks, m, ""), m)
               == if WithinLimit(chunks, 0, |before| + |ran.value.printed| - |t.eol|) then Ok(Readable(t.output))
                  else Err(TooMuchOutput)
  {
    hide WellFormed, Target.Sound, NoMarker, Contains, Target.Interactive, Typed, TypedLines, Harmless, Printed;
    hide Target.Shown, CollectUntilStatus, WithinLimit, UpToEnd, Decimal, Bytes, Joined, IsRaw;
    Target.TypedInputRuns(command, m, t);
    var noise := Target.TranscriptIsPrinted(before, m, t, after);
    ScriptComesBack(chunks, m, noise, t.output);
  }
}
