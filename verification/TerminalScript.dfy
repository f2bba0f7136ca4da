/** Non-interactive commands typed into an interactive shell: how a script is
    typed, and how its output is recovered from everything the terminal printed.

    Terminal text is modelled one `char` per byte; scripts and their output are
    byte sequences. */
module TerminalScript {
  import opened Results
  import opened Search
  import opened Base64
  import Utf8
  import Lease = TerminalLease

  const SCRIPT_LINE_WIDTH := 76
  const SCRIPT_SETUP_FAILED := 125
  const MAX_I32: nat := 0x7FFF_FFFF

  datatype TerminalScriptMarkers = Markers(token: string) {
    function Stdout(): string { token + "_O" }

    function Stderr(): string { token + "_R" }

    function End(): string { token + "_E" }

    function Heredoc(): string { token + "_X" }
  }

  predicate IsLowerHex(c: char) { '0' <= c <= '9' || 'a' <= c <= 'f' }

  /** The tokens the agent makes: a fixed prefix and lower-case hexadecimal digits. */
  predicate WellFormed(token: string) {
    && |token| > 10
    && token[..10] == "MIAOMINAL_"
    && forall k :: 10 <= k < |token| ==> IsLowerHex(token[k])
  }

  // ---------------------------------------------------------------------
  // Typing a script
  // ---------------------------------------------------------------------

  function Ascii(text: string): seq<Byte> {
    seq(|text|, k requires 0 <= k < |text| => text[k] as int % 256)
  }

  /** The wrapped command, as the target will run it. */
  function Script(command: seq<Byte>, m: TerminalScriptMarkers): seq<Byte> {
    Ascii("o=$(mktemp) && e=$(mktemp) || exit 125" + "\n" + "( ") + command + Ascii("\n" + ScriptEnd(m))
  }

  function ScriptEnd(m: TerminalScriptMarkers): string {
    ") </dev/null >\"$o\" 2>\"$e\"" + "\n" +
    ("s=$?" + "\n" +
    ("printf '%s\\n' '" + m.Stdout() + "'" + "\n" +
    ("base64 <\"$o\"" + "\n" +
    ("printf '%s\\n' '" + m.Stderr() + "'" + "\n" +
    ("base64 <\"$e\"" + "\n" +
    ("rm -f \"$o\" \"$e\"" + "\n" +
    ("exit $s" + "\n")))))))
  }

  function Chunks(text: string, width: nat): seq<string>
    requires width > 0
  {
    if text == "" then []
    else if |text| <= width then [text]
    else [text[..width]] + Chunks(text[width..], width)
  }

  function OpenLine(m: TerminalScriptMarkers): string {
    " sh -c \"$(base64 -d <<'" + m.token + "_X'"
  }

  function CloseLine(m: TerminalScriptMarkers): string {
    ")\"; printf '\\n%s%s%d\\n' '" + m.token + ("' '" + "_E" + "' \"$?\"")
  }

  /** The lines typed into the shell, each ended by Enter. */
  function TypedLines(command: seq<Byte>, m: TerminalScriptMarkers): seq<string> {
    [OpenLine(m)] + Chunks(Encode(Script(command, m)), SCRIPT_LINE_WIDTH) + [m.Heredoc(), CloseLine(m)]
  }

  function Typed(lines: seq<string>): string {
    if lines == [] then "" else lines[0] + "\r" + Typed(lines[1..])
  }

  lemma {:induction false} TypedAppend(first: seq<string>, second: seq<string>)
    ensures Typed(first + second) == Typed(first) + Typed(second)
    decreases |first|
  {
    if first == [] {
      assert first + second == second;
    } else {
      TypedAppend(first[1..], second);
      assert (first + second)[1..] == first[1..] + second;
    }
  }

  lemma NextChunk(text: string, from: nat, to: nat)
    requires from < to <= |text|
    requires to == (if |text| - from <= SCRIPT_LINE_WIDTH then |text| else from + SCRIPT_LINE_WIDTH)
    ensures Chunks(text[from..], SCRIPT_LINE_WIDTH) == [text[from..to]] + Chunks(text[to..], SCRIPT_LINE_WIDTH)
  {
    var rest := text[from..];
    if |rest| <= SCRIPT_LINE_WIDTH {
      assert rest == text[from..to] && text[to..] == "";
    } else {
      assert rest[..SCRIPT_LINE_WIDTH] == text[from..to];
      assert rest[SCRIPT_LINE_WIDTH..] == text[to..];
    }
  }

  lemma TypedSnoc(body: seq<string>, line: string)
    ensures Typed(body + [line]) == Typed(body) + line + "\r"
  {
    TypedAppend(body, [line]);
    assert [line][1..] == [];
    assert Typed([line]) == line + "\r" + Typed([]);
  }

  lemma TypedFirst(line: string)
    ensures Typed([line]) == line + "\r"
  {
    assert [line][1..] == [];
    assert Typed([line]) == line + "\r" + Typed([]);
  }

  /** The closing line has the end marker in two words. */
  function Closing(token: string, suffix: string): string {
    ")\"; printf '\\n%s%s%d\\n' '" + token + ("' '" + suffix + "' \"$?\"")
  }

  lemma ClosingIsClose(m: TerminalScriptMarkers)
    ensures Closing(m.End()[..|m.token|], m.End()[|m.token|..]) == CloseLine(m)
  {
    assert m.End()[..|m.token|] == m.token && m.End()[|m.token|..] == "_E";
  }

  lemma NoChunks()
    ensures Chunks("", SCRIPT_LINE_WIDTH) == []
  {
  }

  lemma AllLines(command: seq<Byte>, m: TerminalScriptMarkers, body: seq<string>)
    requires body == [OpenLine(m)] + Chunks(Encode(Script(command, m)), SCRIPT_LINE_WIDTH)
    ensures TypedLines(command, m) == body + [m.Heredoc(), CloseLine(m)]
  {
  }

  /** Builds the input in one buffer, cutting the encoded script into lines. */
  method TerminalScriptInput(command: seq<Byte>, m: TerminalScriptMarkers) returns (input: string)
    ensures input == Typed(TypedLines(command, m))
  {
    hide Encode, Script, Chunks, Typed, TypedLines, OpenLine, CloseLine, Closing;
    var encoded := Encode(Script(command, m));
    input := OpenLine(m) + "\r";
    ghost var body := [OpenLine(m)];
    TypedFirst(OpenLine(m));
    var offset := 0;
    assert encoded[0..] == encoded;
    while offset < |encoded|
      invariant 0 <= offset <= |encoded|
      invariant input == Typed(body)
      invariant body + Chunks(encoded[offset..], SCRIPT_LINE_WIDTH)
             == [OpenLine(m)] + Chunks(encoded, SCRIPT_LINE_WIDTH)
    {
      var end := if |encoded| - offset <= SCRIPT_LINE_WIDTH then |encoded| else offset + SCRIPT_LINE_WIDTH;
      var chunk := encoded[offset..end];
      NextChunk(encoded, offset, end);
      TypedSnoc(body, chunk);
      body := body + [chunk];
      input := input + chunk + "\r";
      offset := end;
    }
    assert encoded[offset..] == "";
    NoChunks();
    AllLines(command, m, body);
    var end, suffix := m.End()[..|m.token|], m.End()[|m.token|..];
    ClosingIsClose(m);
    LastLines(body, m);
    input := input + m.Heredoc() + "\r";
    input := input + Closing(end, suffix) + "\r";
  }

  lemma LastLines(body: seq<string>, m: TerminalScriptMarkers)
    ensures Typed(body + [m.Heredoc(), CloseLine(m)]) == Typed(body) + m.Heredoc() + "\r" + CloseLine(m) + "\r"
  {
    hide CloseLine;
    var last := [m.Heredoc(), CloseLine(m)];
    TypedAppend(body, last);
    assert last[1..] == [CloseLine(m)] && last[1..][1..] == [];
    assert Typed(last[1..][1..]) == "";
    assert Typed(last[1..]) == CloseLine(m) + "\r" + "";
    assert Typed(last) == m.Heredoc() + "\r" + Typed(last[1..]);
  }

  // ---------------------------------------------------------------------
  // The shell reads back exactly the script
  // ---------------------------------------------------------------------

  /** The lines of a terminal's input, split where Enter was pressed. */
  function SplitAtEnter(text: string): (lines: seq<string>)
    ensures lines != []
  {
    if text == "" then [""]
    else
      var rest := SplitAtEnter(text[1..]);
      if text[0] == '\r' then [""] + rest else [[text[0]] + rest[0]] + rest[1..]
  }

  /** The lines of a here-document: up to the first line that is the delimiter. */
  function HereDocument(lines: seq<string>, delimiter: string): Option<seq<string>> {
    if lines == [] then None
    else if lines[0] == delimiter then Some([])
    else
      var rest := HereDocument(lines[1..], delimiter);
      if rest.Some? then Some([lines[0]] + rest.value) else None
  }

  function JoinLines(lines: seq<string>): string {
    if lines == [] then "" else lines[0] + "\n" + JoinLines(lines[1..])
  }

  predicate IsAsciiWhitespace(c: char) {
    c == ' ' || c == '\t' || c == '\n' || c == '\r' || c == '\U{0C}'
  }

  function Compact(block: string): string {
    if block == "" then ""
    else (if IsAsciiWhitespace(block[0]) then "" else [block[0]]) + Compact(block[1..])
  }

  /** Base64 text decoded with white space skipped, as `base64 -d` and the agent do. */
  function DecodeBlock(block: string): Option<seq<Byte>> {
    Decode(Compact(block))
  }

  lemma {:induction false} SplitTypedLine(line: string, rest: string)
    requires '\r' !in line
    ensures SplitAtEnter(line + "\r" + rest) == [line] + SplitAtEnter(rest)
  {
    var text := line + "\r" + rest;
    if line == "" {
      assert text[1..] == rest;
    } else {
      assert text[1..] == line[1..] + "\r" + rest;
      SplitTypedLine(line[1..], rest);
      assert [line[0]] + line[1..] == line;
    }
  }

  lemma {:induction false} SplitTyped(lines: seq<string>)
    requires forall line :: line in lines ==> '\r' !in line
    ensures SplitAtEnter(Typed(lines)) == lines + [""]
    decreases |lines|
  {
    if lines != [] {
      SplitTyped(lines[1..]);
      SplitTypedLine(lines[0], Typed(lines[1..]));
    }
  }

  lemma {:induction false} CompactConcat(first: string, second: string)
    ensures Compact(first + second) == Compact(first) + Compact(second)
    decreases |first|
  {
    if first == "" {
      assert first + second == second;
    } else {
      CompactConcat(first[1..], second);
      assert (first + second)[0] == first[0] && (first + second)[1..] == first[1..] + second;
      var head := if IsAsciiWhitespace(first[0]) then "" else [first[0]];
      assert Compact(first + second) == head + (Compact(first[1..]) + Compact(second));
      assert Compact(first) == head + Compact(first[1..]);
    }
  }

  lemma {:induction false} CompactKeeps(text: string)
    requires forall c :: c in text ==> !IsAsciiWhitespace(c)
    ensures Compact(text) == text
  {
    if text != "" {
      CompactKeeps(text[1..]);
    }
  }

  lemma NewlineVanishes()
    ensures Compact("\n") == ""
  {
    assert "\n"[1..] == "";
  }

  lemma {:induction false} CompactJoinedChunks(text: string)
    requires forall c :: c in text ==> !IsAsciiWhitespace(c)
    ensures Compact(JoinLines(Chunks(text, SCRIPT_LINE_WIDTH))) == text
    decreases |text|
  {
    hide IsAsciiWhitespace;
    if text != "" {
      var chunks := Chunks(text, SCRIPT_LINE_WIDTH);
      var rest := if |text| <= SCRIPT_LINE_WIDTH then "" else text[SCRIPT_LINE_WIDTH..];
      assert text == chunks[0] + rest && chunks[1..] == Chunks(rest, SCRIPT_LINE_WIDTH);
      CompactKeeps(chunks[0]);
      CompactJoinedChunks(rest);
      CompactConcat(chunks[0] + "\n", JoinLines(chunks[1..]));
      CompactConcat(chunks[0], "\n");
      NewlineVanishes();
    }
  }

  lemma {:induction false} ChunkCharacters(text: string, width: nat)
    requires width > 0
    ensures forall chunk, c :: chunk in Chunks(text, width) && c in chunk ==> c in text
    ensures forall chunk :: chunk in Chunks(text, width) ==> chunk != ""
    decreases |text|
  {
    if |text| > width {
      ChunkCharacters(text[width..], width);
      forall chunk, c | chunk in Chunks(text, width) && c in chunk ensures c in text {
        if chunk in Chunks(text[width..], width) {
          assert c in text[width..];
        } else {
          assert chunk == text[..width];
        }
      }
    }
  }

  lemma {:induction false} HereDocumentBody(body: seq<string>, delimiter: string, rest: seq<string>)
    requires delimiter !in body
    ensures HereDocument(body + [delimiter] + rest, delimiter) == Some(body)
    decreases |body|
  {
    var lines := body + [delimiter] + rest;
    if body != [] {
      assert lines[1..] == body[1..] + [delimiter] + rest;
      HereDocumentBody(body[1..], delimiter, rest);
      assert [body[0]] + body[1..] == body;
    }
  }

  lemma EncodedHasNo(bytes: seq<Byte>, c: char)
    requires !Encodable(c)
    ensures c !in Encode(bytes)
  {
    EncodedCharacters(bytes);
  }

  lemma {:induction false} FixedLinesHaveNoEnter(m: TerminalScriptMarkers)
    requires WellFormed(m.token)
    ensures '\r' !in OpenLine(m) && '\r' !in m.Heredoc() && '\r' !in CloseLine(m)
  {
    TokenHasNo(m.token, '\r');
    var open, close := " sh -c \"$(base64 -d <<'", ")\"; printf '\\n%s%s%d\\n' '";
    assert '\r' !in open;
    assert '\r' !in close;
    assert '\r' !in "_X'" && '\r' !in "_X" && '\r' !in "' '" + "_E" + "' \"$?\"";
  }

  lemma TypedLinesHaveNoEnter(command: seq<Byte>, m: TerminalScriptMarkers)
    requires WellFormed(m.token)
    ensures forall line :: line in TypedLines(command, m) ==> '\r' !in line
  {
    hide OpenLine, CloseLine;
    FixedLinesHaveNoEnter(m);
    EncodedHasNo(Script(command, m), '\r');
    ChunkCharacters(Encode(Script(command, m)), SCRIPT_LINE_WIDTH);
  }

  lemma TokenHasNo(token: string, c: char)
    requires WellFormed(token) && !IsLowerHex(c) && c !in "MIAOMINAL_"
    ensures c !in token
  {
    forall k | 0 <= k < |token| ensures token[k] != c {
      if k < 10 {
        assert token[k] == token[..10][k];
      }
    }
  }

  /** The shell decodes exactly the script that was meant, for every command:
      no line of it can be mistaken for the here-document's end. */
  lemma TypedScriptDecodes(command: seq<Byte>, m: TerminalScriptMarkers)
    requires WellFormed(m.token)
    ensures var lines := SplitAtEnter(Typed(TypedLines(command, m)));
            && lines[0] == OpenLine(m)
            && var body := HereDocument(lines[1..], m.Heredoc());
               && body.Some? && DecodeBlock(JoinLines(body.value)) == Some(Script(command, m))
               && |lines| == |body.value| + 4 && lines[|body.value| + 2] == CloseLine(m)
  {
    hide Encode, Script, OpenLine, CloseLine, Compact, Decode, Chunks, SplitAtEnter, HereDocument, JoinLines;
    var script := Script(command, m);
    var encoded := Encode(script);
    var body := Chunks(encoded, SCRIPT_LINE_WIDTH);
    TypedLinesHaveNoEnter(command, m);
    SplitTyped(TypedLines(command, m));
    EncodedHasNo(script, '_');
    ChunkCharacters(encoded, SCRIPT_LINE_WIDTH);
    assert m.Heredoc()[|m.token|] == '_';
    assert '_' in m.Heredoc();
    HereDocumentBody(body, m.Heredoc(), [CloseLine(m), ""]);
    var lines := TypedLines(command, m) + [""];
    assert lines[1..] == body + [m.Heredoc()] + [CloseLine(m), ""];
    EncodedCharacters(script);
    CompactJoinedChunks(encoded);
    DecodeEncode(script);
  }

  // ---------------------------------------------------------------------
  // Recovering the output
  // ---------------------------------------------------------------------

  /** What the script wrote, and what the caller gets to read of it. */
  datatype ScriptOutput = Output(stdout: seq<Byte>, stderr: seq<Byte>, status: nat)

  datatype TerminalScriptOutput = Text(stdout: string, stderr: string, status: nat)

  function Readable(output: ScriptOutput): TerminalScriptOutput {
    Text(Utf8.FromUtf8Lossy(output.stdout), Utf8.FromUtf8Lossy(output.stderr), output.status)
  }

  datatype ScriptError =
    | NoStatus
    | TempFilesFailed
    | ScriptNotRun(status: nat)
    | CutOffBeforeStderr
    | Garbled

  function TakeDigits(text: string): (digits: string)
    ensures digits <= text
  {
    if text == "" || !Lease.IsDigit(text[0]) then "" else [text[0]] + TakeDigits(text[1..])
  }

  function DigitValue(c: char): nat {
    if Lease.IsDigit(c) then c as int - '0' as int else 0
  }

  function DigitsValue(digits: string): nat {
    if digits == "" then 0 else DigitsValue(digits[..|digits| - 1]) * 10 + DigitValue(digits[|digits| - 1])
  }

  /** A decimal number that fits a 32-bit signed integer. */
  function ParseI32(digits: string): Option<nat> {
    if digits == "" || DigitsValue(digits) > MAX_I32 then None else Some(DigitsValue(digits))
  }

  /** The number behind the last end marker; a number at the very end of the text
      may still be growing and does not count yet. */
  function TerminalScriptStatus(collected: string, m: TerminalScriptMarkers): Option<nat> {
    var position := RFind(collected, m.End());
    if position.None? then None
    else
      var after := collected[position.value + |m.End()|..];
      var digits := TakeDigits(after);
      if digits == "" || |after| == |digits| then None else ParseI32(digits)
  }

  function ParseTerminalScriptOutput(collected: string, m: TerminalScriptMarkers)
    : Result<TerminalScriptOutput, ScriptError>
  {
    var status := TerminalScriptStatus(collected, m);
    if status.None? then Err(NoStatus)
    else
      var end := RFind(collected, m.End()).value;
      var start := Find(collected[..end], m.Stdout());
      if start.None? then
        (if status.value == SCRIPT_SETUP_FAILED then Err(TempFilesFailed) else Err(ScriptNotRun(status.value)))
      else
        var body := collected[start.value + |m.Stdout()|..end];
        var split := Find(body, m.Stderr());
        if split.None? then Err(CutOffBeforeStderr)
        else
          var stdout := DecodeBlock(body[..split.value]);
          var stderr := DecodeBlock(body[split.value + |m.Stderr()|..]);
          if stdout.None? || stderr.None? then Err(Garbled)
          else Ok(Readable(Output(stdout.value, stderr.value, status.value)))
  }

  // ---------------------------------------------------------------------
  // The echo hides every marker
  // ---------------------------------------------------------------------

  predicate IsTag(c: char) { c == 'O' || c == 'R' || c == 'E' }

  function Marker(token: string, tag: char): string { token + ['_', tag] }

  ghost predicate NoMarker(text: string, token: string) {
    forall tag, at :: IsTag(tag) ==> !OccursAt(Marker(token, tag), text, at)
  }

  ghost predicate NoToken(text: string, token: string) {
    !Contains(token, text)
  }

  /** What the terminal prints for the typed lines: the shell's prompt (any
      text, but not one holding the token), the line, and a line break. */
  function Echo(prompts: seq<string>, lines: seq<string>): string
    requires |prompts| == |lines|
  {
    if lines == [] then "" else prompts[0] + lines[0] + "\r\n" + Echo(prompts[1..], lines[1..])
  }

  /** The shape of a marker's surroundings. */
  lemma MarkerShape(token: string, tag: char, text: string, at: int)
    requires WellFormed(token) && OccursAt(Marker(token, tag), text, at)
    ensures 0 < |token| && 0 <= at && at + |token| + 1 < |text|
    ensures text[at..at + |token|] == token && OccursAt(token, text, at)
    ensures text[at + |token|] == '_' && text[at + |token| + 1] == tag
    ensures IsLowerHex(text[at + |token| - 1])
  {
    var marker := Marker(token, tag);
    OccursPointwise(marker, text, at);
    assert marker[|token|] == '_' && marker[|token| + 1] == tag && marker[|token| - 1] == token[|token| - 1];
    OccursPointwise(token, text, at);
    forall k | 0 <= k < |token| ensures text[at + k] == token[k] {
      assert marker[k] == token[k];
    }
  }

  /** In a tame line every underscore before a tag stands right after a quote. */
  ghost predicate Tame(line: string) {
    forall j :: 0 <= j < |line| - 1 && line[j] == '_' && IsTag(line[j + 1]) ==> j > 0 && line[j - 1] == '\''
  }

  /** Where a marker in a prompted line must lie. */
  lemma MarkerInPromptedLine(prompt: string, line: string, token: string, tag: char, at: int)
    requires WellFormed(token) && OccursAt(Marker(token, tag), prompt + line, at)
    ensures OccursAt(token, prompt, at)
         || (line != "" && line[0] == '_')
         || (exists j :: 0 < j < |line| - 1 && line[j] == '_' && line[j + 1] == tag && IsLowerHex(line[j - 1]))
  {
    var text := prompt + line;
    MarkerShape(token, tag, text, at);
    var j := at + |token| - |prompt|;
    if 0 <= j {
      assert line[j] == text[at + |token|] && line[j + 1] == text[at + |token| + 1];
      assert j == 0 || line[j - 1] == text[at + |token| - 1];
    } else {
      assert text[0..|prompt|] == prompt;
      OccursInWindow(token, text, 0, |prompt|, at);
    }
  }

  /** A tame line shown after a token-free prompt shows no marker. */
  lemma PromptedLineHasNoMarker(prompt: string, line: string, token: string)
    requires WellFormed(token) && NoToken(prompt, token) && ShowsNone(line)
    ensures NoMarker(prompt + line, token)
  {
    forall tag, at | IsTag(tag) && OccursAt(Marker(token, tag), prompt + line, at) ensures false {
      MarkerInPromptedLine(prompt, line, token, tag, at);
    }
  }

  /** A pattern cannot straddle a character it does not contain. */
  lemma SeparatorSplits(pattern: string, before: string, separator: char, after: string, at: int)
    requires OccursAt(pattern, before + [separator] + after, at)
    ensures separator in pattern || OccursAt(pattern, before, at) || OccursAt(pattern, after, at - |before| - 1)
  {
    var text := before + [separator] + after;
    OccursPointwise(pattern, text, at);
    if at + |pattern| <= |before| {
      assert text[0..|before|] == before;
      OccursInWindow(pattern, text, 0, |before|, at);
    } else if |before| < at {
      assert text[|before| + 1..|text|] == after;
      OccursInWindow(pattern, text, |before| + 1, |text|, at - |before| - 1);
    } else {
      assert text[at + (|before| - at)] == pattern[|before| - at];
    }
  }

  lemma JoinHasNoMarker(before: string, separator: char, after: string, token: string)
    requires WellFormed(token) && NoMarker(before, token) && NoMarker(after, token)
    requires separator == '\r' || separator == '\n'
    ensures NoMarker(before + [separator] + after, token)
  {
    forall tag, at | IsTag(tag) && OccursAt(Marker(token, tag), before + [separator] + after, at) ensures false {
      SeparatorSplits(Marker(token, tag), before, separator, after, at);
    }
  }

  lemma {:induction false} EchoHasNoMarker(prompts: seq<string>, lines: seq<string>, token: string)
    requires WellFormed(token) && |prompts| == |lines|
    requires forall prompt :: prompt in prompts ==> NoToken(prompt, token)
    requires forall line :: line in lines ==> ShowsNone(line)
    ensures NoMarker(Echo(prompts, lines), token)
    decreases |lines|
  {
    hide NoMarker, NoToken, ShowsNone;
    EmptyHasNoMarker(token);
    if lines != [] {
      PromptedLineHasNoMarker(prompts[0], lines[0], token);
      EchoHasNoMarker(prompts[1..], lines[1..], token);
      var rest := Echo(prompts[1..], lines[1..]);
      JoinHasNoMarker("", '\n', rest, token);
      JoinHasNoMarker(prompts[0] + lines[0], '\r', "" + ['\n'] + rest, token);
      assert prompts[0] + lines[0] + "\r\n" + rest == prompts[0] + lines[0] + ['\r'] + ("" + ['\n'] + rest);
    }
  }

  lemma EmptyHasNoMarker(token: string)
    ensures NoMarker("", token)
  {
  }

  predicate HasNo(text: string, c: char) {
    forall k :: 0 <= k < |text| ==> text[k] != c
  }

  /** A token framed by harmless text is tame. */
  lemma FramedTokenIsTame(before: string, token: string, after: string)
    requires WellFormed(token) && HasNo(before, '_') && Tame(after)
    ensures Tame(before + token + after)
  {
    var line, start := before + token + after, |before| + |token|;
    forall j | 0 <= j < |line| - 1 && line[j] == '_' && IsTag(line[j + 1])
      ensures j > 0 && line[j - 1] == '\''
    {
      if start <= j {
        assert after[j - start] == line[j] && after[j - start + 1] == line[j + 1];
      }
    }
  }

  /** Lines whose echo, behind a prompt, can show no marker. */
  ghost predicate ShowsNone(line: string) {
    Tame(line) && (line == "" || line[0] != '_')
  }

  lemma ChunksShowNone(encoded: string)
    requires '_' !in encoded
    ensures forall line :: line in Chunks(encoded, SCRIPT_LINE_WIDTH) ==> ShowsNone(line)
  {
    hide Chunks, Tame;
    ChunkCharacters(encoded, SCRIPT_LINE_WIDTH);
    forall line | line in Chunks(encoded, SCRIPT_LINE_WIDTH)
      ensures ShowsNone(line)
    {
      assert forall k :: 0 <= k < |line| ==> line[k] in encoded;
      UnderscoreFreeIsTame(line);
    }
  }

  lemma {:induction false} TypedLinesAreTame(command: seq<Byte>, m: TerminalScriptMarkers)
    requires WellFormed(m.token)
    ensures forall line :: line in TypedLines(command, m) ==> ShowsNone(line)
  {
    hide OpenLine, CloseLine, Tame, Encode, Script, Chunks, WellFormed;
    FixedLinesAreTame(m);
    EncodedHasNo(Script(command, m), '_');
    ChunksShowNone(Encode(Script(command, m)));
  }

  lemma UnderscoreFreeIsTame(line: string)
    requires HasNo(line, '_')
    ensures Tame(line) && (line == "" || line[0] != '_')
  {
  }

  lemma {:induction false} FixedLinesAreTame(m: TerminalScriptMarkers)
    requires WellFormed(m.token)
    ensures Tame(OpenLine(m)) && OpenLine(m)[0] != '_'
    ensures Tame(m.Heredoc()) && m.Heredoc()[0] != '_'
    ensures Tame(CloseLine(m)) && CloseLine(m)[0] != '_'
  {
    var open, close, last := " sh -c \"$(base64 -d <<'", ")\"; printf '\\n%s%s%d\\n' '", "' '" + "_E" + "' \"$?\"";
    assert HasNo(open, '_');
    assert HasNo(close, '_');
    assert Tame(last);
    FramedTokenIsTame(open, m.token, "_X'");
    FramedTokenIsTame(close, m.token, last);
    FramedTokenIsTame("", m.token, "_X");
    assert "" + m.token + "_X" == m.Heredoc();
    assert m.Heredoc()[0] == m.token[..10][0];
  }

  /** Whatever is typed, and whatever the prompts look like, no marker the agent
      waits for can be found in the echo. */
  lemma {:induction false} EchoHidesMarkers(command: seq<Byte>, m: TerminalScriptMarkers, prompts: seq<string>)
    requires WellFormed(m.token) && |prompts| == |TypedLines(command, m)|
    requires forall prompt :: prompt in prompts ==> NoToken(prompt, m.token)
    ensures NoMarker(Echo(prompts, TypedLines(command, m)), m.token)
  {
    TypedLinesAreTame(command, m);
    EchoHasNoMarker(prompts, TypedLines(command, m), m.token);
  }

  /** So the echo of a command never settles the lease that waits for it. */
  lemma EchoNeverSettles(command: seq<Byte>, m: TerminalScriptMarkers, prompts: seq<string>)
    requires WellFormed(m.token) && |prompts| == |TypedLines(command, m)|
    requires forall prompt :: prompt in prompts ==> NoToken(prompt, m.token)
    ensures !Lease.Seen(Echo(prompts, TypedLines(command, m)), m.End())
  {
    hide Echo, TypedLines, WellFormed, NoToken;
    EchoHidesMarkers(command, m, prompts);
    assert m.End() == Marker(m.token, 'E');
  }

  // ---------------------------------------------------------------------
  // Round trip through a noisy terminal
  // ---------------------------------------------------------------------

  /** The decimal digits `printf %d` prints. */
  function Decimal(n: nat): (digits: string)
    ensures digits != ""
  {
    (if n < 10 then "" else Decimal(n / 10)) + [('0' as int + n % 10) as char]
  }

  /** Everything around the markers that the target and its shell decide. What
      comes before them holds the echo of what was typed. */
  datatype Noise = Noise(before: string, outBlock: string, errBlock: string, terminator: char, tail: string)

  /** The text up to and including the end marker. */
  function UpToEnd(m: TerminalScriptMarkers, noise: Noise): string {
    noise.before + m.Stdout() + noise.outBlock + m.Stderr() + noise.errBlock + m.End()
  }

  /** Everything the terminal prints while the typed script runs and after it. */
  function Printed(m: TerminalScriptMarkers, noise: Noise, status: nat): string {
    UpToEnd(m, noise) + Decimal(status) + [noise.terminator] + noise.tail
  }

  /** The noise a target may add: before the output any text without a marker,
      the two Base64 replays broken up by any white space, and after the status
      any text that does not repeat the end marker. */
  ghost predicate Harmless(m: TerminalScriptMarkers, noise: Noise, output: ScriptOutput) {
    && NoMarker(noise.before, m.token)
    && Compact(noise.outBlock) == Encode(output.stdout)
    && Compact(noise.errBlock) == Encode(output.stderr)
    && output.status <= MAX_I32
    && !Lease.IsDigit(noise.terminator)
    && !Contains(m.End(), [noise.terminator] + noise.tail)
  }

  lemma {:induction false} DecimalDigits(n: nat)
    ensures forall c :: c in Decimal(n) ==> Lease.IsDigit(c)
    ensures DigitsValue(Decimal(n)) == n
  {
    var digits := Decimal(n);
    if n < 10 {
      assert digits[..|digits| - 1] == "";
    } else {
      DecimalDigits(n / 10);
      assert digits[..|digits| - 1] == Decimal(n / 10);
    }
    assert DigitValue(digits[|digits| - 1]) == n % 10;
  }

  lemma {:induction false} TakeDigitsStops(digits: string, rest: string)
    requires forall c :: c in digits ==> Lease.IsDigit(c)
    requires rest == "" || !Lease.IsDigit(rest[0])
    ensures TakeDigits(digits + rest) == digits
  {
    if digits == "" {
      assert digits + rest == rest;
    } else {
      assert (digits + rest)[1..] == digits[1..] + rest;
      TakeDigitsStops(digits[1..], rest);
      assert [digits[0]] + digits[1..] == digits;
    }
  }

  lemma {:induction false} CompactLoses(block: string, c: char)
    requires c !in Compact(block) && !IsAsciiWhitespace(c)
    ensures c !in block
  {
    if block != "" {
      CompactLoses(block[1..], c);
      assert block == [block[0]] + block[1..];
    }
  }

  lemma TokenBringsUnderscore(token: string, text: string, at: int)
    requires WellFormed(token) && OccursAt(token, text, at)
    ensures '_' in text
  {
    OccursPointwise(token, text, at);
    assert text[at + 9] == token[9] == token[..10][9];
  }

  lemma EncodedBlockHasNoMarker(block: string, bytes: seq<Byte>, token: string)
    requires WellFormed(token) && Compact(block) == Encode(bytes)
    ensures NoMarker(block, token)
  {
    EncodedHasNo(bytes, '_');
    CompactLoses(block, '_');
    forall tag, at | IsTag(tag) && OccursAt(Marker(token, tag), block, at) ensures false {
      MarkerShape(token, tag, block, at);
      TokenBringsUnderscore(token, block, at);
    }
  }

  lemma FindIsFirst(text: string, pattern: string, at: nat)
    ensures var first := Find(text, pattern);
            && (OccursAt(pattern, text, at) ==> first.Some? && first.value <= at)
            && (first.Some? ==> OccursAt(pattern, text, first.value))
  {
  }

  /** A marker differs from every shift of itself: its `M`s do not line up. */
  lemma MarkerDiffersFromShift(token: string, tag: char, shift: nat)
    requires WellFormed(token) && IsTag(tag) && 0 < shift < |token| + 2
    ensures exists k :: 0 <= k < |token| + 2 - shift && Marker(token, tag)[shift + k] != Marker(token, tag)[k]
  {
    var marker := Marker(token, tag);
    forall k | 0 <= k < 10 ensures marker[k] == "MIAOMINAL_"[k] {
      assert marker[k] == token[k] == token[..10][k];
    }
    if marker[shift + 0] == marker[0] {
      assert shift == 4;
      assert marker[4 + 2] != marker[2];
    }
  }

  /** Two overlapping markers of one token start at the same place. */
  lemma MarkersDoNotOverlap(token: string, tag: char, other: char, text: string, at: nat, again: nat)
    requires WellFormed(token) && IsTag(tag) && IsTag(other) && at < again < at + |token| + 2
    requires OccursAt(Marker(token, tag), text, at)
    ensures !OccursAt(Marker(token, other), text, again)
  {
    hide WellFormed;
    var first, second, shift := Marker(token, tag), Marker(token, other), again - at;
    MarkerDiffersFromShift(token, tag, shift);
    var k :| 0 <= k < |token| + 2 - shift && first[shift + k] != first[k];
    OccursPointwise(first, text, at);
    assert text[at + (shift + k)] == first[shift + k];
    assert first[k] == second[k];
  }

  /** Behind marker-free text, the marker printed there is the first of its
      token; the join brings up no other. */
  lemma MarkerAfterGap(gap: string, token: string, tag: char, rest: string, other: char, at: nat)
    requires WellFormed(token) && IsTag(tag) && IsTag(other) && NoMarker(gap, token)
    requires OccursAt(Marker(token, other), gap + Marker(token, tag) + rest, at)
    ensures (at == |gap| && other == tag)
         || (|gap| + |token| + 2 <= at && OccursAt(Marker(token, other), rest, at - |gap| - |token| - 2))
  {
    hide WellFormed;
    var marker, found := Marker(token, tag), Marker(token, other);
    var text := gap + marker + rest;
    assert text[|gap|..|gap| + |marker|] == marker;
    assert OccursAt(marker, text, |gap|);
    if at + |found| <= |gap| {
      assert text[0..|gap|] == gap;
      OccursInWindow(found, text, 0, |gap|, at);
    } else if at < |gap| {
      MarkersDoNotOverlap(token, other, tag, text, at, |gap|);
    } else if at == |gap| {
      assert text[at..at + |found|] == found;
      assert found[|token| + 1] == marker[|token| + 1];
    } else if at < |gap| + |marker| {
      MarkersDoNotOverlap(token, tag, other, text, |gap|, at);
    } else {
      assert text[|gap| + |marker|..|text|] == rest;
      OccursInWindow(found, text, |gap| + |marker|, |text|, at - |gap| - |marker|);
    }
  }

  lemma FindAfterGap(gap: string, token: string, tag: char, rest: string)
    requires WellFormed(token) && IsTag(tag) && NoMarker(gap, token)
    ensures Find(gap + Marker(token, tag) + rest, Marker(token, tag)) == Some(|gap|)
  {
    hide WellFormed, NoMarker, Find;
    var marker := Marker(token, tag);
    var text := gap + marker + rest;
    assert text[|gap|..|gap| + |marker|] == marker;
    FindIsFirst(text, marker, |gap|);
    MarkerAfterGap(gap, token, tag, rest, tag, Find(text, marker).value);
  }

  /** Where an occurrence in `before + pattern + digits + rest` may lie. */
  lemma OccursBehind(before: string, pattern: string, digits: string, rest: string, at: nat)
    requires OccursAt(pattern, before + pattern + digits + rest, at)
    requires forall c :: c in digits ==> Lease.IsDigit(c)
    ensures at < |before| + |pattern|
         || OccursAt(pattern, rest, at - |before| - |pattern| - |digits|)
         || (pattern != "" ==> Lease.IsDigit(pattern[0]))
  {
    var text := before + pattern + digits + rest;
    var start, from := |before| + |pattern|, |before| + |pattern| + |digits|;
    OccursPointwise(pattern, text, at);
    if start <= at < from {
      assert text[at] == digits[at - start] && digits[at - start] in digits;
      assert pattern != "" ==> text[at + 0] == pattern[0];
    } else if from <= at {
      assert text[from..|text|] == rest;
      OccursInWindow(pattern, text, from, |text|, at - from);
    }
  }

  /** The end marker is the last one when what follows is a number and then
      text that does not repeat it. */
  lemma RFindEnd(before: string, m: TerminalScriptMarkers, digits: string, rest: string)
    requires WellFormed(m.token) && !Contains(m.End(), rest)
    requires forall c :: c in digits ==> Lease.IsDigit(c)
    ensures RFind(before + m.End() + digits + rest, m.End()) == Some(|before|)
  {
    hide WellFormed, RFind;
    var end := m.End();
    var text := before + end + digits + rest;
    assert text[|before|..|before| + |end|] == end;
    assert OccursAt(end, text, |before|);
    EndIsMarker(m);
    RFindReaches(text, end, |before|);
    var last := RFind(text, end).value;
    OccursBehind(before, end, digits, rest, last);
    if |before| < last < |before| + |end| {
      MarkerDiffersFromShift(m.token, 'E', last - |before|);
    }
  }

  lemma EndIsMarker(m: TerminalScriptMarkers)
    requires WellFormed(m.token)
    ensures m.End() == Marker(m.token, 'E') && m.End() != "" && !Lease.IsDigit(m.End()[0])
  {
    assert m.End()[0] == m.token[..10][0];
  }

  lemma RFindReaches(text: string, pattern: string, at: nat)
    requires OccursAt(pattern, text, at)
    ensures var last := RFind(text, pattern);
            last.Some? && at <= last.value && OccursAt(pattern, text, last.value)
  {
  }

  /** The status is read back exactly. */
  lemma {:induction false} StatusOfPrinted(before: string, m: TerminalScriptMarkers, status: nat, terminator: char,
      tail: string)
    requires WellFormed(m.token) && status <= MAX_I32
    requires !Lease.IsDigit(terminator) && !Contains(m.End(), [terminator] + tail)
    ensures var text := before + m.End() + Decimal(status) + ([terminator] + tail);
            && RFind(text, m.End()) == Some(|before|)
            && TerminalScriptStatus(text, m) == Some(status)
  {
    hide RFind, Contains, Decimal, WellFormed, TakeDigits, DigitsValue;
    var rest := [terminator] + tail;
    var text := before + m.End() + Decimal(status) + rest;
    DecimalDigits(status);
    RFindEnd(before, m, Decimal(status), rest);
    assert text[|before| + |m.End()|..] == Decimal(status) + rest;
    TakeDigitsStops(Decimal(status), rest);
  }

  lemma OccursInPrefix(pattern: string, part: string, whole: string, at: int)
    requires part <= whole && OccursAt(pattern, part, at)
    ensures OccursAt(pattern, whole, at)
  {
    assert whole[0..|part|] == part;
    OccursInWindow(pattern, whole, 0, |part|, at);
  }

  lemma PrefixHasNoMarker(part: string, whole: string, token: string)
    requires part <= whole && NoMarker(whole, token)
    ensures NoMarker(part, token)
  {
    forall tag, at | IsTag(tag) && OccursAt(Marker(token, tag), part, at) ensures false {
      OccursInPrefix(Marker(token, tag), part, whole, at);
    }
  }

  /** What a script printed is recovered, for every token, status and output, and
      whatever harmless noise surrounds it. */
  lemma {:induction false} OutputRoundTrips(m: TerminalScriptMarkers, noise: Noise, output: ScriptOutput)
    requires WellFormed(m.token) && Harmless(m, noise, output)
    ensures ParseTerminalScriptOutput(Printed(m, noise, output.status), m) == Ok(Readable(output))
  {
    hide NoMarker, Contains, Find, RFind, Encode, Decimal, TerminalScriptStatus, Compact, WellFormed;
    var text := Printed(m, noise, output.status);
    var inner := noise.outBlock + m.Stderr() + noise.errBlock;
    var start := noise.before + m.Stdout() + inner;
    StatusOfPrinted(start, m, output.status, noise.terminator, noise.tail);
    assert text == start + m.End() + Decimal(output.status) + ([noise.terminator] + noise.tail);
    assert text[..|start|] == start;
    assert m.Stdout() == Marker(m.token, 'O') && m.Stderr() == Marker(m.token, 'R');
    FindAfterGap(noise.before, m.token, 'O', inner);
    var body := text[|noise.before| + |m.Stdout()|..|start|];
    assert body == inner;
    EncodedBlockHasNoMarker(noise.outBlock, output.stdout, m.token);
    FindAfterGap(noise.outBlock, m.token, 'R', noise.errBlock);
    assert body[..|noise.outBlock|] == noise.outBlock;
    assert body[|noise.outBlock| + |m.Stderr()|..] == noise.errBlock;
    DecodeEncode(output.stdout);
    DecodeEncode(output.stderr);
  }

  /** And text comes back as it was written. */
  lemma {:induction false} TextRoundTrips(m: TerminalScriptMarkers, noise: Noise, text: TerminalScriptOutput)
    requires WellFormed(m.token)
    requires Harmless(m, noise, Output(Utf8.EncodeUtf8(text.stdout), Utf8.EncodeUtf8(text.stderr), text.status))
    ensures ParseTerminalScriptOutput(Printed(m, noise, text.status), m) == Ok(text)
  {
    hide WellFormed, Harmless, Printed, ParseTerminalScriptOutput, Utf8.FromUtf8Lossy, Utf8.EncodeUtf8;
    OutputRoundTrips(m, noise, Output(Utf8.EncodeUtf8(text.stdout), Utf8.EncodeUtf8(text.stderr), text.status));
    Utf8.TextSurvives(text.stdout);
    Utf8.TextSurvives(text.stderr);
  }

  lemma {:induction false} EchoEndsLine(prompts: seq<string>, lines: seq<string>)
    requires |prompts| == |lines| && lines != []
    ensures var echo := Echo(prompts, lines);
            |echo| > 0 && echo == echo[..|echo| - 1] + ['\n']
    decreases |lines|
  {
    if |lines| > 1 {
      EchoEndsLine(prompts[1..], lines[1..]);
    } else {
      assert Echo(prompts[1..], lines[1..]) == "";
    }
  }

  /** The echo of the typed lines is such noise: behind whole lines of anything
      without a marker (an earlier echo of the same input, say), and before more
      text without one. */
  lemma EchoIsHarmless(command: seq<Byte>, m: TerminalScriptMarkers, ahead: string, prompts: seq<string>, gap: string)
    requires WellFormed(m.token) && |prompts| == |TypedLines(command, m)|
    requires forall prompt :: prompt in prompts ==> NoToken(prompt, m.token)
    requires NoMarker(ahead, m.token) && NoMarker(gap, m.token)
    requires ahead == "" || ahead[|ahead| - 1] == '\n'
    ensures NoMarker(ahead + Echo(prompts, TypedLines(command, m)) + gap, m.token)
  {
    hide NoMarker, NoToken, Echo, TypedLines, WellFormed;
    var echo := Echo(prompts, TypedLines(command, m));
    EchoHidesMarkers(command, m, prompts);
    TypedLinesNotEmpty(command, m);
    EchoEndsLine(prompts, TypedLines(command, m));
    WholeLinesJoin(echo, gap, m.token);
    if ahead == "" {
      assert ahead + echo + gap == echo + gap;
    } else {
      WholeLinesJoin(ahead, echo + gap, m.token);
      assert ahead + echo + gap == ahead + (echo + gap);
    }
  }

  lemma WholeLinesJoin(lines: string, after: string, token: string)
    requires WellFormed(token) && NoMarker(lines, token) && NoMarker(after, token)
    requires lines != "" && lines[|lines| - 1] == '\n'
    ensures NoMarker(lines + after, token)
  {
    hide NoMarker;
    var start := lines[..|lines| - 1];
    PrefixHasNoMarker(start, lines, token);
    JoinHasNoMarker(start, '\n', after, token);
    assert start + ['\n'] + after == lines + after;
  }

  /** So a typed command's output comes back through its own echo, also when the
      terminal echoes the input twice: once as it is typed ahead, and once more
      when the shell gets to it. */
  lemma TypedAheadRoundTrips(command: seq<Byte>, m: TerminalScriptMarkers, prompts: seq<string>, noise: Noise,
                             output: ScriptOutput)
    requires WellFormed(m.token) && |prompts| == |TypedLines(command, m)|
    requires forall prompt :: prompt in prompts ==> NoToken(prompt, m.token)
    requires Harmless(m, noise, output)
    ensures var bare := seq(|prompts|, _ => "");
            var lines := TypedLines(command, m);
            var echoed := noise.(before := Echo(bare, lines) + Echo(prompts, lines) + noise.before);
            ParseTerminalScriptOutput(Printed(m, echoed, output.status), m) == Ok(Readable(output))
  {
    hide NoMarker, NoToken, Echo, TypedLines, WellFormed, Compact, Encode, Contains, Printed, ParseTerminalScriptOutput;
    var bare := seq(|prompts|, _ => "");
    var lines := TypedLines(command, m);
    EmptyHasNoToken(m.token);
    EchoHidesMarkers(command, m, bare);
    TypedLinesNotEmpty(command, m);
    EchoEndsLine(bare, lines);
    EchoIsHarmless(command, m, Echo(bare, lines), prompts, noise.before);
    OutputRoundTrips(m, noise.(before := Echo(bare, lines) + Echo(prompts, lines) + noise.before), output);
  }

  lemma EmptyHasNoToken(token: string)
    requires WellFormed(token)
    ensures NoToken("", token)
  {
  }

  lemma TypedLinesNotEmpty(command: seq<Byte>, m: TerminalScriptMarkers)
    ensures TypedLines(command, m) != []
  {
  }

  // ---------------------------------------------------------------------
  // Stopping at the right moment
  // ---------------------------------------------------------------------

  /** The end marker is printed exactly once. */
  lemma {:induction false} EndIsUnique(m: TerminalScriptMarkers, noise: Noise, output: ScriptOutput, at: nat)
    requires WellFormed(m.token) && Harmless(m, noise, output)
    requires OccursAt(m.End(), Printed(m, noise, output.status), at)
    ensures at + |m.End()| == |UpToEnd(m, noise)|
  {
    hide NoMarker, Contains, Encode, Decimal, Compact, WellFormed, OccursAt;
    var token := m.token;
    var closing := m.End() + Decimal(output.status) + ([noise.terminator] + noise.tail);
    var afterOut := noise.outBlock + m.Stderr() + (noise.errBlock + closing);
    assert Printed(m, noise, output.status) == noise.before + m.Stdout() + afterOut;
    EndIsMarker(m);
    assert m.Stdout() == Marker(token, 'O') && m.Stderr() == Marker(token, 'R');
    MarkerAfterGap(noise.before, token, 'O', afterOut, 'E', at);
    EncodedBlockHasNoMarker(noise.outBlock, output.stdout, token);
    var inOut := at - |noise.before| - |token| - 2;
    MarkerAfterGap(noise.outBlock, token, 'R', noise.errBlock + closing, 'E', inOut);
    EncodedBlockHasNoMarker(noise.errBlock, output.stderr, token);
    var inErr := inOut - |noise.outBlock| - |token| - 2;
    OnlyAfterErrBlock(m, noise.errBlock, output.status, [noise.terminator] + noise.tail, inErr);
  }

  lemma OnlyAfterErrBlock(m: TerminalScriptMarkers, block: string, status: nat, rest: string, at: nat)
    requires WellFormed(m.token) && NoMarker(block, m.token) && !Contains(m.End(), rest)
    requires OccursAt(m.End(), block + (m.End() + Decimal(status) + rest), at)
    ensures at == |block|
  {
    hide NoMarker, WellFormed, OccursAt, Decimal, RFind;
    var text := block + m.End() + Decimal(status) + rest;
    assert text == block + (m.End() + Decimal(status) + rest);
    EndIsMarker(m);
    assert text == block + Marker(m.token, 'E') + (Decimal(status) + rest);
    MarkerAfterGap(block, m.token, 'E', Decimal(status) + rest, 'E', at);
    DecimalDigits(status);
    RFindEnd(block, m, Decimal(status), rest);
    RFindReaches(text, m.End(), at);
  }

  lemma {:induction false} TakeDigitsAll(digits: string)
    requires forall c :: c in digits ==> Lease.IsDigit(c)
    ensures TakeDigits(digits) == digits
  {
    assert digits + "" == digits;
    TakeDigitsStops(digits, "");
  }

  /** The loop that waits for the status never stops too early, never misreads
      it, and never parses a half-printed answer: at every moment the text
      received so far has no status, or gives the complete, right output. It
      does the latter as soon as the character behind the number has arrived. */
  lemma {:induction false} NeverCutShort(m: TerminalScriptMarkers, noise: Noise, output: ScriptOutput, received: nat)
    requires WellFormed(m.token) && Harmless(m, noise, output)
    requires received <= |Printed(m, noise, output.status)|
    ensures var soFar := Printed(m, noise, output.status)[..received];
            if received <= |UpToEnd(m, noise)| + |Decimal(output.status)| then
              TerminalScriptStatus(soFar, m) == None
            else
              && TerminalScriptStatus(soFar, m) == Some(output.status)
              && ParseTerminalScriptOutput(soFar, m) == Ok(Readable(output))
  {
    hide NoMarker, Encode, Decimal, Compact, WellFormed, RFind, TakeDigits, ParseTerminalScriptOutput;
    var text := Printed(m, noise, output.status);
    var soFar := text[..received];
    var upToEnd, digits := UpToEnd(m, noise), Decimal(output.status);
    if |upToEnd| + |digits| < received {
      CutTail(m, noise, output, received);
    } else {
      DecimalDigits(output.status);
      var last := RFind(soFar, m.End());
      if last.Some? {
        RFindOccurs(soFar, m.End());
        OccursInPrefix(m.End(), soFar, text, last.value);
        EndIsUnique(m, noise, output, last.value);
        var after := soFar[last.value + |m.End()|..];
        assert after == digits[..received - |upToEnd|];
        TakeDigitsAll(after);
      }
    }
  }

  lemma RFindOccurs(text: string, pattern: string)
    requires RFind(text, pattern).Some?
    ensures OccursAt(pattern, text, RFind(text, pattern).value)
  {
  }

  /** A longer cut is the same transcript with less text behind the status. */
  lemma {:induction false} CutTail(m: TerminalScriptMarkers, noise: Noise, output: ScriptOutput, received: nat)
    requires WellFormed(m.token) && Harmless(m, noise, output)
    requires |UpToEnd(m, noise)| + |Decimal(output.status)| < received <= |Printed(m, noise, output.status)|
    ensures var soFar := Printed(m, noise, output.status)[..received];
            && TerminalScriptStatus(soFar, m) == Some(output.status)
            && ParseTerminalScriptOutput(soFar, m) == Ok(Readable(output))
  {
    hide NoMarker, Encode, Decimal, Compact, WellFormed, RFind, Find, TakeDigits;
    var keep := received - |UpToEnd(m, noise)| - |Decimal(output.status)| - 1;
    var cut := noise.(tail := noise.tail[..keep]);
    assert UpToEnd(m, cut) == UpToEnd(m, noise);
    assert Printed(m, cut, output.status) == Printed(m, noise, output.status)[..received];
    assert [cut.terminator] + cut.tail <= [noise.terminator] + noise.tail;
    forall at | OccursAt(m.End(), [cut.terminator] + cut.tail, at) ensures false {
      OccursInPrefix(m.End(), [cut.terminator] + cut.tail, [noise.terminator] + noise.tail, at);
    }
    assert Harmless(m, cut, output);
    OutputRoundTrips(m, cut, output);
  }

  // ---------------------------------------------------------------------
  // Nothing is invented
  // ---------------------------------------------------------------------

  /** Where a text holds a marker, it comes apart there. */
  lemma ComesApart(text: string, marker: string, at: nat)
    requires OccursAt(marker, text, at)
    ensures 0 <= at && at + |marker| <= |text|
    ensures text == text[..at] + marker + text[at + |marker|..]
  {
    assert text[at..at + |marker|] == marker;
  }

  lemma AreDigits(text: string)
    ensures forall k :: 0 <= k < |TakeDigits(text)| ==> Lease.IsDigit(TakeDigits(text)[k])
    ensures |TakeDigits(text)| < |text| ==> !Lease.IsDigit(text[|TakeDigits(text)|])
  {
  }

  lemma BlockIsEncoding(block: string)
    requires DecodeBlock(block).Some?
    ensures Compact(block) == Encode(DecodeBlock(block).value)
  {
    EncodeDecode(Compact(block));
  }

  /** For all text: whatever is parsed stood in it, both outputs in base64 behind
      their markers, then the end marker and the status, with more behind it. */
  lemma {:induction false} ParsedFromTheText(collected: string, m: TerminalScriptMarkers)
      returns (before: string, outBlock: string, errBlock: string, digits: string, after: string, output: ScriptOutput)
    requires ParseTerminalScriptOutput(collected, m).Ok?
    ensures collected == before + m.Stdout() + outBlock + m.Stderr() + errBlock + m.End() + (digits + after)
    ensures Compact(outBlock) == Encode(output.stdout) && Compact(errBlock) == Encode(output.stderr)
    ensures digits != "" && (forall k :: 0 <= k < |digits| ==> Lease.IsDigit(digits[k]))
    ensures output.status == DigitsValue(digits) <= MAX_I32 && after != "" && !Lease.IsDigit(after[0])
    ensures ParseTerminalScriptOutput(collected, m) == Ok(Readable(output))
  {
    hide Encode, Compact, DecodeBlock, FindFrom, RFindBelow, TakeDigits, DigitsValue, OccursAt, Readable;
    var end := RFind(collected, m.End()).value;
    ComesApart(collected, m.End(), end);
    var front, behind := collected[..end], collected[end + |m.End()|..];
    digits := TakeDigits(behind);
    AreDigits(behind);
    after := behind[|digits|..];
    var start := Find(front, m.Stdout()).value;
    ComesApart(front, m.Stdout(), start);
    before := front[..start];
    var body := front[start + |m.Stdout()|..];
    var split := Find(body, m.Stderr()).value;
    ComesApart(body, m.Stderr(), split);
    outBlock, errBlock := body[..split], body[split + |m.Stderr()|..];
    BlockIsEncoding(outBlock);
    BlockIsEncoding(errBlock);
    output := Output(DecodeBlock(outBlock).value, DecodeBlock(errBlock).value, DigitsValue(digits));
  }

  /** Both markers, one behind the other. */
  ghost predicate InOrder(text: string, m: TerminalScriptMarkers) {
    exists i, j :: OccursAt(m.Stdout(), text, i) && i + |m.Stdout()| <= j && OccursAt(m.Stderr(), text, j)
  }

  /** And every error tells what is missing in front of the end marker. */
  lemma {:induction false} ErrorsTellWhatIsMissing(front: string, m: TerminalScriptMarkers, status: nat,
                                                   terminator: char, tail: string)
    requires WellFormed(m.token) && status <= MAX_I32
    requires !Lease.IsDigit(terminator) && !Contains(m.End(), [terminator] + tail)
    ensures var parsed := ParseTerminalScriptOutput(front + m.End() + Decimal(status) + ([terminator] + tail), m);
            && (!Contains(m.Stdout(), front) ==>
                  parsed == Err(if status == 125 then TempFilesFailed else ScriptNotRun(status)))
            && (Contains(m.Stdout(), front) && !InOrder(front, m) ==> parsed == Err(CutOffBeforeStderr))
            && (InOrder(front, m) ==> parsed == Err(Garbled) || (parsed.Ok? && parsed.value.status == status))
  {
    hide Contains, Decimal, WellFormed, TakeDigits, DigitsValue, TerminalScriptStatus, DecodeBlock, RFindBelow;
    hide FindFrom;
    var text := front + m.End() + Decimal(status) + ([terminator] + tail);
    StatusOfPrinted(front, m, status, terminator, tail);
    assert text[..|front|] == front;
    MarkersFound(front, m);
  }

  lemma MarkersFound(front: string, m: TerminalScriptMarkers)
    ensures Find(front, m.Stdout()).Some? <==> Contains(m.Stdout(), front)
    ensures Find(front, m.Stdout()).Some? ==>
              var start := Find(front, m.Stdout()).value;
              && start + |m.Stdout()| <= |front|
              && (Find(front[start + |m.Stdout()|..], m.Stderr()).Some? <==> InOrder(front, m))
  {
    hide FindFrom;
    if Find(front, m.Stdout()).Some? {
      var start := Find(front, m.Stdout()).value;
      var lo := start + |m.Stdout()|;
      assert OccursAt(m.Stdout(), front, start);
      var body := front[lo..];
      assert front[lo..|front|] == body;
      if Find(body, m.Stderr()).Some? {
        OccursInWindow(m.Stderr(), front, lo, |front|, Find(body, m.Stderr()).value);
      }
      if InOrder(front, m) {
        var i, j :| OccursAt(m.Stdout(), front, i) && i + |m.Stdout()| <= j && OccursAt(m.Stderr(), front, j);
        OccursInWindow(m.Stderr(), front, lo, |front|, j - lo);
      }
    }
  }
}
