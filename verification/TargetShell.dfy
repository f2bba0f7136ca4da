/** What a POSIX target does with the typed input: its interactive shell reads the
    here-document and runs what it decodes to, statement by statement. Only the
    constructs that the input is made of are interpreted; anything else is stuck. */
module TargetShell {
  import opened Results
  import opened Search
  import opened Base64
  import opened TerminalScript
  import opened Utf8
  import Lease = TerminalLease

  /** What the target decides: the temporary files it can make, the text that its
      grammar takes for the command list in the parentheses and what that list
      writes and returns, its line ends, and how its `base64` breaks lines. */
  datatype Target = Target(
    temps: seq<string>,
    list: string,
    output: ScriptOutput,
    eol: string,
    replay: seq<Byte> -> string)

  ghost predicate Sound(t: Target) {
    && (|t.temps| >= 2 ==> t.temps[0] != t.temps[1])
    && t.output.status <= MAX_I32
    && t.eol != "" && (forall k :: 0 <= k < |t.eol| ==> IsAsciiWhitespace(t.eol[k]))
    && forall bytes :: Compact(t.replay(bytes)) == Encode(bytes)
  }

  datatype Value = Path(path: string) | Number(number: nat)

  datatype Word = Literal(text: string) | LastStatus

  datatype Statement =
    | MakeTemps(first: string, second: string, failure: nat)
    | Redirect(out: string, err: string)
    | SaveStatus(name: string)
    | Printf(words: seq<Word>)
    | ReplayFile(name: string)
    | Remove(first: string, second: string)
    | Exit(name: string)

  datatype Shell = Shell(
    variables: map<string, Value>,
    files: map<string, seq<Byte>>,
    printed: string,
    last: nat,
    exited: Option<nat>)

  const FRESH_SHELL := Shell(map[], map[], "", 0, None)

  // ---------------------------------------------------------------------
  // Reading statements
  // ---------------------------------------------------------------------

  function TakeName(text: string): (name: string)
    ensures name <= text
  {
    if text == "" || !('a' <= text[0] <= 'z') then "" else [text[0]] + TakeName(text[1..])
  }

  /** What stands behind a name and a given text, if they come next. */
  function Behind(text: string, name: string, then_: string): Option<string> {
    if name != "" && name + then_ <= text then Some(text[|name| + |then_|..]) else None
  }

  /** The characters up to the closing quote. */
  function Quoted(text: string): Option<string> {
    if text == "" then None
    else if text[0] == '\'' then Some("")
    else
      var rest := Quoted(text[1..]);
      if rest.Some? then Some([text[0]] + rest.value) else None
  }

  function WordsOf(text: string): Option<seq<Word>>
    decreases |text|
  {
    if text == "" then Some([])
    else if text[0] == ' ' then WordsOf(text[1..])
    else if "\"$?\"" <= text then
      var rest := WordsOf(text[4..]);
      if rest.Some? then Some([LastStatus] + rest.value) else None
    else if text[0] == '\'' then
      var word := Quoted(text[1..]);
      if word.None? || |text| < |word.value| + 2 then None
      else
        var rest := WordsOf(text[|word.value| + 2..]);
        if rest.Some? then Some([Literal(word.value)] + rest.value) else None
    else None
  }

  function TwoNames(text: string, between: string, behind: string): Option<(string, string)> {
    var first := TakeName(text);
    var rest := Behind(text, first, between);
    if rest.None? then None
    else
      var second := TakeName(rest.value);
      if second != "" && rest.value == second + behind then Some((first, second)) else None
  }

  function MakeTempsOf(line: string): Option<Statement> {
    var first := TakeName(line);
    var rest := Behind(line, first, "=$(mktemp) && ");
    if rest.None? then None
    else
      var second := TakeName(rest.value);
      var failure := Behind(rest.value, second, "=$(mktemp) || exit ");
      if failure.None? || failure.value == "" || TakeDigits(failure.value) != failure.value then None
      else Some(MakeTemps(first, second, DigitsValue(failure.value)))
  }

  function RedirectOf(line: string): Option<Statement> {
    if !(") </dev/null >\"$" <= line) then None
    else
      var names := TwoNames(line[|") </dev/null >\"$"|..], "\" 2>\"$", "\"");
      if names.Some? then Some(Redirect(names.value.0, names.value.1)) else None
  }

  function PrintfOf(line: string): Option<Statement> {
    if !("printf " <= line) then None
    else
      var words := WordsOf(line[|"printf "|..]);
      if words.Some? then Some(Printf(words.value)) else None
  }

  function ReplayOf(line: string): Option<Statement> {
    if !("base64 <\"$" <= line) then None
    else
      var rest := line[|"base64 <\"$"|..];
      var name := TakeName(rest);
      if name != "" && rest == name + "\"" then Some(ReplayFile(name)) else None
  }

  function RemoveOf(line: string): Option<Statement> {
    if !("rm -f \"$" <= line) then None
    else
      var names := TwoNames(line[|"rm -f \"$"|..], "\" \"$", "\"");
      if names.Some? then Some(Remove(names.value.0, names.value.1)) else None
  }

  function ExitOf(line: string): Option<Statement> {
    if "exit $" <= line && line[|"exit $"|..] != "" && TakeName(line[|"exit $"|..]) == line[|"exit $"|..] then
      Some(Exit(line[|"exit $"|..]))
    else None
  }

  function SaveOf(line: string): Option<Statement> {
    var name := TakeName(line);
    if name != "" && line == name + "=$?" then Some(SaveStatus(name)) else None
  }

  function StatementOf(line: string): Option<Statement> {
    if PrintfOf(line).Some? then PrintfOf(line)
    else if ReplayOf(line).Some? then ReplayOf(line)
    else if RemoveOf(line).Some? then RemoveOf(line)
    else if ExitOf(line).Some? then ExitOf(line)
    else if RedirectOf(line).Some? then RedirectOf(line)
    else if SaveOf(line).Some? then SaveOf(line)
    else MakeTempsOf(line)
  }

  // ---------------------------------------------------------------------
  // Running them
  // ---------------------------------------------------------------------

  function TextOfWord(word: Word, last: nat): string {
    match word
    case Literal(text) => text
    case LastStatus => Decimal(last)
  }

  /** The `printf` of the formats in use: `\n`, `%s` and `%d`. */
  function Formatted(format: string, words: seq<Word>, last: nat, eol: string): string {
    if |format| < 2 then format
    else if format[..2] == "\\n" then eol + Formatted(format[2..], words, last, eol)
    else if (format[..2] == "%s" || format[..2] == "%d") && words != [] then
      TextOfWord(words[0], last) + Formatted(format[2..], words[1..], last, eol)
    else [format[0]] + Formatted(format[1..], words, last, eol)
  }

  predicate IsFile(sh: Shell, name: string) {
    name in sh.variables && sh.variables[name].Path? && sh.variables[name].path in sh.files
  }

  /** One statement; `None` where it has no meaning. */
  function Execute(st: Statement, sh: Shell, t: Target): Option<Shell> {
    match st
    case MakeTemps(first, second, failure) =>
      // The shell ends where a file cannot be made; one made before stays.
      if t.temps == [] then Some(sh.(exited := Some(failure)))
      else if |t.temps| == 1 then
        Some(sh.(variables := sh.variables[first := Path(t.temps[0])],
                 files := sh.files[t.temps[0] := []], exited := Some(failure)))
      else
        Some(sh.(variables := sh.variables[first := Path(t.temps[0])][second := Path(t.temps[1])],
                 files := sh.files[t.temps[0] := []][t.temps[1] := []], last := 0))
    // The list in the parentheses was run: its output is in the files.
    case Redirect(out, err) =>
      if !IsFile(sh, out) || !IsFile(sh, err) then None
      else
        Some(sh.(files := sh.files[sh.variables[out].path := t.output.stdout]
                                  [sh.variables[err].path := t.output.stderr],
                 last := t.output.status))
    case SaveStatus(name) => Some(sh.(variables := sh.variables[name := Number(sh.last)], last := 0))
    case Printf(words) =>
      if words == [] || !words[0].Literal? then None
      else Some(sh.(printed := sh.printed + Formatted(words[0].text, words[1..], sh.last, t.eol), last := 0))
    case ReplayFile(name) =>
      if !IsFile(sh, name) then None
      else Some(sh.(printed := sh.printed + t.replay(sh.files[sh.variables[name].path]), last := 0))
    case Remove(first, second) =>
      if !IsFile(sh, first) || !IsFile(sh, second) then None
      else Some(sh.(files := sh.files - {sh.variables[first].path, sh.variables[second].path}, last := 0))
    case Exit(name) =>
      if name in sh.variables && sh.variables[name].Number? then
        Some(sh.(exited := Some(sh.variables[name].number)))
      else None
  }

  function FirstLine(text: string): (line: string)
    ensures line <= text
    ensures |line| < |text| ==> text[|line|] == '\n'
  {
    if text == "" || text[0] == '\n' then "" else [text[0]] + FirstLine(text[1..])
  }

  /** The text behind the first line. */
  function BehindLine(text: string): (rest: string)
    ensures text != "" ==> |rest| < |text|
  {
    var line := FirstLine(text);
    if |line| == |text| then "" else text[|line| + 1..]
  }

  /** A script, statement by statement. An open parenthesis is followed by the list
      that the grammar finds there, and by its redirections. */
  function RunScript(text: string, sh: Shell, t: Target): Option<Shell>
    decreases |text|
  {
    if sh.exited.Some? || text == "" then Some(sh)
    else if "( " <= text then
      var inside := "( " + t.list + "\n";
      if !(inside <= text) then None
      else
        var rest := text[|inside|..];
        var st := RedirectOf(FirstLine(rest));
        var next := if st.Some? then Execute(st.value, sh, t) else None;
        if next.Some? then RunScript(BehindLine(rest), next.value, t) else None
    else
      var st := StatementOf(FirstLine(text));
      var next := if st.Some? then Execute(st.value, sh, t) else None;
      if next.Some? then RunScript(BehindLine(text), next.value, t) else None
  }

  /** Command substitution drops trailing line ends. */
  function Substituted(text: string): string {
    if text != "" && text[|text| - 1] == '\n' then Substituted(text[..|text| - 1]) else text
  }

  function Text(bytes: seq<Byte>): (text: string)
    ensures |text| == |bytes| && forall k :: 0 <= k < |text| ==> text[k] == bytes[k] as char
  {
    seq(|bytes|, k requires 0 <= k < |bytes| => bytes[k] as char)
  }

  /** The interactive shell: a line that hands a quoted here-document to `base64 -d`
      and what it decodes to to `sh -c`, and, behind that, one more statement. */
  function Interactive(input: string, t: Target): Option<Shell> {
    var lines := SplitAtEnter(input);
    var open := " sh -c \"$(base64 -d <<'";
    if !(open <= lines[0]) || Quoted(lines[0][|open|..]).None? then None
    else
      var delimiter := Quoted(lines[0][|open|..]).value;
      var body := HereDocument(lines[1..], delimiter);
      if lines[0] != open + delimiter + "'" || body.None? || |lines| < |body.value| + 3 then None
      else
        var decoded := DecodeBlock(JoinLines(body.value));
        var closing := lines[|body.value| + 2];
        if decoded.None? || !(")\"; " <= closing) then None
        else
          var ran := RunScript(Substituted(Text(decoded.value)), FRESH_SHELL, t);
          var st := StatementOf(closing[|")\"; "|..]);
          if ran.None? || st.None? then None
          else
            var status := if ran.value.exited.Some? then ran.value.exited.value else ran.value.last;
            Execute(st.value, ran.value.(last := status, variables := map[], exited := None), t)
  }

  // ---------------------------------------------------------------------
  // Reading the script's lines
  // ---------------------------------------------------------------------

  const TEMPS_LINE := "o=$(mktemp) && e=$(mktemp) || exit 125"
  const REDIRECT_LINE := ") </dev/null >\"$o\" 2>\"$e\""
  const SAVE_LINE := "s=$?"
  const REMOVE_LINE := "rm -f \"$o\" \"$e\""
  const EXIT_LINE := "exit $s"

  function ReplayLine(name: char): string {
    "base64 <\"$" + [name] + "\""
  }

  function MarkerLine(marker: string): string {
    "printf '%s\\n' '" + marker + "'"
  }

  lemma OneName(c: char, rest: string)
    requires 'a' <= c <= 'z' && (rest == "" || !('a' <= rest[0] <= 'z'))
    ensures TakeName([c] + rest) == [c]
  {
    assert ([c] + rest)[1..] == rest;
    assert TakeName(rest) == "";
  }

  lemma OnlyTemps(line: string)
    requires line != "" && line[0] == 'o' && TakeName(line) == "o" && |line| > 5
    ensures StatementOf(line) == MakeTempsOf(line)
  {
    hide MakeTempsOf, TakeName, WordsOf;
  }

  lemma TempsLineStarts()
    ensures TEMPS_LINE[0] == 'o' && |TEMPS_LINE| > 5
    ensures TEMPS_LINE[1..] == "=$(mktemp) && e=$(mktemp) || exit 125"
    ensures TakeName(TEMPS_LINE) == "o"
  {
    var rest := "=$(mktemp) && e=$(mktemp) || exit 125";
    assert TEMPS_LINE[0] == 'o' && TEMPS_LINE[1..] == rest && ['o'] + rest == TEMPS_LINE;
    OneName('o', rest);
  }

  lemma TempsLineGoesOn()
    ensures TakeName("e=$(mktemp) || exit 125") == "e"
    ensures Behind("e=$(mktemp) || exit 125", "e", "=$(mktemp) || exit ") == Some("125")
  {
    var rest := "=$(mktemp) || exit 125";
    OneName('e', rest);
    assert "e=$(mktemp) || exit 125" == ['e'] + rest;
  }

  lemma ReadTemps()
    ensures StatementOf(TEMPS_LINE) == Some(MakeTemps("o", "e", 125))
  {
    hide StatementOf, TakeName, TakeDigits, DigitsValue;
    TempsLineStarts();
    OnlyTemps(TEMPS_LINE);
    assert Behind(TEMPS_LINE, "o", "=$(mktemp) && ") == Some("e=$(mktemp) || exit 125");
    TempsLineGoesOn();
    Digits125();
  }

  lemma Digits125()
    ensures TakeDigits("125") == "125" && DigitsValue("125") == 125
  {
    assert "125"[1..] == "25" && "25"[1..] == "5" && "5"[1..] == "";
    assert TakeDigits("") == "" && TakeDigits("5") == "5" && TakeDigits("25") == "25";
    assert "125"[..2] == "12" && "12"[..1] == "1" && "1"[..0] == "";
    assert DigitsValue("") == 0 && DigitsValue("1") == 1 && DigitsValue("12") == 12;
  }

  lemma ReadTwo(first: char, second: char, between: string, behind: string)
    requires 'a' <= first <= 'z' && 'a' <= second <= 'z'
    requires between != "" && !('a' <= between[0] <= 'z') && behind != "" && !('a' <= behind[0] <= 'z')
    ensures TwoNames([first] + between + [second] + behind, between, behind) == Some(([first], [second]))
  {
    var text := [first] + between + [second] + behind;
    OneName(first, between + [second] + behind);
    assert text == [first] + (between + [second] + behind);
    OneName(second, behind);
    assert [first] + between <= text && text[1 + |between|..] == [second] + behind;
  }

  lemma ReadRedirect()
    ensures RedirectOf(REDIRECT_LINE) == Some(Redirect("o", "e"))
  {
    ReadTwo('o', 'e', "\" 2>\"$", "\"");
    assert REDIRECT_LINE[|") </dev/null >\"$"|..] == ['o'] + "\" 2>\"$" + ['e'] + "\"";
  }

  lemma ReadSave()
    ensures StatementOf(SAVE_LINE) == Some(SaveStatus("s"))
  {
    OneName('s', "=$?");
    assert SAVE_LINE == ['s'] + "=$?";
  }

  lemma ReadReplay(name: char)
    requires 'a' <= name <= 'z'
    ensures StatementOf(ReplayLine(name)) == Some(ReplayFile([name]))
  {
    OneName(name, "\"");
    var line := ReplayLine(name);
    assert line[|"base64 <\"$"|..] == [name] + "\"";
    assert line[0] == 'b';
  }

  lemma ReadRemove()
    ensures StatementOf(REMOVE_LINE) == Some(Remove("o", "e"))
  {
    ReadTwo('o', 'e', "\" \"$", "\"");
    assert REMOVE_LINE[|"rm -f \"$"|..] == ['o'] + "\" \"$" + ['e'] + "\"";
  }

  lemma ReadExit()
    ensures StatementOf(EXIT_LINE) == Some(Exit("s"))
  {
    OneName('s', "");
    assert EXIT_LINE[|"exit $"|..] == ['s'] + "";
  }

  lemma {:induction false} ReadQuoted(word: string, rest: string)
    requires '\'' !in word
    ensures Quoted(word + "'" + rest) == Some(word)
  {
    var text := word + "'" + rest;
    if word != "" {
      ReadQuoted(word[1..], rest);
      assert text[1..] == word[1..] + "'" + rest;
      assert text[0] == word[0] && word[0] in word;
      assert [word[0]] + word[1..] == word;
    }
  }

  lemma ReadWord(word: string, rest: string)
    requires '\'' !in word && WordsOf(rest).Some?
    ensures WordsOf("'" + word + "'" + rest) == Some([Literal(word)] + WordsOf(rest).value)
  {
    hide Quoted;
    var text := "'" + word + "'" + rest;
    ReadQuoted(word, rest);
    Unquoted(word, rest);
    assert text[0] == '\'' && !("\"$?\"" <= text);
  }

  lemma Unquoted(word: string, rest: string)
    ensures var text := "'" + word + "'" + rest;
            && |text| >= |word| + 2 && text[0] == '\''
            && text[1..] == word + "'" + rest && text[|word| + 2..] == rest
  {
  }

  lemma ReadSpace(rest: string)
    ensures WordsOf(" " + rest) == WordsOf(rest)
  {
    assert (" " + rest)[1..] == rest;
  }

  lemma ReadMarkerLine(marker: string)
    requires '\'' !in marker
    ensures StatementOf(MarkerLine(marker)) == Some(Printf([Literal("%s\\n"), Literal(marker)]))
  {
    hide WordsOf;
    var rest := " " + ("'" + marker + "'" + "");
    WordsOfNothing();
    ReadWord(marker, "");
    ReadSpace("'" + marker + "'" + "");
    ReadWord("%s\\n", rest);
    var line := MarkerLine(marker);
    assert line[|"printf "|..] == "'" + "%s\\n" + "'" + rest;
    assert [Literal("%s\\n")] + ([Literal(marker)] + []) == [Literal("%s\\n"), Literal(marker)];
  }

  lemma WordsOfNothing()
    ensures WordsOf("") == Some([])
  {
  }

  // ---------------------------------------------------------------------
  // Running them, line by line
  // ---------------------------------------------------------------------

  lemma {:induction false} FirstOf(line: string, rest: string)
    requires '\n' !in line
    ensures FirstLine(line + "\n" + rest) == line && BehindLine(line + "\n" + rest) == rest
    ensures FirstLine(line) == line && BehindLine(line) == ""
  {
    var text := line + "\n" + rest;
    if line != "" {
      FirstOf(line[1..], rest);
      assert text[1..] == line[1..] + "\n" + rest;
      assert [line[0]] + line[1..] == line;
    }
    assert text[|line| + 1..] == rest;
  }

  lemma RunLine(line: string, rest: string, st: Statement, sh: Shell, t: Target)
    requires '\n' !in line && line != "" && line[0] != '(' && StatementOf(line) == Some(st)
    requires sh.exited.None? && Execute(st, sh, t).Some?
    ensures RunScript(line + "\n" + rest, sh, t) == RunScript(rest, Execute(st, sh, t).value, t)
    ensures RunScript(line, sh, t) == RunScript("", Execute(st, sh, t).value, t)
  {
    hide StatementOf, Execute, FirstLine, BehindLine;
    FirstOf(line, rest);
    var text := line + "\n" + rest;
    assert text[0] == line[0];
  }

  lemma RunList(line: string, rest: string, st: Statement, sh: Shell, t: Target)
    requires '\n' !in line && RedirectOf(line) == Some(st)
    requires sh.exited.None? && Execute(st, sh, t).Some?
    ensures RunScript("( " + t.list + "\n" + (line + "\n" + rest), sh, t)
         == RunScript(rest, Execute(st, sh, t).value, t)
  {
    hide RedirectOf, Execute, FirstLine, BehindLine;
    var inside := "( " + t.list + "\n";
    var text := inside + (line + "\n" + rest);
    assert text[|inside|..] == line + "\n" + rest;
    assert text[..2] == "( ";
    FirstOf(line, rest);
  }

  lemma Ended(text: string, sh: Shell, t: Target)
    ensures sh.exited.Some? || text == "" ==> RunScript(text, sh, t) == Some(sh)
  {
  }

  /** A marker and a file behind it. */
  function ReplayLines(marker: string, name: char, rest: string): string {
    MarkerLine(marker) + "\n" + (ReplayLine(name) + "\n" + rest)
  }

  const ENDING_LINES := REMOVE_LINE + "\n" + EXIT_LINE

  /** Everything behind the list in parentheses. */
  function BehindTheList(m: TerminalScriptMarkers, ending: string): string {
    SAVE_LINE + "\n" + ReplayLines(m.Stdout(), 'o', ReplayLines(m.Stderr(), 'e', ending))
  }

  /** The script's text, as `sh -c` gets it. */
  function ScriptText(command: string, m: TerminalScriptMarkers, ending: string): string {
    TEMPS_LINE + "\n" + ("( " + command + "\n" + (REDIRECT_LINE + "\n" + BehindTheList(m, ending)))
  }

  /** What the replaying lines print. */
  function Replayed(m: TerminalScriptMarkers, t: Target): string {
    m.Stdout() + t.eol + t.replay(t.output.stdout) + m.Stderr() + t.eol + t.replay(t.output.stderr)
  }

  lemma FormatMarker(marker: string, last: nat, eol: string)
    ensures Formatted("%s\\n", [Literal(marker)], last, eol) == marker + eol
  {
    var format := "%s\\n";
    assert format[..2] == "%s" && format[2..] == "\\n" && "\\n"[..2] == "\\n" && "\\n"[2..] == "";
    assert [Literal(marker)][1..] == [];
    assert Formatted("", [], last, eol) == "";
    assert Formatted("\\n", [], last, eol) == eol + "" == eol;
  }

  lemma MarkersAreQuotable(m: TerminalScriptMarkers)
    requires WellFormed(m.token)
    ensures '\'' !in m.token && '\'' !in m.Stdout() && '\'' !in m.Stderr() && '\'' !in m.Heredoc()
    ensures '\n' !in MarkerLine(m.Stdout()) && '\n' !in MarkerLine(m.Stderr())
  {
    TokenHasNo(m.token, '\'');
    TokenHasNo(m.token, '\n');
    assert '\n' !in "printf '%s\\n' '" && '\n' !in "'" && '\n' !in "_O" && '\n' !in "_R";
    assert '\'' !in "_O" && '\'' !in "_R" && '\'' !in "_X";
  }

  lemma RunPair(marker: string, name: char, rest: string, sh: Shell, t: Target)
    requires 'a' <= name <= 'z' && name != '\n' && '\'' !in marker && '\n' !in MarkerLine(marker)
    requires sh.exited.None? && IsFile(sh, [name])
    ensures RunScript(ReplayLines(marker, name, rest), sh, t)
         == RunScript(rest, sh.(printed := sh.printed + (marker + t.eol)
                                          + t.replay(sh.files[sh.variables[[name]].path]), last := 0), t)
  {
    hide StatementOf, RunScript, Formatted, MarkerLine, ReplayLine;
    var mark := Printf([Literal("%s\\n"), Literal(marker)]);
    ReadMarkerLine(marker);
    MarkerLineStarts(marker);
    FormatMarker(marker, sh.last, t.eol);
    assert [Literal("%s\\n"), Literal(marker)][1..] == [Literal(marker)];
    RunLine(MarkerLine(marker), ReplayLine(name) + "\n" + rest, mark, sh, t);
    ReadReplay(name);
    ReplayLineStarts(name);
    RunLine(ReplayLine(name), rest, ReplayFile([name]), Execute(mark, sh, t).value, t);
  }

  lemma ReplayLineStarts(name: char)
    requires name != '\n'
    ensures ReplayLine(name) != "" && ReplayLine(name)[0] == 'b' && '\n' !in ReplayLine(name)
  {
  }

  lemma RunEnding(sh: Shell, t: Target)
    requires sh.exited.None? && IsFile(sh, "o") && IsFile(sh, "e")
    requires "s" in sh.variables && sh.variables["s"].Number?
    requires sh.files.Keys == {sh.variables["o"].path, sh.variables["e"].path}
    ensures RunScript(ENDING_LINES, sh, t)
         == Some(sh.(files := map[], last := 0, exited := Some(sh.variables["s"].number)))
  {
    hide StatementOf, RunScript;
    ReadRemove();
    ReadExit();
    RunLine(REMOVE_LINE, EXIT_LINE, Remove("o", "e"), sh, t);
    var removed := Execute(Remove("o", "e"), sh, t).value;
    assert removed.files == map[];
    RunLine(EXIT_LINE, "", Exit("s"), removed, t);
    Ended("", Execute(Exit("s"), removed, t).value, t);
  }

  /** What the temporary files hold once the list has run. */
  function Filled(t: Target): Shell
    requires |t.temps| >= 2
  {
    Shell(map["o" := Path(t.temps[0]), "e" := Path(t.temps[1])],
          map[t.temps[0] := t.output.stdout, t.temps[1] := t.output.stderr], "", t.output.status, None)
  }

  /** With the two files in place, the rest prints both outputs behind their
      markers, removes the files and exits with the list's status. */
  lemma {:induction false} RunReplay(m: TerminalScriptMarkers, t: Target)
    requires WellFormed(m.token) && |t.temps| >= 2 && t.temps[0] != t.temps[1]
    ensures var ran := RunScript(BehindTheList(m, ENDING_LINES), Filled(t), t);
            ran.Some? && ran.value.files == map[] && ran.value.printed == Replayed(m, t)
            && ran.value.exited == Some(t.output.status)
  {
    hide StatementOf, RunScript, ReplayLines, MarkerLine;
    MarkersAreQuotable(m);
    ReadSave();
    var replays := ReplayLines(m.Stderr(), 'e', ENDING_LINES);
    var sh := Filled(t);
    RunLine(SAVE_LINE, ReplayLines(m.Stdout(), 'o', replays), SaveStatus("s"), sh, t);
    var saved := Execute(SaveStatus("s"), sh, t).value;
    assert ['o'] == "o" && ['e'] == "e";
    RunPair(m.Stdout(), 'o', replays, saved, t);
    var one := saved.(printed := "" + (m.Stdout() + t.eol) + t.replay(t.output.stdout), last := 0);
    RunPair(m.Stderr(), 'e', ENDING_LINES, one, t);
    var two := one.(printed := one.printed + (m.Stderr() + t.eol) + t.replay(t.output.stderr), last := 0);
    RunEnding(two, t);
    assert two.printed == Replayed(m, t);
  }

  /** The shell once the files are made. */
  function Made(t: Target): Shell
    requires |t.temps| >= 2
  {
    Shell(map["o" := Path(t.temps[0]), "e" := Path(t.temps[1])], map[t.temps[0] := [], t.temps[1] := []], "", 0, None)
  }

  lemma MakesTemps(t: Target)
    requires |t.temps| >= 2
    ensures Execute(MakeTemps("o", "e", 125), FRESH_SHELL, t) == Some(Made(t))
  {
    assert map["o" := Path(t.temps[0])]["e" := Path(t.temps[1])] == Made(t).variables;
    assert map[t.temps[0] := []][t.temps[1] := []] == Made(t).files;
  }

  lemma FillsTemps(t: Target)
    requires |t.temps| >= 2 && t.temps[0] != t.temps[1]
    ensures Execute(Redirect("o", "e"), Made(t), t) == Some(Filled(t))
  {
    assert "o" != "e";
    assert Made(t).files[t.temps[0] := t.output.stdout][t.temps[1] := t.output.stderr] == Filled(t).files;
  }

  lemma RunSetup(command: string, rest: string, t: Target)
    requires t.list == command && |t.temps| >= 2 && t.temps[0] != t.temps[1]
    ensures RunScript(TEMPS_LINE + "\n" + ("( " + command + "\n" + (REDIRECT_LINE + "\n" + rest)), FRESH_SHELL, t)
         == RunScript(rest, Filled(t), t)
  {
    hide StatementOf, RunScript, RedirectOf, Execute, Made, Filled, TEMPS_LINE, REDIRECT_LINE;
    FixedLinesArePlain();
    ReadTemps();
    ReadRedirect();
    MakesTemps(t);
    FillsTemps(t);
    MadeGoesOn(t);
    var list := "( " + command + "\n" + (REDIRECT_LINE + "\n" + rest);
    RunLine(TEMPS_LINE, list, MakeTemps("o", "e", 125), FRESH_SHELL, t);
    RunList(REDIRECT_LINE, rest, Redirect("o", "e"), Made(t), t);
  }

  lemma FixedLinesArePlain()
    ensures '\n' !in TEMPS_LINE && TEMPS_LINE != "" && TEMPS_LINE[0] == 'o'
    ensures '\n' !in REDIRECT_LINE
  {
  }

  lemma MadeGoesOn(t: Target)
    requires |t.temps| >= 2
    ensures Made(t).exited.None? && FRESH_SHELL.exited.None?
  {
  }

  /** The files that a run leaves behind: none, unless only the first could be made. */
  function Leftover(t: Target): map<string, seq<Byte>> {
    if |t.temps| == 1 then map[t.temps[0] := []] else map[]
  }

  lemma FailsToMake(t: Target) returns (failed: Shell)
    requires |t.temps| < 2
    ensures Execute(MakeTemps("o", "e", 125), FRESH_SHELL, t) == Some(failed)
    ensures failed.printed == "" && failed.files == Leftover(t) && failed.exited == Some(125)
  {
    failed := Execute(MakeTemps("o", "e", 125), FRESH_SHELL, t).value;
  }

  lemma RunFailedSetup(text: string, t: Target) returns (failed: Shell)
    requires |t.temps| < 2
    ensures RunScript(TEMPS_LINE + "\n" + text, FRESH_SHELL, t) == Some(failed)
    ensures failed.printed == "" && failed.files == Leftover(t) && failed.exited == Some(125)
  {
    hide StatementOf, RunScript, Execute, Leftover, TEMPS_LINE;
    FixedLinesArePlain();
    ReadTemps();
    failed := FailsToMake(t);
    RunLine(TEMPS_LINE, text, MakeTemps("o", "e", 125), FRESH_SHELL, t);
    Ended(text, failed, t);
  }

  lemma {:induction false} RunWhole(command: string, m: TerminalScriptMarkers, t: Target)
    requires WellFormed(m.token) && t.list == command && (|t.temps| >= 2 ==> t.temps[0] != t.temps[1])
    ensures var ran := RunScript(ScriptText(command, m, ENDING_LINES), FRESH_SHELL, t);
            && ran.Some? && ran.value.files == Leftover(t)
            && (if |t.temps| < 2 then ran.value.printed == "" && ran.value.exited == Some(125)
                else ran.value.printed == Replayed(m, t) && ran.value.exited == Some(t.output.status))
  {
    hide RunScript, BehindTheList, WellFormed;
    var rest := BehindTheList(m, ENDING_LINES);
    if |t.temps| >= 2 {
      RunSetup(command, rest, t);
      RunReplay(m, t);
    } else {
      var _ := RunFailedSetup("( " + command + "\n" + (REDIRECT_LINE + "\n" + rest), t);
    }
  }

  lemma MarkerLineStarts(marker: string)
    ensures MarkerLine(marker) != "" && MarkerLine(marker)[0] == 'p'
  {
  }

  // ---------------------------------------------------------------------
  // From the typed bytes to the script
  // ---------------------------------------------------------------------

  lemma TextAppend(bytes: seq<Byte>, more: seq<Byte>)
    ensures Text(bytes + more) == Text(bytes) + Text(more)
  {
  }

  lemma TextOfAscii(text: string)
    requires IsRaw(text)
    ensures Text(Ascii(text)) == text && Text(Bytes(text)) == text
  {
  }

  lemma DropsNewline(text: string)
    requires text != "" && text[|text| - 1] != '\n'
    ensures Substituted(text + "\n") == text
  {
    assert (text + "\n")[..|text|] == text;
  }

  lemma Regroup(one: string, two: string, three: string)
    ensures one + two + three == one + (two + three)
  {
  }

  lemma EndMoves(marker: string, name: char, rest: string)
    ensures ReplayLines(marker, name, rest + "\n") == ReplayLines(marker, name, rest) + "\n"
  {
    hide MarkerLine, ReplayLine;
    Regroup(ReplayLine(name) + "\n", rest, "\n");
    Regroup(MarkerLine(marker) + "\n", ReplayLine(name) + "\n" + rest, "\n");
  }

  lemma {:induction false} AllEndMoves(command: string, m: TerminalScriptMarkers)
    ensures ScriptText(command, m, ENDING_LINES + "\n") == ScriptText(command, m, ENDING_LINES) + "\n"
  {
    hide ReplayLines;
    var errLines := ReplayLines(m.Stderr(), 'e', ENDING_LINES);
    var outLines := ReplayLines(m.Stdout(), 'o', errLines);
    EndMoves(m.Stderr(), 'e', ENDING_LINES);
    EndMoves(m.Stdout(), 'o', errLines);
    Regroup(SAVE_LINE + "\n", outLines, "\n");
    var rest := BehindTheList(m, ENDING_LINES);
    Regroup(REDIRECT_LINE + "\n", rest, "\n");
    Regroup("( " + command + "\n", REDIRECT_LINE + "\n" + rest, "\n");
    Regroup(TEMPS_LINE + "\n", "( " + command + "\n" + (REDIRECT_LINE + "\n" + rest), "\n");
  }

  lemma EndIsLines(m: TerminalScriptMarkers)
    ensures ScriptEnd(m) == REDIRECT_LINE + "\n" + BehindTheList(m, ENDING_LINES + "\n")
  {
    assert ReplayLine('o') == "base64 <\"$o\"" && ReplayLine('e') == "base64 <\"$e\"";
    Regroup(REMOVE_LINE + "\n", EXIT_LINE, "\n");
  }

  lemma {:induction false} EndIsRaw(m: TerminalScriptMarkers)
    requires WellFormed(m.token)
    ensures IsRaw("\n" + ScriptEnd(m))
  {
    hide ScriptEnd, BehindTheList, ReplayLines, MarkerLine, ReplayLine, WellFormed;
    EndIsLines(m);
    MarkersAreRaw(m);
    LinesAreRaw(m.Stderr(), 'e', ENDING_LINES + "\n");
    LinesAreRaw(m.Stdout(), 'o', ReplayLines(m.Stderr(), 'e', ENDING_LINES + "\n"));
    BehindIsRaw(m, ENDING_LINES + "\n");
  }

  lemma BehindIsRaw(m: TerminalScriptMarkers, ending: string)
    requires IsRaw(ReplayLines(m.Stdout(), 'o', ReplayLines(m.Stderr(), 'e', ending)))
    ensures IsRaw("\n" + (REDIRECT_LINE + "\n" + BehindTheList(m, ending)))
  {
    hide ReplayLines;
  }

  lemma LinesAreRaw(marker: string, name: char, rest: string)
    requires IsRaw(marker) && 'a' <= name <= 'z' && IsRaw(rest)
    ensures IsRaw(ReplayLines(marker, name, rest))
  {
  }

  lemma MarkersAreRaw(m: TerminalScriptMarkers)
    requires WellFormed(m.token)
    ensures IsRaw(m.Stdout()) && IsRaw(m.Stderr())
  {
    forall k | 0 <= k < |m.token|
      ensures m.token[k] as int < 0x100
    {
      if k < 10 {
        assert m.token[k] == m.token[..10][k];
      }
    }
  }

  /** What the agent encodes is, after the substitution, the script's text. */
  lemma {:induction false} ScriptIsText(command: string, m: TerminalScriptMarkers)
    requires IsRaw(command) && WellFormed(m.token)
    ensures Substituted(Text(Script(Bytes(command), m))) == ScriptText(command, m, ENDING_LINES)
  {
    hide WellFormed, Text, Ascii, Bytes, Substituted, ScriptEnd, BehindTheList;
    var head, end := TEMPS_LINE + "\n" + "( ", "\n" + ScriptEnd(m);
    EndIsRaw(m);
    EndIsLines(m);
    TextOfAscii(head);
    TextOfAscii(command);
    TextOfAscii(end);
    TextAppend(Ascii(head), Bytes(command));
    TextAppend(Ascii(head) + Bytes(command), Ascii(end));
    HeadAndEnd(command, m, ScriptEnd(m));
    AllEndMoves(command, m);
    LastIsNoNewline(command, m);
    DropsNewline(ScriptText(command, m, ENDING_LINES));
  }

  lemma HeadAndEnd(command: string, m: TerminalScriptMarkers, end: string)
    ensures TEMPS_LINE + "\n" + "( " + command + ("\n" + end) == TEMPS_LINE + "\n" + ("( " + command + "\n" + end)
  {
    Regroup(TEMPS_LINE + "\n", "( ", command);
    Regroup("( " + command, "\n", end);
    Regroup(TEMPS_LINE + "\n", "( " + command, "\n" + end);
  }

  lemma LastIsNoNewline(command: string, m: TerminalScriptMarkers)
    ensures var text := ScriptText(command, m, ENDING_LINES);
            text != "" && text[|text| - 1] != '\n'
  {
    hide ReplayLine, MarkerLine;
    assert EXIT_LINE[|EXIT_LINE| - 1] == 's';
  }

  // ---------------------------------------------------------------------
  // The lines around it
  // ---------------------------------------------------------------------

  const END_FORMAT := "\\n%s%s%d\\n"

  lemma {:induction false} ReadClosing(m: TerminalScriptMarkers)
    requires WellFormed(m.token)
    ensures ")\"; " <= CloseLine(m)
    ensures StatementOf(CloseLine(m)[|")\"; "|..])
         == Some(Printf([Literal(END_FORMAT), Literal(m.token), Literal("_E"), LastStatus]))
  {
    hide WordsOf, WellFormed;
    MarkersAreQuotable(m);
    var status := " " + "\"$?\"";
    var suffix := " " + ("'" + "_E" + "'" + status);
    var token := " " + ("'" + m.token + "'" + suffix);
    ReadStatus();
    ReadSpace("\"$?\"");
    ReadWord("_E", status);
    ReadSpace("'" + "_E" + "'" + status);
    ReadWord(m.token, suffix);
    ReadSpace("'" + m.token + "'" + suffix);
    ReadWord(END_FORMAT, token);
    var line := CloseLine(m)[|")\"; "|..];
    ClosingParts(m);
    assert line[|"printf "|..] == "'" + END_FORMAT + "'" + token;
    assert [Literal(END_FORMAT)] + ([Literal(m.token)] + ([Literal("_E")] + [LastStatus]))
        == [Literal(END_FORMAT), Literal(m.token), Literal("_E"), LastStatus];
  }

  lemma ReadStatus()
    ensures WordsOf("\"$?\"") == Some([LastStatus])
  {
    WordsOfNothing();
    var text := "\"$?\"";
    assert text[4..] == "" && text[0] == '"' && text <= text;
    assert [LastStatus] + [] == [LastStatus];
  }

  lemma ClosingParts(m: TerminalScriptMarkers)
    ensures ")\"; " <= CloseLine(m)
    ensures "printf " <= CloseLine(m)[|")\"; "|..]
    ensures CloseLine(m)[|")\"; "|..][|"printf "|..] ==
            "'" + END_FORMAT + "'" + (" " + ("'" + m.token + "'" + (" " + ("'" + "_E" + "'" + (" " + "\"$?\"")))))
  {
    var close := "'" + (" " + ("'" + "_E" + "'" + (" " + "\"$?\"")));
    var start := "'" + END_FORMAT + "'" + " " + "'";
    assert CloseLine(m) == ")\"; " + "printf " + start + m.token + close;
    Regroup(")\"; " + "printf ", start, m.token);
    Regroup(")\"; " + "printf ", start + m.token, close);
    Regroup(")\"; ", "printf ", start + m.token + close);
    EndWords(m.token, close);
  }

  lemma EndWords(token: string, close: string)
    requires close != "" && close[0] == '\''
    ensures "'" + END_FORMAT + "'" + " " + "'" + token + close
         == "'" + END_FORMAT + "'" + (" " + ("'" + token + "'" + close[1..]))
  {
    assert close == "'" + close[1..];
  }

  lemma FormatEnd(token: string, last: nat, eol: string)
    ensures Formatted(END_FORMAT, [Literal(token), Literal("_E"), LastStatus], last, eol)
         == eol + (token + ("_E" + (Decimal(last) + eol)))
  {
    hide Decimal;
    var words := [Literal(token), Literal("_E"), LastStatus];
    assert words[1..] == [Literal("_E"), LastStatus] && words[1..][1..] == [LastStatus] && [LastStatus][1..] == [];
    assert END_FORMAT[..2] == "\\n" && END_FORMAT[2..] == "%s%s%d\\n";
    assert "%s%s%d\\n"[..2] == "%s" && "%s%s%d\\n"[2..] == "%s%d\\n";
    assert "%s%d\\n"[..2] == "%s" && "%s%d\\n"[2..] == "%d\\n";
    assert "%d\\n"[..2] == "%d" && "%d\\n"[2..] == "\\n";
    assert "\\n"[..2] == "\\n" && "\\n"[2..] == "";
    assert Formatted("", [], last, eol) == "";
    assert Formatted("\\n", [], last, eol) == eol + "" == eol;
    assert Formatted("%d\\n", [LastStatus], last, eol) == Decimal(last) + eol;
    assert Formatted("%s%d\\n", words[1..], last, eol) == "_E" + (Decimal(last) + eol);
  }

  lemma ReadOpening(m: TerminalScriptMarkers)
    requires WellFormed(m.token)
    ensures var open := " sh -c \"$(base64 -d <<'";
            open <= OpenLine(m) && Quoted(OpenLine(m)[|open|..]) == Some(m.Heredoc())
            && OpenLine(m) == open + m.Heredoc() + "'"
  {
    hide WellFormed, Quoted;
    var open := " sh -c \"$(base64 -d <<'";
    MarkersAreQuotable(m);
    ReadQuoted(m.Heredoc(), "");
    assert OpenLine(m)[|open|..] == m.Heredoc() + "'" + "";
  }

  /** What the target prints of its own accord. */
  function Shown(m: TerminalScriptMarkers, t: Target): string {
    (if |t.temps| < 2 then "" else Replayed(m, t))
    + (t.eol + (m.token + ("_E" + (Decimal(if |t.temps| < 2 then 125 else t.output.status) + t.eol))))
  }

  /** Typed into the shell, the input prints both outputs and the status between their
      markers, or the end marker alone, with the status for a setup that failed. It
      leaves no files behind, unless the first could be made and the second not. */
  lemma {:induction false} TypedInputRuns(command: string, m: TerminalScriptMarkers, t: Target)
    requires WellFormed(m.token) && Sound(t) && IsRaw(command) && t.list == command
    ensures var ran := Interactive(Typed(TypedLines(Bytes(command), m)), t);
            ran.Some? && ran.value.printed == Shown(m, t) && ran.value.files == Leftover(t)
  {
    hide WellFormed, StatementOf, RunScript, Typed, TypedLines, SplitAtEnter, HereDocument, JoinLines, DecodeBlock;
    hide Quoted, Script, ScriptText, Substituted, Text, OpenLine, CloseLine, Formatted, Replayed, Decimal, Bytes;
    TypedScriptDecodes(Bytes(command), m);
    ReadOpening(m);
    ScriptIsText(command, m);
    RunWhole(command, m, t);
    ReadClosing(m);
    var status := if |t.temps| < 2 then 125 else t.output.status;
    var words := [Literal(END_FORMAT), Literal(m.token), Literal("_E"), LastStatus];
    assert words[1..] == [Literal(m.token), Literal("_E"), LastStatus];
    FormatEnd(m.token, status, t.eol);
  }

  // ---------------------------------------------------------------------
  // What comes back
  // ---------------------------------------------------------------------

  lemma {:induction false} CompactBlank(blank: string)
    requires forall k :: 0 <= k < |blank| ==> IsAsciiWhitespace(blank[k])
    ensures Compact(blank) == ""
  {
    if blank != "" {
      CompactBlank(blank[1..]);
    }
  }

  lemma BlankAround(blank: string, block: string)
    requires forall k :: 0 <= k < |blank| ==> IsAsciiWhitespace(blank[k])
    ensures Compact(blank + block) == Compact(block) && Compact(blank + block + blank) == Compact(block)
  {
    CompactBlank(blank);
    CompactConcat(blank, block);
    CompactConcat(blank + block, blank);
    assert "" + Compact(block) == Compact(block) && Compact(block) + "" == Compact(block);
  }

  lemma OccursBehindBlank(m: TerminalScriptMarkers, blank: string, after: string, at: nat)
    requires WellFormed(m.token) && OccursAt(m.End(), blank + after, at)
    requires forall k :: 0 <= k < |blank| ==> IsAsciiWhitespace(blank[k])
    ensures OccursAt(m.End(), after, at - |blank|)
  {
    var text := blank + after;
    assert m.End()[0] == m.token[..10][0] == 'M';
    assert text[at..at + |m.End()|][0] == text[at];
    assert at >= |blank|;
    assert text[at..at + |m.End()|] == after[at - |blank|..at - |blank| + |m.End()|];
  }

  lemma EndBehindBlank(m: TerminalScriptMarkers, blank: string, after: string)
    requires WellFormed(m.token) && !Contains(m.End(), after)
    requires forall k :: 0 <= k < |blank| ==> IsAsciiWhitespace(blank[k])
    ensures !Contains(m.End(), blank + after)
  {
    hide OccursAt, WellFormed;
    if at: nat :| OccursAt(m.End(), blank + after, at) {
      OccursBehindBlank(m, blank, after, at);
    }
    OccursFromZero(m.End(), blank + after);
  }

  lemma OccursFromZero(pattern: string, text: string)
    ensures forall at :: OccursAt(pattern, text, at) ==> at >= 0
  {
  }

  /** The transcript: anything without a marker, what the target prints of its own
      accord, and anything without the end marker. */
  function Transcript(before: string, m: TerminalScriptMarkers, t: Target, after: string): string {
    before + Shown(m, t) + after
  }

  /** It is a transcript of just that output and status. */
  lemma {:induction false} TranscriptIsPrinted(before: string, m: TerminalScriptMarkers, t: Target, after: string)
      returns (noise: Noise)
    requires WellFormed(m.token) && Sound(t) && |t.temps| >= 2
    requires NoMarker(before, m.token) && !Contains(m.End(), after)
    ensures Transcript(before, m, t, after) == Printed(m, noise, t.output.status)
    ensures Harmless(m, noise, t.output)
    ensures |UpToEnd(m, noise)| + |Decimal(t.output.status)| == |before| + |Shown(m, t)| - |t.eol|
  {
    hide NoMarker, Contains, Encode, Compact, Decimal, WellFormed;
    var eol := t.eol;
    var out, err := t.replay(t.output.stdout), t.replay(t.output.stderr);
    noise := Noise(before, eol + out, eol + err + eol, eol[0], eol[1..] + after);
    BlankAround(eol, out);
    BlankAround(eol, err);
    EndBehindBlank(m, eol, after);
    assert [eol[0]] + (eol[1..] + after) == eol + after by {
      Regroup([eol[0]], eol[1..], after);
      assert [eol[0]] + eol[1..] == eol;
    }
    SameText(m, t, noise, after);
    ShownParts(m, t, noise.outBlock, noise.errBlock);
  }

  lemma ShownParts(m: TerminalScriptMarkers, t: Target, outBlock: string, errBlock: string)
    requires |t.temps| >= 2
    requires outBlock == t.eol + t.replay(t.output.stdout) && errBlock == t.eol + t.replay(t.output.stderr) + t.eol
    ensures Shown(m, t) == m.Stdout() + outBlock + m.Stderr() + errBlock + m.End() + Decimal(t.output.status) + t.eol
  {
    hide Decimal;
    var eol, status := t.eol, Decimal(t.output.status);
    var out, err := t.replay(t.output.stdout), t.replay(t.output.stderr);
    var front := m.Stdout() + outBlock + m.Stderr();
    Regroup(m.Stdout(), eol, out);
    Regroup(front, eol, err);
    assert Replayed(m, t) == front + (eol + err);
    Regroup(front, eol + err, eol);
  }

  lemma SameText(m: TerminalScriptMarkers, t: Target, noise: Noise, after: string)
    requires |t.temps| >= 2
    requires noise.outBlock == t.eol + t.replay(t.output.stdout)
    requires noise.errBlock == t.eol + t.replay(t.output.stderr) + t.eol
    requires [noise.terminator] + noise.tail == t.eol + after
    ensures Transcript(noise.before, m, t, after) == Printed(m, noise, t.output.status)
  {
    hide Decimal, Shown;
    var status := Decimal(t.output.status);
    var shown := m.Stdout() + noise.outBlock + m.Stderr() + noise.errBlock + m.End() + status;
    ShownParts(m, t, noise.outBlock, noise.errBlock);
    Regroup(noise.before, shown, t.eol);
    Regroup(noise.before + shown, t.eol, after);
    Regroup(UpToEnd(m, noise) + status, [noise.terminator], noise.tail);
  }

  /** Whatever a command writes and returns, typing it into the shell and reading
      the terminal gives the agent exactly that output, read as text, and that
      status; and no temporary file is left behind. */
  lemma {:induction false} CommandOutputComesBack(command: string, m: TerminalScriptMarkers, t: Target, before: string,
                                                  after: string)
    requires WellFormed(m.token) && Sound(t) && |t.temps| >= 2 && IsRaw(command) && t.list == command
    requires NoMarker(before, m.token) && !Contains(m.End(), after)
    ensures var ran := Interactive(Typed(TypedLines(Bytes(command), m)), t);
            && ran.Some? && ran.value.files == map[]
            && ParseTerminalScriptOutput(before + ran.value.printed + after, m) == Ok(Readable(t.output))
  {
    hide WellFormed, Sound, NoMarker, Contains, Interactive, Typed, TypedLines, Bytes, Harmless, Printed, Shown;
    hide ParseTerminalScriptOutput, Readable;
    TypedInputRuns(command, m, t);
    var noise := TranscriptIsPrinted(before, m, t, after);
    OutputRoundTrips(m, noise, t.output);
  }

  /** Where the target cannot make both temporary files, the agent is told so; if it
      could make one, that one stays behind. */
  lemma {:induction false} FailedSetupIsReported(command: string, m: TerminalScriptMarkers, t: Target, before: string,
                                                 after: string)
    requires WellFormed(m.token) && Sound(t) && |t.temps| < 2 && IsRaw(command) && t.list == command
    requires NoMarker(before + t.eol, m.token) && !Contains(m.End(), after)
    ensures var ran := Interactive(Typed(TypedLines(Bytes(command), m)), t);
            && ran.Some? && ran.value.files == (if t.temps == [] then map[] else map[t.temps[0] := []])
            && ParseTerminalScriptOutput(before + ran.value.printed + after, m) == Err(TempFilesFailed)
  {
    hide WellFormed, NoMarker, Contains, Interactive, Typed, TypedLines, Bytes, Decimal, Find, RFind;
    hide TerminalScriptStatus;
    TypedInputRuns(command, m, t);
    var start, eol := before + t.eol, t.eol;
    EndBehindBlank(m, eol, after);
    assert [eol[0]] + (eol[1..] + after) == eol + after by {
      Regroup([eol[0]], eol[1..], after);
      assert [eol[0]] + eol[1..] == eol;
    }
    StatusOfPrinted(start, m, 125, eol[0], eol[1..] + after);
    var text := before + Shown(m, t) + after;
    FailedText(m, t, before, after);
    assert text[..|start|] == start;
    NoStdoutMarker(start, m);
  }

  lemma FailedText(m: TerminalScriptMarkers, t: Target, before: string, after: string)
    requires |t.temps| < 2
    ensures before + Shown(m, t) + after == before + t.eol + m.End() + Decimal(125) + (t.eol + after)
  {
    hide Decimal;
    assert Shown(m, t) == t.eol + m.End() + Decimal(125) + t.eol;
  }

  lemma NoStdoutMarker(text: string, m: TerminalScriptMarkers)
    requires NoMarker(text, m.token)
    ensures Find(text, m.Stdout()).None?
  {
    assert m.Stdout() == Marker(m.token, 'O');
  }
}
