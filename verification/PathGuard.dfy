/** Paths of an agent's workspace, and quoting strings for the remote shell. */
module PathGuard {
  import opened Results

  // -------------------------------------------------------------------
  // Strings
  // -------------------------------------------------------------------

  /** The characters with the Unicode property White_Space. */
  predicate IsWhite(c: char) {
    || '\t' <= c <= '\r' || c == ' ' || c == '\U{85}' || c == '\U{A0}' || c == '\U{1680}'
    || '\U{2000}' <= c <= '\U{200A}' || c == '\U{2028}' || c == '\U{2029}' || c == '\U{202F}'
    || c == '\U{205F}' || c == '\U{3000}'
  }

  function TrimStart(s: string): (r: string)
    ensures |r| <= |s| && r == s[|s| - |r|..]
    ensures r != [] ==> !IsWhite(r[0])
  {
    if s != [] && IsWhite(s[0]) then TrimStart(s[1..]) else s
  }

  function TrimEnd(s: string): (r: string)
    ensures |r| <= |s| && r == s[..|r|]
    ensures r != [] ==> !IsWhite(r[|r| - 1])
  {
    if s != [] && IsWhite(s[|s| - 1]) then TrimEnd(s[..|s| - 1]) else s
  }

  function Trim(s: string): (r: string)
    ensures |r| <= |s|
    ensures r != [] ==> !IsWhite(r[0]) && !IsWhite(r[|r| - 1])
    ensures forall k :: 0 <= k < |r| ==> r[k] in s
  {
    TrimEnd(TrimStart(s))
  }

  predicate AllWhite(s: string) {
    forall k :: 0 <= k < |s| ==> IsWhite(s[k])
  }

  lemma {:induction false} TrimStartDropsWhite(s: string)
    ensures AllWhite(s[..|s| - |TrimStart(s)|])
  {
    if s != "" && IsWhite(s[0]) {
      TrimStartDropsWhite(s[1..]);
      var kept := TrimStart(s[1..]);
      forall k | 0 <= k < |s| - |kept|
        ensures IsWhite(s[k])
      {
        if k > 0 {
          assert s[1..][..|s| - 1 - |kept|][k - 1] == s[k];
        }
      }
    }
  }

  lemma {:induction false} TrimEndDropsWhite(s: string)
    ensures AllWhite(s[|TrimEnd(s)|..])
  {
    if s != "" && IsWhite(s[|s| - 1]) {
      TrimEndDropsWhite(s[..|s| - 1]);
      var kept := TrimEnd(s[..|s| - 1]);
      forall k | |kept| <= k < |s|
        ensures IsWhite(s[k])
      {
        if k < |s| - 1 {
          assert s[..|s| - 1][|kept|..][k - |kept|] == s[k];
        }
      }
    }
  }

  /** Trimming drops white space at both ends, all of it and nothing else. */
  lemma TrimIsExact(s: string) returns (lead: string, trail: string)
    ensures s == lead + Trim(s) + trail && AllWhite(lead) && AllWhite(trail)
    ensures Trim(s) != "" ==> !IsWhite(Trim(s)[0]) && !IsWhite(Trim(s)[|Trim(s)| - 1])
  {
    hide TrimStart, TrimEnd, IsWhite;
    var started := TrimStart(s);
    lead, trail := s[..|s| - |started|], started[|Trim(s)|..];
    TrimStartDropsWhite(s);
    TrimEndDropsWhite(started);
    Regroup(lead, Trim(s), trail);
  }

  lemma Regroup(one: string, two: string, three: string)
    ensures one + two + three == one + (two + three)
  {
  }

  lemma TrimOfTrimmed(s: string)
    requires s == [] || (!IsWhite(s[0]) && !IsWhite(s[|s| - 1]))
    ensures Trim(s) == s
  {
  }

  /** Replaces every occurrence of a character. */
  function Replace(s: string, c: char, sub: string): string {
    if s == "" then "" else (if s[0] == c then sub else [s[0]]) + Replace(s[1..], c, sub)
  }

  lemma {:induction false} ReplaceAppend(s: string, t: string, c: char, sub: string)
    ensures Replace(s + t, c, sub) == Replace(s, c, sub) + Replace(t, c, sub)
  {
    if s == "" {
      assert s + t == t;
    } else {
      assert (s + t)[1..] == s[1..] + t;
      ReplaceAppend(s[1..], t, c, sub);
    }
  }

  /** Backslashes become slashes, one for one. */
  lemma {:induction false} SlashesAt(s: string)
    ensures |Replace(s, '\\', "/")| == |s|
    ensures forall k :: 0 <= k < |s| ==> Replace(s, '\\', "/")[k] == if s[k] == '\\' then '/' else s[k]
  {
    if s != "" {
      SlashesAt(s[1..]);
    }
  }

  // -------------------------------------------------------------------
  // Segments
  // -------------------------------------------------------------------

  /** The segments between slashes; there is always at least one. */
  function Split(s: string): (r: seq<string>)
    ensures |r| > 0
  {
    if s == "" then [""]
    else if s[0] == '/' then [""] + Split(s[1..])
    else var rest := Split(s[1..]); [[s[0]] + rest[0]] + rest[1..]
  }

  function Join(parts: seq<string>): string {
    if parts == [] then "" else if |parts| == 1 then parts[0] else parts[0] + "/" + Join(parts[1..])
  }

  /** The segments that name something. */
  function Named(segments: seq<string>): (r: seq<string>)
    ensures forall k :: 0 <= k < |r| ==> r[k] in segments && r[k] != "" && r[k] != "."
  {
    if segments == [] then []
    else (if segments[0] == "" || segments[0] == "." then [] else [segments[0]]) + Named(segments[1..])
  }

  predicate Slashless(parts: seq<string>) {
    forall k :: 0 <= k < |parts| ==> '/' !in parts[k]
  }

  lemma {:induction false} SplitIsSlashless(s: string)
    ensures Slashless(Split(s))
    ensures forall k :: 0 <= k < |Split(s)| ==> forall c :: c in Split(s)[k] ==> c in s
  {
    if s != "" {
      SplitIsSlashless(s[1..]);
      var rest := Split(s[1..]);
      var head := if s[0] == '/' then [""] + rest else [[s[0]] + rest[0]] + rest[1..];
      assert Split(s) == head;
      forall k | 0 <= k < |head|
        ensures '/' !in head[k] && forall c :: c in head[k] ==> c in s
      {
        if s[0] == '/' {
          assert k > 0 ==> head[k] == rest[k - 1];
        } else {
          assert k > 0 ==> head[k] == rest[k];
          assert k == 0 ==> head[k] == [s[0]] + rest[0];
        }
      }
    }
  }

  lemma {:induction false} SplitOne(part: string, rest: string)
    requires '/' !in part
    ensures Split(part) == [part]
    ensures Split(part + "/" + rest) == [part] + Split(rest)
  {
    if part == "" {
      assert part + "/" + rest == "/" + rest && ("/" + rest)[1..] == rest;
    } else {
      SplitOne(part[1..], rest);
      assert (part + "/" + rest)[1..] == part[1..] + "/" + rest;
      assert [part[0]] + part[1..] == part;
    }
  }

  lemma {:induction false} SplitOfJoin(parts: seq<string>)
    requires parts != [] && Slashless(parts)
    ensures Split(Join(parts)) == parts
  {
    if |parts| == 1 {
      SplitOne(parts[0], "");
    } else {
      var rest := parts[1..];
      assert Slashless(rest) by {
        forall k | 0 <= k < |rest|
          ensures '/' !in rest[k]
        {
          assert rest[k] == parts[k + 1];
        }
      }
      SplitOfJoin(rest);
      SplitOne(parts[0], Join(rest));
    }
  }

  predicate AllNamed(parts: seq<string>) {
    forall k :: 0 <= k < |parts| ==> parts[k] != "" && parts[k] != "."
  }

  lemma {:induction false} NamedOfNamed(parts: seq<string>)
    requires AllNamed(parts)
    ensures Named(parts) == parts
  {
    if parts != [] {
      NamedOfNamed(parts[1..]);
    }
  }

  // -------------------------------------------------------------------
  // Resolving
  // -------------------------------------------------------------------

  datatype PathError = HomeExpansion | ControlCharacters | Escapes

  predicate HasControl(s: string) {
    '\0' in s || '\n' in s || '\r' in s
  }

  function Slashed(path: string): string {
    Replace(Trim(path), '\\', "/")
  }

  function Parts(path: string): seq<string> {
    Named(Split(Slashed(path)))
  }

  predicate Absolute(path: string) {
    Slashed(path) != "" && Slashed(path)[0] == '/'
  }

  function Rooted(absolute: bool, parts: seq<string>): string {
    if parts == [] then "." else if absolute then "/" + Join(parts) else Join(parts)
  }

  function Resolve(path: string): Result<string, PathError> {
    var trimmed := Trim(path);
    if trimmed == "" || trimmed == "." then Ok(".")
    else if trimmed[0] == '~' then Err(HomeExpansion)
    else if HasControl(trimmed) then Err(ControlCharacters)
    else if ".." in Split(Slashed(path)) then Err(Escapes)
    else Ok(Rooted(Absolute(path), Parts(path)))
  }

  lemma NoneNamed(segments: seq<string>)
    requires segments == []
    ensures Named(segments) == []
  {
  }

  lemma NamedStep(segments: seq<string>, i: nat)
    requires i < |segments|
    ensures Named(segments[i..])
        == (if segments[i] == "" || segments[i] == "." then [] else [segments[i]]) + Named(segments[i + 1..])
  {
    assert segments[i..][1..] == segments[i + 1..];
  }

  method ResolveWorkspacePath(path: string) returns (r: Result<string, PathError>)
    ensures r == Resolve(path)
  {
    hide Trim, Replace, Split, Named, Join;
    var trimmed := Trim(path);
    if trimmed == "" || trimmed == "." {
      return Ok(".");
    }
    if trimmed[0] == '~' {
      return Err(HomeExpansion);
    }
    if '\0' in trimmed || '\n' in trimmed || '\r' in trimmed {
      return Err(ControlCharacters);
    }
    var normalized := Replace(trimmed, '\\', "/");
    var segments := Split(normalized);
    var parts: seq<string> := [];
    assert segments[0..] == segments;
    for i := 0 to |segments|
      invariant ".." !in segments[..i]
      invariant parts + Named(segments[i..]) == Named(segments)
    {
      var part := segments[i];
      NamedStep(segments, i);
      assert segments[..i + 1] == segments[..i] + [part];
      if part == "" || part == "." {
      } else if part == ".." {
        return Err(Escapes);
      } else {
        parts := parts + [part];
      }
    }
    assert segments[..|segments|] == segments;
    NoneNamed(segments[|segments|..]);
    assert parts + [] == parts;
    SlashesAt(trimmed);
    if parts == [] {
      r := Ok(".");
    } else if normalized[0] == '/' {
      r := Ok("/" + Join(parts));
    } else {
      r := Ok(Join(parts));
    }
  }

  // -------------------------------------------------------------------
  // What is accepted
  // -------------------------------------------------------------------

  predicate SegmentAt(s: string, segment: string, at: nat) {
    && at + |segment| <= |s| && s[at..at + |segment|] == segment
    && (at == 0 || s[at - 1] == '/')
    && (at + |segment| == |s| || s[at + |segment|] == '/')
  }

  ghost predicate SegmentLater(s: string, segment: string) {
    exists at: nat :: 1 <= at && SegmentAt(s, segment, at)
  }

  lemma SegmentMoves(s: string, segment: string, at: nat)
    requires s != "" && 1 <= at && (1 < at || s[0] == '/')
    ensures SegmentAt(s, segment, at) <==> SegmentAt(s[1..], segment, at - 1)
  {
  }

  lemma LaterMoves(s: string, segment: string)
    requires s != ""
    ensures s[0] == '/' ==>
              (SegmentLater(s, segment) <==> SegmentAt(s[1..], segment, 0) || SegmentLater(s[1..], segment))
    ensures s[0] != '/' ==> (SegmentLater(s, segment) <==> SegmentLater(s[1..], segment))
  {
    var rest := s[1..];
    if at: nat :| 1 <= at && SegmentAt(s, segment, at) {
      SegmentMoves(s, segment, at);
    }
    if at: nat :| 1 <= at && SegmentAt(rest, segment, at) {
      SegmentMoves(s, segment, at + 1);
      assert SegmentAt(s, segment, at + 1);
    }
    if s[0] == '/' && SegmentAt(rest, segment, 0) {
      SegmentMoves(s, segment, 1);
      assert SegmentAt(s, segment, 1);
    }
  }

  lemma FirstSegment(s: string, segment: string)
    requires s != "" && '/' !in segment
    ensures s[0] == '/' ==> (SegmentAt(s, segment, 0) <==> segment == "")
    ensures s[0] != '/' ==>
              (SegmentAt(s, segment, 0) <==>
               segment != "" && segment[0] == s[0] && SegmentAt(s[1..], segment[1..], 0))
  {
    if segment != "" && |segment| <= |s| {
      assert s[..|segment|] == [s[0]] + s[1..][..|segment| - 1];
      assert segment == [segment[0]] + segment[1..];
      assert segment[0] in segment;
    }
  }

  lemma SplitStep(s: string)
    requires s != ""
    ensures s[0] == '/' ==> Split(s)[0] == "" && Split(s)[1..] == Split(s[1..])
    ensures s[0] != '/' ==> Split(s)[0] == [s[0]] + Split(s[1..])[0] && Split(s)[1..] == Split(s[1..])[1..]
  {
  }

  lemma {:induction false} SplitFindsFirst(s: string, segment: string)
    requires '/' !in segment
    ensures SegmentAt(s, segment, 0) <==> segment == Split(s)[0]
    decreases |s|
  {
    hide SegmentAt, Split;
    if s == "" {
      NothingInNothing(segment);
    } else {
      SplitStep(s);
      FirstSegment(s, segment);
      if s[0] != '/' {
        if segment != "" {
          SplitFindsFirst(s[1..], segment[1..]);
        }
      }
    }
  }

  /** The segments are what stands between slashes or ends. */
  lemma {:induction false} SplitFinds(s: string, segment: string)
    requires '/' !in segment
    ensures SegmentAt(s, segment, 0) <==> segment == Split(s)[0]
    ensures SegmentLater(s, segment) <==> segment in Split(s)[1..]
    decreases |s|
  {
    hide SegmentAt, SegmentLater, Split;
    SplitFindsFirst(s, segment);
    if s == "" {
      NothingInNothing(segment);
    } else {
      SplitStep(s);
      LaterMoves(s, segment);
      SplitFinds(s[1..], segment);
    }
  }

  lemma NothingInNothing(segment: string)
    ensures SegmentAt("", segment, 0) <==> segment == ""
    ensures !SegmentLater("", segment)
    ensures Split("")[0] == "" && Split("")[1..] == []
  {
  }

  predicate IsSeparator(c: char) {
    c == '/' || c == '\\'
  }

  /** Two dots between separators, slashes of either kind. */
  predicate DotsAt(s: string, at: nat) {
    && at + 2 <= |s| && s[at] == '.' && s[at + 1] == '.'
    && (at == 0 || IsSeparator(s[at - 1]))
    && (at + 2 == |s| || IsSeparator(s[at + 2]))
  }

  lemma DotsAreSegments(s: string, at: nat)
    ensures DotsAt(s, at) <==> SegmentAt(Replace(s, '\\', "/"), "..", at)
  {
    hide Replace;
    SlashesAt(s);
    var slashed := Replace(s, '\\', "/");
    forall k | 0 <= k < |s|
      ensures slashed[k] == '/' <==> IsSeparator(s[k])
      ensures slashed[k] == '.' <==> s[k] == '.'
    {
    }
  }

  /** Every path is judged by the characters it has between its blanks: refused for
      a tilde in front, then for a line end or a NUL, then for two dots between
      separators; everything else is accepted. */
  lemma {:induction false} AcceptedExactly(path: string)
    ensures var s := Trim(path);
            var home := s != "" && s[0] == '~';
            var control := exists k :: 0 <= k < |s| && s[k] in {'\0', '\n', '\r'};
            var up := exists at: nat :: DotsAt(s, at);
            && (Resolve(path) == Err(HomeExpansion) <==> home)
            && (Resolve(path) == Err(ControlCharacters) <==> !home && control)
            && (Resolve(path) == Err(Escapes) <==> !home && !control && up)
            && (Resolve(path).Ok? <==> !home && !control && !up)
  {
    hide Trim, Split, Replace, Named, Join, SegmentAt, DotsAt;
    var s := Trim(path);
    SplitFinds(Slashed(path), "..");
    forall at: nat
      ensures DotsAt(s, at) <==> SegmentAt(Slashed(path), "..", at)
    {
      DotsAreSegments(s, at);
    }
    assert ".." in Split(Slashed(path)) <==> SegmentAt(Slashed(path), "..", 0) || SegmentLater(Slashed(path), "..");
    ShortHasNoDots(s);
  }

  lemma ShortHasNoDots(s: string)
    ensures s == "" || s == "." ==> forall at: nat :: !DotsAt(s, at)
  {
  }

  // -------------------------------------------------------------------
  // Where a path leads
  // -------------------------------------------------------------------

  /** Following segments from a directory; a directory is its list of names. */
  function Follow(directory: seq<string>, segments: seq<string>): seq<string>
    decreases |segments|
  {
    if segments == [] then directory
    else if segments[0] == "" || segments[0] == "." then Follow(directory, segments[1..])
    else if segments[0] == ".." then Follow(if directory == [] then [] else directory[..|directory| - 1], segments[1..])
    else Follow(directory + [segments[0]], segments[1..])
  }

  /** Where a path leads from a directory. */
  function Locate(directory: seq<string>, path: string): seq<string> {
    Follow(if path != "" && path[0] == '/' then [] else directory, Split(path))
  }

  lemma {:induction false} FollowNamed(directory: seq<string>, segments: seq<string>)
    requires ".." !in segments
    ensures Follow(directory, segments) == directory + Named(segments)
    decreases |segments|
  {
    if segments != [] {
      var rest := segments[1..];
      if segments[0] == "" || segments[0] == "." {
        FollowNamed(directory, rest);
        assert Named(segments) == [] + Named(rest) == Named(rest);
      } else {
        FollowNamed(directory + [segments[0]], rest);
        assert Named(segments) == [segments[0]] + Named(rest);
        assert directory + [segments[0]] + Named(rest) == directory + ([segments[0]] + Named(rest));
      }
    }
  }

  lemma PartsAreClean(path: string)
    ensures Slashless(Parts(path)) && AllNamed(Parts(path))
    ensures forall k :: 0 <= k < |Parts(path)| ==> forall c :: c in Parts(path)[k] ==> c in Trim(path) && c != '\\'
  {
    hide Trim, Replace, Split, Named;
    var trimmed, slashed := Trim(path), Slashed(path);
    var segments := Split(slashed);
    SplitIsSlashless(slashed);
    SlashesAt(trimmed);
    forall k | 0 <= k < |Parts(path)|
      ensures '/' !in Parts(path)[k] && forall c :: c in Parts(path)[k] ==> c in trimmed && c != '\\'
    {
      var j :| 0 <= j < |segments| && segments[j] == Parts(path)[k];
      assert '/' !in segments[j];
      forall c | c in segments[j]
        ensures c in trimmed && c != '\\'
      {
        assert c in slashed;
        var i :| 0 <= i < |slashed| && slashed[i] == c;
        assert c == trimmed[i];
      }
    }
  }

  lemma SplitRooted(absolute: bool, parts: seq<string>)
    requires parts != [] && Slashless(parts) && AllNamed(parts)
    ensures Split(Rooted(absolute, parts)) == (if absolute then [""] + parts else parts)
    ensures Named(Split(Rooted(absolute, parts))) == parts
    ensures Rooted(absolute, parts) != "" && (Rooted(absolute, parts)[0] == '/' <==> absolute)
  {
    SplitOfJoin(parts);
    NamedOfNamed(parts);
    var joined := Join(parts);
    assert ("/" + joined)[1..] == joined;
    JoinStarts(parts);
  }

  lemma JoinStarts(parts: seq<string>)
    requires parts != [] && parts[0] != ""
    ensures Join(parts) != "" && Join(parts)[0] == parts[0][0]
  {
  }

  /** A resolved path leads, from every directory, where the given one does, but
      for the root itself, which becomes the workspace. */
  lemma ResolvedLeadsThere(path: string, directory: seq<string>)
    requires Resolve(path).Ok?
    requires directory != []
    ensures Locate(directory, Resolve(path).value) == Locate(directory, Slashed(path))
       <==> !(Absolute(path) && Parts(path) == [])
  {
    var trimmed, slashed, resolved := Trim(path), Slashed(path), Resolve(path).value;
    SlashesAt(trimmed);
    if trimmed == "" || trimmed == "." {
      assert slashed == trimmed;
      DotsLeadNowhere(directory);
    } else {
      FollowNamed(if Absolute(path) then [] else directory, Split(slashed));
      PartsAreClean(path);
      if Parts(path) == [] {
        DotsLeadNowhere(directory);
        assert [] + Parts(path) == [] && directory + Parts(path) == directory;
      } else {
        SplitRooted(Absolute(path), Parts(path));
        NoDotsInParts(path);
        FollowNamed(if Absolute(path) then [] else directory, Split(resolved));
      }
    }
  }

  lemma RootIsSlashed()
    ensures Trim("/") == "/" && Slashed("/") == "/"
  {
    TrimOfTrimmed("/");
    SlashesAt("/");
    assert Slashed("/") == "/";
  }

  lemma RootSplits()
    ensures Split("/") == [""] + [""]
  {
    SplitOne("", "");
    assert "" + "/" + "" == "/";
  }

  lemma NothingNamed(segments: seq<string>)
    requires |segments| == 2 && segments[0] == "" && segments[1] == ""
    ensures Named(segments) == []
  {
    NoneNamed(segments[1..][1..]);
    assert Named(segments[1..]) == [] + Named(segments[1..][1..]);
  }

  /** The root resolves to the workspace. */
  lemma {:induction false} RootBecomesTheWorkspace()
    ensures Resolve("/") == Ok(".") && Absolute("/") && Parts("/") == []
  {
    hide Trim, Replace, Slashed, Split, Named, HasControl;
    RootIsSlashed();
    RootSplits();
    NothingNamed([""] + [""]);
    NoControls("/");
  }

  lemma NoDotsInParts(path: string)
    requires ".." !in Split(Slashed(path)) && Parts(path) != []
    ensures ".." !in Split(Rooted(Absolute(path), Parts(path)))
  {
    PartsAreClean(path);
    SplitRooted(Absolute(path), Parts(path));
    assert ".." !in Parts(path);
  }

  lemma DotsLeadNowhere(directory: seq<string>)
    ensures Locate(directory, ".") == directory && Locate(directory, "") == directory
  {
    SplitOne(".", "");
    assert Split(".") == ["."] && Split("") == [""];
    assert ["."][1..] == [] && [""][1..] == [];
  }

  /** A relative path never leads out of the directory it starts from. */
  lemma ResolvedStaysInside(path: string, directory: seq<string>)
    requires Resolve(path).Ok?
    ensures (Absolute(path) && Parts(path) != []) || directory <= Locate(directory, Resolve(path).value)
  {
    DotsLeadNowhere(directory);
    if Trim(path) != "" && Trim(path) != "." && Parts(path) != [] && !Absolute(path) {
      PartsAreClean(path);
      SplitRooted(false, Parts(path));
      NoDotsInParts(path);
      FollowNamed(directory, Split(Resolve(path).value));
    }
  }

  /** A resolved path is free of backslashes, control characters and of empty,
      dot and dot-dot segments. */
  lemma ResolvedIsClean(path: string)
    requires Resolve(path).Ok? && Resolve(path).value != "."
    ensures var r := Resolve(path).value;
            && '\\' !in r && !HasControl(r)
            && ".." !in Split(r) && "." !in Split(r)
            && (forall k :: 0 < k < |Split(r)| ==> Split(r)[k] != "")
            && (Split(r)[0] == "" <==> Absolute(path))
  {
    hide Trim, Replace, Split, Named, Join;
    var parts, r := Parts(path), Resolve(path).value;
    assert Trim(path) != "" && Trim(path) != ".";
    assert parts != [];
    PartsAreClean(path);
    SplitRooted(Absolute(path), parts);
    NoDotsInParts(path);
    forall c | c in r
      ensures c == '/' || (c in Trim(path) && c != '\\')
    {
      if c in Join(parts) {
        JoinHolds(parts, c);
      }
    }
  }

  lemma {:induction false} JoinHolds(parts: seq<string>, c: char)
    requires c in Join(parts)
    ensures c == '/' || exists k :: 0 <= k < |parts| && c in parts[k]
  {
    if |parts| == 1 {
      assert c in parts[0];
    } else if c in parts[0] {
    } else if c != '/' {
      JoinHolds(parts[1..], c);
      var k :| 0 <= k < |parts[1..]| && c in parts[1..][k];
      assert c in parts[k + 1];
    }
  }

  // -------------------------------------------------------------------
  // Resolving again
  // -------------------------------------------------------------------

  lemma {:induction false} JoinIsShort(parts: seq<string>)
    ensures parts != [] ==> |Join(parts)| == Total(parts) + |parts| - 1
  {
    if |parts| > 1 {
      JoinIsShort(parts[1..]);
    }
  }

  function Total(parts: seq<string>): nat {
    if parts == [] then 0 else |parts[0]| + Total(parts[1..])
  }

  lemma {:induction false} SplitLength(s: string)
    ensures Total(Split(s)) + |Split(s)| - 1 == |s|
  {
    if s != "" {
      SplitLength(s[1..]);
      var rest := Split(s[1..]);
      if s[0] == '/' {
        assert ([""] + rest)[1..] == rest;
      } else {
        assert ([[s[0]] + rest[0]] + rest[1..])[1..] == rest[1..];
      }
    }
  }

  lemma {:induction false} NamedIsShort(segments: seq<string>)
    ensures Total(Named(segments)) + |Named(segments)| <= Total(segments) + |segments|
    ensures segments != [] && segments[0] == "" ==>
              Total(Named(segments)) + |Named(segments)| + 1 <= Total(segments) + |segments|
  {
    if segments != [] {
      NamedIsShort(segments[1..]);
      var rest := Named(segments[1..]);
      if segments[0] != "" && segments[0] != "." {
        assert ([segments[0]] + rest)[1..] == rest;
      } else {
        assert [] + rest == rest;
      }
    }
  }

  /** Resolving never makes a path longer than what was trimmed. */
  lemma ResolvedIsShort(path: string)
    requires Resolve(path).Ok? && Trim(path) != ""
    ensures |Resolve(path).value| <= |Trim(path)|
  {
    if Trim(path) != "." && Parts(path) != [] {
      var slashed := Slashed(path);
      SlashesAt(Trim(path));
      SplitLength(slashed);
      NamedIsShort(Split(slashed));
      JoinIsShort(Parts(path));
      if Absolute(path) {
        assert Split(slashed)[0] == "";
      }
    }
  }

  /** What is not trimmed comes out as it went in, unless it starts like a home
      directory. */
  lemma {:induction false} UntrimmedResolves(path: string)
    requires Resolve(path).Ok? && Resolve(path).value != "." && Trim(Resolve(path).value) == Resolve(path).value
    ensures var r := Resolve(path).value;
            r != "" && Resolve(r) == (if r[0] == '~' then Err(HomeExpansion) else Ok(r))
  {
    hide Trim, Replace, Split, Named, Join, HasControl, Slashed;
    var r := Resolve(path).value;
    ResolvedIsClean(path);
    PartsAreClean(path);
    SplitRooted(Absolute(path), Parts(path));
    SlashedAlready(r);
  }

  lemma SlashedAlready(s: string)
    requires Trim(s) == s && '\\' !in s
    ensures Slashed(s) == s
  {
    hide Trim, Replace;
    SlashesAt(s);
  }

  /** Resolving the result again: it comes back unless it starts like a home
      directory or is trimmed. */
  lemma {:induction false} ResultResolves(path: string)
    requires Resolve(path).Ok?
    ensures var r := Resolve(path).value;
            Resolve(r) == Ok(r) <==> r[..1] != "~" && Trim(r) == r
  {
    hide Trim, Replace, Split, Named, Join;
    var r := Resolve(path).value;
    if r == "." {
      TrimOfTrimmed(".");
    } else if Trim(r) == r {
      UntrimmedResolves(path);
    } else if Resolve(r).Ok? && Trim(r) != "" {
      ResolvedIsShort(r);
      TrimShortens(r);
    }
  }

  lemma TrimShortens(s: string)
    requires Trim(s) != s
    ensures |Trim(s)| < |s|
  {
  }

  lemma {:induction false} JoinEnds(parts: seq<string>)
    requires parts != [] && parts[|parts| - 1] != ""
    ensures var last := parts[|parts| - 1];
            Join(parts) != "" && Join(parts)[|Join(parts)| - 1] == last[|last| - 1]
  {
    if |parts| > 1 {
      JoinEnds(parts[1..]);
    }
  }

  lemma TrimmedExactly(s: string)
    requires s != ""
    ensures Trim(s) == s <==> !IsWhite(s[0]) && !IsWhite(s[|s| - 1])
  {
    if !IsWhite(s[0]) && !IsWhite(s[|s| - 1]) {
      TrimOfTrimmed(s);
    }
  }

  /** The last named segment does not end in white space, and a relative path's
      first one starts neither with white space nor with a tilde. */
  predicate Settled(path: string) {
    var parts := Parts(path);
    parts == [] ||
    var first, last := parts[0], parts[|parts| - 1];
    !IsWhite(last[|last| - 1]) && (Absolute(path) || (first[0] != '~' && !IsWhite(first[0])))
  }

  /** Resolving a second time changes nothing exactly for paths with such segments,
      or with none at all. */
  lemma {:induction false} ResolvingTwice(path: string)
    requires Resolve(path).Ok?
    ensures Resolve(Resolve(path).value) == Resolve(path) <==> Settled(path)
  {
    hide Trim, Replace, Split, Named, Join;
    ResultResolves(path);
    var parts, r := Parts(path), Resolve(path).value;
    if parts == [] {
      TrimOfTrimmed(".");
    } else {
      NothingToName(path);
      JoinStarts(parts);
      JoinEnds(parts);
      TrimmedExactly(r);
    }
  }

  lemma DotsAreNotNamed()
    ensures Named(Split("")) == [] && Named(Split(".")) == []
  {
    SplitOne(".", "");
    NoneNamed([""][1..]);
    NoneNamed(["."][1..]);
  }

  lemma NothingToName(path: string)
    ensures Trim(path) == "" || Trim(path) == "." ==> Parts(path) == []
  {
    DotsAreNotNamed();
    SlashesAt(Trim(path));
    assert Trim(path) == "." ==> Slashed(path) == ".";
  }

  lemma NoControls(s: string)
    ensures (forall k :: 0 <= k < |s| ==> s[k] !in {'\0', '\n', '\r'}) ==> !HasControl(s)
  {
  }

  lemma DotSlashIsPlain(name: string)
    requires name != "" && !IsWhite(name[|name| - 1])
    requires '\\' !in name && !HasControl(name)
    ensures Trim("." + "/" + name) == "." + "/" + name == Slashed("." + "/" + name)
    ensures !HasControl("." + "/" + name)
  {
    var path := "." + "/" + name;
    hide Trim, Replace;
    TrimOfTrimmed(path);
    SlashesAt(path);
    assert path[0] == '.' && path[1] == '/' && path[2..] == name;
    forall k | 0 <= k < |path|
      ensures path[k] !in {'\0', '\n', '\r', '\\'}
    {
      if 2 <= k {
        assert path[k] == name[k - 2] && name[k - 2] in name;
      }
    }
    assert Slashed(path) == path;
  }

  lemma DotSlashNames(name: string)
    requires name != "" && name != "." && '/' !in name
    ensures Split("." + "/" + name) == ["."] + [name]
    ensures Named(["."] + [name]) == [name]
  {
    SplitOne(".", name);
    SplitOne(name, "");
    hide Split, Named;
    var segments := ["."] + [name];
    NamedStep(segments, 0);
    NamedStep(segments, 1);
    NoneNamed(segments[2..]);
    assert segments[0..] == segments;
  }

  /** A plain name that starts like a home directory is accepted behind a dot,
      and what it resolves to is then refused. */
  lemma HomeReappears(name: string)
    requires name != "" && name[0] == '~' && !IsWhite(name[|name| - 1])
    requires '/' !in name && '\\' !in name && !HasControl(name)
    ensures Resolve("." + "/" + name) == Ok(name) && Resolve(name) == Err(HomeExpansion)
  {
    hide Trim, Slashed, Split, Named, HasControl;
    TrimOfTrimmed(name);
    DotSlashIsPlain(name);
    DotSlashNames(name);
    assert ("." + "/" + name)[0] == '.';
    assert Parts("." + "/" + name) == [name];
  }

  // -------------------------------------------------------------------
  // Quoting
  // -------------------------------------------------------------------

  function ShellQuotePosix(value: string): string {
    "'" + Replace(value, '\'', "'\"'\"'") + "'"
  }

  function ShellQuoteFish(value: string): string {
    "'" + Replace(Replace(value, '\\', "\\\\"), '\'', "\\'") + "'"
  }

  datatype Quotes = Unquoted | InSingle | InDouble

  /** Characters that mean something to the shell outside quotes. */
  predicate IsSpecial(c: char) {
    c in "|&;<>()$`\\*?[]#~=%!{}" || c == '\n'
  }

  predicate Expands(c: char) {
    c in "$`\\"
  }

  /** The words of a simple command line after quote removal (sections 2.2.2,
      2.2.3 and 2.3 of the POSIX.1-2017 Shell Command Language). None when a
      character would be special or a quotation does not end. */
  function Words(text: string, quotes: Quotes, word: Option<string>): Option<seq<string>> {
    if text == "" then
      if !quotes.Unquoted? then None else Some(if word.Some? then [word.value] else [])
    else
      var c, rest := text[0], text[1..];
      var sofar := if word.Some? then word.value else "";
      match quotes
      case Unquoted =>
        if c == '\'' then Words(rest, InSingle, Some(sofar))
        else if c == '"' then Words(rest, InDouble, Some(sofar))
        else if c == ' ' || c == '\t' then
          var others := Words(rest, Unquoted, None);
          if word.Some? && others.Some? then Some([word.value] + others.value) else others
        else if IsSpecial(c) then None
        else Words(rest, Unquoted, Some(sofar + [c]))
      case InSingle =>
        if c == '\'' then Words(rest, Unquoted, word) else Words(rest, InSingle, Some(sofar + [c]))
      case InDouble =>
        if c == '"' then Words(rest, Unquoted, word)
        else if Expands(c) then None
        else Words(rest, InDouble, Some(sofar + [c]))
  }

  /** Inside single quotes, the quoted text adds exactly the value. */
  lemma {:induction false} ReadQuoted(value: string, rest: string, sofar: string)
    ensures Words(Replace(value, '\'', "'\"'\"'") + "'" + rest, InSingle, Some(sofar))
        == Words(rest, Unquoted, Some(sofar + value))
  {
    var text := Replace(value, '\'', "'\"'\"'") + "'" + rest;
    if value == "" {
      assert text == "'" + rest && text[1..] == rest;
      assert sofar + value == sofar;
    } else {
      var tail := Replace(value[1..], '\'', "'\"'\"'") + "'" + rest;
      assert sofar + [value[0]] + value[1..] == sofar + value;
      if value[0] == '\'' {
        assert text == "'\"'\"'" + tail;
        ReadEscapedQuote(tail, sofar);
      } else {
        assert text == [value[0]] + tail && text[1..] == tail;
      }
      ReadQuoted(value[1..], rest, sofar + [value[0]]);
    }
  }

  /** Leaving the quotes for a quoted quote, and entering them again. */
  lemma ReadEscapedQuote(tail: string, sofar: string)
    ensures Words("'\"'\"'" + tail, InSingle, Some(sofar)) == Words(tail, InSingle, Some(sofar + "'"))
  {
    var text := "'\"'\"'" + tail;
    assert text[1..] == "\"'\"'" + tail;
    assert text[1..][1..] == "'\"'" + tail;
    assert text[1..][1..][1..] == "\"'" + tail;
    assert text[1..][1..][1..][1..] == "'" + tail;
    assert text[1..][1..][1..][1..][1..] == tail;
    assert Words(text, InSingle, Some(sofar)) == Words(text[1..], Unquoted, Some(sofar));
    assert Words(text[1..], Unquoted, Some(sofar)) == Words(text[1..][1..], InDouble, Some(sofar));
    assert Words(text[1..][1..], InDouble, Some(sofar)) == Words(text[1..][1..][1..], InDouble, Some(sofar + "'"));
    assert Words(text[1..][1..][1..], InDouble, Some(sofar + "'"))
        == Words(text[1..][1..][1..][1..], Unquoted, Some(sofar + "'"));
  }

  /** Wherever it stands on a command line, a quoted value adds exactly itself
      to the word around it. */
  lemma {:induction false} QuotedInContext(value: string, rest: string, word: Option<string>)
    ensures Words(ShellQuotePosix(value) + rest, Unquoted, word)
         == Words(rest, Unquoted, Some((if word.Some? then word.value else "") + value))
  {
    var sofar := if word.Some? then word.value else "";
    var inner := Replace(value, '\'', "'\"'\"'") + "'" + rest;
    assert ShellQuotePosix(value) + rest == "'" + inner && ("'" + inner)[1..] == inner;
    ReadQuoted(value, rest, sofar);
  }

  function CommandLine(args: seq<string>): string {
    if args == [] then ""
    else if |args| == 1 then ShellQuotePosix(args[0])
    else ShellQuotePosix(args[0]) + " " + CommandLine(args[1..])
  }

  /** A command line of quoted arguments expands to exactly those arguments, for
      all strings. */
  lemma {:induction false} CommandLineRoundTrip(args: seq<string>)
    ensures Words(CommandLine(args), Unquoted, None) == Some(args)
  {
    if args != [] {
      var value := args[0];
      assert "" + value == value;
      if |args| == 1 {
        QuotedInContext(value, "", None);
        assert ShellQuotePosix(value) + "" == ShellQuotePosix(value);
        assert args == [value];
      } else {
        var rest := CommandLine(args[1..]);
        CommandLineRoundTrip(args[1..]);
        QuotedInContext(value, " " + rest, None);
        assert CommandLine(args) == ShellQuotePosix(value) + (" " + rest);
        assert (" " + rest)[1..] == rest;
        assert [value] + args[1..] == args;
      }
    }
  }

  /** What fish reads between single quotes: a backslash escapes a backslash or a
      quote, and is itself before anything else. */
  function FishQuoted(text: string, sofar: string): Option<(string, string)>
    decreases |text|
  {
    if text == "" then None
    else if text[0] == '\'' then Some((sofar, text[1..]))
    else if text[0] == '\\' && |text| > 1 && (text[1] == '\\' || text[1] == '\'') then
      FishQuoted(text[2..], sofar + [text[1]])
    else FishQuoted(text[1..], sofar + [text[0]])
  }

  /** One pass over the characters does what the two replacements do. */
  function FishEscaped(value: string): string {
    if value == "" then "" else EscapedForFish(value[0]) + FishEscaped(value[1..])
  }

  lemma {:induction false} FishReplacements(value: string)
    ensures Replace(Replace(value, '\\', "\\\\"), '\'', "\\'") == FishEscaped(value)
  {
    if value != "" {
      var first := if value[0] == '\\' then "\\\\" else [value[0]];
      ReplaceAppend(first, Replace(value[1..], '\\', "\\\\"), '\'', "\\'");
      FishReplacements(value[1..]);
      assert first[1..] == if value[0] == '\\' then "\\" else "";
      if value[0] == '\\' {
        assert first[1..][1..] == "";
      }
    }
  }

  function EscapedForFish(c: char): string {
    if c == '\\' then "\\\\" else if c == '\'' then "\\'" else [c]
  }

  lemma {:induction false} ReadFishEscaped(value: string, rest: string, sofar: string)
    ensures FishQuoted(FishEscaped(value) + "'" + rest, sofar) == Some((sofar + value, rest))
  {
    var text := FishEscaped(value) + "'" + rest;
    if value == "" {
      assert text == "'" + rest && text[1..] == rest;
      assert sofar + value == sofar;
    } else {
      hide FishQuoted, EscapedForFish;
      var tail := FishEscaped(value[1..]) + "'" + rest;
      assert text == EscapedForFish(value[0]) + tail;
      ReadFishEscaped(value[1..], rest, sofar + [value[0]]);
      assert sofar + [value[0]] + value[1..] == sofar + value;
    }
  }

  /** Fish reads a quoted value back as itself and stops right behind it. */
  lemma FishRoundTrip(value: string, rest: string)
    ensures (ShellQuoteFish(value) + rest)[0] == '\''
    ensures FishQuoted((ShellQuoteFish(value) + rest)[1..], "") == Some((value, rest))
  {
    FishReplacements(value);
    ReadFishEscaped(value, rest, "");
    assert (ShellQuoteFish(value) + rest)[1..] == FishEscaped(value) + "'" + rest;
    assert "" + value == value;
  }
}
