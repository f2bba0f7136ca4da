/** Expanding nested Rust use trees into the list of what they import. */
module UseTree {
  import opened Results

  datatype Token = Token(value: string, line: nat)

  datatype Import = Import(path: seq<string>, alias: Option<string>, line: nat, public: bool)

  /** The tokens of a use statement, and whether it is public. */
  datatype Statement = Statement(tokens: seq<Token>, public: bool)

  /** The expansion reads past the end after a last `as`, and it never gets past
      a closing brace that no group opened. */
  datatype Outcome = At(next: nat, imports: seq<Import>) | Raised | Stuck

  // -------------------------------------------------------------------
  // The expansion
  // -------------------------------------------------------------------

  /** Behind other segments, `self` adds nothing: it names what it stands in. */
  function Extend(current: seq<string>, segment: string): seq<string> {
    if segment != "self" || current == [] then current + [segment] else current
  }

  function Before(imports: seq<Import>, rest: Outcome): Outcome {
    if rest.At? then At(rest.next, imports + rest.imports) else rest
  }

  /** One branch from token `i` on, with the path read so far. */
  function Walk(stmt: Statement, i: nat, current: seq<string>, line: nat): (r: Outcome)
    ensures r.At? ==> r.next >= i
    ensures r.At? && i < |stmt.tokens| && stmt.tokens[i].value !in {",", "}"} ==> r.next > i
    ensures !r.Stuck?
    decreases |stmt.tokens| - i, 0
  {
    if i >= |stmt.tokens| then
      At(i, [Import(current, None, line, stmt.public)])
    else
      var value := stmt.tokens[i].value;
      if value == "{" then
        var inner := Items(stmt, i + 1, current, true);
        if inner.At? then At(inner.next + 1, inner.imports) else inner
      else if value == "," || value == "}" then
        At(i, [Import(current, None, line, stmt.public)])
      else if value == "as" then
        if i + 1 < |stmt.tokens| then
          At(i + 2, [Import(current, Some(stmt.tokens[i + 1].value), line, stmt.public)])
        else
          Raised
      else if value == "::" then
        Walk(stmt, i + 1, current, line)
      else
        Walk(stmt, i + 1, Extend(current, value), line)
  }

  /** Branch after branch, in a group or at the top. */
  function Items(stmt: Statement, i: nat, prefix: seq<string>, nested: bool): (r: Outcome)
    ensures r.At? ==> r.next >= i
    ensures nested ==> !r.Stuck?
    decreases |stmt.tokens| - i, 1
  {
    if i >= |stmt.tokens| then
      At(i, [])
    else if stmt.tokens[i].value == "}" then
      if nested then At(i, []) else Stuck
    else if stmt.tokens[i].value == "," then
      Items(stmt, i + 1, prefix, nested)
    else
      var first := Walk(stmt, i, prefix, stmt.tokens[i].line);
      if first.At? then Before(first.imports, Items(stmt, first.next, prefix, nested)) else first
  }

  method Branch(stmt: Statement, start: nat, prefix: seq<string>) returns (r: Outcome)
    requires start < |stmt.tokens|
    ensures r == Walk(stmt, start, prefix, stmt.tokens[start].line)
    decreases |stmt.tokens| - start
  {
    var current, line, index := prefix, stmt.tokens[start].line, start;
    while index < |stmt.tokens|
      invariant start <= index
      invariant Walk(stmt, start, prefix, line) == Walk(stmt, index, current, line)
      decreases |stmt.tokens| - index
    {
      var value := stmt.tokens[index].value;
      if value == "{" {
        var opening := index;
        index := index + 1;
        var result: seq<Import> := [];
        while index < |stmt.tokens| && stmt.tokens[index].value != "}"
          invariant opening < index
          invariant Items(stmt, opening + 1, current, true) == Before(result, Items(stmt, index, current, true))
          decreases |stmt.tokens| - index
        {
          if stmt.tokens[index].value == "," {
            index := index + 1;
          } else {
            var inner := Branch(stmt, index, current);
            if !inner.At? {
              return inner;
            }
            BeforeBefore(result, inner.imports, Items(stmt, inner.next, current, true));
            result := result + inner.imports;
            index := inner.next;
          }
        }
        return At(index + 1, result);
      }
      if value == "," || value == "}" {
        break;
      }
      if value == "as" {
        if index + 1 >= |stmt.tokens| {
          return Raised;
        }
        return At(index + 2, [Import(current, Some(stmt.tokens[index + 1].value), line, stmt.public)]);
      }
      if value != "::" {
        if value != "self" || current == [] {
          current := current + [value];
        }
      }
      index := index + 1;
    }
    r := At(index, [Import(current, None, line, stmt.public)]);
  }

  lemma BeforeBefore(a: seq<Import>, b: seq<Import>, rest: Outcome)
    ensures Before(a, Before(b, rest)) == Before(a + b, rest)
  {
    if rest.At? {
      assert a + (b + rest.imports) == a + b + rest.imports;
    }
  }

  /** Expands a list of tokens. A branch that ends where it began would be walked
      again and again. */
  method ExpandImports(stmt: Statement) returns (r: Outcome)
    ensures r == Items(stmt, 0, [], false)
  {
    var result: seq<Import> := [];
    var index := 0;
    while index < |stmt.tokens|
      invariant Items(stmt, 0, [], false) == Before(result, Items(stmt, index, [], false))
      decreases |stmt.tokens| - index
    {
      if stmt.tokens[index].value == "," {
        index := index + 1;
      } else {
        var branch := Branch(stmt, index, []);
        if !branch.At? {
          return branch;
        }
        if branch.next == index {
          return Stuck;
        }
        BeforeBefore(result, branch.imports, Items(stmt, branch.next, [], false));
        result := result + branch.imports;
        index := branch.next;
      }
    }
    r := At(index, result);
  }

  // -------------------------------------------------------------------
  // When it comes to an end
  // -------------------------------------------------------------------

  datatype Verdict = Fine | Dangling | Stray

  /** Reading left to right and counting braces: is there an `as` with nothing
      behind it, or before that a closing brace too many? What follows an `as` is
      a name, whatever it is. */
  function Scan(stmt: Statement, i: nat, depth: nat): Verdict
    decreases |stmt.tokens| - i
  {
    if i >= |stmt.tokens| then Fine
    else if stmt.tokens[i].value == "as" then
      if i + 1 < |stmt.tokens| then Scan(stmt, i + 2, depth) else Dangling
    else if stmt.tokens[i].value == "{" then Scan(stmt, i + 1, depth + 1)
    else if stmt.tokens[i].value == "}" then
      if depth == 0 then Stray else Scan(stmt, i + 1, depth - 1)
    else Scan(stmt, i + 1, depth)
  }

  lemma {:induction false} WalkScans(stmt: Statement, i: nat, current: seq<string>, line: nat, depth: nat)
    ensures var r := Walk(stmt, i, current, line);
            Scan(stmt, i, depth) == if r.At? then Scan(stmt, r.next, depth) else Dangling
    decreases |stmt.tokens| - i, 0
  {
    if i < |stmt.tokens| {
      var value := stmt.tokens[i].value;
      if value == "{" {
        ItemsScan(stmt, i + 1, current, true, depth + 1);
      } else if value == "," || value == "}" || value == "as" {
      } else if value == "::" {
        WalkScans(stmt, i + 1, current, line, depth);
      } else {
        WalkScans(stmt, i + 1, Extend(current, value), line, depth);
      }
    }
  }

  lemma {:induction false} ItemsScan(stmt: Statement, i: nat, prefix: seq<string>, nested: bool, depth: nat)
    requires depth == 0 ==> !nested
    ensures var r := Items(stmt, i, prefix, nested);
            && (r.At? ==> Scan(stmt, i, depth) == Scan(stmt, r.next, depth))
            && (r.At? ==> r.next >= |stmt.tokens| || (nested && stmt.tokens[r.next].value == "}"))
            && (r.Raised? ==> Scan(stmt, i, depth) == Dangling)
            && (r.Stuck? && depth == 0 ==> Scan(stmt, i, depth) == Stray)
    decreases |stmt.tokens| - i, 1
  {
    if i < |stmt.tokens| && stmt.tokens[i].value != "}" {
      if stmt.tokens[i].value == "," {
        ItemsScan(stmt, i + 1, prefix, nested, depth);
      } else {
        WalkScans(stmt, i, prefix, stmt.tokens[i].line, depth);
        var first := Walk(stmt, i, prefix, stmt.tokens[i].line);
        if first.At? {
          ItemsScan(stmt, first.next, prefix, nested, depth);
        }
      }
    }
  }

  /** The expansion of any tokens ends with a list of imports, or reads past the
      end, or never ends, exactly as the braces and the last `as` say. */
  lemma ExpansionEnds(stmt: Statement)
    ensures Items(stmt, 0, [], false).At? <==> Scan(stmt, 0, 0).Fine?
    ensures Items(stmt, 0, [], false).Raised? <==> Scan(stmt, 0, 0).Dangling?
    ensures Items(stmt, 0, [], false).Stuck? <==> Scan(stmt, 0, 0).Stray?
  {
    ItemsScan(stmt, 0, [], false, 0);
  }

  /** Statements whose expansion never ends, as one that a macro body's brace
      closes, and statements whose expansion reads past the end. */
  lemma ExpansionMayNotEnd(line: nat, public: bool)
    ensures Items(Statement([Token("foo", line), Token("}", line)], public), 0, [], false) == Stuck
    ensures Items(Statement([Token("foo", line), Token("as", line)], public), 0, [], false) == Raised
  {
    var stray := Statement([Token("foo", line), Token("}", line)], public);
    assert Walk(stray, 1, ["foo"], line) == At(1, [Import(["foo"], None, line, public)]);
    assert Extend([], "foo") == ["foo"];
    assert Walk(stray, 0, [], line) == Walk(stray, 1, ["foo"], line);
    assert Items(stray, 1, [], false) == Stuck;
    var dangling := Statement([Token("foo", line), Token("as", line)], public);
    assert Walk(dangling, 1, ["foo"], line) == Raised;
    assert Walk(dangling, 0, [], line) == Walk(dangling, 1, ["foo"], line);
  }

  // -------------------------------------------------------------------
  // Use trees
  // -------------------------------------------------------------------

  /** A path with an optional new name, or a path and a group below it. */
  datatype Tree =
    | Leaf(path: seq<string>, alias: Option<string>)
    | Group(path: seq<string>, items: seq<Tree>, trailingComma: bool)

  /** Identifiers and the glob; `self` is only where Rust allows it, see below. */
  predicate IsSegment(s: string) {
    s !in {"{", "}", ",", "as", "::", "self"}
  }

  predicate AreSegments(path: seq<string>) {
    forall k :: 0 <= k < |path| ==> IsSegment(path[k])
  }

  /** `self` stands first in a whole path, or alone in a group. */
  predicate WellFormed(tree: Tree, prefix: seq<string>)
    decreases tree
  {
    match tree
    case Leaf(path, _) =>
      && path != []
      && (if prefix == [] then AreSegments(path[1..]) && (IsSegment(path[0]) || path[0] == "self")
          else AreSegments(path) || path == ["self"])
    case Group(path, items, _) =>
      && (if prefix == [] && path != [] then AreSegments(path[1..]) && (IsSegment(path[0]) || path[0] == "self")
          else AreSegments(path))
      && forall k :: 0 <= k < |items| ==> WellFormed(items[k], prefix + path)
  }

  function PrintPath(path: seq<string>): (r: seq<string>)
    ensures path != [] ==> |r| == 2 * |path| - 1
  {
    if path == [] then [] else if |path| == 1 then path else [path[0], "::"] + PrintPath(path[1..])
  }

  /** What a group has before its items. */
  function Opening(path: seq<string>): (r: seq<string>)
    ensures |r| > 0
  {
    (if path == [] then [] else PrintPath(path) + ["::"]) + ["{"]
  }

  function Print(tree: Tree): (r: seq<string>)
    ensures (tree.Leaf? && tree.path == []) || |r| > 0
    decreases tree
  {
    match tree
    case Leaf(path, alias) => PrintPath(path) + (if alias.Some? then ["as", alias.value] else [])
    case Group(path, items, trailingComma) =>
      Opening(path) + PrintItems(items) + (if trailingComma && items != [] then [","] else []) + ["}"]
  }

  function PrintItems(items: seq<Tree>): seq<string>
    decreases items
  {
    if items == [] then []
    else if |items| == 1 then Print(items[0])
    else Print(items[0]) + [","] + PrintItems(items[1..])
  }

  /** What a tree imports, in order; `lines[at]` is the line of its first token. */
  function Flatten(tree: Tree, prefix: seq<string>, lines: seq<nat>, at: nat, public: bool): seq<Import>
    requires at + |Print(tree)| <= |lines|
    requires WellFormed(tree, prefix)
    decreases tree
  {
    match tree
    case Leaf(path, alias) =>
      [Import(if path == ["self"] && prefix != [] then prefix else prefix + path, alias, lines[at], public)]
    case Group(path, items, _) => FlattenItems(items, prefix + path, lines, at + |Opening(path)|, public)
  }

  function FlattenItems(items: seq<Tree>, prefix: seq<string>, lines: seq<nat>, at: nat, public: bool): seq<Import>
    requires at + |PrintItems(items)| <= |lines|
    requires forall k :: 0 <= k < |items| ==> WellFormed(items[k], prefix)
    decreases items
  {
    if items == [] then []
    else if |items| == 1 then Flatten(items[0], prefix, lines, at, public)
    else
      Flatten(items[0], prefix, lines, at, public)
      + FlattenItems(items[1..], prefix, lines, at + |Print(items[0])| + 1, public)
  }

  // -------------------------------------------------------------------
  // Expanding what was printed
  // -------------------------------------------------------------------

  function Values(stmt: Statement): (r: seq<string>)
    ensures |r| == |stmt.tokens|
    ensures forall k :: 0 <= k < |stmt.tokens| ==> r[k] == stmt.tokens[k].value
  {
    seq(|stmt.tokens|, k requires 0 <= k < |stmt.tokens| => stmt.tokens[k].value)
  }

  function LinesOf(stmt: Statement): (r: seq<nat>)
    ensures |r| == |stmt.tokens|
    ensures forall k :: 0 <= k < |stmt.tokens| ==> r[k] == stmt.tokens[k].line
  {
    seq(|stmt.tokens|, k requires 0 <= k < |stmt.tokens| => stmt.tokens[k].line)
  }

  /** `text` stands at token `i`. */
  predicate Stands(stmt: Statement, i: nat, text: seq<string>) {
    i + |text| <= |stmt.tokens| && forall k :: 0 <= k < |text| ==> stmt.tokens[i + k].value == text[k]
  }

  /** A branch that reaches token `i` is over. */
  predicate Stops(stmt: Statement, i: nat) {
    i >= |stmt.tokens| || stmt.tokens[i].value == "," || stmt.tokens[i].value == "}"
  }

  lemma StandsSplit(stmt: Statement, i: nat, fst: seq<string>, snd: seq<string>)
    ensures Stands(stmt, i, fst + snd) <==> Stands(stmt, i, fst) && Stands(stmt, i + |fst|, snd)
  {
    if Stands(stmt, i, fst) && Stands(stmt, i + |fst|, snd) {
      forall k | 0 <= k < |fst + snd|
        ensures stmt.tokens[i + k].value == (fst + snd)[k]
      {
        if k >= |fst| {
          assert stmt.tokens[i + |fst| + (k - |fst|)].value == snd[k - |fst|];
        }
      }
    }
    if Stands(stmt, i, fst + snd) {
      forall k | 0 <= k < |fst|
        ensures stmt.tokens[i + k].value == fst[k]
      {
        assert (fst + snd)[k] == fst[k];
      }
      forall k | 0 <= k < |snd|
        ensures stmt.tokens[i + |fst| + k].value == snd[k]
      {
        assert (fst + snd)[|fst| + k] == snd[k];
      }
    }
  }

  lemma StandsAt(stmt: Statement, i: nat, text: seq<string>, k: nat)
    requires Stands(stmt, i, text) && k < |text|
    ensures i + k < |stmt.tokens| && stmt.tokens[i + k].value == text[k]
  {
  }

  lemma StandsFits(stmt: Statement, i: nat, text: seq<string>)
    requires Stands(stmt, i, text)
    ensures i + |text| <= |stmt.tokens|
  {
  }

  lemma WalkSegment(stmt: Statement, i: nat, current: seq<string>, line: nat)
    requires i < |stmt.tokens| && (IsSegment(stmt.tokens[i].value) || stmt.tokens[i].value == "self")
    ensures Walk(stmt, i, current, line) == Walk(stmt, i + 1, Extend(current, stmt.tokens[i].value), line)
  {
  }

  lemma WalkColons(stmt: Statement, i: nat, current: seq<string>, line: nat)
    requires i < |stmt.tokens| && stmt.tokens[i].value == "::"
    ensures Walk(stmt, i, current, line) == Walk(stmt, i + 1, current, line)
  {
  }

  function Enclosed(inner: Outcome): Outcome {
    if inner.At? then At(inner.next + 1, inner.imports) else inner
  }

  lemma WalkBrace(stmt: Statement, i: nat, current: seq<string>, line: nat)
    requires i < |stmt.tokens| && stmt.tokens[i].value == "{"
    ensures Walk(stmt, i, current, line) == Enclosed(Items(stmt, i + 1, current, true))
  {
  }

  lemma WalkEnd(stmt: Statement, i: nat, current: seq<string>, line: nat)
    ensures Stops(stmt, i) ==> Walk(stmt, i, current, line) == At(i, [Import(current, None, line, stmt.public)])
    ensures i + 1 < |stmt.tokens| && stmt.tokens[i].value == "as" ==>
              Walk(stmt, i, current, line)
                  == At(i + 2, [Import(current, Some(stmt.tokens[i + 1].value), line, stmt.public)])
  {
  }

  lemma ItemsStep(stmt: Statement, i: nat, prefix: seq<string>, nested: bool)
    requires i < |stmt.tokens|
    ensures stmt.tokens[i].value == "," ==> Items(stmt, i, prefix, nested) == Items(stmt, i + 1, prefix, nested)
    ensures stmt.tokens[i].value == "}" && nested ==> Items(stmt, i, prefix, nested) == At(i, [])
    ensures stmt.tokens[i].value !in {",", "}"} && Walk(stmt, i, prefix, stmt.tokens[i].line).At? ==>
              var first := Walk(stmt, i, prefix, stmt.tokens[i].line);
              Items(stmt, i, prefix, nested) == Before(first.imports, Items(stmt, first.next, prefix, nested))
  {
  }

  lemma RestAreSegments(path: seq<string>)
    requires path != [] && AreSegments(path[1..])
    ensures |path| > 1 ==> IsSegment(path[1..][0]) && AreSegments(path[1..][1..])
  {
    var rest := path[1..];
    if rest != [] {
      forall k | 0 <= k < |rest[1..]|
        ensures IsSegment(rest[1..][k])
      {
        assert rest[1..][k] == rest[k + 1];
      }
    }
  }

  /** Walking over a path extends the current one by its segments. */
  lemma {:induction false} WalkPath(stmt: Statement, i: nat, path: seq<string>, current: seq<string>, line: nat)
    requires Stands(stmt, i, PrintPath(path))
    requires path != [] ==> IsSegment(path[0]) || (path[0] == "self" && current == [])
    requires path != [] ==> AreSegments(path[1..])
    ensures Walk(stmt, i, current, line) == Walk(stmt, i + |PrintPath(path)|, current + path, line)
    decreases |path|
  {
    hide Walk, Items, Stands, AreSegments;
    if path == [] {
      assert current + path == current;
    } else {
      StandsAt(stmt, i, PrintPath(path), 0);
      WalkSegment(stmt, i, current, line);
      assert Extend(current, path[0]) == current + [path[0]];
      if |path| == 1 {
        assert path == [path[0]];
      } else {
        var rest := path[1..];
        RestAreSegments(path);
        StandsAt(stmt, i, PrintPath(path), 1);
        WalkColons(stmt, i + 1, current + [path[0]], line);
        StandsSplit(stmt, i, [path[0], "::"], PrintPath(rest));
        WalkPath(stmt, i + 2, rest, current + [path[0]], line);
        assert current + [path[0]] + rest == current + path;
      }
    }
  }

  lemma {:induction false} WalkTree(stmt: Statement, i: nat, tree: Tree, prefix: seq<string>)
    requires WellFormed(tree, prefix)
    requires Stands(stmt, i, Print(tree)) && Stops(stmt, i + |Print(tree)|)
    requires i < |stmt.tokens|
    ensures Walk(stmt, i, prefix, stmt.tokens[i].line)
        == At(i + |Print(tree)|, Flatten(tree, prefix, LinesOf(stmt), i, stmt.public))
    decreases tree, 0
  {
    hide Walk, Items, Stands, Stops, Opening, PrintItems, FlattenItems, IsSegment, AreSegments, PrintPath;
    match tree
    case Leaf(path, alias) => WalkLeaf(stmt, i, path, alias, prefix);
    case Group(path, items, trailingComma) =>
      var closing := (if trailingComma && items != [] then [","] else []) + ["}"];
      assert Print(tree) == Opening(path) + PrintItems(items) + closing;
      StandsSplit(stmt, i, Opening(path) + PrintItems(items), closing);
      StandsSplit(stmt, i, Opening(path), PrintItems(items));
      var first := i + |Opening(path)|;
      var last := first + |PrintItems(items)|;
      StandsAt(stmt, last, closing, 0);
      StandsAt(stmt, last, closing, |closing| - 1);
      ClosingStops(stmt, last);
      if path != [] {
        GroupIsPath(path, items, trailingComma, prefix);
      }
      WalkOpening(stmt, i, path, prefix, stmt.tokens[i].line);
      ItemsOfGroup(stmt, first, items, prefix + path, true);
      ItemsStep(stmt, last, prefix + path, true);
      ItemsStep(stmt, last + |closing| - 1, prefix + path, true);
      var imports := FlattenItems(items, prefix + path, LinesOf(stmt), first, stmt.public);
      assert imports + [] == imports;
  }

  lemma ClosingStops(stmt: Statement, i: nat)
    requires i < |stmt.tokens| && (stmt.tokens[i].value == "," || stmt.tokens[i].value == "}")
    ensures Stops(stmt, i)
  {
  }

  lemma WalkLeaf(stmt: Statement, i: nat, path: seq<string>, alias: Option<string>, prefix: seq<string>)
    requires WellFormed(Leaf(path, alias), prefix)
    requires Stands(stmt, i, Print(Leaf(path, alias))) && Stops(stmt, i + |Print(Leaf(path, alias))|)
    requires i < |stmt.tokens|
    ensures Walk(stmt, i, prefix, stmt.tokens[i].line)
         == At(i + |Print(Leaf(path, alias))|, Flatten(Leaf(path, alias), prefix, LinesOf(stmt), i, stmt.public))
  {
    hide Walk, Items, Stands, Stops, IsSegment;
    var line := stmt.tokens[i].line;
    var renaming := if alias.Some? then ["as", alias.value] else [];
    assert Print(Leaf(path, alias)) == PrintPath(path) + renaming;
    StandsSplit(stmt, i, PrintPath(path), renaming);
    var full := if path == ["self"] && prefix != [] then prefix else prefix + path;
    var end := i + |PrintPath(path)|;
    if path == ["self"] && prefix != [] {
      StandsAt(stmt, i, PrintPath(path), 0);
      WalkSegment(stmt, i, prefix, line);
    } else {
      WalkPath(stmt, i, path, prefix, line);
    }
    assert Walk(stmt, i, prefix, line) == Walk(stmt, end, full, line);
    if alias.Some? {
      StandsAt(stmt, end, renaming, 0);
      StandsAt(stmt, end, renaming, 1);
    }
    WalkEnd(stmt, end, full, line);
  }

  lemma GroupIsPath(path: seq<string>, items: seq<Tree>, trailingComma: bool, prefix: seq<string>)
    requires WellFormed(Group(path, items, trailingComma), prefix) && path != []
    ensures IsSegment(path[0]) || (path[0] == "self" && prefix == [])
    ensures AreSegments(path[1..])
  {
    forall k | 0 <= k < |path[1..]|
      ensures IsSegment(path[1..][k])
    {
      assert path[1..][k] == path[k + 1];
    }
  }

  lemma WalkOpening(stmt: Statement, i: nat, path: seq<string>, prefix: seq<string>, line: nat)
    requires Stands(stmt, i, Opening(path))
    requires path != [] ==> IsSegment(path[0]) || (path[0] == "self" && prefix == [])
    requires path != [] ==> AreSegments(path[1..])
    ensures Walk(stmt, i, prefix, line) == Enclosed(Items(stmt, i + |Opening(path)|, prefix + path, true))
  {
    hide Walk, Items, Stands, IsSegment, AreSegments;
    if path == [] {
      StandsAt(stmt, i, Opening(path), 0);
      WalkBrace(stmt, i, prefix, line);
      assert prefix + path == prefix;
    } else {
      var separator := ["::", "{"];
      assert Opening(path) == PrintPath(path) + separator;
      StandsSplit(stmt, i, PrintPath(path), separator);
      var end := i + |PrintPath(path)|;
      StandsAt(stmt, end, separator, 0);
      StandsAt(stmt, end, separator, 1);
      WalkPath(stmt, i, path, prefix, line);
      WalkColons(stmt, end, prefix + path, line);
      WalkBrace(stmt, end + 1, prefix + path, line);
    }
  }

  /** Items one after the other, up to where the group or the list goes on. */
  lemma {:induction false} ItemsOfGroup(stmt: Statement, i: nat, items: seq<Tree>, prefix: seq<string>, nested: bool)
    requires forall k :: 0 <= k < |items| ==> WellFormed(items[k], prefix)
    requires Stands(stmt, i, PrintItems(items)) && Stops(stmt, i + |PrintItems(items)|)
    ensures Items(stmt, i, prefix, nested)
         == Before(FlattenItems(items, prefix, LinesOf(stmt), i, stmt.public),
             Items(stmt, i + |PrintItems(items)|, prefix, nested))
    decreases items, 1
  {
    hide Walk, Items, Stands, Stops, Print, WellFormed, Flatten;
    if items == [] {
      var rest := Items(stmt, i, prefix, nested);
      assert rest.At? ==> [] + rest.imports == rest.imports;
    } else {
      var first := Print(items[0]);
      PrintedFirst(items[0], prefix);
      if |items| == 1 {
        StandsAt(stmt, i, first, 0);
        WalkTree(stmt, i, items[0], prefix);
        ItemsStep(stmt, i, prefix, nested);
      } else {
        var rest := items[1..];
        StandsSplit(stmt, i, first + [","], PrintItems(rest));
        StandsSplit(stmt, i, first, [","]);
        StandsAt(stmt, i, first, 0);
        StandsAt(stmt, i + |first|, [","], 0);
        ClosingStops(stmt, i + |first|);
        WalkTree(stmt, i, items[0], prefix);
        ItemsStep(stmt, i, prefix, nested);
        ItemsStep(stmt, i + |first|, prefix, nested);
        StandsFits(stmt, i + |first| + 1, PrintItems(rest));
        ItemsOfGroup(stmt, i + |first| + 1, rest, prefix, nested);
        BeforeBefore(Flatten(items[0], prefix, LinesOf(stmt), i, stmt.public),
                     FlattenItems(rest, prefix, LinesOf(stmt), i + |first| + 1, stmt.public),
                     Items(stmt, i + |PrintItems(items)|, prefix, nested));
      }
    }
  }

  /** A tree does not begin with a comma or a closing brace. */
  lemma PrintedFirst(tree: Tree, prefix: seq<string>)
    requires WellFormed(tree, prefix)
    ensures |Print(tree)| > 0 && Print(tree)[0] !in {",", "}"}
  {
    if tree.path != [] {
      assert PrintPath(tree.path)[0] == tree.path[0];
      if tree.Group? {
        assert Print(tree)[0] == Opening(tree.path)[0];
      }
    }
  }

  /** Expanding the printing of any use trees, on any lines, gives exactly what
      they import, in order, under the right names. */
  lemma {:induction false} ExpandPrinted(stmt: Statement, trees: seq<Tree>)
    requires forall k :: 0 <= k < |trees| ==> WellFormed(trees[k], [])
    requires Values(stmt) == PrintItems(trees)
    ensures Items(stmt, 0, [], false) == At(|stmt.tokens|, FlattenItems(trees, [], LinesOf(stmt), 0, stmt.public))
  {
    hide Items, Print, PrintItems, WellFormed, Flatten, FlattenItems;
    assert Stands(stmt, 0, PrintItems(trees));
    ItemsOfGroup(stmt, 0, trees, [], false);
    NoItemsLeft(stmt);
    var imports := FlattenItems(trees, [], LinesOf(stmt), 0, stmt.public);
    assert imports + [] == imports;
  }

  lemma NoItemsLeft(stmt: Statement)
    ensures Items(stmt, |stmt.tokens|, [], false) == At(|stmt.tokens|, [])
  {
  }
}
