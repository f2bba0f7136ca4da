/** Rendering a terminal in frames: a client that passes back the version of its
    last frame gets only the rows that changed since. */
module RenderFrames {
  import opened Results

  const MAX_FRAME_LINES := 1024

  datatype SearchMatchKind = NoMatch | Match | Current

  /** One cell of the terminal, with its colours packed into 32 bits. */
  datatype TerminalCell = TerminalCell(
    character: char,
    spacer: bool,
    zeroWidth: string,
    fg: bv32,
    bg: bv32,
    bold: bool,
    italic: bool,
    dim: bool,
    underline: bool,
    strikethrough: bool,
    wide: bool,
    searchMatch: SearchMatchKind)

  // The bits of a frame cell's flags.
  const BOLD: bv32 := 0x001
  const ITALIC: bv32 := 0x002
  const DIM: bv32 := 0x004
  const UNDERLINE: bv32 := 0x008
  const STRIKETHROUGH: bv32 := 0x010
  const WIDE: bv32 := 0x020
  const SPACER: bv32 := 0x040
  const CURSOR: bv32 := 0x080
  const SEARCH_MATCH: bv32 := 0x100
  const SEARCH_CURRENT: bv32 := 0x200

  /** `cursor` is the cell under a visible cursor. */
  datatype Screen = Screen(columns: nat, cells: seq<seq<TerminalCell>>, cursor: Option<(nat, nat)>)

  datatype FrameCell = FrameCell(text: string, fg: bv32, bg: bv32, flags: bv32)

  datatype FrameRow = FrameRow(row: nat, cells: seq<FrameCell>)

  datatype Frame = Frame(version: nat, revision: nat, full: bool, columns: nat, lines: nat, focused: bool,
      rows: seq<FrameRow>)

  datatype FrameCache = FrameCache(version: nat, generation: nat, columns: nat, lines: nat, focused: bool,
      rows: seq<FrameRow>)

  /** What a session knows. Every change of the screen bumps the generation. */
  datatype Session = Session(generation: nat, screen: Screen, focused: bool, cache: Option<FrameCache>)

  /** A client: the version of its last frame, and the rows it has received. */
  datatype View = View(version: nat, columns: nat, rows: seq<Option<FrameRow>>)

  const NEW_VIEW := View(0, 0, [])

  // -------------------------------------------------------------------
  // Rows
  // -------------------------------------------------------------------

  function CellText(cell: TerminalCell): string {
    if cell.spacer || cell.character == '\0' then " " else [cell.character] + cell.zeroWidth
  }

  function Bit(on: bool, bit: bv32): bv32 {
    if on then bit else 0
  }

  function CellFlags(cell: TerminalCell, isCursor: bool): bv32 {
    Bit(cell.bold, BOLD) | Bit(cell.italic, ITALIC) | Bit(cell.dim, DIM) | Bit(cell.underline, UNDERLINE)
    | Bit(cell.strikethrough, STRIKETHROUGH) | Bit(cell.wide, WIDE) | Bit(cell.spacer, SPACER) | Bit(isCursor, CURSOR)
    | (match cell.searchMatch case NoMatch => 0 case Match => SEARCH_MATCH case Current => SEARCH_CURRENT)
  }

  /** Every bit tells exactly one thing, and no other bit is set. */
  predicate FlagsTell(flags: bv32, cell: TerminalCell, isCursor: bool) {
    && (flags & 0x001 != 0 <==> cell.bold)
    && (flags & 0x002 != 0 <==> cell.italic)
    && (flags & 0x004 != 0 <==> cell.dim)
    && (flags & 0x008 != 0 <==> cell.underline)
    && (flags & 0x010 != 0 <==> cell.strikethrough)
    && (flags & 0x020 != 0 <==> cell.wide)
    && (flags & 0x040 != 0 <==> cell.spacer)
    && (flags & 0x080 != 0 <==> isCursor)
    && (flags & 0x100 != 0 <==> cell.searchMatch.Match?)
    && (flags & 0x200 != 0 <==> cell.searchMatch.Current?)
    && flags < 0x400
  }

  lemma FlagsTellAll(cell: TerminalCell, isCursor: bool)
    ensures FlagsTell(CellFlags(cell, isCursor), cell, isCursor)
  {
  }

  /** A row of the screen, with the cursor where a focused terminal shows it. */
  function BuildRow(screen: Screen, focused: bool, row: nat): FrameRow
    requires row < |screen.cells|
  {
    FrameRow(row, seq(|screen.cells[row]|, column requires 0 <= column < |screen.cells[row]| =>
      var cell := screen.cells[row][column];
      FrameCell(CellText(cell), cell.fg, cell.bg,
                CellFlags(cell, focused && screen.cursor == Some((row, column))))))
  }

  function Lines(screen: Screen): nat {
    if |screen.cells| <= MAX_FRAME_LINES then |screen.cells| else MAX_FRAME_LINES
  }

  /** What a client should see of a screen. */
  function Shown(screen: Screen, focused: bool): (rows: seq<FrameRow>)
    ensures |rows| == Lines(screen)
    ensures forall i :: 0 <= i < |rows| ==> rows[i].row == i
  {
    seq(Lines(screen), row requires 0 <= row < Lines(screen) => BuildRow(screen, focused, row))
  }

  /** `rows` are in place and are exactly those where `current` differs from
      `previous`, in order. */
  ghost predicate IsDiff(previous: seq<FrameRow>, current: seq<FrameRow>, rows: seq<FrameRow>) {
    && (forall i, j :: 0 <= i < j < |rows| ==> rows[i].row < rows[j].row)
    && (forall i :: 0 <= i < |rows| ==>
        rows[i].row < |current| && rows[i] == current[rows[i].row] && Differs(previous, current, rows[i].row))
    && (forall k :: 0 <= k < |current| && Differs(previous, current, k) ==> current[k] in rows)
  }

  predicate Differs(previous: seq<FrameRow>, current: seq<FrameRow>, k: nat)
    requires k < |current|
  {
    |previous| <= k || previous[k] != current[k]
  }

  function Diff(previous: seq<FrameRow>, current: seq<FrameRow>): seq<FrameRow> {
    if current == [] then
      []
    else
      var last := |current| - 1;
      Diff(previous, current[..last]) + (if Differs(previous, current, last) then [current[last]] else [])
  }

  lemma {:induction false} DiffIsDiff(previous: seq<FrameRow>, current: seq<FrameRow>)
    requires forall i :: 0 <= i < |current| ==> current[i].row == i
    ensures IsDiff(previous, current, Diff(previous, current))
  {
    if current != [] {
      var last := |current| - 1;
      var shorter := current[..last];
      DiffIsDiff(previous, shorter);
      var rows, all := Diff(previous, shorter), Diff(previous, current);
      forall k | 0 <= k < |current| && Differs(previous, current, k)
        ensures current[k] in all
      {
        if k < last {
          assert Differs(previous, shorter, k) && shorter[k] in rows;
        }
      }
      forall i | 0 <= i < |rows|
        ensures Differs(previous, current, rows[i].row) && rows[i].row < last
      {
        assert Differs(previous, shorter, rows[i].row);
      }
    }
  }

  method DiffRows(previous: seq<FrameRow>, current: seq<FrameRow>) returns (changed: seq<FrameRow>)
    ensures changed == Diff(previous, current)
  {
    changed := [];
    for index := 0 to |current|
      invariant changed == Diff(previous, current[..index])
    {
      var upTo := current[..index + 1];
      assert upTo[..index] == current[..index];
      if |previous| <= index || previous[index] != current[index] {
        changed := changed + [current[index]];
      }
    }
    assert current[..|current|] == current;
  }

  // -------------------------------------------------------------------
  // The client
  // -------------------------------------------------------------------

  /** Writes the rows of a frame that fall inside the grid. */
  function Overlay(grid: seq<Option<FrameRow>>, rows: seq<FrameRow>): (r: seq<Option<FrameRow>>)
    ensures |r| == |grid|
  {
    if rows == [] then
      grid
    else
      var last := rows[|rows| - 1];
      var before := Overlay(grid, rows[..|rows| - 1]);
      if last.row < |grid| then before[last.row := Some(last)] else before
  }

  function Apply(view: View, frame: Frame): View {
    var geometryChanged := view.columns != frame.columns || |view.rows| != frame.lines;
    var grid := if frame.full || geometryChanged then seq(frame.lines, _ => None) else view.rows;
    View(frame.version, frame.columns, Overlay(grid, frame.rows))
  }

  /** Rows in order overlay independently of one another. */
  lemma {:induction false} OverlayAt(grid: seq<Option<FrameRow>>, rows: seq<FrameRow>, k: nat)
    requires k < |grid|
    requires forall i, j :: 0 <= i < j < |rows| ==> rows[i].row < rows[j].row
    ensures || (Overlay(grid, rows)[k] == grid[k] && forall i :: 0 <= i < |rows| ==> rows[i].row != k)
            || (exists i :: 0 <= i < |rows| && rows[i].row == k && Overlay(grid, rows)[k] == Some(rows[i]))
  {
    if rows != [] {
      var n := |rows| - 1;
      OverlayAt(grid, rows[..n], k);
      if rows[n].row == k {
        assert Overlay(grid, rows)[k] == Some(rows[n]);
      } else if exists i :: 0 <= i < n && rows[..n][i].row == k && Overlay(grid, rows[..n])[k] == Some(rows[..n][i]) {
        var i :| 0 <= i < n && rows[..n][i].row == k && Overlay(grid, rows[..n])[k] == Some(rows[..n][i]);
        assert rows[i].row == k && Overlay(grid, rows)[k] == Some(rows[i]);
      } else {
        forall i | 0 <= i < |rows|
          ensures rows[i].row != k
        {
          if i < n {
            assert rows[..n][i].row != k;
          }
        }
      }
    }
  }

  function Received(rows: seq<FrameRow>): (r: seq<Option<FrameRow>>)
    ensures |r| == |rows|
  {
    seq(|rows|, i requires 0 <= i < |rows| => Some(rows[i]))
  }

  /** A full frame replaces whatever the client had. */
  lemma FullReplaces(grid: seq<Option<FrameRow>>, rows: seq<FrameRow>)
    requires |grid| == |rows| && forall i :: 0 <= i < |rows| ==> rows[i].row == i
    ensures Overlay(grid, rows) == Received(rows)
  {
    forall k | 0 <= k < |grid|
      ensures Overlay(grid, rows)[k] == Received(rows)[k]
    {
      OverlayAt(grid, rows, k);
      assert rows[k].row == k;
    }
  }

  /** A delta turns the previous rows into the current ones. */
  lemma DeltaRebuilds(previous: seq<FrameRow>, current: seq<FrameRow>)
    requires |previous| == |current|
    requires forall i :: 0 <= i < |current| ==> current[i].row == i
    ensures Overlay(Received(previous), Diff(previous, current)) == Received(current)
  {
    var rows := Diff(previous, current);
    DiffIsDiff(previous, current);
    forall k | 0 <= k < |current|
      ensures Overlay(Received(previous), rows)[k] == Some(current[k])
    {
      OverlayAt(Received(previous), rows, k);
      if Differs(previous, current, k) {
        assert current[k] in rows;
        var i :| 0 <= i < |rows| && rows[i] == current[k];
        assert rows[i].row == k;
      }
    }
  }

  // -------------------------------------------------------------------
  // The session
  // -------------------------------------------------------------------

  function Draw(s: Session, screen: Screen): Session {
    s.(screen := screen, generation := s.generation + 1)
  }

  function DrawAll(s: Session, screens: seq<Screen>): (r: Session)
    ensures r.focused == s.focused && r.cache == s.cache && r.generation == s.generation + |screens|
    ensures r.screen == if screens == [] then s.screen else screens[|screens| - 1]
  {
    if screens == [] then s else Draw(DrawAll(s, screens[..|screens| - 1]), screens[|screens| - 1])
  }

  /** The cached frame may be handed out again. */
  predicate Fresh(s: Session) {
    && s.cache.Some?
    && s.cache.value.generation == s.generation
    && s.cache.value.focused == s.focused
  }

  /** The cache after a frame is drawn anew. `generation` was read before the
      screen was. */
  function Redrawn(s: Session, generation: nat): FrameCache {
    FrameCache(if s.cache.Some? then s.cache.value.version + 1 else 1, generation, s.screen.columns, Lines(s.screen),
               s.focused, Shown(s.screen, s.focused))
  }

  /** May a client at `since` be sent only what changed? */
  predicate DeltaApplies(cache: Option<FrameCache>, since: nat, next: FrameCache) {
    cache.Some? && cache.value.version == since && cache.value.columns == next.columns
        && cache.value.lines == next.lines
  }

  function FrameOf(cache: FrameCache, full: bool, rows: seq<FrameRow>): Frame {
    Frame(cache.version, cache.generation, full, cache.columns, cache.lines, cache.focused, rows)
  }

  /** One call to render. `raced` is what was drawn on the terminal between
      reading its generation and reading its screen. */
  function Render(s: Session, since: nat, raced: seq<Screen>): (Session, Frame) {
    if Fresh(s) then
      var cached := s.cache.value;
      (s, FrameOf(cached, since != cached.version, if since == cached.version then [] else cached.rows))
    else
      var drawn := DrawAll(s, raced);
      var next := Redrawn(drawn, s.generation);
      var delta := DeltaApplies(s.cache, since, next);
      (drawn.(cache := Some(next)),
       FrameOf(next, !delta, if delta then Diff(s.cache.value.rows, next.rows) else next.rows))
  }

  /** A cached frame is what the screen looked like at its generation or later. */
  predicate SessionInv(s: Session) {
    s.cache.Some? ==>
      var cache := s.cache.value;
      && cache.version >= 1 && |cache.rows| == cache.lines
      && cache.generation <= s.generation
      && (forall i :: 0 <= i < |cache.rows| ==> cache.rows[i].row == i)
      && (cache.generation == s.generation ==>
          cache.columns == s.screen.columns && cache.rows == Shown(s.screen, cache.focused))
  }

  /** A client at the current version holds the cached frame. */
  predicate ViewInv(s: Session, view: View) {
    || view.version == 0
    || (&& s.cache.Some? && view.version <= s.cache.value.version
        && (view.version == s.cache.value.version ==>
              view.columns == s.cache.value.columns && view.rows == Received(s.cache.value.rows)))
  }

  /** The screens the terminal showed during a call. */
  predicate ShownDuring(s: Session, raced: seq<Screen>, screen: Screen) {
    screen == s.screen || screen in raced
  }

  /** One pull: the client ends up with exactly the rows of a screen the
      terminal showed during the call, and every other client stays sound. */
  lemma RenderRebuilds(s: Session, view: View, raced: seq<Screen>)
    requires SessionInv(s) && ViewInv(s, view)
    ensures var (next, frame) := Render(s, view.version, raced);
            && SessionInv(next) && ViewInv(next, Apply(view, frame))
            && next.cache.Some? && next.focused == s.focused
            && next.cache.value.version
               == (if s.cache.None? then 1 else if Fresh(s) then s.cache.value.version else s.cache.value.version + 1)
            && Apply(view, frame).version == next.cache.value.version
            && Apply(view, frame).rows == Received(next.cache.value.rows)
            && (exists screen ::
                  && ShownDuring(s, raced, screen)
                  && Apply(view, frame).rows == Received(Shown(screen, s.focused))
                  && Apply(view, frame).columns == screen.columns)
  {
    var (next, frame) := Render(s, view.version, raced);
    var cache := next.cache.value;
    if frame.full {
      FullReplaces(seq(frame.lines, _ => None), frame.rows);
    } else if !Fresh(s) {
      DeltaRebuilds(s.cache.value.rows, cache.rows);
    } else {
      assert Apply(view, frame).rows == view.rows;
    }
    var screen := if Fresh(s) then s.screen else next.screen;
    assert ShownDuring(s, raced, screen);
    assert cache.rows == Shown(screen, s.focused);
  }

  // -------------------------------------------------------------------
  // Whole runs
  // -------------------------------------------------------------------

  datatype Event =
    | Drawn(screen: Screen)
    | Focused(focused: bool)
    | Attached
    | Pulled(client: nat, raced: seq<Screen>, delivered: bool)

  datatype World = World(session: Session, views: seq<View>)

  function Next(w: World, event: Event): World {
    match event
    case Drawn(screen) => w.(session := Draw(w.session, screen))
    case Focused(focused) => w.(session := w.session.(focused := focused))
    case Attached => w.(views := w.views + [NEW_VIEW])
    case Pulled(client, raced, delivered) =>
      if client < |w.views| then
        var (session, frame) := Render(w.session, w.views[client].version, raced);
        World(session, if delivered then w.views[client := Apply(w.views[client], frame)] else w.views)
      else
        w
  }

  function Run(w: World, events: seq<Event>): World {
    if events == [] then w else Next(Run(w, events[..|events| - 1]), events[|events| - 1])
  }

  predicate Sound(w: World) {
    SessionInv(w.session) && forall c :: 0 <= c < |w.views| ==> ViewInv(w.session, w.views[c])
  }

  lemma NextKeepsSound(w: World, event: Event)
    requires Sound(w)
    ensures Sound(Next(w, event))
  {
    if event.Pulled? && event.client < |w.views| {
      RenderRebuilds(w.session, w.views[event.client], event.raced);
      forall c | 0 <= c < |w.views|
        ensures ViewInv(Next(w, event).session, w.views[c])
      {
      }
    }
  }

  lemma {:induction false} RunKeepsSound(screen: Screen, focused: bool, events: seq<Event>)
    ensures Sound(Run(World(Session(0, screen, focused, None), []), events))
  {
    if events != [] {
      RunKeepsSound(screen, focused, events[..|events| - 1]);
      NextKeepsSound(Run(World(Session(0, screen, focused, None), []), events[..|events| - 1]), events[|events| - 1]);
    }
  }

  /** After any run of output, resizes, focus changes, lost frames and pulls by
      any number of clients, a client that pulls holds exactly what the terminal
      shows, unless the screen changed again during the call. */
  lemma ClientsSeeTheScreen(screen: Screen, focused: bool, events: seq<Event>, client: nat, raced: seq<Screen>)
    requires client < |Run(World(Session(0, screen, focused, None), []), events).views|
    ensures var before := Run(World(Session(0, screen, focused, None), []), events);
            var after := Next(before, Pulled(client, raced, true));
            && (raced == [] ==>
                  && after.views[client].rows == Received(Shown(after.session.screen, after.session.focused))
                  && after.views[client].columns == after.session.screen.columns)
            && (exists seen ::
                  && ShownDuring(before.session, raced, seen)
                  && after.views[client].rows == Received(Shown(seen, before.session.focused))
                  && after.views[client].columns == seen.columns)
  {
    var before := Run(World(Session(0, screen, focused, None), []), events);
    RunKeepsSound(screen, focused, events);
    RenderRebuilds(before.session, before.views[client], raced);
  }

  /** What a client's cell must be for a cell of the terminal: a blank where the
      terminal has none of its own, otherwise its character and the marks on it. */
  predicate CellShows(shown: FrameCell, cell: TerminalCell, isCursor: bool) {
    && (cell.spacer || cell.character == '\0' ==> shown.text == " ")
    && (!cell.spacer && cell.character != '\0' ==>
          shown.text != "" && shown.text[0] == cell.character && shown.text[1..] == cell.zeroWidth)
    && shown.fg == cell.fg && shown.bg == cell.bg
    && FlagsTell(shown.flags, cell, isCursor)
  }

  /** The client holds this screen: its first 1024 lines, cell by cell, with the
      cursor marked exactly where a focused terminal has a visible one. */
  predicate Depicts(view: View, screen: Screen, focused: bool) {
    && view.columns == screen.columns
    && |view.rows| == (if |screen.cells| < 1024 then |screen.cells| else 1024)
    && forall line :: 0 <= line < |view.rows| ==>
         && view.rows[line].Some? && view.rows[line].value.row == line
         && |view.rows[line].value.cells| == |screen.cells[line]|
         && forall column :: 0 <= column < |screen.cells[line]| ==>
              CellShows(view.rows[line].value.cells[column], screen.cells[line][column],
                        focused && screen.cursor == Some((line, column)))
  }

  lemma ShownDepicts(view: View, screen: Screen, focused: bool)
    requires view.rows == Received(Shown(screen, focused)) && view.columns == screen.columns
    ensures Depicts(view, screen, focused)
  {
    hide FlagsTell, CellFlags;
    forall line | 0 <= line < |view.rows|
      ensures view.rows[line].Some? && view.rows[line].value == BuildRow(screen, focused, line)
      ensures forall column :: 0 <= column < |screen.cells[line]| ==>
                CellShows(view.rows[line].value.cells[column], screen.cells[line][column],
                          focused && screen.cursor == Some((line, column)))
    {
      forall column | 0 <= column < |screen.cells[line]|
        ensures CellShows(view.rows[line].value.cells[column], screen.cells[line][column],
                          focused && screen.cursor == Some((line, column)))
      {
        FlagsTellAll(screen.cells[line][column], focused && screen.cursor == Some((line, column)));
      }
    }
  }

  /** After any run, a client that pulls while nothing else is drawn holds the
      terminal's screen, cell by cell. */
  lemma {:induction false} ClientsSeeTheCells(screen: Screen, focused: bool, events: seq<Event>, client: nat)
    requires client < |Run(World(Session(0, screen, focused, None), []), events).views|
    ensures var before := Run(World(Session(0, screen, focused, None), []), events);
            var after := Next(before, Pulled(client, [], true));
            Depicts(after.views[client], before.session.screen, before.session.focused)
  {
    hide Run, Depicts, Shown, Received;
    ClientsSeeTheScreen(screen, focused, events, client, []);
    var before := Run(World(Session(0, screen, focused, None), []), events);
    ShownDepicts(Next(before, Pulled(client, [], true)).views[client], before.session.screen, before.session.focused);
  }

  lemma {:induction false} FullFrameDepicts(s: Session, since: nat)
    requires SessionInv(s)
    ensures var frame := Render(s, since, []).1;
            frame.full ==> Depicts(View(frame.version, frame.columns, Received(frame.rows)), s.screen, s.focused)
  {
    hide Depicts, Shown, Received;
    var frame := Render(s, since, []).1;
    if frame.full {
      assert frame.rows == Shown(s.screen, s.focused);
      ShownDepicts(View(frame.version, frame.columns, Received(frame.rows)), s.screen, s.focused);
    }
  }

  /** A client that is up to date is sent a delta unless the geometry changed, and
      the delta has exactly the rows that differ from those it has. */
  lemma {:induction false} UpToDateGetsTheDifference(s: Session, view: View)
    requires SessionInv(s) && ViewInv(s, view)
    requires s.cache.Some? && view.version == s.cache.value.version
    requires view.columns == s.screen.columns && |view.rows| == Lines(s.screen)
    ensures var frame := Render(s, view.version, []).1;
            && !frame.full
            && forall k :: 0 <= k < |view.rows| ==>
                 (view.rows[k] != Some(Shown(s.screen, s.focused)[k]) <==>
                  exists i :: 0 <= i < |frame.rows| && frame.rows[i].row == k)
  {
    var frame := Render(s, view.version, []).1;
    var shown := Shown(s.screen, s.focused);
    assert view.rows == Received(s.cache.value.rows);
    if Fresh(s) {
      assert s.cache.value.rows == shown;
    } else {
      DiffIsDiff(s.cache.value.rows, shown);
      assert frame.rows == Diff(s.cache.value.rows, shown);
      forall k | 0 <= k < |view.rows|
        ensures view.rows[k] != Some(shown[k]) <==> exists i :: 0 <= i < |frame.rows| && frame.rows[i].row == k
      {
        if Differs(s.cache.value.rows, shown, k) {
          assert shown[k] in frame.rows;
          var i :| 0 <= i < |frame.rows| && frame.rows[i] == shown[k];
          assert frame.rows[i].row == k;
        }
      }
    }
  }

  /** A second pull sends nothing, and a delta only rows that changed. */
  lemma NothingIsSentTwice(s: Session, view: View)
    requires SessionInv(s) && ViewInv(s, view)
    ensures var (once, frame) := Render(s, view.version, []);
            Render(once, frame.version, []) == (once, FrameOf(once.cache.value, false, []))
    ensures var frame := Render(s, view.version, []).1;
            !frame.full ==> forall row :: row in frame.rows ==> row.row < |view.rows| && view.rows[row.row] != Some(row)
  {
    var frame := Render(s, view.version, []).1;
    if !frame.full && !Fresh(s) {
      DiffIsDiff(s.cache.value.rows, Redrawn(s, s.generation).rows);
    }
  }

  // -------------------------------------------------------------------
  // The session object
  // -------------------------------------------------------------------

  const REVISIONS := 0x1_0000_0000_0000_0000

  /** Whoever waits for an update compares revisions; `wakes` counts the calls that
      wake them. */
  class SshSessionInner {
    var generation: nat
    var screen: Screen
    var focused: bool
    var frame: Option<FrameCache>
    var revision: nat
    var wakes: nat

    function State(): Session
      reads this
    {
      Session(generation, screen, focused, frame)
    }

    constructor (screen: Screen)
      ensures SessionInv(State()) && State() == Session(0, screen, false, None)
      ensures revision == 1 && wakes == 0
    {
      this.screen := screen;
      generation, focused, frame, revision, wakes := 0, false, None, 1, 0;
    }

    method Output(next: Screen)
      modifies this`screen, this`generation
      ensures State() == Draw(old(State()), next)
    {
      screen := next;
      generation := generation + 1;
    }

    /** A focus that changes is an update: waiters find another revision and are
        woken, and the cached frame is drawn anew. The same focus changes nothing. */
    method SetFocus(next: bool)
      requires SessionInv(State()) && revision < REVISIONS
      modifies this`focused, this`revision, this`wakes
      ensures SessionInv(State()) && revision < REVISIONS
      ensures State() == old(State()).(focused := next)
      ensures revision == if next == old(focused) then old(revision) else (old(revision) + 1) % REVISIONS
      ensures wakes == if next == old(focused) then old(wakes) else old(wakes) + 1
      ensures revision == old(revision) ==> State() == old(State())
      ensures old(Fresh(State())) ==> (Fresh(State()) <==> next == old(focused))
    {
      var before := focused;
      focused := next;
      if before != next {
        revision := (revision + 1) % REVISIONS;
        wakes := wakes + 1;
      }
    }

    method RenderFrame(since: nat, raced: seq<Screen>) returns (result: Frame)
      requires SessionInv(State())
      modifies this`screen, this`generation, this`frame
      ensures (State(), result) == Render(old(State()), since, raced)
      ensures SessionInv(State())
      ensures result.full && raced == [] ==>
                Depicts(View(result.version, result.columns, Received(result.rows)), screen, focused)
    {
      hide SessionInv, Diff, Shown, Lines, Depicts;
      ghost var start := State();
      FullFrameDepicts(start, since);
      RenderKeepsInv(start, since, raced);
      var read := generation;
      if frame.Some? && frame.value.generation == read && frame.value.focused == focused {
        var cached := frame.value;
        var rows := if since == cached.version then [] else cached.rows;
        return FrameOf(cached, since != cached.version, rows);
      }

      // The terminal goes on while the frame is being drawn.
      for i := 0 to |raced|
        invariant State() == DrawAll(start, raced[..i])
      {
        assert raced[..i + 1][..i] == raced[..i];
        Output(raced[i]);
      }
      assert raced[..|raced|] == raced;
      result := Redraw(since, read);
    }

    /** Draws a frame anew and caches it: in full, or what differs from the cached
        one for a client that has that. */
    method Redraw(since: nat, read: nat) returns (result: Frame)
      modifies this`frame
      ensures var next := Redrawn(old(State()), read);
              var delta := DeltaApplies(old(frame), since, next);
              && State() == old(State()).(cache := Some(next))
              && result == FrameOf(next, !delta, if delta then Diff(old(frame).value.rows, next.rows) else next.rows)
    {
      hide Diff, Shown;
      var lines := if |screen.cells| <= MAX_FRAME_LINES then |screen.cells| else MAX_FRAME_LINES;
      var rows := Shown(screen, focused);
      var version, full, sent := 1, true, rows;
      if frame.Some? {
        version := frame.value.version + 1;
        if frame.value.version == since && frame.value.columns == screen.columns && frame.value.lines == lines {
          sent := DiffRows(frame.value.rows, rows);
          full := false;
        }
      }
      frame := Some(FrameCache(version, read, screen.columns, lines, focused, rows));
      result := Frame(version, read, full, screen.columns, lines, focused, sent);
    }
  }

  lemma RenderKeepsInv(s: Session, since: nat, raced: seq<Screen>)
    requires SessionInv(s)
    ensures SessionInv(Render(s, since, raced).0)
  {
  }
}
