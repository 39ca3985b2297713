// One text screen: 25 rows of 80 cells in a 4 KB page, a cursor, and the two ways the kernel prints to it.
module Screen {
  import opened Bytes

  const COLS := 80
  const ROWS := 25
  const ROW_BYTES := 160
  const SCREEN_BYTES := 4000
  const PAGE := 4096
  const F1: byte := 0xF1
  const F2: byte := 0xF2
  const F3: byte := 0xF3

  datatype Pane = Pane(page: seq<byte>, x: int, y: int)

  predicate InBounds(p: Pane) {
    |p.page| == PAGE && 0 <= p.x < COLS && 0 <= p.y < ROWS
  }

  function At(x: int, y: int): int { 2 * (COLS * y + x) }

  predicate Breaks(c: byte) { c == NEWLINE || c == RETURN }

  predicate FunctionKey(c: byte) { c == F1 || c == F2 || c == F3 }

  predicate Ordinary(c: byte) { !Breaks(c) && c != BACKSPACE && !FunctionKey(c) }

  function SetCell(page: seq<byte>, x: int, y: int, c: byte, attr: byte): (r: seq<byte>)
    requires |page| == PAGE && 0 <= x < COLS && 0 <= y < ROWS
    ensures |r| == PAGE
  {
    page[At(x, y) := c][At(x, y) + 1 := attr]
  }

  function BlankRow(attr: byte): (r: seq<byte>)
    ensures |r| == ROW_BYTES
  {
    seq(ROW_BYTES, i => if i % 2 == 0 then SPACE else attr)
  }

  function Scroll(page: seq<byte>, attr: byte): (r: seq<byte>)
    requires |page| == PAGE
    ensures |r| == PAGE
  {
    page[ROW_BYTES..SCREEN_BYTES] + BlankRow(attr) + page[SCREEN_BYTES..]
  }

  // `putc` when the executing terminal is on the screen. (startX, startY) is where Backspace stops.
  function PutFront(p: Pane, attr: byte, c: byte, startX: int, startY: int): (r: Pane)
    requires InBounds(p)
    ensures InBounds(r)
  {
    if Breaks(c) then
      if p.y >= ROWS - 1 then Pane(Scroll(p.page, attr), 0, p.y) else Pane(p.page, 0, p.y + 1)
    else if c == BACKSPACE then
      if (p.x == 0 && p.y == 0) || (p.x == startX && p.y == startY) then p
      else
        var x := (p.x + COLS - 1) % COLS;
        Pane(p.page[At(p.x - 1, p.y) := SPACE], x, if x == COLS - 1 then p.y - 1 else p.y)
    else if FunctionKey(c) then p
    else
      var page := SetCell(p.page, p.x, p.y, c, attr);
      if p.x == COLS - 1 && p.y == ROWS - 1 then Pane(Scroll(page, attr), 0, p.y)
      else if p.x == COLS - 1 then Pane(page, 0, p.y + 1)
      else Pane(page, p.x + 1, p.y)
  }

  // `putc` when it is not: the same text goes to the terminal's backing page.
  function PutBack(p: Pane, attr: byte, c: byte): (r: Pane)
    requires InBounds(p)
    ensures InBounds(r)
  {
    if Breaks(c) then
      Pane(if p.y >= ROWS - 1 then Scroll(p.page, attr) else p.page, 0, if p.y != ROWS - 1 then p.y + 1 else p.y)
    else
      var full := p.x == COLS - 1 && p.y == ROWS - 1;
      var page := if full then Scroll(p.page, attr) else p.page;
      var (x, y) := if full then (0, p.y) else if p.x == COLS - 1 then (0, p.y + 1) else (p.x, p.y);
      Pane(SetCell(page, p.x, p.y, c, attr), x + 1, y)
  }

  // The two paths agree exactly on line breaks, and on ordinary characters short of the last column.
  lemma PathsAgree(p: Pane, attr: byte, c: byte, startX: int, startY: int)
    requires InBounds(p)
    ensures PutFront(p, attr, c, startX, startY) == PutBack(p, attr, c) <==> Breaks(c) || (Ordinary(c) && p.x != COLS - 1)
  {
  }

  // ----- the transcript

  // Everything printed since the screen was cleared, cut into rows: a row ends at a line break or when it is full.
  type Transcript = rows: seq<seq<byte>> | |rows| > 0 && forall r | r in rows :: |r| <= COLS witness [[]]

  function Print(rows: Transcript, c: byte): (r: Transcript)
    requires |rows[|rows| - 1]| < COLS
    ensures |r[|r| - 1]| < COLS
  {
    var n := |rows| - 1;
    if Breaks(c) then rows + [[]]
    else if !Ordinary(c) then rows
    else
      var line := rows[n] + [c];
      if |line| == COLS then rows[n := line] + [[]] else rows[n := line]
  }

  function PrintAll(rows: Transcript, text: seq<byte>): (r: Transcript)
    requires |rows[|rows| - 1]| < COLS
    ensures |r[|r| - 1]| < COLS
    decreases |text|
  {
    if text == [] then rows else PrintAll(Print(rows, text[0]), text[1..])
  }

  // The first row of the transcript that the screen shows.
  function TopRow(rows: seq<seq<byte>>): nat { if |rows| <= ROWS then 0 else |rows| - ROWS }

  function CharAt(rows: seq<seq<byte>>, r: nat, col: nat): byte {
    var i := TopRow(rows) + r;
    if i < |rows| && col < |rows[i]| then rows[i][col] else SPACE
  }

  ghost predicate Cells(page: seq<byte>, rows: Transcript) {
    |page| == PAGE && forall r, col | 0 <= r < ROWS && 0 <= col < COLS :: page[At(col, r)] == CharAt(rows, r, col)
  }

  // The text of a terminal that is now on the screen, now off it: its rows, and where the next character goes, which need
  // not be at their end.
  datatype Script = Script(rows: Transcript, row: nat, col: nat)

  ghost predicate InScript(t: Script) { TopRow(t.rows) <= t.row < |t.rows| && t.col < COLS }

  // The screen is the last 25 rows of the script, padded with spaces, and the cursor is where it goes on.
  ghost predicate ShowsScript(p: Pane, t: Script) {
    InBounds(p) && InScript(t) && Cells(p.page, t.rows) && p.y == t.row - TopRow(t.rows) && p.x == t.col
  }

  // A transcript goes on at its end.
  function AtEnd(rows: Transcript): Script { Script(rows, |rows| - 1, |rows[|rows| - 1]|) }

  ghost predicate Shows(p: Pane, rows: Transcript) { ShowsScript(p, AtEnd(rows)) }

  lemma ScrollShows(page: seq<byte>, attr: byte, r: int, col: int)
    requires |page| == PAGE && 0 <= r < ROWS && 0 <= col < COLS
    ensures Scroll(page, attr)[At(col, r)] == if r == ROWS - 1 then SPACE else page[At(col, r + 1)]
  {
  }

  lemma CellsApart(x: int, y: int, col: int, r: int)
    requires 0 <= x < COLS && 0 <= col < COLS
    ensures At(col, r) == At(x, y) <==> col == x && r == y
    ensures At(col, r) != At(x, y) + 1
  {
  }

  lemma BreakCells(page: seq<byte>, attr: byte, rows: Transcript)
    requires Cells(page, rows)
    ensures Cells(if |rows| - 1 - TopRow(rows) >= ROWS - 1 then Scroll(page, attr) else page, rows + [[]])
  {
    forall r, col | 0 <= r < ROWS && 0 <= col < COLS
      ensures (if |rows| - 1 - TopRow(rows) >= ROWS - 1 then Scroll(page, attr) else page)[At(col, r)] == CharAt(rows + [[]], r, col)
    {
      ScrollShows(page, attr, r, col);
      if r + 1 < ROWS { assert page[At(col, r + 1)] == CharAt(rows, r + 1, col); }
      assert page[At(col, r)] == CharAt(rows, r, col);
    }
  }

  // A row after a character has been written at a column of it, or beyond its end.
  function Written(line: seq<byte>, col: nat, c: byte): (r: seq<byte>)
    requires |line| <= COLS && col < COLS
    ensures |r| == Max(|line|, col + 1) <= COLS
  {
    if col < |line| then line[col := c] else line + Repeat(SPACE, col - |line|) + [c]
  }

  lemma WriteCells(page: seq<byte>, attr: byte, t: Script, c: byte)
    requires Cells(page, t.rows) && InScript(t)
    ensures Cells(SetCell(page, t.col, t.row - TopRow(t.rows), c, attr), t.rows[t.row := Written(t.rows[t.row], t.col, c)])
  {
    var (y, rows') := (t.row - TopRow(t.rows), t.rows[t.row := Written(t.rows[t.row], t.col, c)]);
    forall r, col | 0 <= r < ROWS && 0 <= col < COLS
      ensures SetCell(page, t.col, y, c, attr)[At(col, r)] == CharAt(rows', r, col)
    {
      CellsApart(t.col, y, col, r);
      assert page[At(col, r)] == CharAt(t.rows, r, col);
    }
  }

  // A space written anywhere shows as the end of a row, or in it.
  lemma EraseCells(page: seq<byte>, t: Script)
    requires Cells(page, t.rows) && InScript(t)
    ensures Cells(page[At(t.col, t.row - TopRow(t.rows)) := SPACE], t.rows[t.row := Erased(t.rows[t.row], t.col)])
  {
    var (y, rows') := (t.row - TopRow(t.rows), t.rows[t.row := Erased(t.rows[t.row], t.col)]);
    forall r, col | 0 <= r < ROWS && 0 <= col < COLS
      ensures page[At(t.col, y) := SPACE][At(col, r)] == CharAt(rows', r, col)
    {
      CellsApart(t.col, y, col, r);
      assert page[At(col, r)] == CharAt(t.rows, r, col);
    }
  }

  function Erased(line: seq<byte>, col: nat): (r: seq<byte>)
    ensures |r| == |line|
  {
    if col < |line| then line[col := SPACE] else line
  }

  // ----- either path

  // A byte printed while the terminal is on the screen, or while it is not.
  datatype Output = OnScreen(c: byte) | OffScreen(c: byte)

  function Put(p: Pane, attr: byte, o: Output, startX: int, startY: int): (r: Pane)
    requires InBounds(p)
    ensures InBounds(r)
  {
    if o.OnScreen? then PutFront(p, attr, o.c, startX, startY) else PutBack(p, attr, o.c)
  }

  function CellAt(page: seq<byte>, col: int, row: int): byte
    requires |page| == PAGE && 0 <= col < COLS && 0 <= row < ROWS
  {
    page[At(col, row)]
  }

  function ColourAt(page: seq<byte>, col: int, row: int): byte
    requires |page| == PAGE && 0 <= col < COLS && 0 <= row < ROWS
  {
    page[At(col, row) + 1]
  }

  // Off the screen, a character of the last column takes the cursor to column 1 of the row below; but from the last
  // cell of a full screen it is itself printed at the end of the row below.
  lemma BackgroundWraps(p: Pane, attr: byte, c: byte)
    requires InBounds(p) && !Breaks(c) && p.x == COLS - 1
    ensures var r := PutBack(p, attr, c);
            && r.x == 1 && r.y == Min(p.y + 1, ROWS - 1)
            && |r.page| == PAGE
            && (forall row, col | 0 <= row < ROWS && 0 <= col < COLS ::
                 CellAt(r.page, col, row) == if row == p.y && col == COLS - 1 then c
                                             else if p.y < ROWS - 1 then CellAt(p.page, col, row)
                                             else if row < ROWS - 1 then CellAt(p.page, col, row + 1)
                                             else SPACE)
  {
    var page := if p.y < ROWS - 1 then p.page else Scroll(p.page, attr);
    forall row, col | 0 <= row < ROWS && 0 <= col < COLS
      ensures CellAt(PutBack(p, attr, c).page, col, row) == if row == p.y && col == COLS - 1 then c else CellAt(page, col, row)
    {
      CellsApart(p.x, p.y, col, row);
    }
    forall row, col | 0 <= row < ROWS && 0 <= col < COLS
      ensures CellAt(Scroll(p.page, attr), col, row) == if row < ROWS - 1 then CellAt(p.page, col, row + 1) else SPACE
    {
      ScrollShows(p.page, attr, row, col);
    }
  }

  // The start of the next row.
  function NextRow(t: Script): (r: Script)
    requires InScript(t)
    ensures InScript(r)
  {
    Script(if t.row + 1 < |t.rows| then t.rows else t.rows + [[]], t.row + 1, 0)
  }

  // The cell before this one, where there is one on the screen.
  function Back(t: Script): (r: Script)
    requires InScript(t)
    ensures InScript(r) && r.rows == t.rows
  {
    if t.col > 0 then t.(col := t.col - 1) else if t.row > TopRow(t.rows) then t.(row := t.row - 1, col := COLS - 1) else t
  }

  // One more byte of output. On the screen Backspace takes back the cell before, in whatever row, and function keys print
  // nothing; off it they are characters like any other.
  function Extend(t: Script, o: Output): (r: Script)
    requires InScript(t)
    ensures InScript(r)
  {
    var (c, b) := (o.c, Back(t));
    var t' := t.(rows := t.rows[t.row := Written(t.rows[t.row], t.col, c)]);
    if Breaks(c) then NextRow(t)
    else if o.OnScreen? && c == BACKSPACE then
      if b == t then t else b.(rows := b.rows[b.row := Erased(b.rows[b.row], b.col)])
    else if o.OnScreen? && FunctionKey(c) then t
    else if t.col < COLS - 1 then t'.(col := t.col + 1)
    else if o.OnScreen? then NextRow(t')
    else if t.row < TopRow(t.rows) + ROWS - 1 then NextRow(t').(col := 1)
    else Script(t.rows + [Written([], t.col, c)], t.row + 1, 1)
  }

  ghost function ExtendAll(t: Script, os: seq<Output>): (r: Script)
    requires InScript(t)
    ensures InScript(r)
    decreases |os|
  {
    if os == [] then t else ExtendAll(Extend(t, os[0]), os[1..])
  }

  // Backspace is stopped at this place; in the top left corner it has nothing to take back anyway.
  predicate AtStop(p: Pane, startX: int, startY: int) {
    !(p.x == 0 && p.y == 0) && p.x == startX && p.y == startY
  }

  // Any byte, on either path, in any cell of the screen, but for a Backspace that is stopped.
  lemma PutShows(p: Pane, attr: byte, t: Script, o: Output, startX: int, startY: int)
    requires ShowsScript(p, t) && !(o == OnScreen(BACKSPACE) && AtStop(p, startX, startY))
    ensures ShowsScript(Put(p, attr, o, startX, startY), Extend(t, o))
  {
    hide Cells, Scroll, SetCell, CharAt, Written, Erased;
    var c := o.c;
    if Breaks(c) {
      BreakShows(p, attr, t);
    } else if o == OnScreen(BACKSPACE) {
      BackspaceShows(p, attr, t, startX, startY);
    } else if o.OffScreen? && p.x == COLS - 1 {
      WrapShows(p, attr, t, c);
    } else if o.OffScreen? || !FunctionKey(c) {
      CharacterShows(p, attr, t, o, startX, startY);
    }
  }

  lemma BreakShows(p: Pane, attr: byte, t: Script)
    requires ShowsScript(p, t)
    ensures ShowsScript(if p.y >= ROWS - 1 then Pane(Scroll(p.page, attr), 0, p.y) else Pane(p.page, 0, p.y + 1), NextRow(t))
  {
    hide Cells, Scroll, CharAt;
    BreakCells(p.page, attr, t.rows);
  }

  lemma BackspaceShows(p: Pane, attr: byte, t: Script, startX: int, startY: int)
    requires ShowsScript(p, t) && !AtStop(p, startX, startY)
    ensures ShowsScript(PutFront(p, attr, BACKSPACE, startX, startY), Extend(t, OnScreen(BACKSPACE)))
  {
    hide Cells, Scroll, CharAt, Erased;
    if p.x > 0 || p.y > 0 { EraseCells(p.page, Back(t)); }
  }

  lemma CharacterShows(p: Pane, attr: byte, t: Script, o: Output, startX: int, startY: int)
    requires ShowsScript(p, t) && if o.OnScreen? then Ordinary(o.c) else !Breaks(o.c) && p.x < COLS - 1
    ensures ShowsScript(Put(p, attr, o, startX, startY), Extend(t, o))
  {
    hide Cells, Scroll, SetCell, CharAt, Written;
    WriteCells(p.page, attr, t, o.c);
    var t' := t.(rows := t.rows[t.row := Written(t.rows[t.row], t.col, o.c)]);
    if p.x == COLS - 1 { BreakShows(p.(page := SetCell(p.page, p.x, p.y, o.c, attr)), attr, t'); }
  }

  lemma WrapShows(p: Pane, attr: byte, t: Script, c: byte)
    requires ShowsScript(p, t) && !Breaks(c) && p.x == COLS - 1
    ensures ShowsScript(PutBack(p, attr, c), Extend(t, OffScreen(c)))
  {
    hide Cells, Scroll, SetCell, CharAt, Written;
    if p.y < ROWS - 1 {
      WriteCells(p.page, attr, t, c);
      var t' := t.(rows := t.rows[t.row := Written(t.rows[t.row], t.col, c)]);
      BreakShows(p.(page := SetCell(p.page, p.x, p.y, c, attr)), attr, t');
    } else {
      var n := |t.rows|;
      BreakCells(p.page, attr, t.rows);
      WriteCells(Scroll(p.page, attr), attr, Script(t.rows + [[]], n, t.col), c);
      assert (t.rows + [[]])[n := Written([], t.col, c)] == t.rows + [Written([], t.col, c)];
    }
  }

  // On the screen, without Backspace, a transcript stays one.
  lemma ScriptIsTranscript(rows: Transcript, c: byte)
    requires |rows[|rows| - 1]| < COLS && c != BACKSPACE
    ensures Extend(AtEnd(rows), OnScreen(c)) == AtEnd(Print(rows, c))
  {
    var n := |rows| - 1;
    assert Written(rows[n], |rows[n]|, c) == rows[n] + [c];
  }

  lemma PutFrontShows(p: Pane, attr: byte, rows: Transcript, c: byte, startX: int, startY: int)
    requires Shows(p, rows) && c != BACKSPACE
    ensures Shows(PutFront(p, attr, c, startX, startY), Print(rows, c))
  {
    hide Cells, Extend, PutFront;
    ScriptIsTranscript(rows, c);
    PutShows(p, attr, AtEnd(rows), OnScreen(c), startX, startY);
  }

  // ----- colours

  // Every visible character is in the terminal's colour.
  ghost predicate Inked(page: seq<byte>, attr: byte) {
    |page| == PAGE && forall r, col | 0 <= r < ROWS && 0 <= col < COLS ::
      CellAt(page, col, r) == SPACE || ColourAt(page, col, r) == attr
  }

  // Every cell is.
  ghost predicate Coloured(page: seq<byte>, attr: byte) {
    |page| == PAGE && forall r, col | 0 <= r < ROWS && 0 <= col < COLS :: ColourAt(page, col, r) == attr
  }

  lemma ScrollColours(page: seq<byte>, attr: byte)
    requires |page| == PAGE
    ensures Inked(page, attr) ==> Inked(Scroll(page, attr), attr)
    ensures Coloured(page, attr) ==> Coloured(Scroll(page, attr), attr)
  {
    forall r, col | 0 <= r < ROWS && 0 <= col < COLS
      ensures CellAt(Scroll(page, attr), col, r) == if r == ROWS - 1 then SPACE else CellAt(page, col, r + 1)
      ensures ColourAt(Scroll(page, attr), col, r) == if r == ROWS - 1 then attr else ColourAt(page, col, r + 1)
    {
      ScrollShows(page, attr, r, col);
      assert BlankRow(attr)[2 * col + 1] == attr;
    }
  }

  lemma WriteColours(page: seq<byte>, x: int, y: int, c: byte, attr: byte)
    requires |page| == PAGE && 0 <= x < COLS && 0 <= y < ROWS
    ensures Inked(page, attr) ==> Inked(SetCell(page, x, y, c, attr), attr)
    ensures Coloured(page, attr) ==> Coloured(SetCell(page, x, y, c, attr), attr)
  {
    forall r, col | 0 <= r < ROWS && 0 <= col < COLS
      ensures ColourAt(SetCell(page, x, y, c, attr), col, r) == if col == x && r == y then attr else ColourAt(page, col, r)
      ensures !(col == x && r == y) ==> CellAt(SetCell(page, x, y, c, attr), col, r) == CellAt(page, col, r)
    {
      CellsApart(x, y, col, r);
    }
  }

  // Printing on either path, any byte, Backspace included, keeps to the terminal's colour.
  lemma PutColours(p: Pane, attr: byte, o: Output, startX: int, startY: int)
    requires InBounds(p)
    ensures Inked(p.page, attr) ==> Inked(Put(p, attr, o, startX, startY).page, attr)
    ensures Coloured(p.page, attr) ==> Coloured(Put(p, attr, o, startX, startY).page, attr)
  {
    hide Scroll, Inked, Coloured;
    ScrollColours(p.page, attr);
    WriteColours(p.page, p.x, p.y, o.c, attr);
    ScrollColours(SetCell(p.page, p.x, p.y, o.c, attr), attr);
    WriteColours(Scroll(p.page, attr), p.x, p.y, o.c, attr);
    if p.x > 0 || p.y > 0 { EraseColours(p.page, attr, COLS * p.y + p.x - 1); }
  }

  // A space in place of a character, or of nothing.
  lemma EraseColours(page: seq<byte>, attr: byte, i: nat)
    requires |page| == PAGE && 2 * i < PAGE
    ensures Inked(page, attr) ==> Inked(page[2 * i := SPACE], attr)
    ensures Coloured(page, attr) ==> Coloured(page[2 * i := SPACE], attr)
  {
    var page' := page[2 * i := SPACE];
    forall r, col | 0 <= r < ROWS && 0 <= col < COLS
      ensures ColourAt(page', col, r) == ColourAt(page, col, r)
      ensures CellAt(page', col, r) == if At(col, r) == 2 * i then SPACE else CellAt(page, col, r)
    {
    }
  }

  // `clear`
  function Cleared(page: seq<byte>, attr: byte): (r: Pane)
    requires |page| == PAGE
    ensures InBounds(r)
  {
    Pane(seq(SCREEN_BYTES, i => if i % 2 == 0 then SPACE else attr) + page[SCREEN_BYTES..], 0, 0)
  }

  // A run of `putc` on the screen; the Backspace stop moves with it.
  datatype Front = Front(pane: Pane, startX: int, startY: int)

  function PutcFront(f: Front, attr: byte, c: byte): (r: Front)
    requires InBounds(f.pane)
    ensures InBounds(r.pane)
  {
    var p := f.pane;
    var p' := PutFront(p, attr, c, f.startX, f.startY);
    if c == RETURN && p.y < ROWS - 1 then Front(p', p'.x, p'.y)
    else if Ordinary(c) && p.x == COLS - 1 && p.y == ROWS - 1 then Front(p', f.startX, f.startY - 1)
    else Front(p', f.startX, f.startY)
  }

  function PutAll(f: Front, attr: byte, text: seq<byte>): (r: Front)
    requires InBounds(f.pane)
    ensures InBounds(r.pane)
    decreases |text|
  {
    if text == [] then f else PutAll(PutcFront(f, attr, text[0]), attr, text[1..])
  }

  lemma ClearedShows(page: seq<byte>, attr: byte)
    requires |page| == PAGE
    ensures Shows(Cleared(page, attr), [[]]) && Coloured(Cleared(page, attr).page, attr)
  {
    forall r, col | 0 <= r < ROWS && 0 <= col < COLS
      ensures Cleared(page, attr).page[At(col, r)] == CharAt([[]], r, col)
    {
      assert At(col, r) % 2 == 0;
    }
    forall r, col | 0 <= r < ROWS && 0 <= col < COLS ensures ColourAt(Cleared(page, attr).page, col, r) == attr {
      assert (At(col, r) + 1) % 2 == 1;
    }
  }

  // Whatever the screen shows, more text without Backspace keeps it the window onto the end of the transcript.
  lemma {:induction false} ScreenShowsTranscript(f: Front, rows: Transcript, attr: byte, text: seq<byte>)
    requires Shows(f.pane, rows) && BACKSPACE !in text
    ensures Shows(PutAll(f, attr, text).pane, PrintAll(rows, text))
    decreases |text|
  {
    if text != [] {
      PutFrontShows(f.pane, attr, rows, text[0], f.startX, f.startY);
      ScreenShowsTranscript(PutcFront(f, attr, text[0]), Print(rows, text[0]), attr, text[1..]);
    }
  }

  // In particular after `clear`.
  lemma ClearedScreenShowsTranscript(page: seq<byte>, clearAttr: byte, attr: byte, startX: int, startY: int, text: seq<byte>)
    requires |page| == PAGE && BACKSPACE !in text
    ensures Shows(PutAll(Front(Cleared(page, clearAttr), startX, startY), attr, text).pane, PrintAll([[]], text))
  {
    ClearedShows(page, clearAttr);
    ScreenShowsTranscript(Front(Cleared(page, clearAttr), startX, startY), [[]], attr, text);
  }

  // ----- where Backspace stops

  // The row of the transcript that Backspace stops at.
  function StopRow(f: Front, rows: Transcript): int { TopRow(rows) + f.startY }

  // A carriage return puts the stop at the start of the new row, unless it scrolls. Other bytes leave it at its place in the
  // text, exactly when they are not line breaks in the last row of the screen: there it slips down by a row.
  lemma StopFollows(f: Front, attr: byte, rows: Transcript, c: byte)
    requires Shows(f.pane, rows) && c != BACKSPACE
    ensures var (f', rows') := (PutcFront(f, attr, c), Print(rows, c));
            if c == RETURN && f.pane.y < ROWS - 1 then f'.startX == 0 && StopRow(f', rows') == |rows'| - 1
            else f'.startX == f.startX && (StopRow(f', rows') == StopRow(f, rows) <==> !(Breaks(c) && f.pane.y == ROWS - 1))
                 && (Breaks(c) && f.pane.y == ROWS - 1 ==> StopRow(f', rows') == StopRow(f, rows) + 1)
  {
    hide Cells, Scroll, SetCell;
  }

  // So it stays with the prompt through any text without line breaks, however far that wraps and scrolls.
  lemma {:induction false} StopStaysWithText(f: Front, attr: byte, rows: Transcript, text: seq<byte>)
    requires Shows(f.pane, rows) && forall c | c in text :: !Breaks(c) && c != BACKSPACE
    ensures var f' := PutAll(f, attr, text);
            f'.startX == f.startX && StopRow(f', PrintAll(rows, text)) == StopRow(f, rows)
    decreases |text|
  {
    hide Print, Cells, SetCell, Scroll;
    if text != [] {
      assert text[0] in text;
      StopFollows(f, attr, rows, text[0]);
      PutFrontShows(f.pane, attr, rows, text[0], f.startX, f.startY);
      StopStaysWithText(PutcFront(f, attr, text[0]), attr, Print(rows, text[0]), text[1..]);
    }
  }
}
