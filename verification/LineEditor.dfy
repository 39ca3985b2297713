// One terminal as its user sees it: a screen, and the line being typed into it.
module LineEditor {
  import opened Bytes
  import opened Screen

  const LINE_BYTES := 128

  // `entered` is the flag that Enter raises for `terminal_read`.
  datatype Desk = Desk(pane: Pane, buffer: seq<byte>, size: int, entered: bool)

  ghost predicate Sound(d: Desk) {
    InBounds(d.pane) && |d.buffer| == LINE_BYTES && 0 <= d.size <= LINE_BYTES
  }

  const BLANK_LINE := Repeat(NUL, LINE_BYTES)

  // A decoded key: RETURN is Enter. A second Enter with the buffer full would write past it.
  predicate Pressable(d: Desk, k: byte) {
    k == RETURN ==> d.size < LINE_BYTES
  }

  // What a key echoes, if anything.
  function Echo(d: Desk, k: byte): (e: Option<byte>)
    ensures e.Some? ==> e.value != RETURN
  {
    if k == RETURN then Some(NEWLINE)
    else if k == BACKSPACE then (if d.size != 0 then Some(k) else None)
    else if d.size < LINE_BYTES - 1 then Some(k)
    else None
  }

  // What a key does to the buffer.
  function Edit(d: Desk, k: byte): (r: Desk)
    requires Sound(d) && Pressable(d, k)
    ensures Sound(r) && r.pane == d.pane
  {
    if k == RETURN then d.(buffer := d.buffer[d.size := NEWLINE], size := d.size + 1, entered := true)
    else if k == BACKSPACE then
      (if d.size != 0 then d.(buffer := d.buffer[d.size - 1 := SPACE], size := d.size - 1) else d)
    else if d.size < LINE_BYTES - 1 then d.(buffer := d.buffer[d.size := k], size := d.size + 1)
    else d
  }

  // The whole key: the echo goes to the screen with Backspace stopping only at the top left corner.
  function Press(d: Desk, attr: byte, k: byte): (r: Desk)
    requires Sound(d) && Pressable(d, k)
    ensures Sound(r)
  {
    var e := Echo(d, k);
    var pane := if e.None? then d.pane else PutFront(d.pane, attr, e.value, 0, 0);
    Edit(d, k).(pane := pane)
  }

  // `terminal_read`, once Enter has been pressed: the bytes delivered, and the desk with a clear buffer.
  function Read(d: Desk, nbytes: int): (r: (seq<byte>, Desk))
    requires Sound(d)
    ensures Sound(r.1)
  {
    (d.buffer[..Max(0, Min(nbytes, LINE_BYTES))], d.(buffer := BLANK_LINE, size := 0, entered := false))
  }

  // ----- the edited line, defined by the keys alone

  predicate Typed(k: byte) { k == BACKSPACE || (Ordinary(k) && k != NUL) }

  // Backspace takes back the last character; characters past 127 are dropped.
  function Fold(keys: seq<byte>): (line: seq<byte>)
    ensures |line| <= LINE_BYTES - 1
  {
    if keys == [] then []
    else
      var (line, k) := (Fold(keys[..|keys| - 1]), keys[|keys| - 1]);
      if k == BACKSPACE then (if line == [] then line else line[..|line| - 1])
      else if |line| < LINE_BYTES - 1 then line + [k] else line
  }

  function PressAll(d: Desk, attr: byte, keys: seq<byte>): (r: Desk)
    requires Sound(d) && RETURN !in keys
    ensures Sound(r)
  {
    if keys == [] then d else Press(PressAll(d, attr, keys[..|keys| - 1]), attr, keys[|keys| - 1])
  }

  // From index n on there is only padding.
  ghost predicate Slack(s: seq<byte>, n: int) {
    0 <= n && forall i | n <= i < |s| :: s[i] == SPACE || s[i] == NUL
  }

  // The buffer holds the line, and after it nothing but spaces and NULs.
  ghost predicate Holds(d: Desk, line: seq<byte>) {
    Sound(d) && d.size == |line| && d.buffer[..d.size] == line && Slack(d.buffer, d.size)
  }

  lemma EditHolds(d: Desk, line: seq<byte>, k: byte)
    requires Holds(d, line) && |line| < LINE_BYTES && Typed(k)
    ensures Holds(Edit(d, k), if k == BACKSPACE then (if line == [] then line else line[..|line| - 1])
                              else if |line| < LINE_BYTES - 1 then line + [k] else line)
  {
  }

  lemma {:induction false} BufferHoldsFold(d: Desk, attr: byte, keys: seq<byte>)
    requires Holds(d, []) && forall k | k in keys :: Typed(k)
    ensures RETURN !in keys && Holds(PressAll(d, attr, keys), Fold(keys)) && PressAll(d, attr, keys).entered == d.entered
  {
    if keys != [] {
      var (front, last) := (keys[..|keys| - 1], keys[|keys| - 1]);
      assert forall k | k in front :: k in keys;
      BufferHoldsFold(d, attr, front);
      var d1 := PressAll(d, attr, front);
      EditHolds(d1, Fold(front), last);
    }
  }

  // Typing a line and pressing Enter, then a read of n bytes, at most 128 of which count: the edited line and a newline,
  // cut off or padded to that size; and the buffer is clear for the next line.
  lemma ReadDeliversLine(d: Desk, attr: byte, keys: seq<byte>, n: int)
    requires Holds(d, []) && forall k | k in keys :: Typed(k)
    ensures RETURN !in keys && PressAll(d, attr, keys).size < LINE_BYTES
    ensures var d1 := Press(PressAll(d, attr, keys), attr, RETURN);
            var ((bytes, d2), line) := (Read(d1, n), Fold(keys) + [NEWLINE]);
            && d1.entered && |bytes| == Max(0, Min(n, LINE_BYTES))
            && (if |bytes| <= |line| then bytes <= line else line <= bytes && Slack(bytes, |line|))
            && Holds(d2, []) && !d2.entered && d2.pane == d1.pane
  {
    BufferHoldsFold(d, attr, keys);
    var (d0, line) := (PressAll(d, attr, keys), Fold(keys) + [NEWLINE]);
    var d1 := Press(d0, attr, RETURN);
    assert d1.buffer[..|line|] == line by {
      assert d0.buffer[..|line| - 1] == Fold(keys);
    }
    assert Slack(d1.buffer, |line|);
    var bytes := Read(d1, n).0;
    assert bytes == d1.buffer[..|bytes|];
    if |bytes| <= |line| {
      assert bytes == d1.buffer[..|line|][..|bytes|];
    } else {
      assert bytes[..|line|] == d1.buffer[..|line|];
    }
  }

  // ----- the line on the screen

  function Position(p: Pane): int { COLS * p.y + p.x }

  // The line starts at linear position `anchor`; the cells from there to the cursor show the buffer.
  ghost predicate Editing(d: Desk, anchor: int) {
    && Sound(d) && d.size < LINE_BYTES && 0 <= anchor && Position(d.pane) == anchor + d.size
    && forall i | 0 <= i < d.size :: d.pane.page[2 * (anchor + i)] == d.buffer[i]
  }

  // What lies before the line has not changed, except for having moved up by `shift` cells.
  ghost predicate PromptKept(before: seq<byte>, after: seq<byte>, anchor: int, shift: int) {
    && |before| == |after| == PAGE && 0 <= anchor && 0 <= shift && 2 * (anchor + shift) <= SCREEN_BYTES
    && forall i | 0 <= i < anchor :: after[2 * i] == before[2 * (i + shift)]
  }

  lemma ScrollMoves(page: seq<byte>, attr: byte, i: int)
    requires |page| == PAGE && 0 <= i < COLS * (ROWS - 1)
    ensures Scroll(page, attr)[2 * i] == page[2 * (i + COLS)]
  {
  }

  ghost predicate LineKept(d: Desk, d': Desk, anchor: int, anchor': int) {
    Editing(d', anchor') && PromptKept(d.pane.page, d'.pane.page, anchor', anchor - anchor')
  }

  lemma BackspaceKeepsLine(d: Desk, attr: byte, anchor: int)
    requires Editing(d, anchor)
    ensures LineKept(d, Press(d, attr, BACKSPACE), anchor, anchor)
    ensures d.size > 0 ==> Position(Press(d, attr, BACKSPACE).pane) == Position(d.pane) - 1
  {
  }

  lemma CharacterKeepsLine(d: Desk, attr: byte, anchor: int, k: byte)
    requires Editing(d, anchor) && Ordinary(k) && (Position(d.pane) < COLS * ROWS - 1 || d.size == LINE_BYTES - 1)
    ensures LineKept(d, Press(d, attr, k), anchor, anchor)
  {
  }

  lemma ScrollKeepsLine(d: Desk, attr: byte, anchor: int, k: byte)
    requires Editing(d, anchor) && Ordinary(k) && Position(d.pane) == COLS * ROWS - 1 && d.size < LINE_BYTES - 1
    ensures LineKept(d, Press(d, attr, k), anchor, anchor - COLS)
  {
    var page := SetCell(d.pane.page, d.pane.x, d.pane.y, k, attr);
    var d' := Press(d, attr, k);
    assert d'.pane == Pane(Scroll(page, attr), 0, ROWS - 1);
    forall i | 0 <= i < COLS * (ROWS - 1) ensures d'.pane.page[2 * i] == page[2 * (i + COLS)] {
      ScrollMoves(page, attr, i);
    }
  }

  lemma PressKeepsLine(d: Desk, attr: byte, anchor: int, k: byte) returns (anchor': int)
    requires Editing(d, anchor) && Typed(k)
    ensures LineKept(d, Press(d, attr, k), anchor, anchor') && (anchor' == anchor || anchor' == anchor - COLS)
  {
    anchor' := anchor;
    if k == BACKSPACE {
      BackspaceKeepsLine(d, attr, anchor);
    } else if Position(d.pane) < COLS * ROWS - 1 || d.size == LINE_BYTES - 1 {
      CharacterKeepsLine(d, attr, anchor, k);
    } else {
      ScrollKeepsLine(d, attr, anchor, k);
      anchor' := anchor - COLS;
    }
  }

  lemma PromptKeptOn(p0: seq<byte>, p1: seq<byte>, p2: seq<byte>, a1: int, s1: int, a2: int, s2: int)
    requires PromptKept(p0, p1, a1, s1) && PromptKept(p1, p2, a2, s2) && a2 + s2 == a1
    ensures PromptKept(p0, p2, a2, s1 + s2)
  {
  }

  lemma LineKeptOn(d: Desk, d1: Desk, d2: Desk, a: int, a1: int, a2: int)
    requires LineKept(d, d1, a, a1) && LineKept(d1, d2, a1, a2)
    ensures LineKept(d, d2, a, a2)
  {
    PromptKeptOn(d.pane.page, d1.pane.page, d2.pane.page, a1, a - a1, a2, a1 - a2);
  }

  // Any run of characters and Backspaces: the screen follows the buffer, the prompt is never touched, and
  // scrolling moves both up by whole rows. So Backspace always has a character of the line to erase.
  lemma {:induction false} ScreenFollowsLine(d: Desk, attr: byte, anchor: int, keys: seq<byte>) returns (anchor': int)
    requires Editing(d, anchor) && forall k | k in keys :: Typed(k)
    ensures RETURN !in keys && LineKept(d, PressAll(d, attr, keys), anchor, anchor') && (anchor - anchor') % COLS == 0
  {
    if keys == [] {
      anchor' := anchor;
    } else {
      var (front, last) := (keys[..|keys| - 1], keys[|keys| - 1]);
      assert forall k | k in front :: k in keys;
      var a1 := ScreenFollowsLine(d, attr, anchor, front);
      anchor' := PressKeepsLine(PressAll(d, attr, front), attr, a1, last);
      LineKeptOn(d, PressAll(d, attr, front), PressAll(d, attr, keys), anchor, a1, anchor');
    }
  }

  // What the user sees of a line typed at a prompt: the edited line itself, with the cursor after it.
  lemma TypedLineOnScreen(d: Desk, attr: byte, anchor: int, keys: seq<byte>) returns (anchor': int)
    requires Editing(d, anchor) && Holds(d, []) && forall k | k in keys :: Typed(k)
    ensures RETURN !in keys && LineKept(d, PressAll(d, attr, keys), anchor, anchor')
    ensures var (p, line) := (PressAll(d, attr, keys).pane, Fold(keys));
            Position(p) == anchor' + |line| && forall i | 0 <= i < |line| :: p.page[2 * (anchor' + i)] == line[i]
  {
    anchor' := ScreenFollowsLine(d, attr, anchor, keys);
    BufferHoldsFold(d, attr, keys);
    var d' := PressAll(d, attr, keys);
    forall i | 0 <= i < |Fold(keys)| ensures d'.pane.page[2 * (anchor' + i)] == Fold(keys)[i] {
      assert d'.buffer[i] == d'.buffer[..d'.size][i];
    }
  }

  // Enter ends the row.
  lemma EnterEndsRow(d: Desk, attr: byte, rows: Transcript)
    requires Sound(d) && Pressable(d, RETURN) && Shows(d.pane, rows)
    ensures Shows(Press(d, attr, RETURN).pane, rows + [[]])
  {
    PutFrontShows(d.pane, attr, rows, NEWLINE, 0, 0);
  }

  // The row that position i of the screen is in.
  function RowOf(i: nat): nat { i / COLS }

  // After Enter the line that was typed is where it was, or a row higher if the cursor was in the last row, and the cursor
  // is at the start of the row below its end. The prompt goes with it.
  lemma TypedLineEntered(d: Desk, attr: byte, anchor: int, keys: seq<byte>) returns (before: int, anchor': int)
    requires Editing(d, anchor) && Holds(d, []) && forall k | k in keys :: Typed(k)
    ensures RETURN !in keys && LineKept(d, PressAll(d, attr, keys), anchor, before)
    ensures PressAll(d, attr, keys).size == |Fold(keys)|
    ensures var (p, p') := (PressAll(d, attr, keys).pane, Press(PressAll(d, attr, keys), attr, RETURN).pane);
            && anchor' == (if p.y == ROWS - 1 then before - COLS else before) && 0 <= anchor'
            && p'.x == 0 && p'.y == RowOf(anchor' + |Fold(keys)|) + 1 && PromptKept(p.page, p'.page, anchor', before - anchor')
            && forall i | 0 <= i < |Fold(keys)| :: p'.page[2 * (anchor' + i)] == Fold(keys)[i]
  {
    before := TypedLineOnScreen(d, attr, anchor, keys);
    BufferHoldsFold(d, attr, keys);
    var (p, line) := (PressAll(d, attr, keys).pane, Fold(keys));
    anchor' := if p.y == ROWS - 1 then before - COLS else before;
    var page' := Press(PressAll(d, attr, keys), attr, RETURN).pane.page;
    forall i | 0 <= i < anchor' + |line| ensures page'[2 * i] == p.page[2 * (i + before - anchor')] {
      ScrollMoves(p.page, attr, i);
    }
  }
}
