// The console code over physical memory: block copies, both paths of putc, terminal switching, the keyboard
// buffer and terminal_read. Every method is proved against the functions of modules Screen and Multiplex.
module Console {
  import opened Bytes
  import opened Screen
  import opened Multiplex
  import L = LineEditor

  // mem with n bytes from src put at dest, as a byte move would.
  function Moved(mem: seq<byte>, dest: int, src: int, n: int): (r: seq<byte>)
    requires 0 <= n && 0 <= dest && 0 <= src && dest + n <= |mem| && src + n <= |mem|
    ensures |r| == |mem|
  {
    mem[..dest] + mem[src..src + n] + mem[dest + n..]
  }

  class Console {
    var mem: array<byte>
    var screenX: int
    var screenY: int
    var startX: int
    var startY: int
    var tm: array<Tm>
    var execTerminal: int
    var activeTerminal: int

    function View(): Con
      reads this, mem, tm
    {
      Con(mem[..], screenX, screenY, startX, startY, tm[..], execTerminal, activeTerminal)
    }

    lemma CopiedAll(was: seq<byte>, dest: nat, src: nat, n: nat, edi: int, esi: int)
      requires Copied(was, dest, src, n, edi, esi, 0)
      ensures mem[..] == Moved(was, dest, src, n)
    {
    }

    // movb
    method MoveByte(ghost was: seq<byte>, ghost dest: nat, ghost src: nat, ghost n: nat, edi: int, esi: int, ghost left: int)
      requires Copied(was, dest, src, n, edi, esi, left) && left >= 1 && (dest <= src || src + n <= dest)
      modifies mem
      ensures Copied(was, dest, src, n, edi + 1, esi + 1, left - 1)
    {
      mem[edi] := mem[esi];
    }

    // movsl: the word is read before it is written.
    method MoveWord(ghost was: seq<byte>, ghost dest: nat, ghost src: nat, ghost n: nat, edi: int, esi: int, ghost left: int)
      requires Copied(was, dest, src, n, edi, esi, left) && left >= 4 && (dest <= src || src + n <= dest)
      modifies mem
      ensures Copied(was, dest, src, n, edi + 4, esi + 4, left - 4)
    {
      mem[edi], mem[edi + 1], mem[edi + 2], mem[edi + 3] := mem[esi], mem[esi + 1], mem[esi + 2], mem[esi + 3];
    }

    // Bytes up to a 4-byte boundary of the destination, then 4-byte words, then the bytes that are left. A word is
    // read whole before it is written, so the copy is right whenever the destination is at or below the source.
    method Memcpy(dest: nat, src: nat, n: nat)
      requires dest + n <= mem.Length && src + n <= mem.Length
      requires dest <= src || src + n <= dest
      modifies mem
      ensures mem[..] == Moved(old(mem[..]), dest, src, n)
    {
      ghost var was := mem[..];
      var edi, esi, ecx := dest, src, n;
      while ecx != 0 && edi % 4 != 0
        invariant Copied(was, dest, src, n, edi, esi, ecx)
        decreases ecx
      {
        MoveByte(was, dest, src, n, edi, esi, ecx);
        edi, esi, ecx := edi + 1, esi + 1, ecx - 1;
      }
      var edx := ecx % 4;
      var words := ecx / 4;
      while words != 0
        invariant Copied(was, dest, src, n, edi, esi, 4 * words + edx)
        decreases words
      {
        MoveWord(was, dest, src, n, edi, esi, 4 * words + edx);
        edi, esi, words := edi + 4, esi + 4, words - 1;
      }
      while edx != 0
        invariant Copied(was, dest, src, n, edi, esi, edx)
        decreases edx
      {
        MoveByte(was, dest, src, n, edi, esi, edx);
        edi, esi, edx := edi + 1, esi + 1, edx - 1;
      }
      CopiedAll(was, dest, src, n, edi, esi);
    }

    // init_terminal, with terminal 0 on the screen as the first tick leaves it.
    constructor ()
      ensures Wf(View()) && NoReturn(View()) && fresh(mem) && fresh(tm)
      ensures forall t: nat | t < TERMINALS :: Shows(Desk(View(), t).pane, [[]]) && L.Holds(Desk(View(), t), [])
    {
      mem := new byte[MEMORY](i => NUL);
      tm := new Tm[TERMINALS](i => IDLE_TM);
      screenX, screenY, startX, startY := 0, 0, 0, 0;
      execTerminal, activeTerminal := 0, 0;
      new;
      var i := 0;
      while i < TERMINALS
        invariant 0 <= i <= TERMINALS && mem.Length == MEMORY && fresh(mem) && Blank(mem[..], 1, i + 1)
        modifies mem
      {
        ghost var was := mem[..];
        BlankPage(i + 1, ATTR[0]);
        BlankStays(was, i + 1, ATTR[0], 1, i + 1);
        i := i + 1;
      }
      ghost var was := mem[..];
      BlankPage(0, 0x7);
      BlankStays(was, 0, 0x7, 1, TERMINALS + 1);
      BlankConsole(View());
    }

    // `left` bytes are still to be copied, and their source bytes are as they were.
    ghost predicate Copied(was: seq<byte>, dest: nat, src: nat, n: nat, edi: int, esi: int, left: int)
      reads this, mem
    {
      && |was| == mem.Length && dest + n <= |was| && src + n <= |was|
      && 0 <= left <= n && edi == dest + n - left && esi == src + n - left
      && (forall i | dest <= i < edi :: mem[i] == was[src + (i - dest)])
      && (forall i | 0 <= i < |was| && !(dest <= i < edi) :: mem[i] == was[i])
    }

    // Byte j after the last row of the page at `base` has been blanked.
    static function BlankedAt(mem: seq<byte>, base: nat, attr: byte, j: nat): byte
      requires j < |mem|
    {
      if base + SCREEN_BYTES - ROW_BYTES <= j < base + SCREEN_BYTES then (if (j - base) % 2 == 0 then SPACE else attr) else mem[j]
    }

    // Fills the last row of the page at `base`.
    method BlankLastRow(base: nat, attr: byte)
      requires base + PAGE <= mem.Length
      modifies mem
      ensures forall j | 0 <= j < mem.Length :: mem[j] == BlankedAt(old(mem[..]), base, attr, j)
    {
      var i := (ROWS - 1) * COLS * 2;
      while i < ROWS * COLS * 2
        invariant (ROWS - 1) * COLS * 2 <= i <= ROWS * COLS * 2 && i % 2 == 0
        invariant forall j | 0 <= j < mem.Length && !(base + (ROWS - 1) * COLS * 2 <= j < base + i) :: mem[j] == old(mem[j])
        invariant forall j | (ROWS - 1) * COLS * 2 <= j < i :: mem[base + j] == if j % 2 == 0 then SPACE else attr
      {
        mem[base + i] := SPACE;
        mem[base + i + 1] := attr;
        i := i + 2;
      }
    }

    // The page at `base` scrolls up by one row.
    method ScrollPage(k: nat, attr: byte)
      requires mem.Length == MEMORY && k <= TERMINALS
      modifies mem
      ensures mem[..] == SetRegion(old(mem[..]), k, Scroll(Region(old(mem[..]), k), attr))
    {
      var base := PAGE * k;
      Memcpy(base, base + 2 * COLS, COLS * (ROWS - 1) * 2);
      BlankLastRow(base, attr);
      ScrollIsCopy(old(mem[..]), mem[..], k, attr);
    }

    lemma ScrollIsCopy(was: seq<byte>, now: seq<byte>, k: nat, attr: byte)
      requires |was| == MEMORY && k <= TERMINALS && |now| == MEMORY
      requires var base := PAGE * k; var moved := Moved(was, base, base + ROW_BYTES, SCREEN_BYTES - ROW_BYTES);
               forall j | 0 <= j < MEMORY :: now[j] == BlankedAt(moved, base, attr, j)
      ensures now == SetRegion(was, k, Scroll(Region(was, k), attr))
    {
      var (base, then') := (PAGE * k, SetRegion(was, k, Scroll(Region(was, k), attr)));
      forall j | 0 <= j < MEMORY ensures now[j] == then'[j] {
        if base <= j < base + PAGE { ScrolledAt(was, k, attr, j - base); }
      }
    }

    // Byte j of a scrolled page.
    lemma ScrolledAt(was: seq<byte>, k: nat, attr: byte, j: nat)
      requires |was| == MEMORY && k <= TERMINALS && j < PAGE
      ensures SetRegion(was, k, Scroll(Region(was, k), attr))[PAGE * k + j] ==
              if j < SCREEN_BYTES - ROW_BYTES then was[PAGE * k + j + ROW_BYTES]
              else if j < SCREEN_BYTES then (if j % 2 == 0 then SPACE else attr)
              else was[PAGE * k + j]
    {
      var page := Region(was, k);
      assert SetRegion(was, k, Scroll(page, attr))[PAGE * k + j] == Scroll(page, attr)[j];
      if j < SCREEN_BYTES - ROW_BYTES {
        assert Scroll(page, attr)[j] == page[j + ROW_BYTES];
      } else if SCREEN_BYTES <= j {
        assert Scroll(page, attr)[j] == page[j];
      }
    }

    method UpdateCursor(x: int, y: int, t: nat)
      requires t < tm.Length
      modifies tm
      ensures tm[..] == old(tm[..])[t := old(tm[..])[t].(x := x, y := y)]
    {
      tm[t] := tm[t].(x := x, y := y);
    }

    // A character and its attribute.
    method WriteCell(k: nat, x: int, y: int, c: byte, attr: byte)
      requires mem.Length == MEMORY && k <= TERMINALS && 0 <= x < COLS && 0 <= y < ROWS
      modifies mem
      ensures mem[..] == SetRegion(old(mem[..]), k, SetCell(Region(old(mem[..]), k), x, y, c, attr))
    {
      mem[PAGE * k + 2 * (COLS * y + x)] := c;
      mem[PAGE * k + 2 * (COLS * y + x) + 1] := attr;
    }

    // putc when the executing terminal is on the screen: line breaks, Backspace, everything else.
    method BreakForeground(c: byte)
      requires Wf(View()) && activeTerminal == execTerminal && Breaks(c)
      modifies this, mem, tm
      ensures mem == old(mem) && tm == old(tm) && View() == Multiplex.Putc(old(View()), c)
    {
      ghost var s := View();
      SetSame(s.mem, 0);
      if screenY >= ROWS - 1 {
        ScrollPage(0, ATTR[activeTerminal]);
        screenX := 0;
        UpdateCursor(screenX, screenY, activeTerminal);
        return;
      }
      screenY := screenY + 1;
      screenX := 0;
      if c == RETURN {
        startY := screenY;
        startX := screenX;
      }
      UpdateCursor(screenX, screenY, activeTerminal);
    }

    method BackspaceForeground()
      requires Wf(View()) && activeTerminal == execTerminal
      modifies this, mem, tm
      ensures mem == old(mem) && tm == old(tm) && View() == Multiplex.Putc(old(View()), BACKSPACE)
    {
      hide Region, SetRegion;
      ghost var s := View();
      if screenX == 0 && screenY == 0 {
        QuietPutc(s, BACKSPACE);
        return;
      }
      if screenX == startX && screenY == startY {
        QuietPutc(s, BACKSPACE);
        return;
      }
      EraseCell(screenX - 1, screenY);
      screenX := screenX + COLS - 1;
      screenX := screenX % COLS;
      if screenX == COLS - 1 {
        screenY := screenY - 1;
      }
      UpdateCursor(screenX, screenY, activeTerminal);
    }

    method EraseCell(x: int, y: int)
      requires mem.Length == MEMORY && -1 <= x < COLS && 0 <= y < ROWS && (y == 0 ==> x >= 0)
      modifies mem
      ensures mem[..] == SetRegion(old(mem[..]), 0, Region(old(mem[..]), 0)[At(x, y) := SPACE])
    {
      mem[2 * (COLS * y + x)] := SPACE;
    }

    method CharacterForeground(c: byte)
      requires Wf(View()) && activeTerminal == execTerminal && Ordinary(c)
      modifies this, mem, tm
      ensures mem == old(mem) && tm == old(tm) && View() == Multiplex.Putc(old(View()), c)
    {
      hide Scroll;
      ghost var s := View();
      ghost var page := SetCell(Region(s.mem, 0), screenX, screenY, c, ATTR[activeTerminal]);
      WriteCell(0, screenX, screenY, c, ATTR[activeTerminal]);
      if screenX == COLS - 1 && screenY == ROWS - 1 {
        SetTwice(s.mem, 0, page, Scroll(page, ATTR[activeTerminal]));
        ScrollPage(0, ATTR[activeTerminal]);
        screenX := 0;
        UpdateCursor(screenX, screenY, activeTerminal);
        startY := startY - 1;
        return;
      }
      screenX := screenX + 1;
      screenX := screenX % COLS;
      if screenX == 0 {
        screenY := screenY + 1;
      }
      UpdateCursor(screenX, screenY, activeTerminal);
    }

    method PutcForeground(c: byte)
      requires Wf(View()) && activeTerminal == execTerminal
      modifies this, mem, tm
      ensures mem == old(mem) && tm == old(tm) && View() == Multiplex.Putc(old(View()), c)
    {
      if c == NEWLINE || c == RETURN {
        BreakForeground(c);
      } else if c == BACKSPACE {
        BackspaceForeground();
      } else if c == F1 || c == F2 || c == F3 {
        QuietPutc(View(), c);
        return;
      } else {
        CharacterForeground(c);
      }
    }

    // putc when it is not
    method BreakBackground(c: byte)
      requires Wf(View()) && activeTerminal != execTerminal && Breaks(c)
      modifies mem, tm
      ensures View() == Multiplex.Putc(old(View()), c)
    {
      ghost var s := View();
      SetSame(s.mem, execTerminal + 1);
      if tm[execTerminal].y >= ROWS - 1 {
        ScrollPage(execTerminal + 1, ATTR[execTerminal]);
      }
      tm[execTerminal] := tm[execTerminal].(x := 0);
      if tm[execTerminal].y != ROWS - 1 {
        tm[execTerminal] := tm[execTerminal].(y := tm[execTerminal].y + 1);
      }
      BreakIs(s, c, View());
    }

    method CharacterBackground(c: byte)
      requires Wf(View()) && activeTerminal != execTerminal && !Breaks(c)
      modifies mem, tm
      ensures View() == Multiplex.Putc(old(View()), c)
    {
      hide Scroll;
      ghost var s := View();
      var k := execTerminal + 1;
      var x, y := tm[execTerminal].x, tm[execTerminal].y;
      ghost var page := Wrapped(Region(s.mem, k), x, y, ATTR[execTerminal]);
      WrapBackground(x, y);
      WriteCell(k, x, y, c, ATTR[execTerminal]);
      SetTwice(s.mem, k, page, SetCell(page, x, y, c, ATTR[execTerminal]));
      AdvanceBackground();
      CharacterIs(s, c, View());
    }

    // The scroll from the last cell, and the move of the cursor out of the last column.
    method WrapBackground(x: int, y: int)
      requires Wf(View()) && x == tm[execTerminal].x && y == tm[execTerminal].y
      modifies mem, tm
      ensures var k := execTerminal + 1;
              mem[..] == SetRegion(old(mem[..]), k, Wrapped(Region(old(mem[..]), k), x, y, ATTR[execTerminal]))
      ensures tm[..] == old(tm[..])[execTerminal := old(tm[execTerminal]).(x := if x == COLS - 1 then 0 else x,
                                                                         y := if x == COLS - 1 && y != ROWS - 1 then y + 1 else y)]
    {
      SetSame(mem[..], execTerminal + 1);
      assert tm[..] == tm[..][execTerminal := tm[execTerminal].(x := x, y := y)];
      if x == COLS - 1 && y == ROWS - 1 {
        ScrollPage(execTerminal + 1, ATTR[execTerminal]);
        tm[execTerminal] := tm[execTerminal].(x := 0);
      } else if x == COLS - 1 {
        tm[execTerminal] := tm[execTerminal].(x := 0);
        tm[execTerminal] := tm[execTerminal].(y := tm[execTerminal].y + 1);
      }
    }

    method AdvanceBackground()
      requires tm.Length == TERMINALS && 0 <= execTerminal < TERMINALS && 0 <= tm[execTerminal].x < COLS - 1
      modifies tm
      ensures tm[..] == old(tm[..])[execTerminal := old(tm[execTerminal]).(x := old(tm[execTerminal].x) + 1)]
    {
      tm[execTerminal] := tm[execTerminal].(x := tm[execTerminal].x + 1);
      tm[execTerminal] := tm[execTerminal].(x := tm[execTerminal].x % COLS);
      if tm[execTerminal].x == 0 {
        // The source would move down a row; the position is never 0 here.
        assert false;
      }
    }

    method PutcBackground(c: byte)
      requires Wf(View()) && activeTerminal != execTerminal
      modifies mem, tm
      ensures View() == Multiplex.Putc(old(View()), c)
    {
      if c == NEWLINE || c == RETURN {
        BreakBackground(c);
      } else {
        CharacterBackground(c);
      }
    }

    method Putc(c: byte)
      requires Wf(View())
      modifies this, mem, tm
      ensures mem == old(mem) && tm == old(tm) && View() == Multiplex.Putc(old(View()), c)
    {
      if activeTerminal == execTerminal {
        PutcForeground(c);
      } else {
        PutcBackground(c);
      }
    }
  
    method SaveTerminal(t: nat)
      requires mem.Length == MEMORY && tm.Length == TERMINALS && t < TERMINALS
      modifies mem, tm
      ensures mem[..] == SetRegion(old(mem[..]), t + 1, Region(old(mem[..]), 0))
      ensures tm[..] == old(tm[..])[t := old(tm[..])[t].(x := screenX, y := screenY)]
    {
      tm[t] := tm[t].(x := screenX);
      tm[t] := tm[t].(y := screenY);
      Memcpy(PAGE * (t + 1), 0, PAGE);
    }

    method RestoreTerminal(t: nat)
      requires mem.Length == MEMORY && tm.Length == TERMINALS && t < TERMINALS
      modifies this`screenX, this`screenY, mem, tm
      ensures mem[..] == SetRegion(old(mem[..]), 0, Region(old(mem[..]), t + 1)) && tm[..] == old(tm[..])
      ensures screenX == tm[t].x && screenY == tm[t].y
    {
      screenX := tm[t].x;
      screenY := tm[t].y;
      Memcpy(0, PAGE * (t + 1), PAGE);
      UpdateCursor(screenX, screenY, t);
    }

    method SwitchTerminal(t: int) returns (r: int)
      requires Wf(View())
      modifies this, mem, tm
      ensures mem == old(mem) && tm == old(tm) && View() == SwitchTo(old(View()), t)
      ensures r == if t != old(activeTerminal) && !(0 <= t < TERMINALS) then -1 else 0
    {
      if t == activeTerminal { return 0; }
      if t > TERMINALS - 1 || t < 0 { return -1; }
      if !tm[t].running { return 0; }
      SaveTerminal(activeTerminal);
      assert tm[..] == old(tm[..]);
      RestoreTerminal(t);
      activeTerminal := t;
      assert mem[..] == SwitchTo(old(View()), t).mem;
      return 0;
    }

    method Enter()
      requires Wf(View()) && execTerminal == activeTerminal && L.Pressable(Desk(View(), activeTerminal), RETURN)
      modifies this, mem, tm
      ensures mem == old(mem) && tm == old(tm) && View() == PressKey(old(View()), RETURN)
    {
      ghost var s := View();
      ghost var d := L.Edit(Desk(s, activeTerminal), RETURN);
      var t := activeTerminal;
      tm[t] := tm[t].(buffer := tm[t].buffer[tm[t].size := NEWLINE]);
      tm[t] := tm[t].(size := tm[t].size + 1);
      PutcApart(s, t, d.(entered := tm[t].entered), NEWLINE);
      assert tm[..] == SetLine(s, t, d.(entered := tm[t].entered)).tm;
      Putc(NEWLINE);
      tm[t] := tm[t].(entered := true);
      assert tm[..] == PressKey(s, RETURN).tm;
    }

    method EraseKey()
      requires Wf(View()) && execTerminal == activeTerminal
      modifies this, mem, tm
      ensures mem == old(mem) && tm == old(tm) && View() == PressKey(old(View()), BACKSPACE)
    {
      ghost var s := View();
      var t := activeTerminal;
      if tm[t].size != 0 {
        Putc(BACKSPACE);
        tm[t] := tm[t].(buffer := tm[t].buffer[tm[t].size - 1 := SPACE]);
        tm[t] := tm[t].(size := tm[t].size - 1);
      }
      assert tm[..] == PressKey(s, BACKSPACE).tm;
    }

    method CharacterKey(k: byte)
      requires Wf(View()) && execTerminal == activeTerminal && k != RETURN && k != BACKSPACE
      modifies this, mem, tm
      ensures mem == old(mem) && tm == old(tm) && View() == PressKey(old(View()), k)
    {
      ghost var s := View();
      var t := activeTerminal;
      if tm[t].size < L.LINE_BYTES - 1 {
        Putc(k);
        tm[t] := tm[t].(buffer := tm[t].buffer[tm[t].size := k]);
        tm[t] := tm[t].(size := tm[t].size + 1);
      }
      assert tm[..] == PressKey(s, k).tm;
    }

    // The part of keyboard_handler that follows the decoding; RETURN is the Enter key.
    method KeyboardHandler(k: byte)
      requires Wf(View()) && L.Pressable(Desk(View(), activeTerminal), k)
      modifies this, mem, tm
      ensures mem == old(mem) && tm == old(tm) && View() == PressKey(old(View()), k)
    {
      var temp := execTerminal;
      execTerminal := activeTerminal;
      if k == RETURN {
        Enter();
      } else if k == BACKSPACE {
        EraseKey();
      } else {
        CharacterKey(k);
      }
      execTerminal := temp;
    }

    method ClearBuffer(t: nat)
      requires t < tm.Length && |tm[t].buffer| == L.LINE_BYTES
      modifies tm
      ensures tm[..] == old(tm[..])[t := old(tm[..])[t].(buffer := L.BLANK_LINE, size := 0)]
    {
      var i := 0;
      while i < L.LINE_BYTES
        invariant 0 <= i <= L.LINE_BYTES && |tm[t].buffer| == L.LINE_BYTES
        invariant tm[..] == old(tm[..])[t := old(tm[..])[t].(buffer := tm[t].buffer)]
        invariant forall j | 0 <= j < i :: tm[t].buffer[j] == NUL
      {
        tm[t] := tm[t].(buffer := tm[t].buffer[i := NUL]);
        i := i + 1;
      }
      tm[t] := tm[t].(size := 0);
      assert tm[t].buffer == L.BLANK_LINE;
    }

    // The busy wait for Enter is the precondition.
    method TerminalRead(buf: array<byte>, nbytes: int) returns (r: int)
      requires Wf(View()) && tm[execTerminal].entered && buf.Length >= Min(nbytes, L.LINE_BYTES) && buf != mem
      modifies tm, buf
      ensures var (bytes, d) := L.Read(Desk(old(View()), execTerminal), nbytes);
              View() == SetLine(old(View()), execTerminal, d) && |bytes| <= buf.Length && buf[..] == Overlay(old(buf[..]), bytes)
      ensures r == Min(nbytes, L.LINE_BYTES)
    {
      ghost var s := View();
      var n := if nbytes > L.LINE_BYTES then L.LINE_BYTES else nbytes;
      tm[execTerminal] := tm[execTerminal].(entered := false);
      ghost var line, was := s.tm[execTerminal].buffer, buf[..];
      var i := 0;
      while i < n
        invariant 0 <= i <= Max(n, 0) && buf[..i] == line[..i]
        invariant forall j | i <= j < buf.Length :: buf[j] == was[j]
        invariant tm[..] == s.tm[execTerminal := s.tm[execTerminal].(entered := false)]
      {
        buf[i] := tm[execTerminal].buffer[i];
        i := i + 1;
      }
      OverlayIs(was, buf[..], line[..i]);
      ClearBuffer(execTerminal);
      r := n;
    }

    // clear
    method Clear()
      requires Wf(View())
      modifies this, mem, tm
      ensures mem == old(mem) && tm == old(tm)
      ensures View() == SetPane(old(View()), old(activeTerminal), Cleared(Region(old(mem[..]), 0), 0x7))
    {
      BlankPage(0, 0x7);
      screenX := 0;
      screenY := 0;
      UpdateCursor(screenX, screenY, activeTerminal);
    }

    method BlankPage(k: nat, attr: byte)
      requires mem.Length == MEMORY && k <= TERMINALS
      modifies mem
      ensures mem[..] == SetRegion(old(mem[..]), k, Cleared(Region(old(mem[..]), k), attr).page)
    {
      var base := PAGE * k;
      var i := 0;
      while i < ROWS * COLS
        invariant 0 <= i <= ROWS * COLS
        invariant forall j | 0 <= j < mem.Length && !(base <= j < base + 2 * i) :: mem[j] == old(mem[j])
        invariant forall j | 0 <= j < 2 * i :: mem[base + j] == if j % 2 == 0 then SPACE else attr
      {
        mem[base + 2 * i] := SPACE;
        mem[base + 2 * i + 1] := attr;
        i := i + 1;
      }
    }

    // terminal_write
    method TerminalWrite(text: seq<byte>) returns (n: int)
      requires Wf(View())
      modifies this, mem, tm
      ensures mem == old(mem) && tm == old(tm) && n == |text| && View() == PrintText(old(View()), text)
    {
      var i := 0;
      while i < |text|
        invariant 0 <= i <= |text| && mem == old(mem) && tm == old(tm) && Wf(View())
        invariant PrintText(View(), text[i..]) == PrintText(old(View()), text)
      {
        assert text[i..][1..] == text[i + 1..];
        PutcKeepsForm(View(), text[i]);
        Putc(text[i]);
        i := i + 1;
      }
      n := |text|;
    }
  }

  ghost predicate Blank(mem: seq<byte>, lo: nat, hi: nat) {
    |mem| == MEMORY && hi <= TERMINALS + 1 && forall k | lo <= k < hi :: Cells(Region(mem, k), [[]])
  }

  // Blanking the page next to a range of blank ones.
  lemma BlankStays(mem: seq<byte>, k: nat, attr: byte, lo: nat, hi: nat)
    requires Blank(mem, lo, hi) && k <= TERMINALS && (k == hi || k + 1 == lo)
    ensures Blank(SetRegion(mem, k, Cleared(Region(mem, k), attr).page), if k == hi then lo else k, if k == hi then hi + 1 else hi)
  {
    var mem' := SetRegion(mem, k, Cleared(Region(mem, k), attr).page);
    forall j | lo <= j < hi || j == k ensures Cells(Region(mem', j), [[]]) {
      RegionsApart(mem, k, Cleared(Region(mem, k), attr).page, j);
      ClearedShows(Region(mem, k), attr);
    }
  }

  const IDLE_TM := Tm(0, 0, L.BLANK_LINE, 0, false, false)

  lemma BlankConsole(s: Con)
    requires Blank(s.mem, 0, TERMINALS + 1) && s.tm == [IDLE_TM, IDLE_TM, IDLE_TM]
    requires s.screenX == 0 && s.screenY == 0 && s.startX == 0 && s.startY == 0 && s.exec == 0 && s.active == 0
    ensures Wf(s) && NoReturn(s)
    ensures forall t: nat | t < TERMINALS :: Shows(Desk(s, t).pane, [[]]) && L.Holds(Desk(s, t), [])
  {
    forall t: nat | t < TERMINALS ensures Wf(s) && Shows(Desk(s, t).pane, [[]]) {
      assert Cells(Region(s.mem, Home(s, t)), [[]]);
    }
  }

  lemma BreakIs(s: Con, c: byte, s': Con)
    requires Wf(s) && s.active != s.exec && Breaks(c) && s' == s.(mem := s'.mem, tm := s'.tm)
    requires var (k, y) := (s.exec + 1, s.tm[s.exec].y);
             && s'.mem == SetRegion(s.mem, k, if y >= ROWS - 1 then Scroll(Region(s.mem, k), ATTR[s.exec]) else Region(s.mem, k))
             && s'.tm == s.tm[s.exec := s.tm[s.exec].(x := 0, y := if y != ROWS - 1 then y + 1 else y)]
    ensures s' == Multiplex.Putc(s, c)
  {
    hide Scroll;
  }

  // The page before a character is written at (x, y) in the background.
  function Wrapped(page: seq<byte>, x: int, y: int, attr: byte): (r: seq<byte>)
    requires |page| == PAGE
    ensures |r| == PAGE
  {
    if x == COLS - 1 && y == ROWS - 1 then Scroll(page, attr) else page
  }

  lemma CharacterIs(s: Con, c: byte, s': Con)
    requires Wf(s) && s.active != s.exec && !Breaks(c) && s' == s.(mem := s'.mem, tm := s'.tm)
    requires var (k, x, y) := (s.exec + 1, s.tm[s.exec].x, s.tm[s.exec].y);
             && s'.mem == SetRegion(s.mem, k, SetCell(Wrapped(Region(s.mem, k), x, y, ATTR[s.exec]), x, y, c, ATTR[s.exec]))
             && s'.tm == s.tm[s.exec := s.tm[s.exec].(x := if x == COLS - 1 then 1 else x + 1,
                                                      y := if x == COLS - 1 && y != ROWS - 1 then y + 1 else y)]
    ensures s' == Multiplex.Putc(s, c)
  {
  }

  // Printing what leaves the pane and the Backspace stop alone changes nothing.
  lemma QuietPutc(s: Con, c: byte)
    requires Wf(s) && s.active == s.exec
    requires var f := Front(Pane(Region(s.mem, 0), s.screenX, s.screenY), s.startX, s.startY); PutcFront(f, ATTR[s.active], c) == f
    ensures Multiplex.Putc(s, c) == s
  {
    SetSame(s.mem, 0);
  }

  // Printing does not look at the buffer, so Enter may fill it first.
  lemma PutcApart(s: Con, t: nat, d: L.Desk, c: byte)
    requires Wf(s) && t < TERMINALS && s.exec == s.active == t && L.Sound(d)
    ensures Wf(SetLine(s, t, d)) && Multiplex.Putc(SetLine(s, t, d), c) == SetLine(Multiplex.Putc(s, c), t, d)
  {
  }

  lemma SetSame(mem: seq<byte>, k: int)
    requires |mem| == MEMORY && 0 <= k <= TERMINALS
    ensures SetRegion(mem, k, Region(mem, k)) == mem
  {
  }

  lemma SetTwice(mem: seq<byte>, k: int, p: seq<byte>, q: seq<byte>)
    requires |mem| == MEMORY && 0 <= k <= TERMINALS && |p| == PAGE == |q|
    ensures Region(SetRegion(mem, k, p), k) == p
    ensures SetRegion(SetRegion(mem, k, p), k, q) == SetRegion(mem, k, q)
  {
  }
}
