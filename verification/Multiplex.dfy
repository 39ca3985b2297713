// Three terminals on one screen. Physical memory holds the video page, then one backing page per terminal;
// the terminal on the screen lives in the video page, the others in their backing pages.
module Multiplex {
  import opened Bytes
  import opened Screen
  import L = LineEditor

  const TERMINALS := 3
  type Terminal = t: nat | t < 3
  const MEMORY := 4 * PAGE
  const ATTR: seq<byte> := [0x0F, 0x04, 0x02]

  datatype Tm = Tm(x: int, y: int, buffer: seq<byte>, size: int, entered: bool, running: bool)
  datatype Con = Con(mem: seq<byte>, screenX: int, screenY: int, startX: int, startY: int,
                     tm: seq<Tm>, exec: int, active: int)

  // Write: terminal t is scheduled and its program prints c. Key: a decoded key, RETURN for Enter.
  // Read: terminal t is scheduled and `terminal_read` finds its Enter flag up. Switch: Alt and a function key.
  datatype Event = Write(t: Terminal, c: byte) | Key(k: byte) | Read(t: Terminal, nbytes: int) | Switch(to: int)

  // ----- memory

  function Region(mem: seq<byte>, k: int): (r: seq<byte>)
    requires |mem| == MEMORY && 0 <= k <= TERMINALS
    ensures |r| == PAGE
  {
    mem[PAGE * k..PAGE * (k + 1)]
  }

  function SetRegion(mem: seq<byte>, k: int, page: seq<byte>): (r: seq<byte>)
    requires |mem| == MEMORY && 0 <= k <= TERMINALS && |page| == PAGE
    ensures |r| == MEMORY
  {
    mem[..PAGE * k] + page + mem[PAGE * (k + 1)..]
  }

  lemma RegionsApart(mem: seq<byte>, k: int, page: seq<byte>, j: int)
    requires |mem| == MEMORY && 0 <= k <= TERMINALS && 0 <= j <= TERMINALS && |page| == PAGE
    ensures Region(SetRegion(mem, k, page), j) == if j == k then page else Region(mem, j)
  {
  }

  // ----- state

  ghost predicate GoodTm(m: Tm) {
    0 <= m.x < COLS && 0 <= m.y < ROWS && |m.buffer| == L.LINE_BYTES && 0 <= m.size <= L.LINE_BYTES
  }

  ghost predicate Wf(s: Con) {
    && |s.mem| == MEMORY && |s.tm| == TERMINALS && 0 <= s.exec < TERMINALS && 0 <= s.active < TERMINALS
    && (forall t | 0 <= t < TERMINALS :: GoodTm(s.tm[t]))
    && s.tm[s.active].x == s.screenX && s.tm[s.active].y == s.screenY
  }

  // No carriage return has been printed, so Backspace stops at the top left corner or nowhere.
  ghost predicate NoReturn(s: Con) { s.startX == 0 && s.startY <= 0 }

  // Backspace does not stop where the last carriage return, of whichever terminal, has put (startX, startY).
  predicate BackspaceFree(s: Con) {
    !AtStop(Pane([], s.screenX, s.screenY), s.startX, s.startY)
  }

  // Which page a terminal's screen is in.
  function Home(s: Con, t: int): int { if t == s.active then 0 else t + 1 }

  // The logical terminal: what t's user sees, or would see after switching to it.
  function Desk(s: Con, t: int): (d: L.Desk)
    requires Wf(s) && 0 <= t < TERMINALS
    ensures L.Sound(d)
  {
    var m := s.tm[t];
    L.Desk(Pane(Region(s.mem, Home(s, t)), m.x, m.y), m.buffer, m.size, m.entered)
  }

  // ----- steps

  function SetPane(s: Con, t: int, p: Pane): Con
    requires Wf(s) && 0 <= t < TERMINALS && InBounds(p)
  {
    var s1 := s.(mem := SetRegion(s.mem, Home(s, t), p.page), tm := s.tm[t := s.tm[t].(x := p.x, y := p.y)]);
    if t == s.active then s1.(screenX := p.x, screenY := p.y) else s1
  }

  // `putc`
  function Putc(s: Con, c: byte): (r: Con)
    requires Wf(s)
    ensures |r.tm| == TERMINALS
  {
    if s.active == s.exec then
      var f := PutcFront(Front(Pane(Region(s.mem, 0), s.screenX, s.screenY), s.startX, s.startY), ATTR[s.active], c);
      SetPane(s, s.active, f.pane).(startX := f.startX, startY := f.startY)
    else
      SetPane(s, s.exec, PutBack(Pane(Region(s.mem, s.exec + 1), s.tm[s.exec].x, s.tm[s.exec].y), ATTR[s.exec], c))
  }

  function SetLine(s: Con, t: int, d: L.Desk): Con
    requires 0 <= t < |s.tm|
  {
    s.(tm := s.tm[t := s.tm[t].(buffer := d.buffer, size := d.size, entered := d.entered)])
  }

  // `keyboard_handler` for a decoded key: echo and buffer, with the terminal on the screen made the executing one.
  function PressKey(s: Con, k: byte): Con
    requires Wf(s) && L.Pressable(Desk(s, s.active), k)
  {
    var d := Desk(s, s.active);
    var e := L.Echo(d, k);
    var s1 := if e.None? then s else Putc(s.(exec := s.active), e.value);
    SetLine(s1, s.active, L.Edit(d, k)).(exec := s.exec)
  }

  // `switch_terminal`: save the screen, then restore the other one.
  function SwitchTo(s: Con, t: int): Con
    requires Wf(s)
  {
    if t == s.active || t > TERMINALS - 1 || t < 0 || !s.tm[t].running then s
    else
      var saved := SetRegion(s.mem, s.active + 1, Region(s.mem, 0));
      s.(mem := SetRegion(saved, 0, Region(saved, t + 1)), screenX := s.tm[t].x, screenY := s.tm[t].y, active := t)
  }

  ghost predicate Ready(s: Con, e: Event) {
    Wf(s) &&
    match e
    case Write(_, _) => true
    case Key(k) => L.Pressable(Desk(s, s.active), k)
    case Read(t, _) => s.tm[t].entered
    case Switch(_) => true
  }

  function Step(s: Con, e: Event): Con
    requires Ready(s, e)
  {
    match e
    case Write(t, c) => Putc(s.(exec := t), c)
    case Key(k) => PressKey(s, k)
    case Read(t, nbytes) => SetLine(s.(exec := t), t, L.Read(Desk(s, t), nbytes).1)
    case Switch(t) => SwitchTo(s, t)
  }

  // ----- one terminal on its own

  datatype Local = Put(c: byte) | Press(k: byte) | Take(nbytes: int)

  // Text that both output paths print alike, keys that fit, reads of a finished line.
  ghost predicate Calm(d: L.Desk, e: Local) {
    L.Sound(d) &&
    match e
    case Put(c) => Breaks(c) || (Ordinary(c) && d.pane.x != COLS - 1)
    case Press(k) => L.Pressable(d, k)
    case Take(_) => d.entered
  }

  ghost function LocalStep(d: L.Desk, attr: byte, e: Local): (r: L.Desk)
    requires Calm(d, e)
    ensures L.Sound(r)
  {
    match e
    case Put(c) => d.(pane := PutFront(d.pane, attr, c, 0, 0))
    case Press(k) => L.Press(d, attr, k)
    case Take(nbytes) => L.Read(d, nbytes).1
  }

  // A Backspace that erases something is free to.
  ghost predicate Unhindered(s: Con, e: Event)
    requires Wf(s)
  {
    e == Key(BACKSPACE) && s.tm[s.active].size > 0 ==> BackspaceFree(s)
  }

  // What an event is to terminal u: its own event, or nothing.
  function Addressed(active: int, e: Event, u: nat): Option<Local> {
    match e
    case Write(t, c) => if t == u then Some(Put(c)) else None
    case Key(k) => if active == u then Some(Press(k)) else None
    case Read(t, nbytes) => if t == u then Some(Take(nbytes)) else None
    case Switch(_) => None
  }

  // ----- one step

  lemma SetPaneDesk(s: Con, t: int, p: Pane, u: int)
    requires Wf(s) && 0 <= t < TERMINALS && 0 <= u < TERMINALS && InBounds(p)
    ensures Wf(SetPane(s, t, p))
    ensures Desk(SetPane(s, t, p), u) == if u == t then Desk(s, t).(pane := p) else Desk(s, u)
  {
    RegionsApart(s.mem, Home(s, t), p.page, Home(s, u));
  }

  // What `putc` does to every logical terminal.
  lemma PutcDesks(s: Con, c: byte, u: nat)
    requires Wf(s) && u < TERMINALS
    ensures Wf(Putc(s, c)) && Putc(s, c).active == s.active && Putc(s, c).exec == s.exec
    ensures Desk(Putc(s, c), u) == if u == s.exec then Desk(s, u).(pane := Printed(s, c)) else Desk(s, u)
  {
    hide PutFront, PutBack, SetPane;
    SetPaneDesk(s, s.exec, Printed(s, c), u);
    var s' := SetPane(s, s.exec, Printed(s, c));
    assert Putc(s, c) == s'.(startX := Putc(s, c).startX, startY := Putc(s, c).startY) by { PutcSetsPane(s, c); }
    assert s'.active == s.active && s'.exec == s.exec by { PutcSetsPane(s, c); }
  }

  lemma PutcSetsPane(s: Con, c: byte)
    requires Wf(s)
    ensures var s' := SetPane(s, s.exec, Printed(s, c));
            && s'.active == s.active && s'.exec == s.exec
            && Putc(s, c) == s'.(startX := Putc(s, c).startX, startY := Putc(s, c).startY)
  {
    hide PutFront, PutBack;
  }

  // Printing, whatever the byte and on whichever path, changes no terminal but the executing one.
  lemma PutcElsewhere(s: Con, c: byte, u: nat)
    requires Wf(s) && u < TERMINALS && u != s.exec
    ensures Wf(Putc(s, c)) && Desk(Putc(s, c), u) == Desk(s, u)
  {
    PutcDesks(s, c, u);
  }

  // The pane that `putc` gives the executing terminal.
  function Printed(s: Con, c: byte): (p: Pane)
    requires Wf(s)
    ensures InBounds(p)
  {
    var p := Pane(Region(s.mem, Home(s, s.exec)), s.tm[s.exec].x, s.tm[s.exec].y);
    if s.active == s.exec then PutFront(p, ATTR[s.exec], c, s.startX, s.startY) else PutBack(p, ATTR[s.exec], c)
  }

  // What makes `putc` do the same on the screen and off it, and not depend on where Backspace stops.
  ghost predicate Plain(s: Con, c: byte)
    requires Wf(s)
  {
    if s.active == s.exec then c == BACKSPACE ==> BackspaceFree(s) else Calm(Desk(s, s.exec), Put(c))
  }

  // For plain text it does not matter where the terminal is.
  lemma {:induction false} PutcDesk(s: Con, c: byte, u: nat)
    requires Wf(s) && u < TERMINALS && Plain(s, c)
    ensures Wf(Putc(s, c)) && Putc(s, c).active == s.active && Putc(s, c).exec == s.exec
    ensures forall t | 0 <= t < TERMINALS :: Putc(s, c).tm[t].running == s.tm[t].running
    ensures Desk(Putc(s, c), u) == if u == s.exec then Desk(s, u).(pane := PutFront(Desk(s, u).pane, ATTR[u], c, 0, 0)) else Desk(s, u)
  {
    hide PutFront, PutBack, Plain;
    PlainPrints(s, c);
    SetPaneDesk(s, s.exec, Printed(s, c), u);
  }

  lemma PlainPrints(s: Con, c: byte)
    requires Wf(s) && Plain(s, c)
    ensures Printed(s, c) == PutFront(Desk(s, s.exec).pane, ATTR[s.exec], c, 0, 0)
  {
    PathsAgree(Desk(s, s.exec).pane, ATTR[s.exec], c, 0, 0);
  }

  // While no carriage return is printed, Backspace stays free.
  lemma NoReturnStays(s: Con, c: byte)
    requires Wf(s) && NoReturn(s)
    ensures BackspaceFree(s) && (c != RETURN ==> NoReturn(Putc(s, c)))
  {
  }

  lemma PutcKeepsForm(s: Con, c: byte)
    requires Wf(s)
    ensures Wf(Putc(s, c)) && Putc(s, c).exec == s.exec && Putc(s, c).active == s.active
  {
    PutcDesks(s, c, 0);
  }

  // A run of `putc` by the executing terminal's program.
  ghost function PrintText(s: Con, text: seq<byte>): (r: Con)
    requires Wf(s)
    ensures Wf(r) && r.exec == s.exec && r.active == s.active
    decreases |text|
  {
    if text == [] then s
    else
      PutcKeepsForm(s, text[0]);
      PrintText(Putc(s, text[0]), text[1..])
  }

  function Puts(text: seq<byte>): seq<Local> {
    if text == [] then [] else [Put(text[0])] + Puts(text[1..])
  }

  // Plain text prints on the executing logical terminal as it would there alone, and on no other.
  lemma {:induction false} TextReachesDesk(s: Con, text: seq<byte>, u: nat)
    requires Wf(s) && u < TERMINALS && CalmRun(Desk(s, s.exec), ATTR[s.exec], Puts(text))
    ensures Desk(PrintText(s, text), u)
            == if u == s.exec then LocalAfter(Desk(s, u), ATTR[u], Puts(text)) else Desk(s, u)
    decreases |text|
  {
    if text != [] {
      assert Puts(text)[0] == Put(text[0]) && Puts(text)[1..] == Puts(text[1..]);
      PutcDesk(s, text[0], u);
      PutcDesk(s, text[0], s.exec);
      TextReachesDesk(Putc(s, text[0]), text[1..], u);
    }
  }

  // Any text printed on the screen, the last column and carriage returns included, is printed as on that screen alone.
  lemma {:induction false} FrontTextIsPutAll(s: Con, text: seq<byte>)
    requires Wf(s) && s.active == s.exec
    ensures var (r, f) := (PrintText(s, text), PutAll(Front(Desk(s, s.exec).pane, s.startX, s.startY), ATTR[s.exec], text));
            Desk(r, s.exec).pane == f.pane && r.startX == f.startX && r.startY == f.startY
    decreases |text|
  {
    if text != [] {
      PutcKeepsForm(s, text[0]);
      SetPaneDesk(s, s.exec, Printed(s, text[0]), s.exec);
      FrontTextIsPutAll(Putc(s, text[0]), text[1..]);
    }
  }

  // So the screen stays the window onto the transcript of any text without Backspace that is printed on it.
  lemma {:induction false} FrontTextShows(s: Con, text: seq<byte>, rows: Transcript)
    requires Wf(s) && s.active == s.exec && Shows(Desk(s, s.exec).pane, rows) && BACKSPACE !in text
    ensures Shows(Desk(PrintText(s, text), s.exec).pane, PrintAll(rows, text))
  {
    FrontTextIsPutAll(s, text);
    ScreenShowsTranscript(Front(Desk(s, s.exec).pane, s.startX, s.startY), rows, ATTR[s.exec], text);
  }

  // A switch from a to t moves a's page out of the video page and t's into it.
  lemma SwitchMemory(mem: seq<byte>, a: int, t: int, u: int)
    requires |mem| == MEMORY && 0 <= a < TERMINALS && 0 <= t < TERMINALS && a != t && 0 <= u < TERMINALS
    ensures var saved := SetRegion(mem, a + 1, Region(mem, 0));
            Region(SetRegion(saved, 0, Region(saved, t + 1)), if u == t then 0 else u + 1) == Region(mem, if u == a then 0 else u + 1)
  {
    var saved := SetRegion(mem, a + 1, Region(mem, 0));
    RegionsApart(mem, a + 1, Region(mem, 0), t + 1);
    RegionsApart(mem, a + 1, Region(mem, 0), u + 1);
    RegionsApart(saved, 0, Region(saved, t + 1), if u == t then 0 else u + 1);
  }

  // Switching changes no logical screen, no cursor and no line.
  lemma SwitchKeepsDesks(s: Con, t: int, u: nat)
    requires Wf(s) && u < TERMINALS
    ensures Wf(SwitchTo(s, t)) && Desk(SwitchTo(s, t), u) == Desk(s, u)
  {
    if 0 <= t < TERMINALS && t != s.active && s.tm[t].running {
      SwitchMemory(s.mem, s.active, t, u);
      SamePage(s, SwitchTo(s, t), u);
    }
  }

  lemma SamePage(s: Con, s': Con, u: nat)
    requires Wf(s) && Wf(s') && u < TERMINALS && s'.tm == s.tm && Region(s'.mem, Home(s', u)) == Region(s.mem, Home(s, u))
    ensures Desk(s', u) == Desk(s, u)
  {
  }

  lemma PressKeyDesk(s: Con, k: byte, u: nat)
    requires Wf(s) && u < TERMINALS && L.Pressable(Desk(s, s.active), k) && Unhindered(s, Key(k))
    ensures Wf(PressKey(s, k)) && PressKey(s, k).active == s.active && PressKey(s, k).exec == s.exec
    ensures forall t | 0 <= t < TERMINALS :: PressKey(s, k).tm[t].running == s.tm[t].running
    ensures Desk(PressKey(s, k), u) == if u == s.active then L.Press(Desk(s, u), ATTR[u], k) else Desk(s, u)
  {
    hide Putc;
    var e := L.Echo(Desk(s, s.active), k);
    var s0 := s.(exec := s.active);
    if e.Some? {
      assert Desk(s0, u) == Desk(s, u);
      PutcDesk(s0, e.value, u);
    }
  }

  // A Backspace acts as the line editor means it exactly when it is free to erase.
  lemma BackspaceActs(s: Con)
    requires Wf(s)
    ensures var t := s.active;
            Desk(PressKey(s, BACKSPACE), t) == L.Press(Desk(s, t), ATTR[t], BACKSPACE) <==> Unhindered(s, Key(BACKSPACE))
  {
    var (t, s0) := (s.active, s.(exec := s.active));
    if Unhindered(s, Key(BACKSPACE)) {
      PressKeyDesk(s, BACKSPACE, t);
    } else {
      SetPaneDesk(s0, t, Printed(s0, BACKSPACE), t);
      assert Printed(s0, BACKSPACE) == Desk(s, t).pane;
    }
  }

  function Running(s: Con): (r: seq<bool>)
    requires |s.tm| == TERMINALS
    ensures |r| == TERMINALS
  {
    [s.tm[0].running, s.tm[1].running, s.tm[2].running]
  }

  // Only switches to running terminals move the keyboard.
  function NextActive(active: int, running: seq<bool>, e: Event): int
    requires |running| == TERMINALS
  {
    if e.Switch? && 0 <= e.to < TERMINALS && running[e.to] then e.to else active
  }

  // Each event acts on the terminal it is addressed to as that terminal's own event, and on no other.
  lemma {:induction false} StepProjects(s: Con, e: Event, u: nat)
    requires Ready(s, e) && Unhindered(s, e) && u < TERMINALS
    requires forall t: nat | t < TERMINALS && Addressed(s.active, e, t).Some? :: Calm(Desk(s, t), Addressed(s.active, e, t).value)
    ensures Wf(Step(s, e)) && Step(s, e).active == NextActive(s.active, Running(s), e)
    ensures Step(s, e).exec == if e.Write? || e.Read? then e.t else s.exec
    ensures forall t | 0 <= t < TERMINALS :: Step(s, e).tm[t].running == s.tm[t].running
    ensures var l := Addressed(s.active, e, u);
            Desk(Step(s, e), u) == if l.None? then Desk(s, u) else LocalStep(Desk(s, u), ATTR[u], l.value)
  {
    hide SetLine, Unhindered, Desk, Wf;
    match e
    case Write(t, c) =>
      assert Addressed(s.active, e, t) == Some(Put(c));
      WriteDesk(s, t, c, u);
    case Key(k) => PressKeyDesk(s, k, u);
    case Read(t, nbytes) => ReadDesk(s, t, nbytes, u);
    case Switch(t) => SwitchKeepsDesks(s, t, u);
  }

  lemma WriteDesk(s: Con, t: Terminal, c: byte, u: nat)
    requires Wf(s) && u < TERMINALS && Calm(Desk(s, t), Put(c))
    ensures var s' := Step(s, Write(t, c));
            && Wf(s') && s'.active == s.active && s'.exec == t
            && (forall i | 0 <= i < TERMINALS :: s'.tm[i].running == s.tm[i].running)
            && Desk(s', u) == if u == t then LocalStep(Desk(s, u), ATTR[u], Put(c)) else Desk(s, u)
  {
    var s0 := s.(exec := t);
    assert Desk(s0, t) == Desk(s, t) && Desk(s0, u) == Desk(s, u);
    PutcDesk(s0, c, u);
  }

  lemma ReadDesk(s: Con, t: Terminal, nbytes: int, u: nat)
    requires Wf(s) && u < TERMINALS && s.tm[t].entered
    ensures var s' := Step(s, Read(t, nbytes));
            && Wf(s') && s'.active == s.active && s'.exec == t
            && (forall i | 0 <= i < TERMINALS :: s'.tm[i].running == s.tm[i].running)
            && Desk(s', u) == if u == t then LocalStep(Desk(s, u), ATTR[u], Take(nbytes)) else Desk(s, u)
  {
  }

  // ----- every run

  // The events of a run that are addressed to terminal u, in order.
  function Project(es: seq<Event>, active: int, running: seq<bool>, u: nat): seq<Local>
    requires |running| == TERMINALS
  {
    if es == [] then []
    else
      var l := Addressed(active, es[0], u);
      var rest := Project(es[1..], NextActive(active, running, es[0]), running, u);
      if l.None? then rest else [l.value] + rest
  }

  ghost predicate CalmRun(d: L.Desk, attr: byte, ls: seq<Local>)
    decreases |ls|
  {
    ls == [] || (Calm(d, ls[0]) && CalmRun(LocalStep(d, attr, ls[0]), attr, ls[1..]))
  }

  ghost function LocalAfter(d: L.Desk, attr: byte, ls: seq<Local>): L.Desk
    requires CalmRun(d, attr, ls)
    decreases |ls|
  {
    if ls == [] then d else LocalAfter(LocalStep(d, attr, ls[0]), attr, ls[1..])
  }

  ghost predicate Runs(s: Con, es: seq<Event>)
    decreases |es|
  {
    es == [] || (Ready(s, es[0]) && Runs(Step(s, es[0]), es[1..]))
  }

  ghost function After(s: Con, es: seq<Event>): Con
    requires Runs(s, es)
    decreases |es|
  {
    if es == [] then s else After(Step(s, es[0]), es[1..])
  }

  ghost predicate AllCalm(s: Con, es: seq<Event>)
    requires Wf(s)
  {
    forall u: nat | u < TERMINALS :: CalmRun(Desk(s, u), ATTR[u], Project(es, s.active, Running(s), u))
  }

  // No Backspace of the run is stopped by a carriage return.
  ghost predicate UnhinderedRun(s: Con, es: seq<Event>)
    decreases |es|
  {
    es == [] || !Ready(s, es[0]) || (Unhindered(s, es[0]) && UnhinderedRun(Step(s, es[0]), es[1..]))
  }

  // The three terminals are independent: whatever the interleaving of output, keys, reads and switches, each
  // logical terminal ends as if it had been alone with its own events.
  lemma {:induction false} TerminalsIndependent(s: Con, es: seq<Event>)
    requires Wf(s) && AllCalm(s, es) && UnhinderedRun(s, es)
    ensures Runs(s, es) && Wf(After(s, es))
    ensures forall u: nat | u < TERMINALS ::
              Desk(After(s, es), u) == LocalAfter(Desk(s, u), ATTR[u], Project(es, s.active, Running(s), u))
    decreases |es|
  {
    hide Desk;
    if es != [] {
      HeadIsCalm(s, es);
      var s' := Step(s, es[0]);
      forall u: nat | u < TERMINALS
        ensures Wf(s')
        ensures CalmRun(Desk(s', u), ATTR[u], Project(es[1..], s'.active, Running(s'), u))
        ensures LocalAfter(Desk(s', u), ATTR[u], Project(es[1..], s'.active, Running(s'), u))
                == LocalAfter(Desk(s, u), ATTR[u], Project(es, s.active, Running(s), u))
      {
        StepProjects(s, es[0], u);
      }
      TerminalsIndependent(s', es[1..]);
    }
  }

  // In particular when no Backspace is typed, with carriage returns printed at will.
  lemma {:induction false} WithoutBackspace(s: Con, es: seq<Event>)
    requires Wf(s) && AllCalm(s, es) && Key(BACKSPACE) !in es
    ensures UnhinderedRun(s, es)
    decreases |es|
  {
    if es != [] {
      HeadIsCalm(s, es);
      assert es[0] in es;
      CalmTail(s, es);
      WithoutBackspace(Step(s, es[0]), es[1..]);
    }
  }

  // And when no carriage return is printed, with Backspaces typed at will.
  lemma {:induction false} WithoutReturn(s: Con, es: seq<Event>)
    requires Wf(s) && NoReturn(s) && AllCalm(s, es) && forall e | e in es :: e.Write? ==> e.c != RETURN
    ensures UnhinderedRun(s, es)
    decreases |es|
  {
    if es != [] {
      HeadIsCalm(s, es);
      assert es[0] in es;
      NoReturnStays(s, NUL);
      StepKeepsNoReturn(s, es[0]);
      CalmTail(s, es);
      WithoutReturn(Step(s, es[0]), es[1..]);
    }
  }

  lemma StepKeepsNoReturn(s: Con, e: Event)
    requires Ready(s, e) && NoReturn(s) && (e.Write? ==> e.c != RETURN)
    ensures NoReturn(Step(s, e))
  {
    match e
    case Write(t, c) =>
      var s0 := s.(exec := t);
      if s.active == t { NoReturnStays(s0, c); }
    case Key(k) =>
      var s0 := s.(exec := s.active);
      var echo := L.Echo(Desk(s, s.active), k);
      if echo.Some? { NoReturnStays(s0, echo.value); }
    case _ =>
  }

  lemma CalmTail(s: Con, es: seq<Event>)
    requires Wf(s) && AllCalm(s, es) && es != [] && Ready(s, es[0]) && Unhindered(s, es[0])
    requires forall t: nat | t < TERMINALS && Addressed(s.active, es[0], t).Some? :: Calm(Desk(s, t), Addressed(s.active, es[0], t).value)
    ensures Wf(Step(s, es[0])) && AllCalm(Step(s, es[0]), es[1..])
  {
    var s' := Step(s, es[0]);
    forall u: nat | u < TERMINALS
      ensures Wf(s') && CalmRun(Desk(s', u), ATTR[u], Project(es[1..], s'.active, Running(s'), u))
    {
      StepProjects(s, es[0], u);
      assert CalmRun(Desk(s, u), ATTR[u], Project(es, s.active, Running(s), u));
    }
  }

  // The head of a calm run is enabled and calm for its terminal.
  lemma HeadIsCalm(s: Con, es: seq<Event>)
    requires Wf(s) && AllCalm(s, es) && es != []
    ensures Ready(s, es[0])
    ensures forall t: nat | t < TERMINALS && Addressed(s.active, es[0], t).Some? ::
              Calm(Desk(s, t), Addressed(s.active, es[0], t).value)
  {
    forall t: nat | t < TERMINALS && Addressed(s.active, es[0], t).Some?
      ensures Calm(Desk(s, t), Addressed(s.active, es[0], t).value)
    {
      assert CalmRun(Desk(s, t), ATTR[t], Project(es, s.active, Running(s), t));
    }
    if es[0].Read? {
      assert Addressed(s.active, es[0], es[0].t).Some?;
    }
  }

  // The text a terminal's own events print, when they only print.
  function Text(ls: seq<Local>): seq<byte> {
    if ls == [] then [] else (if ls[0].Put? then [ls[0].c] else []) + Text(ls[1..])
  }

  lemma {:induction false} OutputShowsTranscript(d: L.Desk, attr: byte, ls: seq<Local>, rows: Transcript)
    requires Shows(d.pane, rows) && CalmRun(d, attr, ls) && forall l | l in ls :: l.Put?
    ensures Shows(LocalAfter(d, attr, ls).pane, PrintAll(rows, Text(ls)))
    decreases |ls|
  {
    if ls != [] {
      assert ls[0].Put?;
      assert forall l | l in ls[1..] :: l in ls;
      PutFrontShows(d.pane, attr, rows, ls[0].c, 0, 0);
      OutputShowsTranscript(LocalStep(d, attr, ls[0]), attr, ls[1..], Print(rows, ls[0].c));
      assert Text(ls)[1..] == Text(ls[1..]);
    }
  }

  // Three programs printing at once while the user switches between them: each logical screen is the window
  // onto the transcript of what its own terminal printed.
  lemma EachScreenShowsItsOwnOutput(s: Con, es: seq<Event>, u: nat, rows: Transcript)
    requires Wf(s) && AllCalm(s, es) && UnhinderedRun(s, es) && u < TERMINALS && Shows(Desk(s, u).pane, rows)
    requires forall l | l in Project(es, s.active, Running(s), u) :: l.Put?
    ensures Runs(s, es) && Wf(After(s, es))
    ensures Shows(Desk(After(s, es), u).pane, PrintAll(rows, Text(Project(es, s.active, Running(s), u))))
  {
    TerminalsIndependent(s, es);
    OutputShowsTranscript(Desk(s, u), ATTR[u], Project(es, s.active, Running(s), u), rows);
  }

  // ----- any bytes, in any column

  // What an event prints on terminal u, and whether u is on the screen then: output, or the echo of a key that fits the line.
  // A Backspace on the screen may be stopped.
  ghost function Printing(s: Con, e: Event, u: nat): seq<Output>
    requires Wf(s) && u < TERMINALS
  {
    var os := match e
      case Write(t, c) => if t != u then [] else if u == s.active then [OnScreen(c)] else [OffScreen(c)]
      case Key(k) =>
        if u != s.active then []
        else if k == RETURN then [OnScreen(NEWLINE)]
        else if (if k == BACKSPACE then s.tm[u].size > 0 else s.tm[u].size < 127) then [OnScreen(k)]
        else []
      case _ => [];
    if os == [OnScreen(BACKSPACE)] && !BackspaceFree(s) then [] else os
  }

  ghost function PrintingAll(s: Con, es: seq<Event>, u: nat): seq<Output>
    requires Wf(s) && Runs(s, es) && u < TERMINALS
    decreases |es|
  {
    if es == [] then [] else StepKeepsForm(s, es[0]); Printing(s, es[0], u) + PrintingAll(Step(s, es[0]), es[1..], u)
  }

  lemma StepKeepsForm(s: Con, e: Event)
    requires Ready(s, e)
    ensures Wf(Step(s, e))
  {
    StepPane(s, e, 0);
  }

  // What an event does to a terminal's screen, wherever Backspace stops.
  lemma {:induction false} StepPane(s: Con, e: Event, u: nat)
    requires Ready(s, e) && u < TERMINALS
    ensures Wf(Step(s, e))
    ensures var (p, os) := (Desk(s, u).pane, Printing(s, e, u));
            Desk(Step(s, e), u).pane == if os == [] then p else Screen.Put(p, ATTR[u], os[0], s.startX, s.startY)
  {
    hide PutFront, PutBack, Putc, PressKey, SwitchTo;
    match e
    case Write(t, c) => WritePane(s, t, c, u);
    case Key(k) => KeyPane(s, k, u);
    case Read(t, nbytes) => ReadDesk(s, t, nbytes, u);
    case Switch(t) => SwitchKeepsDesks(s, t, u);
  }

  lemma WritePane(s: Con, t: Terminal, c: byte, u: nat)
    requires Wf(s) && u < TERMINALS
    ensures Wf(Putc(s.(exec := t), c))
    ensures var (p, os) := (Desk(s, u).pane, Printing(s, Write(t, c), u));
            Desk(Putc(s.(exec := t), c), u).pane == if os == [] then p else Screen.Put(p, ATTR[u], os[0], s.startX, s.startY)
  {
    hide PutFront, PutBack, Putc;
    var s0 := s.(exec := t);
    assert Desk(s0, u) == Desk(s, u);
    PutcDesks(s0, c, u);
    StoppedStays(Desk(s, u).pane, ATTR[u], s.startX, s.startY);
  }

  lemma StoppedStays(p: Pane, attr: byte, startX: int, startY: int)
    requires InBounds(p)
    ensures AtStop(p, startX, startY) ==> PutFront(p, attr, BACKSPACE, startX, startY) == p
  {
  }

  lemma KeyPane(s: Con, k: byte, u: nat)
    requires Ready(s, Key(k)) && u < TERMINALS
    ensures Wf(PressKey(s, k))
    ensures var (p, os) := (Desk(s, u).pane, Printing(s, Key(k), u));
            Desk(PressKey(s, k), u).pane == if os == [] then p else Screen.Put(p, ATTR[u], os[0], s.startX, s.startY)
  {
    hide PutFront, PutBack;
    var (s0, echo) := (s.(exec := s.active), L.Echo(Desk(s, s.active), k));
    assert Desk(s0, u) == Desk(s, u);
    StoppedStays(Desk(s, u).pane, ATTR[u], s.startX, s.startY);
    if echo.Some? {
      SetPaneDesk(s0, s.active, Printed(s0, echo.value), u);
    }
  }

  lemma PrintingIsFree(s: Con, e: Event, u: nat)
    requires Wf(s) && u < TERMINALS && Printing(s, e, u) == [OnScreen(BACKSPACE)]
    ensures !AtStop(Desk(s, u).pane, s.startX, s.startY)
  {
  }

  // Whatever the interleaving, with every terminal's output going now to the screen, now to its backing page: each logical
  // screen is the window onto its own text, for all bytes, in every cell, with Backspaces that are not stopped.
  lemma {:induction false} EveryByteShows(s: Con, es: seq<Event>, u: nat, t: Script)
    requires Wf(s) && Runs(s, es) && u < TERMINALS && ShowsScript(Desk(s, u).pane, t)
    ensures Wf(After(s, es)) && ShowsScript(Desk(After(s, es), u).pane, ExtendAll(t, PrintingAll(s, es, u)))
    decreases |es|
  {
    hide Wf, Desk, Ready, Step, Extend, Cells;
    if es != [] {
      StepKeepsForm(s, es[0]);
      StepPane(s, es[0], u);
      var (os, rest) := (Printing(s, es[0], u), PrintingAll(Step(s, es[0]), es[1..], u));
      assert PrintingAll(s, es, u) == os + rest;
      if os == [] {
        assert os + rest == rest;
        EveryByteShows(Step(s, es[0]), es[1..], u, t);
      } else {
        assert os == [os[0]] && (os + rest)[0] == os[0] && (os + rest)[1..] == rest;
        if os == [OnScreen(BACKSPACE)] { PrintingIsFree(s, es[0], u); }
        PutShows(Desk(s, u).pane, ATTR[u], t, os[0], s.startX, s.startY);
        EveryByteShows(Step(s, es[0]), es[1..], u, Extend(t, os[0]));
      }
    }
  }

  // And in its own colour, whatever is printed, typed, erased and switched.
  lemma {:induction false} ColoursKept(s: Con, es: seq<Event>, u: nat)
    requires Wf(s) && Runs(s, es) && u < TERMINALS
    ensures Wf(After(s, es))
    ensures Inked(Desk(s, u).pane.page, ATTR[u]) ==> Inked(Desk(After(s, es), u).pane.page, ATTR[u])
    ensures Coloured(Desk(s, u).pane.page, ATTR[u]) ==> Coloured(Desk(After(s, es), u).pane.page, ATTR[u])
    decreases |es|
  {
    hide Wf, Desk, Ready, Step, Inked, Coloured;
    if es != [] {
      StepKeepsForm(s, es[0]);
      StepPane(s, es[0], u);
      var os := Printing(s, es[0], u);
      if os != [] { PutColours(Desk(s, u).pane, ATTR[u], os[0], s.startX, s.startY); }
      ColoursKept(Step(s, es[0]), es[1..], u);
    }
  }

  // ----- where it fails

  // Terminal 0 prints a carriage return. On terminal 1, after a key and a line break, Backspace takes the character
  // out of the line and leaves the cursor where it is.
  const INTERFERENCE := [Write(0, RETURN), Switch(1), Key(97), Write(1, NEWLINE), Key(BACKSPACE)]

  lemma ReturnStopsBackspace(s: Con)
    requires Wf(s) && s.active == 0 && s.tm[1].running && s.screenX == 0 && s.screenY == 0
    requires s.tm[1].x == 0 && s.tm[1].y == 0 && s.tm[1].size == 0
    ensures Runs(s, INTERFERENCE[..4]) && Wf(After(s, INTERFERENCE[..4])) && Ready(After(s, INTERFERENCE[..4]), Key(BACKSPACE))
    ensures var s4 := After(s, INTERFERENCE[..4]);
            var s5 := Step(s4, Key(BACKSPACE));
            && s4.active == 1 && !Unhindered(s4, Key(BACKSPACE))
            && s4.tm[1].size == 1 && s5.tm[1].size == 0 && s5.screenX == s4.screenX && s5.screenY == s4.screenY
  {
    ReturnThenSwitch(s);
    var s2 := Step(Step(s, Write(0, RETURN)), Switch(1));
    KeyThenBreak(s2);
    BackspaceStops(Step(Step(s2, Key(97)), Write(1, NEWLINE)));
    assert INTERFERENCE[..4] == [Write(0, RETURN), Switch(1), Key(97), Write(1, NEWLINE)];
    FourSteps(s, Write(0, RETURN), Switch(1), Key(97), Write(1, NEWLINE));
  }

  lemma ReturnThenSwitch(s: Con)
    requires Wf(s) && s.active == 0 && s.tm[1].running && s.screenX == 0 && s.screenY == 0
    requires s.tm[1].x == 0 && s.tm[1].y == 0 && s.tm[1].size == 0
    ensures var s1 := Step(s, Write(0, RETURN));
            var s2 := SwitchTo(s1, 1);
            && Wf(s1) && Wf(s2) && s2.active == 1 && s2.startX == 0 && s2.startY == 1
            && s2.screenX == 0 && s2.screenY == 0 && s2.tm[1].size == 0
  {
    var s0 := s.(exec := 0);
    PutcKeepsForm(s0, RETURN);
    SwitchKeepsDesks(Putc(s0, RETURN), 1, 0);
  }

  lemma KeyThenBreak(s: Con)
    requires Wf(s) && s.active == 1 && s.startX == 0 && s.startY == 1 && s.screenX == 0 && s.screenY == 0 && s.tm[1].size == 0
    ensures var s3 := PressKey(s, 97);
            var s4 := Step(s3, Write(1, NEWLINE));
            && Wf(s3) && Wf(s4) && s4.active == 1 && s4.startX == 0 && s4.startY == 1
            && s4.screenX == 0 && s4.screenY == 1 && s4.tm[1].size == 1
  {
    PressKeyDesk(s, 97, 1);
    var s3 := PressKey(s, 97);
    PutcKeepsForm(s3.(exec := 1), NEWLINE);
  }

  lemma BackspaceStops(s: Con)
    requires Wf(s) && s.startX == s.screenX && s.startY == s.screenY > 0 && s.tm[s.active].size > 0
    ensures var s' := PressKey(s, BACKSPACE);
            !Unhindered(s, Key(BACKSPACE)) && s'.screenX == s.screenX && s'.screenY == s.screenY
            && |s'.tm| == TERMINALS && s'.tm[s.active].size == s.tm[s.active].size - 1
  {
  }

  lemma FourSteps(s: Con, a: Event, b: Event, c: Event, d: Event)
    requires Ready(s, a) && Ready(Step(s, a), b) && Ready(Step(Step(s, a), b), c) && Ready(Step(Step(Step(s, a), b), c), d)
    ensures Runs(s, [a, b, c, d]) && After(s, [a, b, c, d]) == Step(Step(Step(Step(s, a), b), c), d)
  {
    hide Ready, Step;
    var (s1, s2, s3) := (Step(s, a), Step(Step(s, a), b), Step(Step(Step(s, a), b), c));
    assert [d][1..] == [] && [c, d][1..] == [d] && [b, c, d][1..] == [c, d] && [a, b, c, d][1..] == [b, c, d];
    assert Runs(s3, [d]) && After(s3, [d]) == Step(s3, d);
    assert Runs(s2, [c, d]) && After(s2, [c, d]) == Step(s3, d);
    assert Runs(s1, [b, c, d]) && After(s1, [b, c, d]) == Step(s3, d);
  }
}
