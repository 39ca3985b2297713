// Runs from boot that reach the states in which the bookkeeping goes wrong.
module Witness {
  import opened Bytes
  import opened Machine
  import opened Forest
  import opened Stacks
  import opened Mapping
  import opened Descriptors
  import Command

  const TOKEN := Ctx(0, 0)
  const SCRATCH := Scratch(TOKEN, Repeat(NUL, Command.BUF_SIZE))
  const TICK := Tick(TOKEN, TOKEN, SCRATCH)

  lemma AtBoot()
    ensures Reachable(INITIAL)
  {
    assert Runs(INITIAL, []) && After(INITIAL, []) == INITIAL;
    ForestInitially();
  }

  // The first n shells have booted, and the last of them is executing.
  ghost predicate ShellsUp(s: State, n: nat) {
    && Shape(s) && n <= NUM_TERMINAL && s.exec == n - 1 && s.active == (if n == 0 then -1 else 0)
    && (forall t | 0 <= t < NUM_TERMINAL :: s.tmnl[t] == if t < n then Tmnl(t, true) else Tmnl(-1, false))
    && (forall p | 0 <= p < PCB_SIZE :: s.pcb[p].exists' <==> p < n)
    && (forall p | 0 <= p < n :: s.pcb[p].fds == FRESH_FDS && s.pcb[p].parent == -1)
  }

  // After n ticks.
  ghost predicate Booting(s: State, n: nat) { Reachable(s) && ShellsUp(s, n) }

  lemma LowestAbsent(pcb: seq<Pcb>, k: nat)
    requires k < |pcb| && !pcb[k].exists' && forall p | 0 <= p < k :: pcb[p].exists'
    ensures FreeSlot(pcb, 0) == k
  {
  }

  lemma ShellBoots(s: State, n: nat)
    requires ShellsUp(s, n) && n < NUM_TERMINAL
    ensures ShellsUp(TickStep(s, TOKEN, TOKEN, SCRATCH).0, n + 1)
  {
    hide Spawn, TickStep;
    LowestAbsent(s.pcb, n);
    var s' := BootingTick(s, TOKEN, TOKEN, SCRATCH, n);
    SameFreeSlot(s.pcb, SavedIn(s, TOKEN), 0);
  }

  lemma OneMoreShell(s: State, n: nat) returns (s': State)
    requires Booting(s, n) && n < NUM_TERMINAL
    ensures Booting(s', n + 1) && s' == TickStep(s, TOKEN, TOKEN, SCRATCH).0
  {
    ReachableStep(s, TICK);
    ShellBoots(s, n);
    s' := TickStep(s, TOKEN, TOKEN, SCRATCH).0;
  }

  lemma AllShells() returns (s: State)
    ensures Booting(s, NUM_TERMINAL)
  {
    AtBoot();
    s := OneMoreShell(INITIAL, 0);
    s := OneMoreShell(s, 1);
    s := OneMoreShell(s, 2);
  }

  // The first tick schedules terminal 0, puts it on the screen, and maps its backing page instead.
  lemma FirstTickMapsBackingPage()
    ensures Reachable(INITIAL)
    ensures var s' := TickStep(INITIAL, TOKEN, TOKEN, SCRATCH).0;
            s'.exec == 0 && s'.active == 0 && s'.vidPage == VidEntry(0) != VidEntry(-1)
  {
    AtBoot();
    LowestAbsent(INITIAL.pcb, 0);
    SameFreeSlot(INITIAL.pcb, SavedIn(INITIAL, TOKEN), 0);
    var s' := BootingTick(INITIAL, TOKEN, TOKEN, SCRATCH, 0);
  }

  // After the third tick terminal 2 is executing with terminal 0 on the screen: a program it starts lands on
  // terminal 0, under terminal 2's feet.
  lemma BackgroundExecuteGoesAstray() returns (s: State)
    ensures Reachable(s) && s.tmnl[2].running && s.exec != s.active && FreeSlot(s.pcb) >= 0
    ensures var (s', pid) := Spawn(s, TOKEN, SCRATCH);
            s.exec == s'.exec == 2 && s'.tmnl[0].process == pid && s'.tmnl[2].process == 2 && Shape(s') && !Coherent(s')
  {
    s := AllShells();
    LowestAbsent(s.pcb, 3);
  }

  // The third tick leaves the page right, and a switch to terminal 2 then makes it wrong.
  lemma SwitchLeavesStalePage() returns (s: State)
    ensures Reachable(s) && VidmapRight(s) && !VidmapRight(SwitchStep(s, 2))
  {
    var s2 := TwoShells();
    VidmapAfterTick(s2, TOKEN, TOKEN, SCRATCH);
    s := OneMoreShell(s2, 2);
    VidmapAfterSwitch(s, 2);
  }

  lemma TwoShells() returns (s: State)
    ensures Booting(s, 2)
  {
    AtBoot();
    s := OneMoreShell(INITIAL, 0);
    s := OneMoreShell(s, 1);
  }

  // With only the first shell up, a program it starts takes slot 1 and terminal 1.
  lemma EarlyExecuteGoesAstray() returns (s: State)
    ensures Reachable(s) && s.exec == 0 && !s.tmnl[1].running && FreeSlot(s.pcb) == 1
    ensures var s' := Spawn(s, TOKEN, SCRATCH).0; s'.exec == 1 && !s'.tmnl[1].running && s'.pcb[1].parent == -1
  {
    AtBoot();
    s := OneMoreShell(INITIAL, 0);
    LowestAbsent(s.pcb, 1);
  }

  // Such a run goes on: terminal 1 holds program 1 but is marked idle, and shells 0 and 2 are up.
  ghost predicate IdleBehind(s: State) {
    && Shape(s) && s.exec == 0 && s.active == 0 && s.tmnl == [Tmnl(0, true), Tmnl(1, false), Tmnl(2, true)]
    && forall p | 0 <= p < PCB_SIZE :: s.pcb[p].exists' <==> p < 3
  }

  lemma EarlyStart(s: State) returns (s': State)
    requires ShellsUp(s, 1)
    ensures Command.Readable(Command.BARE_LINE) && s' == ExecuteParsed(s, Command.Parse(Command.BARE_LINE), true, TOKEN, SCRATCH).0
    ensures Shape(s') && s'.exec == 1 && s'.active == 0 && s'.tmnl == [Tmnl(0, true), Tmnl(1, false), Tmnl(-1, false)]
    ensures forall p | 0 <= p < PCB_SIZE :: s'.pcb[p].exists' <==> p < 2
  {
    Command.BareLineIsPlain();
    LowestAbsent(s.pcb, 1);
    s' := Spawn(s, TOKEN, SCRATCH).0;
  }

  lemma TwoTicksOn(s: State) returns (s1: State, s': State)
    requires Shape(s) && s.exec == 1 && s.active == 0 && s.tmnl == [Tmnl(0, true), Tmnl(1, false), Tmnl(-1, false)]
    requires forall p | 0 <= p < PCB_SIZE :: s.pcb[p].exists' <==> p < 2
    ensures s1 == TickStep(s, TOKEN, TOKEN, SCRATCH).0 && Shape(s1)
    ensures s' == TickStep(s1, TOKEN, TOKEN, SCRATCH).0 && IdleBehind(s')
  {
    hide Spawn;
    LowestAbsent(s.pcb, 2);
    s1 := BootingTick(s, TOKEN, TOKEN, SCRATCH, 2);
    s' := TickStep(s1, TOKEN, TOKEN, SCRATCH).0;
  }

  // The tick that comes to terminal 1 starts one more shell, on terminal 0.
  lemma IdleTerminalStartsAShell() returns (s: State, s': State)
    ensures Reachable(s) && IdleBehind(s) && s' == TickStep(s, TOKEN, TOKEN, SCRATCH).0
    ensures TickStep(s, TOKEN, TOKEN, SCRATCH).1 == Booted(TOKEN)
    ensures s'.exec == 1 && |s'.tmnl| == NUM_TERMINAL && s'.tmnl[1].process == 1 && s'.tmnl[0].process == 3
  {
    AtBoot();
    var s1 := OneMoreShell(INITIAL, 0);
    var s2 := EarlyStart(s1);
    ReachableStep(s1, Execute(Command.BARE_LINE, true, TOKEN, SCRATCH));
    var s3;
    s3, s := TwoTicksOn(s2);
    ReachableStep(s2, TICK);
    ReachableStep(s3, TICK);
    s' := ShellOnScreen(s);
  }

  lemma ShellOnScreen(s: State) returns (s': State)
    requires IdleBehind(s)
    ensures s' == TickStep(s, TOKEN, TOKEN, SCRATCH).0 && TickStep(s, TOKEN, TOKEN, SCRATCH).1 == Booted(TOKEN)
    ensures s'.exec == 1 && |s'.tmnl| == NUM_TERMINAL && s'.tmnl[1].process == 1 && s'.tmnl[0].process == 3
  {
    LowestAbsent(s.pcb, 3);
    SameFreeSlot(s.pcb, SavedIn(s, TOKEN), 0);
    s' := TickStep(s, TOKEN, TOKEN, SCRATCH).0;
  }

  // Shell 0 opens a file.
  lemma ShellOpens() returns (s: State)
    ensures Reachable(s) && s.exec == 0 && s.active == 0 && s.tmnl[2].running && Cur(s) == 0
    ensures s.pcb[0].parent == -1 && s.pcb[0].fds[2] == Present(File, 0, 0)
    ensures forall p | 0 <= p < PCB_SIZE :: s.pcb[p].exists' <==> p < 3
  {
    var s4 := ShellResumes();
    ReachableStep(s4, OpenFd(File, 0));
    assert FreeFd(s4.pcb[0].fds) == 2;
    s := OpenStep(s4, File, 0).0;
  }

  lemma ShellResumes() returns (s: State)
    ensures Reachable(s) && s.exec == 0 && s.active == 0 && s.tmnl[2].running && Cur(s) == 0
    ensures s.pcb[0].parent == -1 && s.pcb[0].fds == FRESH_FDS && forall p | 0 <= p < PCB_SIZE :: s.pcb[p].exists' <==> p < 3
  {
    var s3 := AllShells();
    ReachableStep(s3, TICK);
    s := TickStep(s3, TOKEN, TOKEN, SCRATCH).0;
  }

  // Then it executes a program, which halts: the file is closed under the shell.
  lemma HaltClosesTheShellsFile() returns (s: State)
    ensures Reachable(s) && s.exec == 0 && Cur(s) == 3 && s.pcb[3].parent == 0
    ensures s.pcb[0].fds[2].Present? && HaltStep(s, NUL).0.pcb[0].fds[2] == Absent
    ensures ChildRunning(s) && s.pcb[0].argument[..2] == [98, NUL]
  {
    var s5 := ShellOpens();
    var e := Execute(Command.SHORT_LINE, true, TOKEN, SCRATCH);
    Command.CopyRunsOn();
    StoresB(s5);
    ReachableStep(s5, e);
    s := ProgramStarts(s5, Command.Parse(Command.SHORT_LINE));
  }

  // Program 3, started by shell 0, is executing, and its descriptors are fresh.
  ghost predicate ChildRunning(s: State) {
    && Shape(s) && s.exec == 0 && s.active == 0 && s.tmnl[2].running && Cur(s) == 3 && s.pcb[3].parent == 0
    && s.pcb[0].parent == -1 && s.pcb[3].fds == FRESH_FDS && forall p | 0 <= p < PCB_SIZE :: s.pcb[p].exists' <==> p < 4
  }

  lemma ProgramStarts(s: State, p: Command.Parsed) returns (s': State)
    requires Shape(s) && s.exec == 0 && s.active == 0 && Cur(s) == 0 && s.tmnl[2].running && s.pcb[0].parent == -1
    requires (forall i | 0 <= i < PCB_SIZE :: s.pcb[i].exists' <==> i < 3) && !p.Blank? && p.name == [97] && FitsBuffer(p)
    ensures s' == ExecuteParsed(s, p, true, TOKEN, SCRATCH).0 && ChildRunning(s') && s'.pcb[0].fds == s.pcb[0].fds
    ensures s'.pcb[0].argument == StoreArgument(s, p).pcb[0].argument
    ensures HaltStep(s', NUL).0.pcb[0].fds[2] == Absent
  {
    var s1 := StoreArgument(s, p);
    LowestAbsent(s1.pcb, 3);
    s' := Spawn(s1, TOKEN, SCRATCH).0;
    assert !(EXIT <= p.name);
  }

  lemma StoresB(s: State)
    requires Shape(s) && s.exec == 0 && Cur(s) == 0
    ensures Command.Readable(Command.SHORT_LINE)
    ensures StoreArgument(s, Command.Parse(Command.SHORT_LINE)).pcb[0].argument[..2] == [98, NUL]
  {
    Command.CopyRunsOn();
    assert GoodPcb(s.pcb[0]);
  }

  // After the program started from "a b" has halted, "a" alone starts one that reads "b".
  lemma StaleArgumentIsRead() returns (s: State, s': State)
    ensures Reachable(s) && Enabled(s, Execute(Command.BARE_LINE, true, TOKEN, SCRATCH))
    ensures s' == Step(s, Execute(Command.BARE_LINE, true, TOKEN, SCRATCH)).0
    ensures Enabled(s', GetArgs(Command.BUF_SIZE)) && Step(s', GetArgs(Command.BUF_SIZE)).1 == Args(Some([98]))
  {
    s := ShellAgainReached();
    Command.BareLineIsPlain();
    s' := ProgramStarts(s, Command.Parse(Command.BARE_LINE));
    ReadsB(s');
  }

  lemma ReadsB(s: State)
    requires ChildRunning(s) && s.pcb[0].argument[..2] == [98, NUL]
    ensures Enabled(s, GetArgs(Command.BUF_SIZE)) && Step(s, GetArgs(Command.BUF_SIZE)).1 == Args(Some([98]))
  {
    var arg := s.pcb[0].argument;
    assert arg[0] == arg[..2][0] && arg[1] == arg[..2][1];
    Command.TakeArgIs(arg, [98], Command.BUF_SIZE);
  }

  lemma ShellAgainReached() returns (s: State)
    ensures Reachable(s) && s.exec == 0 && s.active == 0 && Cur(s) == 0 && s.tmnl[2].running
    ensures s.pcb[0].parent == -1 && s.pcb[0].argument[..2] == [98, NUL] && forall p | 0 <= p < PCB_SIZE :: s.pcb[p].exists' <==> p < 3
  {
    var s6 := HaltClosesTheShellsFile();
    ReachableStep(s6, Halt(NUL));
    s := ShellAgain(s6);
  }

  lemma ShellAgain(s: State) returns (s': State)
    requires ChildRunning(s)
    ensures s' == HaltStep(s, NUL).0 && Shape(s') && s'.exec == 0 && s'.active == 0 && Cur(s') == 0 && s'.tmnl[2].running
    ensures s'.pcb[0].parent == -1 && s'.pcb[0].argument == s.pcb[0].argument
    ensures forall p | 0 <= p < PCB_SIZE :: s'.pcb[p].exists' <==> p < 3
  {
    s' := HaltStep(s, NUL).0;
  }

  // A program that opens the clock gets descriptor 2, which its halt does not close.
  lemma HaltForgetsTheClock() returns (s: State)
    ensures Reachable(s) && s.exec == 0 && s.pcb[Cur(s)].parent == 0 && IsClock(s.pcb[Cur(s)].fds[2]) && Rtc !in HaltCloses(s)
  {
    hide HaltStep, Spawn, Reachable;
    var s6 := HaltClosesTheShellsFile();
    ReachableStep(s6, OpenFd(Rtc, 0));
    assert FreeFd(s6.pcb[3].fds) == 2;
    s := OpenStep(s6, Rtc, 0).0;
    assert forall fd | 3 <= fd < FDT_SIZE :: !IsClock(s.pcb[3].fds[fd]);
  }
}
