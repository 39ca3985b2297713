// The kernel's process code over its own tables, step by step as the source updates them.
// Every method is proved against the function of module Machine that says what it does to the state.
module Kernel {
  import opened Bytes
  import opened Machine
  import opened Forest
  import opened FileSystem
  import opened Program
  import Command

  class Kernel {
    var pcb: array<Pcb>
    var tmnl: array<Tmnl>
    var execTerminal: int
    var activeTerminal: int
    var pageDirectory32: int
    var esp0: int
    var vidPage: int

    function View(): State
      reads this, pcb, tmnl
    {
      State(pcb[..], tmnl[..], execTerminal, activeTerminal, pageDirectory32, esp0, vidPage)
    }

    // init_pcb and init_terminal
    constructor ()
      ensures View() == INITIAL && fresh(pcb) && fresh(tmnl)
    {
      pcb := new Pcb[PCB_SIZE](i => NO_PROCESS);
      tmnl := new Tmnl[NUM_TERMINAL](t => Tmnl(-1, false));
      execTerminal, activeTerminal := -1, -1;
      pageDirectory32, esp0, vidPage := 0x2, 0x800000, 0;
      new;
      assert pcb[..] == INITIAL.pcb && tmnl[..] == INITIAL.tmnl;
    }

    method CreateProcess(parent: int, scratch: Scratch) returns (pid: int)
      modifies pcb
      ensures pid == FreeSlot(old(pcb[..]))
      ensures pcb[..] == if pid == -1 then old(pcb[..])
                         else old(pcb[..])[pid := Pcb(true, parent, Ctx(0, 0), scratch.prev, FRESH_FDS, scratch.argument)]
    {
      var fds := [Present(Stdin, 0, 0), Present(Stdout, 0, 0)];
      var i := 2;
      while i < FDT_SIZE
        invariant 2 <= i <= FDT_SIZE && fds == FRESH_FDS[..i]
      {
        fds := fds + [Absent];
        i := i + 1;
      }
      assert fds == FRESH_FDS;
      var process := Pcb(true, parent, Ctx(0, 0), scratch.prev, fds, scratch.argument);
      i := 0;
      while i < pcb.Length
        invariant 0 <= i <= pcb.Length && pcb[..] == old(pcb[..])
        invariant FreeSlot(pcb[..]) == FreeSlot(pcb[..], i)
      {
        if !pcb[i].exists' {
          pcb[i] := process;
          return i;
        }
        i := i + 1;
      }
      pid := -1;
    }

    method RemFd(fd: int) returns (r: int)
      requires Shape(View()) && execTerminal >= 0
      modifies pcb
      ensures Shape(View()) && (View(), Descriptor(r)) == CloseStep(old(View()), fd)
    {
      var process := tmnl[execTerminal].process;
      if fd < 2 || fd > FDT_SIZE - 1 { return -1; }
      if pcb[process].fds[fd] == Absent { return -1; }
      pcb[process] := pcb[process].(fds := pcb[process].fds[fd := Absent]);
      return 0;
    }

    method AddFd(kind: FdKind, inode: nat) returns (r: int)
      requires Shape(View()) && execTerminal >= 0
      modifies pcb
      ensures (View(), Descriptor(r)) == OpenStep(old(View()), kind, inode)
    {
      var process := tmnl[execTerminal].process;
      var i := 2;
      while i < FDT_SIZE
        invariant 2 <= i <= FDT_SIZE && pcb[..] == old(pcb[..])
        invariant FreeFd(pcb[process].fds) == FreeFd(pcb[process].fds, i)
      {
        if pcb[process].fds[i] == Absent {
          pcb[process] := pcb[process].(fds := pcb[process].fds[i := Present(kind, inode, 0)]);
          return i;
        }
        i := i + 1;
      }
      return -1;
    }

    // Closes the executing process's descriptors from `from` up.
    method CloseAll(from: nat)
      requires 2 <= from <= FDT_SIZE && Shape(View()) && execTerminal >= 0
      modifies pcb
      ensures var cur := tmnl[execTerminal].process;
              View() == SetPcb(old(View()), cur, old(pcb[..])[cur].(fds := CloseFrom(old(pcb[..])[cur].fds, from)))
    {
      ghost var cur := tmnl[execTerminal].process;
      ghost var fds := pcb[cur].fds;
      var i := from;
      while i < FDT_SIZE
        invariant from <= i <= FDT_SIZE && Shape(View()) && |fds| == |pcb[cur].fds| == FDT_SIZE
        invariant pcb[..] == old(pcb[..])[cur := old(pcb[..])[cur].(fds := pcb[cur].fds)]
        invariant forall k | 0 <= k < FDT_SIZE :: pcb[cur].fds[k] == if from <= k < i then Absent else fds[k]
      {
        ClosesOne(i);
        i := i + 1;
      }
      assert pcb[cur].fds == CloseFrom(fds, from);
    }

    // One turn of the loop: descriptor i is closed, if it is open.
    method ClosesOne(i: nat)
      requires 2 <= i < FDT_SIZE && Shape(View()) && execTerminal >= 0
      modifies pcb
      ensures var cur := tmnl[execTerminal].process;
              var b := old(pcb[..])[cur];
              Shape(View()) && pcb[..] == old(pcb[..])[cur := b.(fds := b.fds[i := Absent])]
    {
      ghost var cur := tmnl[execTerminal].process;
      assert GoodPcb(View().pcb[cur]);
      var r := RemFd(i);
      assert old(pcb[..])[cur].fds[i] == Absent ==> old(pcb[..])[cur].fds[i := Absent] == old(pcb[..])[cur].fds;
    }

    // Ends a process; the descriptors closed are those of the process that is current.
    method EndProcess(pid: int) returns (r: int)
      requires Shape(View()) && execTerminal >= 0 && -1 <= pid < PCB_SIZE
      modifies pcb
      ensures var s := old(View());
              if pid == -1 || !s.pcb[pid].exists' then r == -1 && View() == s
              else r == 0 && View() == Ended(s, pid)
      ensures r == 0 ==>
                var (now, cur) := (View().pcb, tmnl[execTerminal].process);
                && !now[pid].exists' && now[pid].argument == old(pcb[..])[pid].argument[0 := NUL]
                && |now[cur].fds| == FDT_SIZE && (forall fd | 2 <= fd < FDT_SIZE :: now[cur].fds[fd] == Absent)
                && (forall p: nat | p < PCB_SIZE && p != pid && p != cur :: now[p] == old(pcb[..])[p])
    {
      if pid == -1 { return -1; }
      if !pcb[pid].exists' { return -1; }
      pcb[pid] := pcb[pid].(exists' := false);
      pcb[pid] := pcb[pid].(argument := pcb[pid].argument[0 := NUL]);
      CloseAll(2);
      r := 0;
    }

    // The loop of halt: `close` on every open descriptor from 3 up. `closed` lists the devices whose own close
    // operation is called.
    method CloseFiles() returns (closed: seq<FdKind>)
      requires Shape(View()) && execTerminal >= 0
      modifies pcb
      ensures var cur := tmnl[execTerminal].process;
              && closed == OpenKinds(old(pcb[..])[cur].fds, 3)
              && View() == SetPcb(old(View()), cur, old(pcb[..])[cur].(fds := CloseFrom(old(pcb[..])[cur].fds, 3)))
    {
      ghost var cur := tmnl[execTerminal].process;
      ghost var fds := pcb[cur].fds;
      closed := [];
      var i := 3;
      while i < FDT_SIZE
        invariant 3 <= i <= FDT_SIZE && Shape(View()) && |fds| == |pcb[cur].fds| == FDT_SIZE
        invariant pcb[..] == old(pcb[..])[cur := old(pcb[..])[cur].(fds := pcb[cur].fds)]
        invariant forall k | 0 <= k < FDT_SIZE :: pcb[cur].fds[k] == if 3 <= k < i then Absent else fds[k]
        invariant closed + OpenKinds(fds, i) == OpenKinds(fds, 3)
      {
        ghost var before := closed;
        var kinds := CloseIfOpen(i);
        closed := closed + kinds;
        AssociatesKinds(before, kinds, OpenKinds(fds, i + 1));
        i := i + 1;
      }
      assert pcb[cur].fds == CloseFrom(fds, 3);
    }

    // `close` on descriptor i if it is open; its kind, if it was.
    method CloseIfOpen(i: nat) returns (kinds: seq<FdKind>)
      requires 2 <= i < FDT_SIZE && Shape(View()) && execTerminal >= 0
      modifies pcb
      ensures var cur := tmnl[execTerminal].process;
              var b := old(pcb[..])[cur];
              && Shape(View()) && pcb[..] == old(pcb[..])[cur := b.(fds := b.fds[i := Absent])]
              && kinds == if b.fds[i].Present? then [b.fds[i].kind] else []
    {
      var fd := pcb[tmnl[execTerminal].process].fds[i];
      ghost var b := pcb[tmnl[execTerminal].process];
      if fd != Absent {
        kinds := [fd.kind];
        ClosesOne(i);
      } else {
        kinds := [];
        assert GoodPcb(View().pcb[tmnl[execTerminal].process]) && b.fds[i := Absent] == b.fds;
      }
    }

    method CreateProcessPage(pid: nat)
      requires pid < PCB_SIZE
      modifies this`pageDirectory32
      ensures pageDirectory32 == PageEntry(pid)
    {
      pageDirectory32 := 0x0800000 + pid * 0x400000;
      pageDirectory32 := WithBits(pageDirectory32, RW_USER_4MB);
    }

    method Halt(status: byte) returns (out: Out, closed: seq<FdKind>)
      requires Shape(View()) && execTerminal >= 0 && pcb[tmnl[execTerminal].process].exists'
      modifies this, pcb, tmnl
      ensures pcb == old(pcb) && tmnl == old(tmnl) && (View(), out) == HaltStep(old(View()), status)
      ensures closed == HaltCloses(old(View()))
    {
      ghost var s := View();
      var process := tmnl[execTerminal].process;
      var parent := pcb[process].parent;
      var frame := pcb[process].frame;
      if parent == -1 { return Ignored, []; }
      closed := CloseFiles();
      tmnl[execTerminal] := tmnl[execTerminal].(process := parent);
      var _ := EndProcess(process);
      CreateProcessPage(parent);
      esp0 := 0x800000 - 4 - 0x2000 * parent;
      out := Returned(frame, status);
      var s' := HaltStep(s, status).0;
      assert pcb[..] == s'.pcb;
      assert tmnl[..] == s'.tmnl;
    }

    method ScanSpaces(command: seq<byte>, i: nat) returns (k: nat)
      requires i <= |command| && Command.NulFrom(command, i)
      ensures k == Command.SkipSpaces(command, i) < |command|
    {
      ghost var zero := Command.SomeNul(command, i);
      k := i;
      while command[k] == SPACE
        invariant i <= k <= zero && Command.SkipSpaces(command, k) == Command.SkipSpaces(command, i)
        decreases zero - k
      {
        k := k + 1;
      }
    }

    method CopyName(command: seq<byte>, start: nat, buffer: array<byte>) returns (i: nat)
      requires start <= |command| && Command.NulFrom(command, start) && buffer.Length == Command.BUF_SIZE + 1
      modifies buffer
      ensures start <= i == Command.NameEnd(command, start) < |command| && i - start <= Command.BUF_SIZE
      ensures buffer[..i - start + 1] == command[start..i] + [NUL]
    {
      ghost var zero := Command.SomeNul(command, start);
      i := start;
      while command[i] != NUL && command[i] != NEWLINE && command[i] != SPACE && i < Command.BUF_SIZE
        invariant start <= i <= zero && i - start <= Command.BUF_SIZE
        invariant Command.NameEnd(command, i) == Command.NameEnd(command, start)
        invariant buffer[..i - start] == command[start..i]
        decreases zero - i
      {
        buffer[i - start] := command[i];
        i := i + 1;
      }
      buffer[i - start] := NUL;
    }

    // Copies from argStart to byte 127 unless `stop` ends the loop, then a NUL, into the executing process.
    method CopyArgument(command: seq<byte>, argStart: nat, stop: byte)
      requires Shape(View()) && execTerminal >= 0 && |command| >= Command.BUF_SIZE && argStart < |command|
      requires stop != NUL && (argStart > 0 || stop == NEWLINE)
      modifies pcb
      ensures var stored := Command.Copied(command, argStart, stop);
              |stored| <= Command.BUF_SIZE && View() == StoreBytes(old(View()), stored)
    {
      ghost var s := View();
      var process := tmnl[execTerminal].process;
      ghost var p := pcb[process];
      assert GoodPcb(View().pcb[process]);
      ghost var copied := [];
      var j := argStart;
      while stop != NUL && stop != NEWLINE && j < Command.BUF_SIZE
        invariant argStart <= j <= Max(argStart, Command.BUF_SIZE) && (j > argStart ==> stop != NEWLINE)
        invariant copied == command[argStart..j] && |copied| < |p.argument| == Command.BUF_SIZE
        invariant pcb[process] == p.(argument := Overlay(p.argument, copied))
        invariant pcb[..] == old(pcb[..])[process := pcb[process]]
      {
        SliceSnoc(command, argStart, j);
        StoreByte(process, j - argStart, command[j], p, copied);
        copied := copied + [command[j]];
        j := j + 1;
      }
      StoreByte(process, j - argStart, NUL, p, copied);
      assert copied == if stop != NEWLINE && argStart < Command.BUF_SIZE then command[argStart..Command.BUF_SIZE] else [];
      assert copied + [NUL] == Command.Copied(command, argStart, stop);
      assert pcb[..] == StoreBytes(s, copied + [NUL]).pcb;
    }

    // The next byte of an argument buffer of which the first bytes have been written.
    method StoreByte(process: nat, i: nat, b: byte, ghost p: Pcb, ghost copied: seq<byte>)
      requires process < pcb.Length && i == |copied| < |p.argument|
      requires pcb[process] == p.(argument := Overlay(p.argument, copied))
      modifies pcb
      ensures pcb[..] == old(pcb[..])[process := p.(argument := Overlay(p.argument, copied + [b]))]
    {
      OverlayGrows(p.argument, copied, b);
      pcb[process] := pcb[process].(argument := pcb[process].argument[i := b]);
    }

    // The part of parse_cmd after the name, which ends at `end`.
    method ParseArgument(command: seq<byte>, end: nat) returns (ghost argStart: nat)
      requires Shape(View()) && execTerminal >= 0 && |command| >= Command.BUF_SIZE
      requires end < |command| && Command.NulFrom(command, end) && (end > 0 || command[end] == NEWLINE)
      modifies pcb
      ensures argStart == Command.SkipSpaces(command, end) < |command|
      ensures var stored := Command.Copied(command, argStart, command[end]);
              && (command[argStart] != NUL ==> |stored| <= Command.BUF_SIZE && View() == StoreBytes(old(View()), stored))
              && (command[argStart] == NUL ==> View() == old(View()))
    {
      Command.ScanStopsInside(command, end);
      var k := ScanSpaces(command, end);
      argStart := k;
      if command[k] == NUL { return; }
      CopyArgument(command, k, command[end]);
    }

    // The name goes into `buffer`, the argument into the executing process. The buffer of the source ends at
    // byte 127; the one more byte here is the NUL that follows a name of 128 bytes.
    method ParseCmd(command: seq<byte>, buffer: array<byte>) returns (r: int)
      requires Shape(View()) && execTerminal >= 0 && Command.Readable(command) && buffer.Length == Command.BUF_SIZE + 1
      modifies pcb, buffer
      ensures View() == StoreArgument(old(View()), Command.Parse(command))
      ensures var p := Command.Parse(command);
              if p.Blank? then r == -1 else r == |p.name| + 1 && buffer[..r] == p.name + [NUL]
    {
      hide StoreBytes;
      Command.ScanStopsInside(command, 0);
      var start := ScanSpaces(command, 0);
      if command[start] == NUL { return -1; }
      Command.ScanStopsInside(command, start);
      var i := CopyName(command, start, buffer);
      r := i - start + 1;
      ghost var argStart := ParseArgument(command, i);
      Command.ParseIs(command, start, i, argStart);
    }

    // Designates a base shell, or makes the new process its terminal's active one.
    method Install(pid: nat)
      requires Sizes(View()) && pid < PCB_SIZE && activeTerminal >= 0
      modifies this`execTerminal, pcb, tmnl
      ensures View() == Installed(old(View()), pid)
    {
      if pid == 0 || pid == 1 || pid == 2 {
        pcb[pid] := pcb[pid].(parent := -1);
        execTerminal := pid;
        tmnl[execTerminal] := tmnl[execTerminal].(process := pid);
      } else {
        tmnl[activeTerminal] := tmnl[activeTerminal].(process := pid);
      }
    }

    // The rest of `execute`, from the allocation of a slot to the saved frame.
    method Start(img: Image, inode: nat, frame: Ctx, scratch: Scratch) returns (pid: int)
      requires Sizes(View()) && |scratch.argument| == Command.BUF_SIZE && GoodImage(img) && GoodProgram(img, inode)
      modifies this, pcb, tmnl
      ensures pcb == old(pcb) && tmnl == old(tmnl) && (View(), pid) == Spawn(old(View()), frame, scratch)
    {
      ghost var s := View();
      if activeTerminal == -1 {
        pid := CreateProcess(-1, scratch);
        activeTerminal := 0;
      } else {
        pid := CreateProcess(tmnl[activeTerminal].process, scratch);
      }
      if pid == -1 { return; }
      SettledIsSpawn(s, View(), frame, scratch, pid);
      Settle(img, inode, pid, frame);
    }

    // The new process becomes its terminal's, its program is loaded, and the frame to return to is saved.
    method Settle(img: Image, inode: nat, pid: nat, frame: Ctx)
      requires Sizes(View()) && pid < PCB_SIZE && activeTerminal >= 0 && GoodImage(img) && GoodProgram(img, inode)
      modifies this`execTerminal, this`pageDirectory32, this`esp0, pcb, tmnl
      ensures View() == Settled(old(View()), pid, frame)
    {
      Install(pid);
      CreateProcessPage(pid);
      var ret, _ := LoadProg(img, inode);
      if ret <= 0 {
        // The source would give up here, with the slot taken; a program that has been looked up loads.
        assert false;
      }
      pcb[pid] := pcb[pid].(frame := frame);
      esp0 := 0x800000 - 4 - 0x2000 * pid;
    }

    // Pads the name with spaces, then compares its first four bytes with "exit".
    method SaysExit(name: array<byte>, r: nat, ghost word: seq<byte>) returns (exit: bool)
      requires name.Length == Command.BUF_SIZE + 1 && r == |word| + 1 <= name.Length && name[..r] == word + [NUL]
      modifies name
      ensures (exit <==> EXIT <= word) && name[..r] == word + [NUL]
    {
      var i := r;
      while i < Command.BUF_SIZE
        invariant r <= i && name[..r] == word + [NUL]
      {
        name[i] := SPACE;
        i := i + 1;
      }
      var matched := 0;
      i := 0;
      while i < 4
        invariant 0 <= i <= 4 && matched == i && name[..i] == EXIT[..i]
      {
        if name[i] == EXIT[i] { matched := matched + 1; } else { break; }
        i := i + 1;
      }
      exit := matched == 4;
      assert exit <==> EXIT <= name[..];
      ExitPrefix(word, name[..]);
    }

    // What is left of `execute` after the name has been read.
    method Launch(exit: bool, img: Image, name: seq<byte>, ghost word: seq<byte>, frame: Ctx, scratch: Scratch, ghost c: seq<seq<nat>>)
      returns (out: Out, closed: seq<FdKind>)
      requires WellLinked(View(), c) && execTerminal >= 0 && |scratch.argument| == Command.BUF_SIZE
      requires GoodImage(img) && SoundName(img, word) && |word| < |name| && name[..|word| + 1] == word + [NUL] && NUL !in word
      modifies this, pcb, tmnl
      ensures pcb == old(pcb) && tmnl == old(tmnl)
      ensures (View(), out) == LaunchStep(old(View()), exit, Loadable(img, word), frame, scratch)
      ensures closed == if out.Returned? then HaltCloses(old(View())) else []
    {
      closed := [];
      if exit {
        ExecutingIsTop(View(), c);
        out, closed := Halt(NUL);
        if out != Ignored { return; }
      }
      var loads, inode := LookUp(img, name, word);
      if !loads { return Failed, []; }
      var pid := Start(img, inode, frame, scratch);
      out := if pid == -1 then Failed else Started(frame);
    }

    method Execute(img: Image, command: seq<byte>, frame: Ctx, scratch: Scratch, ghost c: seq<seq<nat>>)
      returns (out: Out, closed: seq<FdKind>)
      requires GoodImage(img) && Command.Readable(command) && SoundCommand(img, command)
      requires WellLinked(View(), c) && execTerminal >= 0 && |scratch.argument| == Command.BUF_SIZE
      modifies this, pcb, tmnl
      ensures pcb == old(pcb) && tmnl == old(tmnl)
      ensures var e := Machine.Execute(command, Loads(img, command), frame, scratch);
              Enabled(old(View()), e) && (View(), out) == Step(old(View()), e)
      ensures closed == if out.Returned? then HaltCloses(old(View())) else []
    {
      hide LaunchStep;
      ghost var p := Command.Parse(command);
      var name := new byte[Command.BUF_SIZE + 1](i => NUL);
      var r := ParseCmd(command, name);
      if r == -1 { return Failed, []; }
      var exit := SaysExit(name, r, p.name);
      ForestStore(old(View()), c, p);
      StoreKeepsFds(old(View()), p);
      out, closed := Launch(exit, img, name[..], p.name, frame, scratch, c);
    }

    // change_context up to the scheduling of the next terminal.
    method Preempt(save: Ctx, next: nat)
      requires Shape(View()) && next == (execTerminal + 1) % NUM_TERMINAL
      modifies this, pcb
      ensures pcb == old(pcb) && tmnl == old(tmnl) && View() == Preempted(old(View()), save)
    {
      var process := tmnl[next].process;
      if next == activeTerminal {
        vidPage := WithBits(4096 * (184 + -1 + 1), RW_USER);
      } else {
        vidPage := WithBits(4096 * (184 + next + 1), RW_USER);
      }
      if tmnl[next].running {
        CreateProcessPage(process);
      }
      esp0 := 0x800000 - 0x2000 * process - 4;
      if execTerminal != -1 {
        pcb[tmnl[execTerminal].process] := pcb[tmnl[execTerminal].process].(prev := save);
      }
      execTerminal := next;
    }

    // sched_handler and change_context. An idle terminal's shell is executed.
    method Tick(img: Image, save: Ctx, frame: Ctx, scratch: Scratch) returns (out: Out)
      requires Shape(View()) && |scratch.argument| == Command.BUF_SIZE
      requires GoodImage(img) && SoundName(img, SHELL) && Loadable(img, SHELL)
      modifies this, pcb, tmnl
      ensures pcb == old(pcb) && tmnl == old(tmnl) && (View(), out) == TickStep(old(View()), save, frame, scratch)
    {
      hide WithBits, Loadable, SoundName;
      var next := (execTerminal + 1) % NUM_TERMINAL;
      var process := tmnl[next].process;
      Preempt(save, next);
      if !tmnl[next].running {
        out := Boot(img, next, frame, scratch);
        if out != Failed || process < 0 { return; }
      }
      out := Resumed(pcb[process].prev);
    }

    // The first schedule of a terminal: its shell is executed.
    method Boot(img: Image, next: nat, frame: Ctx, scratch: Scratch) returns (out: Out)
      requires Sizes(View()) && next < NUM_TERMINAL && |scratch.argument| == Command.BUF_SIZE
      requires GoodImage(img) && SoundName(img, SHELL) && Loadable(img, SHELL)
      modifies this, pcb, tmnl
      ensures pcb == old(pcb) && tmnl == old(tmnl)
      ensures var s := old(View());
              var (s', pid) := Spawn(s.(tmnl := s.tmnl[next := s.tmnl[next].(running := true)]), frame, scratch);
              View() == s' && out == if pid == -1 then Failed else Booted(frame)
    {
      tmnl[next] := tmnl[next].(running := true);
      var loads, inode := LookUp(img, SHELL + [NUL], SHELL);
      var pid := Start(img, inode, frame, scratch);
      out := if pid == -1 then Failed else Booted(frame);
    }

    // The part of switch_terminal that is not about the screen.
    method SwitchTerminal(t: int) returns (r: int)
      requires Shape(View())
      modifies this`activeTerminal
      ensures View() == SwitchStep(old(View()), t)
      ensures r == if t != old(activeTerminal) && !(0 <= t < NUM_TERMINAL) then -1 else 0
    {
      if t == activeTerminal { return 0; }
      if t > NUM_TERMINAL - 1 || t < 0 { return -1; }
      if !tmnl[t].running { return 0; }
      activeTerminal := t;
      return 0;
    }

    method GetArgs(buf: array<byte>, nbytes: int) returns (r: int)
      requires Shape(View()) && execTerminal >= 0 && pcb[tmnl[execTerminal].process].parent >= 0
      requires buf.Length > Min(nbytes, Command.BUF_SIZE) && buf.Length > 0
      modifies buf
      ensures var given := Step(View(), Machine.GetArgs(nbytes)).1.result;
              if given.None? then r == -1 && buf[..] == old(buf[..])
              else r == 0 && |given.value| < buf.Length && buf[..] == Overlay(old(buf[..]), given.value + [NUL])
    {
      var n := if nbytes > Command.BUF_SIZE then Command.BUF_SIZE else nbytes;
      var arg := pcb[pcb[tmnl[execTerminal].process].parent].argument;
      if arg[0] == NUL { return -1; }
      var i := 0;
      ghost var given, was := Command.TakeArg(arg, n), buf[..];
      while i < n
        invariant 0 <= i <= |given| && buf[..i] == given[..i]
        invariant forall j | i <= j < buf.Length :: buf[j] == was[j]
      {
        assert i < |given| ==> given[i] in given && given[i] == arg[i];
        if arg[i] == NUL || arg[i] == NEWLINE { break; }
        buf[i] := arg[i];
        i := i + 1;
      }
      buf[i] := NUL;
      assert buf[..i + 1] == given + [NUL];
      OverlayIs(was, buf[..], given + [NUL]);
      r := 0;
    }

    // Chases parent links from a live process; the chain it is on bounds the walk.
    method FindBaseProcess(pid: int, ghost c: seq<seq<nat>>) returns (base: int)
      requires WellLinked(View(), c) && -1 <= pid < PCB_SIZE && (pid >= 0 ==> pcb[pid].exists')
      ensures pid == -1 ==> base == -1
      ensures pid >= 0 ==> 0 <= base < NUM_TERMINAL && (pid as nat) in c[base]
    {
      if pid == -1 { return -1; }
      ghost var t, k := PlaceOf(View(), c, pid);
      base := pid;
      while pcb[base].parent != -1
        invariant 0 <= base < PCB_SIZE && 0 <= k < |c[t]| && base == c[t][k] && Chain(Links(View()), Tops(View())[t], c[t], t)
        decreases k
      {
        assert ParentOf(Links(View()), c[t][k]) == pcb[base].parent;
        base := pcb[base].parent;
        k := k - 1;
      }
      assert ParentOf(Links(View()), c[t][k]) == -1;
    }
  }

  lemma AssociatesKinds(a: seq<FdKind>, b: seq<FdKind>, c: seq<FdKind>)
    ensures a + (b + c) == (a + b) + c
  {
  }

  function Installed(s: State, pid: nat): (r: State)
    requires Sizes(s) && pid < PCB_SIZE && s.active >= 0
    ensures |r.pcb| == PCB_SIZE
  {
    var base := pid < NUM_TERMINAL;
    SetProcess(if base then SetPcb(s, pid, s.pcb[pid].(parent := -1)).(exec := pid) else s, if base then pid else s.active, pid)
  }

  function Settled(s: State, pid: nat, frame: Ctx): State
    requires Sizes(s) && pid < PCB_SIZE && s.active >= 0
  {
    var r := Installed(s, pid);
    SetPcb(r, pid, r.pcb[pid].(frame := frame)).(pageDir := PageEntry(pid), esp0 := Esp0(pid))
  }

  // Creating and settling a process is what the machine calls spawning it.
  lemma SettledIsSpawn(s: State, s1: State, frame: Ctx, scratch: Scratch, pid: nat)
    requires Sizes(s) && Sizes(s1) && |scratch.argument| == Command.BUF_SIZE && pid == FreeSlot(s.pcb)
    requires var parent := if s.active == -1 then -1 else s.tmnl[s.active].process;
             s1 == s.(active := if s.active == -1 then 0 else s.active,
                      pcb := s.pcb[pid := Pcb(true, parent, Ctx(0, 0), scratch.prev, FRESH_FDS, scratch.argument)])
    ensures Spawn(s, frame, scratch) == (Settled(s1, pid, frame), pid)
  {
    assert Spawn(s, frame, scratch).0.pcb == Settled(s1, pid, frame).pcb;
  }

  // Storing an argument touches no descriptor and no parent.
  lemma StoreKeepsFds(s: State, p: Command.Parsed)
    requires Shape(s) && s.exec >= 0 && FitsBuffer(p)
    ensures HaltCloses(StoreArgument(s, p)) == HaltCloses(s)
  {
  }

  lemma ExitPrefix(name: seq<byte>, padded: seq<byte>)
    requires |padded| > |name| && |padded| > 4 && padded[..|name| + 1] == name + [NUL]
    ensures EXIT <= padded <==> EXIT <= name
  {
    assert padded[|name|] == NUL && padded[..|name|] == name;
    if EXIT <= padded {
      assert padded[0] == EXIT[0] && padded[1] == EXIT[1] && padded[2] == EXIT[2] && padded[3] == EXIT[3];
    }
  }

  lemma PlaceOf(s: State, c: seq<seq<nat>>, pid: nat) returns (t: nat, k: nat)
    requires WellLinked(s, c) && pid < PCB_SIZE && s.pcb[pid].exists'
    ensures t < NUM_TERMINAL && k < |c[t]| && c[t][k] == pid && Chain(Links(s), Tops(s)[t], c[t], t)
  {
    assert Links(s)[pid] != FREE;
    t := if pid in c[0] then 0 else if pid in c[1] then 1 else 2;
    k :| 0 <= k < |c[t]| && c[t][k] == pid;
    assert Chain(Links(s), Tops(s)[t], c[t], t);
  }
}
