// The descriptors of a new process, and what a halt does to its own and to its parent's, each with the exact condition
// under which it is right.
module Descriptors {
  import opened Bytes
  import opened Machine
  import opened Forest
  import opened Stacks
  import Clock = Rtc
  import Command

  // The process in the slot that a step starting a program fills, where its terminal finds it.
  function NewProcess(s: State, s': State): int
    requires Sizes(s) && Sizes(s')
  {
    if FreeSlot(s.pcb) == -1 then -1 else s'.tmnl[Place(s, FreeSlot(s.pcb))].process
  }

  ghost predicate HasOnlyStandardFds(s: State, pid: int) {
    && 0 <= pid < |s.pcb| && s.pcb[pid].exists' && |s.pcb[pid].fds| == FDT_SIZE
    && forall fd | 0 <= fd < FDT_SIZE :: s.pcb[pid].fds[fd] ==
         if fd == 0 then Present(Stdin, 0, 0) else if fd == 1 then Present(Stdout, 0, 0) else Absent
  }

  lemma {:induction false} SpawnsFresh(s: State, frame: Ctx, scratch: Scratch)
    requires Sizes(s) && (s.active >= 0 || FreeSlot(s.pcb) == 0) && FreeSlot(s.pcb) >= 0 && |scratch.argument| == Command.BUF_SIZE
    ensures var s' := Spawn(s, frame, scratch).0; Sizes(s') && HasOnlyStandardFds(s', NewProcess(s, s'))
  {
    assert Spawn(s, frame, scratch).0.pcb[FreeSlot(s.pcb)].fds == FRESH_FDS;
  }

  lemma {:induction false} BootsFresh(s: State, save: Ctx, frame: Ctx, scratch: Scratch)
    requires Shape(s) && (s.active >= 0 || FreeSlot(s.pcb) == 0) && |scratch.argument| == Command.BUF_SIZE
    requires TickStep(s, save, frame, scratch).1.Booted?
    ensures var s' := TickStep(s, save, frame, scratch).0; Sizes(s') && HasOnlyStandardFds(s', NewProcess(s, s'))
  {
    hide SavedIn, HasOnlyStandardFds, GoodPcb;
    var next := (s.exec + 1) % NUM_TERMINAL;
    var s2 := Preempted(s, save).(tmnl := s.tmnl[next := Tmnl(s.tmnl[next].process, true)]);
    assert Sizes(s2) by { TickSizes(s, save); }
    SameFreeSlot(s.pcb, s2.pcb, 0);
    SpawnsFresh(s2, frame, scratch);
  }

  lemma TickSizes(s: State, save: Ctx)
    requires Shape(s)
    ensures var (s1, next) := (Preempted(s, save), (s.exec + 1) % NUM_TERMINAL);
            Sizes(s1) && Sizes(s1.(tmnl := s.tmnl[next := Tmnl(s.tmnl[next].process, true)]))
  {
  }

  lemma {:induction false} StartsFresh(s: State, p: Command.Parsed, loads: bool, frame: Ctx, scratch: Scratch)
    requires Shape(s) && s.exec >= 0 && s.active >= 0 && FitsBuffer(p) && |scratch.argument| == Command.BUF_SIZE
    requires ExecuteParsed(s, p, loads, frame, scratch).1.Started?
    ensures var s' := ExecuteParsed(s, p, loads, frame, scratch).0; Sizes(s') && HasOnlyStandardFds(s', NewProcess(s, s'))
  {
    var s1 := StoreArgument(s, p);
    SameFreeSlot(s.pcb, s1.pcb, 0);
    SpawnsFresh(s1, frame, scratch);
  }

  // In every reachable state, the process that a step boots or starts has exactly its standard input and output open.
  lemma {:induction false} BootedFreshDescriptors(s: State, save: Ctx, frame: Ctx, scratch: Scratch)
    requires Reachable(s) && |scratch.argument| == Command.BUF_SIZE && TickStep(s, save, frame, scratch).1.Booted?
    ensures var s' := TickStep(s, save, frame, scratch).0; Sizes(s') && HasOnlyStandardFds(s', NewProcess(s, s'))
  {
    var c := ReachableForest(s);
    if s.active == -1 {
      var next := NextToBoot(s, c);
    }
    BootsFresh(s, save, frame, scratch);
  }

  lemma {:induction false} StartedFreshDescriptors(s: State, p: Command.Parsed, loads: bool, frame: Ctx, scratch: Scratch)
    requires Reachable(s) && s.exec >= 0 && FitsBuffer(p) && |scratch.argument| == Command.BUF_SIZE
    requires ExecuteParsed(s, p, loads, frame, scratch).1.Started?
    ensures var s' := ExecuteParsed(s, p, loads, frame, scratch).0; Sizes(s') && HasOnlyStandardFds(s', NewProcess(s, s'))
  {
    var c := ReachableForest(s);
    StartsFresh(s, p, loads, frame, scratch);
  }

  // ----- from open to close

  // Process p has descriptor fd open as d.
  predicate Has(s: State, p: nat, fd: nat, d: Fd) {
    p < |s.pcb| && s.pcb[p].exists' && fd < |s.pcb[p].fds| && s.pcb[p].fds[fd] == d
  }

  // p closes the descriptor, or p or a child of p halts.
  predicate Drops(s: State, e: Event, p: nat, fd: nat)
    requires Enabled(s, e)
  {
    s.exec >= 0 && ((Cur(s) == p && e == CloseFd(fd)) || (Step(s, e).1.Returned? && (Cur(s) == p || s.pcb[Cur(s)].parent == p)))
  }

  // Nothing else, on whichever terminal and by whichever process, touches an open descriptor.
  lemma {:induction false} StepKeepsDescriptor(s: State, e: Event, p: nat, fd: nat, d: Fd)
    requires Enabled(s, e) && Has(s, p, fd, d) && d.Present? && !Drops(s, e, p, fd)
    ensures Has(Step(s, e).0, p, fd, d)
  {
    match e
    case Tick(save, frame, scratch) => TickKeepsDescriptor(s, save, frame, scratch, p, fd, d);
    case Execute(command, loads, frame, scratch) =>
      ParsedKeepsDescriptor(s, Command.Parse(command), loads, frame, scratch, p, fd, d);
    case Halt(status) => HaltKeepsDescriptor(s, status, p, fd, d);
    case _ =>
  }

  lemma SpawnKeepsDescriptor(s: State, frame: Ctx, scratch: Scratch, p: nat, fd: nat, d: Fd)
    requires Sizes(s) && Has(s, p, fd, d) && |scratch.argument| == Command.BUF_SIZE
    ensures Has(Spawn(s, frame, scratch).0, p, fd, d)
  {
  }

  lemma TickKeepsDescriptor(s: State, save: Ctx, frame: Ctx, scratch: Scratch, p: nat, fd: nat, d: Fd)
    requires Shape(s) && Has(s, p, fd, d) && |scratch.argument| == Command.BUF_SIZE
    ensures Has(TickStep(s, save, frame, scratch).0, p, fd, d)
  {
    hide Spawn;
    var next := (s.exec + 1) % NUM_TERMINAL;
    if !s.tmnl[next].running {
      TickSizes(s, save);
      SpawnKeepsDescriptor(Preempted(s, save).(tmnl := s.tmnl[next := Tmnl(s.tmnl[next].process, true)]), frame, scratch, p, fd, d);
    }
  }

  lemma ParsedKeepsDescriptor(s: State, c: Command.Parsed, loads: bool, frame: Ctx, scratch: Scratch, p: nat, fd: nat, d: Fd)
    requires Shape(s) && s.exec >= 0 && FitsBuffer(c) && |scratch.argument| == Command.BUF_SIZE && Has(s, p, fd, d)
    requires ExecuteParsed(s, c, loads, frame, scratch).1.Returned? ==> Cur(s) != p && s.pcb[Cur(s)].parent != p
    ensures Has(ExecuteParsed(s, c, loads, frame, scratch).0, p, fd, d)
  {
    hide Spawn, HaltStep;
    var s1 := StoreArgument(s, c);
    assert Has(s1, p, fd, d) && Cur(s1) == Cur(s) && s1.pcb[Cur(s)].parent == s.pcb[Cur(s)].parent;
    SpawnKeepsDescriptor(s1, frame, scratch, p, fd, d);
    HaltReturns(s1, NUL);
    if Cur(s) != p && s.pcb[Cur(s)].parent != p { HaltKeepsDescriptor(s1, NUL, p, fd, d); }
  }

  lemma HaltReturns(s: State, status: byte)
    requires Shape(s) && s.exec >= 0
    ensures HaltStep(s, status).1.Returned? <==> s.pcb[Cur(s)].parent != -1
  {
  }

  lemma HaltKeepsDescriptor(s: State, status: byte, p: nat, fd: nat, d: Fd)
    requires Shape(s) && s.exec >= 0 && Has(s, p, fd, d)
    requires HaltStep(s, status).1.Returned? ==> Cur(s) != p && s.pcb[Cur(s)].parent != p
    ensures Has(HaltStep(s, status).0, p, fd, d)
  {
  }

  // Along a run, nothing drops the descriptor.
  ghost predicate KeptOpen(s: State, es: seq<Event>, p: nat, fd: nat)
    requires Runs(s, es)
    decreases |es|
  {
    es == [] || (!Drops(s, es[0], p, fd) && KeptOpen(Step(s, es[0]).0, es[1..], p, fd))
  }

  lemma {:induction false} RunKeepsDescriptor(s: State, es: seq<Event>, p: nat, fd: nat, d: Fd)
    requires Runs(s, es) && Has(s, p, fd, d) && d.Present? && KeptOpen(s, es, p, fd)
    ensures Has(After(s, es), p, fd, d)
    decreases |es|
  {
    hide Has, Step, Enabled, Drops;
    if es != [] {
      StepKeepsDescriptor(s, es[0], p, fd, d);
      RunKeepsDescriptor(Step(s, es[0]).0, es[1..], p, fd, d);
    }
  }

  // What an open puts into the table, the lowest absent descriptor from 2 up with the inode at its first byte, is there
  // after any run that does not drop it. Its close then succeeds, and takes this descriptor and no other.
  lemma {:induction false} OpenedUntilClosed(s: State, kind: FdKind, inode: nat, es: seq<Event>)
    requires Shape(s) && s.exec >= 0 && s.pcb[Cur(s)].exists' && OpenStep(s, kind, inode).1 != Descriptor(-1)
    requires var (s1, p) := (OpenStep(s, kind, inode).0, Cur(s));
             Runs(s1, es) && KeptOpen(s1, es, p, FreeFd(s.pcb[p].fds)) && Enabled(After(s1, es), CloseFd(0)) && Cur(After(s1, es)) == p
    ensures var (p, (s1, out)) := (Cur(s), OpenStep(s, kind, inode));
            var (fd, s2) := (FreeFd(s.pcb[p].fds), After(s1, es));
            var (s3, out') := CloseStep(s2, fd);
            && 2 <= fd < FDT_SIZE && s.pcb[p].fds[fd] == Absent && out == Descriptor(fd)
            && (forall j | 2 <= j < fd :: s.pcb[p].fds[j].Present?)
            && Has(s2, p, fd, Present(kind, inode, 0)) && |s2.pcb| == PCB_SIZE && |s2.pcb[p].fds| == FDT_SIZE
            && out' == Descriptor(0) && s3 == SetPcb(s2, p, s2.pcb[p].(fds := s2.pcb[p].fds[fd := Absent]))
  {
    hide KeptOpen;
    var (p, (s1, out)) := (Cur(s), OpenStep(s, kind, inode));
    RunKeepsDescriptor(s1, es, p, FreeFd(s.pcb[p].fds), Present(kind, inode, 0));
  }

  // An open fails exactly when descriptors 2 to 7 are all taken, and a close exactly when there is nothing above 1 to close;
  // neither then changes anything.
  lemma CallsFail(s: State, kind: FdKind, inode: nat, fd: int)
    requires Shape(s) && s.exec >= 0
    ensures var fds := s.pcb[Cur(s)].fds;
            && |fds| == 8
            && (OpenStep(s, kind, inode).1 == Descriptor(-1) <==> forall j | 2 <= j < 8 :: fds[j].Present?)
            && (OpenStep(s, kind, inode).1 == Descriptor(-1) ==> OpenStep(s, kind, inode).0 == s)
            && (CloseStep(s, fd).1 == Descriptor(-1) <==> !(2 <= fd < 8 && fds[fd].Present?))
            && (CloseStep(s, fd).1 == Descriptor(-1) ==> CloseStep(s, fd).0 == s)
  {
    assert GoodPcb(s.pcb[Cur(s)]);
    assert FreeFd(s.pcb[Cur(s)].fds) == -1 || 2 <= FreeFd(s.pcb[Cur(s)].fds) < 8;
  }

  predicate IsClock(d: Fd) { d.Present? && d.kind == Rtc }

  // The close operations that a halt calls, as they reach terminal t's client in the clock's table.
  function Closings(kinds: seq<FdKind>, t: nat): seq<Clock.Event> {
    if kinds == [] then [] else (if kinds[0] == FdKind.Rtc then [Clock.Close(t)] else []) + Closings(kinds[1..], t)
  }

  lemma {:induction false} ClosingsMean(kinds: seq<FdKind>, t: nat, c: Clock.Client)
    ensures Clock.After(c, t, Closings(kinds, t)) == if FdKind.Rtc in kinds then Clock.IDLE else c
  {
    if kinds != [] {
      if kinds[0] == FdKind.Rtc {
        assert Closings(kinds, t)[1..] == Closings(kinds[1..], t);
        ClosingsMean(kinds[1..], t, Clock.IDLE);
      } else {
        assert Closings(kinds, t) == Closings(kinds[1..], t);
        ClosingsMean(kinds[1..], t, c);
      }
    }
  }

  // A halt calls `close` from descriptor 3 up only: with the clock open, the terminal's client is left registered
  // exactly when the only clock was descriptor 2.
  lemma HaltLeavesClock(s: State, c: Clock.Client)
    requires Shape(s) && s.exec >= 0 && s.pcb[Cur(s)].parent >= 0 && c.client != -1
    requires exists fd :: 2 <= fd < FDT_SIZE && IsClock(s.pcb[Cur(s)].fds[fd])
    ensures var (fds, c') := (s.pcb[Cur(s)].fds, Clock.After(c, s.exec, Closings(HaltCloses(s), s.exec)));
            && (c' == c || c' == Clock.IDLE)
            && (c' == c <==> IsClock(fds[2]) && forall fd | 3 <= fd < FDT_SIZE :: !IsClock(fds[fd]))
  {
    ClosingsMean(HaltCloses(s), s.exec, c);
    var fds := s.pcb[Cur(s)].fds;
    if FdKind.Rtc !in HaltCloses(s) {
      forall fd | 3 <= fd < FDT_SIZE ensures !IsClock(fds[fd]) {
        assert fds[fd].Present? ==> fds[fd].kind in HaltCloses(s);
      }
    }
  }

  // Halting a child clears its parent's descriptors: they survive exactly when none above 1 was open.
  lemma {:induction false} HaltClearsParent(s: State, c: seq<seq<nat>>, status: byte)
    requires WellLinked(s, c) && s.exec >= 0 && s.pcb[Cur(s)].parent >= 0
    ensures var (s', parent) := (HaltStep(s, status).0, s.pcb[Cur(s)].parent);
            && (s'.pcb[parent].fds == s.pcb[parent].fds <==> forall fd | 2 <= fd < FDT_SIZE :: s.pcb[parent].fds[fd] == Absent)
            && (forall fd | 2 <= fd < FDT_SIZE :: s'.pcb[parent].fds[fd] == Absent)
            && (forall p: nat | p < PCB_SIZE && p != parent && p != Cur(s) :: s'.pcb[p] == s.pcb[p])
  {
    ExecutingIsTop(s, c);
    ChainsApart(s, c, s.exec);
    var parent := s.pcb[Cur(s)].parent;
    assert parent != Cur(s);
    assert HaltStep(s, status).0.pcb[parent].fds == CloseFrom(s.pcb[parent].fds, 2);
  }
}
