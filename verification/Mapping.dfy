// Where the executing process lives in memory, and where the kernel's bookkeeping falls short of it: the vidmap page,
// and `execute` from a terminal that is not on the screen or before the shells are up. Each comes with the exact
// condition under which it is right.
module Mapping {
  import opened Bytes
  import opened Machine
  import opened Forest
  import opened Stacks
  import opened Bracketing
  import Command

  const MB := 0x100000
  const KB := 0x400

  // Fields of a 4-MByte page-directory entry (Intel SDM volume 3A, section 4.3).
  function PageFrame(entry: int): int { entry / (4 * MB) * (4 * MB) }
  function PageFlags(entry: int): int { entry % (4 * MB) }

  lemma UserPage(pid: nat)
    requires pid < PCB_SIZE
    ensures PageFrame(PageEntry(pid)) == 8 * MB + 4 * MB * pid
    ensures PageFlags(PageEntry(pid)) == 0x87   // bits 0 present, 1 writable, 2 user, 7 page size
  {
  }

  // The kernel stack of a process is the pid-th block of 8 KByte below 8 MByte; esp0 is its last word. Distinct processes
  // share no user page and no kernel stack, and no kernel stack lies in a user page.
  lemma ProcessesApart(p: nat, q: nat)
    requires p < PCB_SIZE && q < PCB_SIZE && p != q
    ensures PageFrame(PageEntry(p)) + 4 * MB <= PageFrame(PageEntry(q)) || PageFrame(PageEntry(q)) + 4 * MB <= PageFrame(PageEntry(p))
    ensures Esp0(p) + 4 == 8 * MB - 8 * KB * p
    ensures Esp0(p) + 4 <= Esp0(q) + 4 - 0x2000 || Esp0(q) + 4 <= Esp0(p) + 4 - 0x2000
    ensures Esp0(p) + 4 <= PageFrame(PageEntry(q))
  {
    UserPage(p);
    UserPage(q);
  }

  // In every reachable state the page directory and the kernel stack are those of the executing process.
  lemma MappingFollowsExecution(s: State)
    requires GuardedReachable(s) && s.exec >= 0
    ensures s.pageDir == PageEntry(Cur(s)) && s.esp0 == Esp0(Cur(s)) && s.pcb[Cur(s)].exists'
    ensures PageFrame(s.pageDir) == 8 * MB + 4 * MB * Cur(s) && s.esp0 + 4 == 8 * MB - 8 * KB * Cur(s)
  {
    hide GuardedReachable, Chains, BootOrder, Stacked, Parked, Flagged;
    var c, a := ReachableRefines(s);
    ExecutingIsTop(s, c);
    UserPage(Cur(s));
  }

  // Right after a tick, user video memory is the physical screen exactly when the scheduled terminal is on it;
  // except that the very first tick maps terminal 0's backing page while putting terminal 0 on the screen.
  lemma VidmapAfterTick(s: State, save: Ctx, frame: Ctx, scratch: Scratch)
    requires Reachable(s) && |scratch.argument| == Command.BUF_SIZE
    ensures var s' := TickStep(s, save, frame, scratch).0;
            VidmapRight(s') <==> s.active != -1
  {
    var c := ReachableForest(s);
    TickSchedules(s, c, save, frame, scratch);
  }

  // A tick leaves the next terminal executing, with its video page mapped if it is not the one on the screen.
  lemma TickSchedules(s: State, c: seq<seq<nat>>, save: Ctx, frame: Ctx, scratch: Scratch)
    requires WellLinked(s, c) && |scratch.argument| == Command.BUF_SIZE
    ensures var (s', next) := (TickStep(s, save, frame, scratch).0, (s.exec + 1) % NUM_TERMINAL);
            && s'.exec == next && s'.active == (if s.active == -1 then 0 else s.active)
            && s'.vidPage == VidEntry(if next == s.active then -1 else next) && (s.active == -1 ==> next == 0)
  {
    hide Chains, Links, Tops, VidEntry, GoodPcb;
    TickMaps(s, save, frame, scratch);
    SameFreeSlot(s.pcb, SavedIn(s, save), 0);
    if s.tmnl[2].process < 0 {
      var next := NextToBoot(s, c);
      var s' := BootingTick(s, save, frame, scratch, next);
    } else if !s.tmnl[(s.exec + 1) % NUM_TERMINAL].running {
      TickReboots(s, c, save, frame, scratch);
    }
  }

  lemma TickMaps(s: State, save: Ctx, frame: Ctx, scratch: Scratch)
    requires Shape(s) && |scratch.argument| == Command.BUF_SIZE
    ensures var (s', next) := (TickStep(s, save, frame, scratch).0, (s.exec + 1) % NUM_TERMINAL);
            s'.vidPage == VidEntry(if next == s.active then -1 else next)
  {
    hide FreeSlot, VidEntry;
  }

  // The vidmap page is the physical screen when the executing terminal is on it, and only then.
  ghost predicate VidmapRight(s: State) { s.vidPage == VidEntry(-1) <==> s.exec == s.active }

  // A switch does not touch the page. It stays right exactly when the executing terminal is neither put on the screen
  // nor taken off it.
  lemma VidmapAfterSwitch(s: State, t: int)
    requires Shape(s) && VidmapRight(s)
    ensures VidmapRight(SwitchStep(s, t)) <==> (SwitchStep(s, t).active == s.exec <==> s.active == s.exec)
  {
  }

  // `execute` reads both terminal numbers. A program it starts becomes the executing terminal's process, with
  // the mapping to match, exactly when the executing terminal is the one on the screen.
  lemma ExecuteLandsOnScreen(s: State, c: seq<seq<nat>>, frame: Ctx, scratch: Scratch)
    requires WellLinked(s, c) && Coherent(s) && s.tmnl[2].running && |scratch.argument| == Command.BUF_SIZE
    requires FreeSlot(s.pcb) >= 0
    ensures var (s', pid) := Spawn(s, frame, scratch);
            && Shape(s') && (Cur(s') == pid <==> s.exec == s.active) && (Coherent(s') <==> s.exec == s.active)
  {
    SpawnGrows(s, c, frame, scratch);
    ExecutingIsTop(s, c);
  }

  // Called before all three shells have booted, `execute` makes its program a base process of the next terminal, and
  // leaves that terminal executing but marked idle. The chains survive; the flags agree with them exactly when the third
  // terminal had a process.
  lemma {:induction false} EarlyExecuteLeavesIdle(s: State, c: seq<seq<nat>>, frame: Ctx, scratch: Scratch)
    requires WellLinked(s, c) && Flagged(s) && s.exec >= 0 && |scratch.argument| == Command.BUF_SIZE && FreeSlot(s.pcb) >= 0
    ensures var (s', pid) := Spawn(s, frame, scratch);
            && WellLinked(s', Push(c, Place(s, pid), pid)) && (Flagged(s') <==> s.tmnl[2].running)
            && (!s.tmnl[2].running ==> s'.exec == pid == s.exec + 1 && !s'.tmnl[pid].running && s'.pcb[pid].parent == -1)
  {
    if s.tmnl[2].running {
      SpawnGrows(s, c, frame, scratch);
    } else {
      SpawnBoots(s, c, frame, scratch);
      SpawnsBase(s, frame, scratch, FreeSlot(s.pcb));
    }
  }
}
