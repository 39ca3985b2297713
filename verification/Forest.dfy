// Parent links and slot reuse: the slot array always holds one chain of processes per booted terminal.
// The chains are ghost; nothing in the state stores them, and pid order says nothing about them.
module Forest {
  import opened Bytes
  import opened Machine
  import Command

  const FREE := -2

  // The link structure alone: each slot's parent (FREE when absent) and each terminal's active process.
  function Links(s: State): (r: seq<int>)
    requires Sizes(s)
    ensures |r| == PCB_SIZE
  {
    seq(PCB_SIZE, i requires 0 <= i < PCB_SIZE => if s.pcb[i].exists' then s.pcb[i].parent else FREE)
  }

  function Tops(s: State): (r: seq<int>)
    requires Sizes(s)
    ensures |r| == NUM_TERMINAL
  {
    seq(NUM_TERMINAL, t requires 0 <= t < NUM_TERMINAL => s.tmnl[t].process)
  }

  // ----- one chain

  ghost predicate Distinct(ch: seq<nat>) {
    forall i, j | 0 <= i < j < |ch| :: ch[i] != ch[j]
  }

  function ParentOf(link: seq<int>, p: nat): int {
    if p < |link| then link[p] else FREE
  }

  // ch leads from base pid t up to top, each process the parent of the next; empty when nothing has booted.
  ghost predicate Chain(link: seq<int>, top: int, ch: seq<nat>, t: nat) {
    if top < 0 then ch == []
    else
      && |ch| > 0 && ch[0] == t && ch[|ch| - 1] == top && Distinct(ch)
      && (forall k {:trigger ParentOf(link, ch[k])} | 0 <= k < |ch| ::
            ParentOf(link, ch[k]) == if k == 0 then -1 else ch[k - 1])
  }

  lemma ChainFrame(link: seq<int>, link': seq<int>, top: int, ch: seq<nat>, t: nat)
    requires Chain(link, top, ch, t) && |link'| == |link|
    requires forall p: nat | p < |link| && p in ch :: link'[p] == link[p]
    ensures Chain(link', top, ch, t)
  {
    forall k | 0 <= k < |ch| ensures ParentOf(link', ch[k]) == ParentOf(link, ch[k]) {
      assert ch[k] in ch;
    }
  }

  lemma ChainExtends(link: seq<int>, top: int, ch: seq<nat>, t: nat, pid: nat)
    requires Chain(link, top, ch, t) && top >= 0 && pid < |link| && pid !in ch
    ensures Chain(link[pid := top], pid, ch + [pid], t)
  {
    var ch', link' := ch + [pid], link[pid := top];
    forall k | 0 <= k < |ch| ensures ParentOf(link', ch'[k]) == ParentOf(link, ch[k]) {
      assert ch[k] in ch;
    }
  }

  lemma ChainPrefix(link: seq<int>, top: int, ch: seq<nat>, t: nat, n: nat)
    requires Chain(link, top, ch, t) && 0 < n <= |ch|
    ensures Chain(link, ch[n - 1], ch[..n], t)
  {
    var ch' := ch[..n];
    forall k | 0 <= k < n ensures ParentOf(link, ch'[k]) == if k == 0 then -1 else ch'[k - 1] {
      assert ParentOf(link, ch[k]) == if k == 0 then -1 else ch[k - 1];
    }
  }

  lemma ChainShrinks(link: seq<int>, top: int, ch: seq<nat>, t: nat)
    requires Chain(link, top, ch, t) && 0 <= top < |link| && link[top] != -1
    ensures |ch| > 1 && ch[|ch| - 2] == link[top]
    ensures Chain(link[top := FREE], link[top], ch[..|ch| - 1], t)
    ensures top !in ch[..|ch| - 1]
  {
    var n := |ch| - 1;
    assert ParentOf(link, ch[n]) == if n == 0 then -1 else ch[n - 1];
    ChainPrefix(link, top, ch, t, n);
    ChainFrame(link, link[top := FREE], link[top], ch[..n], t);
  }

  // ----- three chains that cover the slots

  ghost predicate Disjoint(a: seq<nat>, b: seq<nat>) {
    forall p | p in a :: p !in b
  }

  ghost predicate Chains(link: seq<int>, tops: seq<int>, c: seq<seq<nat>>) {
    && |tops| == |c| == NUM_TERMINAL
    && (forall t | 0 <= t < NUM_TERMINAL :: Chain(link, tops[t], c[t], t))
    && Disjoint(c[0], c[1]) && Disjoint(c[0], c[2]) && Disjoint(c[1], c[2])
    && (forall p: nat | p < |link| :: link[p] != FREE <==> p in c[0] || p in c[1] || p in c[2])
  }

  function Push(c: seq<seq<nat>>, t: nat, pid: nat): seq<seq<nat>>
    requires t < |c|
  {
    c[t := c[t] + [pid]]
  }

  function Pop(c: seq<seq<nat>>, t: nat): seq<seq<nat>>
    requires t < |c|
  {
    if c[t] == [] then c else c[t := c[t][..|c[t]| - 1]]
  }

  lemma PushKeepsChains(link: seq<int>, tops: seq<int>, c: seq<seq<nat>>, t: nat, pid: nat)
    requires Chains(link, tops, c) && t < NUM_TERMINAL && pid < |link| && link[pid] == FREE
    requires tops[t] >= 0 || pid == t
    ensures Chains(link[pid := if tops[t] >= 0 then tops[t] else -1], tops[t := pid], Push(c, t, pid))
  {
    var link' := link[pid := if tops[t] >= 0 then tops[t] else -1];
    if tops[t] >= 0 {
      ChainExtends(link, tops[t], c[t], t, pid);
    }
    forall u | 0 <= u < NUM_TERMINAL && u != t ensures Chain(link', tops[u], c[u], u) {
      ChainFrame(link, link', tops[u], c[u], u);
    }
    forall p | p in c[t] + [pid] ensures p in c[t] || p == pid {}
    forall p | p in c[t] ensures p in c[t] + [pid] {}
    assert pid in c[t] + [pid];
  }

  // Removing the top of chain t keeps the chains apart.
  lemma PopKeepsApart(c: seq<seq<nat>>, t: nat)
    requires |c| == NUM_TERMINAL && t < NUM_TERMINAL && c[t] != []
    requires Disjoint(c[0], c[1]) && Disjoint(c[0], c[2]) && Disjoint(c[1], c[2])
    ensures var d := Pop(c, t); Disjoint(d[0], d[1]) && Disjoint(d[0], d[2]) && Disjoint(d[1], d[2])
  {
    forall p | p in Pop(c, t)[t] ensures p in c[t] {}
  }

  lemma PopCovers(link: seq<int>, c: seq<seq<nat>>, t: nat, top: nat)
    requires |c| == NUM_TERMINAL && t < NUM_TERMINAL && c[t] != [] && c[t][|c[t]| - 1] == top < |link| && top !in c[t][..|c[t]| - 1]
    requires forall u | 0 <= u < NUM_TERMINAL && u != t :: top !in c[u]
    requires forall p: nat | p < |link| :: link[p] != FREE <==> p in c[0] || p in c[1] || p in c[2]
    ensures var d := Pop(c, t); forall p: nat | p < |link| :: link[top := FREE][p] != FREE <==> p in d[0] || p in d[1] || p in d[2]
  {
    var rest := c[t][..|c[t]| - 1];
    assert c[t] == rest + [top];
    forall p | p in rest ensures p in c[t] {}
    forall p | p in c[t] ensures p in rest || p == top {}
  }

  lemma PopKeepsChains(link: seq<int>, tops: seq<int>, c: seq<seq<nat>>, t: nat)
    requires Chains(link, tops, c) && t < NUM_TERMINAL && 0 <= tops[t] < |link| && link[tops[t]] != -1
    ensures |c[t]| > 1
    ensures Chains(link[tops[t] := FREE], tops[t := link[tops[t]]], Pop(c, t))
  {
    var top := tops[t];
    ChainShrinks(link, top, c[t], t);
    assert top in c[t];
    forall u | 0 <= u < NUM_TERMINAL && u != t ensures top !in c[u] && Chain(link[top := FREE], tops[u], c[u], u) {
      assert Disjoint(c[t], c[u]) || Disjoint(c[u], c[t]);
      ChainFrame(link, link[top := FREE], tops[u], c[u], u);
    }
    PopKeepsApart(c, t);
    PopCovers(link, c, t, top);
  }

  // ----- the invariant

  // The three base shells start in order, and until the last of them has, no other process exists and the newest one is
  // executing.
  ghost predicate BootOrder(s: State)
    requires Sizes(s)
  {
    && (s.exec == -1 <==> s.tmnl[0].process == -1) && (s.active == -1 <==> s.tmnl[0].process == -1)
    && (s.tmnl[2].process >= 0 ==> s.tmnl[1].process >= 0) && (s.tmnl[1].process >= 0 ==> s.tmnl[0].process >= 0)
    && (s.tmnl[2].process < 0 ==> s.exec == if s.tmnl[1].process >= 0 then 1 else if s.tmnl[0].process >= 0 then 0 else -1)
    && (forall t | 0 <= t < NUM_TERMINAL && s.tmnl[2].process < 0 && s.tmnl[t].process >= 0 :: s.tmnl[t].process == t)
  }

  ghost predicate WellLinked(s: State, c: seq<seq<nat>>) {
    Shape(s) && Chains(Links(s), Tops(s), c) && BootOrder(s)
  }

  // Where a new process goes: a base shell to the terminal of its number, any other to the terminal on the screen.
  function Place(s: State, pid: nat): (t: nat)
    requires Sizes(s)
    ensures t < NUM_TERMINAL
  {
    if pid < NUM_TERMINAL then pid else Max(s.active, 0)
  }

  // How an event with this outcome changes the chains: a start pushes, a halt above the base pops.
  ghost function NextChains(c: seq<seq<nat>>, s: State, out: Out): seq<seq<nat>>
    requires Shape(s) && |c| == NUM_TERMINAL
  {
    if out.Booted? || out.Started? then
      var pid := Max(FreeSlot(s.pcb), 0); Push(c, Place(s, pid), pid)
    else if out.Returned? && s.exec >= 0 then Pop(c, s.exec)
    else c
  }

  lemma ExecutingIsTop(s: State, c: seq<seq<nat>>)
    requires WellLinked(s, c) && s.exec >= 0
    ensures |c[s.exec]| > 0 && c[s.exec][|c[s.exec]| - 1] == Cur(s) && s.pcb[Cur(s)].exists'
    ensures s.pcb[Cur(s)].parent == -1 <==> |c[s.exec]| == 1
    ensures |c[s.exec]| > 1 ==> s.pcb[Cur(s)].parent == c[s.exec][|c[s.exec]| - 2]
  {
    assert Chain(Links(s), Tops(s)[s.exec], c[s.exec], s.exec);
    assert ParentOf(Links(s), c[s.exec][|c[s.exec]| - 1]) != FREE;
  }

  lemma BasesExist(s: State, c: seq<seq<nat>>, t: nat)
    requires WellLinked(s, c) && t < NUM_TERMINAL && s.tmnl[t].process >= 0
    ensures |c[t]| > 0 && c[t][0] == t && s.pcb[t].exists' && s.pcb[t].parent == -1
  {
    assert Chain(Links(s), Tops(s)[t], c[t], t);
    assert ParentOf(Links(s), c[t][0]) == -1;
  }

  lemma SpawnGrows(s: State, c: seq<seq<nat>>, frame: Ctx, scratch: Scratch)
    requires WellLinked(s, c) && s.tmnl[2].process >= 0 && |scratch.argument| == Command.BUF_SIZE
    ensures var (s', pid) := Spawn(s, frame, scratch);
            (pid == -1 || pid >= NUM_TERMINAL) && WellLinked(s', if pid == -1 then c else Push(c, s.active, pid))
  {
    hide Chains;
    BasesExist(s, c, 0); BasesExist(s, c, 1); BasesExist(s, c, 2);
    var (s', pid) := Spawn(s, frame, scratch);
    if pid >= 0 {
      PushKeepsChains(Links(s), Tops(s), c, s.active, pid);
      assert Links(s') == Links(s)[pid := Tops(s)[s.active]];
      assert Tops(s') == Tops(s)[s.active := pid];
    }
  }

  lemma NothingBeyondBases(s: State, c: seq<seq<nat>>, t: nat)
    requires WellLinked(s, c) && s.tmnl[2].process < 0 && t < PCB_SIZE
    ensures s.pcb[t].exists' <==> t < NUM_TERMINAL && s.tmnl[t].process >= 0
  {
    forall u | 0 <= u < NUM_TERMINAL && s.tmnl[u].process >= 0 ensures c[u] == [u] {
      assert Chain(Links(s), Tops(s)[u], c[u], u);
    }
    assert Links(s)[t] != FREE <==> t in c[0] || t in c[1] || t in c[2];
  }

  lemma NextToBoot(s: State, c: seq<seq<nat>>) returns (next: nat)
    requires WellLinked(s, c) && s.tmnl[2].process < 0
    ensures next == (s.exec + 1) % NUM_TERMINAL == FreeSlot(s.pcb) && !s.tmnl[next].running
    ensures next == if s.tmnl[1].process >= 0 then 2 else if s.tmnl[0].process >= 0 then 1 else 0
    ensures Links(s)[next] == FREE && Tops(s)[next] == -1
  {
    next := (s.exec + 1) % NUM_TERMINAL;
    forall t: nat | t < PCB_SIZE { NothingBeyondBases(s, c, t); }
  }

  lemma SameFreeSlot(pcb: seq<Pcb>, pcb': seq<Pcb>, i: nat)
    requires |pcb| == |pcb'| && i <= |pcb|
    requires forall p: nat | p < |pcb| :: pcb[p].exists' == pcb'[p].exists'
    ensures FreeSlot(pcb, i) == FreeSlot(pcb', i)
  {
  }

  lemma SpawnsBase(s: State, frame: Ctx, scratch: Scratch, next: nat)
    requires Sizes(s) && |scratch.argument| == Command.BUF_SIZE
    requires next == FreeSlot(s.pcb) < NUM_TERMINAL && (s.active == -1 ==> next == 0)
    ensures var p := Pcb(true, -1, frame, scratch.prev, FRESH_FDS, scratch.argument);
            Spawn(s, frame, scratch) == (s.(pcb := s.pcb[next := p], tmnl := s.tmnl[next := s.tmnl[next].(process := next)],
                                            exec := next, active := if s.active == -1 then 0 else s.active,
                                            pageDir := PageEntry(next), esp0 := Esp0(next)), next)
  {
  }

  lemma BootingTick(s: State, save: Ctx, frame: Ctx, scratch: Scratch, next: nat) returns (s': State)
    requires Shape(s) && |scratch.argument| == Command.BUF_SIZE
    requires next == (s.exec + 1) % NUM_TERMINAL == FreeSlot(s.pcb) && !s.tmnl[next].running
    requires s.active == -1 ==> next == 0
    ensures TickStep(s, save, frame, scratch) == (s', Booted(frame))
    ensures s'.exec == next && s'.active == (if s.active == -1 then 0 else s.active)
    ensures s'.tmnl == s.tmnl[next := Tmnl(next, true)]
    ensures s'.pcb == SavedIn(s, save)[next := Pcb(true, -1, frame, scratch.prev, FRESH_FDS, scratch.argument)]
  {
    hide FreeSlot;
    SameFreeSlot(s.pcb, SavedIn(s, save), 0);
    var s3 := Preempted(s, save).(tmnl := s.tmnl[next := Tmnl(s.tmnl[next].process, true)]);
    SpawnsBase(s3, frame, scratch, next);
    s' := Spawn(s3, frame, scratch).0;
  }

  lemma {:induction false} TickBoots(s: State, c: seq<seq<nat>>, save: Ctx, frame: Ctx, scratch: Scratch)
    requires WellLinked(s, c) && s.tmnl[2].process < 0 && |scratch.argument| == Command.BUF_SIZE
    ensures var next := (s.exec + 1) % NUM_TERMINAL;
            FreeSlot(s.pcb) == next && TickStep(s, save, frame, scratch).1 == Booted(frame)
            && WellLinked(TickStep(s, save, frame, scratch).0, Push(c, next, next))
  {
    hide Chains, TickStep;
    var next := NextToBoot(s, c);
    PushKeepsChains(Links(s), Tops(s), c, next, next);
    var s' := BootingTick(s, save, frame, scratch, next);
    assert Links(s') == Links(s)[next := -1];
    assert Tops(s') == Tops(s)[next := next];
  }

  // An `execute` before the last shell has booted takes the next base slot, and the terminal that goes with it.
  lemma SpawnBoots(s: State, c: seq<seq<nat>>, frame: Ctx, scratch: Scratch)
    requires WellLinked(s, c) && s.tmnl[2].process < 0 && |scratch.argument| == Command.BUF_SIZE
    ensures var (s', next) := Spawn(s, frame, scratch);
            next == (s.exec + 1) % NUM_TERMINAL == FreeSlot(s.pcb) && WellLinked(s', Push(c, next, next))
  {
    var next := NextToBoot(s, c);
    PushKeepsChains(Links(s), Tops(s), c, next, next);
    SpawnsBase(s, frame, scratch, next);
    var s' := Spawn(s, frame, scratch).0;
    assert Links(s') == Links(s)[next := -1];
    assert Tops(s') == Tops(s)[next := next];
  }

  // A terminal that has a process but is marked idle: the tick executes another shell, for the terminal on the screen.
  lemma TickReboots(s: State, c: seq<seq<nat>>, save: Ctx, frame: Ctx, scratch: Scratch)
    requires WellLinked(s, c) && s.tmnl[2].process >= 0 && |scratch.argument| == Command.BUF_SIZE
    requires !s.tmnl[(s.exec + 1) % NUM_TERMINAL].running
    ensures var (s', out) := TickStep(s, save, frame, scratch);
            && WellLinked(s', if FreeSlot(s.pcb) == -1 then c else Push(c, s.active, FreeSlot(s.pcb)))
            && (out.Booted? <==> FreeSlot(s.pcb) >= 0) && (out.Booted? || out.Resumed?)
            && (FreeSlot(s.pcb) == -1 || FreeSlot(s.pcb) >= NUM_TERMINAL)
  {
    hide Chains;
    var next := (s.exec + 1) % NUM_TERMINAL;
    var s1 := Preempted(s, save);
    var s2 := s1.(tmnl := s.tmnl[next := Tmnl(s.tmnl[next].process, true)]);
    ForestFrame(s, s2, c);
    SameFreeSlot(s.pcb, s2.pcb, 0);
    SpawnGrows(s2, c, frame, scratch);
  }

  lemma HaltShrinks(s: State, c: seq<seq<nat>>, status: byte)
    requires WellLinked(s, c) && s.exec >= 0 && s.pcb[Cur(s)].parent != -1
    ensures WellLinked(HaltStep(s, status).0, Pop(c, s.exec))
  {
    hide Disjoint;
    ExecutingIsTop(s, c);
    var s' := HaltStep(s, status).0;
    PopKeepsChains(Links(s), Tops(s), c, s.exec);
    assert Links(s') == Links(s)[Cur(s) := FREE];
    assert Tops(s') == Tops(s)[s.exec := Links(s)[Cur(s)]];
  }

  // The chains see only which slots exist, the parent links, and the terminal table.
  lemma ForestFrame(s: State, s': State, c: seq<seq<nat>>)
    requires WellLinked(s, c) && Shape(s') && BootOrder(s')
    requires forall t | 0 <= t < NUM_TERMINAL :: s'.tmnl[t].process == s.tmnl[t].process
    requires forall p: nat | p < PCB_SIZE :: s'.pcb[p].exists' == s.pcb[p].exists' && s'.pcb[p].parent == s.pcb[p].parent
    ensures WellLinked(s', c)
  {
    assert Links(s') == Links(s) && Tops(s') == Tops(s);
  }

  lemma TickResumes(s: State, c: seq<seq<nat>>, save: Ctx, frame: Ctx, scratch: Scratch)
    requires WellLinked(s, c) && s.tmnl[2].process >= 0 && |scratch.argument| == Command.BUF_SIZE
    requires s.tmnl[(s.exec + 1) % NUM_TERMINAL].running
    ensures var (s', out) := TickStep(s, save, frame, scratch); WellLinked(s', c) && out.Resumed?
  {
    hide Chains;
    ForestFrame(s, Preempted(s, save), c);
  }

  lemma ForestTick(s: State, c: seq<seq<nat>>, save: Ctx, frame: Ctx, scratch: Scratch)
    requires WellLinked(s, c) && |scratch.argument| == Command.BUF_SIZE
    ensures var (s', out) := TickStep(s, save, frame, scratch); WellLinked(s', NextChains(c, s, out))
  {
    hide Chains, TickStep;
    if s.tmnl[2].process < 0 {
      TickBoots(s, c, save, frame, scratch);
    } else if s.tmnl[(s.exec + 1) % NUM_TERMINAL].running {
      TickResumes(s, c, save, frame, scratch);
    } else {
      TickReboots(s, c, save, frame, scratch);
    }
  }

  lemma ForestStore(s: State, c: seq<seq<nat>>, p: Command.Parsed)
    requires WellLinked(s, c) && s.exec >= 0 && FitsBuffer(p)
    ensures var s1 := StoreArgument(s, p);
            WellLinked(s1, c) && s1.tmnl == s.tmnl && s1.exec == s.exec && s1.active == s.active
            && FreeSlot(s1.pcb) == FreeSlot(s.pcb)
  {
    var s1 := StoreArgument(s, p);
    ForestFrame(s, s1, c);
    SameFreeSlot(s.pcb, s1.pcb, 0);
  }

  lemma ForestLaunch(s: State, c: seq<seq<nat>>, exit: bool, loads: bool, frame: Ctx, scratch: Scratch)
    requires WellLinked(s, c) && s.exec >= 0 && |scratch.argument| == Command.BUF_SIZE
    ensures var (s', out) := LaunchStep(s, exit, loads, frame, scratch); WellLinked(s', NextChains(c, s, out))
  {
    hide Chains;
    if exit && s.pcb[Cur(s)].parent != -1 {
      HaltShrinks(s, c, NUL);
    } else if loads && s.tmnl[2].process >= 0 {
      SpawnGrows(s, c, frame, scratch);
    } else if loads {
      SpawnBoots(s, c, frame, scratch);
    }
  }

  lemma ForestExecute(s: State, c: seq<seq<nat>>, p: Command.Parsed, loads: bool, frame: Ctx, scratch: Scratch)
    requires WellLinked(s, c) && s.exec >= 0 && FitsBuffer(p) && |scratch.argument| == Command.BUF_SIZE
    ensures var (s', out) := ExecuteParsed(s, p, loads, frame, scratch); WellLinked(s', NextChains(c, s, out))
  {
    hide Chains, LaunchStep, BootOrder, StoreArgument;
    if !p.Blank? {
      ForestStore(s, c, p);
      ForestLaunch(StoreArgument(s, p), c, EXIT <= p.name, loads, frame, scratch);
    }
  }

  lemma ForestHalt(s: State, c: seq<seq<nat>>, status: byte)
    requires WellLinked(s, c) && s.exec >= 0
    ensures var (s', out) := HaltStep(s, status); WellLinked(s', NextChains(c, s, out))
  {
    if s.pcb[Cur(s)].parent != -1 {
      HaltShrinks(s, c, status);
    }
  }

  lemma ForestSwitch(s: State, c: seq<seq<nat>>, t: int)
    requires WellLinked(s, c)
    ensures WellLinked(SwitchStep(s, t), c)
  {
    ForestFrame(s, SwitchStep(s, t), c);
  }

  lemma ForestOpen(s: State, c: seq<seq<nat>>, kind: FdKind, inode: nat)
    requires WellLinked(s, c) && s.exec >= 0
    ensures WellLinked(OpenStep(s, kind, inode).0, c) && OpenStep(s, kind, inode).1.Descriptor?
  {
    ForestFrame(s, OpenStep(s, kind, inode).0, c);
  }

  lemma ForestClose(s: State, c: seq<seq<nat>>, fd: int)
    requires WellLinked(s, c) && s.exec >= 0
    ensures WellLinked(CloseStep(s, fd).0, c) && CloseStep(s, fd).1.Descriptor?
  {
    ForestFrame(s, CloseStep(s, fd).0, c);
  }

  lemma ForestStep(s: State, c: seq<seq<nat>>, e: Event)
    requires WellLinked(s, c) && Enabled(s, e)
    ensures var (s', out) := Step(s, e); WellLinked(s', NextChains(c, s, out))
  {
    hide Chains;
    match e
    case Tick(save, frame, scratch) => ForestTick(s, c, save, frame, scratch);
    case Execute(command, loads, frame, scratch) => ForestExecute(s, c, Command.Parse(command), loads, frame, scratch);
    case Halt(status) => ForestHalt(s, c, status);
    case Switch(t) => ForestSwitch(s, c, t);
    case GetArgs(_) =>
    case OpenFd(kind, inode) => ForestOpen(s, c, kind, inode);
    case CloseFd(fd) => ForestClose(s, c, fd);
  }

  lemma ForestInitially()
    ensures WellLinked(INITIAL, [[], [], []])
  {
    assert forall i | 0 <= i < PCB_SIZE :: INITIAL.pcb[i] == NO_PROCESS;
    assert forall t | 0 <= t < NUM_TERMINAL :: INITIAL.tmnl[t] == Tmnl(-1, false);
  }

  // ----- runs

  // Every event can happen in the state the ones before it lead to.
  ghost predicate Runs(s: State, es: seq<Event>)
    decreases |es|
  {
    es == [] || (Enabled(s, es[0]) && Runs(Step(s, es[0]).0, es[1..]))
  }

  ghost function After(s: State, es: seq<Event>): State
    requires Runs(s, es)
    decreases |es|
  {
    if es == [] then s else After(Step(s, es[0]).0, es[1..])
  }

  lemma {:induction false} ForestAfter(s: State, c: seq<seq<nat>>, es: seq<Event>) returns (c': seq<seq<nat>>)
    requires WellLinked(s, c) && Runs(s, es)
    ensures WellLinked(After(s, es), c')
    decreases |es|
  {
    if es == [] {
      c' := c;
    } else {
      ForestStep(s, c, es[0]);
      c' := ForestAfter(Step(s, es[0]).0, NextChains(c, s, Step(s, es[0]).1), es[1..]);
    }
  }

  ghost predicate Reachable(s: State) {
    Shape(s) && exists es: seq<Event> :: Runs(INITIAL, es) && After(INITIAL, es) == s
  }

  lemma {:induction false} RunsOn(s: State, es: seq<Event>, e: Event)
    requires Runs(s, es) && Enabled(After(s, es), e)
    ensures Runs(s, es + [e]) && After(s, es + [e]) == Step(After(s, es), e).0
    decreases |es|
  {
    if es == [] {
      assert [e][1..] == [];
    } else {
      assert (es + [e])[1..] == es[1..] + [e];
      RunsOn(Step(s, es[0]).0, es[1..], e);
    }
  }

  lemma ReachableStep(s: State, e: Event)
    requires Reachable(s) && Enabled(s, e)
    ensures Reachable(Step(s, e).0)
  {
    var es :| Runs(INITIAL, es) && After(INITIAL, es) == s;
    RunsOn(INITIAL, es, e);
    var c := ReachableForest(s);
    ForestStep(s, c, e);
  }

  // Whatever has run, the slots form one acyclic chain per booted terminal, from the active process down to
  // the base shell whose pid is the terminal's number; the chains share no slot and leave none out.
  lemma ReachableForest(s: State) returns (c: seq<seq<nat>>)
    requires Reachable(s)
    ensures WellLinked(s, c)
  {
    var es :| Runs(INITIAL, es) && After(INITIAL, es) == s;
    ForestInitially();
    c := ForestAfter(INITIAL, [[], [], []], es);
  }

  // Base shells are never freed, so after the boot no new process is ever taken for a base shell.
  lemma BasesSurvive(s: State)
    requires Reachable(s)
    ensures forall t | 0 <= t < NUM_TERMINAL && s.tmnl[t].process >= 0 :: s.pcb[t].exists' && s.pcb[t].parent == -1
    ensures s.tmnl[2].process >= 0 ==> s.exec >= 0 && s.active >= 0 && (FreeSlot(s.pcb) == -1 || FreeSlot(s.pcb) >= NUM_TERMINAL)
  {
    var c := ReachableForest(s);
    forall t | 0 <= t < NUM_TERMINAL && s.tmnl[t].process >= 0
      ensures s.pcb[t].exists' && s.pcb[t].parent == -1
    {
      BasesExist(s, c, t);
    }
    assert s.tmnl[2].process >= 0 ==> s.tmnl[1].process >= 0 && s.tmnl[0].process >= 0;
  }

  // Two terminals never have the same active process.
  lemma ActiveProcessesDiffer(s: State, t: nat, u: nat)
    requires Reachable(s) && t < u < NUM_TERMINAL && s.tmnl[t].process >= 0 && s.tmnl[u].process >= 0
    ensures s.tmnl[t].process != s.tmnl[u].process
  {
    hide BootOrder, Links;
    var c := ReachableForest(s);
    assert Chain(Links(s), Tops(s)[t], c[t], t) && Chain(Links(s), Tops(s)[u], c[u], u);
    assert c[t][|c[t]| - 1] in c[t] && c[u][|c[u]| - 1] in c[u];
  }
}
