// The simple machine the kernel refines: every terminal has a stack of programs. `execute` pushes, a halt
// pops, a tick moves to the next terminal. There are no slots, no pids and no parent links; six programs fit.
module Stacks {
  import opened Bytes
  import opened Machine
  import opened Forest
  import opened Sets
  import Command

  // A program: the frame its `execute` saved, and its argument buffer.
  datatype Act = Act(frame: Ctx, args: seq<byte>)
  datatype Terminal = Terminal(stack: seq<Act>, parked: Ctx)
  datatype Abs = Abs(terminals: seq<Terminal>, exec: int, active: int)

  const CAPACITY := PCB_SIZE
  const EMPTY := Abs([Terminal([], Ctx(0, 0)), Terminal([], Ctx(0, 0)), Terminal([], Ctx(0, 0))], -1, -1)

  ghost predicate Wf(a: Abs) {
    && |a.terminals| == NUM_TERMINAL && -1 <= a.exec < NUM_TERMINAL && -1 <= a.active < NUM_TERMINAL
    && (a.exec >= 0 ==> a.terminals[a.exec].stack != [])
    && (forall t, k | 0 <= t < NUM_TERMINAL && 0 <= k < |a.terminals[t].stack| :: |a.terminals[t].stack[k].args| == Command.BUF_SIZE)
  }

  function Top(a: Abs): Act
    requires Wf(a) && a.exec >= 0
  {
    var st := a.terminals[a.exec].stack; st[|st| - 1]
  }

  function SetStack(a: Abs, t: nat, st: seq<Act>): Abs
    requires t < |a.terminals|
  {
    a.(terminals := a.terminals[t := a.terminals[t].(stack := st)])
  }

  function Programs(a: Abs): nat
    requires |a.terminals| == NUM_TERMINAL
  {
    |a.terminals[0].stack| + |a.terminals[1].stack| + |a.terminals[2].stack|
  }

  function AbsTick(a: Abs, save: Ctx, frame: Ctx, scratch: Scratch): (Abs, Out)
    requires Wf(a)
  {
    var next := (a.exec + 1) % NUM_TERMINAL;
    var a1 := if a.exec == -1 then a else a.(terminals := a.terminals[a.exec := a.terminals[a.exec].(parked := save)]);
    if a.terminals[next].stack == [] then
      (SetStack(a1, next, [Act(frame, scratch.argument)]).(exec := next, active := if a.active == -1 then 0 else a.active),
       Booted(frame))
    else (a1.(exec := next), Resumed(a.terminals[next].parked))
  }

  function AbsHalt(a: Abs, status: byte): (Abs, Out)
    requires Wf(a) && a.exec >= 0
  {
    var st := a.terminals[a.exec].stack;
    if |st| == 1 then (a, Ignored)
    else (SetStack(a, a.exec, st[..|st| - 1]), Returned(Top(a).frame, status))
  }

  function AbsStore(a: Abs, p: Command.Parsed): (r: Abs)
    requires Wf(a) && a.exec >= 0 && FitsBuffer(p)
    ensures Wf(r) && r.exec == a.exec && r.active == a.active
  {
    if !p.WithArg? then a
    else
      var st := a.terminals[a.exec].stack;
      SetStack(a, a.exec, st[|st| - 1 := Act(Top(a).frame, Overlay(Top(a).args, p.stored))])
  }

  function AbsLaunch(a: Abs, exit: bool, loads: bool, frame: Ctx, scratch: Scratch): (Abs, Out)
    requires Wf(a) && a.exec >= 0
  {
    var st := a.terminals[a.exec].stack;
    if exit && |st| > 1 then AbsHalt(a, NUL)
    else if !loads || Programs(a) == CAPACITY then (a, Failed)
    else (SetStack(a, a.exec, st + [Act(frame, scratch.argument)]), Started(frame))
  }

  function AbsExecute(a: Abs, p: Command.Parsed, loads: bool, frame: Ctx, scratch: Scratch): (Abs, Out)
    requires Wf(a) && a.exec >= 0 && FitsBuffer(p)
  {
    if p.Blank? then (a, Failed) else AbsLaunch(AbsStore(a, p), EXIT <= p.name, loads, frame, scratch)
  }

  ghost predicate AbsEnabled(a: Abs, e: Event) {
    Wf(a) &&
    match e
    case Tick(_, _, scratch) => |scratch.argument| == Command.BUF_SIZE
    case Execute(command, _, _, scratch) =>
      a.exec >= 0 && a.exec == a.active && Command.Readable(command) && |scratch.argument| == Command.BUF_SIZE
    case Switch(_) => true
    case GetArgs(_) => a.exec >= 0 && |a.terminals[a.exec].stack| > 1
    case _ => a.exec >= 0
  }

  function AbsStep(a: Abs, e: Event): (r: (Abs, Out))
    requires AbsEnabled(a, e)
  {
    match e
    case Tick(save, frame, scratch) => AbsTick(a, save, frame, scratch)
    case Execute(command, loads, frame, scratch) => AbsExecute(a, Command.Parse(command), loads, frame, scratch)
    case Halt(status) => AbsHalt(a, status)
    case Switch(t) =>
      (if 0 <= t < NUM_TERMINAL && a.terminals[t].stack != [] then a.(active := t) else a, Ignored)
    case GetArgs(nbytes) =>
      var st := a.terminals[a.exec].stack; (a, Args(Command.GetArgs(st[|st| - 2].args, nbytes)))
    case OpenFd(_, _) => (a, Ignored)
    case CloseFd(_) => (a, Ignored)
  }

  // Descriptor numbers are outside the simple machine.
  function Control(out: Out): Out { if out.Descriptor? then Ignored else out }

  // ----- the relation

  function ActOf(pcb: seq<Pcb>, p: nat): Act {
    if p < |pcb| then Act(pcb[p].frame, pcb[p].argument) else Act(Ctx(0, 0), [])
  }

  function StackOf(pcb: seq<Pcb>, ch: seq<nat>): (r: seq<Act>)
    ensures |r| == |ch|
  {
    seq(|ch|, k requires 0 <= k < |ch| => ActOf(pcb, ch[k]))
  }

  // The page directory and the kernel stack pointer belong to the process that is executing.
  ghost predicate Coherent(s: State)
    requires Shape(s)
  {
    s.exec >= 0 ==> s.pageDir == PageEntry(Cur(s)) && s.esp0 == Esp0(Cur(s))
  }

  // What was saved when a terminal was last preempted is still in its active process.
  ghost predicate Parked(s: State, a: Abs)
    requires Shape(s) && |a.terminals| == NUM_TERMINAL
  {
    forall t | 0 <= t < NUM_TERMINAL && s.tmnl[t].running && t != s.exec ::
      s.pcb[s.tmnl[t].process].prev == a.terminals[t].parked
  }

  ghost predicate Stacked(s: State, c: seq<seq<nat>>, a: Abs)
    requires |c| == NUM_TERMINAL
  {
    && |a.terminals| == NUM_TERMINAL && a.exec == s.exec && a.active == s.active
    && (forall t | 0 <= t < NUM_TERMINAL :: a.terminals[t].stack == StackOf(s.pcb, c[t]))
  }

  // The terminals marked as running are those that have a process.
  ghost predicate Flagged(s: State)
    requires Sizes(s)
  {
    forall t | 0 <= t < NUM_TERMINAL :: s.tmnl[t].running <==> s.tmnl[t].process >= 0
  }

  ghost predicate Refines(s: State, c: seq<seq<nat>>, a: Abs) {
    WellLinked(s, c) && Stacked(s, c, a) && Parked(s, a) && Coherent(s) && Flagged(s)
  }

  lemma StackFrame(pcb: seq<Pcb>, pcb': seq<Pcb>, ch: seq<nat>)
    requires forall p | p in ch :: ActOf(pcb', p) == ActOf(pcb, p)
    ensures StackOf(pcb', ch) == StackOf(pcb, ch)
  {
    forall k | 0 <= k < |ch| ensures ActOf(pcb', ch[k]) == ActOf(pcb, ch[k]) {
      assert ch[k] in ch;
    }
  }

  lemma RefinesWf(s: State, c: seq<seq<nat>>, a: Abs)
    requires WellLinked(s, c) && Stacked(s, c, a)
    ensures Wf(a)
    ensures forall t | 0 <= t < NUM_TERMINAL :: s.tmnl[t].process >= 0 <==> a.terminals[t].stack != []
  {
    forall t | 0 <= t < NUM_TERMINAL ensures s.tmnl[t].process >= 0 <==> c[t] != [] {
      assert Chain(Links(s), Tops(s)[t], c[t], t);
    }
    forall t, k | 0 <= t < NUM_TERMINAL && 0 <= k < |c[t]| ensures c[t][k] < PCB_SIZE {
      assert Chain(Links(s), Tops(s)[t], c[t], t);
      assert ParentOf(Links(s), c[t][k]) != FREE;
    }
    if s.exec >= 0 { ExecutingIsTop(s, c); }
  }

  // ----- capacity

  lemma ChainSize(s: State, c: seq<seq<nat>>, t: nat)
    requires WellLinked(s, c) && t < NUM_TERMINAL
    ensures |Members(c[t])| == |c[t]| && Members(c[t]) <= Below(PCB_SIZE)
  {
    assert Chain(Links(s), Tops(s)[t], c[t], t);
    DistinctSize(c[t]);
    forall k | 0 <= k < |c[t]| ensures c[t][k] < PCB_SIZE { assert ParentOf(Links(s), c[t][k]) != FREE; }
  }

  lemma UnionSize(u: set<nat>, v: set<nat>, w: set<nat>)
    requires u !! v && u !! w && v !! w
    ensures |u + v + w| == |u| + |v| + |w|
  {
    assert (u + v) !! w;
  }

  lemma FullSet(all: set<nat>, pcb: seq<Pcb>)
    requires all <= Below(|pcb|) && forall p: nat | p < |pcb| :: p in all <==> pcb[p].exists'
    ensures |all| == |pcb| <==> FreeSlot(pcb, 0) == -1
  {
    SubsetSize(all, Below(|pcb|));
    var free := FreeSlot(pcb, 0);
    if free == -1 {
      assert all == Below(|pcb|);
    } else {
      assert free in Below(|pcb|) && free !in all;
    }
  }

  lemma FullIffNoFreeSlot(s: State, c: seq<seq<nat>>)
    requires WellLinked(s, c)
    ensures |c[0]| + |c[1]| + |c[2]| == PCB_SIZE <==> FreeSlot(s.pcb) == -1
  {
    ChainSize(s, c, 0); ChainSize(s, c, 1); ChainSize(s, c, 2);
    UnionSize(Members(c[0]), Members(c[1]), Members(c[2]));
    forall p: nat | p < PCB_SIZE { SlotListed(s, c, p); }
    FullSet(Members(c[0]) + Members(c[1]) + Members(c[2]), s.pcb);
  }

  lemma SlotListed(s: State, c: seq<seq<nat>>, p: nat)
    requires WellLinked(s, c) && p < PCB_SIZE
    ensures s.pcb[p].exists' <==> p in Members(c[0]) + Members(c[1]) + Members(c[2])
  {
    assert Links(s)[p] != FREE <==> s.pcb[p].exists';
  }

  // ----- refinement, one event

  // Active processes exist and differ from terminal to terminal.
  lemma TopsDiffer(s: State, c: seq<seq<nat>>)
    requires WellLinked(s, c)
    ensures forall t | 0 <= t < NUM_TERMINAL && s.tmnl[t].running :: s.pcb[s.tmnl[t].process].exists'
    ensures forall t, u | 0 <= t < u < NUM_TERMINAL && s.tmnl[t].running && s.tmnl[u].running ::
              s.tmnl[t].process != s.tmnl[u].process
  {
    forall t | 0 <= t < NUM_TERMINAL && s.tmnl[t].running
      ensures (s.tmnl[t].process as nat) in c[t] && s.pcb[s.tmnl[t].process].exists'
    {
      assert Chain(Links(s), Tops(s)[t], c[t], t);
      assert c[t][|c[t]| - 1] in c[t] && ParentOf(Links(s), c[t][|c[t]| - 1]) != FREE;
    }
  }

  // Slots outside the chains do not matter to the stacks; a fresh slot adds one program on top.
  lemma StacksPush(pcb: seq<Pcb>, pcb': seq<Pcb>, c: seq<seq<nat>>, t: nat, pid: nat)
    requires |c| == NUM_TERMINAL && t < NUM_TERMINAL && pid < |pcb|
    requires forall u | 0 <= u < NUM_TERMINAL :: pid !in c[u]
    requires forall p | p != pid :: ActOf(pcb', p) == ActOf(pcb, p)
    ensures forall u | 0 <= u < NUM_TERMINAL && u != t :: StackOf(pcb', Push(c, t, pid)[u]) == StackOf(pcb, c[u])
    ensures StackOf(pcb', Push(c, t, pid)[t]) == StackOf(pcb, c[t]) + [ActOf(pcb', pid)]
  {
    forall u | 0 <= u < NUM_TERMINAL ensures StackOf(pcb', c[u]) == StackOf(pcb, c[u]) {
      StackFrame(pcb, pcb', c[u]);
    }
    assert StackOf(pcb', c[t] + [pid]) == StackOf(pcb', c[t]) + [ActOf(pcb', pid)];
  }

  lemma FreshPid(s: State, c: seq<seq<nat>>, pid: nat)
    requires WellLinked(s, c) && pid < PCB_SIZE && !s.pcb[pid].exists'
    ensures forall u | 0 <= u < NUM_TERMINAL :: pid !in c[u]
  {
    assert Links(s)[pid] == FREE;
  }

  lemma PreemptEffect(s: State, save: Ctx)
    requires Shape(s) && (forall t | 0 <= t < NUM_TERMINAL :: s.tmnl[t].running)
    ensures var s' := Preempted(s, save);
            && s'.tmnl == s.tmnl && s'.active == s.active && s'.exec == (s.exec + 1) % NUM_TERMINAL && |s'.pcb| == |s.pcb|
            && (forall p :: ActOf(s'.pcb, p) == ActOf(s.pcb, p)) && Shape(s') && Coherent(s')
            && (forall p: nat | p < PCB_SIZE :: s'.pcb[p].prev == if s.exec >= 0 && p == Cur(s) then save else s.pcb[p].prev)
  {
  }

  lemma TickStacked(s: State, c: seq<seq<nat>>, a: Abs, save: Ctx, frame: Ctx, scratch: Scratch)
    requires WellLinked(s, c) && Stacked(s, c, a) && s.tmnl[2].running && Wf(a)
    requires forall t | 0 <= t < NUM_TERMINAL :: s.tmnl[t].running && a.terminals[t].stack != []
    ensures Stacked(Preempted(s, save), c, AbsTick(a, save, frame, scratch).0)
  {
    hide BootOrder;
    PreemptEffect(s, save);
    forall t | 0 <= t < NUM_TERMINAL { StackFrame(s.pcb, Preempted(s, save).pcb, c[t]); }
  }

  lemma TickParked(s: State, c: seq<seq<nat>>, a: Abs, save: Ctx, frame: Ctx, scratch: Scratch)
    requires Refines(s, c, a) && s.tmnl[2].running && Wf(a)
    requires forall t | 0 <= t < NUM_TERMINAL :: s.tmnl[t].running && a.terminals[t].stack != []
    ensures var (s', (a', out)) := (Preempted(s, save), AbsTick(a, save, frame, scratch));
            Shape(s') && Parked(s', a') && Coherent(s') && out == Resumed(s'.pcb[Cur(s')].prev)
  {
    hide Chains, BootOrder;
    PreemptEffect(s, save);
    TopsDiffer(s, c);
  }

  lemma RefinesLinked(s: State, c: seq<seq<nat>>, a: Abs)
    requires Refines(s, c, a)
    ensures Shape(s) && WellLinked(s, c) && |c| == NUM_TERMINAL && a.exec == s.exec && a.active == s.active
    ensures |a.terminals| == NUM_TERMINAL && Stacked(s, c, a) && Parked(s, a) && Coherent(s) && Flagged(s)
  {
  }

  lemma AllRunning(s: State, c: seq<seq<nat>>, a: Abs)
    requires Refines(s, c, a) && s.tmnl[2].running
    ensures forall t | 0 <= t < NUM_TERMINAL :: s.tmnl[t].running && t < |a.terminals| && a.terminals[t].stack != []
  {
    hide Chains, Parked, Coherent;
    RefinesWf(s, c, a);
    assert s.tmnl[2].process >= 0 && s.tmnl[1].process >= 0 && s.tmnl[0].process >= 0;
  }

  lemma TickForm(s: State, a: Abs, save: Ctx, frame: Ctx, scratch: Scratch)
    requires Shape(s) && Wf(a) && Flagged(s) && |scratch.argument| == Command.BUF_SIZE
    requires forall t | 0 <= t < NUM_TERMINAL :: s.tmnl[t].running
    ensures var (s', out) := TickStep(s, save, frame, scratch);
            && s' == Preempted(s, save) && Flagged(s') && out.Resumed? && out == Resumed(s'.pcb[Cur(s')].prev)
            && |AbsTick(a, save, frame, scratch).0.terminals| == NUM_TERMINAL
  {
  }

  lemma TickRefines(s: State, c: seq<seq<nat>>, a: Abs, save: Ctx, frame: Ctx, scratch: Scratch)
    requires Refines(s, c, a) && s.tmnl[2].running && |scratch.argument| == Command.BUF_SIZE && Wf(a)
    ensures var ((s', out), (a', out')) := (TickStep(s, save, frame, scratch), AbsTick(a, save, frame, scratch));
            out == out' && Refines(s', NextChains(c, s, out), a')
  {
    hide WellLinked, Stacked, Parked, Coherent, Flagged, TickStep, AbsTick, Preempted;
    RefinesLinked(s, c, a);
    AllRunning(s, c, a);
    TickForm(s, a, save, frame, scratch);
    ForestTick(s, c, save, frame, scratch);
    TickStacked(s, c, a, save, frame, scratch);
    TickParked(s, c, a, save, frame, scratch);
  }

  lemma AbsBoots(a: Abs, save: Ctx, frame: Ctx, scratch: Scratch, next: nat)
    requires Wf(a) && next == (a.exec + 1) % NUM_TERMINAL && a.terminals[next].stack == []
    ensures var (a', out) := AbsTick(a, save, frame, scratch);
            && out == Booted(frame) && |a'.terminals| == NUM_TERMINAL && a'.exec == next
            && a'.active == (if a.active == -1 then 0 else a.active)
            && forall t | 0 <= t < NUM_TERMINAL ::
                 a'.terminals[t].stack == if t == next then [Act(frame, scratch.argument)] else a.terminals[t].stack
  {
  }

  lemma BootStacked(s: State, c: seq<seq<nat>>, a: Abs, save: Ctx, frame: Ctx, scratch: Scratch, next: nat)
    requires WellLinked(s, c) && Stacked(s, c, a) && |scratch.argument| == Command.BUF_SIZE && Wf(a)
    requires next == (s.exec + 1) % NUM_TERMINAL == FreeSlot(s.pcb) && !s.tmnl[next].running
    requires (s.active == -1 ==> next == 0) && a.terminals[next].stack == [] && c[next] == []
    ensures var (s', (a', out)) := (TickStep(s, save, frame, scratch).0, AbsTick(a, save, frame, scratch));
            Stacked(s', Push(c, next, next), a') && out == Booted(frame)
  {
    var s' := BootingTick(s, save, frame, scratch, next);
    AbsBoots(a, save, frame, scratch, next);
    BootStacks(s, s', c, a, AbsTick(a, save, frame, scratch).0, next);
  }

  lemma BootStacks(s: State, s': State, c: seq<seq<nat>>, a: Abs, a': Abs, next: nat)
    requires WellLinked(s, c) && Stacked(s, c, a) && |s'.pcb| == |s.pcb| && next < NUM_TERMINAL && !s.pcb[next].exists' && c[next] == []
    requires s'.exec == a'.exec && s'.active == a'.active && |a'.terminals| == NUM_TERMINAL
    requires forall p | p != next :: ActOf(s'.pcb, p) == ActOf(s.pcb, p)
    requires forall t | 0 <= t < NUM_TERMINAL ::
               a'.terminals[t].stack == if t == next then [ActOf(s'.pcb, next)] else a.terminals[t].stack
    ensures Stacked(s', Push(c, next, next), a')
  {
    FreshPid(s, c, next);
    StacksPush(s.pcb, s'.pcb, c, next, next);
  }

  lemma BootParked(s: State, c: seq<seq<nat>>, a: Abs, save: Ctx, frame: Ctx, scratch: Scratch, next: nat)
    requires Refines(s, c, a) && !s.tmnl[2].running && |scratch.argument| == Command.BUF_SIZE && Wf(a)
    requires next == (s.exec + 1) % NUM_TERMINAL == FreeSlot(s.pcb) && !s.tmnl[next].running
    requires (s.active == -1 ==> next == 0) && a.terminals[next].stack == [] && c[next] == []
    ensures var (s', a') := (TickStep(s, save, frame, scratch).0, AbsTick(a, save, frame, scratch).0); Shape(s') && Parked(s', a')
  {
    TopsDiffer(s, c);
    var s' := BootingTick(s, save, frame, scratch, next);
    BootCoherent(s, save, frame, scratch, next);
  }

  lemma BootRefines(s: State, c: seq<seq<nat>>, a: Abs, save: Ctx, frame: Ctx, scratch: Scratch)
    requires Refines(s, c, a) && !s.tmnl[2].running && |scratch.argument| == Command.BUF_SIZE && Wf(a)
    ensures var ((s', out), (a', out')) := (TickStep(s, save, frame, scratch), AbsTick(a, save, frame, scratch));
            out == out' && Refines(s', NextChains(c, s, out), a')
  {
    RefinesWf(s, c, a);
    TickBoots(s, c, save, frame, scratch);
    var next := NextToBoot(s, c);
    assert Chain(Links(s), Tops(s)[next], c[next], next);
    BootStacked(s, c, a, save, frame, scratch, next);
    BootParked(s, c, a, save, frame, scratch, next);
    BootCoherent(s, save, frame, scratch, next);
  }

  lemma BootCoherent(s: State, save: Ctx, frame: Ctx, scratch: Scratch, next: nat)
    requires Shape(s) && |scratch.argument| == Command.BUF_SIZE
    requires next == (s.exec + 1) % NUM_TERMINAL == FreeSlot(s.pcb) && !s.tmnl[next].running
    requires s.active == -1 ==> next == 0
    ensures var s' := TickStep(s, save, frame, scratch).0; Shape(s') && Coherent(s')
  {
    var s' := BootingTick(s, save, frame, scratch, next);
    SameFreeSlot(s.pcb, SavedIn(s, save), 0);
  }

  lemma StoreEffect(s: State, p: Command.Parsed)
    requires Shape(s) && s.exec >= 0 && FitsBuffer(p) && p.WithArg?
    ensures var s1 := StoreArgument(s, p);
            && s1 == s.(pcb := s1.pcb) && |s1.pcb| == |s.pcb|
            && ActOf(s1.pcb, Cur(s)) == Act(s.pcb[Cur(s)].frame, Overlay(s.pcb[Cur(s)].argument, p.stored))
            && (forall q | q != Cur(s) :: ActOf(s1.pcb, q) == ActOf(s.pcb, q))
            && (forall q: nat | q < PCB_SIZE :: s1.pcb[q].prev == s.pcb[q].prev)
  {
  }

  lemma StoreRefines(s: State, c: seq<seq<nat>>, a: Abs, p: Command.Parsed)
    requires Refines(s, c, a) && Wf(a) && s.exec >= 0 && FitsBuffer(p)
    ensures Refines(StoreArgument(s, p), c, AbsStore(a, p))
  {
    hide BootOrder;
    ForestStore(s, c, p);
    if p.WithArg? {
      StoreEffect(s, p);
      ChainsApart(s, c, s.exec);
      ExecutingIsTop(s, c);
      StacksTop(s.pcb, StoreArgument(s, p).pcb, c, s.exec);
    }
  }

  // Changing the program on top of one stack changes no other entry.
  lemma StacksTop(pcb: seq<Pcb>, pcb': seq<Pcb>, c: seq<seq<nat>>, t: nat)
    requires |c| == NUM_TERMINAL && t < NUM_TERMINAL && c[t] != [] && Distinct(c[t])
    requires forall u | 0 <= u < NUM_TERMINAL && u != t :: Disjoint(c[t], c[u])
    requires forall p | p != c[t][|c[t]| - 1] :: ActOf(pcb', p) == ActOf(pcb, p)
    ensures forall u | 0 <= u < NUM_TERMINAL && u != t :: StackOf(pcb', c[u]) == StackOf(pcb, c[u])
    ensures StackOf(pcb', c[t][..|c[t]| - 1]) == StackOf(pcb, c[t])[..|c[t]| - 1]
    ensures StackOf(pcb', c[t]) == StackOf(pcb, c[t])[|c[t]| - 1 := ActOf(pcb', c[t][|c[t]| - 1])]
  {
    assert c[t][|c[t]| - 1] in c[t];
    forall u | 0 <= u < NUM_TERMINAL && u != t ensures StackOf(pcb', c[u]) == StackOf(pcb, c[u]) {
      StackFrame(pcb, pcb', c[u]);
    }
  }

  lemma ChainsApart(s: State, c: seq<seq<nat>>, t: nat)
    requires WellLinked(s, c) && t < NUM_TERMINAL && s.tmnl[t].process >= 0
    ensures c[t] != [] && Distinct(c[t])
    ensures forall u | 0 <= u < NUM_TERMINAL && u != t :: Disjoint(c[t], c[u])
  {
    assert Chain(Links(s), Tops(s)[t], c[t], t);
  }

  lemma HaltEffect(s: State, status: byte)
    requires Shape(s) && s.exec >= 0 && s.pcb[Cur(s)].parent != -1
    ensures var (s', out) := HaltStep(s, status);
            && out == Returned(s.pcb[Cur(s)].frame, status) && |s'.pcb| == |s.pcb|
            && s'.tmnl == s.tmnl[s.exec := s.tmnl[s.exec].(process := s.pcb[Cur(s)].parent)]
            && s'.exec == s.exec && s'.active == s.active
            && (forall p | p != Cur(s) :: ActOf(s'.pcb, p) == ActOf(s.pcb, p))
            && (forall p: nat | p < PCB_SIZE :: s'.pcb[p].prev == s.pcb[p].prev)
            && Shape(s') && Coherent(s')
  {
  }

  lemma HaltStacked(s: State, c: seq<seq<nat>>, a: Abs, status: byte)
    requires Refines(s, c, a) && Wf(a) && s.exec >= 0 && s.pcb[Cur(s)].parent != -1 && |c[s.exec]| > 1
    requires c[s.exec][|c[s.exec]| - 1] == Cur(s)
    ensures var ((s', out), (a', out')) := (HaltStep(s, status), AbsHalt(a, status));
            out == out' && Shape(s') && Stacked(s', Pop(c, s.exec), a') && Parked(s', a') && Coherent(s')
  {
    hide HaltStep, BootOrder;
    ChainsApart(s, c, s.exec);
    HaltEffect(s, status);
    StacksTop(s.pcb, HaltStep(s, status).0.pcb, c, s.exec);
  }

  lemma HaltRefines(s: State, c: seq<seq<nat>>, a: Abs, status: byte)
    requires Refines(s, c, a) && Wf(a) && s.exec >= 0
    ensures var ((s', out), (a', out')) := (HaltStep(s, status), AbsHalt(a, status));
            out == out' && Refines(s', NextChains(c, s, out), a')
  {
    hide Chains;
    ExecutingIsTop(s, c);
    if s.pcb[Cur(s)].parent != -1 {
      HaltShrinks(s, c, status);
      HaltStacked(s, c, a, status);
    }
  }

  lemma SpawnEffect(s: State, frame: Ctx, scratch: Scratch, pid: nat)
    requires Shape(s) && s.exec == s.active >= 0 && |scratch.argument| == Command.BUF_SIZE
    requires NUM_TERMINAL <= pid == FreeSlot(s.pcb)
    ensures var s' := Spawn(s, frame, scratch).0;
            && s'.pcb == s.pcb[pid := s'.pcb[pid]] && ActOf(s'.pcb, pid) == Act(frame, scratch.argument)
            && s'.tmnl == s.tmnl[s.exec := s.tmnl[s.exec].(process := pid)]
            && s'.exec == s.exec && s'.active == s.active && Shape(s') && Coherent(s')
  {
  }

  lemma SpawnStacked(s: State, c: seq<seq<nat>>, a: Abs, frame: Ctx, scratch: Scratch, pid: nat)
    requires Refines(s, c, a) && s.exec == s.active >= 0 && |scratch.argument| == Command.BUF_SIZE
    requires NUM_TERMINAL <= pid == FreeSlot(s.pcb)
    ensures var (s', a') := (Spawn(s, frame, scratch).0, SetStack(a, a.exec, a.terminals[a.exec].stack + [Act(frame, scratch.argument)]));
            Shape(s') && Stacked(s', Push(c, s.exec, pid), a') && Parked(s', a') && Coherent(s')
  {
    SpawnEffect(s, frame, scratch, pid);
    TopsDiffer(s, c);
    FreshPid(s, c, pid);
    StacksPush(s.pcb, Spawn(s, frame, scratch).0.pcb, c, s.exec, pid);
  }

  lemma SpawnRefines(s: State, c: seq<seq<nat>>, a: Abs, frame: Ctx, scratch: Scratch)
    requires Refines(s, c, a) && Wf(a) && s.tmnl[2].running && s.exec == s.active >= 0
    requires |scratch.argument| == Command.BUF_SIZE
    ensures Programs(a) == CAPACITY <==> FreeSlot(s.pcb) == -1
    ensures FreeSlot(s.pcb) >= 0 ==>
              Refines(Spawn(s, frame, scratch).0, Push(c, s.exec, FreeSlot(s.pcb)),
                      SetStack(a, a.exec, a.terminals[a.exec].stack + [Act(frame, scratch.argument)]))
  {
    hide Chains, BootOrder;
    FullIffNoFreeSlot(s, c);
    SpawnGrows(s, c, frame, scratch);
    if FreeSlot(s.pcb) >= 0 {
      SpawnStacked(s, c, a, frame, scratch, FreeSlot(s.pcb));
    }
  }

  lemma LaunchRefines(s: State, c: seq<seq<nat>>, a: Abs, exit: bool, loads: bool, frame: Ctx, scratch: Scratch)
    requires Refines(s, c, a) && Wf(a) && s.tmnl[2].running && s.exec == s.active >= 0
    requires |scratch.argument| == Command.BUF_SIZE
    ensures var ((s', out), (a', out')) := (LaunchStep(s, exit, loads, frame, scratch), AbsLaunch(a, exit, loads, frame, scratch));
            out == out' && Refines(s', NextChains(c, s, out), a')
  {
    hide Chains;
    ExecutingIsTop(s, c);
    if exit && s.pcb[Cur(s)].parent != -1 {
      HaltRefines(s, c, a, NUL);
    } else if loads {
      SpawnRefines(s, c, a, frame, scratch);
    }
  }

  lemma SameNextChains(c: seq<seq<nat>>, s: State, s1: State, out: Out)
    requires Shape(s) && Shape(s1) && |c| == NUM_TERMINAL && s1.exec == s.exec && s1.active == s.active
    requires FreeSlot(s1.pcb) == FreeSlot(s.pcb)
    ensures NextChains(c, s1, out) == NextChains(c, s, out) && NextChains(c, s, Failed) == c
  {
  }

  lemma ExecuteRefines(s: State, c: seq<seq<nat>>, a: Abs, p: Command.Parsed, loads: bool, frame: Ctx, scratch: Scratch)
    requires Refines(s, c, a) && Wf(a) && s.tmnl[2].running && s.exec == s.active >= 0
    requires FitsBuffer(p) && |scratch.argument| == Command.BUF_SIZE
    ensures var ((s', out), (a', out')) := (ExecuteParsed(s, p, loads, frame, scratch), AbsExecute(a, p, loads, frame, scratch));
            out == out' && Refines(s', NextChains(c, s, out), a')
  {
    hide Refines, WellLinked, NextChains, LaunchStep, AbsLaunch;
    RefinesLinked(s, c, a);
    SameNextChains(c, s, s, Failed);
    if !p.Blank? {
      StoreRefines(s, c, a, p);
      ForestStore(s, c, p);
      LaunchRefines(StoreArgument(s, p), c, AbsStore(a, p), EXIT <= p.name, loads, frame, scratch);
      SameNextChains(c, s, StoreArgument(s, p), ExecuteParsed(s, p, loads, frame, scratch).1);
    }
  }

  // Changing descriptors, or which terminal is on the screen, is invisible to the stacks.
  lemma QuietRefines(s: State, s': State, c: seq<seq<nat>>, a: Abs)
    requires Refines(s, c, a) && WellLinked(s', c)
    requires s'.tmnl == s.tmnl && s'.exec == s.exec && s'.pageDir == s.pageDir && s'.esp0 == s.esp0
    requires forall p: nat | p < PCB_SIZE :: s'.pcb[p] == s.pcb[p].(fds := s'.pcb[p].fds)
    ensures Refines(s', c, a.(active := s'.active))
  {
    forall t | 0 <= t < NUM_TERMINAL ensures StackOf(s'.pcb, c[t]) == StackOf(s.pcb, c[t]) {
      StackFrame(s.pcb, s'.pcb, c[t]);
    }
  }

  lemma OpenRefines(s: State, c: seq<seq<nat>>, a: Abs, kind: FdKind, inode: nat)
    requires Refines(s, c, a) && s.exec >= 0
    ensures Refines(OpenStep(s, kind, inode).0, c, a) && OpenStep(s, kind, inode).1.Descriptor?
  {
    ForestOpen(s, c, kind, inode);
    QuietRefines(s, OpenStep(s, kind, inode).0, c, a);
  }

  lemma CloseRefines(s: State, c: seq<seq<nat>>, a: Abs, fd: int)
    requires Refines(s, c, a) && s.exec >= 0
    ensures Refines(CloseStep(s, fd).0, c, a) && CloseStep(s, fd).1.Descriptor?
  {
    ForestClose(s, c, fd);
    QuietRefines(s, CloseStep(s, fd).0, c, a);
  }

  lemma SwitchRefines(s: State, c: seq<seq<nat>>, a: Abs, t: int)
    requires Refines(s, c, a) && Wf(a)
    ensures Refines(SwitchStep(s, t), c, AbsStep(a, Switch(t)).0)
  {
    RefinesWf(s, c, a);
    ForestSwitch(s, c, t);
    QuietRefines(s, SwitchStep(s, t), c, a);
  }

  lemma GetArgsRefines(s: State, c: seq<seq<nat>>, a: Abs, nbytes: int)
    requires Refines(s, c, a) && Wf(a) && s.exec >= 0 && s.pcb[Cur(s)].parent >= 0
    ensures AbsEnabled(a, GetArgs(nbytes)) && Step(s, GetArgs(nbytes)).1 == AbsStep(a, GetArgs(nbytes)).1
  {
    ExecutingIsTop(s, c);
  }

  lemma TickOrBootRefines(s: State, c: seq<seq<nat>>, a: Abs, save: Ctx, frame: Ctx, scratch: Scratch)
    requires Refines(s, c, a) && Wf(a) && |scratch.argument| == Command.BUF_SIZE
    ensures var ((s', out), (a', out')) := (TickStep(s, save, frame, scratch), AbsTick(a, save, frame, scratch));
            out == out' && Refines(s', NextChains(c, s, out), a')
  {
    if s.tmnl[2].running {
      TickRefines(s, c, a, save, frame, scratch);
    } else {
      BootRefines(s, c, a, save, frame, scratch);
    }
  }

  ghost predicate StepsAlike(s: State, c: seq<seq<nat>>, a: Abs, e: Event)
    requires Enabled(s, e) && |c| == NUM_TERMINAL && AbsEnabled(a, e)
  {
    var (s', out) := Step(s, e);
    var (a', out') := AbsStep(a, e);
    Control(out) == out' && Refines(s', NextChains(c, s, out), a')
  }

  lemma ExecuteAlike(s: State, c: seq<seq<nat>>, a: Abs, e: Event)
    requires Refines(s, c, a) && Wf(a) && Guarded(s, e) && e.Execute?
    ensures AbsEnabled(a, e) && StepsAlike(s, c, a, e)
  {
    hide WellLinked;
    ExecuteRefines(s, c, a, Command.Parse(e.command), e.loads, e.frame, e.scratch);
  }

  lemma OpenAlike(s: State, c: seq<seq<nat>>, a: Abs, kind: FdKind, inode: nat)
    requires Refines(s, c, a) && Wf(a) && Guarded(s, OpenFd(kind, inode))
    ensures AbsEnabled(a, OpenFd(kind, inode)) && StepsAlike(s, c, a, OpenFd(kind, inode))
  {
    hide WellLinked;
    OpenRefines(s, c, a, kind, inode);
  }

  lemma CloseAlike(s: State, c: seq<seq<nat>>, a: Abs, fd: int)
    requires Refines(s, c, a) && Wf(a) && Guarded(s, CloseFd(fd))
    ensures AbsEnabled(a, CloseFd(fd)) && StepsAlike(s, c, a, CloseFd(fd))
  {
    hide WellLinked;
    CloseRefines(s, c, a, fd);
  }

  lemma StepRefines(s: State, c: seq<seq<nat>>, a: Abs, e: Event)
    requires Refines(s, c, a) && Wf(a) && Guarded(s, e)
    ensures AbsEnabled(a, e) && StepsAlike(s, c, a, e)
  {
    hide WellLinked;
    match e
    case Tick(save, frame, scratch) => TickOrBootRefines(s, c, a, save, frame, scratch);
    case Execute(_, _, _, _) => ExecuteAlike(s, c, a, e);
    case Halt(status) => HaltRefines(s, c, a, status);
    case Switch(t) => SwitchRefines(s, c, a, t);
    case GetArgs(nbytes) => GetArgsRefines(s, c, a, nbytes);
    case OpenFd(kind, inode) => OpenAlike(s, c, a, kind, inode);
    case CloseFd(fd) => CloseAlike(s, c, a, fd);
  }

  // A program calls `execute` only while its own terminal is on the screen, and after the three shells have booted.
  ghost predicate Guarded(s: State, e: Event) {
    Enabled(s, e) && (e.Execute? ==> s.exec == s.active && s.tmnl[2].running)
  }

  // ----- refinement, every run

  ghost predicate GuardedRun(s: State, es: seq<Event>)
    decreases |es|
  {
    es == [] || (Guarded(s, es[0]) && GuardedRun(Step(s, es[0]).0, es[1..]))
  }

  // What a run does to the flow of control, event by event.
  ghost function Outs(s: State, es: seq<Event>): seq<Out>
    requires GuardedRun(s, es)
    decreases |es|
  {
    if es == [] then [] else var (s', out) := Step(s, es[0]); [Control(out)] + Outs(s', es[1..])
  }

  ghost predicate AbsRun(a: Abs, es: seq<Event>)
    decreases |es|
  {
    es == [] || (AbsEnabled(a, es[0]) && AbsRun(AbsStep(a, es[0]).0, es[1..]))
  }

  ghost function AbsOuts(a: Abs, es: seq<Event>): seq<Out>
    requires AbsRun(a, es)
    decreases |es|
  {
    if es == [] then [] else var (a', out) := AbsStep(a, es[0]); [out] + AbsOuts(a', es[1..])
  }

  lemma {:induction false} RunRefines(s: State, c: seq<seq<nat>>, a: Abs, es: seq<Event>)
    requires Refines(s, c, a) && GuardedRun(s, es)
    ensures AbsRun(a, es) && Outs(s, es) == AbsOuts(a, es)
    decreases |es|
  {
    if es != [] {
      RefinesWf(s, c, a);
      StepRefines(s, c, a, es[0]);
      var (s', out) := Step(s, es[0]);
      RunRefines(s', NextChains(c, s, out), AbsStep(a, es[0]).0, es[1..]);
    }
  }

  // The kernel is three stacks of programs. Through every run, boot, slot reuse and all: each tick resumes the
  // context saved when its terminal was last preempted, each halt returns to the frame of the execute it
  // closes, `getargs` reads the caller's argument, and `execute` fails for want of a slot only with six programs.
  lemma {:induction false} KernelRefinesStacks(es: seq<Event>)
    requires GuardedRun(INITIAL, es)
    ensures AbsRun(EMPTY, es) && Outs(INITIAL, es) == AbsOuts(EMPTY, es)
  {
    ForestInitially();
    RunRefines(INITIAL, [[], [], []], EMPTY, es);
  }
}
