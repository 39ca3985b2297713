// Consequences of the refinement: execute and halt are well bracketed on each terminal, a child reads the
// argument its own command line gave it, and the memory mapping follows the executing process.
module Bracketing {
  import opened Bytes
  import opened Machine
  import opened Forest
  import opened Stacks
  import Command

  // ----- reachable states

  lemma {:induction false} RefinesAfter(s: State, c: seq<seq<nat>>, a: Abs, es: seq<Event>) returns (c': seq<seq<nat>>, a': Abs)
    requires Refines(s, c, a) && GuardedRun(s, es)
    ensures Runs(s, es) && Refines(After(s, es), c', a') && Wf(a')
    decreases |es|
  {
    RefinesWf(s, c, a);
    if es == [] {
      c', a' := c, a;
    } else {
      StepRefines(s, c, a, es[0]);
      var (s', out) := Step(s, es[0]);
      c', a' := RefinesAfter(s', NextChains(c, s, out), AbsStep(a, es[0]).0, es[1..]);
    }
  }

  ghost predicate GuardedReachable(s: State) {
    Shape(s) && exists es: seq<Event> :: GuardedRun(INITIAL, es) && Runs(INITIAL, es) && After(INITIAL, es) == s
  }

  lemma ReachableRefines(s: State) returns (c: seq<seq<nat>>, a: Abs)
    requires GuardedReachable(s)
    ensures Refines(s, c, a) && Wf(a)
  {
    hide Chains, Parked;
    var es: seq<Event> :| GuardedRun(INITIAL, es) && Runs(INITIAL, es) && After(INITIAL, es) == s;
    ForestInitially();
    c, a := RefinesAfter(INITIAL, [[], [], []], EMPTY, es);
  }

  // ----- bracketing

  // Through the whole run terminal t holds at least d programs.
  ghost predicate StaysDeep(s: State, c: seq<seq<nat>>, es: seq<Event>, t: nat, d: nat)
    requires |c| == NUM_TERMINAL && t < NUM_TERMINAL && GuardedRun(s, es)
    decreases |es|
  {
    |c[t]| >= d && (es == [] || (Enabled(s, es[0]) &&
      var (s', out) := Step(s, es[0]); StaysDeep(s', NextChains(c, s, out), es[1..], t, d)))
  }

  // Nothing happens to a program below the top, and a program keeps its frame while it is on the stack.
  lemma AbsStepKeeps(a: Abs, e: Event, t: nat, d: nat)
    requires AbsEnabled(a, e) && t < NUM_TERMINAL && 0 < d <= |a.terminals[t].stack|
    requires d <= |AbsStep(a, e).0.terminals[t].stack|
    ensures var (st, st') := (a.terminals[t].stack, AbsStep(a, e).0.terminals[t].stack);
            st'[..d - 1] == st[..d - 1] && st'[d - 1].frame == st[d - 1].frame
  {
    match e
    case Execute(command, loads, frame, scratch) => AbsExecuteKeeps(a, Command.Parse(command), loads, frame, scratch, t, d);
    case _ =>
  }

  lemma AbsExecuteKeeps(a: Abs, p: Command.Parsed, loads: bool, frame: Ctx, scratch: Scratch, t: nat, d: nat)
    requires Wf(a) && a.exec >= 0 && FitsBuffer(p) && t < NUM_TERMINAL && 0 < d <= |a.terminals[t].stack|
    requires d <= |AbsExecute(a, p, loads, frame, scratch).0.terminals[t].stack|
    ensures var (st, st') := (a.terminals[t].stack, AbsExecute(a, p, loads, frame, scratch).0.terminals[t].stack);
            st'[..d - 1] == st[..d - 1] && st'[d - 1].frame == st[d - 1].frame
  {
  }

  ghost predicate Kept(st: seq<Act>, st': seq<Act>, ch: seq<nat>, ch': seq<nat>, d: nat) {
    && 0 < d <= |st| && d <= |st'| && d <= |ch| && d <= |ch'|
    && ch'[..d] == ch[..d] && st'[..d - 1] == st[..d - 1] && st'[d - 1].frame == st[d - 1].frame
  }

  lemma DeepStepKeeps(s: State, c: seq<seq<nat>>, a: Abs, e: Event, t: nat, d: nat)
    requires Refines(s, c, a) && Wf(a) && Guarded(s, e) && t < NUM_TERMINAL && 0 < d <= |c[t]|
    requires var (s', out) := Step(s, e); |NextChains(c, s, out)[t]| >= d
    ensures AbsEnabled(a, e) && StepsAlike(s, c, a, e) && Wf(AbsStep(a, e).0)
    ensures Kept(a.terminals[t].stack, AbsStep(a, e).0.terminals[t].stack, c[t], NextChains(c, s, Step(s, e).1)[t], d)
  {
    StepRefines(s, c, a, e);
    var (s', out) := Step(s, e);
    RefinesWf(s', NextChains(c, s, out), AbsStep(a, e).0);
    AbsStepKeeps(a, e, t, d);
    NextKeepsPrefix(c, s, out, t, d);
  }

  lemma NextKeepsPrefix(c: seq<seq<nat>>, s: State, out: Out, t: nat, d: nat)
    requires Shape(s) && |c| == NUM_TERMINAL && t < NUM_TERMINAL && d <= |c[t]| && d <= |NextChains(c, s, out)[t]|
    ensures NextChains(c, s, out)[t][..d] == c[t][..d]
  {
  }

  lemma {:induction false} DeepRunKeeps(s: State, c: seq<seq<nat>>, a: Abs, es: seq<Event>, t: nat, d: nat)
    returns (c': seq<seq<nat>>, a': Abs)
    requires Refines(s, c, a) && Wf(a) && GuardedRun(s, es) && t < NUM_TERMINAL && d > 0 && StaysDeep(s, c, es, t, d)
    ensures Runs(s, es) && Refines(After(s, es), c', a') && Wf(a')
    ensures Kept(a.terminals[t].stack, a'.terminals[t].stack, c[t], c'[t], d)
    decreases |es|
  {
    if es == [] {
      c', a' := c, a;
    } else {
      var (s1, out) := Step(s, es[0]);
      DeepStepKeeps(s, c, a, es[0], t, d);
      c', a' := DeepRunKeeps(s1, NextChains(c, s, out), AbsStep(a, es[0]).0, es[1..], t, d);
    }
  }

  // The program that calls `execute`, with the argument its command line has stored.
  ghost function Caller(s: State, ex: Event): Act
    requires Enabled(s, ex) && ex.Execute?
  {
    ActOf(StoreArgument(s, Command.Parse(ex.command)).pcb, Cur(s))
  }

  // Terminal s.exec's program calls `execute`, and a new one starts on top of it.
  ghost predicate Starts(s: State, c: seq<seq<nat>>, ex: Event, s1: State, c1: seq<seq<nat>>)
    requires |c| == NUM_TERMINAL
  {
    Guarded(s, ex) && ex.Execute? && Step(s, ex) == (s1, Started(ex.frame)) && c1 == NextChains(c, s, Started(ex.frame))
  }

  lemma AbsStarted(a: Abs, p: Command.Parsed, loads: bool, frame: Ctx, scratch: Scratch)
    requires Wf(a) && a.exec >= 0 && FitsBuffer(p) && AbsExecute(a, p, loads, frame, scratch).1.Started?
    ensures AbsExecute(a, p, loads, frame, scratch).0.terminals[a.exec].stack
            == AbsStore(a, p).terminals[a.exec].stack + [Act(frame, scratch.argument)]
  {
  }

  // The caller, on top of its stack with its argument stored.
  lemma StoredTop(s: State, c: seq<seq<nat>>, a: Abs, p: Command.Parsed)
    requires Refines(s, c, a) && Wf(a) && s.exec >= 0 && FitsBuffer(p)
    ensures var (d, st) := (|c[s.exec]|, AbsStore(a, p).terminals[s.exec].stack);
            && a.exec == s.exec && d > 0 && |st| == d && c[s.exec][d - 1] == Cur(s)
            && st[d - 1].args == ActOf(StoreArgument(s, p).pcb, Cur(s)).args
  {
    ExecutingIsTop(s, c);
    StoreRefines(s, c, a, p);
  }

  lemma StartTakesSlot(s: State, c: seq<seq<nat>>, p: Command.Parsed, loads: bool, frame: Ctx, scratch: Scratch)
    requires WellLinked(s, c) && s.exec >= 0 && s.tmnl[2].process >= 0 && FitsBuffer(p) && |scratch.argument| == Command.BUF_SIZE
    requires ExecuteParsed(s, p, loads, frame, scratch).1.Started?
    ensures FreeSlot(s.pcb) >= NUM_TERMINAL
  {
    SameFreeSlot(s.pcb, StoreArgument(s, p).pcb, 0);
    SpawnGrows(s, c, frame, scratch);
  }

  lemma StartedChain(s: State, c: seq<seq<nat>>, out: Out)
    requires Shape(s) && |c| == NUM_TERMINAL && out.Started? && 0 <= s.exec == s.active && FreeSlot(s.pcb) >= NUM_TERMINAL
    ensures |NextChains(c, s, out)| == NUM_TERMINAL
    ensures var ch := NextChains(c, s, out)[s.exec]; |ch| == |c[s.exec]| + 1 && ch[..|c[s.exec]|] == c[s.exec]
  {
  }

  // What it leaves of its caller: the caller stays where it was, under the new program.
  lemma {:induction false} StartedAbove(s: State, c: seq<seq<nat>>, a: Abs, ex: Event, s1: State, c1: seq<seq<nat>>) returns (a1: Abs)
    requires Refines(s, c, a) && Wf(a) && Starts(s, c, ex, s1, c1)
    ensures Refines(s1, c1, a1) && Wf(a1)
    ensures var (d, ch, st) := (|c[s.exec]|, c1[s.exec], a1.terminals[s.exec].stack);
            && d > 0 && |ch| == d + 1 == |st| && ch[d - 1] == Cur(s) && st[d].frame == ex.frame
            && st[d - 1].args == Caller(s, ex).args
  {
    StepRefines(s, c, a, ex);
    a1 := AbsStep(a, ex).0;
    RefinesWf(s1, c1, a1);
    StartTakesSlot(s, c, Command.Parse(ex.command), ex.loads, ex.frame, ex.scratch);
    StartedOnTop(s, c, a, ex, c1);
  }

  lemma StartedOnTop(s: State, c: seq<seq<nat>>, a: Abs, ex: Event, c1: seq<seq<nat>>)
    requires Refines(s, c, a) && Wf(a) && Guarded(s, ex) && ex.Execute? && AbsEnabled(a, ex) && AbsStep(a, ex).1.Started?
    requires FreeSlot(s.pcb) >= NUM_TERMINAL
    requires c1 == NextChains(c, s, Started(ex.frame))
    ensures var (d, ch, st) := (|c[s.exec]|, c1[s.exec], AbsStep(a, ex).0.terminals[s.exec].stack);
            && d > 0 && |ch| == d + 1 == |st| && ch[d - 1] == Cur(s) && st[d].frame == ex.frame
            && st[d - 1].args == Caller(s, ex).args
  {
    hide Refines, NextChains, AbsExecute, StoreArgument, AbsStore;
    RefinesLinked(s, c, a);
    var (d, p) := (|c[s.exec]|, Command.Parse(ex.command));
    StoredTop(s, c, a, p);
    AbsStarted(a, p, ex.loads, ex.frame, ex.scratch);
    StartedChain(s, c, Started(ex.frame));
    assert c1[s.exec][d - 1] == c1[s.exec][..d][d - 1];
  }

  ghost predicate ReturnsTo(s: State, status: byte, frame: Ctx, caller: nat)
    requires Shape(s) && s.exec >= 0 && caller < PCB_SIZE
  {
    var (s', out) := HaltStep(s, status);
    && out == Returned(frame, status) && s'.exec == s.exec && s'.tmnl[s.exec].process == caller
    && s'.pageDir == PageEntry(caller) && s'.esp0 == Esp0(caller)
  }

  // The executing program was started by `caller` with this frame; `args` is what `getargs` reads.
  ghost predicate StartedBy(s: State, status: byte, caller: nat, act: Act, frame: Ctx)
    requires Shape(s) && s.exec >= 0
  {
    && caller < PCB_SIZE && s.pcb[Cur(s)].parent == caller && s.pcb[caller].argument == act.args
    && ReturnsTo(s, status, frame, caller)
  }

  lemma HaltAtDepth(s: State, c: seq<seq<nat>>, a: Abs, status: byte)
    requires Refines(s, c, a) && s.exec >= 0 && |c[s.exec]| > 1
    ensures var (ch, st, n) := (c[s.exec], a.terminals[s.exec].stack, |c[s.exec]|);
            StartedBy(s, status, ch[n - 2], st[n - 2], st[n - 1].frame)
  {
    hide Parked, BootOrder;
    ExecutingIsTop(s, c);
    HaltEffect(s, status);
  }

  lemma KeptBelow(st: seq<Act>, st': seq<Act>, ch: seq<nat>, ch': seq<nat>, d: nat, k: nat)
    requires Kept(st, st', ch, ch', d) && k + 1 < d
    ensures ch'[k] == ch[k] && st'[k] == st[k]
  {
    assert ch'[k] == ch'[..d][k] == ch[..d][k];
    assert st'[k] == st'[..d - 1][k] == st[..d - 1][k];
  }

  lemma BracketEnds(s: State, c: seq<seq<nat>>, a: Abs, status: byte, st: seq<Act>, ch: seq<nat>, d: nat)
    requires Refines(s, c, a) && s.exec >= 0 && |c[s.exec]| == d > 1
    requires Kept(st, a.terminals[s.exec].stack, ch, c[s.exec], d)
    ensures StartedBy(s, status, ch[d - 2], st[d - 2], st[d - 1].frame)
  {
    HaltAtDepth(s, c, a, status);
    KeptBelow(st, a.terminals[s.exec].stack, ch, c[s.exec], d, d - 2);
  }

  lemma {:induction false} BracketFrom(s: State, c: seq<seq<nat>>, a: Abs, mid: seq<Event>, t: nat, d: nat, status: byte)
    returns (c': seq<seq<nat>>)
    requires Refines(s, c, a) && Wf(a) && GuardedRun(s, mid) && t < NUM_TERMINAL
    requires d > 0 && StaysDeep(s, c, mid, t, d + 1)
    ensures Runs(s, mid) && WellLinked(After(s, mid), c') && |c'[t]| > d && |c[t]| > d && |a.terminals[t].stack| > d
    ensures After(s, mid).exec == t && |c'[t]| == d + 1 ==>
              StartedBy(After(s, mid), status, c[t][d - 1], a.terminals[t].stack[d - 1], a.terminals[t].stack[d].frame)
  {
    var a': Abs;
    c', a' := DeepRunKeeps(s, c, a, mid, t, d + 1);
    if After(s, mid).exec == t && |c'[t]| == d + 1 {
      BracketEnds(After(s, mid), c', a', status, a.terminals[t].stack, c[t], d + 1);
    }
  }

  // A program that a terminal's `execute` started, and its end. Between the two anything may run, on this
  // terminal (as long as the program itself is not halted) and on the others. While it is the active process
  // its parent's argument buffer, which `getargs` reads, is what its own command line left there; when it
  // halts, control returns to the frame its `execute` saved, and its caller is the active process again, with
  // the caller's page and kernel stack.
  lemma {:induction false} WellBracketed(s: State, c: seq<seq<nat>>, a: Abs, ex: Event, s1: State, c1: seq<seq<nat>>,
                      mid: seq<Event>, status: byte)
    returns (c': seq<seq<nat>>)
    requires Refines(s, c, a) && Wf(a) && Starts(s, c, ex, s1, c1)
    requires GuardedRun(s1, mid) && StaysDeep(s1, c1, mid, s.exec, |c[s.exec]| + 1)
    ensures Runs(s1, mid) && WellLinked(After(s1, mid), c') && |c'[s.exec]| > |c[s.exec]|
    ensures After(s1, mid).exec == s.exec && |c'[s.exec]| == |c[s.exec]| + 1 ==>
              StartedBy(After(s1, mid), status, Cur(s), Caller(s, ex), ex.frame)
  {
    var a1 := StartedAbove(s, c, a, ex, s1, c1);
    c' := BracketFrom(s1, c1, a1, mid, s.exec, |c[s.exec]|, status);
  }

  // What `getargs` reads in the program that an `execute` started, whenever that program is executing: its caller's
  // argument buffer as the `execute` left it, whatever has happened since.
  lemma {:induction false} ChildReads(s: State, c: seq<seq<nat>>, a: Abs, ex: Event, s1: State, c1: seq<seq<nat>>, mid: seq<Event>, nbytes: int)
    returns (c': seq<seq<nat>>)
    requires Refines(s, c, a) && Wf(a) && Starts(s, c, ex, s1, c1)
    requires GuardedRun(s1, mid) && StaysDeep(s1, c1, mid, s.exec, |c[s.exec]| + 1)
    ensures Runs(s1, mid) && WellLinked(After(s1, mid), c') && |c'[s.exec]| > |c[s.exec]| && |Caller(s, ex).args| == Command.BUF_SIZE
    ensures After(s1, mid).exec == s.exec && |c'[s.exec]| == |c[s.exec]| + 1 ==>
              Enabled(After(s1, mid), GetArgs(nbytes))
              && Step(After(s1, mid), GetArgs(nbytes)).1 == Args(Command.GetArgs(Caller(s, ex).args, nbytes))
  {
    c' := WellBracketed(s, c, a, ex, s1, c1, mid, NUL);
  }

  // A child started from a command line with an argument reads exactly that argument.
  lemma {:induction false} ChildReadsArgument(s: State, c: seq<seq<nat>>, a: Abs, ex: Event, s1: State, c1: seq<seq<nat>>, mid: seq<Event>,
                           lead: nat, name: seq<byte>, gap: nat, arg: seq<byte>, term: byte, rest: seq<byte>, nbytes: int)
    returns (c': seq<seq<nat>>)
    requires Refines(s, c, a) && Wf(a) && Starts(s, c, ex, s1, c1)
    requires GuardedRun(s1, mid) && StaysDeep(s1, c1, mid, s.exec, |c[s.exec]| + 1)
    requires Command.GoodLine(lead, name, gap, arg, term, rest) && |arg| <= nbytes
    requires ex.command == Command.Line(lead, name, gap, arg, term, rest)
    ensures Runs(s1, mid) && WellLinked(After(s1, mid), c') && |c'[s.exec]| > |c[s.exec]|
    ensures After(s1, mid).exec == s.exec && |c'[s.exec]| == |c[s.exec]| + 1 ==>
              Enabled(After(s1, mid), GetArgs(nbytes)) && Step(After(s1, mid), GetArgs(nbytes)).1 == Args(Some(arg))
  {
    c' := ChildReads(s, c, a, ex, s1, c1, mid, nbytes);
    var old' := s.pcb[Cur(s)].argument;
    Command.ArgumentRoundTrip(lead, name, gap, arg, term, rest, old', nbytes);
    assert Caller(s, ex).args == Overlay(old', Command.Parse(ex.command).stored);
  }

  // A line without an argument leaves the caller's buffer alone, so the child reads what an earlier line left there:
  // nothing exactly when the buffer begins with a NUL.
  lemma {:induction false} ChildReadsLeftover(s: State, c: seq<seq<nat>>, a: Abs, ex: Event, s1: State, c1: seq<seq<nat>>, mid: seq<Event>, nbytes: int)
    returns (c': seq<seq<nat>>)
    requires Refines(s, c, a) && Wf(a) && Starts(s, c, ex, s1, c1) && Command.Parse(ex.command).Plain?
    requires GuardedRun(s1, mid) && StaysDeep(s1, c1, mid, s.exec, |c[s.exec]| + 1)
    ensures Runs(s1, mid) && WellLinked(After(s1, mid), c') && |c'[s.exec]| > |c[s.exec]|
    ensures After(s1, mid).exec == s.exec && |c'[s.exec]| == |c[s.exec]| + 1 ==>
              var left := s.pcb[Cur(s)].argument;
              && Enabled(After(s1, mid), GetArgs(nbytes))
              && Step(After(s1, mid), GetArgs(nbytes)).1 == Args(Command.GetArgs(left, nbytes))
              && (Command.GetArgs(left, nbytes) == None <==> left[0] == NUL)
  {
    c' := ChildReads(s, c, a, ex, s1, c1, mid, nbytes);
    assert Caller(s, ex).args == s.pcb[Cur(s)].argument;
  }

  // "exit", or any other word that begins with these four letters, is halt with status 0 in a program that has a caller, and
  // changes nothing in a base shell, where it fails unless there is a program of that name.
  lemma ExitIsHalt(s: State, lead: nat, word: seq<byte>, loads: bool, frame: Ctx, scratch: Scratch)
    requires Shape(s) && s.exec >= 0 && |scratch.argument| == Command.BUF_SIZE
    requires [101, 120, 105, 116] <= word && lead + |word| < Command.BUF_SIZE && forall b | b in word :: !Command.EndsName(b)
    ensures var e := Execute(Command.BareLine(lead, word), loads, frame, scratch);
            && Enabled(s, e)
            && (s.pcb[Cur(s)].parent >= 0 ==> Step(s, e) == Step(s, Halt(NUL)))
            && (s.pcb[Cur(s)].parent == -1 && !loads ==> Step(s, e) == (s, Failed))
  {
    Command.BareLineIsName(lead, word);
    assert EXIT <= word;
  }
}
