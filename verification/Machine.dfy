// The kernel's process state as a value, and each kernel entry as a function on it:
// a timer tick, `execute`, `halt`, a terminal switch, `getargs`, and the file descriptor calls.
module Machine {
  import opened Arith
  import opened Bytes
  import Command

  const PCB_SIZE := 6
  const NUM_TERMINAL := 3
  const FDT_SIZE := 8

  // A stack pointer and base pointer saved together; opaque to the model.
  datatype Ctx = Ctx(sp: int, bp: int)

  datatype FdKind = Stdin | Stdout | Rtc | Dir | File
  datatype Fd = Absent | Present(kind: FdKind, inode: nat, position: nat)

  // `frame` is the pair saved by the execute that created the process, `prev` the pair saved by a tick.
  datatype Pcb = Pcb(exists': bool, parent: int, frame: Ctx, prev: Ctx, fds: seq<Fd>, argument: seq<byte>)
  datatype Tmnl = Tmnl(process: int, running: bool)
  datatype State = State(pcb: seq<Pcb>, tmnl: seq<Tmnl>, exec: int, active: int,
                         pageDir: int, esp0: int, vidPage: int)

  // The fields `create_process` leaves uninitialised, whatever the kernel stack happened to hold.
  datatype Scratch = Scratch(prev: Ctx, argument: seq<byte>)

  datatype Event =
    | Tick(save: Ctx, frame: Ctx, scratch: Scratch)
    | Execute(command: seq<byte>, loads: bool, frame: Ctx, scratch: Scratch)
    | Halt(status: byte)
    | Switch(t: int)
    | GetArgs(nbytes: int)
    | OpenFd(kind: FdKind, inode: nat)
    | CloseFd(fd: int)

  // What the event does to the flow of control, or returns to its caller.
  datatype Out =
    | Booted(frame: Ctx)
    | Resumed(ctx: Ctx)
    | Started(frame: Ctx)
    | Returned(frame: Ctx, status: byte)
    | Args(result: Option<seq<byte>>)
    | Descriptor(fd: int)
    | Failed
    | Ignored

  // ----- addresses

  const RW_USER_4MB := 0x87   // present, writable, user, 4 MB page
  const RW_USER := 0x7

  // A page-aligned base with its flag bits set.
  function WithBits(base: int, bits: int): int
    requires base % 4096 == 0 && 0 <= bits < 4096
  {
    base + bits
  }

  function PageEntry(pid: nat): int
    requires pid < PCB_SIZE
  {
    WithBits(0x800000 + pid * 0x400000, RW_USER_4MB)
  }

  function Esp0(pid: int): int { 0x800000 - 0x2000 * pid - 4 }

  // The page-table entry user programs see as video memory; -1 is the physical screen.
  function VidEntry(t: int): int
    requires -1 <= t < NUM_TERMINAL
  {
    WithBits(4096 * (184 + t + 1), RW_USER)
  }

  // The entries are what the code's bitwise "or" of base and flags gives.
  lemma EntriesAreOred(pid: nat, t: int)
    requires pid < PCB_SIZE && -1 <= t < NUM_TERMINAL
    ensures PageEntry(pid) == Or(0x800000 + pid * 0x400000, 0x87)
    ensures VidEntry(t) == Or(4096 * (184 + t + 1), 0x7)
  {
    SmallPowers();
    OrIsSum(0x800 + pid * 0x400, 0x800000 + pid * 0x400000, 0x87, 12);
    OrIsSum(184 + t + 1, 4096 * (184 + t + 1), 0x7, 12);
  }

  // ----- shape

  const FRESH_FDS: seq<Fd> := [Present(Stdin, 0, 0), Present(Stdout, 0, 0), Absent, Absent, Absent, Absent, Absent, Absent]

  ghost predicate GoodPcb(p: Pcb) {
    |p.fds| == FDT_SIZE && |p.argument| == Command.BUF_SIZE && -1 <= p.parent < PCB_SIZE
  }

  ghost predicate Sizes(s: State) {
    && |s.pcb| == PCB_SIZE && |s.tmnl| == NUM_TERMINAL
    && -1 <= s.exec < NUM_TERMINAL && -1 <= s.active < NUM_TERMINAL
    && (forall i | 0 <= i < PCB_SIZE :: GoodPcb(s.pcb[i]))
    && (forall t | 0 <= t < NUM_TERMINAL :: -1 <= s.tmnl[t].process < PCB_SIZE)
  }

  ghost predicate Shape(s: State) {
    && Sizes(s)
    && (forall t | 0 <= t < NUM_TERMINAL && s.tmnl[t].running :: s.tmnl[t].process >= 0)
    && (s.exec >= 0 ==> s.tmnl[s.exec].process >= 0)
    && (s.active >= 0 ==> s.tmnl[s.active].process >= 0)
  }

  // The process that is executing.
  function Cur(s: State): (p: nat)
    requires Shape(s) && s.exec >= 0
    ensures p < PCB_SIZE
  {
    s.tmnl[s.exec].process
  }

  function SetPcb(s: State, i: nat, p: Pcb): State
    requires i < |s.pcb|
  {
    s.(pcb := s.pcb[i := p])
  }

  function SetProcess(s: State, t: nat, pid: int): State
    requires t < |s.tmnl|
  {
    s.(tmnl := s.tmnl[t := s.tmnl[t].(process := pid)])
  }

  // ----- processes

  // The slot `create_process` takes: the lowest absent one, or -1.
  function FreeSlot(pcb: seq<Pcb>, i: nat := 0): (r: int)
    requires i <= |pcb|
    ensures r == -1 || (i <= r < |pcb| && !pcb[r].exists')
    ensures forall j | i <= j < (if r == -1 then |pcb| else r) :: pcb[j].exists'
    decreases |pcb| - i
  {
    if i == |pcb| then -1 else if !pcb[i].exists' then i else FreeSlot(pcb, i + 1)
  }

  function CloseFrom(fds: seq<Fd>, i: nat): (r: seq<Fd>)
    requires i <= |fds|
    ensures |r| == |fds|
  {
    seq(|fds|, k requires 0 <= k < |fds| => if k < i then fds[k] else Absent)
  }

  // `execute` once the program has been found to be loadable.
  function Spawn(s: State, frame: Ctx, scratch: Scratch): (r: (State, int))
    requires Sizes(s) && |scratch.argument| == Command.BUF_SIZE
  {
    var parent := if s.active == -1 then -1 else s.tmnl[s.active].process;
    var active := if s.active == -1 then 0 else s.active;
    var s1 := s.(active := active);
    var pid := FreeSlot(s.pcb);
    if pid == -1 then (s1, -1)
    else
      var base := pid < NUM_TERMINAL;
      var s2 := SetPcb(s1, pid, Pcb(true, if base then -1 else parent, frame, scratch.prev, FRESH_FDS, scratch.argument));
      var s3 := if base then SetProcess(s2.(exec := pid), pid, pid) else SetProcess(s2, active, pid);
      (s3.(pageDir := PageEntry(pid), esp0 := Esp0(pid)), pid)
  }

  ghost predicate FitsBuffer(p: Command.Parsed) {
    p.WithArg? ==> |p.stored| <= Command.BUF_SIZE
  }

  // The start of the executing process's argument buffer is overwritten.
  function StoreBytes(s: State, stored: seq<byte>): (r: State)
    requires Shape(s) && s.exec >= 0 && |stored| <= Command.BUF_SIZE
    ensures Shape(r)
  {
    var b := s.pcb[Cur(s)];
    SetPcb(s, Cur(s), b.(argument := Overlay(b.argument, stored)))
  }

  function StoreArgument(s: State, p: Command.Parsed): (r: State)
    requires Shape(s) && s.exec >= 0 && FitsBuffer(p)
    ensures Shape(r)
  {
    if p.WithArg? then StoreBytes(s, p.stored) else s
  }

  const EXIT: seq<byte> := [101, 120, 105, 116]   // "exit"

  // ----- one event

  ghost predicate Enabled(s: State, e: Event) {
    Shape(s) &&
    match e
    case Tick(_, _, scratch) => |scratch.argument| == Command.BUF_SIZE
    case Execute(command, _, _, scratch) =>
      s.exec >= 0 && Command.Readable(command) && |scratch.argument| == Command.BUF_SIZE
    case Switch(_) => true
    case GetArgs(_) => s.exec >= 0 && s.pcb[Cur(s)].parent >= 0
    case _ => s.exec >= 0
  }

  // The slots after a tick has saved the context of the process it interrupts. Nothing is saved by the first tick,
  // which has no current process.
  function SavedIn(s: State, save: Ctx): (r: seq<Pcb>)
    requires Shape(s)
    ensures |r| == |s.pcb| && forall p | 0 <= p < |r| :: r[p] == s.pcb[p].(prev := r[p].prev)
  {
    if s.exec == -1 then s.pcb else s.pcb[Cur(s) := s.pcb[Cur(s)].(prev := save)]
  }

  // The next terminal in turn is scheduled: mapping, kernel stack, saved context.
  function Preempted(s: State, save: Ctx): (r: State)
    requires Shape(s)
    ensures s.tmnl[(s.exec + 1) % NUM_TERMINAL].process >= 0 ==> Shape(r)
  {
    var next := (s.exec + 1) % NUM_TERMINAL;
    var process := s.tmnl[next].process;
    State(SavedIn(s, save), s.tmnl, next, s.active, if s.tmnl[next].running then PageEntry(process) else s.pageDir,
          Esp0(process), VidEntry(if next == s.active then -1 else next))
  }

  // `sched_handler` and `change_context`. A terminal marked idle executes a shell; when that fails, the process it has is
  // resumed, if it has one.
  function TickStep(s: State, save: Ctx, frame: Ctx, scratch: Scratch): (State, Out)
    requires Shape(s) && |scratch.argument| == Command.BUF_SIZE
  {
    var s1 := Preempted(s, save);
    var next := s1.exec;
    if s.tmnl[next].running then (s1, Resumed(s1.pcb[s.tmnl[next].process].prev))
    else
      var (s2, pid) := Spawn(s1.(tmnl := s.tmnl[next := Tmnl(s.tmnl[next].process, true)]), frame, scratch);
      (s2, if pid >= 0 then Booted(frame)
           else if s.tmnl[next].process >= 0 then Resumed(s1.pcb[s.tmnl[next].process].prev)
           else Failed)
  }

  // The kinds of the open descriptors from i up, in order.
  function OpenKinds(fds: seq<Fd>, i: nat): (r: seq<FdKind>)
    requires i <= |fds|
    ensures forall k :: k in r <==> exists fd :: i <= fd < |fds| && fds[fd].Present? && fds[fd].kind == k
    decreases |fds| - i
  {
    if i == |fds| then [] else (if fds[i].Present? then [fds[i].kind] else []) + OpenKinds(fds, i + 1)
  }

  // The devices that a halt closes: those on descriptor 3 and up.
  function HaltCloses(s: State): seq<FdKind>
    requires Shape(s) && s.exec >= 0
  {
    if s.pcb[Cur(s)].parent == -1 then [] else OpenKinds(s.pcb[Cur(s)].fds, 3)
  }

  // `end_process` closes descriptors through the current process, whichever process it ends.
  function Ended(s: State, pid: nat): State
    requires Shape(s) && s.exec >= 0 && pid < PCB_SIZE
  {
    var s1 := SetPcb(s, pid, s.pcb[pid].(exists' := false, argument := s.pcb[pid].argument[0 := NUL]));
    SetPcb(s1, Cur(s), s1.pcb[Cur(s)].(fds := CloseFrom(s1.pcb[Cur(s)].fds, 2)))
  }

  function HaltStep(s: State, status: byte): (State, Out)
    requires Shape(s) && s.exec >= 0
  {
    var cur := Cur(s);
    var parent := s.pcb[cur].parent;
    if parent == -1 then (s, Ignored)
    else
      var dead := s.pcb[cur].(exists' := false, argument := s.pcb[cur].argument[0 := NUL],
                              fds := CloseFrom(s.pcb[cur].fds, 3));
      var s1 := SetPcb(SetProcess(s, s.exec, parent), cur, dead);
      // `end_process` closes descriptors through the current process, which by now is the parent.
      var s2 := SetPcb(s1, parent, s1.pcb[parent].(fds := CloseFrom(s1.pcb[parent].fds, 2)));
      (s2.(pageDir := PageEntry(parent), esp0 := Esp0(parent)), Returned(dead.frame, status))
  }

  // `execute` once the name is known: "exit" halts instead, but a base shell goes on.
  function LaunchStep(s: State, exit: bool, loads: bool, frame: Ctx, scratch: Scratch): (State, Out)
    requires Shape(s) && s.exec >= 0 && |scratch.argument| == Command.BUF_SIZE
  {
    if exit && s.pcb[Cur(s)].parent != -1 then HaltStep(s, NUL)
    else if !loads then (s, Failed)
    else
      var (s', pid) := Spawn(s, frame, scratch);
      (s', if pid == -1 then Failed else Started(frame))
  }

  // `execute` once the command is parsed.
  function ExecuteParsed(s: State, p: Command.Parsed, loads: bool, frame: Ctx, scratch: Scratch): (State, Out)
    requires Shape(s) && s.exec >= 0 && FitsBuffer(p) && |scratch.argument| == Command.BUF_SIZE
  {
    if p.Blank? then (s, Failed)
    else LaunchStep(StoreArgument(s, p), EXIT <= p.name, loads, frame, scratch)
  }

  function SwitchStep(s: State, t: int): State
    requires Shape(s)
  {
    if t == s.active || t < 0 || t >= NUM_TERMINAL || !s.tmnl[t].running then s else s.(active := t)
  }

  // The lowest absent descriptor from 2 up, or -1.
  function FreeFd(fds: seq<Fd>, i: nat := 2): (r: int)
    requires i <= |fds|
    ensures r == -1 || (i <= r < |fds| && fds[r] == Absent)
    ensures forall j | i <= j < (if r == -1 then |fds| else r) :: fds[j] != Absent
    decreases |fds| - i
  {
    if i == |fds| then -1 else if fds[i] == Absent then i else FreeFd(fds, i + 1)
  }

  function OpenStep(s: State, kind: FdKind, inode: nat): (State, Out)
    requires Shape(s) && s.exec >= 0
  {
    var b := s.pcb[Cur(s)];
    var fd := FreeFd(b.fds);
    if fd == -1 then (s, Descriptor(-1))
    else (SetPcb(s, Cur(s), b.(fds := b.fds[fd := Present(kind, inode, 0)])), Descriptor(fd))
  }

  function CloseStep(s: State, fd: int): (State, Out)
    requires Shape(s) && s.exec >= 0
  {
    var b := s.pcb[Cur(s)];
    if fd < 2 || fd >= FDT_SIZE || b.fds[fd] == Absent then (s, Descriptor(-1))
    else (SetPcb(s, Cur(s), b.(fds := b.fds[fd := Absent])), Descriptor(0))
  }

  function Step(s: State, e: Event): (State, Out)
    requires Enabled(s, e)
  {
    match e
    case Tick(save, frame, scratch) => TickStep(s, save, frame, scratch)
    case Execute(command, loads, frame, scratch) => ExecuteParsed(s, Command.Parse(command), loads, frame, scratch)
    case Halt(status) => HaltStep(s, status)
    case Switch(t) => (SwitchStep(s, t), Ignored)
    case GetArgs(nbytes) => (s, Args(Command.GetArgs(s.pcb[s.pcb[Cur(s)].parent].argument, nbytes)))
    case OpenFd(kind, inode) => OpenStep(s, kind, inode)
    case CloseFd(fd) => CloseStep(s, fd)
  }

  // After `init_pcb` and `init_terminal`; globals start as zeros.
  const NO_PROCESS := Pcb(false, 0, Ctx(0, 0), Ctx(0, 0), FRESH_FDS, Repeat(NUL, Command.BUF_SIZE))
  const INITIAL := State([NO_PROCESS, NO_PROCESS, NO_PROCESS, NO_PROCESS, NO_PROCESS, NO_PROCESS],
                         [Tmnl(-1, false), Tmnl(-1, false), Tmnl(-1, false)], -1, -1, 0x2, 0x800000, 0)
}
