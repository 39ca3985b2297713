# Verification model of a teaching operating system

The repository is a small x86 kernel with three text terminals, a round-robin scheduler, a read-only file system and
a handful of user programs. Almost everything it does is bookkeeping over plain tables and buffers, so its behaviour
can be stated without the hardware. This project models that bookkeeping in Dafny and proves properties of it.

Each component comes in three layers. A class or method follows the C or assembly code step by step, over arrays and
fields it updates in place. A function on plain values says what a whole operation does, and the method is proved
against it. Lemmas then prove what the system promises, over every input and every sequence of operations, against a
simpler definition that knows nothing of the tables.

- **Processes** (`Machine`, `Kernel`, `Forest`, `Stacks`, `Bracketing`, `Mapping`, `Descriptors`, `Witness`, `Command`,
  `Program`). A state machine over timer ticks, `execute`, `halt`, terminal switches, `getargs` and descriptor calls. Six
  slots in one table hold the processes of all three terminals, linked by parent numbers, and slots are reused. `Forest`
  shows that the links always form one chain per terminal. `Stacks` shows that the kernel refines three plain stacks of
  programs: every control transfer of every sequence of events is the one the stacks would make. `Bracketing`, `Mapping`
  and `Descriptors` draw the consequences, and give the exact conditions where the bookkeeping falls short; `Witness`
  reaches those states from boot.
- **Console** (`Screen`, `LineEditor`, `Multiplex`, `Console`). Three logical screens share one video page. Under any
  interleaving of output, keys, reads and switches each screen is shown to be the last 25 rows of its own unbounded text,
  which is defined apart from pages and scrolling and follows both output paths with their different wrap rules. The line
  editor keeps its buffer and the screen in step, and the terminals are independent. Physical memory is one array, and the
  block copies are done a word at a time as in the assembly.
- **Files and grep** (`FileSystem`, `Directory`, `Calls`, `TextLines`, `Grep`, `GrepAll`). A block walk refines a flat byte
  sequence; interleaved reads deliver each file in order; what an opened descriptor delivers is settled by the type of its
  entry; and the streaming line splitter, composed with directory listing, lookup and descriptors, prints exactly the
  matching lines of the files.
- **Smaller pieces** (`Blink`, `BlinkTiming`, `Rtc`, `Numbers`). A linked list in a pool that counts down is shown to refine
  a list of requests with ages, on the screen too; the flag of the real-time clock divider to follow a quotient; and printed
  numbers to read back.

`Arith`, `Bytes` and `Sets` hold shared definitions. `switch_terminal` appears twice: its effect on the scheduler's
variables in `Kernel`, its effect on the screen in `Console`.

## Where the code falls short of its design

Each of these is stated with the exact condition under which the code does what is meant. Where it takes a run from boot
to get to a state in which it does not, such a run is given.

- `execute` uses the number of the terminal on the screen where it means the executing terminal. The new process always
  runs with its own page and stack, but it becomes the executing terminal's process, and page and stack stay those of that
  terminal's process, exactly when the two are equal (`Mapping.ExecuteLandsOnScreen`); three ticks after boot they are not
  (`Witness.BackgroundExecuteGoesAstray`).
- `execute` takes any pid below 3 for a base shell. Called before all three shells are up it makes its program the base
  process of the next terminal. The process chains survive that, but the terminal is left executing and marked idle; the
  flags agree with the processes exactly when the third shell was running (`Mapping.EarlyExecuteLeavesIdle`,
  `Witness.EarlyExecuteGoesAstray`), and the next tick that comes to the idle terminal starts one more shell, on the
  terminal on the screen (`Witness.IdleTerminalStartsAShell`). The chain theorems hold for every sequence of events; the
  refinement theorems take `execute` only after the boot and from the terminal on the screen.
- The very first tick maps user video memory to terminal 0's backing page although terminal 0 is put on the screen
  (`Witness.FirstTickMapsBackingPage`); every later tick is right (`Mapping.VidmapAfterTick`). A terminal switch does not
  touch the mapping: it stays right until the next tick exactly when the switch neither puts the executing terminal on the
  screen nor takes it off (`Mapping.VidmapAfterSwitch`, `Witness.SwitchLeavesStalePage`).
- `halt` makes the parent the active process before it closes descriptors, so it is the parent's descriptors that are
  closed. They survive exactly when none above 1 was open (`Descriptors.HaltClearsParent`); a shell that has opened a file
  loses it (`Witness.HaltClosesTheShellsFile`).
- `halt` calls the close operations of descriptors 3 and up only. A clock client stays registered exactly when its only
  descriptor is 2, the first one free (`Descriptors.HaltLeavesClock`, `Witness.HaltForgetsTheClock`). Opening the clock again
  resets neither count nor signal: the first signal comes early by the old count, and the client is as good as fresh
  exactly when the count is 0 and no signal is pending (`Rtc.ReopenedClient`).
- The argument loop of `parse_cmd` tests the byte after the name instead of the byte it copies. What it stores is the
  argument and a NUL exactly when the name ends at a newline or no terminator follows in the first 128 bytes
  (`Command.CopyStopsAtArgument`); "a b" is enough to run on (`Command.CopyRunsOn`). `getargs` still finds the argument
  (`Command.ArgumentRoundTrip`).
- A command line without an argument leaves the caller's argument buffer as an earlier one filled it. A program so
  started reads nothing exactly when that buffer begins with a NUL (`Bracketing.ChildReadsLeftover`); after "a b" a plain
  "a" still reads "b" (`Witness.StaleArgumentIsRead`).
- The two output paths of `putc` do the same exactly for line breaks and for ordinary characters short of the last
  column (`Screen.PathsAgree`). Off the screen a character in the last column leaves column 0 of the next row out, and from
  the last cell of a full screen it is itself printed a row too low (`Screen.BackgroundWraps`).
- The place where Backspace stops is shared by the three terminals, and every carriage return printed on the screen moves
  it. A Backspace takes a character off the line and off the screen together exactly when the line is empty or the cursor
  is not at that place (`Multiplex.BackspaceActs`); a carriage return printed on terminal 0 can stop terminal 1's Backspace
  (`Multiplex.ReturnStopsBackspace`). The place stays with its text through any scrolling but that of a line break in the
  last row, where it slips down by a row (`Screen.StopFollows`).
- A blinker at location 0 enters the list but leaves its slot marked free. The pool's bookkeeping survives an addition
  exactly when it fails or the location is not 0 (`Blink.BlinkList.Add`); the next addition makes a node that points to
  itself (`Blink.LocationZeroMakesACycle`).
- A blinker's length of 0, or of more than 32768 ticks, counts as one tick (`BlinkTiming.TogglesAt`).
- A sync of two blinkers draws the second one off, whatever its new status. The screen is right afterwards exactly when the
  first is off or the second looks the same on and off (`BlinkTiming.SyncLights`).
- A read at the end of a file of exactly 1023 * 4096 bytes fails and moves the position back, so the last byte is
  delivered again; within a file no other read fails (`FileSystem.LargestFileRereads`).
- A negative size given to `file_read` is taken as a large unsigned one. A read keeps to its size exactly when the size is
  not negative, and otherwise reads to the end of the file (`FileSystem.SizeKept`).

## Model

| member | source | states |
|---|---|---|
| Machine.FreeSlot | student-distrib/PCB.c:69-76 | the slot a new process takes is absent and every lower slot is occupied; -1 only when all are |
| Machine.FreeFd | student-distrib/PCB.c:156-163 | the descriptor taken is absent and every lower one from 2 up is in use |
| Machine.EntriesAreOred | student-distrib/paging.c:100-106 | the page-directory and vidmap entries are the bitwise "or" of base and flags |
| Kernel.Kernel.constructor | student-distrib/PCB.c:22-41 | the tables start in the initial state of the machine |
| Kernel.Kernel.CreateProcess | student-distrib/PCB.c:49-77 | the lowest absent slot receives the whole new process; the table is unchanged when there is none |
| Kernel.Kernel.EndProcess | student-distrib/PCB.c:109-123 | the slot is freed and its argument emptied, and it is the current process, not the one ended, that loses its descriptors; -1 and no change for no process or an absent one |
| Kernel.Kernel.AddFd | student-distrib/PCB.c:143-164 | the lowest absent descriptor from 2 up becomes the opened file at position 0, or -1 and no change |
| Kernel.Kernel.RemFd | student-distrib/PCB.c:171-180 | a present descriptor above 1 becomes absent; anything else is refused without change |
| Kernel.Kernel.CloseAll | student-distrib/PCB.c:116-120 | every descriptor of the current process from a given one up is absent afterwards; its others and all other processes are unchanged |
| Kernel.Kernel.CloseFiles | student-distrib/syscall.c:99-105 | every descriptor from 3 up is absent afterwards, and the close operations called are those of the ones that were open, in order |
| Kernel.Kernel.FindBaseProcess | student-distrib/PCB.c:196-205 | from any live process the walk ends, at the base shell of the terminal whose chain holds the process |
| Kernel.Kernel.CreateProcessPage | student-distrib/paging.c:100-106 | the page-directory entry is that of the process |
| Kernel.Kernel.ParseCmd | student-distrib/syscall.c:36-78 | name, return value and stored argument are those of the parse; the executing process's argument buffer is the only one touched |
| Kernel.Kernel.CopyName | student-distrib/syscall.c:46-52 | the name up to its terminator, NUL-terminated |
| Kernel.Kernel.CopyArgument | student-distrib/syscall.c:69-74 | what lands in the argument buffer, from the byte after the name that the loop tests |
| Kernel.Kernel.SaysExit | student-distrib/syscall.c:147-158 | the name counts as "exit" exactly when it begins with these four bytes |
| Kernel.Kernel.Install | student-distrib/syscall.c:191-200 | a base shell becomes its own terminal's process and the executing terminal; any other becomes the process of the terminal on the screen |
| Kernel.Kernel.Start | student-distrib/syscall.c:177-224 | slot, parent, terminal, page entry, saved frame and kernel stack after a program is started; nothing but the terminal on the screen changes when no slot is free; loading cannot fail |
| Kernel.Kernel.Settle | student-distrib/syscall.c:191-224 | terminal, page, frame and stack of a process just created |
| Kernel.Kernel.Execute | student-distrib/syscall.c:139-245 | the whole of execute is the machine's step: argument stored, "exit" halts above the base shell, a name fails exactly when it is not that of an executable with the magic number, otherwise the program starts |
| Kernel.Kernel.Halt | student-distrib/syscall.c:86-131 | the whole of halt is the machine's step, with the device close operations it calls; a base shell cannot be halted |
| Kernel.Kernel.Preempt | student-distrib/scheduler.c:61-92 | vidmap entry, page entry, kernel stack, saved context and executing terminal after the first part of a context switch |
| Kernel.Kernel.Tick | student-distrib/scheduler.c:39-108 | a tick resumes the next terminal with the context its active process holds, or boots its shell |
| Kernel.Kernel.SwitchTerminal | student-distrib/terminal.c:198-210 | the terminal on the screen changes only to a different, valid, running terminal; -1 for a number out of range, else 0 |
| Kernel.Kernel.GetArgs | student-distrib/syscall.c:334-357 | the parent's argument up to its terminator and a NUL, or -1 and an untouched buffer when it is empty |
| Command.SkipSpaces | student-distrib/syscall.c:38-41 | the first byte that is not a space |
| Command.NameEnd | student-distrib/syscall.c:47-51 | the first terminator of the name, or byte 128 |
| Command.TakeArg | student-distrib/syscall.c:349-353 | the longest prefix without NUL or newline that fits the requested size |
| Command.CopyStopsAtArgument | student-distrib/syscall.c:69-74 | what is stored is the argument and a NUL if and only if the name ends at a newline or no terminator follows the argument in the first 128 bytes |
| Command.CopyRunsOn | student-distrib/syscall.c:69-74 | for the line "a b" the rest of the 128 bytes is stored too |
| Command.ParseGoodLine | student-distrib/syscall.c:36-78 | for every line of spaces, a name, spaces and an argument, the name is exactly the name and the copy starts at the argument |
| Command.ArgumentRoundTrip | student-distrib/syscall.c:334-357 | what was typed after the name is what getargs delivers, whatever the buffer held before |
| Command.BareLineIsName | student-distrib/syscall.c:36-61 | a line of spaces, a word and NULs is a name without an argument |
| Program.LookUp | student-distrib/syscall.c:160-174 | a name can be executed if and only if its first entry is of type 2 and its file begins with the magic number |
| Program.HasMagic | student-distrib/syscall.c:168-174 | the test is of the four bytes of the buffer, of which a shorter file leaves the end as it was; for a file of four bytes or more, of its first four |
| Program.LoadProg | student-distrib/paging.c:123-133 | the page holds the whole file, and the length returned is positive |
| Forest.ChainShrinks | student-distrib/syscall.c:89-108 | freeing the top of a chain leaves a chain that ends at its parent |
| Forest.PushKeepsChains | student-distrib/syscall.c:177-200 | a new process on top of one chain keeps all three chains, apart and covering the slots |
| Forest.PopKeepsChains | student-distrib/syscall.c:107-111 | freeing the top of one chain keeps all three |
| Forest.SpawnGrows | student-distrib/syscall.c:177-200 | after the boot a new process never gets a base shell's number, and extends the chain of the terminal on the screen |
| Forest.TickBoots | student-distrib/scheduler.c:94-99 | the next terminal's first tick gives its shell the pid equal to the terminal's number |
| Forest.SpawnBoots | student-distrib/syscall.c:191-195 | an execute before the last shell is up takes the next base slot and adds a one-process chain |
| Forest.TickReboots | student-distrib/scheduler.c:94-106 | a tick on a terminal that is marked idle but has a process starts a shell on the terminal on the screen, or resumes the process when no slot is free; the chains survive |
| Forest.HaltShrinks | student-distrib/syscall.c:86-114 | a halt above the base shell removes exactly the top of the executing terminal's chain |
| Forest.ForestTick | student-distrib/scheduler.c:39-108 | a tick keeps the three chains |
| Forest.ForestExecute | student-distrib/syscall.c:139-200 | execute keeps the three chains, whichever terminal it is called from, and before all shells are up |
| Forest.ForestHalt | student-distrib/syscall.c:86-114 | halt keeps the three chains |
| Forest.ForestSwitch | student-distrib/terminal.c:198-210 | a terminal switch keeps the three chains |
| Forest.ForestOpen | student-distrib/syscall.c:292-310 | opening a file keeps the three chains |
| Forest.ForestClose | student-distrib/syscall.c:318-326 | closing a file keeps the three chains |
| Forest.ForestStep | student-distrib/syscall.c:86-200 | every event that can happen keeps the chains, pushing or popping one process as its outcome says |
| Forest.ReachableForest | student-distrib/PCB.c:49-77 | after every sequence of events from boot the slots form one finite acyclic chain per booted terminal, from its active process to the base shell; the chains are disjoint and leave no slot out |
| Forest.ReachableStep | student-distrib/syscall.c:86-200 | every event that can happen leads from a reachable state to a reachable state |
| Forest.BasesSurvive | student-distrib/syscall.c:93-97 | base shells are never freed, so the base branch of execute is taken only at boot |
| Forest.ActiveProcessesDiffer | student-distrib/scheduler.c:63-76 | two running terminals never have the same active process |
| Stacks.FullIffNoFreeSlot | student-distrib/PCB.c:69-76 | no slot is free exactly when the three chains hold six processes together |
| Stacks.PreemptEffect | student-distrib/scheduler.c:61-92 | scheduling moves to the next terminal, saves the context in the interrupted process and nowhere else, and leaves page entry and kernel stack those of the new one |
| Stacks.TickRefines | student-distrib/scheduler.c:61-107 | the tick resumes exactly the context saved when that terminal was last preempted |
| Stacks.BootRefines | student-distrib/scheduler.c:94-99 | booting a shell puts one program on an empty stack |
| Stacks.HaltRefines | student-distrib/syscall.c:86-131 | halt pops the executing terminal's stack and returns to the popped program's frame |
| Stacks.ExecuteRefines | student-distrib/syscall.c:139-224 | execute pushes a program, or fails exactly when it cannot be loaded or six are running |
| Stacks.GetArgsRefines | student-distrib/syscall.c:339-347 | getargs reads the argument of the program below the top |
| Stacks.StepRefines | student-distrib/syscall.c:86-357 | every event acts on the kernel as on the stacks, with the same outcome |
| Stacks.KernelRefinesStacks | student-distrib/scheduler.c:39-108 | from boot, over every sequence of events, the outcomes of the kernel are those of three stacks of programs |
| Bracketing.ReachableRefines | student-distrib/syscall.c:86-224 | every reachable state stands for some three stacks |
| Bracketing.WellBracketed | student-distrib/syscall.c:120-131 | a program's halt returns to the frame its own execute saved and to the process that called it, with that process's page and kernel stack, whatever happened in between on any terminal |
| Bracketing.ChildReads | student-distrib/syscall.c:339-356 | a started program reads its caller's buffer as the execute left it, whatever has happened since |
| Bracketing.ChildReadsArgument | student-distrib/syscall.c:334-357 | a child started from a command line with an argument reads exactly that argument whenever it is executing, whatever has happened since |
| Bracketing.ChildReadsLeftover | student-distrib/syscall.c:63-63 | a program started without an argument reads what the caller's buffer held, and nothing if and only if it begins with a NUL |
| Bracketing.ExitIsHalt | student-distrib/syscall.c:147-158 | a command line whose word begins with the letters e, x, i, t is halt with status 0 in a program that has a caller, and fails without a change in a base shell |
| Mapping.UserPage | student-distrib/paging.c:100-106 | the entry is a present, writable, user 4-MByte page at 8 MB + 4 MB * pid (section 4.3 of Intel SDM volume 3A) |
| Mapping.ProcessesApart | student-distrib/syscall.c:117-117 | the kernel stack of a process is the pid-th 8-KByte block below 8 MByte; distinct processes have disjoint user pages and kernel stacks, and no stack lies in a page |
| Mapping.MappingFollowsExecution | student-distrib/scheduler.c:73-82 | in every reachable state user addresses are mapped at 8 MB + 4 MB * pid and the kernel stack ends at 8 MB - 8 KB * pid, for the pid of the executing terminal's active process |
| Mapping.VidmapAfterTick | student-distrib/scheduler.c:64-69 | after a tick user video memory is the physical screen exactly when the scheduled terminal is on it, if and only if it is not the first tick |
| Mapping.VidmapAfterSwitch | student-distrib/terminal.c:198-210 | after a switch the mapping is still right if and only if the executing terminal was neither put on the screen nor taken off |
| Mapping.ExecuteLandsOnScreen | student-distrib/syscall.c:178-203 | the process started becomes the executing one, and the mapping stays coherent, if and only if the executing terminal is on the screen |
| Mapping.EarlyExecuteLeavesIdle | student-distrib/syscall.c:191-195 | a start keeps the chains; the terminals marked as running are those with a process if and only if the third shell was running, else the executing terminal is marked idle |
| Descriptors.BootedFreshDescriptors | student-distrib/PCB.c:58-66 | in every reachable state a shell that a tick boots has exactly standard input and output open |
| Descriptors.StartedFreshDescriptors | student-distrib/PCB.c:58-66 | so has a program that an execute starts |
| Descriptors.StepKeepsDescriptor | student-distrib/syscall.c:99-111 | an event keeps an open descriptor of a process unless the process closes it, or the process or a child of it halts |
| Descriptors.OpenedUntilClosed | student-distrib/PCB.c:143-180 | an open takes the lowest absent descriptor from 2 up, which holds the kind and inode asked for, at its first byte, through any run that does not drop it; its close then returns 0 and takes it and no other |
| Descriptors.CallsFail | student-distrib/PCB.c:156-180 | an open fails if and only if descriptors 2 to 7 are taken, a close if and only if the number is not that of one open above 1; then nothing changes |
| Descriptors.HaltLeavesClock | student-distrib/syscall.c:99-105 | a halt with the clock open resets the client in the clock's table or leaves it, and leaves it if and only if descriptor 2 is the only clock |
| Descriptors.HaltClearsParent | student-distrib/syscall.c:107-111 | the parent's descriptors survive a child's halt if and only if none above 1 was open; no third process is touched |
| Witness.FirstTickMapsBackingPage | student-distrib/scheduler.c:64-69 | the first tick maps the backing page of the terminal on the screen |
| Witness.BackgroundExecuteGoesAstray | student-distrib/syscall.c:178-203 | after three ticks a program started by terminal 2 lands on terminal 0 |
| Witness.EarlyExecuteGoesAstray | student-distrib/syscall.c:191-195 | after one tick a program started by the first shell takes slot and terminal 1 |
| Witness.IdleTerminalStartsAShell | student-distrib/scheduler.c:94-99 | a reachable tick starts a shell on terminal 0 for the idle terminal 1 |
| Witness.SwitchLeavesStalePage | student-distrib/terminal.c:198-210 | three ticks after boot a switch makes the mapping wrong |
| Witness.HaltForgetsTheClock | student-distrib/syscall.c:99-105 | a reachable program that has opened the clock as descriptor 2 halts without closing it |
| Witness.StaleArgumentIsRead | student-distrib/syscall.c:63-63 | from boot, a program started without an argument reads the argument of an earlier command line |
| Witness.HaltClosesTheShellsFile | student-distrib/syscall.c:107-111 | a reachable shell with a file open loses it when its program halts |
| Screen.PathsAgree | student-distrib/lib.c:281-342 | the two output paths do the same if and only if the byte is a line break, or an ordinary character short of the last column |
| Screen.BackgroundWraps | student-distrib/lib.c:307-341 | in the last column off the screen: every cell, and the cursor, after a character, with the scroll that comes first in the last cell |
| Screen.PutShows | student-distrib/lib.c:210-343 | any byte on either path, in any cell, Backspace and function keys included, keeps the screen the window onto the text, unless it is a Backspace that is stopped |
| Screen.PutColours | student-distrib/lib.c:258-258 | whatever is printed, every visible character is in its terminal's colour, and every cell is if every cell was |
| Screen.PutFrontShows | student-distrib/lib.c:211-280 | one more character keeps the screen the window onto the end of the transcript |
| Screen.ScreenShowsTranscript | student-distrib/lib.c:210-280 | after any text without Backspace the 25 by 80 characters are the last rows of the wrapped transcript, and the cursor is at its end |
| Screen.ClearedScreenShowsTranscript | student-distrib/lib.c:20-29 | in particular from a cleared screen |
| Screen.StopFollows | student-distrib/lib.c:228-231 | a carriage return above the last row puts the place where Backspace stops at the start of the new row; any other byte leaves it at its place in the text if and only if it is not a line break in the last row |
| Screen.StopStaysWithText | student-distrib/lib.c:260-270 | it stays with the prompt through any text without line breaks, however far that scrolls |
| LineEditor.BufferHoldsFold | student-distrib/keyboard_handler.c:220-234 | after any keys the buffer holds the edits, capped at 127 characters, followed only by spaces and NULs |
| LineEditor.ReadDeliversLine | student-distrib/terminal.c:237-261 | after Enter a read of n bytes delivers the edited line and a newline, cut off or padded to n, at most 128, and leaves the buffer clear |
| LineEditor.BackspaceKeepsLine | student-distrib/lib.c:233-249 | Backspace with a nonempty line moves the cursor back one cell and never reaches the prompt |
| LineEditor.ScrollKeepsLine | student-distrib/lib.c:260-271 | a character in the last cell scrolls line and prompt together by one row |
| LineEditor.ScreenFollowsLine | student-distrib/keyboard_handler.c:220-234 | over any characters and Backspaces the cursor is the anchor plus the size of the line, the cells between show the buffer, and what precedes them is unchanged but for scrolling by whole rows |
| LineEditor.TypedLineOnScreen | student-distrib/keyboard_handler.c:220-234 | what stands on the screen after typing is the edited line itself |
| LineEditor.EnterEndsRow | student-distrib/keyboard_handler.c:211-215 | Enter starts a new row of the transcript |
| LineEditor.TypedLineEntered | student-distrib/keyboard_handler.c:209-219 | after Enter the edited line and the prompt before it stand where they stood, or a row higher if the cursor was in the last row, and the cursor is at the start of the row below the line |
| Multiplex.SetPaneDesk | student-distrib/lib.c:282-284 | replacing one terminal's screen changes no other logical terminal |
| Multiplex.PutcElsewhere | student-distrib/lib.c:210-343 | printing, whatever the byte, changes no logical terminal but the executing one |
| Multiplex.PutcDesk | student-distrib/lib.c:210-343 | printing plain text, carriage returns included, does the same to the executing logical terminal in front and in the background |
| Multiplex.TextReachesDesk | student-distrib/terminal.c:268-280 | plain text prints on the executing logical terminal as it would there alone, and on no other, on the screen or not |
| Multiplex.FrontTextIsPutAll | student-distrib/terminal.c:268-280 | any text written on the screen is printed as on that screen alone |
| Multiplex.FrontTextShows | student-distrib/lib.c:210-280 | any text without Backspace written on the screen keeps it the window onto the transcript, the last column and carriage returns included |
| Multiplex.SwitchMemory | student-distrib/terminal.c:169-191 | a switch moves one page out of the video page and another into it, and leaves the third |
| Multiplex.SwitchKeepsDesks | student-distrib/terminal.c:198-210 | switching changes no logical screen, cursor or line |
| Multiplex.PressKeyDesk | student-distrib/keyboard_handler.c:209-236 | a key edits the terminal on the screen, whichever was executing and still is afterwards, and no other, unless it is a Backspace stopped by a carriage return |
| Multiplex.BackspaceActs | student-distrib/lib.c:237-239 | Backspace acts on line and screen together if and only if the line is empty or the cursor is at the top left or not where the last carriage return left it |
| Multiplex.ReturnStopsBackspace | student-distrib/lib.c:228-239 | a run in which terminal 0's carriage return makes terminal 1's Backspace shorten the line and not the screen |
| Multiplex.ReadDesk | student-distrib/terminal.c:237-261 | a read takes the executing terminal's line and no other's |
| Multiplex.StepProjects | student-distrib/lib.c:210-343 | each event acts on the terminal it is addressed to as that terminal's own event; keys and switches leave the executing terminal executing |
| Multiplex.TerminalsIndependent | student-distrib/terminal.c:169-210 | for every interleaving of output, keys, reads and switches in which no Backspace is so stopped each logical terminal ends as if it had been alone |
| Multiplex.WithoutBackspace | student-distrib/lib.c:237-239 | none is when no Backspace is typed, whatever carriage returns are printed |
| Multiplex.WithoutReturn | student-distrib/lib.c:228-231 | none is when no carriage return is printed, whatever Backspaces are typed |
| Multiplex.EachScreenShowsItsOwnOutput | student-distrib/lib.c:210-343 | under any interleaving each logical screen is the window onto what its own terminal printed |
| Multiplex.StepPane | student-distrib/lib.c:210-343 | every event, stopped Backspaces included, does to each logical screen what one byte on the front or the back path does, or nothing |
| Multiplex.EveryByteShows | student-distrib/lib.c:210-343 | over every run, with any bytes printed, keys typed and switches made, each logical screen is the window onto its own text, in every cell |
| Multiplex.ColoursKept | student-distrib/lib.c:258-258 | and in its own colour |
| Console.Console.constructor | student-distrib/terminal.c:20-46 | every screen starts blank and every line empty |
| Console.Console.Memcpy | student-distrib/lib.c:502-539 | the aligned word copy equals a byte move for every destination at or below the source, overlapping or not |
| Console.Console.ScrollPage | student-distrib/lib.c:214-220 | the copy and the fill scroll one page and leave the rest of memory alone |
| Console.Console.UpdateCursor | student-distrib/lib.c:36-46 | the terminal's saved cursor is the one given |
| Console.Console.BreakForeground | student-distrib/lib.c:212-232 | a line break on the screen |
| Console.Console.BackspaceForeground | student-distrib/lib.c:233-249 | Backspace on the screen, with both of its guards |
| Console.Console.CharacterForeground | student-distrib/lib.c:254-279 | a character on the screen, with the wrap and the scroll in the last cell |
| Console.Console.PutcForeground | student-distrib/lib.c:211-280 | the foreground path writes memory, cursor and Backspace stop as the screen function says |
| Console.Console.BreakBackground | student-distrib/lib.c:288-305 | a line break in the backing page |
| Console.Console.CharacterBackground | student-distrib/lib.c:307-341 | a character in the backing page, with its own wrap |
| Console.Console.PutcBackground | student-distrib/lib.c:281-342 | the background path writes the backing page and the saved cursor as the screen function says |
| Console.Console.Putc | student-distrib/lib.c:210-343 | either path, over physical memory, is the console's print step |
| Console.Console.SaveTerminal | student-distrib/terminal.c:169-178 | the video page and the cursor are in the terminal's record |
| Console.Console.RestoreTerminal | student-distrib/terminal.c:185-191 | the terminal's page and cursor are on the screen |
| Console.Console.SwitchTerminal | student-distrib/terminal.c:198-210 | save then restore, over physical memory, is the console's switch step, with its return code |
| Console.Console.KeyboardHandler | student-distrib/keyboard_handler.c:209-236 | echo and buffer for a decoded key, with the executing terminal put back |
| Console.Console.ClearBuffer | student-distrib/terminal.c:53-60 | the line buffer is all NULs and empty |
| Console.Console.TerminalRead | student-distrib/terminal.c:237-261 | the line delivered and the terminal afterwards are those of the read step |
| Console.Console.TerminalWrite | student-distrib/terminal.c:268-280 | writing any text is printing its bytes one by one |
| Console.Console.Clear | student-distrib/lib.c:20-29 | the terminal on the screen is cleared with its cursor at the origin |
| FileSystem.FlatIsStored | student-distrib/filesystem.c:105-127 | byte k of the flat file is at offset k mod 4096 of the block that the inode lists k / 4096-th |
| FileSystem.ReadData | student-distrib/filesystem.c:97-132 | a read delivers the slice of the flat file, min(length, max(0, size - offset)) bytes, and fails exactly for an inode or block index out of range |
| FileSystem.WalkBlocks | student-distrib/filesystem.c:105-131 | the rolling block walk reads the bytes of the flat file in order |
| FileSystem.FileRead | student-distrib/filesystem.c:205-219 | the bytes delivered, the new position of this descriptor, and no other descriptor changed |
| FileSystem.ReadKeepsOnFile | student-distrib/filesystem.c:205-219 | before the end of a file a read succeeds, advances by what it delivers, and delivers nothing exactly at the end or for size 0 |
| FileSystem.SizeKept | student-distrib/filesystem.c:205-219 | a read keeps to the size asked for if and only if it is not negative; a negative one reads to the end |
| FileSystem.LargestFileRereads | student-distrib/filesystem.c:105-106 | a read within a file fails if and only if it is at the end of one of the greatest size, and the next one repeats the last byte |
| FileSystem.ReadsAreSequential | student-distrib/filesystem.c:205-219 | any interleaved reads deliver on each descriptor its own file in order, independently of the others |
| FileSystem.EndOfFile | student-distrib/filesystem.c:113-113 | a positive read delivers nothing if and only if the whole file has been delivered |
| Directory.Find | student-distrib/filesystem.c:48-64 | the first entry with exactly the name asked for, and none exactly when no entry has it |
| Directory.ReadDentryByName | student-distrib/filesystem.c:41-67 | lookup returns that entry, for terminated and unterminated 32-byte names, and -1 if there is none |
| Directory.ReadDentryByIndex | student-distrib/filesystem.c:74-91 | the entry's name, type and inode, or -1 past the last entry |
| Directory.DirRead | student-distrib/filesystem.c:139-171 | the next name and the cursor after it, at most 32 bytes |
| Directory.Strncpy | student-distrib/lib.c:616-627 | the string and its padding, nothing beyond n bytes |
| Directory.Strncmp | student-distrib/lib.c:579-593 | zero if and only if the strings are equal as far as n bytes go, else the difference of the first two bytes that differ |
| Directory.ListingRepeats | student-distrib/filesystem.c:139-171 | the k-th read lists the k-th name, then nothing once, then starts again, without end |
| Calls.Open | student-distrib/syscall.c:292-310 | the first entry with the name takes the lowest free descriptor, with the operations of the entry's type, or -1 and no change |
| Calls.Close | student-distrib/syscall.c:318-326 | an open descriptor from 2 to 7 becomes absent; anything else is refused without change |
| Calls.Read | student-distrib/syscall.c:253-266 | bytes delivered and descriptor afterwards are those of the kind's own read; -1 and no change for a number out of range, an absent descriptor or the standard output |
| Calls.OpenedFileDelivers | student-distrib/PCB.c:16-16 | opening an entry of type 2 and reading in pieces of any sizes delivers its file from the first byte on; a further read of a positive size delivers nothing if and only if all of it has been delivered |
| Calls.OpenedDirectoryLists | student-distrib/PCB.c:16-16 | opening an entry of type 1 and reading delivers the names of the directory in order, one each, then nothing, and starts again |
| Calls.OpenedClockDelivers | student-distrib/PCB.c:16-16 | opening an entry of type 0 gives the clock, whose reads deliver no bytes |
| TextLines.LinesJoin | syscalls/ece391grep.c:30-32 | cutting a file into lines loses nothing: joined, they are the file up to a last newline |
| TextLines.ReportIsFilter | syscalls/ece391grep.c:40-51 | the output line by line is the rendering of the matching lines |
| Grep.Strncmp | syscalls/ece391support.c:35-46 | zero if and only if the pattern is a prefix of the string, else the difference of the first two bytes that differ |
| Grep.Strcpy | syscalls/ece391support.c:14-17 | copying down over itself moves the string to the front of the buffer |
| Grep.Fdputs | syscalls/ece391support.c:19-22 | the bytes of the C string are appended to the output |
| Grep.SearchLine | syscalls/ece391grep.c:41-51 | a line is reported once if it contains the pattern anywhere, and not otherwise |
| Grep.ScanLine | syscalls/ece391grep.c:30-32 | the first newline at or after the start of the line |
| Grep.TakeLine | syscalls/ece391grep.c:40-52 | a finished line moves from what is still to be reported to the output |
| Grep.KeepRest | syscalls/ece391grep.c:33-39 | an unfinished line is at the front of the buffer, with the file's bytes |
| Grep.FullWindowHasLine | syscalls/ece391grep.c:31-33 | a full buffer holds a newline, because lines are short |
| Grep.SplitBuffer | syscalls/ece391grep.c:28-57 | one buffer's finished lines are reported and its unfinished one kept; together they make up the report |
| Grep.ReadAndSplit | syscalls/ece391grep.c:22-59 | a read and the lines it finishes keep output and remaining report together constant |
| Grep.ScanFile | syscalls/ece391grep.c:20-60 | wherever the reads cut the file, the output is the whole report, and the other descriptors are unchanged |
| GrepAll.DoOneFile | syscalls/ece391grep.c:9-66 | the output is exactly the file's lines that contain the pattern, in order, once each, after the file's name; the descriptors are as before |
| GrepAll.VisitNext | syscalls/ece391grep.c:84-94 | one name of the listing is searched, or passed over when it begins with a dot |
| GrepAll.EachSearchedOnce | syscalls/ece391grep.c:84-94 | when names are distinct the file searched is the file listed |
| GrepAll.GrepMain | syscalls/ece391grep.c:68-97 | the whole program prints the matching lines of every listed file in directory order, or one of its two error messages with its return code |
| Blink.FirstAt | fish/blink.S:351-374 | the newest blinker at a location |
| Blink.AddNodeMeans | fish/blink.S:105-178 | adding links the new node in front and keeps list and pool consistent exactly when it fails or the location is not 0; it fails only for a location from 2000 up or when all 2000 slots are listed |
| Blink.LocationZeroMakesACycle | fish/blink.S:131-162 | after a blinker at location 0 the next addition reuses its slot and points to itself |
| Blink.FullWhenAllListed | fish/fish.c:160-170 | the pool has no free slot exactly when all slots are listed |
| Blink.UnlinkMeans | fish/blink.S:206-223 | unlinking and clearing a node removes exactly its entry and returns its slot |
| Blink.BlinkList.constructor | fish/blink.S:18-19 | an empty list over a zeroed pool |
| Blink.BlinkList.FindHelper | fish/blink.S:351-379 | the slot of the first listed node at a location, or none |
| Blink.BlinkList.Malloc | fish/fish.c:160-170 | the lowest slot with location 0 |
| Blink.BlinkList.Free | fish/fish.c:172-175 | the slot is zeroed |
| Blink.BlinkList.Add | fish/blink.S:105-184 | the front node has the location, both characters and both lengths asked for, is on for its on-length, and is drawn with its on-character; the entries there were follow it; a failure changes nothing |
| Blink.BlinkList.Remove | fish/blink.S:187-237 | exactly the most recently added match leaves the list, and -1 only when there is none |
| Blink.BlinkList.FindPrev | fish/blink.S:206-212 | the pointer that leads to the node |
| Blink.BlinkList.Sync | fish/blink.S:240-300 | the second node takes lengths, countdown and status of the first, keeps location and characters, and is drawn off |
| Blink.BlinkList.Tasklet | fish/blink.S:49-99 | every listed node ticks once, those that toggle are drawn in list order, and the list is unchanged |
| BlinkTiming.TickAdvances | fish/blink.S:64-86 | one tick of the countdown is one step of the closed form |
| BlinkTiming.TogglesAt | fish/blink.S:62-64 | a countdown set to n runs for n ticks if and only if n is from 1 to 32768, and for one tick otherwise |
| BlinkTiming.BlinkersKeepTime | fish/blink.S:49-90 | over any additions, removals, ticks and syncs the list is that of the blinkers asked for, and each is on if and only if its age modulo on + off is below on, with the lengths of its own request or those it was synced to |
| BlinkTiming.SyncLights | fish/blink.S:276-285 | after a sync every location shows the character of its status if and only if the first blinker is off or the second has the same two characters |
| BlinkTiming.ScreenFollowsBlinkers | fish/blink.S:67-86 | over any run with one blinker to a location and no sync that draws wrongly, every location shows the character of its status |
| BlinkTiming.BlinkersShow | fish/blink.S:49-90 | so from an empty list every location shows its on-character for the first on ticks of every on + off, and its off-character for the others |
| BlinkTiming.SyncPutsInStep | fish/blink.S:267-275 | a sync puts two blinkers in step |
| BlinkTiming.SparedEntry | fish/blink.S:105-300 | an operation that neither removes nor syncs a node leaves it as it was, or ticks it, wherever it moves in the list |
| BlinkTiming.StayInStep | fish/blink.S:49-90 | they stay in step through any operations that neither remove one of the two nodes nor sync it to another, additions at their own locations included |
| Rtc.RateIsPowerOfTwo | student-distrib/rtc_handler.c:101-112 | the rate times the largest power of two not above the frequency, nor above 1024, is 1024 |
| Rtc.RtcBlock.constructor | student-distrib/rtc_handler.c:30-37 | no clients |
| Rtc.RtcBlock.Handler | student-distrib/rtc_handler.c:63-75 | every client counts one interrupt, and is signalled and reset at its rate |
| Rtc.RtcBlock.RtcWrite | student-distrib/rtc_handler.c:97-117 | the rate of the writing terminal's client for the frequency, or -1 below 2 |
| Rtc.RtcBlock.RtcOpen | student-distrib/rtc_handler.c:124-133 | a client at 2 Hz |
| Rtc.RtcBlock.RtcRead | student-distrib/rtc_handler.c:85-90 | the signal is taken |
| Rtc.RtcBlock.RtcClose | student-distrib/rtc_handler.c:140-147 | the client is gone |
| Rtc.SignalsAccountForInterrupts | student-distrib/rtc_handler.c:63-75 | signals times rate plus the count left over is the number of interrupts, whatever other terminals do |
| Rtc.FreshClientDivides | student-distrib/rtc_handler.c:124-133 | after n interrupts a fresh client has been signalled n / rate times, with n mod rate counted |
| Rtc.FlagHoldsSignals | student-distrib/rtc_handler.c:66-73 | with rates changed at will but no read and no close, the flag is up if and only if it was up or a signal has come |
| Rtc.FlagSinceLastRead | student-distrib/rtc_handler.c:66-90 | n interrupts before the last read and m after it, the flag is up if and only if count + n + m has passed a multiple of the rate that count + n has not; without a read, if it was up or count + m has reached the rate |
| Rtc.EagerReader | student-distrib/rtc_handler.c:85-90 | a program that reads whenever it can reads (count + n) / rate times in n interrupts, and each read takes the flag down |
| Rtc.ReadsAtMostSignals | student-distrib/rtc_handler.c:85-90 | however they are timed, reads return at most once per signal and once for a flag that was up |
| Rtc.CloseForgets | student-distrib/rtc_handler.c:140-147 | after a close the next open is a fresh client, whatever went before |
| Rtc.ReopenedClient | student-distrib/rtc_handler.c:124-133 | whatever has happened before, an open starts from the old count and signal, and is as good as fresh if and only if they are 0 and none |
| Rtc.StaysBounded | student-distrib/rtc_handler.c:63-75 | a client's count stays below 512 and its rate within it |
| Rtc.NextSignal | student-distrib/rtc_handler.c:66-73 | after any rate change the first signal comes after exactly max(1, rate - count) interrupts, within the rate |
| Numbers.NumeralDenotes | student-distrib/lib.c:351-381 | the digits read back as the number, with no leading zero except for 0 itself |
| Numbers.PlacesFit | student-distrib/lib.c:369-374 | a number below radix to the k has at most k digits |
| Numbers.Strrev | student-distrib/lib.c:387-400 | the string is reversed in place, the rest of the buffer unchanged |
| Numbers.WriteDigits | student-distrib/lib.c:364-377 | the digits from the lowest up, and a NUL |
| Numbers.Itoa | student-distrib/lib.c:351-381 | the numeral and a NUL are in the buffer, and nothing else is written |
| Numbers.PrintUnsigned | student-distrib/lib.c:140-147 | %u and %x print a numeral that reads back as the value |
| Numbers.PrintHex8 | student-distrib/lib.c:124-134 | %#x prints exactly eight hexadecimal digits that read back as the value |
| Numbers.PrintSigned | student-distrib/lib.c:150-163 | %d prints every 32-bit value so that it reads back, the smallest included |

## Left out

- Port I/O, interrupt controllers, the timer chip, descriptor tables, multiboot, boot and interrupt-entry assembly.
- The stack switch and `iret` themselves. Saved stack and base pointers are opaque tokens, and what is kept is which
  token is saved where and which is resumed.
- Concurrency inside a handler or system call: every tick, key and call is one step. The busy waits of `terminal_read`
  and `rtc_read` are preconditions.
- Scan codes, shift, caps lock, Ctrl and Alt. Keys are decoded; Ctrl-L and function keys without Alt, which take buffer
  and screen out of step, are not in the line-editor theorems.
- The entry point of a program and its place within the page. The executable that is named is taken to have at least
  four bytes.
- The fields a new process inherits from an uninitialised stack variable; each event carries them as an arbitrary value.
- The context saved by the first tick, which the code writes outside the process table, is discarded; so is the cursor
  that the first `clear` writes outside the terminal table. A tick that finds neither
  a slot for a shell nor a process to resume is not followed further; it cannot happen in a reachable state.
- Kernel.Kernel.ParseCmd: the name buffer has one more byte than the source's 128, for the NUL after a name of 128
  bytes, which the source writes past its buffer.
- Kernel.Kernel.Halt: lists the devices whose close operation is called; what that does is in `Rtc.RtcBlock.RtcClose`
  for the clock, and nothing for the others. A process whose slot is marked absent cannot be the one that halts.
- Kernel.Kernel.Tick: with a shell that can be loaded; without one the source resumes a context from outside the table.
- Kernel.Kernel.GetArgs: not for a base shell, for which the source reads the entry before the process table.
- Stacks.ExecuteRefines: not before the third shell is up, where it leaves a terminal marked idle
  (`Mapping.EarlyExecuteLeavesIdle`), nor from a terminal that is not on the screen, where the program lands on the wrong
  stack (`Mapping.ExecuteLandsOnScreen`).
- Stacks.KernelRefinesStacks: `execute` only after the three shells are up and from the terminal on the screen, for the
  same reasons; the chains of `Forest.ReachableForest` need neither.
- Console.Console.constructor: starts where the first tick leaves the terminals, with terminal 0 executing and on the
  screen; before it both numbers are -1 and nothing can print to a terminal.
- Multiplex.TerminalsIndependent: for text without Backspace and function-key bytes whose lines do not reach the last
  column, because there the two output paths differ and a screen depends on when it was switched to, and for runs in which no
  Backspace is stopped by a carriage return, because the place where it stops is shared. `Multiplex.EveryByteShows` needs
  neither.
- LineEditor.ReadDeliversLine: a second Enter before the first line has been read, which can write past a full buffer,
  is not a step.
- FileSystem.ReadsAreSequential: not for a file of exactly 1023 * 4096 bytes (`FileSystem.LargestFileRereads`).
- Grep.ScanFile: lines shorter than 1024 bytes, no NULs, and a last buffer byte that does not start out as a newline.
  Reads that fail, and the messages for them, are not modelled: on these files they cannot fail.
- Calls.Open: does not call the device's open operation, which does nothing for files and directories and registers a
  client for the clock (`Rtc.RtcBlock.RtcOpen`); nor does `Calls.Close` call the device's close.
- Calls.Read: not on the standard input, whose read is `Console.Console.TerminalRead`. A directory's names are read to the
  front of a buffer.
- GrepAll.GrepMain: on a directory whose files are within the limits of `Grep.ScanFile`.
- GrepAll.DoOneFile: only such files, and the clock, which delivers no text at once; its wait and its client table are in
  `Rtc`. The `close` of a file cannot fail, so its message is not modelled. A listed entry other than "." is not a
  directory.
- Directory.DirRead: like the source it does not look at the requested size.
- `mp1_ioctl_find`, which only copies the node that `mp1_find_helper` finds.
- BlinkTiming.ScreenFollowsBlinkers: a location with two blinkers shows whichever was drawn last.
- `ece391_itoa` and `ece391_strrev`, which repeat `itoa` and `strrev`; `puts` and `printf` beyond the number
  conversions; `print_tmnl`, which nothing calls.
- `memset`, `memmove`, signals, the pointer check of `vidmap`, the tests, and the other user programs: stubs, foreign
  calls or easy members.
