# A verified model of octaveOS

octaveOS is a small x86 teaching kernel with three text-mode terminals, six processes, a
read-only file system and a handful of user programs. This project models its stateful parts in
Dafny and proves what their code keeps, refines and isolates, over all inputs and all runs.

- **Text console and terminals** (`Screen.dfy`, `Display.dfy`). `putc`, `echo`, `scroll` and
  `clear` on 80 by 25 cells, and the three terminals that share one displayed page and three
  backing pages. The class `DisplayDriver.Driver` pokes the shared video memory as the C code
  does; `Terminals` is the machine it refines, and `TextLog` the unbounded log a console shows.
- **Processes, paging and scheduling** (`ProcessTable.dfy`, `Paging.dfy`, `Descriptors.dfy`,
  `KernelState.dfy`, `KernelCalls.dfy`, `PagingDriver.dfy`, `KernelDriver.dfy`). Boot, execute,
  halt, schedule, terminal switch, vidmap and the descriptor calls, as one step machine over the
  process table, the page directory and tables, the file arrays and the saved stack frames, with
  the page walk of section 4.3 of the Intel SDM, Volume 3A. `KernelState` holds what is true of all
  runs, `KernelCalls` what needs every program to be started on its caller's own terminal.
  `KernelDriver.Machine` holds the tables as arrays over a file system image, and carries out the
  assignments of the C functions in their order.
- **Streaming grep** (`Support.dfy`, `Grep.dfy`). The sliding 1024-byte buffer against the naive
  filter on the lines of the whole file.
- **Blinking characters** (`Blink.dfy`, `BlinkDriver.dfy`). The linked list over the static pool
  and the closed form in time of every blinker. A pointer into the pool is the index of its cell.
- **File system** (`FileSystem.dfy`). Block reads against slices of the flat file, and directory
  lookup against the listing.
- **Keyboard and line editing** (`Keyboard.dfy`, `LineEditing.dfy`, `KeyEffects.dfy`). The
  scancode handler and `term_read` against an unbounded edited line, what the screen then shows,
  and which screen a key works on.
- **Number formatting** (`Numerals.dfy`). `itoa`, `strrev` and the number cases of `printf`.

`Bytes.dfy` and `Division.dfy` hold what the others share. Every imperative class has a function
`State` or `Contents` to a value; its methods state the new value through a step function, and
the lemmas about runs are about that step function.

## Where the code does not do what it is meant to

Each of these is stated as an exact condition or a concrete run.

- A backspace in the top left corner with `runon` set leaves the page, and an echoed tab from
  columns 76 to 78 leaves the row (`Screen.PutcInRange`, `Screen.EchoInRange`). The keyboard can get
  there: Ctrl-L and then Backspace, on a line that has wrapped, write in front of the page
  (`KeyEffects.ClearThenBackspace`).
- Execute puts the child on the displayed terminal, not the caller's; unless they are the same, a
  blocked parent is scheduled later (`ProcessTable.ExecuteNeedsOwnTerminal`,
  `ProcessTable.BlockedParentIsScheduled`) and returns from its execute while the program still runs
  (`KernelState.BlockedShellResumes`), and a process can even go on running after its pid was
  freed, lose its vidmap page to another terminal's screen, or leave files open in a free pid
  (`KernelState.VidmapFollows`, `KernelState.FreePidsStayClean`, `KernelCalls.VidmapCanStray`,
  `KernelCalls.FreePidCanLitter`).
- A short file read across a block edge continues in the next block of the disk, a read from behind
  the first block does not reduce its offset into the right block, and the count is not clipped to
  what remains (`FileSystem.ShortReadAcrossEdge`, `FileSystem.LateShortReadIsExact`,
  `FileSystem.LongReadSkipsBlock`, `FileSystem.CountIsClipped`, `FileSystem.ReadUntilZeroIsExact`;
  failing reads are `FileSystem.ShortReadGoesWrong`, `LateShortReadGoesWrong` and `CountGoesWrong`).
  The header comment of `read_data` promises more.
- Grep cuts lines above 1024 bytes, and finds no pattern whose first byte is 128 or more, because it
  compares a signed char with an unsigned byte (`GrepSpec.WrappedIsFilter`,
  `GrepSpec.LongLineIsCut`, `GrepSpec.HighByteIsMissed`).
- ADD accepts location 0, which the pool uses as its mark for free cells
  (`BlinkDriver.Blinkers.IoctlAdd`, `BlinkDriver.ZeroLocationMakesCycle`).
- SYNC never paints the on character (`Blink.SyncPaintsOff`).
- The 129th pending character overwrites the last byte of the key buffer (`Keyboard.BufferIsLine`).
- A modifier released on another terminal stays down in the terminal that was left
  (`Keyboard.FlagDisagrees`, `Keyboard.LeftDown`, `Keyboard.AltStaysDown`).
- Ctrl-L clears the terminal of the running process, not the displayed one
  (`KeyEffects.ClearKeyClearsWhatIsSeen`). Where it clears a line that is being edited, the line stays
  in the key buffer but is gone from the screen (`LineEditing.ScreenShowsEditedLine`,
  `LineEditing.ClearedLineIsLost`).
- A letter typed in the last column of the last row cannot be rubbed out: the scroll takes the cursor
  to column 0 before the wrap test, which then neither wraps nor sets `runon`, so Backspace drops the
  letter from the key buffer and leaves it on the screen (`LineEditing.ScreenShowsEditedLine`,
  `LineEditing.RubbedLetterStays`).

## Model

| member | source | states |
|---|---|---|
| Screen.PutcInRange | student-distrib/lib.c:184-247 | from a cursor in range, `putc` returns to one if and only if the character is not a backspace in the top left corner with `runon` set |
| Screen.EchoInRange | student-distrib/lib.c:253-316 | the same for `echo`, which also loses the cursor on a tab from columns 76 to 78 above the last row, because its wrap test is an equality |
| Screen.StaysInPage | student-distrib/lib.c:196-208 | the cells that `putc` and `echo` write lie in the terminal's own page; for a backspace this is exactly the safety condition |
| TextLog.PutcShows | student-distrib/lib.c:184-247 | one byte other than NUL and backspace on a screen that shows a log gives the screen of the log with that byte added, through wrapping and scrolling; a tab adds four blanks |
| TextLog.ClearShows | student-distrib/lib.c:21-36 | a cleared screen shows the empty log |
| TextLog.EchoIsPutc | student-distrib/lib.c:253-316 | `echo` and `putc` agree on a character if and only if it is not a tab from columns 76 to 78 above the last row |
| Terminals.RunonAfter | student-distrib/lib.c:217-247 | after every safe run `runon` is set if and only if some character wrapped with no escape after it, or it was set before and no escape came; newlines, backspaces, clears and scrolls leave it |
| Terminals.RunonOfTerminal | student-distrib/lib.c:217-247 | and so for each of the three terminals under every safe interleaving |
| Terminals.OffScreenStays | student-distrib/lib.c:342-388 | the 96 bytes of a page behind the screen are touched by nothing but a tab from the last columns of the last row |
| TextLog.WriteShows | student-distrib/terminal.c:127-138 | after `clear`, writing any text without backspace leaves the 25 by 80 cells equal to the last 25 rows of the text's layout, padded with blanks, and the cursor at the layout's end |
| TextLog.LayoutOfLine | student-distrib/lib.c:226-246 | what that layout is: a line on a fresh row is cut every 79 characters, eagerly |
| TextLog.LayoutOfRowEnd | student-distrib/lib.c:187-195 | a row terminator finishes the current row, also the empty one an eager wrap leaves |
| EchoUndo.EchoThenErase | student-distrib/lib.c:253-316 | echoing printable characters without scrolling and then as many backspaces restores every cell and the cursor, across line wraps; only `runon` may have become set |
| Terminals.SwitchKeepsViews | student-distrib/terminal.c:78-120 | switching changes no terminal's logical screen, and `video_mem` keeps naming the real page for the displayed terminal and the backing page for the others |
| Terminals.WithViewIsLocal | student-distrib/lib.c:184-247 | work on one terminal changes that terminal's logical screen and no other |
| Terminals.Isolation | student-distrib/terminal.c:78-120 | for every interleaving of switches, process output, clears and keyboard echo, each terminal's logical screen is the result of its own operations run alone |
| Terminals.TerminalsShowTheirLogs | student-distrib/terminal.c:78-120 | three unbounded text logs are refined: under any safe interleaving of text without backspaces, clears and switches each terminal shows its own log, a clear starting it afresh, and the page at 0xB8000 shows the displayed terminal's log |
| Terminals.PlainRunsAreSafe | student-distrib/terminal.c:78-120 | every such interleaving without typed tabs is safe |
| DisplayDriver.Driver.constructor | student-distrib/terminal.c:7-27 | `term_init` gives every terminal its page and a cursor in the top left corner |
| DisplayDriver.Driver.Clear | student-distrib/lib.c:21-36 | the loop over the video memory clears the terminal's page and cursor and nothing else |
| DisplayDriver.Driver.Scroll | student-distrib/lib.c:342-388 | the nested in-place loops move the terminal's rows up by one, blank the last and leave every other page as it was |
| DisplayDriver.Driver.Putc | student-distrib/lib.c:184-247 | the pokes and cursor updates on shared video memory are one step of the terminal machine for a process on that terminal |
| DisplayDriver.Driver.Echo | student-distrib/lib.c:253-316 | likewise for a key echoed on the displayed terminal |
| DisplayDriver.Driver.CopyPage | student-distrib/terminal.c:84-89 | one page of video memory becomes a copy of another, the others stay |
| DisplayDriver.Driver.Switch | student-distrib/terminal.c:78-97 | the copies and pointer updates are the machine's switch |
| DisplayDriver.Driver.Write | student-distrib/terminal.c:127-138 | any text that brings no backspace to the unsafe corner: NUL bytes are skipped, the full count is returned, and only the writer's terminal changes |
| Paging.WalkIsAddressSpace | student-distrib/paging.c:11-82 | the page walk over the whole 4 GB, in both modes, for reads and writes: 128 to 132 MB go to the process's 4 MB from 8 MB + 4 MB * pid on, the vidmapped page to its terminal's screen, kernel page and video pages to themselves for the kernel only, everything else faults |
| Paging.FramesAreDisjoint | student-distrib/system_execute.c:193-199 | frames of different pids share no byte and lie above the kernel page and the video memory |
| Paging.UnmappedFaults | student-distrib/system_execute.c:245-252 | once the program page is undone, exactly its 4 MB fault |
| PagingDriver.PageTables.InitPaging | student-distrib/paging.c:11-82 | from arbitrary contents the loops leave exactly the initial mapping |
| PagingDriver.PageTables.MapProgram | student-distrib/system_execute.c:188-215 | the directory entry at 128 MB and the vidmap entry are set for the process, all other entries stay |
| PagingDriver.PageTables.UndoUserPaging | student-distrib/system_execute.c:245-252 | only the present bit of the program page is cleared |
| PagingDriver.PageTables.PointVidmapAt | student-distrib/terminal.c:103-113 | only the first entry of table 1 changes, to the given screen |
| PagingDriver.PageTables.MapScreen | student-distrib/system_execute.c:494-514 | the user-accessible vidmap entries in table and directory |
| ProcessTable.StepKeepsInv | student-distrib/system_execute.c:44-182 | every halt, tick, failing execute, and execute that starts a program on its caller's terminal keeps each terminal's live pids one acyclic parent chain from its base shell to `top_pid`, the chains disjoint, `free_pid` exact and `curr_pid` the top of its terminal |
| ProcessTable.RunKeepsInv | student-distrib/schedule.c:18-61 | the same over every run |
| ProcessTable.RunningIsLeaf | student-distrib/schedule.c:34-49 | the running process is not the parent of any live process from pid 3 on, so a process blocked in execute is never scheduled (base shells 1 and 2 were started by shells 0 and 1, which go on running) |
| ProcessTable.RoundRobin | student-distrib/schedule.c:34-49 | whatever happens in between, the running terminal is the number of ticks modulo three |
| ProcessTable.Bracketing | student-distrib/system_execute.c:277-312 | with any interleaving of the other terminals, a well-nested run of executes and halts restores its terminal's live pids, parents and top process |
| ProcessTable.FullBracketing | student-distrib/system_execute.c:277-312 | when all three terminals are well nested, `free_pid` and `top_pid` are restored entirely, and `curr_pid` once the same terminal runs |
| ProcessTable.ExecuteNeedsOwnTerminal | student-distrib/system_execute.c:54-62 | a successful execute keeps the chain invariant if and only if the displayed terminal is the caller's |
| ProcessTable.BlockedParentIsScheduled | student-distrib/system_execute.c:62 | otherwise a blocked parent is scheduled: a run of four steps |
| KernelCalls.BootedKernelInv | student-distrib/schedule.c:23-32 | the switches and executes of the first two ticks, from the first shell on, end in a state that satisfies the whole kernel invariant |
| KernelState.BootedMemory | student-distrib/schedule.c:23-32 | they end with the three shells as processes 0, 1 and 2, each the top of its terminal and with nothing open but stdin and stdout |
| KernelCalls.DoKeepsInv | student-distrib/system_execute.c:44-182 | every system call, tick and terminal switch, where a started program starts on its caller's terminal, keeps the process chains, the page tables and the descriptor tables consistent with one another |
| KernelCalls.KernelRunIsTableRun | student-distrib/schedule.c:18-61 | such a run of the kernel, seen on the process table alone, is a run of executes, halts and ticks |
| KernelCalls.KernelRunKeepsInv | student-distrib/schedule.c:18-61 | the whole invariant over every such run |
| KernelState.AddressSpaceInvariant | student-distrib/system_execute.c:188-215 | after every run, whichever terminals were displayed, every linear address in either mode, for reads and writes, translates as stated for the process that now runs; the page at 132 MB is there exactly when some vidmap of the run has succeeded, and is one of the four video pages |
| KernelState.VidmapGivesScreen | student-distrib/system_execute.c:501-513 | after a successful vidmap every address of the page at 132 MB translates, for user reads and writes, to the running process's screen |
| KernelState.VidmapOverRuns | student-distrib/system_execute.c:486-514 | over every run of the booted kernel that never strays, user accesses at 132 MB fault until the first successful vidmap, and reach the running process's screen ever after |
| KernelState.VidmapFollows | student-distrib/terminal.c:103-113 | throughout a run the vidmap page is the page that holds the running process's screen if and only if no execute fails, with another terminal displayed, in a process whose own pid has been freed |
| KernelState.StepFollows | student-distrib/system_execute.c:54-62 | step by step: such an execute is exactly what loses that, and a tick, halt, switch, vidmap or started program restores it |
| KernelState.UserMemoryIsolation | student-distrib/system_execute.c:188-215 | user-mode accesses of two different pids, after any two runs, never meet in one physical byte outside the video page the first one has mapped |
| KernelState.StartsWithStdioOnly | student-distrib/system_execute.c:132-133 | where free pids have closed descriptors, a started process has exactly descriptors 0 and 1 open, although the table of a reused pid is never cleared |
| KernelState.FreePidsStayClean | student-distrib/system_execute.c:285-288 | throughout a run free pids have closed descriptors if and only if no process opens a file while its pid is free |
| KernelCalls.OwnTerminalRunsFollow | student-distrib/system_execute.c:62 | when every program is started on its caller's terminal neither ever happens |
| KernelCalls.VidmapCanStray | student-distrib/system_execute.c:54-62 | from the booted kernel a state is reached in which a process runs whose pid is free, and its next failing execute leaves the vidmap page on another terminal's screen |
| KernelCalls.FreePidCanLitter | student-distrib/system_execute.c:285-288 | in that state a file it opens is left open in the free pid, and the next program started has it open as descriptor 2 |
| KernelState.OpenFilesAreKept | student-distrib/system_execute.c:94-101 | no activity of other processes, nor a process's own executes, changes its open files |
| KernelState.ReturnFrameIsKept | student-distrib/system_execute.c:138-141 | a live process keeps the frame its halt returns to |
| KernelCalls.KernelBracketing | student-distrib/system_execute.c:277-312 | a well-nested run restores the caller as top process with its open descriptors, its return frame and, when it runs again, its program memory mapping |
| KernelCalls.ChildReturns | student-distrib/system_execute.c:138-142 | whatever a started program starts and waits for, when it halts it goes back to the frame that called execute, in its parent |
| KernelCalls.ExecuteIsACall | student-distrib/system_execute.c:44-312 | execute up to the halt of the started program is a call: the caller runs again in its own program memory with its open files as they were, and the program's pid is free with closed descriptors, whatever the other terminals do meanwhile |
| KernelCalls.BlockedCallerWaits | student-distrib/schedule.c:34-49 | the caller of execute does not run at any step while its program is alive |
| KernelState.FrameIsKept | student-distrib/schedule.c:41-42 | the saved stack frame of a process that does not run is not touched |
| KernelState.ResumesInExecute | student-distrib/system_execute.c:141-144 | a process that executed a program and next gets the processor, whenever that is and whether or not the program still lives, resumes on the frame that called execute |
| KernelState.ShellsResume | student-distrib/schedule.c:53-58 | after the boot sequence, the switch to terminal 0 and the third and fourth tick, shells 0 and 1 run, each on the frame from which it started the next shell |
| KernelState.BlockedShellResumes | student-distrib/system_execute.c:141-144 | shell 2 starts a program with terminal 0 displayed: three ticks later it runs on the frame of that execute, while the program lives |
| KernelCalls.ResumesWhereItStopped | student-distrib/schedule.c:34-58 | a process that loses the processor at a tick has it back after exactly two more ticks, on the frame it was interrupted with, whatever the other terminals do in between |
| KernelCalls.WaitsForItsTurn | student-distrib/schedule.c:34-49 | until a terminal has its turn its top process does not run and stays its top process |
| KernelDriver.Machine.FindFreeProcess | student-distrib/system_execute.c:30-38 | the least free pid, -1 when there is none |
| KernelDriver.Machine.SetupPaging | student-distrib/system_execute.c:188-215 | the page tables are those of the process, or without a program for -1, and nothing else changes |
| KernelDriver.Machine.CreatePcb | student-distrib/system_execute.c:221-228 | the child's parent is recorded and nothing else changes |
| KernelDriver.Machine.InitializeStdio | student-distrib/system_execute.c:318-329 | slots 0 and 1 of the process are stdin and stdout, the other slots stay |
| KernelDriver.Machine.ProbeFile | student-distrib/system_execute.c:94-110 | the file is opened by its name, its header read and the file closed again through the caller's own table; the answer is that of `KernelDriver.ProgramIsElf` |
| KernelDriver.ProgramIsElf | student-distrib/system_execute.c:98-108 | on the flat file: a found name stands for a program if and only if bytes 0 to 3 are 7f 45 4c 46, where a file shorter than four bytes leaves the missing ones to the old stack contents |
| KernelDriver.NotFoundIsNoProgram | student-distrib/system_execute.c:94-97 | and it is not found if and only if no directory entry has the name |
| KernelDriver.ShellStartsTextDoesNot | student-distrib/system_execute.c:106 | on a disk with an ELF file and a text, execute starts the first and not the second, in every kernel with a free pid and a free slot |
| KernelDriver.Machine.ReadHeader | student-distrib/system_execute.c:98-101 | the header buffer holds the first 40 bytes of the file, over what was on the stack before |
| KernelDriver.Machine.LoadImage | student-distrib/system_execute.c:124-127 | the whole file is copied to the program's memory |
| KernelDriver.Machine.Execute | student-distrib/system_execute.c:44-182 | the assignments to the kernel's tables, in the source's order and with its early returns, are the machine's execute step; for a name whose file has at least four bytes, 0 is returned if and only if a pid and a slot are free and the file begins with 7f 45 4c 46, and then its image is in memory |
| KernelDriver.Machine.Halt | student-distrib/system_execute.c:277-312 | the assignments of a halt are the machine's halt step |
| KernelDriver.Machine.Schedule | student-distrib/schedule.c:34-58 | the assignments of a context switch are the machine's tick |
| KernelDriver.Machine.TermSwitch | student-distrib/terminal.c:78-120 | a switch retargets the screens and the running process's vidmap page together |
| KernelDriver.Machine.SystemVidmap | student-distrib/system_execute.c:486-521 | succeeds exactly for pointers between 128 and 132 MB, then maps the running process's screen (`KernelState.VidmapGivesScreen`) and stores its address; otherwise changes nothing |
| KernelDriver.Machine.CloseFiles | student-distrib/system_execute.c:285-288 | the loop closes descriptors 2 to 7 of the halting process and changes nothing else |
| KernelDriver.Machine.SystemOpen | student-distrib/system_execute.c:350-387 | looks the name up and returns the least free descriptor; -1 exactly when all six are taken, there is no such name or its type is unknown |
| KernelDriver.Machine.SystemClose | student-distrib/system_execute.c:395-407 | returns 0 exactly for an open descriptor from 2 on, which is then closed, -1 for every other |
| KernelDriver.Machine.SystemRead | student-distrib/system_execute.c:417-433 | a file delivers the bytes from the descriptor's position, which moves by their number; a directory one 32-byte name and a position moved by 1, or 0 at the end; a bad descriptor or a failed read gives -1 and moves nothing; at or behind the end of a file it gives 0 |
| KernelDriver.Machine.Fopen | student-distrib/filesys.c:166-203 | the first closed slot is used for the inode that the name finds, and left alone when there is no such name |
| KernelDriver.Machine.Dopen | student-distrib/filesys.c:316-358 | the first closed slot becomes an open directory |
| KernelDriver.Machine.Fread | student-distrib/filesys.c:214-232 | the buffer gets what `read_data` delivers from the slot's position, and only that position moves, by the number of bytes; at or behind the end of the file it returns 0 and leaves position and buffer |
| KernelDriver.EndOfFileStays | student-distrib/filesys.c:107-110 | once a position has reached the end of an existing file, every further sequence of reads on the slot gives 0 each time and leaves the table |
| KernelDriver.Machine.Dread | student-distrib/filesys.c:386-413 | the name at the slot's position is delivered, 32 is returned and the position moves by 1; 0 after the last entry |
| KernelDriver.Machine.Fclose | student-distrib/filesys.c:241-258 | 0 and only the flag of that slot changes, -1 out of range |
| Descriptors.FdStepRefines | student-distrib/filesys.c:166-203 | one open, close or read on the slot table is the same operation on the partial map from open descriptors to files; an open fails exactly when the map is full |
| Descriptors.FdRunRefines | student-distrib/filesys.c:166-258 | every run on the slot table is a run on the partial map |
| Descriptors.ProbeKeepsOpenFiles | student-distrib/system_execute.c:94-101 | open, read and close of the program file leave the open files as they were |
| FileSystem.ReadBlocksIsSlice | student-distrib/filesys.c:118-149 | the block loop delivers exactly the slice of the concatenated blocks when it fills blocks to the end or stays in one |
| FileSystem.ReadIsSlice | student-distrib/filesys.c:91-153 | `read_data` is exactly a slice of the flat file when it starts in the first block, ends in the file, and is at least 4096 bytes long or stays in that block |
| FileSystem.ReadFromStart | student-distrib/system_execute.c:124-127 | every read from offset 0 is exact, so the program image that execute loads is the whole file |
| FileSystem.CountIsClipped | student-distrib/filesys.c:112 | wherever the read starts, the count is clipped to what remains of the file if and only if the offset is 0 or nothing had to be clipped |
| FileSystem.ShortReadAcrossEdge | student-distrib/filesys.c:141-148 | a short read across the edge of the first block is exact if and only if the block that follows on the disk begins like the file's next block |
| FileSystem.LateShortReadIsExact | student-distrib/filesys.c:116-148 | a short read from behind the first block is exact if and only if the disk holds the file's bytes again as many blocks further on as the file has before the position |
| FileSystem.LongReadSkipsBlock | student-distrib/filesys.c:131-138 | a long read from offset 4096 delivers the file from the third block on |
| FileSystem.ShortReadGoesWrong | student-distrib/filesys.c:141-148 | 200 bytes from byte 4000 on, of a file in blocks 0 and 2 of a disk whose blocks all differ, are not the file's |
| FileSystem.LateShortReadGoesWrong | student-distrib/filesys.c:116-148 | nor are 10 bytes from byte 4196 on |
| FileSystem.CountGoesWrong | student-distrib/filesys.c:112 | 500 bytes are delivered where the file has 192 left, and reads of 30 bytes until zero do not collect a file of 100 |
| FileSystem.ReadData | student-distrib/filesys.c:91-153 | the loop puts those bytes into the buffer, returns their number, 0 at or behind the end of a file, or -1, and leaves the rest of the buffer |
| FileSystem.ReadFails | student-distrib/filesys.c:98-125 | a read fails if and only if there is no such inode, or it starts in the file and one of the blocks it touches is not on the disk; at or behind the end of a file it delivers nothing |
| FileSystem.ReadUntilZeroIsExact | student-distrib/filesys.c:214-232 | for a file within one block, reading chunks until a read returns 0 never fails, and it yields exactly the contents if and only if one chunk takes it all or the chunk size divides the length, and then in length / n reads |
| FileSystem.StrncmpName | student-distrib/lib.c:624-638 | zero exactly when the asked name, cut at 32 bytes, is the entry's name |
| FileSystem.ReadDentryByName | student-distrib/filesys.c:45-59 | the first entry of that name, -1 when there is none |
| FileSystem.ReadDentryByIndex | student-distrib/filesys.c:68-79 | the entry, or -1 out of range |
| FileSystem.ListingIsDirectory | student-distrib/filesys.c:386-413 | the names at positions 0, 1, ... until a directory read returns 0 are every entry's 32-byte name once, in order |
| FileSystem.ListedNameIsFound | student-distrib/filesys.c:45-59 | looking up a listed name finds that very entry if and only if no earlier entry has the same name |
| Support.Strlen | syscalls/ece391support.c:6-12 | the length of the C string |
| Support.Strcpy | syscalls/ece391support.c:14-17 | the overlapping forward copy is exact: every byte is read before it is overwritten |
| Support.Strncmp | syscalls/ece391support.c:35-46 | zero exactly when the two strings agree up to `n` bytes |
| GrepSpec.WrappedIsFilter | syscalls/ece391grep.c:9-66 | the lines printed are those of the naive filter if and only if every line that contains the pattern has at most 1024 bytes and the pattern does not start with a byte from 128 on, or no line contains it |
| GrepSpec.OutputIsNaive | syscalls/ece391grep.c:9-66 | and the bytes printed are, under exactly the same condition |
| GrepSpec.WrappedIsPieces | syscalls/ece391grep.c:9-66 | for every text: what is printed are, in order, those 1024-byte pieces of its lines in which the pattern is found |
| GrepSpec.PiecesMakeLine | syscalls/ece391grep.c:13 | the pieces of a line make it up |
| GrepSpec.LinesJoin | syscalls/ece391grep.c:28-57 | the lines of a text make it up, but for a newline missing at its end |
| GrepSpec.FilterConcat | syscalls/ece391grep.c:28-57 | the naive filter keeps or drops each line by itself, in order |
| GrepSpec.ReportLines | syscalls/ece391grep.c:45-48 | what is printed, read as a text, has one line for each of them: the file name, a colon and the line |
| GrepSpec.LongLineIsCut | syscalls/ece391grep.c:13 | a matching line of 1025 bytes is not printed as one line |
| GrepSpec.HighByteIsMissed | syscalls/ece391grep.c:43 | a file that consists of the pattern, one byte above 127: nothing is printed |
| Grep.MatchesAt | syscalls/ece391grep.c:43-44 | true exactly when the whole pattern stands at the position and its first byte, read as a signed char, equals itself read unsigned |
| Grep.SearchLine | syscalls/ece391grep.c:40-51 | one line is printed once exactly when the pattern is found in it at some position |
| Grep.KeepTail | syscalls/ece391grep.c:33-38 | the unfinished line moves to the front of the buffer, also when source and destination overlap |
| Grep.ScanOnce | syscalls/ece391grep.c:29-57 | one round of the inner loop prints exactly what it takes off the text still to be searched |
| Grep.ScanBuffer | syscalls/ece391grep.c:28-57 | the inner loop terminates, prints the selected lines of the buffer and keeps an unfinished last line |
| Grep.ScanFile | syscalls/ece391grep.c:20-60 | the outer loop terminates, reads the whole file, and prints exactly the lines in which the pattern is found, wherever the chunk boundaries fall |
| Grep.DoOneFile | syscalls/ece391grep.c:9-66 | prints exactly the lines in which the pattern is found, once each and in order, lines above 1024 bytes counting as several; this is the output of naive grep if and only if the condition of `GrepSpec.WrappedIsFilter` holds |
| Blink.StepIsStackStep | fish/blink.S:49-300 | every operation on the list is that operation on the stack of each location: ADD pushes, REMOVE pops, SYNC re-times the top, a tick ages all |
| Blink.CommandsFail | fish/blink.S:105-300 | ADD fails exactly behind the last cell or with a full list, REMOVE and SYNC exactly where a blinker is missing, and then nothing changes |
| Blink.FindIsMostRecent | fish/blink.S:351-379 | after every history find fails exactly when each ADD at the location has been removed, and otherwise gives the blinker of the most recent ADD that has not (with ADD locations from 1 on, on which the pool carries these operations out) |
| Blink.RunAgesStack | fish/blink.S:49-99 | over every run that neither adds, removes nor syncs at a location, the blinkers there, however many, only age by the ticks |
| Blink.RunKeepsPainted | fish/blink.S:64-86 | and where they are in one state, the cell keeps showing it |
| Blink.OtherBytesStay | fish/blink.S:64-86 | over every run the attribute bytes, and the characters of cells without a blinker, stay as they are |
| Blink.RemovedCellStays | fish/blink.S:187-237 | after REMOVE of its only blinker a cell stays as it was |
| Blink.ClosedForm | fish/blink.S:64-86 | t ticks after it was turned on a blinker is t modulo its period into that period, for every pair of lengths |
| Blink.BlinkerShows | fish/blink.S:49-99 | t ticks after ADD the cell shows the on character if and only if t mod (on + off) < on, among any number of other blinkers; lengths 0 and above 0x8000 last one tick because the comparison is signed |
| Blink.SyncedStayTogether | fish/blink.S:267-275 | from every successful SYNC on, the blinkers that find gives for the two locations have equal countdown and status after every run that touches neither location, whatever else is on the list |
| Blink.SyncPaintsOff | fish/blink.S:277-285 | SYNC paints the off character whatever the copied state, so the cell is right at once if and only if the state is off or the characters agree |
| BlinkDriver.LiveAndFree | fish/fish.c:160-175 | live and free cells add up to the pool |
| BlinkDriver.FullPool | fish/fish.c:160-170 | the list is full exactly when no cell is free |
| BlinkDriver.InsertKeeps | fish/blink.S:159-162 | putting a free cell at the head keeps the list acyclic and its nodes exactly the live cells if and only if its location is not 0 |
| BlinkDriver.UnlinkKeeps | fish/blink.S:214-222 | unlinking and zeroing a cell keeps the list acyclic and exact and removes exactly that blinker |
| BlinkDriver.ZeroLocationMakesCycle | fish/blink.S:131-133 | what an ADD at location 0, which the code accepts, leads to: the cell is handed out again and linked to itself |
| BlinkDriver.Blinkers.Malloc | fish/fish.c:160-170 | the first free cell, NULL exactly when the list holds the whole pool |
| BlinkDriver.Blinkers.FindHelper | fish/blink.S:351-379 | the first node at the location, NULL at the end of the list |
| BlinkDriver.Blinkers.IoctlAdd | fish/blink.S:105-184 | the new blinker is at the head and painted, or -1 for a bad location or a full pool; the pool stays well formed if and only if the location is not 0 |
| BlinkDriver.Blinkers.FindPrev | fish/blink.S:206-212 | the pointer walk terminates at the predecessor of the node |
| BlinkDriver.Blinkers.IoctlRemove | fish/blink.S:187-237 | exactly the found blinker leaves the list and its cell is free again |
| BlinkDriver.Blinkers.IoctlSync | fish/blink.S:240-300 | the timing is copied, the cell painted, the list unchanged; -1 if either is missing |
| BlinkDriver.Blinkers.RtcTasklet | fish/blink.S:49-99 | one walk over the list counts every blinker down and toggles and paints exactly those that ran out |
| Keyboard.LetterKeys | student-distrib/keyboard.c:105-122 | letter keys give lower-case letters, and capitals 32 below them |
| Keyboard.LetterRows | student-distrib/keyboard.c:105-122 | the three letter rows, in small and capital letters |
| Keyboard.NumberKeys | student-distrib/keyboard.c:99-104 | the digits, and with shift their symbols, whatever caps lock says |
| Keyboard.PunctuationKeys | student-distrib/keyboard.c:123-188 | the eleven punctuation keys without and with shift |
| Keyboard.OtherKeys | student-distrib/keyboard.c:199-208 | tab, space and Enter, and exactly which keys stand for no character |
| Keyboard.FlagsFollowHistory | student-distrib/keyboard.c:46-79 | shift, ctrl and alt are the last press or release, caps lock the parity of presses, so letter case is shift xor that parity |
| Keyboard.PrefixFollowsHistory | student-distrib/keyboard.c:46-48 | the E0 flag is whether the last key was E0 |
| Keyboard.BufferIsLine | student-distrib/keyboard.c:189-219 | the key buffer equals the push and pop edit of the translated characters throughout a history if and only if the edited line never exceeds 128 bytes |
| Keyboard.KeyboardsAreIndependent | student-distrib/keyboard.c:44 | for every interleaving of keys, switches and reads each terminal's keyboard is the run on what that terminal received |
| Keyboard.LineDiscipline | student-distrib/terminal.c:51-72 | in such a run a terminal whose line fits holds the edited line, and a read of n bytes takes min(n, length) of it, or all of it for a negative n |
| Keyboard.DownUntilReleased | student-distrib/keyboard.c:50-68 | from any state with shift, ctrl or alt down, that flag stays set if and only if no release reaches the terminal after the last press that does |
| Keyboard.FlagStaysDown | student-distrib/keyboard.c:44-68 | the same for each of the three terminals under every interleaving of keys, switches and reads |
| Keyboard.FlagDisagrees | student-distrib/keyboard.c:44-68 | a terminal's flag disagrees with the key if and only if the last press or release of that key came while another terminal was displayed and was not what the flag already said |
| Keyboard.LeftDown | student-distrib/keyboard.c:85-98 | a terminal left with a modifier down keeps the flag until an event of that key comes while it is displayed, so the flag is wrong exactly while the key is up |
| Keyboard.AltStaysDown | student-distrib/keyboard.c:90-94 | the usual case: Alt and F2 pressed on terminal 0, Alt released on terminal 1 |
| Keyboard.FunctionKeys | student-distrib/keyboard.c:85-98 | Alt with F1, F2 or F3 displays terminal 0, 1 or 2, whichever was displayed, and no other event changes the displayed terminal |
| Keyboard.DisplayedIsLastSwitch | student-distrib/keyboard.c:85-98 | after every run of keys and reads the displayed terminal is that of the last function key pressed with Alt down on the terminal displayed then |
| KeyEffects.PressKeepsOk | student-distrib/keyboard.c:81-98 | a key keeps the keyboards and the display on the same terminal and every cursor in range if and only if what it echoes is safe at the displayed terminal's cursor |
| KeyEffects.ClearThenBackspace | student-distrib/keyboard.c:81-84 | an unsafe echo can be typed: with a character in the buffer, ctrl down and `runon` set on the displayed terminal, whose process runs, Ctrl-L keeps every cursor in range and the Backspace after it writes two cells in front of the page |
| KeyEffects.OneScreenChanges | student-distrib/keyboard.c:81-98 | a key changes at most one logical screen: the displayed terminal's, or with Ctrl-L that of the process that happens to run |
| KeyEffects.ClearKeyClearsWhatIsSeen | student-distrib/lib.c:21-36 | Ctrl-L blanks the page the user sees if and only if the running process belongs to the displayed terminal, or the page was blank |
| Keyboard.LineBuffer.UpdateFlags | student-distrib/keyboard.c:46-79 | the flag updates, case by case, including the E0 prefix |
| Keyboard.LineBuffer.Translate | student-distrib/keyboard.c:81-219 | the translated character is echoed and stored, a full buffer gets its last byte overwritten, backspace drops one character |
| Keyboard.LineBuffer.KeyboardHandler | student-distrib/keyboard.c:36-228 | the handler's updates of one terminal's flags and buffer are one step of the keyboard machine |
| Keyboard.LineBuffer.TermRead | student-distrib/terminal.c:51-72 | the first min(n, length) bytes are copied, the count returned, the buffer emptied and Enter awaited again |
| LineEditing.PressEdits | student-distrib/keyboard.c:81-219 | one key press, whichever terminal is displayed and whichever process runs, wherever the cursor is: a terminal's screen stays the one that echoing just its edited line would give if and only if the key does not clear it with something in front of the cursor, rub out a character whose echo scrolled the screen, or overflow the buffer, or, after an earlier clear, rub out what was typed before that |
| LineEditing.ScreenShowsEditedLine | student-distrib/keyboard.c:81-219 | over every session of keys other than Enter and tab on all three terminals, from any screen with blanks from the cursor on, the screen is throughout the one that echoing just the edited line would give, if and only if no Ctrl-L comes, while the terminal's own process runs, with something in front of the cursor, no Backspace rubs out a character whose echo scrolled the screen, and nothing is typed into a full buffer |
| LineEditing.ClearStartsAfresh | student-distrib/keyboard.c:82-84 | after such a clear the screen is blank and shows what is typed from then on, while the key buffer keeps what was typed before |
| LineEditing.ClearedLineIsLost | student-distrib/keyboard.c:82-84 | a q and then Ctrl-L: the q is in the buffer, the screen is blank |
| LineEditing.RubbedLetterStays | student-distrib/lib.c:304-314 | a q in the last column of the last row, with `runon` clear, and then Backspace: the buffer is empty, the q is at the end of the row above and the cursor in column 0 |
| Numerals.NumeralRoundTrip | student-distrib/lib.c:396-426 | in every radix from 2 to 36 the numeral has the number as its positional value and no leading zero |
| Numerals.CanonicalIsNumeral | student-distrib/lib.c:396-426 | every canonical digit string is the numeral of its value |
| Numerals.NumeralFits | student-distrib/lib.c:91-113 | a 32-bit number has at most 32 digits, 8 in hexadecimal, so it fits the conversion buffers |
| Numerals.Strrev | student-distrib/lib.c:432-445 | exact in-place reversal of the C string, every other byte of the buffer stays |
| Numerals.Itoa | student-distrib/lib.c:396-426 | terminates with the NUL-terminated numeral at the pointer, and leaves what lies before it |
| Numerals.PaddedIsEightDigits | student-distrib/lib.c:95-107 | `%#x` prints exactly eight hexadecimal digits that denote the argument |
| Numerals.DecimalRoundTrip | student-distrib/lib.c:121-133 | `%d` denotes its argument for every 32-bit integer, also the least one, whose negation wraps |
| Numerals.DecimalIsCanonical | student-distrib/lib.c:121-133 | `%d` prints a minus only for negative numbers, and no leading zero |
| Numerals.Digits | student-distrib/lib.c:396-397 | the digits are 0 to 9 and A to Z |
| Numerals.FormatHex | student-distrib/lib.c:95-107 | the numeral at index 8 and the zeros before it make up the padded text |
| Numerals.FormatDecimal | student-distrib/lib.c:121-133 | the sign and the numeral behind it make up the signed text |
| Numerals.FormatUnsigned | student-distrib/lib.c:111-118 | `%u` and `%x` print the numeral |
| KernelState.DoKeepsMemory | student-distrib/system_execute.c:188-215 | every step, whichever terminal is displayed, keeps each terminal's screen on its own page, the base shells alive, and the page tables mapping the running process |

## Left out

- Port I/O, PIC, PIT, IDT, GDT, multiboot and boot assembly, and `update_cursor`, which only writes ports.
- Interrupts that arrive in the middle of a system call: a system call, a tick and a key are each one step.
- The stack switching of execute, halt and schedule: saved stack frames are opaque numbers, and `tss.esp0`, which a halt does not restore to the stack base, is not modelled.
- The very first execute, from the kernel's own pcb (student-distrib/kernel.c:188): the boot sequence is modelled from the state it leaves, `KernelState.FirstShell`, on. The third tick only switches back to terminal 0.
- KernelDriver.Machine.Halt: does not model a halt of shell 0, which has no parent; a base shell that halts spins until it is restarted (student-distrib/system_execute.c:298-301).
- KernelDriver.Machine.Execute: assumes an executable whose blocks are on the disk; an image that cannot be loaded (student-distrib/system_execute.c:128) leaves the child's pages mapped and the child the top process; `KernelDriver.Machine.LoadImage` assumes the same. `curr_pid` above 5 cannot occur, so the shell limit at line 85 is dead code.
- KernelDriver.Machine.CreatePcb: does not record my_pid, esp0 and ss0, which nothing reads.
- Command parsing, program arguments, entry points, and the messages execute prints.
- KernelDriver.Machine.SystemClose: does not take descriptor 8, which the range check lets through to a slot past the array; nor does `KernelDriver.Machine.SystemRead`, which leaves descriptor 0 to `Keyboard.LineBuffer.TermRead`.
- KernelDriver.Machine.SystemOpen: does not open the RTC; the RTC driver is not part of this model.
- KernelDriver.Machine.Fread: takes the reads that `FileSystem.ReadData` takes, as does `KernelDriver.Machine.SystemRead`.
- FileSystem.CountIsClipped: covers those reads too.
- FileSystem.ReadData: does not model long reads from offsets above 4096, where the length of the copy becomes negative as the offset into the block is not reduced, nor copies from memory behind the disk image.
- FileSystem.ReadUntilZeroIsExact: covers files within one block.
- Blink.BlinkerShows: starts from an ADD at a location without a blinker; where there are more, they share the cell and `Blink.RunAgesStack` says what each of them does.
- LineEditing.ScreenShowsEditedLine: covers a line while it is edited: no Enter, and no typed tab.
- Inline-assembly `memset` and `memcpy`: byte loops.
- Page attributes other than present, user, size and address.
- Grep.ScanFile: assumes what `Grep.DoOneFile` does.
- Grep.DoOneFile: assumes a file without NUL bytes and `data[1024]` not a newline at the start, as a NUL ends the C string that is printed and the byte past the buffer is read before it is written; reads are ideal, short only at end of file, and a failing close is not modelled.
- The kernel's own `strlen` has the loop of `ece391_strlen` and is not modelled twice.
- `ece391_itoa` and `ece391_strrev`, which repeat `itoa` and `strrev`.
- `mp1_ioctl_find`, which copies the found structure to user memory, and failing copies from user memory.
- Keyboard.LineBuffer.KeyboardHandler: reads the uninitialised `outchar` of the command and empty-backspace paths as no character.
- Structures in arrays are values that are replaced as a whole; the fields of `pcb_t` and `top_pid` are one array each.
- `schedule_counter` and the caps press count are unbounded, so their overflow after 2^31 steps is not modelled.
- Signals, `getargs`, and the user programs other than grep and fish.
