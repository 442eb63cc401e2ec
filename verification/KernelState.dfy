/** The kernel's process-related state as one step machine: the process table with the page
    tables, the terminals' video pointers, the file arrays and the saved stack frames. */
module KernelState {
  import opened Descriptors
  import opened Paging
  import opened ProcessTable
  import T = Terminals

  /** Stack frames (ebp and esp) are opaque: `kFrame` is my_k_ebp/esp, `parentFrame` parent_ebp/esp. */
  datatype Kernel = Kernel(
    procs: Procs, currTerm: int, videoMem: seq<int>, mmu: Mmu,
    files: seq<FileTable>, kFrame: seq<int>, parentFrame: seq<int>)

  /** What the file system answers for a program name; the header read returns `header` bytes. */
  datatype Program = NotFound | NotExecutable(inode: nat, header: nat) | Executable(inode: nat, header: nat)

  datatype Op =
    | Exec(prog: Program, frame: int)
    | Exit
    | Schedule(frame: int)
    | SwitchTo(n: Term)
    | Vidmap(screenStart: int)
    | Files(fdOp: FdOp)

  predicate KernelShape(k: Kernel) {
    && Shape(k.procs) && 0 <= k.currTerm < MAX_TERM && |k.videoMem| == MAX_TERM && Paging.Shaped(k.mmu)
    && |k.files| == |k.kFrame| == |k.parentFrame| == MAX_PID
  }

  function Current(k: Kernel): Pid
    requires KernelShape(k)
  {
    k.procs.currPid
  }

  /** The address of the running process's screen. */
  function Screen(k: Kernel): int
    requires KernelShape(k)
  {
    k.videoMem[Home(k.procs)]
  }

  predicate Loads(k: Kernel, prog: Program)
    requires KernelShape(k)
  {
    prog.Executable? && FreeSlot(k.files[Current(k)], FILE_START_IDX) < FILE_ARRAY_SIZE
  }

  /** setup_paging(pid), once the process table is up to date. */
  function SetupPaging(k: Kernel, pid: int): Mmu
    requires KernelShape(k) && -1 <= pid < MAX_PID
  {
    if pid == -1 then UnmapProcess(k.mmu)
    else MapProcess(k.mmu, pid, k.videoMem[k.procs.pidToTerm[pid]])
  }

  /** The caller's file array after execute has opened, read and closed the program file. */
  function ProbedFiles(k: Kernel, prog: Program): seq<FileTable>
    requires KernelShape(k)
  {
    if prog.NotFound? then k.files
    else k.files[Current(k) := Probe(k.files[Current(k)], prog.inode, prog.header)]
  }

  /** The running process's file array replaced. */
  function WithFiles(k: Kernel, table: FileTable): Kernel
    requires KernelShape(k)
  {
    k.(files := k.files[Current(k) := table])
  }

  /** `child` becomes the running process, on the displayed terminal. */
  function Launch(k: Kernel, child: Pid, frame: int): Kernel
    requires KernelShape(k)
  {
    k.(procs := k.procs.(
         topPid := k.procs.topPid[k.currTerm := child], parentPid := k.procs.parentPid[child := Current(k)],
         currPid := child, freePid := k.procs.freePid[child := false]),
       mmu := SetupPaging(k, child),
       files := k.files[child := WithStdio(k.files[child])],
       parentFrame := k.parentFrame[child := frame],
       kFrame := k.kFrame[Current(k) := frame])
  }

  /** system_execute: no free pid, no such file or slot, not an executable, or a new process. */
  function ExecStep(k: Kernel, prog: Program, frame: int): Kernel
    requires KernelShape(k)
  {
    var child := Child(k.procs);
    if child == MAX_PID then k
    else
      var homed := k.(procs := k.procs.(pidToTerm := k.procs.pidToTerm[child := k.currTerm]),
                      files := ProbedFiles(k, prog));
      if Loads(k, prog) then Launch(homed, child, frame) else homed
  }

  function ExitStep(k: Kernel): Kernel
    requires KernelShape(k) && HasParent(k.procs, Halt)
  {
    var p := Current(k);
    k.(procs := Step(k.procs, Halt), files := k.files[p := CloseAll(k.files[p])],
       mmu := SetupPaging(k, k.procs.parentPid[p]))
  }

  function ScheduleStep(k: Kernel, frame: int): Kernel
    requires KernelShape(k)
  {
    var k' := k.(procs := Step(k.procs, Tick), kFrame := k.kFrame[Current(k) := frame]);
    k'.(mmu := SetupPaging(k, k'.procs.currPid))
  }

  /** The two video_mem pointers after a switch from `c` to `n`. */
  function Retarget(videoMem: seq<int>, c: Term, n: Term): seq<int>
    requires |videoMem| == MAX_TERM
  {
    videoMem[c := T.VIDEO + T.FOURKB * (c + 1)][n := T.VIDEO]
  }

  function SwitchStep(k: Kernel, n: Term): Kernel
    requires KernelShape(k)
  {
    if n == k.currTerm then k
    else
      var k' := k.(videoMem := Retarget(k.videoMem, k.currTerm, n), currTerm := n);
      k'.(mmu := RetargetVidmap(k.mmu, Screen(k')))
  }

  function VidmapStep(k: Kernel, screenStart: int): Kernel
    requires KernelShape(k)
  {
    if screenStart < MB_128 || screenStart >= MB_132 then k else k.(mmu := MapVideo(k.mmu, Screen(k)))
  }

  /** Base shells do not halt; everything else may happen at any time. */
  predicate Allowed(k: Kernel, op: Op)
    requires KernelShape(k)
  {
    op.Exit? ==> k.procs.currPid >= MAX_TERM && HasParent(k.procs, Halt)
  }

  function Do(k: Kernel, op: Op): Kernel
    requires KernelShape(k) && (op.Exit? ==> HasParent(k.procs, Halt))
  {
    match op
    case Exec(prog, frame) => ExecStep(k, prog, frame)
    case Exit => ExitStep(k)
    case Schedule(frame) => ScheduleStep(k, frame)
    case SwitchTo(n) => SwitchStep(k, n)
    case Vidmap(screenStart) => VidmapStep(k, screenStart)
    case Files(fdOp) => WithFiles(k, FdStep(k.files[Current(k)], fdOp))
  }

  lemma LaunchKeepsShape(k: Kernel, child: Pid, frame: int)
    requires KernelShape(k)
    ensures KernelShape(Launch(k, child, frame))
  {
  }

  lemma ScheduleKeepsShape(k: Kernel, frame: int)
    requires KernelShape(k)
    ensures KernelShape(ScheduleStep(k, frame))
  {
  }

  lemma ExitKeepsShape(k: Kernel)
    requires KernelShape(k) && HasParent(k.procs, Halt)
    ensures KernelShape(ExitStep(k))
  {
  }

  // -------------------------------------------------------- memory, whatever is displayed

  predicate IsVideoPage(addr: int) {
    T.VIDEO <= addr <= T.VIDEO + 3 * T.FOURKB && addr % T.FOURKB == 0
  }

  /** The page that the vidmap page-table entry points to. */
  function VidmapPage(k: Kernel): int
    requires KernelShape(k)
  {
    k.mmu.table1[0].address20 * Paging.FOUR_KB
  }

  /** Terminals own their pages, and the page tables map the running process and some video page. */
  ghost predicate PagesInv(k: Kernel)
    requires KernelShape(k)
  {
    && (forall t: Term :: k.videoMem[t] == T.HomePage(t, k.currTerm))
    && IsVideoPage(VidmapPage(k)) && Maps(k.mmu, Current(k), VidmapPage(k))
  }

  /** The base shells live, and every other process has a parent. */
  ghost predicate ShellsLive(procs: Procs)
    requires Shape(procs)
  {
    && (forall t: Term :: !procs.freePid[t])
    && (forall p: Pid :: p >= MAX_TERM ==> procs.parentPid[p] >= 0)
  }

  ghost predicate MemoryInv(k: Kernel)
    requires KernelShape(k)
  {
    PagesInv(k) && ShellsLive(k.procs)
  }

  /** The vidmap page is the running process's screen. */
  predicate Follows(k: Kernel)
    requires KernelShape(k)
  {
    VidmapPage(k) == Screen(k)
  }

  /** A failing execute by a process whose own pid is free, while another terminal is displayed:
      it moves the process to that terminal and leaves the page tables as they are. */
  predicate Strays(k: Kernel, op: Op)
    requires KernelShape(k)
  {
    op.Exec? && Child(k.procs) == Current(k) && !Loads(k, op.prog) && k.currTerm != Home(k.procs)
  }

  lemma MapsScreen(k: Kernel, pid: Pid, t: Term)
    requires KernelShape(k) && PagesInv(k)
    ensures IsVideoPage(k.videoMem[t])
    ensures var m := MapProcess(k.mmu, pid, k.videoMem[t]);
      Maps(m, pid, k.videoMem[t]) && m.table1[0].address20 * Paging.FOUR_KB == k.videoMem[t]
  {
    MapProcessMaps(k.mmu, Current(k), VidmapPage(k), pid, k.videoMem[t]);
  }

  lemma ExecKeepsPages(k: Kernel, prog: Program, frame: int)
    requires KernelShape(k) && PagesInv(k)
    ensures KernelShape(ExecStep(k, prog, frame)) && PagesInv(ExecStep(k, prog, frame))
    ensures Child(k.procs) < MAX_PID && Loads(k, prog) ==> Follows(ExecStep(k, prog, frame))
  {
    if Child(k.procs) < MAX_PID {
      MapsScreen(k, Child(k.procs), k.currTerm);
    }
  }

  lemma SwitchKeepsPages(k: Kernel, n: Term)
    requires KernelShape(k) && PagesInv(k)
    ensures KernelShape(SwitchStep(k, n)) && PagesInv(SwitchStep(k, n))
    ensures n != k.currTerm ==> Follows(SwitchStep(k, n))
  {
    if n != k.currTerm {
      RetargetMaps(k.mmu, Current(k), VidmapPage(k), Screen(SwitchStep(k, n)));
    }
  }

  lemma DoKeepsPages(k: Kernel, op: Op)
    requires KernelShape(k) && PagesInv(k) && Allowed(k, op)
    ensures KernelShape(Do(k, op)) && PagesInv(Do(k, op))
  {
    match op
    case Exec(prog, frame) => ExecKeepsPages(k, prog, frame);
    case Exit => MapsScreen(k, k.procs.parentPid[Current(k)], k.procs.pidToTerm[k.procs.parentPid[Current(k)]]);
    case Schedule(frame) => MapsScreen(k, Current(ScheduleStep(k, frame)), Home(Step(k.procs, Tick)));
    case SwitchTo(n) => SwitchKeepsPages(k, n);
    case Vidmap(screenStart) =>
      MapsScreen(k, Current(k), Home(k.procs));
      MapVideoMaps(k.mmu, Current(k), VidmapPage(k), Screen(k));
    case Files(fdOp) =>
  }

  lemma DoKeepsShells(k: Kernel, op: Op)
    requires KernelShape(k) && ShellsLive(k.procs) && Allowed(k, op) && KernelShape(Do(k, op))
    ensures ShellsLive(Do(k, op).procs)
  {
  }

  /** Every step keeps the memory invariant, whichever terminal is displayed. */
  lemma DoKeepsMemory(k: Kernel, op: Op)
    requires KernelShape(k) && MemoryInv(k) && Allowed(k, op)
    ensures KernelShape(Do(k, op)) && MemoryInv(Do(k, op))
  {
    DoKeepsPages(k, op);
    DoKeepsShells(k, op);
  }

  /** A started program, a halt, a tick, a switch and a vidmap point the vidmap page at the screen. */
  predicate Refreshes(k: Kernel, op: Op)
    requires KernelShape(k)
  {
    match op
    case Exec(prog, _) => Child(k.procs) < MAX_PID && Loads(k, prog)
    case SwitchTo(n) => n != k.currTerm
    case Vidmap(screenStart) => MB_128 <= screenStart < MB_132
    case Files(_) => false
    case _ => true
  }

  /** What each step does to that: it stays lost or kept, except where it is refreshed, and it
      gets lost exactly when the step strays. */
  lemma StepFollows(k: Kernel, op: Op)
    requires KernelShape(k) && MemoryInv(k) && Allowed(k, op) && KernelShape(Do(k, op))
    ensures Refreshes(k, op) ==> Follows(Do(k, op))
    ensures Follows(k) ==> (Follows(Do(k, op)) <==> !Strays(k, op))
  {
    match op
    case Exec(prog, frame) => ExecKeepsPages(k, prog, frame);
    case Exit => MapsScreen(k, k.procs.parentPid[Current(k)], k.procs.pidToTerm[k.procs.parentPid[Current(k)]]);
    case Schedule(frame) => MapsScreen(k, Current(ScheduleStep(k, frame)), Home(Step(k.procs, Tick)));
    case SwitchTo(n) => SwitchKeepsPages(k, n);
    case Vidmap(screenStart) => MapsScreen(k, Current(k), Home(k.procs));
    case Files(fdOp) =>
  }

  // ------------------------------------------------------- descriptors, whatever is displayed

  /** Free pids have closed descriptors; live ones have stdin and stdout. */
  ghost predicate FilesInv(k: Kernel)
    requires KernelShape(k)
  {
    forall p: Pid :: if k.procs.freePid[p] then Clean(k.files[p]) else HasStdio(k.files[p])
  }

  /** A process that runs although its pid is free opens a file. */
  predicate Litters(k: Kernel, op: Op)
    requires KernelShape(k)
  {
    op.Files? && op.fdOp.OpenOp? && k.procs.freePid[Current(k)]
  }

  lemma ProbeKeepsFiles(k: Kernel, prog: Program)
    requires KernelShape(k) && FilesInv(k)
    ensures FilesInv(k.(files := ProbedFiles(k, prog)))
  {
    if !prog.NotFound? {
      ProbeKeepsOpenFiles(k.files[Current(k)], prog.inode, prog.header);
    }
  }

  lemma ExecKeepsFiles(k: Kernel, prog: Program, frame: int)
    requires KernelShape(k) && FilesInv(k) && KernelShape(ExecStep(k, prog, frame))
    ensures FilesInv(ExecStep(k, prog, frame))
  {
    ProbeKeepsFiles(k, prog);
    var files := ProbedFiles(k, prog);
    assert forall p: Pid :: if k.procs.freePid[p] then Clean(files[p]) else HasStdio(files[p]);
  }

  /** Free pids stay clean through every step but that one. */
  lemma DoKeepsFiles(k: Kernel, op: Op)
    requires KernelShape(k) && FilesInv(k) && Allowed(k, op) && KernelShape(Do(k, op))
    ensures FilesInv(Do(k, op)) <==> !Litters(k, op)
  {
    match op
    case Exec(prog, frame) => ExecKeepsFiles(k, prog, frame);
    case Files(fdOp) =>
      var p := Current(k);
      if k.procs.freePid[p] {
        FdStepKeepsClean(k.files[p], fdOp);
      } else {
        FdStepKeepsStdio(k.files[p], fdOp);
      }
      assert Do(k, op).files[p] == FdStep(k.files[p], fdOp);
    case _ =>
  }

  // ------------------------------------------------------------------------- booting

  /** The kernel once its boot code has started the shell of terminal 0 from the kernel's own pcb:
      every other pid is free with a zeroed pcb. */
  function FirstShell(base0: int, base1: int, frame: int): Kernel
    requires base0 % Paging.FOUR_KB == 0 && base1 % Paging.FOUR_KB == 0 && base0 != base1
  {
    var closed: FileTable := seq(FILE_ARRAY_SIZE, _ => Fd(NoKind, 0, 0, false));
    Kernel(Procs([false, true, true, true, true, true], [-1, 0, 0, 0, 0, 0], [0, 0, 0, 0, 0, 0], [0, 0, 0], 0, 2),
           0, seq(MAX_TERM, t requires 0 <= t < MAX_TERM => T.HomePage(t, 0)),
           MapProcess(InitialMmu(base0, base1), 0, T.VIDEO),
           [WithStdio(closed), closed, closed, closed, closed, closed], [0, 0, 0, 0, 0, 0], [frame, 0, 0, 0, 0, 0])
  }

  /** The first two ticks each switch to a terminal and execute a shell on it, from the last shell. */
  function SecondShell(base0: int, base1: int, shell: Program, frame: int): Kernel
    requires base0 % Paging.FOUR_KB == 0 && base1 % Paging.FOUR_KB == 0 && base0 != base1
  {
    ExecStep(SwitchStep(FirstShell(base0, base1, frame), 1), shell, frame)
  }

  /** The process table after the first of these ticks. */
  const TWO_SHELLS: Procs :=
    Procs([false, false, true, true, true, true], [-1, 0, 0, 0, 0, 0], [0, 1, 0, 0, 0, 0], [0, 1, 0], 1, 2)

  lemma ThirdShell()
    ensures Shape(TWO_SHELLS) && Child(TWO_SHELLS) < MAX_PID
    ensures Step(TWO_SHELLS, Execute(2, true)) == BOOTED && ShellsLive(BOOTED)
  {
  }

  lemma FirstShellInv(base0: int, base1: int, frame: int)
    requires base0 % Paging.FOUR_KB == 0 && base1 % Paging.FOUR_KB == 0 && base0 != base1
    ensures var k := FirstShell(base0, base1, frame);
      KernelShape(k) && PagesInv(k) && FilesInv(k)
  {
    InitialMaps(base0, base1, 0, T.VIDEO);
  }

  lemma SecondShellInv(base0: int, base1: int, shell: Program, frame: int)
    requires base0 % Paging.FOUR_KB == 0 && base1 % Paging.FOUR_KB == 0 && base0 != base1 && shell.Executable?
    ensures var k := SecondShell(base0, base1, shell, frame);
      && KernelShape(k) && PagesInv(k) && FilesInv(k) && k.currTerm == 1
      && k.procs == TWO_SHELLS && k.kFrame[0] == frame
      && forall p: Pid :: Clean(k.files[p])
  {
    FirstShellInv(base0, base1, frame);
    var k := FirstShell(base0, base1, frame);
    SwitchKeepsPages(k, 1);
    StartsShell(SwitchStep(k, 1), shell, frame);
  }

  /** A shell is started on the displayed terminal by a process with no open files. */
  lemma StartsShell(k: Kernel, shell: Program, frame: int)
    requires KernelShape(k) && PagesInv(k) && FilesInv(k) && Child(k.procs) < MAX_PID && shell.Executable?
    requires forall p: Pid :: Clean(k.files[p])
    ensures Loads(k, shell)
    ensures var k' := ExecStep(k, shell, frame);
      && KernelShape(k') && PagesInv(k') && FilesInv(k') && Follows(k')
      && k'.procs == Step(k.procs, Execute(k.currTerm, true)) && k'.currTerm == k.currTerm
      && k'.kFrame == k.kFrame[Current(k) := frame]
      && forall p: Pid :: Clean(k'.files[p])
  {
    ExecKeepsPages(k, shell, frame);
    ExecKeepsFiles(k, shell, frame);
    ProbeKeepsOpenFiles(k.files[Current(k)], shell.inode, shell.header);
  }

  /** The kernel with its three shells running. */
  function Booted(base0: int, base1: int, shell: Program, frame: int): (k: Kernel)
    requires base0 % Paging.FOUR_KB == 0 && base1 % Paging.FOUR_KB == 0 && base0 != base1 && shell.Executable?
  {
    SecondShellInv(base0, base1, shell, frame);
    ExecStep(SwitchStep(SecondShell(base0, base1, shell, frame), 2), shell, frame)
  }

  /** The boot sequence ends with the shells as processes 0, 1 and 2, each on top of its terminal, in
      a state that satisfies the invariants. */
  lemma BootedMemory(base0: int, base1: int, shell: Program, frame: int)
    requires base0 % Paging.FOUR_KB == 0 && base1 % Paging.FOUR_KB == 0 && base0 != base1 && shell.Executable?
    ensures var k := Booted(base0, base1, shell, frame);
      && KernelShape(k) && MemoryInv(k) && Follows(k) && FilesInv(k) && k.procs == BOOTED && k.currTerm == 2
      && k.kFrame[0] == frame && k.kFrame[1] == frame
      && forall p: Pid :: Clean(k.files[p])
  {
    SecondShellInv(base0, base1, shell, frame);
    var k := SecondShell(base0, base1, shell, frame);
    SwitchKeepsPages(k, 2);
    ThirdShell();
    StartsShell(SwitchStep(k, 2), shell, frame);
  }

  // ----------------------------------------------------------------------------- runs

  ghost predicate KernelCanRun(k: Kernel, ops: seq<Op>)
    decreases |ops|
  {
    KernelShape(k) && (ops == [] || (Allowed(k, ops[0]) && KernelCanRun(Do(k, ops[0]), ops[1..])))
  }

  ghost function KernelRun(k: Kernel, ops: seq<Op>): (r: Kernel)
    requires KernelCanRun(k, ops)
    ensures KernelShape(r)
    decreases |ops|
  {
    if ops == [] then k else KernelRun(Do(k, ops[0]), ops[1..])
  }

  lemma {:induction false} RunKeepsMemory(k: Kernel, ops: seq<Op>)
    requires KernelCanRun(k, ops) && MemoryInv(k)
    ensures MemoryInv(KernelRun(k, ops))
    decreases |ops|
  {
    if ops != [] {
      DoKeepsMemory(k, ops[0]);
      RunKeepsMemory(Do(k, ops[0]), ops[1..]);
    }
  }

  /** A vidmap that succeeds. */
  predicate MapsVideo(op: Op) {
    op.Vidmap? && MB_128 <= op.screenStart < MB_132
  }

  ghost predicate Vidmapped(ops: seq<Op>) {
    exists i :: 0 <= i < |ops| && MapsVideo(ops[i])
  }

  predicate VideoPresent(k: Kernel)
    requires KernelShape(k)
  {
    k.mmu.dir[USER_VMEM_INDEX].p
  }

  /** Only a vidmap makes the vidmap page present, and nothing makes it absent again. */
  lemma StepVidmapped(k: Kernel, op: Op)
    requires KernelShape(k) && (op.Exit? ==> HasParent(k.procs, Halt)) && KernelShape(Do(k, op))
    ensures VideoPresent(Do(k, op)) <==> VideoPresent(k) || MapsVideo(op)
  {
  }

  lemma {:induction false} RunVidmapped(k: Kernel, ops: seq<Op>)
    requires KernelCanRun(k, ops)
    ensures VideoPresent(KernelRun(k, ops)) <==> VideoPresent(k) || Vidmapped(ops)
    decreases |ops|
  {
    if ops != [] {
      StepVidmapped(k, ops[0]);
      RunVidmapped(Do(k, ops[0]), ops[1..]);
      VidmappedLater(ops);
    }
  }

  lemma VidmappedLater(ops: seq<Op>)
    requires ops != []
    ensures Vidmapped(ops) <==> MapsVideo(ops[0]) || Vidmapped(ops[1..])
  {
    if Vidmapped(ops[1..]) {
      var i :| 0 <= i < |ops[1..]| && MapsVideo(ops[1..][i]);
      assert MapsVideo(ops[i + 1]);
    }
    if Vidmapped(ops) && !MapsVideo(ops[0]) {
      var i :| 0 <= i < |ops| && MapsVideo(ops[i]);
      assert MapsVideo(ops[1..][i - 1]);
    }
  }

  /** After any run, whichever terminals were displayed, every linear address in either mode, for
      reads and writes, translates as stated: the program's 4 MB to the running process's frame, the
      vidmap page, from the first successful vidmap on, to one of the four video pages, the kernel and
      video mappings as they were set up, nothing else. */
  lemma AddressSpaceInvariant(k: Kernel, ops: seq<Op>, va: int, user: bool, write: bool)
    requires KernelCanRun(k, ops) && MemoryInv(k) && 0 <= va < ADDRESSES
    ensures var k' := KernelRun(k, ops);
      && Walk(k'.mmu, va, user, write) ==
           AddressSpace(Current(k'), VidmapPage(k'), VideoPresent(k) || Vidmapped(ops), va, user)
      && IsVideoPage(VidmapPage(k')) && Screen(k') == T.HomePage(Home(k'.procs), k'.currTerm)
  {
    RunKeepsMemory(k, ops);
    RunVidmapped(k, ops);
    var k' := KernelRun(k, ops);
    WalkIsAddressSpace(k'.mmu, Current(k'), VidmapPage(k'), va, user, write);
  }

  /** A successful vidmap gives the program its screen at 132 MB, to read and to write. */
  lemma VidmapGivesScreen(k: Kernel, screenStart: int, va: int, user: bool, write: bool)
    requires KernelShape(k) && MemoryInv(k) && MB_128 <= screenStart < MB_132
    requires MB_132 <= va < MB_132 + Paging.FOUR_KB
    ensures var k' := Do(k, Vidmap(screenStart));
      KernelShape(k') && Walk(k'.mmu, va, user, write) == To(Screen(k) + (va - MB_132))
  {
    var op := Vidmap(screenStart);
    DoKeepsMemory(k, op);
    StepFollows(k, op);
    StepVidmapped(k, op);
    var k' := Do(k, op);
    WalkIsAddressSpace(k'.mmu, Current(k'), VidmapPage(k'), va, user, write);
  }

  /** In every state of the run the vidmap page is the running process's screen. */
  ghost predicate AlwaysFollows(k: Kernel, ops: seq<Op>)
    requires KernelCanRun(k, ops)
    decreases |ops|
  {
    Follows(k) && (ops == [] || AlwaysFollows(Do(k, ops[0]), ops[1..]))
  }

  ghost predicate NeverStrays(k: Kernel, ops: seq<Op>)
    requires KernelCanRun(k, ops)
    decreases |ops|
  {
    ops == [] || (!Strays(k, ops[0]) && NeverStrays(Do(k, ops[0]), ops[1..]))
  }

  /** Throughout a run that starts so, the vidmap page is the page that holds the running
      process's screen if and only if no step of the run strays. */
  lemma {:induction false} VidmapFollows(k: Kernel, ops: seq<Op>)
    requires KernelCanRun(k, ops) && MemoryInv(k) && Follows(k)
    ensures AlwaysFollows(k, ops) <==> NeverStrays(k, ops)
    decreases |ops|
  {
    if ops != [] {
      DoKeepsMemory(k, ops[0]);
      StepFollows(k, ops[0]);
      if !Strays(k, ops[0]) {
        VidmapFollows(Do(k, ops[0]), ops[1..]);
      }
    }
  }

  lemma {:induction false} FollowsAtEnd(k: Kernel, ops: seq<Op>)
    requires KernelCanRun(k, ops) && AlwaysFollows(k, ops)
    ensures Follows(KernelRun(k, ops))
    decreases |ops|
  {
    if ops != [] {
      FollowsAtEnd(Do(k, ops[0]), ops[1..]);
    }
  }

  /** Over every run of the booted kernel that never strays: until some process has made a successful
      vidmap every user access at 132 MB faults, and from then on it reaches the running process's screen. */
  lemma VidmapOverRuns(base0: int, base1: int, shell: Program, frame: int, ops: seq<Op>, va: int, write: bool)
    requires base0 % Paging.FOUR_KB == 0 && base1 % Paging.FOUR_KB == 0 && base0 != base1 && shell.Executable?
    requires MB_132 <= va < MB_132 + Paging.FOUR_KB
    requires var k := Booted(base0, base1, shell, frame); KernelCanRun(k, ops) && NeverStrays(k, ops)
    ensures var k' := KernelRun(Booted(base0, base1, shell, frame), ops);
      Walk(k'.mmu, va, true, write) == if Vidmapped(ops) then To(Screen(k') + (va - MB_132)) else Fault
  {
    var k := Booted(base0, base1, shell, frame);
    BootedMemory(base0, base1, shell, frame);
    BootedUnmapped(base0, base1, shell, frame);
    VidmapFollows(k, ops);
    FollowsAtEnd(k, ops);
    AddressSpaceInvariant(k, ops, va, true, write);
  }

  lemma BootedUnmapped(base0: int, base1: int, shell: Program, frame: int)
    requires base0 % Paging.FOUR_KB == 0 && base1 % Paging.FOUR_KB == 0 && base0 != base1 && shell.Executable?
    ensures var k := Booted(base0, base1, shell, frame);
      KernelShape(k) && !VideoPresent(k)
  {
    FirstShellInv(base0, base1, frame);
    SecondShellInv(base0, base1, shell, frame);
    BootedMemory(base0, base1, shell, frame);
    var k0, k1 := FirstShell(base0, base1, frame), SecondShell(base0, base1, shell, frame);
    SwitchKeepsPages(k0, 1);
    SwitchKeepsPages(k1, 2);
    StepVidmapped(k0, SwitchTo(1));
    StepVidmapped(SwitchStep(k0, 1), Exec(shell, frame));
    StepVidmapped(k1, SwitchTo(2));
    StepVidmapped(SwitchStep(k1, 2), Exec(shell, frame));
  }

  /** Isolation of two pids: what user programs of different pids can reach in any two reachable
      states is disjoint, but for the video page that the first one has mapped. */
  lemma UserMemoryIsolation(
    k: Kernel, ops: seq<Op>, k': Kernel, ops': seq<Op>, va: int, va': int, write: bool, write': bool)
    requires KernelCanRun(k, ops) && KernelCanRun(k', ops') && MemoryInv(k) && MemoryInv(k')
    requires Current(KernelRun(k, ops)) != Current(KernelRun(k', ops'))
    requires 0 <= va < ADDRESSES && 0 <= va' < ADDRESSES
    ensures var r, r' := KernelRun(k, ops), KernelRun(k', ops');
      var a := Walk(r.mmu, va, true, write);
      a.To? && a == Walk(r'.mmu, va', true, write') ==> VidmapPage(r) <= a.addr < VidmapPage(r) + Paging.FOUR_KB
  {
    AddressSpaceInvariant(k, ops, va, true, write);
    AddressSpaceInvariant(k', ops', va', true, write');
  }

  /** The program's 4 MB translate in the same way in both states. */
  ghost predicate SameProgram(k: Kernel, k': Kernel)
    requires KernelShape(k) && KernelShape(k')
  {
    forall va, user, write :: MB_128 <= va < MB_132 ==> Walk(k'.mmu, va, user, write) == Walk(k.mmu, va, user, write)
  }

  /** Whenever the same process runs, its program memory is the same. */
  lemma SameProgramMemory(k: Kernel, k': Kernel)
    requires KernelShape(k) && KernelShape(k') && MemoryInv(k) && MemoryInv(k') && Current(k) == Current(k')
    ensures SameProgram(k, k')
  {
    forall va, user, write | MB_128 <= va < MB_132
      ensures Walk(k'.mmu, va, user, write) == Walk(k.mmu, va, user, write)
    {
      WalkIsAddressSpace(k.mmu, Current(k), VidmapPage(k), va, user, write);
      WalkIsAddressSpace(k'.mmu, Current(k'), VidmapPage(k'), va, user, write);
    }
  }

  // ------------------------------------------------------------------ fresh processes

  ghost predicate NeverLitters(k: Kernel, ops: seq<Op>)
    requires KernelCanRun(k, ops)
    decreases |ops|
  {
    ops == [] || (!Litters(k, ops[0]) && NeverLitters(Do(k, ops[0]), ops[1..]))
  }

  ghost predicate AlwaysClean(k: Kernel, ops: seq<Op>)
    requires KernelCanRun(k, ops)
    decreases |ops|
  {
    FilesInv(k) && (ops == [] || AlwaysClean(Do(k, ops[0]), ops[1..]))
  }

  /** Throughout a run free pids keep closed descriptors if and only if no process opens a file
      while its pid is free. */
  lemma {:induction false} FreePidsStayClean(k: Kernel, ops: seq<Op>)
    requires KernelCanRun(k, ops) && FilesInv(k)
    ensures AlwaysClean(k, ops) <==> NeverLitters(k, ops)
    decreases |ops|
  {
    if ops != [] {
      DoKeepsFiles(k, ops[0]);
      if !Litters(k, ops[0]) {
        FreePidsStayClean(Do(k, ops[0]), ops[1..]);
      }
    }
  }

  /** A started process has exactly descriptors 0 and 1 open, although nothing clears the
      file array of a reused pid. */
  lemma StartsWithStdioOnly(k: Kernel, prog: Program, frame: int)
    requires KernelShape(k) && FilesInv(k) && Loads(k, prog) && Child(k.procs) < MAX_PID
    ensures var k' := ExecStep(k, prog, frame);
      && k'.procs.currPid == Child(k.procs) && |k'.files| == MAX_PID
      && OpenFiles(k'.files[Child(k.procs)]) == map[] && HasStdio(k'.files[Child(k.procs)])
  {
    var child := Child(k.procs);
    assert Clean(k.files[child]);
    ProbeKeepsOpenFiles(k.files[Current(k)], prog.inode, prog.header);
  }

  // --------------------------------------------------- what a process keeps meanwhile

  /** Process `p` does not halt during the run. */
  ghost predicate NeverHalts(k: Kernel, ops: seq<Op>, p: Pid)
    requires KernelCanRun(k, ops)
    decreases |ops|
  {
    ops == [] || ((ops[0].Exit? ==> Current(k) != p) && NeverHalts(Do(k, ops[0]), ops[1..], p))
  }

  /** Process `p` does not use its descriptors itself while it is running. */
  ghost predicate NoOwnFileOps(k: Kernel, ops: seq<Op>, p: Pid)
    requires KernelCanRun(k, ops)
    decreases |ops|
  {
    ops == [] || ((ops[0].Files? ==> Current(k) != p) && NoOwnFileOps(Do(k, ops[0]), ops[1..], p))
  }

  /** Nobody else's activity, nor a process's own executes, touches its open files. */
  lemma {:induction false} OpenFilesAreKept(k: Kernel, ops: seq<Op>, p: Pid)
    requires KernelCanRun(k, ops) && NeverHalts(k, ops, p) && NoOwnFileOps(k, ops, p) && !k.procs.freePid[p]
    ensures OpenFiles(KernelRun(k, ops).files[p]) == OpenFiles(k.files[p])
    decreases |ops|
  {
    if ops != [] {
      if ops[0].Exec? && !ops[0].prog.NotFound? {
        ProbeKeepsOpenFiles(k.files[Current(k)], ops[0].prog.inode, ops[0].prog.header);
      }
      OpenFilesAreKept(Do(k, ops[0]), ops[1..], p);
    }
  }

  /** A live process keeps the frame its halt will return to. */
  lemma {:induction false} ReturnFrameIsKept(k: Kernel, ops: seq<Op>, p: Pid)
    requires KernelCanRun(k, ops) && NeverHalts(k, ops, p) && !k.procs.freePid[p]
    ensures KernelRun(k, ops).parentFrame[p] == k.parentFrame[p]
    decreases |ops|
  {
    if ops != [] {
      ReturnFrameIsKept(Do(k, ops[0]), ops[1..], p);
    }
  }

  /** Process `p` is not running at any step of the run. */
  ghost predicate NotRunning(k: Kernel, ops: seq<Op>, p: Pid)
    requires KernelCanRun(k, ops)
    decreases |ops|
  {
    ops == [] || (Current(k) != p && NotRunning(Do(k, ops[0]), ops[1..], p))
  }

  lemma {:induction false} NotRunningIsIdle(k: Kernel, ops: seq<Op>, p: Pid)
    requires KernelCanRun(k, ops) && NotRunning(k, ops, p)
    ensures NeverHalts(k, ops, p) && NoOwnFileOps(k, ops, p)
    decreases |ops|
  {
    if ops != [] {
      NotRunningIsIdle(Do(k, ops[0]), ops[1..], p);
    }
  }

  /** The saved frame of a process that does not run is not touched. */
  lemma {:induction false} FrameIsKept(k: Kernel, ops: seq<Op>, p: Pid)
    requires KernelCanRun(k, ops) && NotRunning(k, ops, p)
    ensures KernelRun(k, ops).kFrame[p] == k.kFrame[p]
    decreases |ops|
  {
    if ops != [] {
      FrameIsKept(Do(k, ops[0]), ops[1..], p);
    }
  }

  /** A process that has started a program, whenever it gets the processor again without having run in
      between: it resumes on the frame that called execute, also where its program still lives. */
  lemma ResumesInExecute(k: Kernel, prog: Program, frame: int, ops: seq<Op>, frame': int)
    requires KernelShape(k) && Loads(k, prog) && Child(k.procs) < MAX_PID
    requires KernelCanRun(Do(k, Exec(prog, frame)), ops) && NotRunning(Do(k, Exec(prog, frame)), ops, Current(k))
    requires Current(KernelRun(Do(k, Exec(prog, frame)), ops)) != Current(k)
    ensures var k' := ScheduleStep(KernelRun(Do(k, Exec(prog, frame)), ops), frame');
      |k'.kFrame| == MAX_PID && k'.kFrame[Current(k)] == frame
  {
    FrameIsKept(Do(k, Exec(prog, frame)), ops, Current(k));
  }

  lemma Switched(k: Kernel, n: Term)
    requires KernelShape(k) && PagesInv(k)
    ensures var k' := SwitchStep(k, n);
      && KernelShape(k') && PagesInv(k') && k'.procs == k.procs && k'.kFrame == k.kFrame && k'.files == k.files
      && k'.currTerm == n
  {
    SwitchKeepsPages(k, n);
  }

  lemma Scheduled(k: Kernel, frame: int)
    requires KernelShape(k)
    ensures var k' := ScheduleStep(k, frame);
      KernelShape(k') && k'.procs == Step(k.procs, Tick) && k'.kFrame == k.kFrame[Current(k) := frame]
  {
    ScheduleKeepsShape(k, frame);
  }

  lemma BootTicks()
    ensures Shape(BOOTED) && Shape(Step(BOOTED, Tick)) && Child(BOOTED) == 3
    ensures BOOTED.currPid == 2 && Step(BOOTED, Tick).currPid == 0 && Step(Step(BOOTED, Tick), Tick).currPid == 1
  {
  }

  /** So do the first two shells, at the third and fourth tick: each has started the next shell and
      not run since. */
  lemma ShellsResume(base0: int, base1: int, shell: Program, frame: int, f: int, f': int)
    requires base0 % Paging.FOUR_KB == 0 && base1 % Paging.FOUR_KB == 0 && base0 != base1 && shell.Executable?
    ensures var k := Booted(base0, base1, shell, frame);
      && KernelShape(k) && KernelShape(SwitchStep(k, 0))
      && var k1 := ScheduleStep(SwitchStep(k, 0), f);
      && KernelShape(k1) && Current(k1) == 0 && k1.kFrame[0] == frame
      && var k2 := ScheduleStep(k1, f');
      && KernelShape(k2) && Current(k2) == 1 && k2.kFrame[1] == frame && k2.kFrame[0] == f'
  {
    BootedMemory(base0, base1, shell, frame);
    var k := Booted(base0, base1, shell, frame);
    Switched(k, 0);
    Scheduled(SwitchStep(k, 0), f);
    Scheduled(ScheduleStep(SwitchStep(k, 0), f), f');
    BootTicks();
  }

  /** Shell 2 has started program 3 on terminal 0, and three ticks later. */
  const SHELL_BLOCKED: Procs :=
    Procs([false, false, false, false, true, true], [-1, 0, 1, 2, 0, 0], [0, 1, 2, 0, 0, 0], [3, 1, 2], 3, 2)

  lemma BlockedTicks()
    ensures SHELL_BLOCKED == Step(BOOTED, Execute(0, true)) && Shape(SHELL_BLOCKED)
    ensures Step(SHELL_BLOCKED, Tick) == SHELL_BLOCKED.(scheduleCounter := 3)
    ensures Step(SHELL_BLOCKED.(scheduleCounter := 3), Tick) == SHELL_BLOCKED.(scheduleCounter := 4, currPid := 1)
    ensures Step(SHELL_BLOCKED.(scheduleCounter := 4, currPid := 1), Tick) ==
      SHELL_BLOCKED.(scheduleCounter := 5, currPid := 2)
  {
  }

  /** The kernel after ticks that interrupt the given frames. */
  function Ticked(k: Kernel, frames: seq<int>): (k': Kernel)
    requires KernelShape(k)
    ensures KernelShape(k')
    decreases |frames|
  {
    if frames == [] then k
    else
      ScheduleKeepsShape(k, frames[0]);
      Ticked(ScheduleStep(k, frames[0]), frames[1..])
  }

  lemma ThreeTicks(k: Kernel, f1: int, f2: int, f3: int)
    requires KernelShape(k) && k.procs == SHELL_BLOCKED
    ensures var k' := Ticked(k, [f1, f2, f3]);
      && k'.procs == SHELL_BLOCKED.(scheduleCounter := 5, currPid := 2) && k'.kFrame[2] == k.kFrame[2]
      && Current(k') == 2 && !k'.procs.freePid[3] && k'.procs.parentPid[3] == 2
  {
    BlockedTicks();
    Scheduled(k, f1);
    var k1 := ScheduleStep(k, f1);
    Scheduled(k1, f2);
    var k2 := ScheduleStep(k1, f2);
    Scheduled(k2, f3);
    assert [f1, f2, f3][1..] == [f2, f3] && [f2, f3][1..] == [f3] && [f3][1..] == [];
    assert Ticked(k2, [f3]) == Ticked(ScheduleStep(k2, f3), []);
    assert Ticked(k1, [f2, f3]) == Ticked(k2, [f3]);
  }

  lemma ShellStartsProgram(k: Kernel, prog: Program, f: int)
    requires KernelShape(k) && PagesInv(k) && FilesInv(k) && k.procs == BOOTED
    requires prog.Executable? && forall p: Pid :: Clean(k.files[p])
    ensures KernelShape(SwitchStep(k, 0))
    ensures var k1 := ExecStep(SwitchStep(k, 0), prog, f);
      KernelShape(k1) && k1.procs == SHELL_BLOCKED && k1.kFrame[2] == f
  {
    Switched(k, 0);
    BootTicks();
    BlockedTicks();
    StartsShell(SwitchStep(k, 0), prog, f);
  }

  /** And the blocked shell that gets scheduled because it started a program on another terminal:
      it returns from its execute while the program lives. */
  lemma BlockedShellResumes(k: Kernel, prog: Program, f: int, f1: int, f2: int, f3: int)
    requires KernelShape(k) && PagesInv(k) && FilesInv(k) && k.procs == BOOTED
    requires prog.Executable? && forall p: Pid :: Clean(k.files[p])
    ensures KernelShape(SwitchStep(k, 0)) && KernelShape(ExecStep(SwitchStep(k, 0), prog, f))
    ensures var k' := Ticked(ExecStep(SwitchStep(k, 0), prog, f), [f1, f2, f3]);
      Current(k') == 2 && k'.kFrame[2] == f && !k'.procs.freePid[3] && k'.procs.parentPid[3] == 2
  {
    ShellStartsProgram(k, prog, f);
    ThreeTicks(ExecStep(SwitchStep(k, 0), prog, f), f1, f2, f3);
  }
}
