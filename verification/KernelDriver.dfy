/** The kernel's tables as arrays, and the system calls that update them in place. The fields
    of pcb_t and top_pid are kept in one array each. */
module KernelDriver {
  import opened Bytes
  import opened Descriptors
  import opened KernelState
  import opened Paging
  import opened PagingDriver
  import opened ProcessTable
  import D = DisplayDriver
  import FS = FileSystem
  import T = Terminals

  function VideoMems(terms: seq<T.TermData>): (v: seq<int>)
    ensures |v| == |terms|
  {
    seq(|terms|, i requires 0 <= i < |terms| => terms[i].videoMem)
  }

  lemma SwitchRetargets(d: T.Display, n: Term)
    requires T.Valid(d) && n != d.currTerm
    ensures VideoMems(T.Switch(d, n).terms) == Retarget(VideoMems(d.terms), d.currTerm, n)
  {
  }

  const EXEC_SIZE := 40
  const DIR_FILE := 1
  const REG_FILE := 2

  predicate IsName(fname: seq<Byte>) {
    StringEnd(fname, 0) < |fname| || |fname| >= FS.FILE_NAME_SIZE
  }

  /** The directory entry that a name finds, or the number of entries. */
  function Found(d: FS.Disk, fname: seq<Byte>): (i: nat)
    ensures i <= |d.direntries|
  {
    FS.Lookup(d, FS.Wanted(fname), 0)
  }

  /** The first four bytes of an executable. */
  predicate HasMagic(header: seq<Byte>) {
    |header| >= 4 && header[..4] == [0x7f, 0x45, 0x4c, 0x46]
  }

  lemma HeaderIsReadable(d: FS.Disk, inode: nat)
    requires FS.WellFormed(d)
    ensures FS.Readable(d, inode, 0, EXEC_SIZE)
  {
  }

  /** What a name stands for; `stack` is what the header buffer holds before the read. */
  function ProgramOf(d: FS.Disk, fname: seq<Byte>, stack: seq<Byte>): (p: Program)
    requires FS.WellFormed(d) && |stack| == EXEC_SIZE
    ensures p.Executable? ==> p.inode < |d.inodes|
  {
    var i := Found(d, fname);
    if i == |d.direntries| then NotFound
    else
      var inode := d.direntries[i].inodeNum;
      HeaderIsReadable(d, inode);
      match FS.Read(d, inode, 0, EXEC_SIZE)
      case Failed => NotExecutable(inode, 0)
      case Bytes(header) =>
        if HasMagic(header + stack[|header|..]) then Executable(inode, |header|) else NotExecutable(inode, |header|)
  }

  /** Byte `k` of the header buffer after the read: the file's, or what was on the stack. */
  function HeaderByte(d: FS.Disk, ino: FS.Inode, stack: seq<Byte>, k: nat): Byte
    requires FS.WellFormed(d) && FS.ValidFile(d, ino) && k < |stack|
  {
    if k < ino.length then FS.Contents(d, ino)[k] else stack[k]
  }

  /** What the program test says of the flat file: a name stands for a program if and only if it is
      found and the first four bytes are 7f 45 4c 46, where a shorter file leaves the rest to whatever
      was on the stack. */
  lemma ProgramIsElf(d: FS.Disk, fname: seq<Byte>, stack: seq<Byte>)
    requires FS.WellFormed(d) && |stack| == EXEC_SIZE && Found(d, fname) < |d.direntries|
    requires var inode := d.direntries[Found(d, fname)].inodeNum;
      inode < |d.inodes| && FS.ValidFile(d, d.inodes[inode])
    ensures var p, inode := ProgramOf(d, fname, stack), d.direntries[Found(d, fname)].inodeNum;
      var ino := d.inodes[inode];
      && !p.NotFound? && p.inode == inode && p.header == Min(EXEC_SIZE, ino.length)
      && (p.Executable? <==>
            && HeaderByte(d, ino, stack, 0) == 0x7f && HeaderByte(d, ino, stack, 1) == 0x45
            && HeaderByte(d, ino, stack, 2) == 0x4c && HeaderByte(d, ino, stack, 3) == 0x46)
      && (ino.length >= 4 ==> (p.Executable? <==> FS.Contents(d, ino)[..4] == [0x7f, 0x45, 0x4c, 0x46]))
  {
    var inode := d.direntries[Found(d, fname)].inodeNum;
    var ino := d.inodes[inode];
    FS.ReadFromStart(d, inode, EXEC_SIZE);
    var header := FS.Contents(d, ino)[..Min(EXEC_SIZE, ino.length)];
    var buffer := header + stack[|header|..];
    assert forall k: nat :: k < 4 ==> buffer[k] == HeaderByte(d, ino, stack, k);
    FourBytes(buffer);
    if ino.length >= 4 {
      FourBytes(FS.Contents(d, ino));
    }
  }

  lemma FourBytes(s: seq<Byte>)
    requires |s| >= 4
    ensures s[..4] == [0x7f, 0x45, 0x4c, 0x46] <==> s[0] == 0x7f && s[1] == 0x45 && s[2] == 0x4c && s[3] == 0x46
  {
    assert s[..4] == [s[0], s[1], s[2], s[3]];
  }

  lemma NotFoundIsNoProgram(d: FS.Disk, fname: seq<Byte>, stack: seq<Byte>)
    requires FS.WellFormed(d) && |stack| == EXEC_SIZE
    ensures ProgramOf(d, fname, stack).NotFound? <==>
      forall i :: 0 <= i < |d.direntries| ==> FS.Name(d.direntries[i]) != FS.Wanted(fname)
  {
    var i := Found(d, fname);
    assert i < |d.direntries| ==> FS.Name(d.direntries[i]) == FS.Wanted(fname);
  }

  const SHELL_NAME: seq<Byte> := [115, 104, 101, 108, 108]
  const TEXT_NAME: seq<Byte> := [116, 101, 120, 116]

  function NameField(name: seq<Byte>): seq<Byte>
    requires |name| <= FS.FILE_NAME_SIZE
  {
    name + seq(FS.FILE_NAME_SIZE - |name|, _ => NUL)
  }

  /** A disk with the files shell, of 100 bytes, and text, of 20: the first begins with the ELF magic. */
  function TwoFiles(): FS.Disk {
    FS.Disk([FS.Dentry(NameField(SHELL_NAME), REG_FILE, 0), FS.Dentry(NameField(TEXT_NAME), REG_FILE, 1)],
            [FS.Inode(100, seq(FS.INODE_DATABLOCK, _ => 0)), FS.Inode(20, seq(FS.INODE_DATABLOCK, _ => 1))],
            2, seq(3 * FS.BLOCK, i requires 0 <= i < 3 * FS.BLOCK =>
                     if i == 0 then 0x7f else if i == 1 then 0x45 else if i == 2 then 0x4c else if i == 3 then 0x46
                     else SPACE))
  }

  lemma NameFieldIsName(name: seq<Byte>)
    requires |name| < FS.FILE_NAME_SIZE && NulFree(name)
    ensures StringAt(NameField(name), 0) == name && FS.Wanted(name + [NUL]) == name
  {
    StringEndIs(NameField(name), 0, |name|);
    StringEndIs(name + [NUL], 0, |name|);
    assert NameField(name)[0..|name|] == name && (name + [NUL])[0..|name|] == name;
  }

  lemma TwoFilesAreFound()
    ensures var d := TwoFiles();
      && FS.WellFormed(d) && |d.inodes| == |d.direntries| == 2
      && FS.ValidFile(d, d.inodes[0]) && FS.ValidFile(d, d.inodes[1])
      && Found(d, SHELL_NAME + [NUL]) == 0 && Found(d, TEXT_NAME + [NUL]) == 1
  {
    NameFieldIsName(SHELL_NAME);
    NameFieldIsName(TEXT_NAME);
    var d := TwoFiles();
    assert FS.Name(d.direntries[0]) == SHELL_NAME && FS.Name(d.direntries[1]) == TEXT_NAME;
    assert SHELL_NAME != TEXT_NAME by {
      assert SHELL_NAME[0] != TEXT_NAME[0];
    }
  }

  /** There execute starts the shell and refuses the text, whatever is on the stack, in every kernel
      with a free process and a free descriptor. */
  lemma ShellStartsTextDoesNot(k: Kernel, stack: seq<Byte>, frame: int)
    requires KernelShape(k) && |stack| == EXEC_SIZE && Child(k.procs) < MAX_PID
    requires FreeSlot(k.files[Current(k)], FILE_START_IDX) < FILE_ARRAY_SIZE
    ensures FS.WellFormed(TwoFiles())
    ensures ExecStep(k, ProgramOf(TwoFiles(), SHELL_NAME + [NUL], stack), frame).procs.currPid == Child(k.procs)
    ensures ExecStep(k, ProgramOf(TwoFiles(), TEXT_NAME + [NUL], stack), frame).procs.currPid == Current(k)
  {
    var d := TwoFiles();
    TwoFilesAreFound();
    ProgramIsElf(d, SHELL_NAME + [NUL], stack);
    ProgramIsElf(d, TEXT_NAME + [NUL], stack);
    assert HeaderByte(d, d.inodes[0], stack, 0) == 0x7f && HeaderByte(d, d.inodes[0], stack, 1) == 0x45;
    assert HeaderByte(d, d.inodes[0], stack, 2) == 0x4c && HeaderByte(d, d.inodes[0], stack, 3) == 0x46;
    assert HeaderByte(d, d.inodes[1], stack, 0) == SPACE;
  }

  /** The name is that of a file of at least four bytes, which are 7f 45 4c 46 or not. */
  ghost predicate IsLongFile(d: FS.Disk, fname: seq<Byte>)
    requires FS.WellFormed(d)
  {
    var i := Found(d, fname);
    && i < |d.direntries| && d.direntries[i].inodeNum < |d.inodes|
    && FS.ValidFile(d, d.inodes[d.direntries[i].inodeNum]) && d.inodes[d.direntries[i].inodeNum].length >= 4
  }

  ghost predicate IsElfFile(d: FS.Disk, fname: seq<Byte>)
    requires FS.WellFormed(d)
  {
    && IsLongFile(d, fname)
    && FS.Contents(d, d.inodes[d.direntries[Found(d, fname)].inodeNum])[..4] == [0x7f, 0x45, 0x4c, 0x46]
  }

  ghost predicate IsOtherFile(d: FS.Disk, fname: seq<Byte>)
    requires FS.WellFormed(d)
  {
    IsLongFile(d, fname) && !IsElfFile(d, fname)
  }

  lemma ElfFiles(d: FS.Disk, fname: seq<Byte>, stack: seq<Byte>)
    requires FS.WellFormed(d) && |stack| == EXEC_SIZE
    ensures IsElfFile(d, fname) ==> ProgramOf(d, fname, stack).Executable?
    ensures IsOtherFile(d, fname) ==> !ProgramOf(d, fname, stack).Executable?
  {
    if IsLongFile(d, fname) {
      ProgramIsElf(d, fname, stack);
    }
  }

  /** The image of an executable is on the disk and fits the program's memory. */
  predicate Loadable(d: FS.Disk, p: Program, size: nat)
    requires FS.WellFormed(d)
  {
    p.Executable? ==>
      p.inode < |d.inodes| && FS.ValidFile(d, d.inodes[p.inode]) && d.inodes[p.inode].length <= size
  }

  lemma AdvanceNothing(t: FileTable, fd: Slot)
    ensures Advance(t, fd, 0) == t
  {
  }

  lemma WithFilesAgain(k: Kernel, a: FileTable, b: FileTable)
    requires KernelShape(k)
    ensures KernelShape(WithFiles(k, a)) && WithFiles(k, a).files[Current(k)] == a
    ensures WithFiles(WithFiles(k, a), b) == WithFiles(k, b)
  {
  }

  lemma SplitAt(now: seq<Byte>, before: seq<Byte>, n: nat)
    requires n <= |now| == |before| && forall k :: n <= k < |now| ==> now[k] == before[k]
    ensures now == now[..n] + before[n..]
  {
  }

  /** The caller's table after the program file has been opened, read and closed, step by step. */
  lemma ProbedSteps(k: Kernel, prog: Program)
    requires KernelShape(k)
    ensures prog.NotFound? ==> k.(files := ProbedFiles(k, prog)) == k
    ensures !prog.NotFound? ==>
      var table, probed := k.files[Current(k)], k.(files := ProbedFiles(k, prog));
      var fd, entered := FreeSlot(table, FILE_START_IDX), Open(table, Regular, prog.inode);
      if fd == FILE_ARRAY_SIZE then WithFiles(k, entered) == probed
      else WithFiles(WithFiles(k, entered), Close(Advance(entered, fd, prog.header), fd)) == probed
  {
  }

  /** Execute with its pid put on the displayed terminal first. */
  lemma ExecAfterHoming(k: Kernel, prog: Program, frame: int)
    requires KernelShape(k) && Child(k.procs) < MAX_PID
    ensures var child := Child(k.procs);
      var homed := k.(procs := k.procs.(pidToTerm := k.procs.pidToTerm[child := k.currTerm]));
      && KernelShape(homed) && Loads(homed, prog) == Loads(k, prog)
      && var probed := homed.(files := ProbedFiles(homed, prog));
         ExecStep(k, prog, frame) == if Loads(k, prog) then KernelState.Launch(probed, child, frame) else probed
  {
  }

  /** The slot's position has reached the end of an existing file. */
  predicate AtEndOfFile(d: FS.Disk, t: FileTable, fd: Slot) {
    t[fd].inode < |d.inodes| && t[fd].fpos >= d.inodes[t[fd].inode].length
  }

  /** What a sequence of freads on one slot delivers, and leaves of the table. */
  function ReadAll(d: FS.Disk, t: FileTable, fd: Slot, sizes: seq<nat>): (r: (seq<FS.ReadResult>, FileTable))
    requires CanReadAll(d, t, fd, sizes)
    decreases |sizes|
  {
    if sizes == [] then ([], t)
    else
      var got := FS.Read(d, t[fd].inode, t[fd].fpos, sizes[0]);
      var rest := ReadAll(d, AfterRead(t, fd, got), fd, sizes[1..]);
      ([got] + rest.0, rest.1)
  }

  function AfterRead(t: FileTable, fd: Slot, got: FS.ReadResult): FileTable {
    if got.Failed? then t else Advance(t, fd, |got.bytes|)
  }

  predicate CanReadAll(d: FS.Disk, t: FileTable, fd: Slot, sizes: seq<nat>)
    decreases |sizes|
  {
    sizes == [] ||
    (FS.Readable(d, t[fd].inode, t[fd].fpos, sizes[0]) &&
     CanReadAll(d, AfterRead(t, fd, FS.Read(d, t[fd].inode, t[fd].fpos, sizes[0])), fd, sizes[1..]))
  }

  /** Once a position has reached the end of an existing file every further read returns 0 and leaves
      the position, however often and however much is asked for. */
  lemma {:induction false} EndOfFileStays(d: FS.Disk, t: FileTable, fd: Slot, sizes: seq<nat>)
    requires FS.WellFormed(d) && AtEndOfFile(d, t, fd)
    ensures CanReadAll(d, t, fd, sizes)
    ensures var (results, t') := ReadAll(d, t, fd, sizes);
      t' == t && |results| == |sizes| && forall k :: 0 <= k < |results| ==> results[k] == FS.Bytes([])
    decreases |sizes|
  {
    if sizes != [] {
      AdvanceNothing(t, fd);
      EndOfFileStays(d, t, fd, sizes[1..]);
    }
  }

  class Machine {
    const disk: FS.Disk
    const freePid: array<bool>
    const parentPid: array<int>
    const pidToTerm: array<int>
    const topPid: array<int>
    const fileArray: array<FileTable>
    const kFrame: array<int>
    const parentFrame: array<int>
    const pages: PageTables
    const display: D.Driver
    var currPid: int
    var scheduleCounter: nat

    ghost predicate Allocated() {
      && freePid.Length == parentPid.Length == pidToTerm.Length == MAX_PID && topPid.Length == MAX_TERM
      && fileArray.Length == kFrame.Length == parentFrame.Length == MAX_PID
      && parentPid !in {pidToTerm, topPid, kFrame, parentFrame} && pidToTerm !in {topPid, kFrame, parentFrame}
      && topPid !in {kFrame, parentFrame} && kFrame != parentFrame
      && pages.Allocated() && display.Allocated() && FS.WellFormed(disk)
    }

    ghost function Table(): Procs
      reads this, freePid, parentPid, pidToTerm, topPid
    {
      Procs(freePid[..], parentPid[..], pidToTerm[..], topPid[..], currPid, scheduleCounter)
    }

    ghost function State(): Kernel
      requires Allocated()
      reads this, freePid, parentPid, pidToTerm, topPid, fileArray, kFrame, parentFrame
      reads pages.directory, pages.table0, pages.table1, display, display.terminals
    {
      Kernel(Table(), display.currTerm, VideoMems(display.terminals[..]), pages.State(),
             fileArray[..], kFrame[..], parentFrame[..])
    }

    ghost predicate Ok()
      reads this, freePid, parentPid, pidToTerm, topPid, fileArray, kFrame, parentFrame
      reads pages.directory, pages.table0, pages.table1, display, display.terminals, display.vram
    {
      Allocated() && display.Ok() && KernelShape(State())
    }

    /** A machine in state `k`, over page tables and a display that are in that state. */
    constructor (k: Kernel, tables: PageTables, console: D.Driver, disk: FS.Disk)
      requires FS.WellFormed(disk) && KernelShape(k) && tables.Allocated() && tables.State() == k.mmu
      requires console.Ok() && console.currTerm == k.currTerm && VideoMems(console.terminals[..]) == k.videoMem
      ensures Ok() && State() == k
    {
      freePid := new bool[MAX_PID](i requires 0 <= i < MAX_PID => k.procs.freePid[i]);
      parentPid := new int[MAX_PID](i requires 0 <= i < MAX_PID => k.procs.parentPid[i]);
      pidToTerm := new int[MAX_PID](i requires 0 <= i < MAX_PID => k.procs.pidToTerm[i]);
      topPid := new int[MAX_TERM](i requires 0 <= i < MAX_TERM => k.procs.topPid[i]);
      fileArray := new FileTable[MAX_PID](i requires 0 <= i < MAX_PID => k.files[i]);
      kFrame := new int[MAX_PID](i requires 0 <= i < MAX_PID => k.kFrame[i]);
      parentFrame := new int[MAX_PID](i requires 0 <= i < MAX_PID => k.parentFrame[i]);
      pages, display, this.disk := tables, console, disk;
      currPid, scheduleCounter := k.procs.currPid, k.procs.scheduleCounter;
      new;
      assert freePid[..] == k.procs.freePid && parentPid[..] == k.procs.parentPid;
      assert pidToTerm[..] == k.procs.pidToTerm && topPid[..] == k.procs.topPid;
      assert fileArray[..] == k.files && kFrame[..] == k.kFrame && parentFrame[..] == k.parentFrame;
    }

    // ------------------------------------------------------------------ descriptors

    /** The search of fopen and dopen for a closed slot; 0 when there is none. */
    method FirstClosed() returns (fd: int)
      requires Ok()
      ensures var free := FreeSlot(fileArray[currPid], FILE_START_IDX); fd == if free == FILE_ARRAY_SIZE then 0 else free
    {
      var i := FILE_START_IDX;
      fd := 0;
      while i < FILE_ARRAY_SIZE
        invariant FILE_START_IDX <= i <= FILE_ARRAY_SIZE
        invariant FreeSlot(fileArray[currPid], FILE_START_IDX) == FreeSlot(fileArray[currPid], i)
      {
        if !fileArray[currPid][i].open {
          return i;
        }
        i := i + 1;
      }
    }

    /** One slot of the running process's file array. */
    method SetSlot(fd: int, slot: Fd)
      requires Ok() && 0 <= fd < FILE_ARRAY_SIZE
      modifies fileArray
      ensures Ok() && State() == WithFiles(old(State()), old(fileArray[currPid])[fd := slot])
    {
      fileArray[currPid] := fileArray[currPid][fd := slot];
    }

    /** fopen: a slot is searched first, then the name is looked up. */
    method Fopen(filename: seq<Byte>) returns (fd: int)
      requires Ok() && IsName(filename)
      modifies fileArray
      ensures var i, table := Found(disk, filename), old(fileArray[currPid]);
        && fd == (if i < |disk.direntries| && FreeSlot(table, FILE_START_IDX) < FILE_ARRAY_SIZE
                  then FreeSlot(table, FILE_START_IDX) else -1)
        && State() == if i == |disk.direntries| then old(State())
                      else WithFiles(old(State()), Open(table, Regular, disk.direntries[i].inodeNum))
      ensures Ok()
    {
      fd := FirstClosed();
      if fd == 0 {
        return -1;
      }
      var r, dentry := FS.ReadDentryByName(disk, filename);
      if r == -1 {
        return -1;
      }
      SetSlot(fd, Fd(Regular, dentry.inodeNum, 0, true));
    }

    /** dopen. */
    method Dopen() returns (fd: int)
      requires Ok()
      modifies fileArray
      ensures Ok()
      ensures fd == if FreeSlot(old(fileArray[currPid]), FILE_START_IDX) < FILE_ARRAY_SIZE
                    then FreeSlot(old(fileArray[currPid]), FILE_START_IDX) else -1
      ensures State() == WithFiles(old(State()), Open(old(fileArray[currPid]), Directory, 0))
    {
      fd := FirstClosed();
      if fd > 0 {
        SetSlot(fd, Fd(Directory, 0, 0, true));
      } else {
        fd := -1;
      }
    }

    /** The read from the position of a slot is one that is modelled and fits the buffer. */
    ghost predicate CanRead(fd: Slot, buf: array<Byte>, nbytes: nat)
      requires Ok()
      reads this, freePid, parentPid, pidToTerm, topPid, fileArray, kFrame, parentFrame
      reads pages.directory, pages.table0, pages.table1, display, display.terminals, display.vram
    {
      var slot := fileArray[currPid][fd];
      && buf != display.vram && FS.Readable(disk, slot.inode, slot.fpos, nbytes)
      && (slot.inode < |disk.inodes| ==> Min(nbytes, disk.inodes[slot.inode].length) <= buf.Length)
    }

    /** fread: the bytes from the slot's position on, by which that position moves. */
    method Fread(fd: Slot, buf: array<Byte>, nbytes: nat) returns (r: int)
      requires Ok() && CanRead(fd, buf, nbytes)
      modifies fileArray, buf
      ensures var table := old(fileArray[currPid]);
        var wanted := FS.Read(disk, table[fd].inode, table[fd].fpos, nbytes);
        && (wanted.Failed? <==> r == -1) && -1 <= r <= buf.Length
        && (r >= 0 ==> wanted == FS.Bytes(buf[..r]))
        && State() == if r == -1 then old(State()) else WithFiles(old(State()), Advance(table, fd, r))
      ensures r >= 0 ==> forall k :: r <= k < buf.Length ==> buf[k] == old(buf[k])
      ensures AtEndOfFile(disk, old(fileArray[currPid]), fd) ==>
        r == 0 && State() == old(State()) && buf[..] == old(buf[..])
      ensures Ok()
    {
      var slot := fileArray[currPid][fd];
      AdvanceNothing(fileArray[currPid], fd);
      assert WithFiles(State(), fileArray[currPid]) == State();
      r := FS.ReadData(disk, slot.inode, slot.fpos, buf, nbytes);
      if r >= 0 {
        SetSlot(fd, slot.(fpos := slot.fpos + r));
      }
    }

    /** dread: the 32-byte name at the slot's position, which moves by one; 0 after the last. */
    method Dread(fd: Slot, buf: array<Byte>) returns (r: int)
      requires Ok() && buf != display.vram && buf.Length >= FS.FILE_NAME_SIZE
      modifies fileArray, buf
      ensures var table := old(fileArray[currPid]);
        if table[fd].fpos >= |disk.direntries| then r == 0 && State() == old(State()) && buf[..] == old(buf[..])
        else
          && r == FS.FILE_NAME_SIZE && State() == WithFiles(old(State()), Advance(table, fd, 1))
          && buf[..] == disk.direntries[table[fd].fpos].filename + old(buf[FS.FILE_NAME_SIZE..])
      ensures Ok()
    {
      var slot := fileArray[currPid][fd];
      if slot.fpos >= |disk.direntries| {
        return 0;
      }
      var found, dentry := FS.ReadDentryByIndex(disk, slot.fpos);
      CopyName(dentry.filename, buf);
      SetSlot(fd, slot.(fpos := slot.fpos + 1));
      r := FS.FILE_NAME_SIZE;
    }

    /** memcpy of a name. */
    method CopyName(name: seq<Byte>, buf: array<Byte>)
      requires |name| <= buf.Length
      modifies buf
      ensures buf[..] == name + old(buf[|name|..])
    {
      var i := 0;
      while i < |name|
        invariant 0 <= i <= |name|
        invariant forall k :: 0 <= k < buf.Length ==> buf[k] == if k < i then name[k] else old(buf[k])
      {
        buf[i] := name[i];
        i := i + 1;
      }
    }

    /** fclose and dclose. */
    method Fclose(fd: int) returns (r: int)
      requires Ok()
      modifies fileArray
      ensures r == if FILE_START_IDX <= fd < FILE_ARRAY_SIZE then 0 else -1
      ensures State() ==
        if r == 0 then WithFiles(old(State()), Close(old(fileArray[currPid]), fd)) else old(State())
      ensures Ok()
    {
      if fd >= FILE_ARRAY_SIZE || fd < FILE_START_IDX {
        return -1;
      }
      SetSlot(fd, fileArray[currPid][fd].(open := false));
      r := 0;
    }

    /** system_open of a name that is not the RTC's: the least free descriptor, -1 when there is
        none, no such name, or a file of unknown type. */
    method SystemOpen(filename: seq<Byte>) returns (fd: int)
      requires Ok() && IsName(filename)
      requires Found(disk, filename) < |disk.direntries| ==> disk.direntries[Found(disk, filename)].filetype != 0
      modifies fileArray
      ensures var i, table := Found(disk, filename), old(fileArray[currPid]);
        if i == |disk.direntries| || disk.direntries[i].filetype > REG_FILE then fd == -1 && State() == old(State())
        else
          var e := disk.direntries[i];
          var op := if e.filetype == DIR_FILE then OpenOp(Directory, 0) else OpenOp(Regular, e.inodeNum);
          && State() == WithFiles(old(State()), FdStep(table, op))
          && (fd == -1 <==> Full(OpenFiles(table))) && (fd != -1 ==> LeastFree(OpenFiles(table), fd))
      ensures Ok()
    {
      FdStepRefines(fileArray[currPid], OpenOp(Regular, 0));
      var r, dentry := FS.ReadDentryByName(disk, filename);
      if r == -1 {
        return -1;
      }
      if dentry.filetype == DIR_FILE {
        fd := Dopen();
      } else if dentry.filetype == REG_FILE {
        fd := Fopen(filename);
      } else {
        fd := -1;
      }
    }

    /** system_close; descriptor 8 passes the range check and is not modelled. */
    method SystemClose(fd: int) returns (r: int)
      requires Ok() && fd != FILE_ARRAY_SIZE
      modifies fileArray
      ensures r == if fd in OpenFiles(old(fileArray[currPid])) then 0 else -1
      ensures State() ==
        if r == 0 then WithFiles(old(State()), FdStep(old(fileArray[currPid]), CloseOp(fd))) else old(State())
      ensures Ok()
    {
      if fd > FILE_ARRAY_SIZE || fd < FILE_START_IDX || !fileArray[currPid][fd].open {
        return -1;
      }
      r := Fclose(fd);
    }

    /** system_read of a file or directory; descriptor 0 is the terminal's, 8 is not modelled. */
    method SystemRead(fd: int, buf: array<Byte>, nbytes: nat) returns (r: int)
      requires Ok() && fd != 0 && fd != FILE_ARRAY_SIZE && buf != display.vram
      requires fd in OpenFiles(fileArray[currPid]) ==>
        if OpenFiles(fileArray[currPid])[fd].kind == Directory then buf.Length >= FS.FILE_NAME_SIZE
        else CanRead(fd, buf, nbytes)
      modifies fileArray, buf
      ensures var table := old(fileArray[currPid]);
        if fd !in OpenFiles(table) then r == -1 && State() == old(State()) && buf[..] == old(buf[..])
        else
          var file, moved := OpenFiles(table)[fd], if OpenFiles(table)[fd].kind == Directory then Min(r, 1) else r;
          && -1 <= r <= buf.Length
          && (if file.kind == Directory then r == if file.pos < |disk.direntries| then FS.FILE_NAME_SIZE else 0
              else FS.Read(disk, file.inode, file.pos, nbytes) == if r == -1 then FS.Failed else FS.Bytes(buf[..r]))
          && (if file.kind == Directory && r > 0 then buf[..r] == disk.direntries[file.pos].filename else true)
          && State() == if r == -1 then old(State()) else WithFiles(old(State()), FdStep(table, ReadOp(fd, moved)))
      ensures var table := old(fileArray[currPid]);
        fd in OpenFiles(table) && OpenFiles(table)[fd].kind != Directory && AtEndOfFile(disk, table, fd) ==>
          r == 0 && State() == old(State()) && buf[..] == old(buf[..])
      ensures Ok()
    {
      if fd > FILE_ARRAY_SIZE || fd < 0 || fd == 1 || !fileArray[currPid][fd].open {
        return -1;
      }
      if fileArray[currPid][fd].ops == Directory {
        AdvanceNothing(fileArray[currPid], fd);
        assert WithFiles(State(), fileArray[currPid]) == State();
        r := Dread(fd, buf);
      } else {
        r := Fread(fd, buf, nbytes);
      }
    }

    // -------------------------------------------------------------------- processes

    /** find_free_process. */
    method FindFreeProcess() returns (r: int)
      requires Ok()
      ensures r == if Child(State().procs) == MAX_PID then -1 else Child(State().procs)
    {
      var i := 0;
      while i < MAX_PID
        invariant 0 <= i <= MAX_PID && FindFree(freePid[..], 0) == FindFree(freePid[..], i)
      {
        if freePid[i] {
          return i;
        }
        i := i + 1;
      }
      r := -1;
    }

    /** setup_paging. */
    method SetupPaging(pid: int)
      requires Ok() && -1 <= pid < MAX_PID
      modifies pages.directory, pages.table1
      ensures Ok() && State() == old(State()).(mmu := KernelState.SetupPaging(old(State()), pid))
    {
      if pid == -1 {
        pages.UndoUserPaging();
        return;
      }
      pages.MapProgram(pid, display.terminals[pidToTerm[pid]].videoMem);
    }

    /** The magic test of system_execute. */
    method HeaderIsElf(executable: array<Byte>) returns (ok: bool)
      requires executable.Length == EXEC_SIZE
      ensures ok == HasMagic(executable[..])
    {
      ok := executable[0] == 0x7f && executable[1] == 0x45 && executable[2] == 0x4c && executable[3] == 0x46;
      assert executable[..][..4] == [executable[0], executable[1], executable[2], executable[3]];
    }

    /** The read of the header through the open slot, which is then closed again. */
    method ReadHeader(fd: Slot, executable: array<Byte>) returns (fdata: int)
      requires Ok() && fileArray[currPid][fd].fpos == 0
      requires executable.Length == EXEC_SIZE && executable != display.vram
      modifies fileArray, executable
      ensures var table := old(fileArray[currPid]);
        var header := (HeaderIsReadable(disk, table[fd].inode); FS.Read(disk, table[fd].inode, 0, EXEC_SIZE));
        && (header.Failed? <==> fdata == -1)
        && (header.Bytes? ==> executable[..] == header.bytes + old(executable[..])[|header.bytes|..])
        && State() == WithFiles(old(State()),
             Close(Advance(table, fd, if header.Failed? then 0 else |header.bytes|), fd))
      ensures Ok() && fileArray[currPid][fd].inode == old(fileArray[currPid][fd].inode)
    {
      HeaderIsReadable(disk, fileArray[currPid][fd].inode);
      ghost var k, table := State(), fileArray[currPid];
      AdvanceNothing(table, fd);
      fdata := Fread(fd, executable, EXEC_SIZE);
      if fdata >= 0 {
        SplitAt(executable[..], old(executable[..]), fdata);
        WithFilesAgain(k, Advance(table, fd, fdata), Close(Advance(table, fd, fdata), fd));
      }
      var closed := Fclose(fd);
    }

    /** The part of system_execute that looks at the program file. */
    method ProbeFile(filename: seq<Byte>, executable: array<Byte>) returns (ok: bool, fd: int)
      requires Ok() && IsName(filename) && executable.Length == EXEC_SIZE && executable != display.vram
      modifies fileArray, executable
      ensures var prog := ProgramOf(disk, filename, old(executable[..]));
        && State() == old(State()).(files := ProbedFiles(old(State()), prog)) && ok == Loads(old(State()), prog)
        && (ok ==> FILE_START_IDX <= fd < FILE_ARRAY_SIZE && fileArray[currPid][fd].inode == prog.inode)
      ensures Ok()
    {
      ProbedSteps(State(), ProgramOf(disk, filename, executable[..]));
      fd := Fopen(filename);
      if fd == -1 {
        return false, fd;
      }
      var fdata := ReadHeader(fd, executable);
      if fdata == -1 {
        return false, fd;
      }
      ok := HeaderIsElf(executable);
    }

    /** create_pcb. */
    method CreatePcb(parent: Pid, child: Pid)
      requires Ok()
      modifies parentPid
      ensures Ok()
      ensures State() == old(State()).(procs := old(Table()).(parentPid := old(Table()).parentPid[child := parent]))
    {
      parentPid[child] := parent;
    }

    /** initialize_stdio. */
    method InitializeStdio(child: Pid)
      requires Ok()
      modifies fileArray
      ensures Ok()
      ensures State() == old(State()).(files := old(State()).files[child := WithStdio(old(fileArray[child]))])
    {
      fileArray[child] := fileArray[child][0 := Fd(Stdin, 0, 0, true)];
      fileArray[child] := fileArray[child][1 := Fd(Stdout, 0, 0, true)];
    }

    /** The last assignments of system_execute. */
    method Enter(child: Pid, frame: int)
      requires Ok()
      modifies this`currPid, parentFrame, kFrame, freePid
      ensures var k := old(State());
        Allocated() && State() == k.(
          procs := k.procs.(currPid := child, freePid := k.procs.freePid[child := false]),
          parentFrame := k.parentFrame[child := frame],
          kFrame := k.kFrame[Current(k) := frame])
      ensures Ok()
    {
      parentFrame[child] := frame;
      kFrame[currPid] := frame;
      currPid := child;
      freePid[currPid] := false;
    }

    /** The image of an executable, copied to the program's memory. */
    method LoadImage(inode: nat, memory: array<Byte>) returns (r: int)
      requires Ok() && inode < |disk.inodes| && FS.ValidFile(disk, disk.inodes[inode])
      requires memory != display.vram && disk.inodes[inode].length <= memory.Length
      modifies memory
      ensures r == disk.inodes[inode].length && memory[..r] == FS.Contents(disk, disk.inodes[inode])
      ensures Ok() && State() == old(State())
    {
      var fileLength := disk.inodes[inode].length;
      FS.ReadFromStart(disk, inode, fileLength);
      ghost var image := FS.Contents(disk, disk.inodes[inode]);
      assert image[..fileLength] == image;
      r := FS.ReadData(disk, inode, 0, memory, fileLength);
    }

    /** The child becomes the top process of the displayed terminal and its memory is mapped. */
    method MapChild(child: Pid)
      requires Ok()
      modifies topPid, pages.directory, pages.table1
      ensures var k := old(State());
        Allocated() && State() == k.(
          procs := k.procs.(topPid := k.procs.topPid[k.currTerm := child]), mmu := KernelState.SetupPaging(k, child))
      ensures Ok()
    {
      topPid[display.currTerm] := child;
      SetupPaging(child);
    }

    /** The part of system_execute that loads the program and makes `child` the running process. */
    method Launch(child: Pid, frame: int, inode: nat, memory: array<Byte>)
      requires Ok() && inode < |disk.inodes| && FS.ValidFile(disk, disk.inodes[inode])
      requires memory != display.vram && disk.inodes[inode].length <= memory.Length
      modifies this`currPid, topPid, pages.directory, pages.table1, parentPid, fileArray, parentFrame, kFrame, freePid
      modifies memory
      ensures Allocated() && State() == KernelState.Launch(old(State()), child, frame)
      ensures Ok() && memory[..disk.inodes[inode].length] == FS.Contents(disk, disk.inodes[inode])
    {
      LaunchKeepsShape(State(), child, frame);
      MapChild(child);
      var fileCopy := LoadImage(inode, memory);
      CreatePcb(currPid, child);
      InitializeStdio(child);
      Enter(child, frame);
    }

    /** system_execute once a pid is found and put on the displayed terminal. */
    method Start(filename: seq<Byte>, child: Pid, frame: int, executable: array<Byte>, memory: array<Byte>)
      returns (r: int)
      requires Ok() && IsName(filename) && executable.Length == EXEC_SIZE
      requires executable != display.vram && memory != display.vram && executable != memory
      requires Loadable(disk, ProgramOf(disk, filename, executable[..]), memory.Length)
      modifies this`currPid, topPid, pages.directory, pages.table1, parentPid, fileArray
      modifies parentFrame, kFrame, freePid, executable, memory
      ensures var k, prog := old(State()), ProgramOf(disk, filename, old(executable[..]));
        var probed := k.(files := ProbedFiles(k, prog));
        && Allocated() && State() == (if Loads(k, prog) then KernelState.Launch(probed, child, frame) else probed)
        && r == (if Loads(k, prog) then 0 else -1)
        && (r == 0 ==>
              memory[..disk.inodes[prog.inode].length] == FS.Contents(disk, disk.inodes[prog.inode]))
      ensures Ok()
    {
      var ok, fd := ProbeFile(filename, executable);
      if !ok {
        return -1;
      }
      Launch(child, frame, fileArray[currPid][fd].inode, memory);
      r := 0;
    }

    /** system_execute of a program name. The caller's stack frame is `frame`, `executable` the header
        buffer on the stack, and `memory` the child's memory from 0x08048000 on. */
    method Execute(filename: seq<Byte>, frame: int, executable: array<Byte>, memory: array<Byte>) returns (r: int)
      requires Ok() && IsName(filename) && executable.Length == EXEC_SIZE
      requires executable != display.vram && memory != display.vram && executable != memory
      requires Loadable(disk, ProgramOf(disk, filename, executable[..]), memory.Length)
      modifies this`currPid, topPid, pages.directory, pages.table1, parentPid, pidToTerm, fileArray
      modifies parentFrame, kFrame, freePid, executable, memory
      ensures var prog := ProgramOf(disk, filename, old(executable[..]));
        && Allocated() && State() == ExecStep(old(State()), prog, frame)
        && r == (if Child(old(State()).procs) < MAX_PID && Loads(old(State()), prog) then 0 else -1)
        && (r == 0 ==>
              memory[..disk.inodes[prog.inode].length] == FS.Contents(disk, disk.inodes[prog.inode]))
      ensures IsElfFile(disk, filename) ==>
        (r == 0 <==> Child(old(State()).procs) < MAX_PID &&
                     FreeSlot(old(fileArray[currPid]), FILE_START_IDX) < FILE_ARRAY_SIZE)
      ensures IsOtherFile(disk, filename) ==> r == -1
      ensures Ok()
    {
      ghost var k := State();
      ElfFiles(disk, filename, executable[..]);
      var child := FindFreeProcess();
      if child == -1 {
        return -1;
      }
      pidToTerm[child] := display.currTerm;
      assert State() == k.(procs := k.procs.(pidToTerm := k.procs.pidToTerm[child := k.currTerm]));
      ExecAfterHoming(k, ProgramOf(disk, filename, executable[..]), frame);
      r := Start(filename, child, frame, executable, memory);
    }

    /** The loop of system_halt that closes the running process's files. */
    method CloseFiles()
      requires Ok()
      modifies fileArray
      ensures Ok() && State() == WithFiles(old(State()), CloseAll(old(fileArray[currPid])))
    {
      ghost var k, before := State(), fileArray[currPid];
      ghost var done := before;
      var i := FILE_START_IDX;
      assert State() == WithFiles(k, done);
      while i < FILE_ARRAY_SIZE
        invariant FILE_START_IDX <= i <= FILE_ARRAY_SIZE && Ok() && State() == WithFiles(k, done)
        invariant forall j :: 0 <= j < FILE_ARRAY_SIZE ==>
          done[j] == if FILE_START_IDX <= j < i then before[j].(open := false) else before[j]
      {
        done := Close(done, i);
        var closed := Fclose(i);
        i := i + 1;
      }
      assert done == CloseAll(before);
    }

    /** The last assignments of system_halt. */
    method Leave(parent: Pid)
      requires Ok()
      modifies this`currPid, topPid
      ensures var k := old(State());
        Allocated() && State() == k.(
          procs := k.procs.(topPid := k.procs.topPid[Home(k.procs) := parent], currPid := parent))
      ensures Ok()
    {
      topPid[pidToTerm[currPid]] := parent;
      currPid := parent;
    }

    /** system_halt of a process with a parent. */
    method Halt()
      requires Ok() && parentPid[currPid] != -1
      modifies this`currPid, freePid, fileArray, pages.directory, pages.table1, topPid
      ensures Allocated() && State() == ExitStep(old(State()))
      ensures Ok()
    {
      ExitKeepsShape(State());
      var parent := parentPid[currPid];
      freePid[currPid] := true;
      CloseFiles();
      SetupPaging(parent);
      Leave(parent);
    }

    /** The context switch of schedule. */
    method Resume(nextPid: Pid, frame: int)
      requires Ok()
      modifies this`currPid, kFrame
      ensures var k := old(State());
        Allocated() && State() == k.(
          procs := k.procs.(currPid := nextPid), kFrame := k.kFrame[Current(k) := frame])
      ensures Ok()
    {
      kFrame[currPid] := frame;
      currPid := nextPid;
    }

    /** schedule, in the steady state; the interrupted frame is `frame`. */
    method Schedule(frame: int)
      requires Ok()
      modifies this`currPid, this`scheduleCounter, pages.directory, pages.table1, kFrame
      ensures Allocated() && State() == ScheduleStep(old(State()), frame)
      ensures Ok()
    {
      ScheduleKeepsShape(State(), frame);
      scheduleCounter := scheduleCounter + 1;
      var nextPid := topPid[scheduleCounter % 3];
      SetupPaging(nextPid);
      Resume(nextPid, frame);
    }

    /** term_switch with its vidmap page-table entry. */
    method TermSwitch(n: Term)
      requires Ok()
      modifies display`currTerm, display.vram, display.terminals, pages.table1
      ensures Ok() && State() == SwitchStep(old(State()), n)
      ensures display.State() == T.Switch(old(display.State()), n)
    {
      if display.currTerm == n {
        return;
      }
      SwitchRetargets(display.State(), n);
      display.Switch(n);
      pages.PointVidmapAt(display.terminals[pidToTerm[currPid]].videoMem);
    }

    /** system_vidmap; the user's pointer variable at `screenStart` holds `screen`, then `screen'`. */
    method SystemVidmap(screenStart: int, screen: int) returns (r: int, screen': int)
      requires Ok()
      modifies pages.directory, pages.table1
      ensures Ok() && State() == VidmapStep(old(State()), screenStart)
      ensures if MB_128 <= screenStart < MB_132 then r == 0 && screen' == MB_132 else r == -1 && screen' == screen
      ensures r == -1 ==> State() == old(State())
    {
      if screenStart < MB_128 || screenStart >= MB_132 {
        return -1, screen;
      }
      pages.MapScreen(display.terminals[pidToTerm[currPid]].videoMem);
      r, screen' := 0, MB_132;
    }
  }
}
