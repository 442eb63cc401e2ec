/** The page structures of student-distrib/paging.c and the page walk of section 4.3 of the
    Intel SDM, Volume 3A (32-bit paging with 4-MByte pages). */
module Paging {
  const NUM_PAGES := 1024
  const FOUR_KB := 0x1000
  const FOUR_MB := 0x400000
  const EIGHT_MB := 0x800000
  const MB_128 := 0x8000000
  const MB_132 := 0x8400000
  const ADDRESSES := 0x1_0000_0000
  const VIDEO_PAGES := 4
  const VIDEO_ADDR := 0xB8000
  const KERNEL_LOCATION := 0x00400
  const USER_PROGRAM_MEM_INDEX := 32
  const USER_VMEM_INDEX := 33

  /** The fields of a directory or table entry that take part in a translation. */
  datatype Entry = Entry(p: bool, rw: bool, us: bool, ps: bool, address20: int)

  /** The page directory, the two page tables, and where the tables lie in memory. */
  datatype Mmu = Mmu(dir: seq<Entry>, table0: seq<Entry>, table1: seq<Entry>, base0: int, base1: int)

  datatype Translation = Fault | To(addr: int)

  predicate Shaped(m: Mmu) {
    && |m.dir| == NUM_PAGES && |m.table0| == NUM_PAGES && |m.table1| == NUM_PAGES
    && m.base0 % FOUR_KB == 0 && m.base1 % FOUR_KB == 0 && m.base0 != m.base1
  }

  /** The page table a directory entry points to; a table elsewhere in memory is not modelled. */
  function TableAt(m: Mmu, address20: int): seq<Entry>
    requires Shaped(m)
    ensures |TableAt(m, address20)| == 0 || |TableAt(m, address20)| == NUM_PAGES
  {
    if address20 * FOUR_KB == m.base0 then m.table0
    else if address20 * FOUR_KB == m.base1 then m.table1
    else []
  }

  /** The entry is not present, or does not let user mode read, or write. */
  predicate Denies(e: Entry, user: bool, write: bool) {
    !e.p || (user && (!e.us || (write && !e.rw)))
  }

  /** The translation of linear address `va`, for a user-mode or supervisor read or write. */
  function Walk(m: Mmu, va: int, user: bool, write: bool): Translation
    requires Shaped(m) && 0 <= va < ADDRESSES
  {
    var pde := m.dir[va / FOUR_MB];
    if Denies(pde, user, write) then Fault
    else if pde.ps then
      // bits 31:22 of the entry are the frame; bits 21:13 must be clear
      if pde.address20 % 1024 != 0 then Fault else To(pde.address20 / 1024 * FOUR_MB + va % FOUR_MB)
    else
      var table := TableAt(m, pde.address20);
      if table == [] then Fault
      else
        var pte := table[va / FOUR_KB % NUM_PAGES];
        if Denies(pte, user, write) then Fault else To(pte.address20 * FOUR_KB + va % FOUR_KB)
  }

  const ABSENT_PDE := Entry(false, true, false, true, 0)
  const ABSENT_PTE := Entry(false, true, false, false, 0)

  /** What init_paging leaves: the first 4 MB through table 0 with only the four video pages
      present, the kernel's 4 MB page, and nothing else. */
  function InitialMmu(base0: int, base1: int): Mmu {
    Mmu(seq(NUM_PAGES, i requires 0 <= i < NUM_PAGES =>
          if i == 0 then ABSENT_PDE.(p := true, ps := false, address20 := base0 / FOUR_KB)
          else if i == 1 then ABSENT_PDE.(p := true, address20 := KERNEL_LOCATION)
          else ABSENT_PDE),
        seq(NUM_PAGES, i requires 0 <= i < NUM_PAGES =>
          if VIDEO_ADDR / FOUR_KB <= i < VIDEO_ADDR / FOUR_KB + VIDEO_PAGES
          then ABSENT_PTE.(p := true, address20 := i) else ABSENT_PTE),
        seq(NUM_PAGES, i requires 0 <= i < NUM_PAGES => ABSENT_PTE), base0, base1)
  }

  /** The physical frame of a process. */
  function FrameOf(pid: int): int {
    EIGHT_MB + pid * FOUR_MB
  }

  /** setup_paging: the program's 4 MB page and the vidmap page-table entry. */
  function MapProcess(m: Mmu, pid: int, videoMem: int): Mmu
    requires Shaped(m)
  {
    m.(dir := m.dir[USER_PROGRAM_MEM_INDEX :=
         m.dir[USER_PROGRAM_MEM_INDEX].(us := true, p := true, ps := true, address20 := FrameOf(pid) / FOUR_MB * 1024)],
       table1 := m.table1[0 := m.table1[0].(p := true, address20 := videoMem / FOUR_KB)])
  }

  /** undo_user_paging: the program's 4 MB page is absent. */
  function UnmapProcess(m: Mmu): Mmu
    requires Shaped(m)
  {
    m.(dir := m.dir[USER_PROGRAM_MEM_INDEX := m.dir[USER_PROGRAM_MEM_INDEX].(p := false)])
  }

  /** The page-table update at the end of term_switch. */
  function RetargetVidmap(m: Mmu, videoMem: int): Mmu
    requires Shaped(m)
  {
    m.(table1 := m.table1[0 := m.table1[0].(p := true, address20 := videoMem / FOUR_KB)])
  }

  /** system_vidmap's page-table and directory entries. */
  function MapVideo(m: Mmu, videoMem: int): Mmu
    requires Shaped(m)
  {
    m.(table1 := m.table1[0 := m.table1[0].(p := true, rw := true, us := true, address20 := videoMem / FOUR_KB)],
       dir := m.dir[USER_VMEM_INDEX := Entry(true, true, true, false, m.base1 / FOUR_KB)])
  }

  /** The directory and tables, entry by entry, while process `pid` runs on a terminal whose
      screen is at `videoMem`. */
  ghost predicate Maps(m: Mmu, pid: int, videoMem: int) {
    && Shaped(m)
    && m.table0 == InitialMmu(m.base0, m.base1).table0
    && (forall i :: 0 <= i < NUM_PAGES && i != USER_PROGRAM_MEM_INDEX && i != USER_VMEM_INDEX ==>
          m.dir[i] == InitialMmu(m.base0, m.base1).dir[i])
    && (var e := m.dir[USER_PROGRAM_MEM_INDEX];
        e.p && e.rw && e.us && e.ps && e.address20 == FrameOf(pid) / FOUR_MB * 1024)
    && (var e := m.dir[USER_VMEM_INDEX];
        e.p ==> e == Entry(true, true, true, false, m.base1 / FOUR_KB) && m.table1[0].us)
    && (var e := m.table1[0]; e.p && e.rw && e.address20 == videoMem / FOUR_KB)
    && (forall i :: 1 <= i < NUM_PAGES ==> m.table1[i] == ABSENT_PTE)
  }

  lemma InitialMaps(base0: int, base1: int, pid: int, videoMem: int)
    requires base0 % FOUR_KB == 0 && base1 % FOUR_KB == 0 && base0 != base1
    ensures Maps(MapProcess(InitialMmu(base0, base1), pid, videoMem), pid, videoMem)
  {
  }

  lemma MapProcessMaps(m: Mmu, pid: int, videoMem: int, pid': int, videoMem': int)
    requires Maps(m, pid, videoMem)
    ensures Maps(MapProcess(m, pid', videoMem'), pid', videoMem')
  {
  }

  lemma RetargetMaps(m: Mmu, pid: int, videoMem: int, videoMem': int)
    requires Maps(m, pid, videoMem)
    ensures Maps(RetargetVidmap(m, videoMem'), pid, videoMem')
  {
  }

  lemma MapVideoMaps(m: Mmu, pid: int, videoMem: int, videoMem': int)
    requires Maps(m, pid, videoMem)
    ensures Maps(MapVideo(m, videoMem'), pid, videoMem')
  {
  }

  /** The whole 4 GB address space, stated outright. */
  function AddressSpace(pid: int, videoMem: int, vidmapped: bool, va: int, user: bool): Translation {
    if MB_128 <= va < MB_132 then To(EIGHT_MB + pid * FOUR_MB + (va - MB_128))
    else if MB_132 <= va < MB_132 + FOUR_KB && vidmapped then To(videoMem + (va - MB_132))
    else if !user && FOUR_MB <= va < EIGHT_MB then To(va)
    else if !user && VIDEO_ADDR <= va < VIDEO_ADDR + VIDEO_PAGES * FOUR_KB then To(va)
    else Fault
  }

  /** The first 4 MB: only the video pages are present. */
  lemma WalkLow(m: Mmu, pid: nat, videoMem: int, va: int, user: bool, write: bool)
    requires Maps(m, pid, videoMem) && 0 <= va < FOUR_MB
    ensures Walk(m, va, user, write) == AddressSpace(pid, videoMem, m.dir[USER_VMEM_INDEX].p, va, user)
  {
    assert va / FOUR_MB == 0 && va / FOUR_KB < NUM_PAGES;
    assert TableAt(m, m.dir[0].address20) == m.table0;
    assert VIDEO_ADDR <= va < VIDEO_ADDR + VIDEO_PAGES * FOUR_KB <==>
      VIDEO_ADDR / FOUR_KB <= va / FOUR_KB < VIDEO_ADDR / FOUR_KB + VIDEO_PAGES;
  }

  /** The 4 MB from 132 MB on: one page, once it is mapped. */
  lemma WalkVidmap(m: Mmu, pid: nat, videoMem: int, va: int, user: bool, write: bool)
    requires Maps(m, pid, videoMem) && videoMem % FOUR_KB == 0
    requires MB_132 <= va < MB_132 + FOUR_MB
    ensures Walk(m, va, user, write) == AddressSpace(pid, videoMem, m.dir[USER_VMEM_INDEX].p, va, user)
  {
    assert va / FOUR_MB == USER_VMEM_INDEX && va % FOUR_KB == (va - MB_132) % FOUR_KB;
    if m.dir[USER_VMEM_INDEX].p {
      assert TableAt(m, m.dir[USER_VMEM_INDEX].address20) == m.table1;
      assert va / FOUR_KB % NUM_PAGES == (va - MB_132) / FOUR_KB;
    }
  }

  /** Every linear address, in either mode, for reads and writes, translates as `AddressSpace` says. */
  lemma WalkIsAddressSpace(m: Mmu, pid: nat, videoMem: int, va: int, user: bool, write: bool)
    requires Maps(m, pid, videoMem) && videoMem % FOUR_KB == 0
    requires 0 <= va < ADDRESSES
    ensures Walk(m, va, user, write) == AddressSpace(pid, videoMem, m.dir[USER_VMEM_INDEX].p, va, user)
  {
    if va < FOUR_MB {
      WalkLow(m, pid, videoMem, va, user, write);
    } else if MB_132 <= va < MB_132 + FOUR_MB {
      WalkVidmap(m, pid, videoMem, va, user, write);
    } else if FOUR_MB <= va < EIGHT_MB {
      assert va / FOUR_MB == 1 && va % FOUR_MB == va - FOUR_MB;
    } else if MB_128 <= va < MB_132 {
      assert va / FOUR_MB == USER_PROGRAM_MEM_INDEX && va % FOUR_MB == va - MB_128;
    } else {
      assert m.dir[va / FOUR_MB] == ABSENT_PDE;
    }
  }

  /** Without a process the program's 4 MB fault, and nothing else changes. */
  lemma UnmappedFaults(m: Mmu, pid: nat, videoMem: int, va: int, user: bool, write: bool)
    requires Maps(m, pid, videoMem) && 0 <= va < ADDRESSES
    ensures Walk(UnmapProcess(m), va, user, write) ==
      if MB_128 <= va < MB_132 then Fault else Walk(m, va, user, write)
  {
    assert MB_128 <= va < MB_132 <==> va / FOUR_MB == USER_PROGRAM_MEM_INDEX;
  }

  /** No two processes share a byte, and none touches the kernel page or the video memory. */
  lemma FramesAreDisjoint(p: nat, q: nat, a: nat, b: nat)
    requires p != q && a < FOUR_MB && b < FOUR_MB
    ensures FrameOf(p) + a != FrameOf(q) + b
    ensures FrameOf(p) == 0x800000 + p * 0x400000 && FrameOf(p) + a >= EIGHT_MB > VIDEO_ADDR + VIDEO_PAGES * FOUR_KB
  {
  }
}
