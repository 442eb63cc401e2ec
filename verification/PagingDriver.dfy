/** page_directory, page_table_0 and page_table_1 as arrays, and the code that writes them. */
module PagingDriver {
  import opened Paging

  class PageTables {
    const directory: array<Entry>
    const table0: array<Entry>
    const table1: array<Entry>
    /** Where the two tables lie in memory. */
    const base0: int
    const base1: int

    ghost predicate Allocated() {
      && directory.Length == NUM_PAGES && table0.Length == NUM_PAGES && table1.Length == NUM_PAGES
      && directory != table0 && directory != table1 && table0 != table1
      && base0 % FOUR_KB == 0 && base1 % FOUR_KB == 0 && base0 != base1
    }

    ghost function State(): (m: Mmu)
      requires Allocated()
      reads directory, table0, table1
      ensures Shaped(m)
    {
      Mmu(directory[..], table0[..], table1[..], base0, base1)
    }

    constructor (base0: int, base1: int)
      requires base0 % FOUR_KB == 0 && base1 % FOUR_KB == 0 && base0 != base1
      ensures Allocated() && State() == InitialMmu(base0, base1)
      ensures fresh(directory) && fresh(table0) && fresh(table1)
    {
      directory := new Entry[NUM_PAGES];
      table0 := new Entry[NUM_PAGES];
      table1 := new Entry[NUM_PAGES];
      this.base0 := base0;
      this.base1 := base1;
      new;
      InitPaging();
    }

    /** init_paging, over arbitrary contents. */
    method InitPaging()
      requires Allocated()
      modifies directory, table0, table1
      ensures State() == InitialMmu(base0, base1)
    {
      var i := 0;
      while i < NUM_PAGES
        invariant 0 <= i <= NUM_PAGES
        invariant forall k :: 0 <= k < i ==> directory[k] == ABSENT_PDE
        invariant forall k :: 0 <= k < i ==> table0[k] == ABSENT_PTE
        invariant forall k :: 0 <= k < i ==> table1[k] == ABSENT_PTE
      {
        directory[i] := ABSENT_PDE;
        table0[i] := ABSENT_PTE;
        table1[i] := ABSENT_PTE;
        i := i + 1;
      }
      directory[0] := directory[0].(p := true, ps := false, address20 := base0 / FOUR_KB);
      var first := VIDEO_ADDR / FOUR_KB % NUM_PAGES;
      i := 0;
      while i < VIDEO_PAGES
        modifies table0
        invariant 0 <= i <= VIDEO_PAGES
        invariant forall k :: 0 <= k < NUM_PAGES ==>
          table0[k] == if first <= k < first + i then ABSENT_PTE.(p := true, address20 := k) else ABSENT_PTE
      {
        var address20 := (VIDEO_ADDR + i * FOUR_KB) / FOUR_KB;
        table0[first + i] := table0[first + i].(p := true, rw := true, address20 := address20);
        i := i + 1;
      }
      directory[1] := directory[1].(p := true, ps := true, address20 := KERNEL_LOCATION);
      ghost var m := InitialMmu(base0, base1);
      assert directory[..] == m.dir && table0[..] == m.table0 && table1[..] == m.table1;
    }

    /** The page-table entry behind USER_VMEM_SYSCALL follows a terminal's screen. */
    method PointVidmapAt(videoMem: int)
      requires Allocated()
      modifies table1
      ensures State() == RetargetVidmap(old(State()), videoMem)
    {
      table1[0] := table1[0].(p := true, address20 := videoMem / FOUR_KB);
    }

    /** setup_paging for a process whose screen is at `videoMem`. */
    method MapProgram(pid: nat, videoMem: int)
      requires Allocated()
      modifies directory, table1
      ensures State() == MapProcess(old(State()), pid, videoMem)
    {
      var i := USER_PROGRAM_MEM_INDEX;
      var physAddr := EIGHT_MB + pid * FOUR_MB;
      directory[i] := directory[i].(us := true);
      directory[i] := directory[i].(p := true);
      directory[i] := directory[i].(ps := true);
      directory[i] := directory[i].(address20 := physAddr / FOUR_MB * 1024);
      PointVidmapAt(videoMem);
    }

    /** undo_user_paging. */
    method UndoUserPaging()
      requires Allocated()
      modifies directory
      ensures State() == UnmapProcess(old(State()))
    {
      directory[USER_PROGRAM_MEM_INDEX] := directory[USER_PROGRAM_MEM_INDEX].(p := false);
    }

    /** The entries system_vidmap writes. */
    method MapScreen(videoMem: int)
      requires Allocated()
      modifies directory, table1
      ensures State() == MapVideo(old(State()), videoMem)
    {
      PointVidmapAt(videoMem);
      table1[0] := table1[0].(rw := true, us := true);
      directory[USER_VMEM_INDEX] := Entry(true, true, true, false, base1 / FOUR_KB);
    }
  }
}
