/** The intrusive list of fish/blink.S over the static pool of fish/fish.c. A pointer into
    blink_array is the index of its cell; NULL is -1. */
module BlinkDriver {
  import opened Bytes
  import opened Blink

  const NULL := -1

  /** struct mp1_blink_struct */
  datatype Cell = Cell(
    location: Word, onChar: Byte, offChar: Byte, onLength: Word, offLength: Word,
    countdown: Word, status: Word, next: int)

  const ZEROED := Cell(0, 0, 0, 0, 0, 0, 0, NULL)

  function Value(c: Cell): Blinker {
    Blinker(c.location, c.onChar, c.offChar, c.onLength, c.offLength, c.countdown, c.status % 2 == 1)
  }

  function Values(cells: seq<Cell>, chain: seq<nat>): (list: seq<Blinker>)
    requires InPool(cells, chain)
    ensures |list| == |chain|
  {
    seq(|chain|, i requires 0 <= i < |chain| => Value(cells[chain[i]]))
  }

  predicate InPool(cells: seq<Cell>, chain: seq<nat>) {
    forall i :: 0 <= i < |chain| ==> chain[i] < |cells|
  }

  ghost predicate Distinct(chain: seq<nat>) {
    forall i, j :: 0 <= i < j < |chain| ==> chain[i] != chain[j]
  }

  /** The cell that link `i` of the chain leads to; link 0 is the list head. */
  function LinkTo(chain: seq<nat>, i: nat): int
    requires i <= |chain|
  {
    if i < |chain| then chain[i] else NULL
  }

  /** The list is acyclic: from the head its links run once through the chain. */
  ghost predicate Linked(cells: seq<Cell>, head: int, chain: seq<nat>) {
    && InPool(cells, chain) && Distinct(chain) && head == LinkTo(chain, 0)
    && forall i {:trigger cells[chain[i]].next} :: 0 <= i < |chain| ==> cells[chain[i]].next == LinkTo(chain, i + 1)
  }

  /** A cell in use: location 0 marks the free ones. */
  ghost predicate Live(cells: seq<Cell>, n: nat) {
    n < |cells| && cells[n].location != 0
  }

  /** The list holds exactly the cells with a non-zero location. */
  ghost predicate Exact(cells: seq<Cell>, chain: seq<nat>) {
    && (forall i :: 0 <= i < |chain| ==> chain[i] < |cells| && cells[chain[i]].location != 0)
    && (forall n {:trigger Live(cells, n)} :: Live(cells, n) ==> n in chain)
    && (forall n {:trigger cells[n].location} :: 0 <= n < |cells| ==> cells[n].location < CELLS)
  }

  ghost predicate Valid(cells: seq<Cell>, head: int, chain: seq<nat>) {
    |cells| == CELLS && Linked(cells, head, chain) && Exact(cells, chain)
  }

  // -------------------------------------------------------------- live + free = pool

  ghost function Members(chain: seq<nat>): set<nat> {
    set n | n in chain
  }

  ghost function Indices(k: nat): (s: set<nat>)
    ensures forall n :: n in s <==> 0 <= n < k
    ensures |s| == k
  {
    if k == 0 then {} else Indices(k - 1) + {k - 1}
  }

  ghost function FreeCells(cells: seq<Cell>): set<nat> {
    set n | n in Indices(|cells|) && cells[n].location == 0
  }

  lemma {:induction false} DistinctCount(chain: seq<nat>)
    requires Distinct(chain)
    ensures |Members(chain)| == |chain|
  {
    if chain != [] {
      var rest := chain[1..];
      DistinctCount(rest);
      assert Members(chain) == {chain[0]} + Members(rest);
      assert chain[0] !in rest;
    }
  }

  /** A cell is on the list or free, and not both. */
  lemma LiveOrFree(cells: seq<Cell>, chain: seq<nat>)
    requires Exact(cells, chain)
    ensures Members(chain) + FreeCells(cells) == Indices(|cells|) && Members(chain) !! FreeCells(cells)
  {
    forall n | n in chain
      ensures 0 <= n < |cells| && cells[n].location != 0
    {
      var i :| 0 <= i < |chain| && chain[i] == n;
    }
    forall n | n in Indices(|cells|)
      ensures n in chain || n in FreeCells(cells)
    {
      assert Live(cells, n) ==> n in chain;
    }
  }

  /** Live and free cells add up to the pool. */
  lemma LiveAndFree(cells: seq<Cell>, head: int, chain: seq<nat>)
    requires Linked(cells, head, chain) && Exact(cells, chain)
    ensures |chain| + |FreeCells(cells)| == |cells|
  {
    DistinctCount(chain);
    LiveOrFree(cells, chain);
  }

  lemma FreeOrNot(cells: seq<Cell>)
    ensures |FreeCells(cells)| == 0 <==> forall n :: 0 <= n < |cells| ==> cells[n].location != 0
  {
    var free := FreeCells(cells);
    if n :| 0 <= n < |cells| && cells[n].location == 0 {
      assert n in free;
      assert free == (free - {n}) + {n};
    } else {
      assert free == {};
    }
  }

  /** So the list is full exactly when no cell is free. */
  lemma FullPool(cells: seq<Cell>, head: int, chain: seq<nat>)
    requires Valid(cells, head, chain)
    ensures |chain| <= CELLS
    ensures |chain| == CELLS <==> forall n :: 0 <= n < CELLS ==> cells[n].location != 0
  {
    LiveAndFree(cells, head, chain);
    FreeOrNot(cells);
  }

  /** From node `i` the link leads to node `i + 1`, or out of the list. */
  lemma FollowLink(cells: seq<Cell>, head: int, chain: seq<nat>, i: nat)
    requires Linked(cells, head, chain) && i < |chain|
    ensures chain[i] < |cells| && cells[chain[i]].next == LinkTo(chain, i + 1)
  {
  }

  /** The first free cell at or after `i`. */
  function FirstFree(cells: seq<Cell>, i: nat): (n: nat)
    requires i <= |cells|
    ensures i <= n <= |cells| && (n < |cells| ==> cells[n].location == 0)
    ensures forall j :: i <= j < n ==> cells[j].location != 0
    decreases |cells| - i
  {
    if i == |cells| || cells[i].location == 0 then i else FirstFree(cells, i + 1)
  }

  lemma {:induction false} FindIs(list: seq<Blinker>, location: Word, i: nat)
    requires i <= |list| && (i < |list| ==> list[i].location == location)
    requires forall j :: 0 <= j < i ==> list[j].location != location
    ensures Find(list, location) == i
  {
    var k := Find(list, location);
    assert k < |list| ==> list[k].location == location;
  }

  // ------------------------------------------------------------- changes to the list

  lemma InsertLinks(cells: seq<Cell>, head: int, chain: seq<nat>, n: nat, c: Cell)
    requires Linked(cells, head, chain) && n < |cells| && n !in chain && c.next == head
    ensures Linked(cells[n := c], n, [n] + chain)
  {
    var cells', chain' := cells[n := c], [n] + chain;
    forall i | 0 <= i < |chain'|
      ensures chain'[i] < |cells| && cells'[chain'[i]].next == LinkTo(chain', i + 1)
    {
      if i > 0 {
        assert chain'[i] == chain[i - 1];
      }
    }
  }

  lemma InsertExact(cells: seq<Cell>, head: int, chain: seq<nat>, n: nat, c: Cell)
    requires Valid(cells, head, chain) && n < CELLS && n !in chain && c.location < CELLS
    ensures Exact(cells[n := c], [n] + chain) <==> c.location != 0
  {
    var cells', chain' := cells[n := c], [n] + chain;
    assert chain'[0] == n && chain'[1..] == chain;
    if c.location != 0 {
      forall m | Live(cells', m)
        ensures m in chain'
      {
        assert m != n ==> Live(cells, m);
      }
      forall i | 0 <= i < |chain'|
        ensures chain'[i] < CELLS && cells'[chain'[i]].location != 0
      {
        if i > 0 {
          assert chain'[i] == chain[i - 1];
        }
      }
    }
  }

  /** A free cell may be filled and put at the head of the list; location 0 marks a cell as
      free, so a blinker there breaks the list. */
  lemma InsertKeeps(cells: seq<Cell>, head: int, chain: seq<nat>, n: nat, c: Cell)
    requires Valid(cells, head, chain) && n < CELLS && cells[n].location == 0
    requires c.next == head && c.location < CELLS
    ensures Linked(cells[n := c], n, [n] + chain)
    ensures Values(cells[n := c], [n] + chain) == [Value(c)] + Values(cells, chain)
    ensures Valid(cells[n := c], n, [n] + chain) <==> c.location != 0
  {
    forall i | 0 <= i < |chain|
      ensures chain[i] != n
    {
      assert cells[chain[i]].location != 0;
    }
    InsertLinks(cells, head, chain, n, c);
    InsertExact(cells, head, chain, n, c);
    InsertValues(cells, chain, n, c);
  }

  lemma InsertValues(cells: seq<Cell>, chain: seq<nat>, n: nat, c: Cell)
    requires InPool(cells, chain) && n < |cells| && forall i :: 0 <= i < |chain| ==> chain[i] != n
    ensures InPool(cells[n := c], [n] + chain)
    ensures Values(cells[n := c], [n] + chain) == [Value(c)] + Values(cells, chain)
  {
    var cells', chain' := cells[n := c], [n] + chain;
    forall i | 0 <= i < |chain'|
      ensures Values(cells', chain')[i] == ([Value(c)] + Values(cells, chain))[i]
    {
      if i > 0 {
        assert chain'[i] == chain[i - 1] && chain[i - 1] != n;
      }
    }
  }

  /** The chain without its node `i`. */
  function Without(chain: seq<nat>, i: nat): seq<nat>
    requires i < |chain|
  {
    chain[..i] + chain[i + 1..]
  }

  /** Unlinking node `i`: its predecessor's link skips it, and the cell is zeroed. */
  function Unlinked(cells: seq<Cell>, chain: seq<nat>, i: nat): seq<Cell>
    requires InPool(cells, chain) && i < |chain|
  {
    var next := cells[chain[i]].next;
    var relinked := if i == 0 then cells else cells[chain[i - 1] := cells[chain[i - 1]].(next := next)];
    relinked[chain[i] := ZEROED]
  }

  function UnlinkedHead(cells: seq<Cell>, head: int, chain: seq<nat>, i: nat): int
    requires InPool(cells, chain) && i < |chain|
  {
    if i == 0 then cells[chain[0]].next else head
  }

  lemma WithoutElements(chain: seq<nat>, i: nat)
    requires i < |chain|
    ensures |Without(chain, i)| == |chain| - 1
    ensures forall k :: 0 <= k < |chain| - 1 ==> Without(chain, i)[k] == chain[if k < i then k else k + 1]
  {
  }

  lemma UnlinkLinks(cells: seq<Cell>, head: int, chain: seq<nat>, i: nat)
    requires Linked(cells, head, chain) && i < |chain|
    ensures Linked(Unlinked(cells, chain, i), UnlinkedHead(cells, head, chain, i), Without(chain, i))
  {
    var cells', chain' := Unlinked(cells, chain, i), Without(chain, i);
    WithoutElements(chain, i);
    forall k | 0 <= k < |chain'|
      ensures chain'[k] < |cells| && cells'[chain'[k]].next == LinkTo(chain', k + 1)
    {
      var j := if k < i then k else k + 1;
      assert chain'[k] == chain[j] && cells[chain[j]].next == LinkTo(chain, j + 1);
    }
    assert cells[chain[i]].next == LinkTo(chain, i + 1);
  }

  lemma UnlinkKeepsOthers(cells: seq<Cell>, chain: seq<nat>, i: nat, m: nat)
    requires InPool(cells, chain) && i < |chain| && m in chain && m != chain[i]
    ensures m in Without(chain, i)
  {
    WithoutElements(chain, i);
    var k :| 0 <= k < |chain| && chain[k] == m;
    assert Without(chain, i)[if k < i then k else k - 1] == m;
  }

  lemma UnlinkKeepsLive(cells: seq<Cell>, chain: seq<nat>, i: nat, k: nat)
    requires InPool(cells, chain) && Distinct(chain) && i < |chain| && k < |Without(chain, i)|
    requires forall j :: 0 <= j < |chain| ==> cells[chain[j]].location != 0
    ensures Without(chain, i)[k] < |cells| && Unlinked(cells, chain, i)[Without(chain, i)[k]].location != 0
  {
    WithoutElements(chain, i);
    var j := if k < i then k else k + 1;
    assert Without(chain, i)[k] == chain[j] && cells[chain[j]].location != 0;
  }

  lemma UnlinkExact(cells: seq<Cell>, head: int, chain: seq<nat>, i: nat)
    requires Valid(cells, head, chain) && i < |chain|
    ensures Exact(Unlinked(cells, chain, i), Without(chain, i))
  {
    var cells' := Unlinked(cells, chain, i);
    forall m | Live(cells', m)
      ensures m in Without(chain, i)
    {
      assert Live(cells, m) && m != chain[i];
      UnlinkKeepsOthers(cells, chain, i, m);
    }
    forall k | 0 <= k < |Without(chain, i)|
      ensures Without(chain, i)[k] < |cells| && cells'[Without(chain, i)[k]].location != 0
    {
      UnlinkKeepsLive(cells, chain, i, k);
    }
  }

  lemma UnlinkKeeps(cells: seq<Cell>, head: int, chain: seq<nat>, i: nat)
    requires Valid(cells, head, chain) && i < |chain|
    ensures Valid(Unlinked(cells, chain, i), UnlinkedHead(cells, head, chain, i), Without(chain, i))
    ensures Values(Unlinked(cells, chain, i), Without(chain, i)) ==
      Values(cells, chain)[..i] + Values(cells, chain)[i + 1..]
  {
    UnlinkLinks(cells, head, chain, i);
    UnlinkExact(cells, head, chain, i);
    UnlinkValues(cells, chain, i);
  }

  lemma UnlinkValues(cells: seq<Cell>, chain: seq<nat>, i: nat)
    requires InPool(cells, chain) && Distinct(chain) && i < |chain|
    requires InPool(Unlinked(cells, chain, i), Without(chain, i))
    ensures Values(Unlinked(cells, chain, i), Without(chain, i)) ==
      Values(cells, chain)[..i] + Values(cells, chain)[i + 1..]
  {
    WithoutElements(chain, i);
    var before, after := Values(cells, chain), Values(Unlinked(cells, chain, i), Without(chain, i));
    forall k | 0 <= k < |chain| - 1
      ensures after[k] == (before[..i] + before[i + 1..])[k]
    {
      var j := if k < i then k else k + 1;
      assert Without(chain, i)[k] == chain[j] && after[k] == before[j];
    }
  }

  /** Changing a cell's timing changes its value only. */
  lemma RetimeKeeps(cells: seq<Cell>, head: int, chain: seq<nat>, i: nat, c: Cell)
    requires Valid(cells, head, chain) && i < |chain|
    requires c.next == cells[chain[i]].next && c.location == cells[chain[i]].location
    ensures Valid(cells[chain[i] := c], head, chain)
    ensures Values(cells[chain[i] := c], chain) == Values(cells, chain)[i := Value(c)]
  {
    var cells' := cells[chain[i] := c];
    forall m | Live(cells', m)
      ensures m in chain
    {
      assert Live(cells, m);
    }
  }

  /** What a blinker at location 0 leads to: its cell is still the first free one, so the next
      ADD takes it again and links it to itself, and the list has no end any more. */
  lemma ZeroLocationMakesCycle(cells: seq<Cell>, n: nat, c: Cell, again: Cell)
    requires n == FirstFree(cells, 0) && n < |cells| && c.location == 0 && again.next == n
    ensures FirstFree(cells[n := c], 0) == n
    ensures var cells' := cells[n := c][n := again];
      forall chain: seq<nat> :: !Linked(cells', n, chain)
  {
    var cells' := cells[n := c][n := again];
    assert cells[n := c][n].location == 0;
    FirstFreeIs(cells[n := c], 0, n);
    forall chain: seq<nat>
      ensures !Linked(cells', n, chain)
    {
      if InPool(cells', chain) && chain != [] && chain[0] == n {
        assert cells'[chain[0]].next == n;
      }
    }
  }

  lemma {:induction false} FirstFreeIs(cells: seq<Cell>, i: nat, n: nat)
    requires i <= n < |cells| && cells[n].location == 0 && forall j :: i <= j < n ==> cells[j].location != 0
    ensures FirstFree(cells, i) == n
    decreases n - i
  {
    if i < n {
      FirstFreeIs(cells, i + 1, n);
    }
  }

  /** The list after the tasklet has visited its first `i` cells. */
  function PartlyTicked(list: seq<Blinker>, i: nat): seq<Blinker>
    requires i <= |list|
  {
    seq(|list|, j requires 0 <= j < |list| => if j < i then TickOne(list[j]) else list[j])
  }

  lemma PartlyTickedSteps(list: seq<Blinker>)
    ensures PartlyTicked(list, 0) == list
    ensures forall i :: 0 <= i < |list| ==>
      PartlyTicked(list, i)[i] == list[i] && PartlyTicked(list, i)[i := TickOne(list[i])] == PartlyTicked(list, i + 1)
  {
    forall i | 0 <= i < |list|
      ensures PartlyTicked(list, i)[i := TickOne(list[i])] == PartlyTicked(list, i + 1)
    {
    }
  }

  class Blinkers {
    /** blink_array */
    const pool: array<Cell>
    /** mp1_list_head */
    var head: int
    /** The video page that vmem_base_addr points to. */
    const vmem: array<Byte>
    /** The cells of the list from the head on. */
    ghost var chain: seq<nat>

    ghost predicate Ok()
      reads this, pool
    {
      pool.Length == CELLS && vmem.Length == VMEM_SIZE && Valid(pool[..], head, chain)
    }

    ghost function Contents(): State
      requires Ok()
      reads this, pool, vmem
    {
      State(Values(pool[..], chain), vmem[..])
    }

    /** main: a zeroed pool and the mapped video page. */
    constructor (vmem: array<Byte>)
      requires vmem.Length == VMEM_SIZE
      ensures Ok() && this.vmem == vmem && fresh(pool)
      ensures Contents() == State([], vmem[..])
    {
      pool := new Cell[CELLS](_ => ZEROED);
      this.vmem, head, chain := vmem, NULL, [];
    }

    /** mp1_poke */
    method PokeCell(location: Word, c: Byte)
      requires vmem.Length == VMEM_SIZE && location < CELLS
      modifies vmem
      ensures vmem[..] == Poke(old(vmem[..]), location, c)
    {
      vmem[2 * location] := c;
    }

    /** mp1_malloc: the first cell with location 0. */
    method Malloc() returns (n: int)
      requires Ok()
      ensures -1 <= n < CELLS && |chain| <= CELLS && (n == NULL <==> |chain| == CELLS)
      ensures n != NULL ==> n == FirstFree(pool[..], 0)
    {
      FullPool(pool[..], head, chain);
      var i := 0;
      while i < CELLS
        invariant 0 <= i <= CELLS && FirstFree(pool[..], 0) == FirstFree(pool[..], i)
      {
        if pool[i].location == 0 {
          assert pool[..][i].location == 0;
          return i;
        }
        i := i + 1;
      }
      n := NULL;
    }

    /** Reads the link out of node `i`. */
    method NextOf(n: int, ghost i: nat) returns (next: int)
      requires Ok() && i < |chain| && n == chain[i]
      ensures 0 <= n < CELLS && next == LinkTo(chain, i + 1)
    {
      FollowLink(pool[..], head, chain, i);
      assert pool[n] == pool[..][n];
      next := pool[n].next;
    }

    /** mp1_find_helper: the cell of the first blinker at a location. */
    method FindHelper(location: Word) returns (n: int)
      requires Ok()
      ensures var i := Find(Values(pool[..], chain), location);
        i <= |chain| && n == LinkTo(chain, i)
    {
      n := head;
      ghost var i, list := 0, Values(pool[..], chain);
      while n != NULL
        invariant 0 <= i <= |chain| && n == LinkTo(chain, i)
        invariant forall j :: 0 <= j < i ==> list[j].location != location
        decreases |chain| - i
      {
        var next := NextOf(n, i);
        assert list[i].location == pool[n].location;
        if pool[n].location == location {
          FindIs(list, location, i);
          return;
        }
        n := next;
        i := i + 1;
      }
      FindIs(list, location, i);
    }

    /** mp1_ioctl_add, on a copy of the user's structure. */
    method IoctlAdd(location: Word, onChar: Byte, offChar: Byte, onLength: Word, offLength: Word) returns (r: int)
      requires Ok()
      modifies this, pool, vmem
      ensures r == if Succeeds(old(Contents()), Add(location, onChar, offChar, onLength, offLength)) then 0 else -1
      ensures Ok() <==> r == -1 || location != 0
      ensures Ok() ==> Contents() == Step(old(Contents()), Add(location, onChar, offChar, onLength, offLength))
      ensures r == -1 ==> Ok() && Contents() == old(Contents())
    {
      if location >= CELLS {
        return -1;
      }
      var n := Malloc();
      if n == NULL {
        return -1;
      }
      var c := Cell(location, onChar, offChar, onLength, offLength, onLength, 1, head);
      InsertKeeps(pool[..], head, chain, n, c);
      AddStep(Contents(), Add(location, onChar, offChar, onLength, offLength));
      ghost var before := pool[..];
      pool[n] := c;
      assert pool[..] == before[n := c];
      head := n;
      chain := [n] + chain;
      PokeCell(location, onChar);
      r := 0;
    }

    /** The pointer walk of mp1_ioctl_remove: the cell whose link leads to `n`, NULL for the head. */
    method FindPrev(n: int, ghost i: nat) returns (prev: int)
      requires Ok() && i < |chain| && n == chain[i]
      ensures prev == if i == 0 then NULL else chain[i - 1]
    {
      prev := NULL;
      var link := head;
      ghost var k := 0;
      while link != n
        invariant 0 <= k <= i && link == chain[k]
        invariant prev == if k == 0 then NULL else chain[k - 1]
        decreases i - k
      {
        prev := link;
        link := NextOf(link, k);
        k := k + 1;
      }
    }

    /** Skips the cell in its predecessor's link and frees it. */
    method Unlink(prev: int, n: int, ghost i: nat)
      requires Ok() && i < |chain| && n == chain[i]
      requires prev == if i == 0 then NULL else chain[i - 1]
      modifies this, pool
      ensures Ok() && chain == Without(old(chain), i)
      ensures Values(pool[..], chain) == old(Values(pool[..], chain))[..i] + old(Values(pool[..], chain))[i + 1..]
    {
      UnlinkKeeps(pool[..], head, chain, i);
      ghost var before := pool[..];
      var next := pool[n].next;
      if prev == NULL {
        head := next;
      } else {
        pool[prev] := pool[prev].(next := next);
      }
      pool[n] := ZEROED;
      assert pool[..] == Unlinked(before, chain, i);
      chain := Without(chain, i);
    }

    /** mp1_ioctl_remove */
    method IoctlRemove(location: Word) returns (r: int)
      requires Ok()
      modifies this, pool
      ensures Ok() && r == if Succeeds(old(Contents()), Remove(location)) then 0 else -1
      ensures Contents() == Step(old(Contents()), Remove(location)) && vmem[..] == old(vmem[..])
      ensures r == -1 ==> Contents() == old(Contents())
    {
      var n := FindHelper(location);
      if n == NULL {
        return -1;
      }
      ghost var i := Find(Values(pool[..], chain), location);
      var prev := FindPrev(n, i);
      Unlink(prev, n, i);
      r := 0;
    }

    /** mp1_ioctl_sync: the low half of the argument gets the timing of the high half. */
    method IoctlSync(src: Word, dst: Word) returns (r: int)
      requires Ok()
      modifies pool, vmem
      ensures Ok() && r == if Succeeds(old(Contents()), Sync(src, dst)) then 0 else -1
      ensures Contents() == Step(old(Contents()), Sync(src, dst))
      ensures r == -1 ==> Contents() == old(Contents())
    {
      var s := FindHelper(src);
      if s == NULL {
        return -1;
      }
      var d := FindHelper(dst);
      if d == NULL {
        return -1;
      }
      ghost var j := Find(Values(pool[..], chain), dst);
      var c := pool[d].(onLength := pool[s].onLength, offLength := pool[s].offLength,
                        countdown := pool[s].countdown, status := pool[s].status);
      RetimeKeeps(pool[..], head, chain, j, c);
      ghost var before := pool[..];
      pool[d] := c;
      assert pool[..] == before[chain[j] := c];
      PokeCell(c.location, c.offChar);
      r := 0;
    }

    /** The countdown of one cell, and its toggle and paint when it runs out. */
    method CountDown(cell: Cell) returns (c: Cell)
      requires vmem.Length == VMEM_SIZE && cell.location < CELLS
      modifies vmem
      ensures c.next == cell.next && c.location == cell.location && Value(c) == TickOne(Value(cell))
      ensures vmem[..] ==
        if Toggles(Value(cell)) then Poke(old(vmem[..]), cell.location, Glyph(Value(c))) else old(vmem[..])
    {
      c := cell.(countdown := Dec(cell.countdown));
      if Signed(c.countdown) <= 0 {
        var length;
        if c.status % 2 == 1 {
          PokeCell(c.location, c.offChar);
          length := c.offLength;
        } else {
          PokeCell(c.location, c.onChar);
          length := c.onLength;
        }
        c := c.(countdown := length, status := if c.status % 2 == 1 then c.status - 1 else c.status + 1);
      }
    }

    /** One cell of the tasklet's loop: the countdown, and a toggle with its paint when it runs out. */
    method TickCellAt(n: int, ghost i: nat)
      requires Ok() && i < |chain| && n == chain[i]
      modifies pool, vmem
      ensures Ok()
      ensures Values(pool[..], chain) == old(Values(pool[..], chain))[i := TickOne(old(Values(pool[..], chain))[i])]
      ensures var b := old(Values(pool[..], chain))[i];
        vmem[..] == if Toggles(b) then Poke(old(vmem[..]), b.location, Glyph(TickOne(b))) else old(vmem[..])
    {
      var c := CountDown(pool[n]);
      RetimeKeeps(pool[..], head, chain, i, c);
      ghost var before := pool[..];
      pool[n] := c;
      assert pool[..] == before[chain[i] := c];
    }

    /** mp1_rtc_tasklet */
    method RtcTasklet()
      requires Ok()
      modifies pool, vmem
      ensures Ok() && Contents() == Step(old(Contents()), Tick)
    {
      ghost var list := Values(pool[..], chain);
      ghost var painted := TickAll(list, vmem[..]).vmem;
      PartlyTickedSteps(list);
      TickAllLength(list, vmem[..]);
      var n := head;
      ghost var i := 0;
      assert list[0..] == list;
      while n != NULL
        invariant 0 <= i <= |chain| && n == LinkTo(chain, i) && Ok()
        invariant Values(pool[..], chain) == PartlyTicked(list, i)
        invariant painted == TickAll(list[i..], vmem[..]).vmem
        decreases |chain| - i
      {
        TickCellAt(n, i);
        assert list[i..][1..] == list[i + 1..];
        n := NextOf(n, i);
        i := i + 1;
      }
      assert Values(pool[..], chain) == TickAll(list, old(vmem[..])).list;
    }
  }
}
