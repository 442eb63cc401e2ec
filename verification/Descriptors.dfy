/** The per-process file_array: eight slots, the first two for stdin and stdout. */
module Descriptors {
  import opened Bytes

  const FILE_ARRAY_SIZE := 8
  const FILE_START_IDX := 2

  datatype FileKind = NoKind | Stdin | Stdout | Regular | Directory

  /** One slot: operation table, inode, position, and whether flags is FILE_OPEN. */
  datatype Fd = Fd(ops: FileKind, inode: nat, fpos: nat, open: bool)

  type FileTable = t: seq<Fd> | |t| == FILE_ARRAY_SIZE witness seq(FILE_ARRAY_SIZE, _ => Fd(NoKind, 0, 0, false))

  type Slot = i: int | FILE_START_IDX <= i < FILE_ARRAY_SIZE witness FILE_START_IDX

  /** An open file as its user knows it. */
  datatype OpenFile = OpenFile(kind: FileKind, inode: nat, pos: nat)

  /** The partial map a table stands for: the open descriptors 2 to 7. */
  function OpenFiles(t: FileTable): map<int, OpenFile> {
    map i | FILE_START_IDX <= i < FILE_ARRAY_SIZE && t[i].open :: OpenFile(t[i].ops, t[i].inode, t[i].fpos)
  }

  /** The first closed slot at or after `i`, or FILE_ARRAY_SIZE. */
  function FreeSlot(t: FileTable, i: nat): (fd: nat)
    requires FILE_START_IDX <= i <= FILE_ARRAY_SIZE
    ensures i <= fd <= FILE_ARRAY_SIZE
    ensures fd < FILE_ARRAY_SIZE ==> !t[fd].open
    ensures forall k :: i <= k < fd ==> t[k].open
    decreases FILE_ARRAY_SIZE - i
  {
    if i == FILE_ARRAY_SIZE || !t[i].open then i else FreeSlot(t, i + 1)
  }

  /** fopen (for a name that exists) and dopen, without the returned descriptor. */
  function Open(t: FileTable, kind: FileKind, inode: nat): FileTable {
    var fd := FreeSlot(t, FILE_START_IDX);
    if fd == FILE_ARRAY_SIZE then t else t[fd := Fd(kind, inode, 0, true)]
  }

  /** fclose and dclose on a descriptor 2 to 7. */
  function Close(t: FileTable, fd: Slot): FileTable {
    t[fd := t[fd].(open := false)]
  }

  /** The position change of fread and dread. */
  function Advance(t: FileTable, fd: Slot, n: nat): FileTable {
    t[fd := t[fd].(fpos := t[fd].fpos + n)]
  }

  /** Halting closes every descriptor from 2 on. */
  function CloseAll(t: FileTable): FileTable {
    seq(FILE_ARRAY_SIZE, i requires 0 <= i < FILE_ARRAY_SIZE =>
      if i < FILE_START_IDX then t[i] else t[i].(open := false))
  }

  /** initialize_stdio. */
  function WithStdio(t: FileTable): FileTable {
    t[0 := Fd(Stdin, 0, 0, true)][1 := Fd(Stdout, 0, 0, true)]
  }

  predicate Clean(t: FileTable) {
    forall i :: FILE_START_IDX <= i < FILE_ARRAY_SIZE ==> !t[i].open
  }

  predicate HasStdio(t: FileTable) {
    t[0] == Fd(Stdin, 0, 0, true) && t[1] == Fd(Stdout, 0, 0, true)
  }

  // ------------------------------------------------------ the table as a partial map

  /** What a process does with its descriptors. */
  datatype FdOp = OpenOp(kind: FileKind, inode: nat) | CloseOp(fd: Slot) | ReadOp(fd: Slot, n: nat)

  /** The concrete step; a read of a closed descriptor is refused by system_read. */
  function FdStep(t: FileTable, op: FdOp): FileTable {
    match op
    case OpenOp(kind, inode) => Open(t, kind, inode)
    case CloseOp(fd) => if t[fd].open then Close(t, fd) else t
    case ReadOp(fd, n) => if t[fd].open then Advance(t, fd, n) else t
  }

  lemma FdStepKeepsStdio(t: FileTable, op: FdOp)
    requires HasStdio(t)
    ensures HasStdio(FdStep(t, op))
  {
  }

  /** Only an open makes a table with closed descriptors one with an open descriptor. */
  lemma FdStepKeepsClean(t: FileTable, op: FdOp)
    requires Clean(t)
    ensures Clean(FdStep(t, op)) <==> !op.OpenOp?
  {
    if op.OpenOp? {
      assert FreeSlot(t, FILE_START_IDX) == FILE_START_IDX;
      assert FdStep(t, op)[FILE_START_IDX].open;
    }
  }

  function FdRun(t: FileTable, ops: seq<FdOp>): FileTable
    decreases |ops|
  {
    if ops == [] then t else FdRun(FdStep(t, ops[0]), ops[1..])
  }

  ghost predicate LeastFree(m: map<int, OpenFile>, fd: int) {
    FILE_START_IDX <= fd < FILE_ARRAY_SIZE && fd !in m && forall k :: FILE_START_IDX <= k < fd ==> k in m
  }

  ghost predicate Full(m: map<int, OpenFile>) {
    forall k :: FILE_START_IDX <= k < FILE_ARRAY_SIZE ==> k in m
  }

  /** The same step on a partial map: open takes the least free descriptor, close removes,
      read moves one position, and nothing else changes. */
  ghost predicate MapStep(m: map<int, OpenFile>, op: FdOp, m': map<int, OpenFile>) {
    match op
    case OpenOp(kind, inode) =>
      if Full(m) then m' == m else exists fd :: LeastFree(m, fd) && m' == m[fd := OpenFile(kind, inode, 0)]
    case CloseOp(fd) => m' == m - {fd}
    case ReadOp(fd, n) => m' == if fd in m then m[fd := m[fd].(pos := m[fd].pos + n)] else m
  }

  lemma FdStepRefines(t: FileTable, op: FdOp)
    ensures MapStep(OpenFiles(t), op, OpenFiles(FdStep(t, op)))
    ensures op.OpenOp? ==> (Full(OpenFiles(t)) <==> FreeSlot(t, FILE_START_IDX) == FILE_ARRAY_SIZE)
    ensures op.OpenOp? && !Full(OpenFiles(t)) ==> LeastFree(OpenFiles(t), FreeSlot(t, FILE_START_IDX))
  {
    var m, m' := OpenFiles(t), OpenFiles(FdStep(t, op));
    match op
    case OpenOp(kind, inode) =>
      var fd := FreeSlot(t, FILE_START_IDX);
      if fd < FILE_ARRAY_SIZE {
        assert LeastFree(m, fd) && fd !in m;
        assert m' == m[fd := OpenFile(kind, inode, 0)];
      }
    case CloseOp(fd) =>
      assert m' == m - {fd};
    case ReadOp(fd, n) =>
  }

  /** A run on a partial map: each state follows from the one before. */
  ghost predicate MapTrace(ms: seq<map<int, OpenFile>>, ops: seq<FdOp>) {
    |ms| == |ops| + 1 && forall k :: 0 <= k < |ops| ==> MapStep(ms[k], ops[k], ms[k + 1])
  }

  /** Every run on the table is a run on the partial map. */
  lemma {:induction false} FdRunRefines(t: FileTable, ops: seq<FdOp>) returns (ms: seq<map<int, OpenFile>>)
    ensures MapTrace(ms, ops) && ms[0] == OpenFiles(t) && ms[|ops|] == OpenFiles(FdRun(t, ops))
    decreases |ops|
  {
    if ops == [] {
      ms := [OpenFiles(t)];
    } else {
      FdStepRefines(t, ops[0]);
      var rest := FdRunRefines(FdStep(t, ops[0]), ops[1..]);
      ms := [OpenFiles(t)] + rest;
      forall k | 0 <= k < |ops|
        ensures MapStep(ms[k], ops[k], ms[k + 1])
      {
        if k > 0 {
          assert MapStep(rest[k - 1], ops[1..][k - 1], rest[k]);
        }
      }
    }
  }

  /** Execute looks a file up through the caller's table: opened, read from, closed again. */
  function Probe(t: FileTable, inode: nat, n: nat): FileTable {
    var fd := FreeSlot(t, FILE_START_IDX);
    if fd == FILE_ARRAY_SIZE then t else Close(Advance(Open(t, Regular, inode), fd, n), fd)
  }

  /** Such a probe may dirty a closed slot, but the open files stay what they were. */
  lemma ProbeKeepsOpenFiles(t: FileTable, inode: nat, n: nat)
    ensures OpenFiles(Probe(t, inode, n)) == OpenFiles(t)
    ensures HasStdio(t) ==> HasStdio(Probe(t, inode, n))
    ensures Clean(t) ==> Clean(Probe(t, inode, n))
  {
  }
}
