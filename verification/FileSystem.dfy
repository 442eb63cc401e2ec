/** The read-only file system image of student-distrib/filesys.c: block reads and the directory. */
module FileSystem {
  import opened Bytes
  import opened Division

  const BLOCK := 4096
  const INODE_DATABLOCK := 1023
  const NUM_DIRENTRIES := 63
  const FILE_NAME_SIZE := 32

  datatype Dentry = Dentry(filename: seq<Byte>, filetype: nat, inodeNum: nat)

  datatype Inode = Inode(length: nat, dataBlockNum: seq<nat>)

  /** `data` starts at the first data block and goes on into the memory after the last one. */
  datatype Disk = Disk(direntries: seq<Dentry>, inodes: seq<Inode>, dataCount: nat, data: seq<Byte>)

  predicate WellFormed(d: Disk) {
    && |d.direntries| <= NUM_DIRENTRIES
    && (forall i :: 0 <= i < |d.direntries| ==> |d.direntries[i].filename| == FILE_NAME_SIZE)
    && (forall i :: 0 <= i < |d.inodes| ==> |d.inodes[i].dataBlockNum| == INODE_DATABLOCK)
    && (d.dataCount + 1) * BLOCK <= |d.data|
  }

  // -------------------------------------------------------------------- block reads

  datatype ReadResult = Failed | Bytes(bytes: seq<Byte>)

  /** Where the copies of the read loop stay in the modelled memory: they work through the blocks
      of the inode, or there is one short copy at some distance behind a block. */
  predicate InBounds(d: Disk, ino: Inode, blk: nat, offset: nat, left: nat)
    requires WellFormed(d) && |ino.dataBlockNum| == INODE_DATABLOCK
  {
    || (offset <= BLOCK && blk * BLOCK + offset + left <= INODE_DATABLOCK * BLOCK)
    || (left < BLOCK && blk < INODE_DATABLOCK &&
        (ino.dataBlockNum[blk] < d.dataCount ==> ino.dataBlockNum[blk] * BLOCK + offset + left <= |d.data|))
  }

  /** The bytes the read loop delivers from block index `blk` on, `offset` behind its start. */
  function ReadBlocks(d: Disk, ino: Inode, blk: nat, offset: nat, left: nat): (r: ReadResult)
    requires WellFormed(d) && |ino.dataBlockNum| == INODE_DATABLOCK && InBounds(d, ino, blk, offset, left)
    ensures r.Bytes? ==> |r.bytes| == left
    decreases left + offset
  {
    if left == 0 then Bytes([])
    else if ino.dataBlockNum[blk] >= d.dataCount then Failed
    else
      var base := ino.dataBlockNum[blk] * BLOCK;
      if left >= BLOCK then
        var rest := ReadBlocks(d, ino, blk + 1, 0, left - (BLOCK - offset));
        if rest.Failed? then Failed else Bytes(d.data[base + offset..base + BLOCK] + rest.bytes)
      else Bytes(d.data[base + offset..base + offset + left])
  }

  /** What read_data returns: an error, or the bytes put into the buffer. */
  function Read(d: Disk, inode: nat, offset: nat, length: nat): (r: ReadResult)
    requires Readable(d, inode, offset, length)
    ensures r.Bytes? ==> inode < |d.inodes| && |r.bytes| <= length
  {
    if inode >= |d.inodes| then Failed
    else if offset >= d.inodes[inode].length then Bytes([])
    else ReadBlocks(d, d.inodes[inode], offset / BLOCK, offset, Min(length, d.inodes[inode].length))
  }

  /** The reads that are modelled. The loop starts at the right block but leaves the offset into it
      unreduced, so a long read from behind the first 4096 bytes would copy a negative length. */
  predicate Readable(d: Disk, inode: nat, offset: nat, length: nat) {
    && WellFormed(d)
    && (inode < |d.inodes| && offset < d.inodes[inode].length ==>
          InBounds(d, d.inodes[inode], offset / BLOCK, offset, Min(length, d.inodes[inode].length)))
  }

  /** Every block of the file is on the disk. */
  predicate ValidFile(d: Disk, ino: Inode) {
    && |ino.dataBlockNum| == INODE_DATABLOCK && ino.length <= INODE_DATABLOCK * BLOCK
    && forall b :: 0 <= b < INODE_DATABLOCK && b * BLOCK < ino.length ==> ino.dataBlockNum[b] < d.dataCount
  }

  /** The flat file: its blocks concatenated, cut at its length. */
  function Contents(d: Disk, ino: Inode): seq<Byte>
    requires WellFormed(d) && ValidFile(d, ino)
  {
    seq(ino.length, i requires 0 <= i < ino.length =>
      BlockOfByte(d, ino, i);
      d.data[ino.dataBlockNum[i / BLOCK] * BLOCK + i % BLOCK])
  }

  lemma BlockOfByte(d: Disk, ino: Inode, i: nat)
    requires WellFormed(d) && ValidFile(d, ino) && i < ino.length
    ensures i / BLOCK < INODE_DATABLOCK && ino.dataBlockNum[i / BLOCK] < d.dataCount
    ensures ino.dataBlockNum[i / BLOCK] * BLOCK + i % BLOCK < |d.data|
  {
    assert i / BLOCK * BLOCK < ino.length;
  }

  /** What has been delivered and what is still to be read make up what was asked for. */
  ghost predicate Delivered(wanted: ReadResult, got: seq<Byte>, rest: ReadResult) {
    (wanted.Failed? <==> rest.Failed?) && (wanted.Bytes? ==> got <= wanted.bytes && wanted.bytes[|got|..] == rest.bytes)
  }

  /** One round of the read loop, on the bytes still to be delivered. */
  lemma ReadStep(d: Disk, ino: Inode, blk: nat, offset: nat, left: nat, n: nat, from: nat)
    requires WellFormed(d) && |ino.dataBlockNum| == INODE_DATABLOCK && left > 0
    requires InBounds(d, ino, blk, offset, left)
    requires ino.dataBlockNum[blk] < d.dataCount && from == ino.dataBlockNum[blk] * BLOCK + offset
    requires n == if left >= BLOCK then BLOCK - offset else left
    ensures from + n <= |d.data| && n <= left && InBounds(d, ino, blk + 1, 0, left - n)
    ensures Delivered(ReadBlocks(d, ino, blk, offset, left), d.data[from..from + n],
                      ReadBlocks(d, ino, blk + 1, 0, left - n))
  {
  }

  /** A read that fills the rest of block `blk`, given the read of the blocks after it. */
  lemma LongReadIsSlice(d: Disk, ino: Inode, blk: nat, offset: nat, left: nat, from: nat, to: nat)
    requires WellFormed(d) && ValidFile(d, ino) && offset < BLOCK <= left
    requires from == blk * BLOCK + offset && to == from + left <= ino.length
    requires ReadBlocks(d, ino, blk + 1, 0, left - (BLOCK - offset)) ==
      Bytes(Contents(d, ino)[from + (BLOCK - offset)..to])
    ensures ReadBlocks(d, ino, blk, offset, left) == Bytes(Contents(d, ino)[from..to])
  {
    var n := BLOCK - offset;
    BlockSlice(d, ino, blk, offset, n, from);
    SliceSplit(Contents(d, ino), from, from + n, to);
  }

  /** A read that stays inside block `blk`. */
  lemma ShortReadIsSlice(d: Disk, ino: Inode, blk: nat, offset: nat, left: nat, from: nat)
    requires WellFormed(d) && ValidFile(d, ino) && left < BLOCK && offset + left <= BLOCK
    requires from == blk * BLOCK + offset && from + left <= ino.length
    ensures ReadBlocks(d, ino, blk, offset, left) == Bytes(Contents(d, ino)[from..from + left])
  {
    if left > 0 {
      BlockSlice(d, ino, blk, offset, left, from);
    }
  }

  lemma {:induction false} ReadBlocksIsSlice(
    d: Disk, ino: Inode, blk: nat, offset: nat, left: nat, from: nat, to: nat)
    requires WellFormed(d) && ValidFile(d, ino) && offset < BLOCK
    requires from == blk * BLOCK + offset && to == from + left <= ino.length
    requires left >= BLOCK || offset + left <= BLOCK
    ensures ReadBlocks(d, ino, blk, offset, left) == Bytes(Contents(d, ino)[from..to])
    decreases left
  {
    if left >= BLOCK {
      ReadBlocksIsSlice(d, ino, blk + 1, 0, left - (BLOCK - offset), from + (BLOCK - offset), to);
      LongReadIsSlice(d, ino, blk, offset, left, from, to);
    } else {
      ShortReadIsSlice(d, ino, blk, offset, left, from);
    }
  }

  /** Within one block the file is the block. */
  lemma BlockSlice(d: Disk, ino: Inode, blk: nat, offset: nat, n: nat, from: nat)
    requires WellFormed(d) && ValidFile(d, ino) && offset + n <= BLOCK
    requires from == blk * BLOCK + offset && from + n <= ino.length && n > 0
    ensures blk < INODE_DATABLOCK && ino.dataBlockNum[blk] < d.dataCount
    ensures var base := ino.dataBlockNum[blk] * BLOCK + offset;
      Contents(d, ino)[from..from + n] == d.data[base..base + n]
  {
    assert blk * BLOCK < ino.length;
    var base := ino.dataBlockNum[blk] * BLOCK + offset;
    var slice, block := Contents(d, ino)[from..from + n], d.data[base..base + n];
    forall i | 0 <= i < n
      ensures slice[i] == block[i]
    {
      assert (from + i) / BLOCK == blk && (from + i) % BLOCK == offset + i;
    }
  }

  /** A read is exactly a slice of the flat file when it starts in the first block, ends within
      the file, and is either long (4096 or more) or stays inside that block. */
  lemma ReadIsSlice(d: Disk, inode: nat, offset: nat, length: nat)
    requires WellFormed(d) && inode < |d.inodes| && ValidFile(d, d.inodes[inode])
    requires var m := Min(length, d.inodes[inode].length);
      offset < BLOCK && offset < d.inodes[inode].length && offset + m <= d.inodes[inode].length &&
      (m >= BLOCK || offset + m <= BLOCK)
    ensures Readable(d, inode, offset, length)
    ensures Read(d, inode, offset, length) == Bytes(
      Contents(d, d.inodes[inode])[offset..offset + Min(length, d.inodes[inode].length)])
  {
    var m := Min(length, d.inodes[inode].length);
    ReadBlocksIsSlice(d, d.inodes[inode], 0, offset, m, offset, offset + m);
  }

  /** Every read from the start of a file is exact, so the program image that execute loads is
      the whole file. */
  lemma ReadFromStart(d: Disk, inode: nat, length: nat)
    requires WellFormed(d) && inode < |d.inodes| && ValidFile(d, d.inodes[inode])
    ensures Readable(d, inode, 0, length)
    ensures Read(d, inode, 0, length) ==
      Bytes(Contents(d, d.inodes[inode])[..Min(length, d.inodes[inode].length)])
  {
    if d.inodes[inode].length > 0 {
      ReadIsSlice(d, inode, 0, length);
    }
  }

  /** The count is that of a clipped read exactly when the position is 0 or nothing is clipped. */
  lemma CountIsClipped(d: Disk, inode: nat, offset: nat, length: nat)
    requires Readable(d, inode, offset, length) && inode < |d.inodes| && offset < d.inodes[inode].length
    requires Read(d, inode, offset, length).Bytes?
    ensures |Read(d, inode, offset, length).bytes| == Min(length, d.inodes[inode].length - offset) <==>
      offset == 0 || offset + length <= d.inodes[inode].length
  {
  }

  /** The bytes of the file from byte `o` of its block `q` on, where they lie on the disk. */
  function OnDisk(d: Disk, ino: Inode, q: nat, o: nat, length: nat): seq<Byte>
    requires WellFormed(d) && ValidFile(d, ino) && o < BLOCK && 0 < length < BLOCK
    requires q * BLOCK + o + length <= ino.length
  {
    assert q * BLOCK < ino.length;
    var base := ino.dataBlockNum[q] * BLOCK;
    if o + length <= BLOCK then d.data[base + o..base + o + length]
    else
      assert (q + 1) * BLOCK < ino.length;
      var next := ino.dataBlockNum[q + 1] * BLOCK;
      d.data[base + o..base + BLOCK] + d.data[next..next + (o + length - BLOCK)]
  }

  lemma ContentsAreOnDisk(d: Disk, ino: Inode, q: nat, o: nat, length: nat, offset: nat)
    requires WellFormed(d) && ValidFile(d, ino) && o < BLOCK && 0 < length < BLOCK
    requires offset == q * BLOCK + o && offset + length <= ino.length
    ensures Contents(d, ino)[offset..offset + length] == OnDisk(d, ino, q, o, length)
  {
    if o + length <= BLOCK {
      BlockSlice(d, ino, q, o, length, offset);
    } else {
      ContentsAcrossEdge(d, ino, q, o, o + length - BLOCK, offset);
      assert offset + (BLOCK - o) + (o + length - BLOCK) == offset + length;
    }
  }

  lemma JoinSlices(s: seq<Byte>, a: nat, b: nat, c: nat, x: seq<Byte>, y: seq<Byte>)
    requires a <= b <= c <= |s| && s[a..b] == x && s[b..c] == y
    ensures s[a..c] == x + y
  {
    SliceSplit(s, a, b, c);
  }

  lemma ContentsAcrossEdge(d: Disk, ino: Inode, q: nat, o: nat, over: nat, from: nat)
    requires WellFormed(d) && ValidFile(d, ino) && o < BLOCK && 0 < over <= BLOCK
    requires from == q * BLOCK + o && from + (BLOCK - o) + over <= ino.length
    ensures q + 1 < INODE_DATABLOCK && ino.dataBlockNum[q] < d.dataCount && ino.dataBlockNum[q + 1] < d.dataCount
    ensures var base, next := ino.dataBlockNum[q] * BLOCK, ino.dataBlockNum[q + 1] * BLOCK;
      Contents(d, ino)[from..from + (BLOCK - o) + over] == d.data[base + o..base + BLOCK] + d.data[next..next + over]
  {
    var n := BLOCK - o;
    BlockSlice(d, ino, q, o, n, from);
    BlockSlice(d, ino, q + 1, 0, over, from + n);
    var base, next := ino.dataBlockNum[q] * BLOCK, ino.dataBlockNum[q + 1] * BLOCK;
    var first, second := d.data[base + o..base + BLOCK], d.data[next..next + over];
    JoinSlices(Contents(d, ino), from, from + n, from + n + over, first, second);
  }

  /** The bytes a short read across the edge of the first block delivers. */
  lemma ShortReadBytes(d: Disk, ino: Inode, offset: nat, left: nat) returns (base: nat)
    requires WellFormed(d) && |ino.dataBlockNum| == INODE_DATABLOCK && ino.dataBlockNum[0] < d.dataCount
    requires offset < BLOCK && left < BLOCK < offset + left
    ensures base == ino.dataBlockNum[0] * BLOCK && base + offset + left <= |d.data|
    ensures ReadBlocks(d, ino, 0, offset, left) ==
      Bytes(d.data[base + offset..base + BLOCK] + d.data[base + BLOCK..base + offset + left])
  {
    base := ino.dataBlockNum[0] * BLOCK;
    SliceSplit(d.data, base + offset, base + BLOCK, base + offset + left);
  }

  /** What the read and the file have in common, and how they go on behind the edge. */
  lemma EdgeParts(d: Disk, ino: Inode, offset: nat, left: nat) returns (head: seq<Byte>)
    requires WellFormed(d) && ValidFile(d, ino) && offset < BLOCK
    requires left < BLOCK < offset + left <= ino.length
    ensures ino.dataBlockNum[0] < d.dataCount && ino.dataBlockNum[1] < d.dataCount
    ensures var onDisk, inFile := (ino.dataBlockNum[0] + 1) * BLOCK, ino.dataBlockNum[1] * BLOCK;
      var over := offset + left - BLOCK;
      && ReadBlocks(d, ino, 0, offset, left) == Bytes(head + d.data[onDisk..onDisk + over])
      && Contents(d, ino)[offset..offset + left] == head + d.data[inFile..inFile + over]
  {
    var over := offset + left - BLOCK;
    ContentsAcrossEdge(d, ino, 0, offset, over, offset);
    assert offset + (BLOCK - offset) + over == offset + left && 0 + 1 == 1;
    var base := ShortReadBytes(d, ino, offset, left);
    assert base + offset + left == base + BLOCK + over && base + BLOCK == (ino.dataBlockNum[0] + 1) * BLOCK;
    head := d.data[base + offset..base + BLOCK];
  }

  /** A short read across the block edge goes on in the block that follows on the disk, not in
      the file's next block: it is exact if and only if the two begin with the same bytes. */
  lemma ShortReadAcrossEdge(d: Disk, ino: Inode, offset: nat, left: nat)
    requires WellFormed(d) && ValidFile(d, ino) && offset < BLOCK
    requires left < BLOCK < offset + left <= ino.length
    ensures ino.dataBlockNum[0] < d.dataCount && ino.dataBlockNum[1] < d.dataCount
    ensures var onDisk, inFile := (ino.dataBlockNum[0] + 1) * BLOCK, ino.dataBlockNum[1] * BLOCK;
      var over := offset + left - BLOCK;
      ReadBlocks(d, ino, 0, offset, left) == Bytes(Contents(d, ino)[offset..offset + left]) <==>
      d.data[onDisk..onDisk + over] == d.data[inFile..inFile + over]
  {
    var head := EdgeParts(d, ino, offset, left);
    var onDisk, inFile, over := (ino.dataBlockNum[0] + 1) * BLOCK, ino.dataBlockNum[1] * BLOCK, offset + left - BLOCK;
    SameTail(head, d.data[onDisk..onDisk + over], d.data[inFile..inFile + over]);
  }

  /** A short read from behind the first block delivers what lies `offset` behind the start of the
      right block, the position in that block not being reduced. */
  lemma LateShortRead(d: Disk, inode: nat, offset: nat, length: nat, q: nat, o: nat)
    requires Readable(d, inode, offset, length) && inode < |d.inodes| && ValidFile(d, d.inodes[inode])
    requires BLOCK <= offset == q * BLOCK + o && o < BLOCK && 0 < length < BLOCK
    requires offset + length <= d.inodes[inode].length
    ensures q < INODE_DATABLOCK && d.inodes[inode].dataBlockNum[q] < d.dataCount
    ensures var base := d.inodes[inode].dataBlockNum[q] * BLOCK;
      && base + offset + length <= |d.data|
      && Read(d, inode, offset, length) == Bytes(d.data[base + offset..base + offset + length])
  {
    assert offset / BLOCK == q;
    assert q * BLOCK < d.inodes[inode].length;
  }

  /** So it is exact if and only if the disk holds there, as many blocks further on as the file has
      before the position, the bytes that it should have read. */
  lemma LateShortReadIsExact(d: Disk, inode: nat, offset: nat, length: nat, q: nat, o: nat)
    requires Readable(d, inode, offset, length) && inode < |d.inodes| && ValidFile(d, d.inodes[inode])
    requires BLOCK <= offset == q * BLOCK + o && o < BLOCK && 0 < length < BLOCK
    requires offset + length <= d.inodes[inode].length
    ensures q < INODE_DATABLOCK && d.inodes[inode].dataBlockNum[q] * BLOCK + offset + length <= |d.data|
    ensures var ino := d.inodes[inode];
      var there := ino.dataBlockNum[q] * BLOCK + offset;
      Read(d, inode, offset, length) == Bytes(Contents(d, ino)[offset..offset + length]) <==>
      d.data[there..there + length] == OnDisk(d, ino, q, o, length)
  {
    LateShortRead(d, inode, offset, length, q, o);
    ContentsAreOnDisk(d, d.inodes[inode], q, o, length, offset);
  }

  /** A long read from position 4096 skips the second block: it delivers the file from the third on. */
  lemma LongReadSkipsBlock(d: Disk, inode: nat, length: nat)
    requires WellFormed(d) && inode < |d.inodes| && ValidFile(d, d.inodes[inode])
    requires BLOCK <= length && 2 * BLOCK + length <= d.inodes[inode].length
    ensures Readable(d, inode, BLOCK, length)
    ensures Read(d, inode, BLOCK, length) ==
      Bytes(Contents(d, d.inodes[inode])[2 * BLOCK..2 * BLOCK + length])
  {
    var ino := d.inodes[inode];
    assert 1 * BLOCK < ino.length && ino.dataBlockNum[1] < d.dataCount;
    ReadBlocksIsSlice(d, ino, 2, 0, length, 2 * BLOCK, 2 * BLOCK + length);
    var base := ino.dataBlockNum[1] * BLOCK;
    assert d.data[base + BLOCK..base + BLOCK] == [];
  }

  lemma SameTail(head: seq<Byte>, a: seq<Byte>, b: seq<Byte>)
    ensures head + a == head + b <==> a == b
  {
    assert (head + a)[|head|..] == a && (head + b)[|head|..] == b;
  }

  /** memcpy into a buffer, at a position given by the moving `buf` pointer. */
  method CopyOut(d: Disk, from: nat, n: nat, buf: array<Byte>, at: nat)
    requires from + n <= |d.data| && at + n <= buf.Length
    modifies buf
    ensures buf[..at + n] == old(buf[..at]) + d.data[from..from + n]
    ensures forall k :: at + n <= k < buf.Length ==> buf[k] == old(buf[k])
  {
    var i := 0;
    while i < n
      invariant 0 <= i <= n
      invariant forall k :: 0 <= k < buf.Length ==>
        buf[k] == if at <= k < at + i then d.data[from + (k - at)] else old(buf[k])
    {
      buf[at + i] := d.data[from + i];
      i := i + 1;
    }
  }

  lemma DeliverMore(wanted: ReadResult, got: seq<Byte>, rest: ReadResult, more: seq<Byte>, next: ReadResult)
    requires Delivered(wanted, got, rest) && Delivered(rest, more, next)
    ensures Delivered(wanted, got + more, next)
  {
  }

  lemma NothingYet(wanted: ReadResult, got: seq<Byte>)
    requires |got| == 0
    ensures Delivered(wanted, got, wanted)
  {
  }

  lemma NothingLeft(wanted: ReadResult, got: seq<Byte>, d: Disk, ino: Inode, blk: nat, off: nat)
    requires WellFormed(d) && |ino.dataBlockNum| == INODE_DATABLOCK && InBounds(d, ino, blk, off, 0)
    requires Delivered(wanted, got, ReadBlocks(d, ino, blk, off, 0))
    ensures wanted == Bytes(got)
  {
    assert got + [] == got;
  }

  lemma BadBlock(d: Disk, ino: Inode, blk: nat, off: nat, left: nat)
    requires WellFormed(d) && |ino.dataBlockNum| == INODE_DATABLOCK && left > 0
    requires InBounds(d, ino, blk, off, left) && ino.dataBlockNum[blk] >= d.dataCount
    ensures ReadBlocks(d, ino, blk, off, left).Failed?
  {
  }

  /** One round of the read loop: `n` more bytes are in the buffer. */
  method ReadOne(d: Disk, ino: Inode, blk: nat, off: nat, left: nat, buf: array<Byte>, r: nat,
                 ghost wanted: ReadResult)
    returns (n: nat)
    requires WellFormed(d) && |ino.dataBlockNum| == INODE_DATABLOCK && 0 < left && r + left <= buf.Length
    requires InBounds(d, ino, blk, off, left) && ino.dataBlockNum[blk] < d.dataCount
    requires Delivered(wanted, buf[..r], ReadBlocks(d, ino, blk, off, left))
    modifies buf
    ensures n <= left && left - n < left + off && InBounds(d, ino, blk + 1, 0, left - n)
    ensures forall k :: r + n <= k < buf.Length ==> buf[k] == old(buf[k])
    ensures Delivered(wanted, buf[..r + n], ReadBlocks(d, ino, blk + 1, 0, left - n))
  {
    n := if left >= BLOCK then BLOCK - off else left;
    var from := ino.dataBlockNum[blk] * BLOCK + off;
    ReadStep(d, ino, blk, off, left, n, from);
    DeliverMore(wanted, buf[..r], ReadBlocks(d, ino, blk, off, left), d.data[from..from + n],
                ReadBlocks(d, ino, blk + 1, 0, left - n));
    CopyOut(d, from, n, buf, r);
  }

  /** The loop of read_data, from the block of the offset on. */
  method ReadLoop(d: Disk, ino: Inode, offset: nat, buf: array<Byte>, length: nat) returns (r: int)
    requires WellFormed(d) && |ino.dataBlockNum| == INODE_DATABLOCK && length <= buf.Length
    requires InBounds(d, ino, offset / BLOCK, offset, length)
    modifies buf
    ensures -1 <= r <= buf.Length && (ReadBlocks(d, ino, offset / BLOCK, offset, length).Failed? <==> r == -1)
    ensures r >= 0 ==> ReadBlocks(d, ino, offset / BLOCK, offset, length) == Bytes(buf[..r])
    ensures r >= 0 ==> forall k :: r <= k < buf.Length ==> buf[k] == old(buf[k])
  {
    var left: nat, off: nat, blk: nat := length, offset, offset / BLOCK;
    ghost var wanted := ReadBlocks(d, ino, blk, offset, length);
    r := 0;
    NothingYet(wanted, buf[..r]);
    while left != 0
      invariant 0 <= r && r + left == length && InBounds(d, ino, blk, off, left)
      invariant forall k :: r <= k < buf.Length ==> buf[k] == old(buf[k])
      invariant Delivered(wanted, buf[..r], ReadBlocks(d, ino, blk, off, left))
      decreases left + off
    {
      if ino.dataBlockNum[blk] >= d.dataCount {
        BadBlock(d, ino, blk, off, left);
        return -1;
      }
      var n := ReadOne(d, ino, blk, off, left, buf, r, wanted);
      r, blk, off, left := r + n, blk + 1, 0, left - n;
    }
    NothingLeft(wanted, buf[..r], d, ino, blk, off);
  }

  /** read_data: the bytes of `Read` at the front of the buffer, the rest untouched. */
  method ReadData(d: Disk, inode: nat, offset: nat, buf: array<Byte>, length: nat) returns (r: int)
    requires Readable(d, inode, offset, length)
    requires inode < |d.inodes| ==> Min(length, d.inodes[inode].length) <= buf.Length
    modifies buf
    ensures -1 <= r <= buf.Length && (Read(d, inode, offset, length).Failed? <==> r == -1)
    ensures r >= 0 ==> Read(d, inode, offset, length) == Bytes(buf[..r])
    ensures r >= 0 ==> forall k :: r <= k < buf.Length ==> buf[k] == old(buf[k])
    ensures inode < |d.inodes| && offset >= d.inodes[inode].length ==> r == 0
  {
    if inode >= |d.inodes| {
      return -1;
    }
    if offset >= d.inodes[inode].length {
      return 0;
    }
    r := ReadLoop(d, d.inodes[inode], offset, buf, Min(length, d.inodes[inode].length));
  }

  // -------------------------------------------------------------- reads that fail

  /** One of the blocks `from` to `to` of the inode is not on the disk. */
  ghost predicate Missing(d: Disk, ino: Inode, from: nat, to: nat) {
    exists b :: from <= b < to && b < |ino.dataBlockNum| && ino.dataBlockNum[b] >= d.dataCount
  }

  /** How many blocks a read touches: long ones the rest of a block and then whole ones, rounded up;
      short ones a single block. */
  function BlocksTouched(offset: nat, left: nat): nat {
    if left == 0 then 0 else if left < BLOCK then 1 else 1 + (left + offset - 1) / BLOCK
  }

  /** The loop fails if and only if a block that it touches is not on the disk. */
  lemma {:induction false} BlocksFail(d: Disk, ino: Inode, blk: nat, offset: nat, left: nat)
    requires WellFormed(d) && |ino.dataBlockNum| == INODE_DATABLOCK && InBounds(d, ino, blk, offset, left)
    ensures ReadBlocks(d, ino, blk, offset, left).Failed? <==> Missing(d, ino, blk, blk + BlocksTouched(offset, left))
    decreases left + offset
  {
    if left > 0 && ino.dataBlockNum[blk] < d.dataCount {
      if left >= BLOCK {
        BlocksFail(d, ino, blk + 1, 0, left - (BLOCK - offset));
        assert BlocksTouched(offset, left) == 1 + BlocksTouched(0, left - (BLOCK - offset));
      }
    }
  }

  /** A read fails if and only if there is no such inode, or it starts in the file and touches a
      block that is not on the disk; at or behind the end of a file it delivers nothing. */
  lemma ReadFails(d: Disk, inode: nat, offset: nat, length: nat)
    requires Readable(d, inode, offset, length)
    ensures Read(d, inode, offset, length).Failed? <==>
      inode >= |d.inodes| ||
      (var ino := d.inodes[inode];
       offset < ino.length &&
       Missing(d, ino, offset / BLOCK, offset / BLOCK + BlocksTouched(offset, Min(length, ino.length))))
    ensures inode < |d.inodes| && offset >= d.inodes[inode].length ==> Read(d, inode, offset, length) == Bytes([])
  {
    if inode < |d.inodes| && offset < d.inodes[inode].length {
      BlocksFail(d, d.inodes[inode], offset / BLOCK, offset, Min(length, d.inodes[inode].length));
    }
  }

  // ---------------------------------------------------------------- reading until zero

  /** What a loop of reads collects: it stops at a read that returns 0, and is broken by one that
      fails. `count` is the number of reads that returned data. */
  datatype Collected = Broken | Collected(bytes: seq<Byte>, count: nat)

  function Prepend(got: seq<Byte>, rest: Collected): Collected {
    match rest
    case Broken => Broken
    case Collected(bytes, count) => Collected(got + bytes, count + 1)
  }

  /** The loop with reads of `n` bytes, from position `pos` on, which moves by what is delivered. */
  function ReadUntilZero(d: Disk, inode: nat, pos: nat, n: nat): Collected
    requires WellFormed(d) && inode < |d.inodes| && ValidFile(d, d.inodes[inode])
    requires d.inodes[inode].length <= BLOCK && n >= 1
    decreases d.inodes[inode].length - pos
  {
    match Read(d, inode, pos, n)
    case Failed => Broken
    case Bytes(got) =>
      if got == [] then Collected([], 0) else Prepend(got, ReadUntilZero(d, inode, pos + |got|, n))
  }

  /** The whole file is collected. */
  ghost predicate CollectsFile(d: Disk, inode: nat, n: nat)
    requires WellFormed(d) && inode < |d.inodes| && ValidFile(d, d.inodes[inode])
    requires d.inodes[inode].length <= BLOCK && n >= 1
  {
    var r := ReadUntilZero(d, inode, 0, n);
    r.Collected? && r.bytes == Contents(d, d.inodes[inode])
  }

  /** From position `pos` on, the rest of the file is collected, in `count` reads. */
  ghost predicate CollectsRest(d: Disk, inode: nat, pos: nat, n: nat, count: nat)
    requires WellFormed(d) && inode < |d.inodes| && ValidFile(d, d.inodes[inode])
    requires pos <= d.inodes[inode].length <= BLOCK && n >= 1
  {
    ReadUntilZero(d, inode, pos, n) == Collected(Contents(d, d.inodes[inode])[pos..], count)
  }

  lemma NoMoreChunks(d: Disk, inode: nat, n: nat)
    requires WellFormed(d) && inode < |d.inodes| && ValidFile(d, d.inodes[inode])
    requires d.inodes[inode].length <= BLOCK && n >= 1
    ensures CollectsRest(d, inode, d.inodes[inode].length, n, 0)
  {
    assert Contents(d, d.inodes[inode])[d.inodes[inode].length..] == [];
  }

  lemma OneRead(d: Disk, inode: nat, pos: nat, n: nat, got: seq<Byte>)
    requires WellFormed(d) && inode < |d.inodes| && ValidFile(d, d.inodes[inode])
    requires d.inodes[inode].length <= BLOCK && n >= 1 && Readable(d, inode, pos, n)
    requires Read(d, inode, pos, n) == Bytes(got) && got != []
    ensures ReadUntilZero(d, inode, pos, n) == Prepend(got, ReadUntilZero(d, inode, pos + |got|, n))
  {
  }

  lemma PrependSlice(f: seq<Byte>, pos: nat, n: nat, count: nat)
    requires pos + n <= |f|
    ensures Prepend(f[pos..pos + n], Collected(f[pos + n..], count)) == Collected(f[pos..], count + 1)
  {
    DropSplit(f, pos, pos + n);
  }

  /** One read of the loop that ends within the file. */
  lemma ChunkStep(d: Disk, inode: nat, pos: nat, n: nat, count: nat)
    requires WellFormed(d) && inode < |d.inodes| && ValidFile(d, d.inodes[inode])
    requires d.inodes[inode].length <= BLOCK && n >= 1 && pos + n <= d.inodes[inode].length
    requires CollectsRest(d, inode, pos + n, n, count)
    ensures CollectsRest(d, inode, pos, n, count + 1)
  {
    var f := Contents(d, d.inodes[inode]);
    ReadIsSlice(d, inode, pos, n);
    OneRead(d, inode, pos, n, f[pos..pos + n]);
    PrependSlice(f, pos, n, count);
  }

  /** `chunks` times `n`, by addition. */
  function Total(chunks: nat, n: nat): nat {
    if chunks == 0 then 0 else n + Total(chunks - 1, n)
  }

  lemma {:induction false} TotalIsProduct(chunks: nat, n: nat)
    ensures Total(chunks, n) == chunks * n
  {
    if chunks > 0 {
      TotalIsProduct(chunks - 1, n);
      Distribute(chunks - 1, n);
    }
  }

  /** While `n` divides what is left, each read delivers the next `n` bytes. */
  lemma {:induction false} WholeChunks(d: Disk, inode: nat, pos: nat, n: nat, chunks: nat)
    requires WellFormed(d) && inode < |d.inodes| && ValidFile(d, d.inodes[inode])
    requires d.inodes[inode].length <= BLOCK && n >= 1
    requires pos + Total(chunks, n) == d.inodes[inode].length
    ensures CollectsRest(d, inode, pos, n, chunks)
    decreases chunks
  {
    if chunks == 0 {
      NoMoreChunks(d, inode, n);
    } else {
      WholeChunks(d, inode, pos + n, n, chunks - 1);
      ChunkStep(d, inode, pos, n, chunks - 1);
    }
  }

  /** The first block of a file that is not empty is on the disk, so reads within it do not fail. */
  lemma ShortReadWorks(d: Disk, inode: nat, pos: nat, n: nat)
    requires WellFormed(d) && inode < |d.inodes| && ValidFile(d, d.inodes[inode])
    requires 1 <= n < BLOCK && n <= d.inodes[inode].length <= BLOCK
    ensures Readable(d, inode, pos, n) && Read(d, inode, pos, n).Bytes?
    ensures |Read(d, inode, pos, n).bytes| == if pos < d.inodes[inode].length then n else 0
  {
    assert 0 * BLOCK < d.inodes[inode].length;
  }

  /** Otherwise the collected length is a multiple of `n`, past the end of the file. */
  lemma {:induction false} ChunksAreWhole(d: Disk, inode: nat, pos: nat, n: nat)
    requires WellFormed(d) && inode < |d.inodes| && ValidFile(d, d.inodes[inode])
    requires 1 <= n < BLOCK && n <= d.inodes[inode].length <= BLOCK
    ensures var r := ReadUntilZero(d, inode, pos, n);
      r.Collected? && |r.bytes| == Total(r.count, n) &&
      (pos < d.inodes[inode].length ==> pos + |r.bytes| >= d.inodes[inode].length)
    decreases d.inodes[inode].length - pos
  {
    ShortReadWorks(d, inode, pos, n);
    if pos < d.inodes[inode].length {
      ChunksAreWhole(d, inode, pos + n, n);
    }
  }

  /** One read of the whole file or more. */
  lemma OneChunk(d: Disk, inode: nat, n: nat)
    requires WellFormed(d) && inode < |d.inodes| && ValidFile(d, d.inodes[inode])
    requires d.inodes[inode].length <= BLOCK && n >= 1 && n >= d.inodes[inode].length
    ensures CollectsFile(d, inode, n)
  {
    var length, f := d.inodes[inode].length, Contents(d, d.inodes[inode]);
    ReadFromStart(d, inode, n);
    NoMoreChunks(d, inode, n);
    assert f[..length] == f && f[length..] == [] && f + [] == f;
  }

  lemma DividedIsExact(d: Disk, inode: nat, n: nat)
    requires WellFormed(d) && inode < |d.inodes| && ValidFile(d, d.inodes[inode])
    requires d.inodes[inode].length <= BLOCK && n >= 1 && d.inodes[inode].length % n == 0
    ensures CollectsFile(d, inode, n) && ReadUntilZero(d, inode, 0, n).count == d.inodes[inode].length / n
  {
    var q, r := Divide(d.inodes[inode].length, n);
    TotalIsProduct(q, n);
    WholeChunks(d, inode, 0, n, q);
  }

  lemma UndividedIsNot(d: Disk, inode: nat, n: nat)
    requires WellFormed(d) && inode < |d.inodes| && ValidFile(d, d.inodes[inode])
    requires 1 <= n < d.inodes[inode].length <= BLOCK && d.inodes[inode].length % n != 0
    ensures ReadUntilZero(d, inode, 0, n).Collected? && !CollectsFile(d, inode, n)
  {
    var q, r := Divide(d.inodes[inode].length, n);
    ChunksAreWhole(d, inode, 0, n);
    TotalIsProduct(ReadUntilZero(d, inode, 0, n).count, n);
    NotAMultiple(ReadUntilZero(d, inode, 0, n).count, n, q, r);
  }

  /** For a file within one block, reading until a read returns 0 never fails, and it yields exactly
      the contents if and only if one read takes it all or the chunk size divides its length. */
  lemma ReadUntilZeroIsExact(d: Disk, inode: nat, n: nat)
    requires WellFormed(d) && inode < |d.inodes| && ValidFile(d, d.inodes[inode])
    requires d.inodes[inode].length <= BLOCK && n >= 1
    ensures ReadUntilZero(d, inode, 0, n).Collected?
    ensures CollectsFile(d, inode, n) <==> n >= d.inodes[inode].length || d.inodes[inode].length % n == 0
    ensures d.inodes[inode].length % n == 0 ==>
      ReadUntilZero(d, inode, 0, n).count == d.inodes[inode].length / n
  {
    if d.inodes[inode].length % n == 0 {
      DividedIsExact(d, inode, n);
    } else if n >= d.inodes[inode].length {
      OneChunk(d, inode, n);
    } else {
      UndividedIsNot(d, inode, n);
    }
  }

  // ------------------------------------------------------- where these reads go wrong

  /** A disk of three blocks with memory behind it, every byte of block b being b; file 0 is made up of
      blocks 0 and 2, and file 1 is 100 bytes long. */
  function SplitFile(): Disk {
    Disk([], [Inode(2 * BLOCK, seq(INODE_DATABLOCK, b => if b == 0 then 0 else 2)),
              Inode(100, seq(INODE_DATABLOCK, _ => 0))],
         3, seq(6 * BLOCK, i requires 0 <= i < 6 * BLOCK => i / BLOCK))
  }

  lemma SplitFileIsValid()
    ensures var d := SplitFile();
      WellFormed(d) && |d.inodes| == 2 && ValidFile(d, d.inodes[0]) && ValidFile(d, d.inodes[1])
  {
  }

  /** Bytes of different blocks make different texts. */
  lemma OtherBlock(from: nat, to: nat, length: nat)
    requires from / BLOCK != to / BLOCK && 0 < length && from + length <= 6 * BLOCK && to + length <= 6 * BLOCK
    ensures SplitFile().data[from..from + length] != SplitFile().data[to..to + length]
  {
    var data := SplitFile().data;
    assert data[from..from + length][0] == from / BLOCK && data[to..to + length][0] == to / BLOCK;
  }

  /** 200 bytes from byte 4000 on: the last 104 come from block 1, not from block 2. */
  lemma ShortReadGoesWrong()
    ensures var d := SplitFile();
      && WellFormed(d) && |d.inodes| == 2 && ValidFile(d, d.inodes[0]) && Readable(d, 0, 4000, 200)
      && Read(d, 0, 4000, 200) != Bytes(Contents(d, d.inodes[0])[4000..4200])
  {
    var d := SplitFile();
    SplitFileIsValid();
    ShortReadAcrossEdge(d, d.inodes[0], 4000, 200);
    OtherBlock(1 * BLOCK, 2 * BLOCK, 104);
  }

  /** 10 bytes from byte 4196 on, of block 2: they come from the memory behind the disk. */
  lemma LateShortReadGoesWrong()
    ensures var d := SplitFile();
      && WellFormed(d) && |d.inodes| == 2 && ValidFile(d, d.inodes[0]) && Readable(d, 0, 4196, 10)
      && Read(d, 0, 4196, 10) != Bytes(Contents(d, d.inodes[0])[4196..4206])
  {
    var d := SplitFile();
    SplitFileIsValid();
    LateShortReadIsExact(d, 0, 4196, 10, 1, 100);
    OtherBlock(2 * BLOCK + 4196, 2 * BLOCK + 100, 10);
  }

  /** 500 bytes from byte 8000 on, where the file has 192 left; and 30 bytes at a time of 100. */
  lemma CountGoesWrong()
    ensures var d := SplitFile();
      && Readable(d, 0, 8000, 500) && Read(d, 0, 8000, 500).Bytes? && |Read(d, 0, 8000, 500).bytes| == 500
      && |d.inodes| == 2 && d.inodes[0].length - 8000 == 192
      && ValidFile(d, d.inodes[1]) && !CollectsFile(d, 1, 30)
  {
    SplitFileIsValid();
    ReadUntilZeroIsExact(SplitFile(), 1, 30);
  }

  // -------------------------------------------------------------------- the directory

  /** A directory entry's name: cut at NUL or after 32 bytes. */
  function Name(e: Dentry): seq<Byte> {
    StringAt(e.filename, 0)
  }

  /** The name a C string asks for: at most 32 bytes of it are compared. */
  function Wanted(fname: seq<Byte>): seq<Byte> {
    Truncate(StringAt(fname, 0), FILE_NAME_SIZE)
  }

  /** The first entry of that name at or after `i`, or the number of entries. */
  function Lookup(d: Disk, name: seq<Byte>, i: nat): (k: nat)
    requires i <= |d.direntries|
    ensures i <= k <= |d.direntries| && (k < |d.direntries| ==> Name(d.direntries[k]) == name)
    ensures forall j :: i <= j < k ==> Name(d.direntries[j]) != name
    decreases |d.direntries| - i
  {
    if i == |d.direntries| || Name(d.direntries[i]) == name then i else Lookup(d, name, i + 1)
  }

  /** strncmp of student-distrib/lib.c on a caller's string and a 32-byte name field. */
  method StrncmpName(s1: seq<Byte>, s2: seq<Byte>) returns (r: int)
    requires StringEnd(s1, 0) < |s1| || |s1| >= FILE_NAME_SIZE
    requires |s2| == FILE_NAME_SIZE
    ensures r == 0 <==> Wanted(s1) == StringAt(s2, 0)
  {
    var i := 0;
    while i < FILE_NAME_SIZE
      invariant 0 <= i <= FILE_NAME_SIZE && i <= |StringAt(s1, 0)| && i <= |StringAt(s2, 0)|
      invariant s1[..i] == s2[..i]
    {
      if s1[i] != s2[i] || s1[i] == NUL {
        r := s1[i] as int - s2[i] as int;
        NamesDiffer(s1, s2, i);
        return;
      }
      i := i + 1;
    }
    assert Wanted(s1) == s1[..i] == s2[..i] == StringAt(s2, 0);
    r := 0;
  }

  lemma NamesDiffer(s1: seq<Byte>, s2: seq<Byte>, i: nat)
    requires i < FILE_NAME_SIZE == |s2| && i < |s1| && s1[..i] == s2[..i]
    requires i <= |StringAt(s1, 0)| && i <= |StringAt(s2, 0)|
    requires s1[i] != s2[i] || s1[i] == NUL
    ensures s1[i] == s2[i] <==> Wanted(s1) == StringAt(s2, 0)
  {
    var a, b := Wanted(s1), StringAt(s2, 0);
    if s1[i] == s2[i] {
      assert a == s1[..i] && b == s2[..i];
    } else if i < |a| && i < |b| {
      assert a[i] == s1[i] && b[i] == s2[i];
    }
  }

  /** read_dentry_by_name: the first entry whose name matches. */
  method ReadDentryByName(d: Disk, fname: seq<Byte>) returns (r: int, dentry: Dentry)
    requires WellFormed(d) && (StringEnd(fname, 0) < |fname| || |fname| >= FILE_NAME_SIZE)
    ensures var k := Lookup(d, Wanted(fname), 0);
      if k == |d.direntries| then r == -1 else r == 0 && dentry == d.direntries[k]
  {
    var i := 0;
    dentry := Dentry([], 0, 0);
    while i < |d.direntries|
      invariant 0 <= i <= |d.direntries|
      invariant Lookup(d, Wanted(fname), 0) == Lookup(d, Wanted(fname), i)
    {
      var cmp := StrncmpName(fname, d.direntries[i].filename);
      if cmp == 0 {
        return 0, d.direntries[i];
      }
      i := i + 1;
    }
    r := -1;
  }

  /** read_dentry_by_index. */
  method ReadDentryByIndex(d: Disk, index: nat) returns (r: int, dentry: Dentry)
    ensures if index < |d.direntries| then r == 0 && dentry == d.direntries[index] else r == -1
  {
    if index >= |d.direntries| {
      return -1, Dentry([], 0, 0);
    }
    return 0, d.direntries[index];
  }

  /** What repeated directory reads from position `pos` list before one returns 0. */
  function Listing(d: Disk, pos: nat): (names: seq<seq<Byte>>)
    requires WellFormed(d)
    ensures pos <= |d.direntries| ==> |names| == |d.direntries| - pos
    decreases |d.direntries| - pos
  {
    if pos >= |d.direntries| then [] else [d.direntries[pos].filename] + Listing(d, pos + 1)
  }

  /** The listing is each entry's 32-byte name, once, in order. */
  lemma {:induction false} ListingIsDirectory(d: Disk, pos: nat)
    requires WellFormed(d) && pos <= |d.direntries|
    ensures forall k :: 0 <= k < |d.direntries| - pos ==> Listing(d, pos)[k] == d.direntries[pos + k].filename
    decreases |d.direntries| - pos
  {
    if pos < |d.direntries| {
      ListingIsDirectory(d, pos + 1);
    }
  }

  /** Looking up a listed name, NUL-terminated, finds that very entry if and only if no earlier
      entry has the same name. */
  lemma ListedNameIsFound(d: Disk, i: nat)
    requires WellFormed(d) && i < |d.direntries|
    ensures Lookup(d, Wanted(Listing(d, 0)[i] + [NUL]), 0) == i <==>
      forall j :: 0 <= j < i ==> Name(d.direntries[j]) != Name(d.direntries[i])
  {
    ListingIsDirectory(d, 0);
    var f := d.direntries[i].filename;
    var e := StringEnd(f, 0);
    StringEndIs(f + [NUL], 0, e);
    assert StringAt(f + [NUL], 0) == Name(d.direntries[i]);
    assert Wanted(f + [NUL]) == Name(d.direntries[i]);
  }
}
