/**
 * The tables of the multi-block file system (tfs/fs/state.c) and, as functions of them, what its operations do.
 * A file has ten direct blocks and one index block of 256 more; slot i of a file is direct block i for i < 10
 * and entry i - 10 of the index block from there on.
 */
module IndexedState {
  import opened Bytes
  import opened AllocationTable
  import opened Disk

  const DIRECT: int := 10
  const SLOTS: int := 266  // DIRECT + INDEX_ENTRIES
  const MAX_SIZE: int := 272384  // SLOTS * BLOCK_SIZE

  /** AsWritten is the source; Repaired changes the lines marked REPAIR below and nothing else. */
  datatype Variant = AsWritten | Repaired

  datatype Inode = Inode(kind: InodeType, size: nat, direct: seq<int>, indexBlock: int)

  datatype OpenFile = OpenFile(inumber: int, offset: nat, append: bool)

  datatype Fs = Fs(
    inodes: seq<Inode>, inodeTaken: seq<bool>,
    blocks: seq<Block>, blockTaken: seq<bool>,
    files: seq<OpenFile>, fileTaken: seq<bool>)

  predicate InodeShape(n: Inode) {
    && |n.direct| == DIRECT
    && (n.indexBlock == -1 || ValidBlock(n.indexBlock))
    && forall i :: 0 <= i < DIRECT ==> n.direct[i] == -1 || ValidBlock(n.direct[i])
  }

  predicate Tables(fs: Fs) {
    && |fs.inodes| == INODE_TABLE_SIZE && |fs.inodeTaken| == INODE_TABLE_SIZE
    && |fs.blocks| == DATA_BLOCKS && |fs.blockTaken| == DATA_BLOCKS
    && |fs.files| == MAX_OPEN_FILES && |fs.fileTaken| == MAX_OPEN_FILES
    && (forall n :: 0 <= n < |fs.inodes| ==> InodeShape(fs.inodes[n]))
    && (forall b :: 0 <= b < |fs.blocks| ==> BlockShape(fs.blocks[b]))
  }

  /** The entries of the index block of inode n, all -1 when it has none. */
  function IndexSlots(fs: Fs, n: int): (r: seq<int>)
    requires Tables(fs) && ValidInumber(n)
    ensures |r| == INDEX_ENTRIES && forall i :: 0 <= i < |r| ==> r[i] == -1 || ValidBlock(r[i])
  {
    var b := fs.inodes[n].indexBlock;
    if b != -1 && fs.blocks[b].Index? then fs.blocks[b].slots else seq(INDEX_ENTRIES, _ => -1)
  }

  /** The block number in slot i of inode n. */
  function Ref(fs: Fs, n: int, i: int): (b: int)
    requires Tables(fs) && ValidInumber(n) && 0 <= i < SLOTS
    ensures b == -1 || ValidBlock(b)
  {
    if i < DIRECT then fs.inodes[n].direct[i] else IndexSlots(fs, n)[i - DIRECT]
  }

  function SetRef(fs: Fs, n: int, i: int, b: int): (r: Fs)
    requires Tables(fs) && ValidInumber(n) && 0 <= i < SLOTS && (b == -1 || ValidBlock(b))
    ensures Tables(r)
  {
    var ib := fs.inodes[n].indexBlock;
    if i < DIRECT then
      var node := fs.inodes[n];
      fs.(inodes := fs.inodes[n := node.(direct := node.direct[i := b])])
    else if ib != -1 && fs.blocks[ib].Index? then
      fs.(blocks := fs.blocks[ib := Index(fs.blocks[ib].slots[i - DIRECT := b])])
    else fs
  }

  /* ----- one chunk of tfs_write: operations.c:147-156 and operations.c:182-191 ----- */

  function EnsureBlock(fs: Fs, n: int, i: int): (r: Fs)
    requires Tables(fs) && ValidInumber(n) && 0 <= i < SLOTS
    ensures Tables(r)
  {
    var b := FirstFree(fs.blockTaken);
    if Ref(fs, n, i) != -1 || b == -1 then fs
    else SetRef(fs.(blockTaken := fs.blockTaken[b := true]), n, i, b)
  }

  function PutChunk(fs: Fs, b: int, at: nat, d: seq<byte>): (r: Fs)
    requires Tables(fs) && ValidBlock(b) && at + |d| <= BLOCK_SIZE
    ensures Tables(r)
  {
    fs.(blocks := fs.blocks[b := PutBytes(fs.blocks[b], at, d)])
  }

  /** A chunk for which there is a block: allocate it if it is missing, then copy the bytes in. */
  function StoreChunk(fs: Fs, n: int, i: int, at: nat, d: seq<byte>): (r: Fs)
    requires Tables(fs) && ValidInumber(n) && 0 <= i < SLOTS && at + |d| <= BLOCK_SIZE
    requires Ref(EnsureBlock(fs, n, i), n, i) != -1
    ensures Tables(r)
  {
    var g := EnsureBlock(fs, n, i);
    PutChunk(g, Ref(g, n, i), at, d)
  }

  /** How many bytes a chunk moves when left bytes remain to move from offset off. */
  function ChunkSize(off: nat, left: int): (k: int)
    ensures 0 < left ==> 0 < k <= left && off % BLOCK_SIZE + k <= BLOCK_SIZE
  {
    Min(BLOCK_SIZE - off % BLOCK_SIZE, left)
  }

  /** What a chunk of k bytes adds to the offset when done bytes have been moved, itself included. */
  function Advance(v: Variant, k: nat, done: nat): nat {
    if v.AsWritten? then done  // operations.c:159, 194, 256, 287
    else k                     // REPAIR of those lines
  }

  /** Where a write loop stands: the next slot and offset, how many bytes are written, whether the disk was full. */
  datatype WriteCursor = WriteCursor(fs: Fs, slot: nat, offset: nat, done: nat, full: bool)

  predicate Writable(c: WriteCursor, n: int, buf: seq<byte>) {
    Tables(c.fs) && ValidInumber(n) && c.done <= |buf|
  }

  /** One turn of a loop of tfs_write. */
  function WriteStep(v: Variant, c: WriteCursor, n: int, buf: seq<byte>): (r: WriteCursor)
    requires Writable(c, n, buf) && c.slot < SLOTS && c.done < |buf|
    ensures Writable(r, n, buf) && (r.full || r.slot == c.slot + 1)
  {
    var k := ChunkSize(c.offset, |buf| - c.done);
    if Ref(EnsureBlock(c.fs, n, c.slot), n, c.slot) == -1 then
      c.(fs := EnsureBlock(c.fs, n, c.slot), full := true)
    else
      WriteCursor(StoreChunk(c.fs, n, c.slot, c.offset % BLOCK_SIZE, buf[c.done..c.done + k]),
                  c.slot + 1, c.offset + Advance(v, k, c.done + k), c.done + k, false)
  }

  /** A loop of tfs_write: one turn for each slot before last, while bytes of buf remain and there are blocks. */
  function WriteLoop(v: Variant, c: WriteCursor, n: int, buf: seq<byte>, last: int): (r: WriteCursor)
    requires Writable(c, n, buf) && last <= SLOTS
    ensures Writable(r, n, buf)
    decreases !c.full, last - c.slot
  {
    if c.full || last <= c.slot || c.done == |buf| then c
    else WriteLoop(v, WriteStep(v, c, n, buf), n, buf, last)
  }

  /* ----- tfs_write: operations.c:107-205 ----- */

  /** The C conversion of a size_t to int: the int of the same remainder, negative from half of the range on. */
  function AsInt32(x: nat): (r: int)
    ensures -0x8000_0000 <= r < 0x8000_0000 && (x - r) % 0x1_0000_0000 == 0
    ensures 0 <= r <==> x % 0x1_0000_0000 < 0x8000_0000
  {
    var m := x % 0x1_0000_0000;
    if m < 0x8000_0000 then m else m - 0x1_0000_0000
  }

  function SetOffset(fs: Fs, h: int, off: nat): (r: Fs)
    requires Tables(fs) && ValidHandle(h)
    ensures Tables(r)
  {
    fs.(files := fs.files[h := fs.files[h].(offset := off)])
  }

  function GrowTo(fs: Fs, n: int, size: nat): (r: Fs)
    requires Tables(fs) && ValidInumber(n)
    ensures Tables(r)
  {
    if fs.inodes[n].size < size then fs.(inodes := fs.inodes[n := fs.inodes[n].(size := size)]) else fs
  }

  /** Leaving tfs_write on a full disk: operations.c:151-155 and 186-190 do not store the size. */
  function LeaveFull(v: Variant, fs: Fs, n: int, h: int, off: nat): (r: Fs)
    requires Tables(fs) && ValidInumber(n) && ValidHandle(h)
    ensures Tables(r)
  {
    var g := SetOffset(fs, h, off);
    if v.AsWritten? then g
    else GrowTo(g, n, off)  // REPAIR: the size is stored here too
  }

  /** Where a write through handle h begins: the end of the file for an append handle. */
  function WriteOffset(fs: Fs, h: int): nat
    requires Tables(fs) && ValidHandle(h) && ValidInumber(fs.files[h].inumber)
  {
    if fs.files[h].append then fs.inodes[fs.files[h].inumber].size else fs.files[h].offset
  }

  /** The state tfs_write leaves and its return value, which is -1 on an error. */
  datatype WriteResult = WriteResult(fs: Fs, ret: int)

  function WriteAt(v: Variant, fs: Fs, h: int, o: nat, buf: seq<byte>): (r: WriteResult)
    requires Tables(fs) && ValidHandle(h) && ValidInumber(fs.files[h].inumber)
    ensures Tables(r.fs)
  {
    var n := fs.files[h].inumber;
    var d := WriteLoop(v, WriteCursor(fs, o / BLOCK_SIZE, o, 0, false), n, buf, DIRECT);
    if d.full then WriteResult(LeaveFull(v, d.fs, n, h, d.offset), d.done)
    else if d.fs.inodes[n].indexBlock == -1 then WriteResult(SetOffset(d.fs, h, d.offset), -1)
    else
      var e := WriteLoop(v, d.(slot := Max(d.slot, DIRECT)), n, buf, SLOTS);
      if e.full then WriteResult(LeaveFull(v, e.fs, n, h, e.offset), e.done)
      else WriteResult(GrowTo(SetOffset(e.fs, h, e.offset), n, e.offset), e.done)
  }

  function Write(v: Variant, fs: Fs, h: int, buf: seq<byte>): (r: WriteResult)
    requires Tables(fs)
    ensures Tables(r.fs)
  {
    if !ValidHandle(h) || AsInt32(|buf|) < 0 || !ValidInumber(fs.files[h].inumber) then WriteResult(fs, -1)
    else WriteAt(v, fs, h, WriteOffset(fs, h), buf)
  }

  /* ----- tfs_read: operations.c:208-292 ----- */

  /** Where a read loop stands: the next slot and offset, the bytes read, whether a block was missing. */
  datatype ReadCursor = ReadCursor(slot: nat, offset: nat, data: seq<byte>, missing: bool)

  /** How many bytes a chunk of tfs_read copies; the direct loop and the repaired indirect loop clamp by what is left. */
  function ReadChunk(v: Variant, i: int, off: nat, toRead: nat, done: nat): (k: int)
    requires done < toRead
    ensures 0 < k && off % BLOCK_SIZE + k <= BLOCK_SIZE
  {
    if i < DIRECT || v.Repaired? then ChunkSize(off, toRead - done)  // operations.c:244; REPAIR of 275-276
    else ChunkSize(off, toRead)                                      // operations.c:275-276
  }

  /** One turn of a loop of tfs_read. */
  function ReadStep(v: Variant, c: ReadCursor, fs: Fs, n: int, toRead: nat): (r: ReadCursor)
    requires Tables(fs) && ValidInumber(n) && c.slot < SLOTS && |c.data| < toRead
    ensures r.missing || r.slot == c.slot + 1
  {
    var k := ReadChunk(v, c.slot, c.offset, toRead, |c.data|);
    var b := Ref(fs, n, c.slot);
    var at := c.offset % BLOCK_SIZE;
    if b == -1 then c.(missing := true)
    else ReadCursor(c.slot + 1, c.offset + Advance(v, k, |c.data| + k), c.data + BytesOf(fs.blocks[b])[at..at + k], false)
  }

  function ReadLoop(v: Variant, c: ReadCursor, fs: Fs, n: int, toRead: nat, last: int): (r: ReadCursor)
    requires Tables(fs) && ValidInumber(n) && last <= SLOTS
    decreases !c.missing, last - c.slot
  {
    if c.missing || last <= c.slot || toRead <= |c.data| then c
    else ReadLoop(v, ReadStep(v, c, fs, n, toRead), fs, n, toRead, last)
  }

  /** The bytes tfs_read hands back and its return value, which is -1 on an error. */
  datatype ReadResult = ReadResult(fs: Fs, ret: int, data: seq<byte>)

  function ReadAt(v: Variant, fs: Fs, h: int, len: nat): (r: ReadResult)
    requires Tables(fs) && ValidHandle(h) && ValidInumber(fs.files[h].inumber)
    ensures Tables(r.fs)
  {
    var n := fs.files[h].inumber;
    var o := Min(fs.files[h].offset, fs.inodes[n].size);
    var toRead := Min(len, fs.inodes[n].size - o);
    var d := ReadLoop(v, ReadCursor(o / BLOCK_SIZE, o, [], false), fs, n, toRead, DIRECT);
    if d.missing then ReadResult(SetOffset(fs, h, d.offset), |d.data|, d.data)
    else if fs.inodes[n].indexBlock == -1 then ReadResult(SetOffset(fs, h, d.offset), -1, d.data)
    else
      var e := ReadLoop(v, d.(slot := Max(d.slot, DIRECT)), fs, n, toRead, SLOTS);
      ReadResult(SetOffset(fs, h, e.offset), |e.data|, e.data)
  }

  function Read(v: Variant, fs: Fs, h: int, len: nat): (r: ReadResult)
    requires Tables(fs)
    ensures Tables(r.fs)
  {
    if !ValidHandle(h) || !ValidInumber(fs.files[h].inumber) then ReadResult(fs, -1, [])
    else ReadAt(v, fs, h, len)
  }
}
