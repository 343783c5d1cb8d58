/**
 * The tables of the one-block file system (tfs_server/fs/state.c) and, as functions of them, what the operations under
 * its global lock do (tfs_server/fs/operations.c).  A file is at most one block.
 */
module OneBlockState {
  import opened Bytes
  import opened AllocationTable
  import opened Disk

  const SIZE_MODULUS: int := 0x1_0000_0000_0000_0000  // of a size_t

  datatype Inode = Inode(kind: InodeType, size: nat, block: int)

  datatype OpenFile = OpenFile(inumber: int, offset: nat)

  datatype Fs = Fs(
    inodes: seq<Inode>, inodeTaken: seq<bool>,
    blocks: seq<Block>, blockTaken: seq<bool>,
    files: seq<OpenFile>, fileTaken: seq<bool>,
    openCount: int, closing: bool)

  predicate Tables(fs: Fs) {
    && |fs.inodes| == INODE_TABLE_SIZE && |fs.inodeTaken| == INODE_TABLE_SIZE
    && |fs.blocks| == DATA_BLOCKS && |fs.blockTaken| == DATA_BLOCKS
    && |fs.files| == MAX_OPEN_FILES && |fs.fileTaken| == MAX_OPEN_FILES
    && (forall b :: 0 <= b < |fs.blocks| ==> BlockShape(fs.blocks[b]))
    && (forall n :: 0 <= n < |fs.inodes| ==> fs.inodes[n].size <= BLOCK_SIZE)
    && (forall h :: 0 <= h < |fs.files| ==> fs.files[h].offset < SIZE_MODULUS)
  }

  /** A new state and the return value of an operation. */
  datatype Result = Result(fs: Fs, ret: int)

  /* ----- inodes: state.c:97-166 ----- */

  function CreateFile(fs: Fs): (r: Result)
    requires Tables(fs)
    ensures Tables(r.fs)
  {
    var n := FirstFree(fs.inodeTaken);
    if n == -1 then Result(fs, -1)
    else Result(fs.(inodeTaken := fs.inodeTaken[n := true], inodes := fs.inodes[n := Inode(File, 0, -1)]), n)
  }

  /** The branch for a directory, which tfs_init takes once: the inode is given back when there is no block. */
  function CreateDirectory(fs: Fs): (r: Result)
    requires Tables(fs)
    ensures Tables(r.fs)
  {
    var n, b := FirstFree(fs.inodeTaken), FirstFree(fs.blockTaken);
    if n == -1 then Result(fs, -1)
    else if b == -1 then Result(fs.(inodes := fs.inodes[n := fs.inodes[n].(kind := Dir)]), -1)
    else
      Result(fs.(inodeTaken := fs.inodeTaken[n := true], inodes := fs.inodes[n := Inode(Dir, BLOCK_SIZE, b)],
                 blockTaken := fs.blockTaken[b := true],
                 blocks := fs.blocks[b := Directory(seq(MAX_DIR_ENTRIES, _ => UNUSED))]), n)
  }

  function FreeBlock(fs: Fs, b: int): (r: Result)
    requires Tables(fs)
    ensures Tables(r.fs)
  {
    if !ValidBlock(b) then Result(fs, -1) else Result(fs.(blockTaken := fs.blockTaken[b := false]), 0)
  }

  function Delete(fs: Fs, n: int): (r: Result)
    requires Tables(fs)
    ensures Tables(r.fs)
  {
    if !ValidInumber(n) || !fs.inodeTaken[n] then Result(fs, -1)
    else
      var g := fs.(inodeTaken := fs.inodeTaken[n := false]);
      if fs.inodes[n].size > 0 then FreeBlock(g, fs.inodes[n].block) else Result(g, 0)
  }

  /* ----- the directory: state.c:191-254 ----- */

  const UNUSED: DirEntry := DirEntry("", -1)

  function EntriesOf(b: Block): (r: seq<DirEntry>)
    requires BlockShape(b)
    ensures |r| == MAX_DIR_ENTRIES && forall i :: 0 <= i < |r| ==> |r[i].name| < MAX_FILE_NAME
  {
    if b.Directory? then b.entries else seq(MAX_DIR_ENTRIES, _ => UNUSED)
  }

  function RootEntries(fs: Fs): (r: seq<DirEntry>)
    requires Tables(fs)
    ensures |r| == MAX_DIR_ENTRIES && forall i :: 0 <= i < |r| ==> |r[i].name| < MAX_FILE_NAME
  {
    var b := fs.inodes[ROOT_DIR_INUM].block;
    if ValidBlock(b) then EntriesOf(fs.blocks[b]) else seq(MAX_DIR_ENTRIES, _ => UNUSED)
  }

  function Lookup(fs: Fs, path: string): (r: int)
    requires Tables(fs)
  {
    if !ValidPath(path) || fs.inodes[ROOT_DIR_INUM].kind != Dir || !ValidBlock(fs.inodes[ROOT_DIR_INUM].block) then -1
    else InumberOf(RootEntries(fs), path[1..])
  }

  function AddToRoot(fs: Fs, sub: int, name: string): (r: Result)
    requires Tables(fs)
    ensures Tables(r.fs)
  {
    var b := fs.inodes[ROOT_DIR_INUM].block;
    if !ValidInumber(sub) || fs.inodes[ROOT_DIR_INUM].kind != Dir || |name| == 0 || !ValidBlock(b) then Result(fs, -1)
    else if FirstUnused(EntriesOf(fs.blocks[b])) == -1 then Result(fs, -1)
    else Result(fs.(blocks := fs.blocks[b := Directory(AddEntry(EntriesOf(fs.blocks[b]), name, sub))]), 0)
  }

  /* ----- the open file table: state.c:309-347 ----- */

  function AddOpen(fs: Fs, inumber: int, offset: nat): (r: Result)
    requires Tables(fs) && offset <= BLOCK_SIZE
    ensures Tables(r.fs)
  {
    var h := FirstFree(fs.fileTaken);
    if h == -1 then Result(fs, -1)
    else Result(fs.(fileTaken := fs.fileTaken[h := true], files := fs.files[h := OpenFile(inumber, offset)],
                    openCount := fs.openCount + 1), h)
  }

  function Close(fs: Fs, h: int): (r: Result)
    requires Tables(fs)
    ensures Tables(r.fs)
  {
    if !ValidHandle(h) || !fs.fileTaken[h] then Result(fs, -1)
    else Result(fs.(fileTaken := fs.fileTaken[h := false], openCount := fs.openCount - 1), 0)
  }

  /* ----- tfs_open: operations.c:61-144 ----- */

  function Truncate(fs: Fs, n: int): (r: Result)
    requires Tables(fs) && ValidInumber(n)
    ensures Tables(r.fs)
  {
    if fs.inodes[n].size == 0 then Result(fs, 0)
    else
      var f := FreeBlock(fs, fs.inodes[n].block);
      if f.ret == -1 then Result(f.fs, -1)
      else Result(f.fs.(inodes := f.fs.inodes[n := f.fs.inodes[n].(size := 0)]), 0)
  }

  function OpenExisting(fs: Fs, n: int, flags: Flags): (r: Result)
    requires Tables(fs)
    ensures Tables(r.fs)
  {
    if !ValidInumber(n) then Result(fs, -1)
    else
      var t := if flags.truncate then Truncate(fs, n) else Result(fs, 0);
      if t.ret == -1 then Result(t.fs, -1)
      else AddOpen(t.fs, n, if flags.append then t.fs.inodes[n].size else 0)
  }

  function OpenNew(fs: Fs, name: string): (r: Result)
    requires Tables(fs)
    ensures Tables(r.fs)
  {
    var c := CreateFile(fs);
    if c.ret == -1 then Result(c.fs, -1)
    else
      var a := AddToRoot(c.fs, c.ret, name);
      if a.ret == -1 then Result(Delete(a.fs, c.ret).fs, -1)
      else AddOpen(a.fs, c.ret, 0)
  }

  /**
   * What tfs_open does under the lock.  As in the source, the path is not checked before a file is created: the name
   * entered is all but its first character.
   */
  function OpenUnsynchronized(fs: Fs, path: string, flags: Flags): (r: Result)
    requires Tables(fs)
    ensures Tables(r.fs)
  {
    var n := Lookup(fs, path);
    if n >= 0 then OpenExisting(fs, n, flags)
    else if flags.create then OpenNew(fs, if path == "" then path else path[1..])
    else Result(fs, -1)
  }

  function Open(fs: Fs, path: string, flags: Flags): (r: Result)
    requires Tables(fs)
    ensures Tables(r.fs)
  {
    if fs.closing then Result(fs, -1) else OpenUnsynchronized(fs, path, flags)
  }

  /* ----- tfs_write: operations.c:158-209 ----- */

  /** How many bytes of a write of length len at offset off fit in the block. */
  function WriteCount(off: nat, len: nat): (k: nat)
    requires off <= BLOCK_SIZE
    ensures k == Min(len, BLOCK_SIZE - off)
  {
    if len + off > BLOCK_SIZE then BLOCK_SIZE - off else len
  }

  /** The first write to an empty file gives it a block. */
  function EnsureBlock(fs: Fs, n: int): (r: Fs)
    requires Tables(fs) && ValidInumber(n)
    ensures Tables(r)
  {
    if fs.inodes[n].size > 0 then fs
    else
      var b := FirstFree(fs.blockTaken);
      fs.(blockTaken := if b == -1 then fs.blockTaken else fs.blockTaken[b := true],
          inodes := fs.inodes[n := fs.inodes[n].(block := b)])
  }

  function StoreBytes(fs: Fs, h: int, n: int, d: seq<byte>): (r: Fs)
    requires Tables(fs) && ValidHandle(h) && ValidInumber(n) && ValidBlock(fs.inodes[n].block)
    requires fs.files[h].offset + |d| <= BLOCK_SIZE
    ensures Tables(r)
  {
    var off := fs.files[h].offset;
    var b := fs.inodes[n].block;
    fs.(blocks := fs.blocks[b := PutBytes(fs.blocks[b], off, d)],
        files := fs.files[h := fs.files[h].(offset := off + |d|)],
        inodes := fs.inodes[n := fs.inodes[n].(size := Max(fs.inodes[n].size, off + |d|))])
  }

  /** The offset of h lies in a block; past it the source would copy outside of its tables. */
  predicate InBlock(fs: Fs, h: int)
    requires Tables(fs)
  {
    ValidHandle(h) ==> fs.files[h].offset <= BLOCK_SIZE
  }

  function Write(fs: Fs, h: int, buf: seq<byte>): (r: Result)
    requires Tables(fs) && InBlock(fs, h)
    ensures Tables(r.fs)
  {
    if !ValidHandle(h) || !ValidInumber(fs.files[h].inumber) then Result(fs, -1)
    else
      var n := fs.files[h].inumber;
      var k := WriteCount(fs.files[h].offset, |buf|);
      if k == 0 then Result(fs, 0)
      else
        var g := EnsureBlock(fs, n);
        if !ValidBlock(g.inodes[n].block) then Result(g, -1) else Result(StoreBytes(g, h, n, buf[..k]), k)
  }

  /* ----- tfs_read: operations.c:211-253 ----- */

  /** The count tfs_read takes: the subtraction is on size_t and wraps when the offset lies beyond the size. */
  function ReadCount(size: nat, off: nat, len: nat): (k: nat)
  {
    Min((size - off) % SIZE_MODULUS, len)
  }

  /** The count is the number of bytes there are to read if and only if the offset is within the file or len is 0. */
  lemma ReadCountExact(size: nat, off: nat, len: nat)
    requires size <= BLOCK_SIZE && off < SIZE_MODULUS
    ensures ReadCount(size, off, len) == Min(Max(size - off, 0), len) <==> off <= size || len == 0
  {
  }

  /** The k bytes of fs_data from position p on; what lies behind its end reads as zeros. */
  function Memory(blocks: seq<Block>, p: nat, k: nat): (d: seq<byte>)
    requires forall b :: 0 <= b < |blocks| ==> BlockShape(blocks[b])
    ensures |d| == k
  {
    seq(k, i requires 0 <= i < k => MemoryByte(blocks, p + i))
  }

  function MemoryByte(blocks: seq<Block>, p: nat): byte
    requires forall b :: 0 <= b < |blocks| ==> BlockShape(blocks[b])
  {
    if p / BLOCK_SIZE < |blocks| then BytesOf(blocks[p / BLOCK_SIZE])[p % BLOCK_SIZE] else 0
  }

  /** Within one block that is a slice of the block. */
  lemma MemoryInBlock(blocks: seq<Block>, b: nat, off: nat, k: nat)
    requires forall i :: 0 <= i < |blocks| ==> BlockShape(blocks[i])
    requires b < |blocks| && off + k <= BLOCK_SIZE
    ensures Memory(blocks, b * BLOCK_SIZE + off, k) == BytesOf(blocks[b])[off..off + k]
  {
    var d := Memory(blocks, b * BLOCK_SIZE + off, k);
    forall i | 0 <= i < k ensures d[i] == BytesOf(blocks[b])[off + i] {
      var p := b * BLOCK_SIZE + off + i;
      assert p / BLOCK_SIZE == b && p % BLOCK_SIZE == off + i;
      assert d[i] == MemoryByte(blocks, p);
    }
  }

  datatype ReadResult = ReadResult(fs: Fs, ret: int, data: seq<byte>)

  /** With an offset past the end of the file this reads on, out of the file and out of its block. */
  function Read(fs: Fs, h: int, len: nat): (r: ReadResult)
    requires Tables(fs)
    ensures Tables(r.fs)
  {
    if !ValidHandle(h) || !ValidInumber(fs.files[h].inumber) then ReadResult(fs, -1, [])
    else
      var n := fs.files[h].inumber;
      var off := fs.files[h].offset;
      var b := fs.inodes[n].block;
      var k := ReadCount(fs.inodes[n].size, off, len);
      if k == 0 then ReadResult(fs, 0, [])
      else if !ValidBlock(b) then ReadResult(fs, -1, [])
      else ReadResult(fs.(files := fs.files[h := fs.files[h].(offset := (off + k) % SIZE_MODULUS)]), k,
                      Memory(fs.blocks, b * BLOCK_SIZE + off, k))
  }

  /* ----- tfs_init: operations.c:11-27 ----- */

  /** The static tables, all zero, with every entry FREE. */
  function Blank(): (fs: Fs)
    ensures Tables(fs)
  {
    var blank := Data(seq(BLOCK_SIZE, _ => 0 as byte));
    Fs(seq(INODE_TABLE_SIZE, _ => Inode(File, 0, 0)), seq(INODE_TABLE_SIZE, _ => false),
       seq(DATA_BLOCKS, _ => blank), seq(DATA_BLOCKS, _ => false),
       seq(MAX_OPEN_FILES, _ => OpenFile(0, 0)), seq(MAX_OPEN_FILES, _ => false),
       0, false)
  }

  function Initial(): (fs: Fs)
    ensures Tables(fs)
  {
    var blank := Data(seq(BLOCK_SIZE, _ => 0 as byte));
    Fs(seq(INODE_TABLE_SIZE, i => if i == ROOT_DIR_INUM then Inode(Dir, BLOCK_SIZE, 0) else Inode(File, 0, 0)),
       seq(INODE_TABLE_SIZE, i => i == ROOT_DIR_INUM),
       seq(DATA_BLOCKS, b => if b == 0 then Directory(seq(MAX_DIR_ENTRIES, _ => UNUSED)) else blank),
       seq(DATA_BLOCKS, b => b == 0),
       seq(MAX_OPEN_FILES, _ => OpenFile(0, 0)),
       seq(MAX_OPEN_FILES, _ => false),
       0, false)
  }

  /** The first inode_create makes the root directory, inode 0 in block 0. */
  lemma InitMakesRoot()
    ensures CreateDirectory(Blank()) == Result(Initial(), ROOT_DIR_INUM)
  {
    hide BlockShape, FirstFreeFrom;
    var fs, g := Blank(), Initial();
    assert FirstFree(fs.inodeTaken) == 0 by { assert !fs.inodeTaken[0]; }
    assert FirstFree(fs.blockTaken) == 0 by { assert !fs.blockTaken[0]; }
    var made := CreateDirectory(fs).fs;
    assert made.inodes == g.inodes && made.inodeTaken == g.inodeTaken;
    assert made.blocks == g.blocks && made.blockTaken == g.blockTaken;
    assert made.files == g.files && made.fileTaken == g.fileTaken;
  }
}
