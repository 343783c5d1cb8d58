/** The other operations of the multi-block version: inodes, the directory, the open file table, tfs_open, tfs_close. */
module IndexedOps {
  import opened Bytes
  import opened AllocationTable
  import opened Disk
  import opened IndexedState

  const UNUSED: DirEntry := DirEntry("", -1)

  function NoBlocks(count: nat): (r: seq<int>)
    ensures |r| == count && forall i :: 0 <= i < count ==> r[i] == -1
  {
    seq(count, _ => -1)
  }

  /** Marking every block that refs names as FREE. */
  function Released(taken: seq<bool>, refs: seq<int>): (r: seq<bool>)
    ensures |r| == |taken| && forall b :: 0 <= b < |r| ==> (r[b] <==> taken[b] && b !in refs)
  {
    seq(|taken|, b requires 0 <= b < |taken| => taken[b] && b !in refs)
  }

  /** A new state and the return value of an operation. */
  datatype Result = Result(fs: Fs, ret: int)

  /* ----- inode_create: state.c:117-174 ----- */

  function NewFile(fs: Fs, n: int): (r: Result)
    requires Tables(fs) && ValidInumber(n)
    ensures Tables(r.fs)
  {
    var b := FirstFree(fs.blockTaken);
    var g := fs.(inodeTaken := fs.inodeTaken[n := true],
                 inodes := fs.inodes[n := Inode(File, 0, NoBlocks(DIRECT), b)]);
    if b == -1 then Result(g, -1)  // the inode stays TAKEN
    else Result(g.(blockTaken := g.blockTaken[b := true], blocks := g.blocks[b := Index(NoBlocks(INDEX_ENTRIES))]), n)
  }

  /** The branch for a directory, which tfs_init takes once: the inode is given back when there is no block. */
  function CreateDirectory(fs: Fs): (r: Result)
    requires Tables(fs)
    ensures Tables(r.fs)
  {
    var n, b := FirstFree(fs.inodeTaken), FirstFree(fs.blockTaken);
    if n == -1 then Result(fs, -1)
    else if b == -1 then Result(fs.(inodes := fs.inodes[n := fs.inodes[n].(kind := Dir, direct := NoBlocks(DIRECT))]), -1)
    else
      Result(fs.(inodeTaken := fs.inodeTaken[n := true],
                 inodes := fs.inodes[n := Inode(Dir, BLOCK_SIZE, NoBlocks(DIRECT)[0 := b], -1)],
                 blockTaken := fs.blockTaken[b := true],
                 blocks := fs.blocks[b := Directory(seq(MAX_DIR_ENTRIES, _ => UNUSED))]), n)
  }

  function CreateFile(fs: Fs): (r: Result)
    requires Tables(fs)
    ensures Tables(r.fs)
  {
    var n := FirstFree(fs.inodeTaken);
    if n == -1 then Result(fs, -1) else NewFile(fs, n)
  }

  /* ----- inode_datablocks_erase: state.c:202-227 ----- */

  /** The direct array an inode is left with: erase works on a copy, so as written the numbers stay. */
  function DirectLeft(v: Variant, direct: seq<int>): seq<int> {
    if v.AsWritten? then direct
    else NoBlocks(DIRECT)  // REPAIR: erase clears the array of the inode itself
  }

  function Erase(v: Variant, fs: Fs, n: int): (r: Result)
    requires Tables(fs) && ValidInumber(n)
    ensures Tables(r.fs)
  {
    var node := fs.inodes[n];
    var ib := node.indexBlock;
    var taken := Released(fs.blockTaken, node.direct);
    var g := fs.(inodes := fs.inodes[n := node.(direct := DirectLeft(v, node.direct))]);
    if ib == -1 then Result(g.(blockTaken := taken), -1)
    else Result(g.(blockTaken := Released(taken, IndexSlots(fs, n)),
                   blocks := if fs.blocks[ib].Index? then fs.blocks[ib := Index(NoBlocks(INDEX_ENTRIES))] else fs.blocks), 0)
  }

  /* ----- inode_delete: state.c:182-198 ----- */

  function Delete(v: Variant, fs: Fs, n: int): (r: Result)
    requires Tables(fs)
    ensures Tables(r.fs)
  {
    if !ValidInumber(n) || !fs.inodeTaken[n] then Result(fs, -1)
    else
      var e := Erase(v, fs.(inodeTaken := fs.inodeTaken[n := false]), n);
      if e.ret != 0 then Result(e.fs, -1)
      else Result(e.fs.(blockTaken := e.fs.blockTaken[fs.inodes[n].indexBlock := false]), 0)
  }

  /* ----- the directory: state.c:261-327 ----- */

  function EntriesOf(b: Block): (r: seq<DirEntry>)
    requires BlockShape(b)
    ensures |r| == MAX_DIR_ENTRIES
  {
    if b.Directory? then b.entries else seq(MAX_DIR_ENTRIES, _ => UNUSED)
  }

  function RootEntries(fs: Fs): (r: seq<DirEntry>)
    requires Tables(fs)
    ensures |r| == MAX_DIR_ENTRIES
  {
    var b := fs.inodes[ROOT_DIR_INUM].direct[0];
    if b == -1 then seq(MAX_DIR_ENTRIES, _ => UNUSED) else EntriesOf(fs.blocks[b])
  }

  function Lookup(fs: Fs, path: string): (r: int)
    requires Tables(fs)
  {
    if !ValidPath(path) || fs.inodes[ROOT_DIR_INUM].kind != Dir || fs.inodes[ROOT_DIR_INUM].direct[0] == -1 then -1
    else InumberOf(RootEntries(fs), path[1..])
  }

  /** add_dir_entry for the root directory. */
  function AddToRoot(fs: Fs, sub: int, name: string): (r: Result)
    requires Tables(fs)
    ensures Tables(r.fs)
  {
    var b := fs.inodes[ROOT_DIR_INUM].direct[0];
    if !ValidInumber(sub) || fs.inodes[ROOT_DIR_INUM].kind != Dir || |name| == 0 || b == -1 then Result(fs, -1)
    else if FirstUnused(EntriesOf(fs.blocks[b])) == -1 then Result(fs, -1)
    else Result(fs.(blocks := fs.blocks[b := Directory(AddEntry(EntriesOf(fs.blocks[b]), name, sub))]), 0)
  }

  /* ----- the open file table: state.c:384-427 ----- */

  function AddOpen(fs: Fs, inumber: int, offset: nat, append: bool): (r: Result)
    requires Tables(fs)
    ensures Tables(r.fs)
  {
    var h := FirstFree(fs.fileTaken);
    if h == -1 then Result(fs, -1)
    else Result(fs.(fileTaken := fs.fileTaken[h := true], files := fs.files[h := OpenFile(inumber, offset, append)]), h)
  }

  function Close(fs: Fs, h: int): (r: Result)
    requires Tables(fs)
    ensures Tables(r.fs)
  {
    if !ValidHandle(h) || !fs.fileTaken[h] then Result(fs, -1)
    else Result(fs.(fileTaken := fs.fileTaken[h := false]), 0)
  }

  /* ----- tfs_open: operations.c:41-102 ----- */

  function Truncate(v: Variant, fs: Fs, n: int): (r: Result)
    requires Tables(fs) && ValidInumber(n)
    ensures Tables(r.fs)
  {
    if fs.inodes[n].size == 0 then Result(fs, 0)
    else
      var e := Erase(v, fs, n);
      if e.ret == -1 then Result(e.fs, -1)
      else Result(e.fs.(inodes := e.fs.inodes[n := e.fs.inodes[n].(size := 0)]), 0)
  }

  function OpenExisting(v: Variant, fs: Fs, n: int, flags: Flags): (r: Result)
    requires Tables(fs)
    ensures Tables(r.fs)
  {
    if !ValidInumber(n) then Result(fs, -1)
    else
      var t := if flags.truncate then Truncate(v, fs, n) else Result(fs, 0);
      if t.ret == -1 then Result(t.fs, -1)
      else AddOpen(t.fs, n, if flags.append then t.fs.inodes[n].size else 0, flags.append)
  }

  /** A new file is never marked append, whatever the flags. */
  function OpenNew(v: Variant, fs: Fs, name: string): (r: Result)
    requires Tables(fs)
    ensures Tables(r.fs)
  {
    var c := CreateFile(fs);
    if c.ret == -1 then Result(c.fs, -1)
    else
      var a := AddToRoot(c.fs, c.ret, name);
      if a.ret == -1 then Result(Delete(v, a.fs, c.ret).fs, -1)
      else AddOpen(a.fs, c.ret, 0, false)
  }

  function Open(v: Variant, fs: Fs, path: string, flags: Flags): (r: Result)
    requires Tables(fs)
    ensures Tables(r.fs)
  {
    if !ValidPath(path) then Result(fs, -1)
    else
      var n := Lookup(fs, path);
      if n >= 0 then OpenExisting(v, fs, n, flags)
      else if flags.create then OpenNew(v, fs, path[1..])
      else Result(fs, -1)
  }

  /* ----- tfs_init: operations.c:8-18 ----- */

  /** The static tables, all zero, with every entry FREE. */
  function Blank(): (fs: Fs)
    ensures Tables(fs)
  {
    var zero := Inode(File, 0, seq(DIRECT, _ => 0), 0);
    var blank := Data(seq(BLOCK_SIZE, _ => 0 as byte));
    Fs(seq(INODE_TABLE_SIZE, _ => zero), seq(INODE_TABLE_SIZE, _ => false),
       seq(DATA_BLOCKS, _ => blank), seq(DATA_BLOCKS, _ => false),
       seq(MAX_OPEN_FILES, _ => OpenFile(0, 0, false)), seq(MAX_OPEN_FILES, _ => false))
  }

  function Initial(): (fs: Fs)
    ensures Tables(fs)
  {
    var zero := Inode(File, 0, seq(DIRECT, _ => 0), 0);
    var root := Inode(Dir, BLOCK_SIZE, NoBlocks(DIRECT)[0 := 0], -1);
    var blank := Data(seq(BLOCK_SIZE, _ => 0 as byte));
    Fs(seq(INODE_TABLE_SIZE, i => if i == ROOT_DIR_INUM then root else zero),
       seq(INODE_TABLE_SIZE, i => i == ROOT_DIR_INUM),
       seq(DATA_BLOCKS, b => if b == 0 then Directory(seq(MAX_DIR_ENTRIES, _ => UNUSED)) else blank),
       seq(DATA_BLOCKS, b => b == 0),
       seq(MAX_OPEN_FILES, _ => OpenFile(0, 0, false)),
       seq(MAX_OPEN_FILES, _ => false))
  }

  /** The first inode_create makes the root directory, inode 0 in block 0. */
  lemma InitMakesRoot()
    ensures CreateDirectory(Blank()) == Result(Initial(), ROOT_DIR_INUM)
  {
    hide InodeShape, BlockShape, FirstFreeFrom;
    var fs, g := Blank(), Initial();
    assert FirstFree(fs.inodeTaken) == 0 by { assert !fs.inodeTaken[0]; }
    assert FirstFree(fs.blockTaken) == 0 by { assert !fs.blockTaken[0]; }
    var made := CreateDirectory(fs).fs;
    assert made.inodes == g.inodes && made.inodeTaken == g.inodeTaken;
    assert made.blocks == g.blocks && made.blockTaken == g.blockTaken;
    assert made.files == g.files && made.fileTaken == g.fileTaken;
  }

  /* ----- runs ----- */

  datatype Op =
    | OpOpen(path: string, flags: Flags)
    | OpClose(h: int)
    | OpWrite(h: int, buf: seq<byte>)
    | OpRead(h: int, len: nat)

  function Step(v: Variant, fs: Fs, op: Op): (r: Fs)
    requires Tables(fs)
    ensures Tables(r)
  {
    match op
    case OpOpen(path, flags) => Open(v, fs, path, flags).fs
    case OpClose(h) => Close(fs, h).fs
    case OpWrite(h, buf) => Write(v, fs, h, buf).fs
    case OpRead(h, len) => Read(v, fs, h, len).fs
  }

  function Run(v: Variant, fs: Fs, ops: seq<Op>): (r: Fs)
    requires Tables(fs)
    ensures Tables(r)
    decreases |ops|
  {
    if ops == [] then fs else Run(v, Step(v, fs, ops[0]), ops[1..])
  }

  /** Writes and reads go through handles from a live open; get_open_file_entry does not check it (state.c:422-427). */
  predicate Allowed(fs: Fs, op: Op)
    requires Tables(fs)
  {
    match op
    case OpWrite(h, _) => ValidHandle(h) ==> fs.fileTaken[h]
    case OpRead(h, _) => ValidHandle(h) ==> fs.fileTaken[h]
    case _ => true
  }

  predicate AllowedRun(v: Variant, fs: Fs, ops: seq<Op>)
    requires Tables(fs)
    decreases |ops|
  {
    ops == [] || (Allowed(fs, ops[0]) && AllowedRun(v, Step(v, fs, ops[0]), ops[1..]))
  }

  /** The call empties a file that has bytes. */
  predicate Truncates(fs: Fs, op: Op)
    requires Tables(fs)
  {
    op.OpOpen? && op.flags.truncate && ValidInumber(Lookup(fs, op.path)) && fs.inodes[Lookup(fs, op.path)].size > 0
  }

  predicate TruncatesIn(v: Variant, fs: Fs, ops: seq<Op>)
    requires Tables(fs)
    decreases |ops|
  {
    ops != [] && (Truncates(fs, ops[0]) || TruncatesIn(v, Step(v, fs, ops[0]), ops[1..]))
  }
}
