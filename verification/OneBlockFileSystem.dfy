/**
 * The one-block file system as the source runs it: static tables scanned and changed in place.  Each method is proved
 * against the function of OneBlockState the theorems are about, and a call within the rules against the map itself.
 */
module OneBlockFileSystem {
  import opened Bytes
  import opened AllocationTable
  import opened Disk
  import opened OneBlockState
  import opened OneBlockInvariant
  import opened OneBlockRefinement
  import opened OneBlockSteps
  import opened OneBlockRuns
  import Spec = OneBlockSpec

  class FileSystem {
    const inodeTable: array<Inode>
    const freeInodes: array<bool>
    const fsData: array<Block>
    const freeBlocks: array<bool>
    const openFileTable: array<OpenFile>
    const freeOpenFiles: array<bool>
    var openFilesNumber: int
    var stateClosing: bool

    ghost function State(): Fs
      reads this, inodeTable, freeInodes, fsData, freeBlocks, openFileTable, freeOpenFiles
    {
      Fs(inodeTable[..], freeInodes[..], fsData[..], freeBlocks[..], openFileTable[..], freeOpenFiles[..], openFilesNumber, stateClosing)
    }

    ghost predicate Valid()
      reads this, inodeTable, freeInodes, fsData, freeBlocks, openFileTable, freeOpenFiles
    {
      && freeInodes != freeBlocks && freeInodes != freeOpenFiles && freeBlocks != freeOpenFiles
      && Tables(State())
    }

    /** tfs_init: the zeroed tables, then inode_create for the root directory. */
    constructor ()
      ensures Valid() && State() == Initial()
      ensures fresh(inodeTable) && fresh(freeInodes) && fresh(fsData) && fresh(freeBlocks)
      ensures fresh(openFileTable) && fresh(freeOpenFiles)
    {
      hide BlockShape, Initial, CreateDirectory;
      var blank := Data(seq(BLOCK_SIZE, _ => 0 as byte));
      inodeTable := new Inode[INODE_TABLE_SIZE](_ => Inode(File, 0, 0));
      freeInodes := new bool[INODE_TABLE_SIZE](_ => false);
      fsData := new Block[DATA_BLOCKS](_ => blank);
      freeBlocks := new bool[DATA_BLOCKS](_ => false);
      openFileTable := new OpenFile[MAX_OPEN_FILES](_ => OpenFile(0, 0));
      freeOpenFiles := new bool[MAX_OPEN_FILES](_ => false);
      openFilesNumber, stateClosing := 0, false;
      new;
      assert inodeTable[..] == Blank().inodes && freeInodes[..] == Blank().inodeTaken;
      assert fsData[..] == Blank().blocks && freeBlocks[..] == Blank().blockTaken;
      assert openFileTable[..] == Blank().files && freeOpenFiles[..] == Blank().fileTaken;
      InitMakesRoot();
      var root := InodeCreate(Dir);
    }

    /* ----- inodes and blocks: state.c:97-166 and 260-287 ----- */

    method DataBlockFree(b: int) returns (ret: int)
      requires Valid()
      modifies freeBlocks
      ensures Valid() && Result(State(), ret) == FreeBlock(old(State()), b)
    {
      hide BlockShape;
      if !ValidBlock(b) {
        return -1;
      }
      freeBlocks[b] := false;
      return 0;
    }

    method InodeCreate(kind: InodeType) returns (ret: int)
      requires Valid()
      modifies freeInodes, inodeTable, freeBlocks, fsData
      ensures Valid()
      ensures Result(State(), ret) == if kind.Dir? then CreateDirectory(old(State())) else CreateFile(old(State()))
    {
      hide BlockShape, CreateDirectory, CreateFile;
      if kind.Dir? {
        ret := DirectoryCreate();
      } else {
        ret := FileCreate();
      }
    }

    /** inode_create for a directory: lines 110-130. */
    method DirectoryCreate() returns (ret: int)
      requires Valid()
      modifies freeInodes, inodeTable, freeBlocks, fsData
      ensures Valid() && Result(State(), ret) == CreateDirectory(old(State()))
    {
      ghost var was := State();
      var n := TakeFirstFree(freeInodes);
      if n == -1 {
        assert State() == was;
        return -1;
      }
      inodeTable[n] := inodeTable[n].(kind := Dir);
      var b := TakeFirstFree(freeBlocks);
      if b == -1 {
        freeInodes[n] := false;
        assert freeInodes[..] == was.inodeTaken;
        assert State() == CreateDirectory(was).fs;
        return -1;
      }
      inodeTable[n] := Inode(Dir, BLOCK_SIZE, b);
      fsData[b] := Directory(seq(MAX_DIR_ENTRIES, _ => UNUSED));
      assert inodeTable[..] == was.inodes[n := inodeTable[n]];
      assert fsData[..] == was.blocks[b := fsData[b]];
      assert State() == CreateDirectory(was).fs;
      return n;
    }

    /** inode_create for a file: lines 131-136. */
    method FileCreate() returns (ret: int)
      requires Valid()
      modifies freeInodes, inodeTable
      ensures Valid() && Result(State(), ret) == CreateFile(old(State()))
    {
      hide BlockShape;
      ghost var was := State();
      ret := TakeFirstFree(freeInodes);
      if ret != -1 {
        inodeTable[ret] := Inode(File, 0, -1);
        assert inodeTable[..] == was.inodes[ret := Inode(File, 0, -1)];
      }
      assert State() == CreateFile(was).fs;
    }

    method InodeDelete(n: int) returns (ret: int)
      requires Valid()
      modifies freeInodes, freeBlocks
      ensures Valid() && Result(State(), ret) == Delete(old(State()), n)
    {
      hide BlockShape;
      ghost var was := State();
      if !ValidInumber(n) || !freeInodes[n] {
        return -1;
      }
      freeInodes[n] := false;
      assert State() == was.(inodeTaken := was.inodeTaken[n := false]);
      if inodeTable[n].size > 0 {
        var freed := DataBlockFree(inodeTable[n].block);
        return freed;
      }
      return 0;
    }

    /* ----- the directory: state.c:191-254 ----- */

    /** find_in_dir on the root directory, skipping the slash. */
    method LookupUnsynchronized(path: string) returns (r: int)
      requires Valid()
      ensures r == OneBlockState.Lookup(State(), path)
      ensures path == "" || path[0] != '/' ==> r == -1
    {
      if !ValidPath(path) {
        return -1;
      }
      var root := inodeTable[ROOT_DIR_INUM];
      if root.kind != Dir || !ValidBlock(root.block) {
        return -1;
      }
      assert BlockShape(fsData[root.block]);
      r := ScanName(EntriesOf(fsData[root.block]), path[1..]);
    }

    method AddDirEntry(sub: int, name: string) returns (ret: int)
      requires Valid()
      modifies fsData
      ensures Valid() && Result(State(), ret) == AddToRoot(old(State()), sub, name)
    {
      ghost var was := State();
      var root := inodeTable[ROOT_DIR_INUM];
      if !ValidInumber(sub) || root.kind != Dir || |name| == 0 || !ValidBlock(root.block) {
        return -1;
      }
      var b := root.block;
      var entries := EntriesOf(fsData[b]);
      var i := ScanUnused(entries);
      if i == -1 {
        return -1;
      }
      fsData[b] := Directory(entries[i := DirEntry(StoredName(name), sub)]);
      assert fsData[..] == was.blocks[b := Directory(AddEntry(entries, name, sub))];
      return 0;
    }

    /* ----- the open file table: state.c:309-335 ----- */

    method AddToOpenFileTable(n: int, offset: nat) returns (ret: int)
      requires Valid() && offset <= BLOCK_SIZE
      modifies freeOpenFiles, openFileTable, this`openFilesNumber
      ensures Valid() && Result(State(), ret) == AddOpen(old(State()), n, offset)
    {
      hide BlockShape;
      ghost var was := State();
      ret := TakeFirstFree(freeOpenFiles);
      if ret != -1 {
        openFileTable[ret] := OpenFile(n, offset);
        openFilesNumber := openFilesNumber + 1;
        assert openFileTable[..] == was.files[ret := OpenFile(n, offset)];
      }
      assert State() == AddOpen(was, n, offset).fs;
    }

    /** tfs_close: operations.c:146-156, but for the wakeup of the destroyer. */
    method Close(h: int) returns (ret: int)
      requires Valid()
      modifies freeOpenFiles, this`openFilesNumber
      ensures Valid() && Result(State(), ret) == OneBlockState.Close(old(State()), h)
    {
      hide BlockShape;
      if !ValidHandle(h) || !freeOpenFiles[h] {
        return -1;
      }
      freeOpenFiles[h] := false;
      openFilesNumber := openFilesNumber - 1;
      return 0;
    }

    /* ----- tfs_open: operations.c:81-144 ----- */

    method TruncateInode(n: int) returns (ret: int)
      requires Valid() && ValidInumber(n)
      modifies freeBlocks, inodeTable
      ensures Valid() && Result(State(), ret) == Truncate(old(State()), n)
    {
      hide BlockShape;
      if inodeTable[n].size > 0 {
        var freed := DataBlockFree(inodeTable[n].block);
        if freed == -1 {
          return -1;
        }
        ghost var mid := State();
        inodeTable[n] := inodeTable[n].(size := 0);
        assert inodeTable[..] == mid.inodes[n := mid.inodes[n].(size := 0)];
      }
      return 0;
    }

    method OpenExisting(n: int, flags: Flags) returns (ret: int)
      requires Valid()
      modifies inodeTable, freeBlocks, openFileTable, freeOpenFiles, this`openFilesNumber
      ensures Valid() && Result(State(), ret) == OneBlockState.OpenExisting(old(State()), n, flags)
    {
      hide BlockShape, Truncate, AddOpen;
      if !ValidInumber(n) {
        return -1;
      }
      if flags.truncate {
        var truncated := TruncateInode(n);
        if truncated == -1 {
          return -1;
        }
      }
      ret := AddToOpenFileTable(n, if flags.append then inodeTable[n].size else 0);
    }

    method OpenNew(name: string) returns (ret: int)
      requires Valid()
      modifies freeInodes, inodeTable, freeBlocks, fsData, openFileTable, freeOpenFiles, this`openFilesNumber
      ensures Valid() && Result(State(), ret) == OneBlockState.OpenNew(old(State()), name)
    {
      hide BlockShape, CreateFile, AddToRoot, Delete, AddOpen;
      var n := InodeCreate(File);
      if n == -1 {
        return -1;
      }
      var added := AddDirEntry(n, name);
      if added == -1 {
        var _ := InodeDelete(n);
        return -1;
      }
      ret := AddToOpenFileTable(n, 0);
    }

    method OpenUnsynchronized(path: string, flags: Flags) returns (ret: int)
      requires Valid()
      modifies freeInodes, inodeTable, freeBlocks, fsData, openFileTable, freeOpenFiles, this`openFilesNumber
      ensures Valid() && Result(State(), ret) == OneBlockState.OpenUnsynchronized(old(State()), path, flags)
    {
      hide BlockShape, OneBlockState.OpenExisting, OneBlockState.OpenNew, OneBlockState.Lookup;
      var n := LookupUnsynchronized(path);
      if n >= 0 {
        ret := OpenExisting(n, flags);
      } else if flags.create {
        ret := OpenNew(if path == "" then path else path[1..]);
      } else {
        ret := -1;
      }
    }

    method Open(path: string, flags: Flags) returns (ret: int)
      requires Valid()
      modifies freeInodes, inodeTable, freeBlocks, fsData, openFileTable, freeOpenFiles, this`openFilesNumber
      ensures Valid() && Result(State(), ret) == OneBlockState.Open(old(State()), path, flags)
    {
      hide BlockShape, OneBlockState.OpenUnsynchronized;
      if stateClosing {
        return -1;
      }
      ret := OpenUnsynchronized(path, flags);
    }

    /* ----- tfs_write and tfs_read: operations.c:158-253 ----- */

    method Write(h: int, buf: seq<byte>) returns (ret: int)
      requires Valid() && InBlock(State(), h)
      modifies inodeTable, freeBlocks, fsData, openFileTable
      ensures Valid() && Result(State(), ret) == OneBlockState.Write(old(State()), h, buf)
    {
      hide BlockShape, PutBytes, EnsureBlock, StoreBytes;
      if !ValidHandle(h) || !ValidInumber(openFileTable[h].inumber) {
        return -1;
      }
      var n := openFileTable[h].inumber;
      var k := |buf|;
      if k + openFileTable[h].offset > BLOCK_SIZE {
        k := BLOCK_SIZE - openFileTable[h].offset;
      }
      if k > 0 {
        AllocateFirst(n);
        if !ValidBlock(inodeTable[n].block) {
          return -1;
        }
        CopyIn(h, n, buf[..k]);
      }
      return k;
    }

    /** An empty file gets a block, which may fail: operations.c:177-180. */
    method AllocateFirst(n: int)
      requires Valid() && ValidInumber(n)
      modifies inodeTable, freeBlocks
      ensures Valid() && State() == EnsureBlock(old(State()), n)
    {
      hide BlockShape;
      ghost var was := State();
      if inodeTable[n].size == 0 {
        var b := TakeFirstFree(freeBlocks);
        inodeTable[n] := inodeTable[n].(block := b);
        assert inodeTable[..] == was.inodes[n := was.inodes[n].(block := b)];
      }
      assert State() == EnsureBlock(was, n);
    }

    /** memcpy, then the offset and the size: operations.c:188-195. */
    method CopyIn(h: int, n: int, d: seq<byte>)
      requires Valid() && ValidHandle(h) && ValidInumber(n) && ValidBlock(inodeTable[n].block)
      requires openFileTable[h].offset + |d| <= BLOCK_SIZE
      modifies inodeTable, fsData, openFileTable
      ensures Valid() && State() == StoreBytes(old(State()), h, n, d)
    {
      hide BlockShape, PutBytes;
      ghost var was := State();
      var b, off := inodeTable[n].block, openFileTable[h].offset;
      fsData[b] := PutBytes(fsData[b], off, d);
      openFileTable[h] := openFileTable[h].(offset := off + |d|);
      if openFileTable[h].offset > inodeTable[n].size {
        inodeTable[n] := inodeTable[n].(size := openFileTable[h].offset);
      }
      assert inodeTable[..] == was.inodes[n := was.inodes[n].(size := Max(was.inodes[n].size, off + |d|))];
      assert State() == StoreBytes(was, h, n, d);
    }

    method Read(h: int, len: nat) returns (ret: int, data: seq<byte>)
      requires Valid()
      modifies openFileTable
      ensures Valid() && ReadResult(State(), ret, data) == OneBlockState.Read(old(State()), h, len)
    {
      hide BlockShape, Memory;
      data := [];
      if !ValidHandle(h) || !ValidInumber(openFileTable[h].inumber) {
        return -1, data;
      }
      var n, off := openFileTable[h].inumber, openFileTable[h].offset;
      var k := (inodeTable[n].size - off) % SIZE_MODULUS;
      if k > len {
        k := len;
      }
      if k > 0 {
        var b := inodeTable[n].block;
        if !ValidBlock(b) {
          return -1, data;
        }
        data := Memory(fsData[..], b * BLOCK_SIZE + off, k);
        openFileTable[h] := openFileTable[h].(offset := (off + k) % SIZE_MODULUS);
      }
      ret := k;
    }

    /* ----- a request of a client, as a worker serves it ----- */

    /** Within the rules, whatever is asked is done to the map and answered as the map answers it. */
    method Serve(op: Spec.Op) returns (reply: Spec.Reply)
      requires Valid() && Inv(State()) && Spec.Allowed(Abs(State()), op)
      modifies freeInodes, inodeTable, freeBlocks, fsData, openFileTable, freeOpenFiles, this`openFilesNumber
      ensures Valid() && Inv(State()) && Spec.WellFormed(old(Abs(State())))
      ensures Spec.Step(old(Abs(State())), op) == Spec.Outcome(Abs(State()), reply)
    {
      hide BlockShape, Inv, Abs, OneBlockState.Open, OneBlockState.Close, OneBlockState.Write, OneBlockState.Read, Spec.Step, Spec.Allowed,
        Spec.WellFormed;
      StepRefines(State(), op);
      match op
      case OpOpen(path, flags) =>
        var ret := Open(path, flags);
        reply := Spec.Reply(ret, []);
      case OpClose(h) =>
        var ret := Close(h);
        reply := Spec.Reply(ret, []);
      case OpWrite(h, buf) =>
        var ret := Write(h, buf);
        reply := Spec.Reply(ret, []);
      case OpRead(h, len) =>
        var ret, data := Read(h, len);
        reply := Spec.Reply(ret, data);
    }
  }
}
