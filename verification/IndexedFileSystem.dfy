/**
 * The multi-block file system as the source runs it: static tables scanned and changed in place by loops.  Each method
 * is proved against the function of IndexedState or IndexedOps that the theorems are about.
 */
module IndexedFileSystem {
  import opened Bytes
  import opened AllocationTable
  import opened Disk
  import opened IndexedState
  import opened IndexedOwnership
  import opened IndexedWrite
  import opened IndexedWriteLaw
  import opened IndexedReadLaw
  import opened IndexedOps
  import opened IndexedRuns

  /* ----- facts the loops of the methods use ----- */

  lemma WriteLoopUnroll(v: Variant, c: WriteCursor, n: int, buf: seq<byte>, last: int)
    requires Writable(c, n, buf) && last <= SLOTS
    ensures WriteLoop(v, c, n, buf, last) ==
            if c.full || last <= c.slot || c.done == |buf| then c
            else WriteLoop(v, WriteStep(v, c, n, buf), n, buf, last)
  {
    hide InodeShape, BlockShape, WriteStep;
  }

  lemma ReadLoopUnrollTo(v: Variant, c: ReadCursor, fs: Fs, n: int, toRead: nat, last: int)
    requires Tables(fs) && ValidInumber(n) && last <= SLOTS
    ensures ReadLoop(v, c, fs, n, toRead, last) ==
            if c.missing || last <= c.slot || toRead <= |c.data| then c
            else ReadLoop(v, ReadStep(v, c, fs, n, toRead), fs, n, toRead, last)
  {
    hide InodeShape, BlockShape, Ref, ReadStep;
  }

  /** The offset of an open file and its blocks do not meet. */
  lemma OffsetApart(fs: Fs, h: int, off: nat, n: int, i: int)
    requires Tables(fs) && ValidHandle(h) && ValidInumber(n) && 0 <= i < SLOTS
    ensures Ref(SetOffset(fs, h, off), n, i) == Ref(fs, n, i)
    ensures EnsureBlock(SetOffset(fs, h, off), n, i) == SetOffset(EnsureBlock(fs, n, i), h, off)
    ensures Ref(EnsureBlock(SetOffset(fs, h, off), n, i), n, i) == Ref(EnsureBlock(fs, n, i), n, i)
  {
    hide InodeShape, BlockShape;
  }

  /** An offset stored before a chunk is copied in is overwritten by the one stored after. */
  lemma OffsetOverChunk(fs: Fs, h: int, off: nat, last: nat, b: int, at: nat, d: seq<byte>)
    requires Tables(fs) && ValidHandle(h) && ValidBlock(b) && at + |d| <= BLOCK_SIZE
    ensures SetOffset(PutChunk(SetOffset(fs, h, off), b, at, d), h, last) == SetOffset(PutChunk(fs, b, at, d), h, last)
  {
    hide InodeShape, BlockShape, PutBytes;
  }

  /** A turn of a write loop on the tables, where the offset is already stored, is a step of the cursor. */
  lemma WriteTurn(v: Variant, c: WriteCursor, h: int, n: int, buf: seq<byte>)
    requires Writable(c, n, buf) && ValidHandle(h) && c.slot < SLOTS && c.done < |buf| && !c.full
    ensures var g := EnsureBlock(SetOffset(c.fs, h, c.offset), n, c.slot);
            var b := Ref(g, n, c.slot);
            var k := ChunkSize(c.offset, |buf| - c.done);
            var s := WriteStep(v, c, n, buf);
            if b == -1 then s.full && s.done == c.done && SetOffset(s.fs, h, s.offset) == g
            else
              && !s.full && s.done == c.done + k
              && SetOffset(s.fs, h, s.offset) ==
                 SetOffset(PutChunk(g, b, c.offset % BLOCK_SIZE, buf[c.done..s.done]), h, c.offset + Advance(v, k, s.done))
  {
    hide InodeShape, BlockShape, Ref, EnsureBlock, SetOffset, PutChunk;
    OffsetApart(c.fs, h, c.offset, n, c.slot);
    var e := EnsureBlock(c.fs, n, c.slot);
    var b := Ref(e, n, c.slot);
    if b != -1 {
      var k := ChunkSize(c.offset, |buf| - c.done);
      OffsetOverChunk(e, h, c.offset, c.offset + Advance(v, k, c.done + k), b, c.offset % BLOCK_SIZE, buf[c.done..c.done + k]);
    }
  }

  lemma ShapeOf(fs: Fs, n: int)
    requires Tables(fs) && ValidInumber(n)
    ensures |fs.inodes[n].direct| == DIRECT
    ensures forall i :: 0 <= i < DIRECT ==> fs.inodes[n].direct[i] == Ref(fs, n, i)
    ensures var ib := fs.inodes[n].indexBlock;
            && (ib == -1 || ValidBlock(ib))
            && (ib != -1 && fs.blocks[ib].Index? ==> |fs.blocks[ib].slots| == INDEX_ENTRIES)
            && forall i :: DIRECT <= i < SLOTS ==>
                 Ref(fs, n, i) == if ib != -1 && fs.blocks[ib].Index? then fs.blocks[ib].slots[i - DIRECT] else -1
  {
  }

  /** The blocks when the first i entries of the index block ib, which held slots, have been cleared. */
  function ClearedTo(blocks: seq<Block>, ib: int, slots: seq<int>, i: nat): (r: seq<Block>)
    requires 0 <= ib < |blocks| && i <= |slots|
    ensures |r| == |blocks| && r[ib].Index?
  {
    blocks[ib := Index(NoBlocks(i) + slots[i..])]
  }

  /** The allocation table when the blocks those entries named have been freed. */
  function FreedTo(taken: seq<bool>, slots: seq<int>, i: nat): (r: seq<bool>)
    requires i <= |slots|
    ensures |r| == |taken|
  {
    Released(taken, slots[..i])
  }

  /** One turn: entry i is still what it was; unless it is -1, its block is freed and it is cleared. */
  lemma EraseTurn(blocks: seq<Block>, taken: seq<bool>, ib: int, slots: seq<int>, i: nat)
    requires |blocks| == |taken| == DATA_BLOCKS && ValidBlock(ib) && blocks[ib] == Index(slots) && BlockShape(blocks[ib]) && i < INDEX_ENTRIES
    ensures |slots| == INDEX_ENTRIES && (slots[i] == -1 || ValidBlock(slots[i]))
    ensures var entries := ClearedTo(blocks, ib, slots, i)[ib].slots;
            && |entries| == INDEX_ENTRIES && entries[i] == slots[i]
            && ClearedTo(blocks, ib, slots, i)[ib := Index(entries[i := -1])] == ClearedTo(blocks, ib, slots, i + 1)
    ensures slots[i] == -1 ==> ClearedTo(blocks, ib, slots, i) == ClearedTo(blocks, ib, slots, i + 1)
    ensures FreedTo(taken, slots, i + 1) == if slots[i] == -1 then FreedTo(taken, slots, i) else FreedTo(taken, slots, i)[slots[i] := false]
  {
    assert slots[..i + 1] == slots[..i] + [slots[i]];
    assert (NoBlocks(i) + slots[i..])[i := -1] == NoBlocks(i + 1) + slots[i + 1..];
    if slots[i] == -1 {
      assert NoBlocks(i) + slots[i..] == NoBlocks(i + 1) + slots[i + 1..];
    }
  }

  /** Before the first turn and after the last. */
  lemma EraseEnds(blocks: seq<Block>, taken: seq<bool>, ib: int, slots: seq<int>)
    requires 0 <= ib < |blocks| && blocks[ib] == Index(slots) && |slots| == INDEX_ENTRIES
    ensures ClearedTo(blocks, ib, slots, 0) == blocks && FreedTo(taken, slots, 0) == taken
    ensures ClearedTo(blocks, ib, slots, INDEX_ENTRIES) == blocks[ib := Index(NoBlocks(INDEX_ENTRIES))]
    ensures FreedTo(taken, slots, INDEX_ENTRIES) == Released(taken, slots)
  {
    assert NoBlocks(0) + slots[0..] == slots && slots[..INDEX_ENTRIES] == slots;
    assert NoBlocks(INDEX_ENTRIES) + slots[INDEX_ENTRIES..] == NoBlocks(INDEX_ENTRIES);
  }

  /** Clearing entries keeps the shape of the tables. */
  lemma ClearedShape(fs: Fs, ib: int, slots: seq<int>, i: nat)
    requires Tables(fs) && ValidBlock(ib) && fs.blocks[ib] == Index(slots) && i <= INDEX_ENTRIES
    ensures |slots| == INDEX_ENTRIES
    ensures Tables(fs.(blocks := ClearedTo(fs.blocks, ib, slots, i), blockTaken := FreedTo(fs.blockTaken, slots, i)))
  {
    hide InodeShape;
    assert BlockShape(fs.blocks[ib]);
    assert BlockShape(Index(NoBlocks(i) + slots[i..]));
  }

  /** Releasing no block at all. */
  lemma NothingReleased(taken: seq<bool>, refs: seq<int>)
    requires forall i :: 0 <= i < |refs| ==> refs[i] == -1
    ensures Released(taken, refs) == taken
  {
  }

  lemma EraseKeepsIndex(v: Variant, fs: Fs, n: int)
    requires Tables(fs) && ValidInumber(n)
    ensures Erase(v, fs, n).ret == 0 <==> fs.inodes[n].indexBlock != -1
    ensures Erase(v, fs, n).ret == 0 || Erase(v, fs, n).ret == -1
  {
  }

  /** A turn of a write loop leaves the open files alone, and the number of the index block. */
  lemma WriteStepLeaves(v: Variant, c: WriteCursor, n: int, buf: seq<byte>)
    requires Writable(c, n, buf) && c.slot < SLOTS && c.done < |buf|
    ensures var s := WriteStep(v, c, n, buf);
            && s.fs.files == c.fs.files && s.fs.inodes[n].indexBlock == c.fs.inodes[n].indexBlock
            && (s.full ==> s.slot == c.slot)
  {
    hide InodeShape, BlockShape, Ref;
  }

  lemma WriteStaysConsistent(v: Variant, fs: Fs, h: int, buf: seq<byte>)
    requires Tables(fs)
    ensures Consistent(fs) && Allowed(fs, OpWrite(h, buf)) ==> Consistent(IndexedState.Write(v, fs, h, buf).fs)
  {
    hide InodeShape, BlockShape, Consistent, Allowed, IndexedState.Write;
    if Consistent(fs) && Allowed(fs, OpWrite(h, buf)) {
      WriteConsistent(v, fs, h, buf);
    }
  }

  lemma OpenStaysConsistent(v: Variant, fs: Fs, path: string, flags: Flags)
    requires Tables(fs)
    ensures Consistent(fs) && (v.Repaired? || !Truncates(fs, OpOpen(path, flags))) ==> Consistent(IndexedOps.Open(v, fs, path, flags).fs)
  {
    hide InodeShape, BlockShape, Consistent, Truncates, IndexedOps.Open;
    if Consistent(fs) && (v.Repaired? || !Truncates(fs, OpOpen(path, flags))) {
      OpenConsistent(v, fs, path, flags);
    }
  }

  class FileSystem {
    const variant: Variant
    const inodeTable: array<Inode>
    const freeInodes: array<bool>
    const fsData: array<Block>
    const freeBlocks: array<bool>
    const openFileTable: array<OpenFile>
    const freeOpenFiles: array<bool>

    ghost function State(): Fs
      reads inodeTable, freeInodes, fsData, freeBlocks, openFileTable, freeOpenFiles
    {
      Fs(inodeTable[..], freeInodes[..], fsData[..], freeBlocks[..], openFileTable[..], freeOpenFiles[..])
    }

    ghost predicate Valid()
      reads inodeTable, freeInodes, fsData, freeBlocks, openFileTable, freeOpenFiles
    {
      && freeInodes != freeBlocks && freeInodes != freeOpenFiles && freeBlocks != freeOpenFiles
      && Tables(State())
    }

    /** tfs_init: the zeroed tables, then inode_create for the root directory. */
    constructor (v: Variant)
      ensures Valid() && variant == v && State() == Initial()
      ensures fresh(inodeTable) && fresh(freeInodes) && fresh(fsData) && fresh(freeBlocks)
      ensures fresh(openFileTable) && fresh(freeOpenFiles)
    {
      hide InodeShape, BlockShape, Initial, CreateDirectory;
      variant := v;
      var zero := Inode(File, 0, seq(DIRECT, _ => 0), 0);
      var blank := Data(seq(BLOCK_SIZE, _ => 0 as byte));
      inodeTable := new Inode[INODE_TABLE_SIZE](_ => zero);
      freeInodes := new bool[INODE_TABLE_SIZE](_ => false);
      fsData := new Block[DATA_BLOCKS](_ => blank);
      freeBlocks := new bool[DATA_BLOCKS](_ => false);
      openFileTable := new OpenFile[MAX_OPEN_FILES](_ => OpenFile(0, 0, false));
      freeOpenFiles := new bool[MAX_OPEN_FILES](_ => false);
      new;
      assert inodeTable[..] == Blank().inodes && freeInodes[..] == Blank().inodeTaken;
      assert fsData[..] == Blank().blocks && freeBlocks[..] == Blank().blockTaken;
      assert openFileTable[..] == Blank().files && freeOpenFiles[..] == Blank().fileTaken;
      InitMakesRoot();
      var root := InodeCreate(Dir);
    }

    /* ----- tfs_write ----- */

    /** Give direct slot i of inode n a block if it has none: operations.c:147-149. */
    method EnsureDirect(n: int, i: int) returns (b: int)
      requires Valid() && ValidInumber(n) && 0 <= i < DIRECT
      modifies inodeTable, freeBlocks
      ensures Valid() && State() == EnsureBlock(old(State()), n, i)
      ensures b == Ref(State(), n, i)
    {
      ghost var was := State();
      var node := inodeTable[n];
      if node.direct[i] == -1 {
        b := TakeFirstFree(freeBlocks);
        inodeTable[n] := node.(direct := node.direct[i := b]);
        if b == -1 {
          assert node.direct[i := b] == node.direct;
          assert State().inodes == was.inodes;
        } else {
          assert State().inodes == was.inodes[n := node.(direct := node.direct[i := b])];
        }
        assert State() == EnsureBlock(was, n, i);
      }
      b := inodeTable[n].direct[i];
    }

    /**
     * Give entry i of the index block ib of inode n a block if it has none: operations.c:182-184.  A block that was
     * overwritten and holds no numbers any more has none to give.
     */
    method EnsureIndirect(n: int, ib: int, i: int) returns (b: int)
      requires Valid() && ValidInumber(n) && 0 <= i < INDEX_ENTRIES
      requires ib == inodeTable[n].indexBlock && ValidBlock(ib)
      modifies fsData, freeBlocks
      ensures Valid() && State() == EnsureBlock(old(State()), n, DIRECT + i)
      ensures b == Ref(State(), n, DIRECT + i)
    {
      ghost var was := State();
      if !fsData[ib].Index? {
        b := TakeFirstFree(freeBlocks);
        assert State() == EnsureBlock(was, n, DIRECT + i);
        return -1;
      }
      var slots := fsData[ib].slots;
      assert Ref(was, n, DIRECT + i) == slots[i];
      if slots[i] == -1 {
        b := TakeFirstFree(freeBlocks);
        fsData[ib] := Index(slots[i := b]);
        if b == -1 {
          assert slots[i := b] == slots;
          assert State().blocks == was.blocks;
        } else {
          assert State().blocks == was.blocks[ib := Index(slots[i := b])];
        }
        assert State() == EnsureBlock(was, n, DIRECT + i);
      }
      b := fsData[ib].slots[i];
    }

    /** memcpy into block b and the update of the offset of h: operations.c:156-159 and 191-194. */
    method CopyIn(h: int, b: int, d: seq<byte>, advance: nat)
      requires Valid() && ValidHandle(h) && ValidBlock(b) && openFileTable[h].offset % BLOCK_SIZE + |d| <= BLOCK_SIZE
      modifies fsData, openFileTable
      ensures Valid()
      ensures State() == SetOffset(PutChunk(old(State()), b, old(openFileTable[h].offset) % BLOCK_SIZE, d), h,
                                   old(openFileTable[h].offset) + advance)
    {
      ghost var was := State();
      var file := openFileTable[h];
      fsData[b] := PutBytes(fsData[b], file.offset % BLOCK_SIZE, d);
      openFileTable[h] := file.(offset := file.offset + advance);
      assert State().blocks == was.blocks[b := PutBytes(was.blocks[b], file.offset % BLOCK_SIZE, d)];
      assert State().files == was.files[h := file.(offset := file.offset + advance)];
      assert Tables(PutChunk(was, b, file.offset % BLOCK_SIZE, d));
    }

    /** Storing a larger size: operations.c:198-200. */
    method Grow(n: int, size: nat)
      requires Valid() && ValidInumber(n)
      modifies inodeTable
      ensures Valid() && State() == GrowTo(old(State()), n, size)
    {
      ghost var was := State();
      if inodeTable[n].size < size {
        inodeTable[n] := inodeTable[n].(size := size);
        assert State().inodes == was.inodes[n := was.inodes[n].(size := size)];
      }
      assert State() == GrowTo(was, n, size);
    }

    /** The state of a write loop: the tables hold what cursor c holds, with the offset already stored. */
    ghost predicate Writing(c: WriteCursor, h: int, n: int, buf: seq<byte>, files: seq<OpenFile>)
      requires Valid()
      reads inodeTable, freeInodes, fsData, freeBlocks, openFileTable, freeOpenFiles
    {
      && ValidHandle(h) && Writable(c, n, buf) && !c.full && c.fs.files == files
      && State() == SetOffset(c.fs, h, c.offset)
    }

    /** One turn of the direct loop: operations.c:142-159. */
    method DirectTurn(ghost c: WriteCursor, h: int, n: int, index: int, buf: seq<byte>, writen: nat)
      returns (done: nat, full: bool)
      requires Valid() && Writing(c, h, n, buf, c.fs.files) && c.slot == index < DIRECT && c.done == writen < |buf|
      modifies inodeTable, fsData, freeBlocks, openFileTable
      ensures var s := WriteStep(variant, c, n, buf);
              && Valid() && full == s.full && done == s.done && State() == SetOffset(s.fs, h, s.offset)
    {
      hide InodeShape, BlockShape, WriteStep, EnsureBlock, PutChunk;
      var offset := openFileTable[h].offset;
      var toWriteInBlock := ChunkSize(offset, |buf| - writen);
      WriteTurn(variant, c, h, n, buf);
      var b := EnsureDirect(n, index);
      if b == -1 {
        return writen, true;
      }
      done := writen + toWriteInBlock;
      CopyIn(h, b, buf[writen..done], Advance(variant, toWriteInBlock, done));
      return done, false;
    }

    /** One turn of the indirect loop: operations.c:177-194. */
    method IndirectTurn(ghost c: WriteCursor, h: int, n: int, ib: int, index: int, buf: seq<byte>, writen: nat)
      returns (done: nat, full: bool)
      requires Valid() && Writing(c, h, n, buf, c.fs.files) && c.slot == DIRECT + index && 0 <= index < INDEX_ENTRIES
      requires c.done == writen < |buf| && ib == c.fs.inodes[n].indexBlock && ValidBlock(ib)
      modifies fsData, freeBlocks, openFileTable
      ensures var s := WriteStep(variant, c, n, buf);
              && Valid() && full == s.full && done == s.done && State() == SetOffset(s.fs, h, s.offset)
    {
      hide InodeShape, BlockShape, WriteStep, EnsureBlock, PutChunk;
      var offset := openFileTable[h].offset;
      var toWriteInBlock := ChunkSize(offset, |buf| - writen);
      WriteTurn(variant, c, h, n, buf);
      var b := EnsureIndirect(n, ib, index);
      if b == -1 {
        return writen, true;
      }
      done := writen + toWriteInBlock;
      CopyIn(h, b, buf[writen..done], Advance(variant, toWriteInBlock, done));
      return done, false;
    }

    /** The direct loop: operations.c:141-160. */
    method DirectLoop(ghost start: WriteCursor, h: int, n: int, from: nat, buf: seq<byte>)
      returns (index: nat, writen: nat, full: bool)
      requires Valid() && Writing(start, h, n, buf, start.fs.files) && start.done == 0 && start.slot == from
      modifies inodeTable, fsData, freeBlocks, openFileTable
      ensures var d := WriteLoop(variant, start, n, buf, DIRECT);
              && Valid() && State() == SetOffset(d.fs, h, d.offset)
              && full == d.full && writen == d.done && index == d.slot
    {
      hide InodeShape, BlockShape, WriteStep, WriteLoop, SetOffset;
      index, writen, full := from, 0, false;
      ghost var c := start;
      while index < DIRECT && writen < |buf|
        invariant Valid() && Writing(c, h, n, buf, start.fs.files)
        invariant c.slot == index && c.done == writen && !full
        invariant WriteLoop(variant, c, n, buf, DIRECT) == WriteLoop(variant, start, n, buf, DIRECT)
      {
        ghost var s := WriteStep(variant, c, n, buf);
        WriteStepLeaves(variant, c, n, buf);
        WriteLoopUnroll(variant, c, n, buf, DIRECT);
        WriteLoopUnroll(variant, s, n, buf, DIRECT);
        writen, full := DirectTurn(c, h, n, index, buf, writen);
        if full {
          return;
        }
        c := s;
        index := index + 1;
      }
      WriteLoopUnroll(variant, c, n, buf, DIRECT);
    }

    /** The indirect loop: operations.c:176-195. */
    method IndirectLoop(ghost start: WriteCursor, h: int, n: int, ib: int, from: nat, buf: seq<byte>, before: nat)
      returns (writen: nat, full: bool)
      requires Valid() && Writing(start, h, n, buf, start.fs.files) && start.done == before && start.slot == DIRECT + from
      requires ib == start.fs.inodes[n].indexBlock && ValidBlock(ib)
      modifies fsData, freeBlocks, openFileTable
      ensures var e := WriteLoop(variant, start, n, buf, SLOTS);
              && Valid() && State() == SetOffset(e.fs, h, e.offset) && full == e.full && writen == e.done
    {
      hide InodeShape, BlockShape, WriteStep, WriteLoop, SetOffset;
      var index := from;
      writen, full := before, false;
      ghost var c := start;
      while index < INDEX_ENTRIES && writen < |buf|
        invariant Valid() && Writing(c, h, n, buf, start.fs.files)
        invariant c.slot == DIRECT + index && c.done == writen && !full && ib == c.fs.inodes[n].indexBlock
        invariant WriteLoop(variant, c, n, buf, SLOTS) == WriteLoop(variant, start, n, buf, SLOTS)
      {
        ghost var s := WriteStep(variant, c, n, buf);
        WriteStepLeaves(variant, c, n, buf);
        WriteLoopUnroll(variant, c, n, buf, SLOTS);
        WriteLoopUnroll(variant, s, n, buf, SLOTS);
        writen, full := IndirectTurn(c, h, n, ib, index, buf, writen);
        if full {
          return;
        }
        c := s;
        index := index + 1;
      }
      WriteLoopUnroll(variant, c, n, buf, SLOTS);
    }

    /** tfs_write: operations.c:107-205. */
    method Write(h: int, buf: seq<byte>) returns (ret: int)
      requires Valid()
      modifies inodeTable, fsData, freeBlocks, openFileTable
      ensures Valid() && State() == IndexedState.Write(variant, old(State()), h, buf).fs
      ensures ret == IndexedState.Write(variant, old(State()), h, buf).ret
      ensures |buf| % 0x1_0000_0000 >= 0x8000_0000 ==> ret == -1 && State() == old(State())
      ensures old(Consistent(State()) && Allowed(State(), OpWrite(h, buf))) ==> Consistent(State())
    {
      hide InodeShape, BlockShape, WriteAt, Consistent, Allowed, Ref, AsInt32;
      ghost var was := State();
      WriteStaysConsistent(variant, was, h, buf);
      if !ValidHandle(h) || AsInt32(|buf|) < 0 || !ValidInumber(openFileTable[h].inumber) {
        return -1;
      }
      var n := openFileTable[h].inumber;
      if openFileTable[h].append {
        openFileTable[h] := openFileTable[h].(offset := inodeTable[n].size);
      }
      assert State() == SetOffset(was, h, WriteOffset(was, h));
      ret := WriteBlocks(was, WriteOffset(was, h), h, n, buf);
    }

    /** Under the lock of the inode: the two loops, then the size: operations.c:137-204. */
    method WriteBlocks(ghost was: Fs, ghost o: nat, h: int, n: int, buf: seq<byte>) returns (ret: int)
      requires Valid() && Tables(was) && ValidHandle(h) && ValidInumber(n) && was.files[h].inumber == n
      requires State() == SetOffset(was, h, o)
      modifies inodeTable, fsData, freeBlocks, openFileTable
      ensures Valid() && WriteResult(State(), ret) == WriteAt(variant, was, h, o, buf)
    {
      hide InodeShape, BlockShape, WriteStep, WriteLoop, Ref;
      ghost var d := WriteLoop(variant, Start(was, o), n, buf, DIRECT);
      var index, writen, full := DirectLoop(Start(was, o), h, n, openFileTable[h].offset / BLOCK_SIZE, buf);
      if !full {
        var ib := inodeTable[n].indexBlock;
        if ib == -1 {
          return -1;
        }
        ShapeOf(State(), n);
        index := if index > DIRECT then index - DIRECT else 0;
        writen, full := IndirectLoop(d.(slot := Max(d.slot, DIRECT)), h, n, ib, index, buf, writen);
      }
      if !full || variant.Repaired? {  // REPAIR: on a full disk the size is stored too
        Grow(n, openFileTable[h].offset);
      }
      return writen;
    }

    /* ----- tfs_read: operations.c:208-292 ----- */

    method Read(h: int, len: nat) returns (ret: int, data: seq<byte>)
      requires Valid()
      modifies openFileTable
      ensures Valid() && ReadResult(State(), ret, data) == IndexedState.Read(variant, old(State()), h, len)
    {
      hide InodeShape, BlockShape, ReadStep, ReadLoop, Ref;
      ghost var was := State();
      if !ValidHandle(h) || !ValidInumber(openFileTable[h].inumber) {
        return -1, [];
      }
      var n := openFileTable[h].inumber;
      ShapeOf(was, n);
      if inodeTable[n].size < openFileTable[h].offset {
        openFileTable[h] := openFileTable[h].(offset := inodeTable[n].size);
      }
      var offset := openFileTable[h].offset;
      var toRead := inodeTable[n].size - offset;
      if len < toRead {
        toRead := len;
      }
      assert State() == SetOffset(was, h, offset);
      ghost var d := ReadLoop(variant, StartRead(offset), was, n, toRead, DIRECT);
      var index, missing;
      index, data, missing := DirectReadLoop(was, h, n, toRead);
      if missing {
        return |data|, data;
      }
      var ib := inodeTable[n].indexBlock;
      if ib == -1 {
        return -1, data;
      }
      index := if index > DIRECT then index - DIRECT else 0;
      data := IndirectReadLoop(d.(slot := Max(d.slot, DIRECT)), was, h, n, ib, index, data, toRead);
      return |data|, data;
    }

    /** The direct loop: operations.c:239-257. */
    method DirectReadLoop(ghost was: Fs, h: int, n: int, toRead: nat) returns (index: nat, data: seq<byte>, missing: bool)
      requires Valid() && ValidHandle(h) && ValidInumber(n)
      requires Tables(was) && State() == SetOffset(was, h, openFileTable[h].offset)
      modifies openFileTable
      ensures var d := ReadLoop(variant, StartRead(old(openFileTable[h].offset)), was, n, toRead, DIRECT);
              && Valid() && State() == SetOffset(was, h, d.offset)
              && d == ReadCursor(index, openFileTable[h].offset, data, missing)
    {
      hide InodeShape, BlockShape, ReadStep, ReadLoop, Ref;
      ShapeOf(was, n);
      ghost var start := StartRead(openFileTable[h].offset);
      index, data, missing := openFileTable[h].offset / BLOCK_SIZE, [], false;
      ghost var c := start;
      while index < DIRECT && |data| < toRead && !missing
        invariant Valid() && State() == SetOffset(was, h, c.offset)
        invariant c == ReadCursor(index, openFileTable[h].offset, data, missing)
        invariant ReadLoop(variant, c, was, n, toRead, DIRECT) == ReadLoop(variant, start, was, n, toRead, DIRECT)
        decreases !missing, DIRECT - index
      {
        ReadLoopUnrollTo(variant, c, was, n, toRead, DIRECT);
        c := ReadStep(variant, c, was, n, toRead);
        index, data, missing := ReadTurn(was, h, n, index, inodeTable[n].direct[index], data, toRead);
      }
      ReadLoopUnrollTo(variant, c, was, n, toRead, DIRECT);
    }

    /** The indirect loop: operations.c:272-288. */
    method IndirectReadLoop(ghost start: ReadCursor, ghost was: Fs, h: int, n: int, ib: int, from: nat,
                            before: seq<byte>, toRead: nat)
      returns (data: seq<byte>)
      requires Valid() && ValidHandle(h) && ValidInumber(n) && ib == inodeTable[n].indexBlock != -1
      requires Tables(was) && State() == SetOffset(was, h, openFileTable[h].offset)
      requires start == ReadCursor(DIRECT + from, openFileTable[h].offset, before, false)
      modifies openFileTable
      ensures var e := ReadLoop(variant, start, was, n, toRead, SLOTS);
              Valid() && State() == SetOffset(was, h, e.offset) && data == e.data
    {
      hide InodeShape, BlockShape, ReadStep, ReadLoop, Ref;
      ShapeOf(was, n);
      var index, missing: bool := DIRECT + from, false;
      data := before;
      ghost var c := start;
      while index < SLOTS && |data| < toRead && !missing
        invariant Valid() && State() == SetOffset(was, h, c.offset) && DIRECT <= index
        invariant c == ReadCursor(index, openFileTable[h].offset, data, missing)
        invariant ReadLoop(variant, c, was, n, toRead, SLOTS) == ReadLoop(variant, start, was, n, toRead, SLOTS)
        decreases !missing, SLOTS - index
      {
        ReadLoopUnrollTo(variant, c, was, n, toRead, SLOTS);
        c := ReadStep(variant, c, was, n, toRead);
        assert fsData[ib] == was.blocks[ib];
        var b := if fsData[ib].Index? then fsData[ib].slots[index - DIRECT] else -1;
        assert b == Ref(was, n, index);
        index, data, missing := ReadTurn(was, h, n, index, b, data, toRead);
      }
      ReadLoopUnrollTo(variant, c, was, n, toRead, SLOTS);
    }

    /** One turn of a read loop, at slot index, which names block b: operations.c:243-256 and 274-287. */
    method ReadTurn(ghost was: Fs, h: int, n: int, index: nat, b: int, before: seq<byte>, toRead: nat)
      returns (next: nat, data: seq<byte>, missing: bool)
      requires Valid() && ValidHandle(h) && ValidInumber(n) && index < SLOTS && |before| < toRead
      requires Tables(was) && State() == SetOffset(was, h, openFileTable[h].offset) && b == Ref(was, n, index)
      modifies openFileTable
      ensures var s := ReadStep(variant, ReadCursor(index, old(openFileTable[h].offset), before, false), was, n, toRead);
              && Valid() && State() == SetOffset(was, h, s.offset)
              && s == ReadCursor(next, openFileTable[h].offset, data, missing) && index <= next && (!missing ==> index < next)
    {
      hide InodeShape, BlockShape, Ref;
      if b == -1 {
        return index, before, true;
      }
      var offset := openFileTable[h].offset;
      var k := ReadChunk(variant, index, offset, toRead, |before|);
      data := before + BytesOf(fsData[b])[offset % BLOCK_SIZE..offset % BLOCK_SIZE + k];
      openFileTable[h] := openFileTable[h].(offset := offset + Advance(variant, k, |data|));
      return index + 1, data, false;
    }

    /* ----- inodes: state.c:117-227 ----- */

    /** data_block_free: state.c:354-362. */
    method DataBlockFree(b: int) returns (ret: int)
      requires Valid()
      modifies freeBlocks
      ensures Valid() && ret == if ValidBlock(b) then 0 else -1
      ensures State() == if ValidBlock(b) then old(State()).(blockTaken := old(freeBlocks[..])[b := false]) else old(State())
    {
      hide InodeShape, BlockShape;
      if !ValidBlock(b) {
        return -1;
      }
      freeBlocks[b] := false;
      return 0;
    }

    method InodeCreate(kind: InodeType) returns (ret: int)
      requires Valid()
      modifies freeInodes, inodeTable, freeBlocks, fsData
      ensures Valid()
      ensures Result(State(), ret) == if kind.Dir? then CreateDirectory(old(State())) else CreateFile(old(State()))
    {
      hide InodeShape, BlockShape, CreateFile, CreateDirectory;
      if kind.Dir? {
        ret := DirectoryCreate();
      } else {
        ret := FileCreate();
      }
    }

    /** inode_create for a directory: lines 130-149. */
    method DirectoryCreate() returns (ret: int)
      requires Valid()
      modifies freeInodes, inodeTable, freeBlocks, fsData
      ensures Valid() && Result(State(), ret) == CreateDirectory(old(State()))
    {
      ghost var was := State();
      var n := TakeFirstFree(freeInodes);
      if n == -1 {
        assert State() == was;
        return -1;
      }
      inodeTable[n] := inodeTable[n].(kind := Dir, direct := NoBlocks(DIRECT));
      var b := TakeFirstFree(freeBlocks);
      if b == -1 {
        freeInodes[n] := false;
        assert freeInodes[..] == was.inodeTaken;
        assert State() == CreateDirectory(was).fs;
        return -1;
      }
      inodeTable[n] := Inode(Dir, BLOCK_SIZE, NoBlocks(DIRECT)[0 := b], -1);
      fsData[b] := Directory(seq(MAX_DIR_ENTRIES, _ => UNUSED));
      assert inodeTable[..] == was.inodes[n := inodeTable[n]];
      assert fsData[..] == was.blocks[b := fsData[b]];
      assert State() == CreateDirectory(was).fs;
      return n;
    }

    /** inode_create for a file: lines 151-168. */
    method FileCreate() returns (ret: int)
      requires Valid()
      modifies freeInodes, inodeTable, freeBlocks, fsData
      ensures Valid() && Result(State(), ret) == CreateFile(old(State()))
    {
      ghost var was := State();
      var n := TakeFirstFree(freeInodes);
      if n == -1 {
        assert State() == was;
        return -1;
      }
      var b := TakeFirstFree(freeBlocks);
      inodeTable[n] := Inode(File, 0, NoBlocks(DIRECT), b);
      assert inodeTable[..] == was.inodes[n := Inode(File, 0, NoBlocks(DIRECT), b)];
      if b == -1 {
        assert State() == CreateFile(was).fs;
        return -1;
      }
      fsData[b] := Index(NoBlocks(INDEX_ENTRIES));
      assert fsData[..] == was.blocks[b := Index(NoBlocks(INDEX_ENTRIES))];
      assert State() == CreateFile(was).fs;
      return n;
    }

    /** The loop over the direct blocks: state.c:203-210. */
    method EraseDirect(direct: seq<int>)
      requires Valid() && |direct| == DIRECT && forall i :: 0 <= i < DIRECT ==> direct[i] == -1 || ValidBlock(direct[i])
      modifies freeBlocks
      ensures Valid() && State() == old(State()).(blockTaken := Released(old(freeBlocks[..]), direct))
    {
      hide InodeShape, BlockShape;
      ghost var was := State();
      var i := 0;
      while i < DIRECT
        invariant 0 <= i <= DIRECT && Valid()
        invariant State() == was.(blockTaken := Released(was.blockTaken, direct[..i]))
      {
        assert direct[..i + 1] == direct[..i] + [direct[i]];
        if direct[i] != -1 {
          var _ := DataBlockFree(direct[i]);
        }
        assert freeBlocks[..] == Released(was.blockTaken, direct[..i + 1]);
        i := i + 1;
      }
      assert direct[..DIRECT] == direct;
    }

    /** The loop over the index block: state.c:215-223. */
    method EraseIndirect(ib: int)
      requires Valid() && ValidBlock(ib) && fsData[ib].Index?
      modifies freeBlocks, fsData
      ensures Valid()
      ensures State() == old(State()).(blockTaken := Released(old(freeBlocks[..]), old(fsData[ib].slots)),
                                       blocks := old(fsData[..])[ib := Index(NoBlocks(INDEX_ENTRIES))])
    {
      hide InodeShape, BlockShape, ClearedTo, FreedTo, Released;
      ghost var was := State();
      ghost var slots := fsData[ib].slots;
      ClearedShape(was, ib, slots, 0);
      EraseEnds(was.blocks, was.blockTaken, ib, slots);
      var i := 0;
      while i < INDEX_ENTRIES
        invariant 0 <= i <= INDEX_ENTRIES
        invariant State() == was.(blocks := ClearedTo(was.blocks, ib, slots, i), blockTaken := FreedTo(was.blockTaken, slots, i))
      {
        var entries := fsData[ib].slots;
        ClearedShape(was, ib, slots, i);
        EraseTurn(was.blocks, was.blockTaken, ib, slots, i);
        if entries[i] != -1 {
          var _ := DataBlockFree(entries[i]);
          fsData[ib] := Index(entries[i := -1]);
        }
        i := i + 1;
      }
      ClearedShape(was, ib, slots, INDEX_ENTRIES);
    }

    /** inode_datablocks_erase; as written it is handed a copy of the inode. */
    method DatablocksErase(n: int) returns (ret: int)
      requires Valid() && ValidInumber(n)
      modifies inodeTable, freeBlocks, fsData
      ensures Valid() && Result(State(), ret) == Erase(variant, old(State()), n)
    {
      hide BlockShape;
      ghost var was := State();
      var node := inodeTable[n];
      EraseDirect(node.direct);
      if variant.Repaired? {
        inodeTable[n] := node.(direct := NoBlocks(DIRECT));  // REPAIR: erase clears the array of the inode itself
      }
      assert State().inodes == was.inodes[n := node.(direct := DirectLeft(variant, node.direct))];
      if node.indexBlock == -1 {
        return -1;
      }
      if fsData[node.indexBlock].Index? {
        EraseIndirect(node.indexBlock);
      } else {
        NothingReleased(freeBlocks[..], IndexSlots(was, n));
      }
      return 0;
    }

    /** inode_delete: state.c:182-198. */
    method InodeDelete(n: int) returns (ret: int)
      requires Valid()
      modifies freeInodes, inodeTable, freeBlocks, fsData
      ensures Valid() && Result(State(), ret) == Delete(variant, old(State()), n)
    {
      hide InodeShape, BlockShape, Erase;
      ghost var was := State();
      if !ValidInumber(n) || !freeInodes[n] {
        return -1;
      }
      ShapeOf(was, n);
      var ib := inodeTable[n].indexBlock;
      freeInodes[n] := false;
      assert State() == was.(inodeTaken := was.inodeTaken[n := false]);
      EraseKeepsIndex(variant, State(), n);
      var erased := DatablocksErase(n);
      if erased != 0 {
        return -1;
      }
      ret := DataBlockFree(ib);
    }

    /* ----- the directory: state.c:261-327 ----- */

    /** find_in_dir on the root directory. */
    method FindInRoot(name: string) returns (r: int)
      requires Valid() && |name| > 0
      ensures r == IndexedOps.Lookup(State(), "/" + name)
    {
      assert ("/" + name)[1..] == name;
      var root := inodeTable[ROOT_DIR_INUM];
      if root.kind != Dir || root.direct[0] == -1 {
        return -1;
      }
      var b := root.direct[0];
      if fsData[b].Directory? {
        r := ScanName(fsData[b].entries, name);
      } else {
        assert FindEntry(RootEntries(State()), name) == -1;
        r := -1;
      }
    }

    /** add_dir_entry on the root directory. */
    method AddDirEntry(sub: int, name: string) returns (ret: int)
      requires Valid()
      modifies fsData
      ensures Valid() && Result(State(), ret) == AddToRoot(old(State()), sub, name)
    {
      hide Ref;
      ghost var was := State();
      var root := inodeTable[ROOT_DIR_INUM];
      if !ValidInumber(sub) || root.kind != Dir || |name| == 0 || root.direct[0] == -1 {
        return -1;
      }
      var b := root.direct[0];
      var entries := EntriesOf(fsData[b]);
      var i := ScanUnused(entries);
      if i == -1 {
        return -1;
      }
      fsData[b] := Directory(entries[i := DirEntry(StoredName(name), sub)]);
      assert fsData[..] == was.blocks[b := Directory(AddEntry(entries, name, sub))];
      return 0;
    }

    /* ----- the open file table: state.c:384-415 ----- */

    method AddToOpenFileTable(n: int, offset: nat, append: bool) returns (ret: int)
      requires Valid()
      modifies freeOpenFiles, openFileTable
      ensures Valid() && Result(State(), ret) == AddOpen(old(State()), n, offset, append)
    {
      hide InodeShape, BlockShape;
      ghost var was := State();
      ret := TakeFirstFree(freeOpenFiles);
      if ret != -1 {
        openFileTable[ret] := OpenFile(n, offset, append);
        assert openFileTable[..] == was.files[ret := OpenFile(n, offset, append)];
      }
      assert State() == AddOpen(was, n, offset, append).fs;
    }

    method Close(h: int) returns (ret: int)
      requires Valid()
      modifies freeOpenFiles
      ensures Valid() && Result(State(), ret) == IndexedOps.Close(old(State()), h)
    {
      hide InodeShape, BlockShape;
      if !ValidHandle(h) || !freeOpenFiles[h] {
        return -1;
      }
      freeOpenFiles[h] := false;
      return 0;
    }

    /* ----- tfs_open: operations.c:30-102 ----- */

    method Lookup(path: string) returns (r: int)
      requires Valid()
      ensures r == IndexedOps.Lookup(State(), path)
      ensures path == "" || path[0] != '/' ==> r == -1
    {
      if !ValidPath(path) {
        return -1;
      }
      assert "/" + path[1..] == path;
      r := FindInRoot(path[1..]);
    }

    method OpenExisting(n: int, flags: Flags) returns (ret: int)
      requires Valid()
      modifies freeInodes, inodeTable, freeBlocks, fsData, openFileTable, freeOpenFiles
      ensures Valid() && Result(State(), ret) == IndexedOps.OpenExisting(variant, old(State()), n, flags)
    {
      hide InodeShape, BlockShape, Erase;
      ghost var was := State();
      if !ValidInumber(n) {
        return -1;
      }
      if flags.truncate && inodeTable[n].size > 0 {
        var erased := DatablocksErase(n);
        if erased == -1 {
          return -1;
        }
        ghost var mid := State();
        inodeTable[n] := inodeTable[n].(size := 0);
        assert inodeTable[..] == mid.inodes[n := mid.inodes[n].(size := 0)];
      }
      assert State() == (if flags.truncate then Truncate(variant, was, n).fs else was);
      ret := AddToOpenFileTable(n, if flags.append then inodeTable[n].size else 0, flags.append);
    }

    method OpenNew(name: string) returns (ret: int)
      requires Valid()
      modifies freeInodes, inodeTable, freeBlocks, fsData, openFileTable, freeOpenFiles
      ensures Valid() && Result(State(), ret) == IndexedOps.OpenNew(variant, old(State()), name)
    {
      hide InodeShape, BlockShape, CreateFile, AddToRoot, Delete, Erase, AddOpen;
      var n := InodeCreate(File);
      if n == -1 {
        return -1;
      }
      var added := AddDirEntry(n, name);
      if added == -1 {
        var _ := InodeDelete(n);
        return -1;
      }
      ret := AddToOpenFileTable(n, 0, false);
    }

    method Open(path: string, flags: Flags) returns (ret: int)
      requires Valid()
      modifies freeInodes, inodeTable, freeBlocks, fsData, openFileTable, freeOpenFiles
      ensures Valid() && Result(State(), ret) == IndexedOps.Open(variant, old(State()), path, flags)
      ensures path == "" || path[0] != '/' ==> ret == -1 && State() == old(State())
      ensures old(Consistent(State()) && (variant.Repaired? || !Truncates(State(), OpOpen(path, flags)))) ==> Consistent(State())
    {
      hide InodeShape, BlockShape, Consistent, IndexedOps.OpenExisting, IndexedOps.OpenNew, IndexedOps.Lookup;
      OpenStaysConsistent(variant, State(), path, flags);
      if !ValidPath(path) {
        return -1;
      }
      var n := Lookup(path);
      if n >= 0 {
        ret := OpenExisting(n, flags);
      } else if flags.create {
        ret := OpenNew(path[1..]);
      } else {
        ret := -1;
      }
    }
  }
}
