/**
 * Truncation in the multi-block version as written: erase is handed a copy of the inode, whose direct block numbers go on
 * naming blocks that are FREE.
 */
module IndexedTruncation {
  import opened Bytes
  import opened AllocationTable
  import opened Disk
  import opened IndexedState
  import opened IndexedOwnership
  import opened IndexedWrite
  import opened IndexedWriteLaw
  import opened IndexedOps
  import opened IndexedRuns

  /** Inode n names no direct block. */
  predicate NoDirect(fs: Fs, n: int)
    requires Tables(fs) && ValidInumber(n)
  {
    forall i :: 0 <= i < DIRECT ==> Ref(fs, n, i) == -1
  }

  /** As written, truncation keeps the ownership of blocks if and only if the file is empty or names no direct block. */
  lemma AsWrittenTruncateExact(fs: Fs, n: int)
    requires Tables(fs) && Owned(fs) && IsFile(fs, n)
    ensures Owned(Truncate(AsWritten, fs, n).fs) <==> fs.inodes[n].size == 0 || NoDirect(fs, n)
  {
    hide InodeShape, BlockShape, Owned, NoDirect, Truncate;
    if fs.inodes[n].size == 0 {
      EmptyStays(fs, n);
    } else if NoDirect(fs, n) {
      NothingDangles(fs, n);
    } else {
      TruncateDangles(fs, n);
    }
  }

  lemma EmptyStays(fs: Fs, n: int)
    requires Tables(fs) && ValidInumber(n) && fs.inodes[n].size == 0
    ensures Truncate(AsWritten, fs, n) == Result(fs, 0)
  {
  }

  lemma NothingDangles(fs: Fs, n: int)
    requires Tables(fs) && Owned(fs) && IsFile(fs, n) && fs.inodes[n].size != 0 && NoDirect(fs, n)
    ensures Owned(Truncate(AsWritten, fs, n).fs)
  {
    hide InodeShape, BlockShape, Owned, Erase;
    NoneToClear(fs, n);
    RepairedEraseOwned(fs, n);
    RelabelledOwned(Erase(Repaired, fs, n).fs, Truncate(AsWritten, fs, n).fs, n);
  }

  lemma NoneToClear(fs: Fs, n: int)
    requires Tables(fs) && ValidInumber(n) && NoDirect(fs, n)
    ensures Erase(AsWritten, fs, n) == Erase(Repaired, fs, n)
  {
    forall i | 0 <= i < DIRECT ensures fs.inodes[n].direct[i] == -1 {
      assert Ref(fs, n, i) == -1;
    }
    assert fs.inodes[n].direct == NoBlocks(DIRECT);
  }

  lemma TruncateDangles(fs: Fs, n: int)
    requires Tables(fs) && Owned(fs) && IsFile(fs, n) && fs.inodes[n].size != 0 && !NoDirect(fs, n)
    ensures !Owned(Truncate(AsWritten, fs, n).fs)
  {
    hide InodeShape, BlockShape, Cell, Erase, CellsApart, NoLeak, Typed, Ref;
    var e := Erase(AsWritten, fs, n);
    var t := Truncate(AsWritten, fs, n);
    EraseReleases(AsWritten, fs, n);
    EraseCells(AsWritten, fs, n);
    EraseKeepsTypes(AsWritten, fs, n);
    RelabelledCells(e.fs, t.fs, n);
    CellOfSlot(fs, n);
    var i :| 0 <= i < DIRECT && Ref(fs, n, i) != -1;
    assert Cell(t.fs, n, i) == Ref(fs, n, i);
    assert !t.fs.blockTaken[Cell(t.fs, n, i)];
  }

  /* ----- the first block ----- */

  /** A file with bytes, or with a handle past its start, has its first block. */
  ghost predicate FirstBlocks(fs: Fs)
    requires Tables(fs)
  {
    && (forall n {:trigger IsFile(fs, n)} :: IsFile(fs, n) && fs.inodes[n].size > 0 ==> Ref(fs, n, 0) != -1)
    && (forall h {:trigger fs.fileTaken[h]} :: ValidHandle(h) && fs.fileTaken[h] && ValidInumber(fs.files[h].inumber) && fs.files[h].offset > 0 ==>
          Ref(fs, fs.files[h].inumber, 0) != -1)
  }

  /** A write that does not stay at offset 0 leaves the first block there. */
  lemma WriteReachesFirst(v: Variant, fs: Fs, n: int, o: nat, buf: seq<byte>)
    requires Tables(fs) && Owned(fs) && IsFile(fs, n) && (o > 0 ==> Ref(fs, n, 0) != -1)
    ensures var r := WriteLoop(v, Start(fs, o), n, buf, SLOTS);
            && (r.offset > 0 ==> Ref(r.fs, n, 0) != -1) && (Ref(fs, n, 0) != -1 ==> Ref(r.fs, n, 0) != -1)
            && r.fs.inodes[n].size == fs.inodes[n].size
  {
    hide InodeShape, BlockShape, Owned, Ref, Page, WriteStep, KeepsOutside, SameInode, StoreChunk;
    var c := Start(fs, o);
    if c.slot < SLOTS && buf != [] {
      WriteStepCases(v, c, n, buf);
      WriteStepOwned(v, c, n, buf);
      var s := WriteStep(v, c, n, buf);
      if !s.full {
        WriteLoopVisits(v, s, n, buf);
      }
    }
    WriteLoopOwned(v, Start(fs, o), n, buf, SLOTS);
    WriteLoopVisits(v, Start(fs, o), n, buf);
    WriteLoopKeeps(v, Start(fs, o), n, buf);
  }

  /** What stays the same keeps its first block. */
  lemma FirstBlocksAfter(fs: Fs, g: Fs, n: int)
    requires Tables(fs) && Tables(g) && FirstBlocks(fs)
    requires forall m {:trigger IsFile(g, m)} :: IsFile(g, m) && m != n ==> IsFile(fs, m) && SameInode(fs, g, m)
    requires IsFile(g, n) && g.inodes[n].size > 0 ==> Ref(g, n, 0) != -1
    requires forall h {:trigger g.fileTaken[h]} :: ValidHandle(h) && g.fileTaken[h] ==>
               && IsFile(g, g.files[h].inumber)
               && (if g.files[h].inumber == n then g.files[h].offset > 0 ==> Ref(g, n, 0) != -1
                   else g.files[h].offset == 0 || (fs.fileTaken[h] && g.files[h] == fs.files[h]))
    ensures FirstBlocks(g)
  {
    hide InodeShape, BlockShape, Ref;
    forall m | IsFile(g, m) && m != n ensures Ref(g, m, 0) == Ref(fs, m, 0) && g.inodes[m] == fs.inodes[m] {
      assert IsFile(fs, m);
      assert Cell(g, m, 0) == Cell(fs, m, 0);
    }
  }

  lemma WriteKeepsFirst(v: Variant, fs: Fs, h: int, buf: seq<byte>)
    requires Tables(fs) && Consistent(fs) && FirstBlocks(fs) && Allowed(fs, OpWrite(h, buf))
    ensures FirstBlocks(Write(v, fs, h, buf).fs)
  {
    hide InodeShape, BlockShape, Owned, EntriesOk, Ref, Cell, WriteAt, AsInt32;
    WriteConsistent(v, fs, h, buf);
    if ValidHandle(h) && |buf| % 0x1_0000_0000 < 0x8000_0000 {
      var n := fs.files[h].inumber;
      assert fs.fileTaken[h] && IsFile(fs, n);
      WriteKeepsOthers(v, fs, h, n, buf);
      FirstAfterWrite(v, fs, h, buf);
      OthersFiles(fs, Write(v, fs, h, buf).fs, n);
      FirstBlocksAfter(fs, Write(v, fs, h, buf).fs, n);
    }
  }

  lemma FirstAfterWrite(v: Variant, fs: Fs, h: int, buf: seq<byte>)
    requires Tables(fs) && Consistent(fs) && FirstBlocks(fs) && ValidHandle(h) && fs.fileTaken[h] && |buf| % 0x1_0000_0000 < 0x8000_0000
    ensures var g := Write(v, fs, h, buf).fs;
            var n := fs.files[h].inumber;
            && IsFile(fs, n) && (Ref(fs, n, 0) != -1 ==> Ref(g, n, 0) != -1)
            && (g.files[h].offset > 0 || g.inodes[n].size > 0 ==> Ref(g, n, 0) != -1)
  {
    hide InodeShape, BlockShape, Owned, EntriesOk, Ref, Cell, WriteAt, AsInt32, WriteLoop, Finish;
    var n := fs.files[h].inumber;
    assert IsFile(fs, n);
    var o := WriteOffset(fs, h);
    WriteAtOneLoop(v, fs, h, o, buf);
    WriteReachesFirst(v, fs, n, o, buf);
    var r := WriteLoop(v, Start(fs, o), n, buf, SLOTS);
    FinishRelabels(v, r, n, h);
    WriteLoopOwned(v, Start(fs, o), n, buf, SLOTS);
    RelabelledCells(r.fs, Finish(v, r, n, h).fs, n);
  }

  lemma OthersFiles(fs: Fs, g: Fs, n: int)
    requires Tables(fs) && Tables(g) && OthersSame(fs, g, n) && g.inodeTaken == fs.inodeTaken
    ensures forall m {:trigger IsFile(g, m)} :: IsFile(g, m) && m != n ==> IsFile(fs, m) && SameInode(fs, g, m)
  {
    hide InodeShape, BlockShape, Cell;
    forall m | IsFile(g, m) && m != n ensures IsFile(fs, m) && SameInode(fs, g, m) {
      assert SameInode(fs, g, m);
    }
  }

  lemma EmptyReadStays(v: Variant, fs: Fs, h: int, len: nat)
    requires Tables(fs) && ValidHandle(h) && IsFile(fs, fs.files[h].inumber)
    ensures var g := Read(v, fs, h, len).fs;
            && g == SetOffset(fs, h, g.files[h].offset)
            && (fs.inodes[fs.files[h].inumber].size == 0 ==> g.files[h].offset == 0)
  {
    hide InodeShape, BlockShape, Ref, ReadStep;
  }

  lemma ReadKeepsFirst(v: Variant, fs: Fs, h: int, len: nat)
    requires Tables(fs) && Consistent(fs) && FirstBlocks(fs) && Allowed(fs, OpRead(h, len))
    ensures FirstBlocks(Read(v, fs, h, len).fs)
  {
    hide InodeShape, BlockShape, Owned, EntriesOk, Ref, Cell, Read;
    if ValidHandle(h) {
      var n := fs.files[h].inumber;
      assert fs.fileTaken[h] && IsFile(fs, n);
      EmptyReadStays(v, fs, h, len);
      var g := Read(v, fs, h, len).fs;
      RelabelledCells(fs, g, n);
      FirstBlocksAfter(fs, g, n);
    } else {
      BadHandleReads(v, fs, h, len);
    }
  }

  lemma BadHandleReads(v: Variant, fs: Fs, h: int, len: nat)
    requires Tables(fs) && !ValidHandle(h)
    ensures Read(v, fs, h, len).fs == fs
  {
  }

  lemma CloseKeepsFirst(fs: Fs, h: int)
    requires Tables(fs) && FirstBlocks(fs)
    ensures FirstBlocks(Close(fs, h).fs)
  {
    hide InodeShape, BlockShape;
    var g := Close(fs, h).fs;
    assert forall m :: ValidInumber(m) ==> Ref(g, m, 0) == Ref(fs, m, 0) && (IsFile(g, m) <==> IsFile(fs, m));
  }

  lemma AddOpenKeepsFirst(fs: Fs, n: int, off: nat, append: bool)
    requires Tables(fs) && FirstBlocks(fs) && ValidInumber(n) && (off > 0 ==> IsFile(fs, n) && off <= fs.inodes[n].size)
    ensures FirstBlocks(AddOpen(fs, n, off, append).fs)
  {
    hide InodeShape, BlockShape;
    var g := AddOpen(fs, n, off, append).fs;
    assert forall m :: ValidInumber(m) ==> Ref(g, m, 0) == Ref(fs, m, 0) && (IsFile(g, m) <==> IsFile(fs, m));
  }

  /** Nothing happened to the files there were, and what is new is empty. */
  ghost predicate OldOrEmpty(fs: Fs, g: Fs)
    requires Tables(fs) && Tables(g)
  {
    && g.files == fs.files && g.fileTaken == fs.fileTaken
    && (forall m {:trigger IsFile(fs, m)} :: IsFile(fs, m) ==> IsFile(g, m) && SameInode(fs, g, m))
    && (forall m {:trigger IsFile(g, m)} :: IsFile(g, m) ==> IsFile(fs, m) || g.inodes[m].size == 0)
  }

  lemma OldOrEmptyFirst(fs: Fs, g: Fs)
    requires Tables(fs) && Tables(g) && FirstBlocks(fs) && HandlesOk(fs) && OldOrEmpty(fs, g)
    ensures FirstBlocks(g)
  {
    hide InodeShape, BlockShape, Ref;
    forall m | IsFile(fs, m) ensures Ref(g, m, 0) == Ref(fs, m, 0) && g.inodes[m] == fs.inodes[m] {
      assert Cell(g, m, 0) == Cell(fs, m, 0);
    }
  }

  lemma CreateOldOrEmpty(fs: Fs)
    requires Tables(fs) && Owned(fs)
    ensures OldOrEmpty(fs, CreateFile(fs).fs)
  {
    hide InodeShape, BlockShape, Cell, Owned, Ref;
    CreateTyped(fs);
    var c := CreateFile(fs);
    forall m | IsFile(fs, m) ensures IsFile(c.fs, m) && SameInode(fs, c.fs, m) {
      assert SameInode(fs, c.fs, m);
    }
  }

  lemma OpenNewKeepsFirst(v: Variant, fs: Fs, name: string)
    requires Tables(fs) && Consistent(fs) && FirstBlocks(fs)
    ensures FirstBlocks(OpenNew(v, fs, name).fs)
  {
    hide InodeShape, BlockShape, Ref, Cell, CreateFile, RootEntries, Owned, AddToRoot, Delete, AddOpen, EntriesOk, FirstBlocks;
    var c := CreateFile(fs);
    CreateConsistent(fs);
    CreateTyped(fs);
    CreateOldOrEmpty(fs);
    if c.ret != -1 {
      var a := AddToRoot(c.fs, c.ret, name);
      AddToRootOwned(c.fs, c.ret, name);
      if a.ret == -1 {
        RolledBackOldOrEmpty(v, fs);
        OldOrEmptyFirst(fs, Delete(v, c.fs, c.ret).fs);
      } else {
        AddToRootOldOrEmpty(fs, c.ret, name);
        OldOrEmptyFirst(fs, a.fs);
        AddOpenKeepsFirst(a.fs, c.ret, 0, false);
      }
    } else {
      OldOrEmptyFirst(fs, c.fs);
    }
  }

  lemma AddToRootOldOrEmpty(fs: Fs, sub: int, name: string)
    requires Tables(fs) && Owned(fs) && CreateFile(fs).ret == sub != -1 && Owned(CreateFile(fs).fs)
    ensures OldOrEmpty(fs, AddToRoot(CreateFile(fs).fs, sub, name).fs)
  {
    hide InodeShape, BlockShape, Ref, CreateFile, AddToRoot, Owned, RootEntries;
    var c := CreateFile(fs).fs;
    CreateOldOrEmpty(fs);
    AddToRootOwned(c, sub, name);
    OwnedRoot(fs);
    var a := AddToRoot(c, sub, name).fs;
    forall m | IsFile(fs, m) ensures IsFile(a, m) && SameInode(fs, a, m) {
      assert SameInode(fs, c, m);
      assert Live(c, m) && m != ROOT_DIR_INUM;
      assert SameInode(c, a, m);
    }
    assert forall m :: IsFile(a, m) <==> IsFile(c, m);
  }

  lemma RolledBackOldOrEmpty(v: Variant, fs: Fs)
    requires Tables(fs) && Owned(fs) && CreateFile(fs).ret != -1
    ensures OldOrEmpty(fs, Delete(v, CreateFile(fs).fs, CreateFile(fs).ret).fs)
  {
    hide InodeShape, BlockShape, Ref, Cell, CreateFile, Delete, Owned;
    RollbackRestores(v, fs);
    var d := Delete(v, CreateFile(fs).fs, CreateFile(fs).ret).fs;
    forall m | Live(fs, m) ensures IsFile(d, m) <==> IsFile(fs, m) {
      assert SameInode(fs, d, m);
    }
  }

  lemma OpenKeepsFirst(v: Variant, fs: Fs, path: string, flags: Flags)
    requires Tables(fs) && Consistent(fs) && FirstBlocks(fs) && !Truncates(fs, OpOpen(path, flags))
    ensures FirstBlocks(Open(v, fs, path, flags).fs)
  {
    hide InodeShape, BlockShape, Owned, RootEntries, HandlesOk, OpenNew, AddOpen, FirstBlocks, Erase;
    var n := Lookup(fs, path);
    if ValidPath(path) && n >= 0 {
      var i := FindEntry(RootEntries(fs), path[1..]);
      assert Used(RootEntries(fs)[i]) && IsFile(fs, n);
      AddOpenKeepsFirst(fs, n, if flags.append then fs.inodes[n].size else 0, flags.append);
    } else if flags.create && ValidPath(path) {
      OpenNewKeepsFirst(v, fs, path[1..]);
    }
  }

  lemma StepKeepsFirst(v: Variant, fs: Fs, op: Op)
    requires Tables(fs) && Consistent(fs) && FirstBlocks(fs) && Allowed(fs, op) && !Truncates(fs, op)
    ensures FirstBlocks(Step(v, fs, op))
  {
    hide InodeShape, BlockShape, Consistent, FirstBlocks, Open, Close, Write, Read, Lookup;
    match op
    case OpOpen(path, flags) => OpenKeepsFirst(v, fs, path, flags);
    case OpClose(h) => CloseKeepsFirst(fs, h);
    case OpWrite(h, buf) => WriteKeepsFirst(v, fs, h, buf);
    case OpRead(h, len) => ReadKeepsFirst(v, fs, h, len);
  }

  lemma {:induction false} RunsKeepFirst(v: Variant, fs: Fs, ops: seq<Op>)
    requires Tables(fs) && Consistent(fs) && FirstBlocks(fs) && AllowedRun(v, fs, ops) && !TruncatesIn(v, fs, ops)
    ensures Consistent(Run(v, fs, ops)) && FirstBlocks(Run(v, fs, ops))
    decreases |ops|
  {
    hide InodeShape, BlockShape, Consistent, FirstBlocks, Step, Allowed, Truncates;
    if ops != [] {
      StepConsistent(v, fs, ops[0]);
      StepKeepsFirst(v, fs, ops[0]);
      RunsKeepFirst(v, Step(v, fs, ops[0]), ops[1..]);
    }
  }

  lemma InitialFirst()
    ensures Consistent(Initial()) && FirstBlocks(Initial())
  {
    hide BlockShape, Owned, EntriesOk, HandlesOk;
    InitialConsistent();
  }

  /**
   * Up to the first truncation of a file with bytes, every run as written keeps ownership, and that truncation is the one
   * that breaks it: in a state of such a run, emptying a file keeps ownership if and only if the file is empty already.
   */
  lemma FirstTruncationBreaks(ops: seq<Op>, n: int)
    requires AllowedRun(AsWritten, Initial(), ops) && !TruncatesIn(AsWritten, Initial(), ops)
    requires IsFile(Run(AsWritten, Initial(), ops), n)
    ensures var fs := Run(AsWritten, Initial(), ops);
            Owned(fs) && (Owned(Truncate(AsWritten, fs, n).fs) <==> fs.inodes[n].size == 0)
  {
    hide InodeShape, BlockShape, Owned, HandlesOk, EntriesOk, Truncate, Ref;
    InitialFirst();
    RunsKeepFirst(AsWritten, Initial(), ops);
    AsWrittenTruncateExact(Run(AsWritten, Initial(), ops), n);
  }
}
