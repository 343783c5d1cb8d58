/**
 * Ownership over whole runs of the multi-block version: the TAKEN blocks stay the disjoint union of what the live
 * inodes name, as written for every run that empties no file with bytes, and for every run once erase clears the inode's
 * own array.
 */
module IndexedRuns {
  import opened Bytes
  import opened AllocationTable
  import opened Disk
  import opened IndexedState
  import opened IndexedOwnership
  import opened IndexedWrite
  import opened IndexedWriteLaw
  import opened IndexedOps

  /* ----- creating a file ----- */

  lemma CreateCells(fs: Fs)
    requires Tables(fs) && Owned(fs)
    ensures var c := CreateFile(fs);
            forall m, k :: Live(fs, m) && ValidCell(k) ==> Cell(c.fs, m, k) == Cell(fs, m, k)
    ensures var c := CreateFile(fs);
            var n := FirstFree(fs.inodeTaken);
            n != -1 ==>
              forall k :: ValidCell(k) ==> Cell(c.fs, n, k) == if k == SLOTS then FirstFree(fs.blockTaken) else -1
  {
    hide CellsApart, NoLeak, BlockShape;
    var b := FirstFree(fs.blockTaken);
    forall m, k | Live(fs, m) && ValidCell(k)
      ensures Cell(CreateFile(fs).fs, m, k) == Cell(fs, m, k)
    {
      CellOfSlot(fs, m);
      assert fs.inodes[m].indexBlock != -1 ==> fs.inodes[m].indexBlock != b;
    }
  }

  /** What inode_create adds: an inode with no data blocks and, if it succeeds, an index block that was free. */
  ghost predicate Created(fs: Fs, c: Result)
    requires Tables(fs) && Tables(c.fs)
  {
    && (forall m :: Live(fs, m) ==> SameInode(fs, c.fs, m) && Live(c.fs, m))
    && c.fs.files == fs.files && c.fs.fileTaken == fs.fileTaken
    && (c.ret != -1 ==>
          && !Live(fs, c.ret) && IsFile(c.fs, c.ret) && c.fs.inodes[c.ret].size == 0
          && (forall i :: 0 <= i < SLOTS ==> Ref(c.fs, c.ret, i) == -1)
          && !fs.blockTaken[c.fs.inodes[c.ret].indexBlock]
          && c.fs.inodeTaken == fs.inodeTaken[c.ret := true]
          && c.fs.blockTaken == fs.blockTaken[c.fs.inodes[c.ret].indexBlock := true])
  }

  lemma CreateOwned(fs: Fs)
    requires Tables(fs) && Owned(fs)
    ensures CellsTaken(CreateFile(fs).fs) && CellsApart(CreateFile(fs).fs) && NoLeak(CreateFile(fs).fs)
  {
    hide Cell, BlockShape, InodeShape;
    var c := CreateFile(fs);
    var n := FirstFree(fs.inodeTaken);
    var b := FirstFree(fs.blockTaken);
    CreateCells(fs);
    if n != -1 {
      forall x | ValidBlock(x) && c.fs.blockTaken[x]
        ensures HasOwner(c.fs, x)
      {
        if x == b {
          assert Cell(c.fs, n, SLOTS) == x;
        } else {
          assert HasOwner(fs, x);
          var m, k :| Live(fs, m) && ValidCell(k) && Cell(fs, m, k) == x;
          assert Cell(c.fs, m, k) == x;
        }
      }
    }
  }

  lemma CreateTyped(fs: Fs)
    requires Tables(fs) && Owned(fs)
    ensures Typed(CreateFile(fs).fs) && Created(fs, CreateFile(fs))
  {
    hide CellsApart, NoLeak, BlockShape;
    CreateCells(fs);
    var c := CreateFile(fs);
    var n := FirstFree(fs.inodeTaken);
    if n != -1 {
      CellOfSlot(c.fs, n);
      RootCell(fs);
      CellOfSlot(fs, ROOT_DIR_INUM);
    }
    forall m | Live(fs, m)
      ensures SameInode(fs, c.fs, m)
    {
      CellOfSlot(fs, m);
      CellOfSlot(c.fs, m);
    }
    forall m, i | Live(c.fs, m) && m != ROOT_DIR_INUM && 0 <= i < SLOTS && Ref(c.fs, m, i) != -1
      ensures c.fs.blocks[Ref(c.fs, m, i)].Data?
    {
      CellOfSlot(c.fs, m);
      if Live(fs, m) {
        CellOfSlot(fs, m);
      }
    }
  }

  /* ----- erasing and deleting ----- */

  /** The blocks that the cells of inode n name. */
  ghost predicate NamedBy(fs: Fs, n: int, b: int)
    requires Tables(fs) && ValidInumber(n)
  {
    exists k :: ValidCell(k) && Cell(fs, n, k) == b
  }

  lemma EraseReleases(v: Variant, fs: Fs, n: int)
    requires Tables(fs) && ValidInumber(n) && fs.inodes[n].indexBlock != -1
    ensures var e := Erase(v, fs, n);
            && e.ret == 0
            && (forall b :: ValidBlock(b) ==>
                  (e.fs.blockTaken[b] <==> fs.blockTaken[b] && forall i :: 0 <= i < SLOTS ==> Ref(fs, n, i) != b))
  {
    hide BlockShape;
    var e := Erase(v, fs, n);
    var slots := IndexSlots(fs, n);
    forall b | ValidBlock(b)
      ensures e.fs.blockTaken[b] <==> fs.blockTaken[b] && forall i :: 0 <= i < SLOTS ==> Ref(fs, n, i) != b
    {
      if b in fs.inodes[n].direct {
        var i :| 0 <= i < DIRECT && fs.inodes[n].direct[i] == b;
        assert Ref(fs, n, i) == b;
      }
      if b in slots {
        var i :| 0 <= i < INDEX_ENTRIES && slots[i] == b;
        assert Ref(fs, n, i + DIRECT) == b;
      }
    }
  }

  lemma EraseCells(v: Variant, fs: Fs, n: int)
    requires Tables(fs) && Owned(fs) && IsFile(fs, n)
    ensures var e := Erase(v, fs, n);
            && (forall m, k :: Live(fs, m) && m != n && ValidCell(k) ==> Cell(e.fs, m, k) == Cell(fs, m, k))
            && (forall m, k :: Live(fs, m) && m != n && 0 <= k < SLOTS && Cell(fs, m, k) != -1 ==>
                  e.fs.blocks[Cell(fs, m, k)] == fs.blocks[Cell(fs, m, k)])
            && (forall k :: 0 <= k < SLOTS ==> Cell(e.fs, n, k) == if v.AsWritten? && k < DIRECT then Cell(fs, n, k) else -1)
            && Cell(e.fs, n, SLOTS) == Cell(fs, n, SLOTS)
  {
    hide InodeShape, BlockShape, NoLeak;
    CellOfSlot(fs, n);
    forall m, k | Live(fs, m) && m != n && ValidCell(k)
      ensures Cell(Erase(v, fs, n).fs, m, k) == Cell(fs, m, k)
      ensures Cell(fs, m, k) != -1 ==> Cell(fs, m, k) != fs.inodes[n].indexBlock
    {
      CellOfSlot(fs, m);
      assert Cell(fs, m, SLOTS) != -1 ==> Cell(fs, m, SLOTS) != Cell(fs, n, SLOTS);
    }
  }

  /** With the repaired erase, truncating or emptying a file keeps the ownership of every block. */
  lemma RepairedEraseOwned(fs: Fs, n: int)
    requires Tables(fs) && Owned(fs) && IsFile(fs, n)
    ensures var e := Erase(Repaired, fs, n);
            && e.ret == 0 && Owned(e.fs) && IsFile(e.fs, n)
            && (forall m :: Live(fs, m) && m != n ==> SameInode(fs, e.fs, m))
  {
    hide InodeShape, BlockShape, Ref, Cell, Released;
    var e := Erase(Repaired, fs, n);
    EraseReleases(Repaired, fs, n);
    EraseCells(Repaired, fs, n);
    CellOfSlot(fs, n);
    EraseKeepsTypes(Repaired, fs, n);
    forall b | ValidBlock(b) && e.fs.blockTaken[b]
      ensures HasOwner(e.fs, b)
    {
      assert HasOwner(fs, b);
      var m, k :| Live(fs, m) && ValidCell(k) && Cell(fs, m, k) == b;
      assert Cell(e.fs, m, k) == b;
    }
    assert CellsTaken(e.fs);
    assert CellsApart(e.fs);
  }

  lemma EraseKeepsTypes(v: Variant, fs: Fs, n: int)
    requires Tables(fs) && Owned(fs) && IsFile(fs, n)
    ensures var e := Erase(v, fs, n);
            && Typed(e.fs) && IsFile(e.fs, n) && e.fs.files == fs.files && e.fs.fileTaken == fs.fileTaken
            && e.fs.inodeTaken == fs.inodeTaken && e.fs.inodes[n].size == fs.inodes[n].size
            && (forall m :: Live(fs, m) && m != n ==> SameInode(fs, e.fs, m))
  {
    hide BlockShape, CellsApart, NoLeak, CellsTaken, Ref, Cell, Released;
    EraseCells(v, fs, n);
    DataIsNoIndex(fs, n);
    RootCell(fs);
    var e := Erase(v, fs, n);
    forall m | Live(fs, m)
      ensures forall j :: 0 <= j < SLOTS ==> Ref(e.fs, m, j) == Cell(e.fs, m, j) && Ref(fs, m, j) == Cell(fs, m, j)
      ensures Cell(fs, m, SLOTS) == fs.inodes[m].indexBlock && Cell(e.fs, m, SLOTS) == e.fs.inodes[m].indexBlock
    {
      CellOfSlot(e.fs, m);
      CellOfSlot(fs, m);
    }
    forall m, i | Live(e.fs, m) && m != ROOT_DIR_INUM && 0 <= i < SLOTS && Ref(e.fs, m, i) != -1
      ensures e.fs.blocks[Ref(e.fs, m, i)].Data?
    {
      CellOfSlot(e.fs, m);
      CellOfSlot(fs, m);
      assert Cell(e.fs, m, i) == Cell(fs, m, i) != fs.inodes[n].indexBlock;
    }
    assert Ref(fs, ROOT_DIR_INUM, 0) != fs.inodes[n].indexBlock;
  }

  lemma RootCell(fs: Fs)
    requires Tables(fs)
    ensures |fs.inodes[ROOT_DIR_INUM].direct| == DIRECT
    ensures Ref(fs, ROOT_DIR_INUM, 0) == fs.inodes[ROOT_DIR_INUM].direct[0]
  {
  }

  lemma DataIsNoIndex(fs: Fs, n: int)
    requires Tables(fs) && Owned(fs) && IsFile(fs, n)
    ensures forall m, j :: Live(fs, m) && 0 <= j < SLOTS && Ref(fs, m, j) != -1 ==> Ref(fs, m, j) != fs.inodes[n].indexBlock
    ensures forall m :: Live(fs, m) && m != n ==> fs.inodes[m].indexBlock != fs.inodes[n].indexBlock
  {
    hide InodeShape, BlockShape, NoLeak, Typed, CellsTaken, Ref, Cell;
    CellOfSlot(fs, n);
    forall m | Live(fs, m)
      ensures forall j :: 0 <= j < SLOTS && Ref(fs, m, j) != -1 ==> Ref(fs, m, j) != fs.inodes[n].indexBlock
      ensures m != n ==> fs.inodes[m].indexBlock != fs.inodes[n].indexBlock
    {
      CellOfSlot(fs, m);
    }
  }

  /* ----- deleting ----- */

  lemma DeleteCells(v: Variant, fs: Fs, n: int)
    requires Tables(fs) && Owned(fs) && IsFile(fs, n)
    ensures var d := Delete(v, fs, n);
            && d.ret == 0
            && (forall m, k :: Live(fs, m) && m != n && ValidCell(k) ==> Cell(d.fs, m, k) == Cell(fs, m, k))
            && (forall b :: ValidBlock(b) ==> (d.fs.blockTaken[b] <==> fs.blockTaken[b] && !NamedBy(fs, n, b)))
            && d.fs.inodeTaken == fs.inodeTaken[n := false]
            && d.fs == Erase(v, fs, n).fs.(inodeTaken := d.fs.inodeTaken, blockTaken := d.fs.blockTaken)
  {
    hide InodeShape, BlockShape, NoLeak, CellsApart, CellsTaken, Typed, Released;
    var d := Delete(v, fs, n);
    EraseReleases(v, fs, n);
    EraseReleases(v, fs.(inodeTaken := fs.inodeTaken[n := false]), n);
    EraseCells(v, fs, n);
    CellOfSlot(fs, n);
    forall b | ValidBlock(b)
      ensures d.fs.blockTaken[b] <==> fs.blockTaken[b] && !NamedBy(fs, n, b)
    {
      if b == fs.inodes[n].indexBlock {
        assert Cell(fs, n, SLOTS) == b;
      }
    }
  }

  /** Deleting a file frees exactly the blocks it named, in either variant. */
  lemma DeleteOwned(v: Variant, fs: Fs, n: int)
    requires Tables(fs) && Owned(fs) && IsFile(fs, n)
    ensures var d := Delete(v, fs, n);
            && d.ret == 0 && Owned(d.fs)
            && d.fs.inodeTaken == fs.inodeTaken[n := false]
            && (forall b :: ValidBlock(b) ==> (d.fs.blockTaken[b] <==> fs.blockTaken[b] && !NamedBy(fs, n, b)))
            && (forall m :: Live(fs, m) && m != n ==> SameInode(fs, d.fs, m))
            && d.fs.files == fs.files && d.fs.fileTaken == fs.fileTaken
  {
    hide InodeShape, BlockShape, Ref, Cell, Erase, Delete;
    DeleteCells(v, fs, n);
    EraseKeepsTypes(v, fs, n);
    var d := Delete(v, fs, n);
    DeleteApart(fs, d.fs, n);
    DeleteTyped(Erase(v, fs, n).fs, d.fs, n);
    forall m | Live(fs, m) && m != n
      ensures SameInode(fs, d.fs, m)
    {
      assert SameInode(fs, Erase(v, fs, n).fs, m);
    }
  }

  lemma DeleteApart(fs: Fs, g: Fs, n: int)
    requires Tables(fs) && Tables(g) && Owned(fs) && Live(fs, n) && g.inodeTaken == fs.inodeTaken[n := false]
    requires forall m, k :: Live(fs, m) && m != n && ValidCell(k) ==> Cell(g, m, k) == Cell(fs, m, k)
    requires forall b :: ValidBlock(b) ==> (g.blockTaken[b] <==> fs.blockTaken[b] && !NamedBy(fs, n, b))
    ensures CellsTaken(g) && CellsApart(g) && NoLeak(g)
  {
    hide InodeShape, BlockShape, Ref, Cell, Typed;
    forall b | ValidBlock(b) && g.blockTaken[b]
      ensures HasOwner(g, b)
    {
      assert HasOwner(fs, b);
      var m, k :| Live(fs, m) && ValidCell(k) && Cell(fs, m, k) == b;
      assert Cell(g, m, k) == b;
    }
  }

  lemma DeleteTyped(e: Fs, g: Fs, n: int)
    requires Tables(e) && Tables(g) && Typed(e) && n != ROOT_DIR_INUM && ValidInumber(n)
    requires g == e.(inodeTaken := e.inodeTaken[n := false], blockTaken := g.blockTaken)
    ensures Typed(g)
  {
    hide InodeShape, BlockShape;
    forall m, i | ValidInumber(m) && 0 <= i < SLOTS
      ensures Ref(g, m, i) == Ref(e, m, i)
    {
    }
  }

  /** Rolling back a creation restores the live inodes and the TAKEN blocks. */
  lemma RollbackRestores(v: Variant, fs: Fs)
    requires Tables(fs) && Owned(fs) && CreateFile(fs).ret != -1
    ensures var d := Delete(v, CreateFile(fs).fs, CreateFile(fs).ret);
            && d.ret == 0 && Owned(d.fs)
            && d.fs.inodeTaken == fs.inodeTaken && d.fs.blockTaken == fs.blockTaken
            && (forall m :: Live(fs, m) ==> SameInode(fs, d.fs, m))
            && d.fs.files == fs.files && d.fs.fileTaken == fs.fileTaken
  {
    hide InodeShape, BlockShape, Ref, CreateFile, Delete;
    var c := CreateFile(fs);
    CreateOwned(fs);
    CreateTyped(fs);
    DeleteOwned(v, c.fs, c.ret);
    CellOfSlot(c.fs, c.ret);
    var d := Delete(v, c.fs, c.ret);
    var ib := c.fs.inodes[c.ret].indexBlock;
    forall b | ValidBlock(b)
      ensures d.fs.blockTaken[b] == fs.blockTaken[b]
    {
      if b == ib {
        assert Cell(c.fs, c.ret, SLOTS) == b;
      } else {
        assert !NamedBy(c.fs, c.ret, b);
      }
    }
    assert d.fs.blockTaken == fs.blockTaken;
    forall m | Live(fs, m)
      ensures SameInode(fs, d.fs, m)
    {
      assert SameInode(fs, c.fs, m) && SameInode(c.fs, d.fs, m);
    }
  }

  /* ----- the directory ----- */

  /** Entering a name changes the block of the root directory and nothing else. */
  lemma AddToRootOwned(fs: Fs, sub: int, name: string)
    requires Tables(fs) && Owned(fs)
    ensures var a := AddToRoot(fs, sub, name);
            && Owned(a.fs) && a.fs.inodeTaken == fs.inodeTaken && a.fs.blockTaken == fs.blockTaken
            && (forall m :: Live(fs, m) && m != ROOT_DIR_INUM ==> SameInode(fs, a.fs, m))
            && a.fs.files == fs.files && a.fs.fileTaken == fs.fileTaken && a.fs.inodes == fs.inodes
            && (a.ret == -1 ==> a.fs == fs)
  {
    hide InodeShape, BlockShape, Cell, CellsTaken, CellsApart, NoLeak;
    var a := AddToRoot(fs, sub, name);
    AddToRootCells(fs, sub, name);
    if a.ret != -1 {
      SameCellsApart(fs, a.fs);
    }
  }

  lemma AddToRootCells(fs: Fs, sub: int, name: string)
    requires Tables(fs) && Owned(fs)
    ensures var a := AddToRoot(fs, sub, name);
            && (forall m, k :: Live(fs, m) && ValidCell(k) ==> Cell(a.fs, m, k) == Cell(fs, m, k))
            && (forall m :: Live(fs, m) && m != ROOT_DIR_INUM ==> SameInode(fs, a.fs, m))
            && Typed(a.fs)
  {
    hide BlockShape, NoLeak, CellsTaken;
    var a := AddToRoot(fs, sub, name);
    RootCell(fs);
    CellOfSlot(fs, ROOT_DIR_INUM);
    forall m | Live(fs, m)
      ensures forall k :: ValidCell(k) ==> Cell(a.fs, m, k) == Cell(fs, m, k)
      ensures m != ROOT_DIR_INUM ==> SameInode(fs, a.fs, m)
    {
      CellOfSlot(fs, m);
      CellOfSlot(a.fs, m);
      assert Cell(fs, m, SLOTS) != -1 ==> Cell(fs, m, SLOTS) != Cell(fs, ROOT_DIR_INUM, 0);
    }
    forall m, i | Live(fs, m) && m != ROOT_DIR_INUM && 0 <= i < SLOTS && Ref(a.fs, m, i) != -1
      ensures a.fs.blocks[Ref(a.fs, m, i)].Data?
    {
      CellOfSlot(fs, m);
      CellOfSlot(a.fs, m);
      assert Cell(fs, m, i) != Cell(fs, ROOT_DIR_INUM, 0);
    }
  }

  lemma SameCellsApart(fs: Fs, g: Fs)
    requires Tables(fs) && Tables(g) && Owned(fs) && g.inodeTaken == fs.inodeTaken && g.blockTaken == fs.blockTaken
    requires forall m, k :: Live(fs, m) && ValidCell(k) ==> Cell(g, m, k) == Cell(fs, m, k)
    ensures CellsTaken(g) && CellsApart(g) && NoLeak(g)
  {
    hide InodeShape, BlockShape, Ref, Cell, Typed;
    forall b | ValidBlock(b) && g.blockTaken[b]
      ensures HasOwner(g, b)
    {
      assert HasOwner(fs, b);
      var m, k :| Live(fs, m) && ValidCell(k) && Cell(fs, m, k) == b;
      assert Cell(g, m, k) == b;
    }
  }

  /* ----- one operation ----- */

  ghost predicate HandlesOk(fs: Fs)
    requires Tables(fs)
  {
    forall h {:trigger fs.fileTaken[h]} :: ValidHandle(h) && fs.fileTaken[h] ==> IsFile(fs, fs.files[h].inumber)
  }

  ghost predicate EntriesOk(fs: Fs)
    requires Tables(fs)
  {
    forall i :: 0 <= i < MAX_DIR_ENTRIES && Used(RootEntries(fs)[i]) ==> IsFile(fs, RootEntries(fs)[i].inumber)
  }

  /** Every block has its one owner, and handles and directory entries name live files. */
  ghost predicate Consistent(fs: Fs)
    requires Tables(fs)
  {
    Owned(fs) && HandlesOk(fs) && EntriesOk(fs)
  }

  /** Every live inode stays one and keeps its kind and index block. */
  ghost predicate FilesStay(fs: Fs, g: Fs)
    requires Tables(fs) && Tables(g)
  {
    forall m :: IsFile(fs, m) ==> IsFile(g, m)
  }

  /**
   * In either variant, a write through a live handle keeps all ownership and changes no other inode: no other file, no
   * other file's index block, not the directory.
   */
  lemma WriteKeepsOthers(v: Variant, fs: Fs, h: int, n: int, buf: seq<byte>)
    requires Tables(fs) && Owned(fs) && ValidHandle(h) && fs.files[h].inumber == n && IsFile(fs, n)
    ensures var g := Write(v, fs, h, buf).fs;
            && Owned(g) && IsFile(g, n) && OthersSame(fs, g, n) && g.inodeTaken == fs.inodeTaken
            && g.fileTaken == fs.fileTaken && g.files == fs.files[h := fs.files[h].(offset := g.files[h].offset)]
  {
    hide InodeShape, BlockShape, Ref, Cell, WriteLoop, WriteAt, Finish, AsInt32;
    if |buf| % 0x1_0000_0000 < 0x8000_0000 {
      var o := WriteOffset(fs, h);
      var r := WriteLoop(v, Start(fs, o), n, buf, SLOTS);
      WriteAtOneLoop(v, fs, h, o, buf);
      WriteLoopOwned(v, Start(fs, o), n, buf, SLOTS);
      FinishRelabels(v, r, n, h);
      var g := Finish(v, r, n, h).fs;
      RelabelledOwned(r.fs, g, n);
      RelabelledCells(r.fs, g, n);
      forall m | Live(fs, m) && m != n
        ensures SameInode(fs, g, m)
      {
        assert SameInode(fs, r.fs, m) && SameInode(r.fs, g, m);
      }
    } else {
      forall m | Live(fs, m)
        ensures SameInode(fs, fs, m)
      {
      }
    }
  }

  lemma SameRootEntries(fs: Fs, g: Fs)
    requires Tables(fs) && Tables(g) && SameInode(fs, g, ROOT_DIR_INUM)
    ensures RootEntries(g) == RootEntries(fs)
  {
    RootCell(fs);
    RootCell(g);
    CellOfSlot(fs, ROOT_DIR_INUM);
    CellOfSlot(g, ROOT_DIR_INUM);
  }

  lemma WriteConsistent(v: Variant, fs: Fs, h: int, buf: seq<byte>)
    requires Tables(fs) && Consistent(fs) && Allowed(fs, OpWrite(h, buf))
    ensures Consistent(Write(v, fs, h, buf).fs)
  {
    hide InodeShape, BlockShape, Ref, Cell, WriteAt, AsInt32, Owned, RootEntries;
    if ValidHandle(h) {
      var n := fs.files[h].inumber;
      assert fs.fileTaken[h];
      WriteKeepsOthers(v, fs, h, n, buf);
      OwnedRoot(fs);
      var g := Write(v, fs, h, buf).fs;
      assert SameInode(fs, g, ROOT_DIR_INUM);
      SameRootEntries(fs, g);
      OthersStay(fs, g, n);
    }
  }

  lemma OwnedRoot(fs: Fs)
    requires Tables(fs) && Owned(fs)
    ensures Live(fs, ROOT_DIR_INUM) && !IsFile(fs, ROOT_DIR_INUM)
  {
  }

  lemma OthersStay(fs: Fs, g: Fs, n: int)
    requires Tables(fs) && Tables(g) && OthersSame(fs, g, n) && g.inodeTaken == fs.inodeTaken && IsFile(g, n)
    ensures FilesStay(fs, g)
  {
    forall m | IsFile(fs, m)
      ensures IsFile(g, m)
    {
      if m != n {
        assert SameInode(fs, g, m);
      }
    }
  }

  lemma ReadConsistent(v: Variant, fs: Fs, h: int, len: nat)
    requires Tables(fs) && Consistent(fs)
    ensures Consistent(Read(v, fs, h, len).fs)
  {
    hide InodeShape, BlockShape, Ref, Cell, ReadLoop, CellsTaken, CellsApart, NoLeak, Typed;
    var g := Read(v, fs, h, len).fs;
    if g != fs {
      assert Relabelled(fs, g, ROOT_DIR_INUM);
      RelabelledOwned(fs, g, ROOT_DIR_INUM);
      assert RootEntries(g) == RootEntries(fs);
      assert forall i :: ValidHandle(i) ==> g.files[i].inumber == fs.files[i].inumber;
    }
  }

  lemma CloseConsistent(fs: Fs, h: int)
    requires Tables(fs) && Consistent(fs)
    ensures Consistent(Close(fs, h).fs)
  {
    hide InodeShape, BlockShape, Ref, Cell, CellsTaken, CellsApart, NoLeak, Typed;
    var g := Close(fs, h).fs;
    assert Relabelled(fs, g, ROOT_DIR_INUM);
    RelabelledOwned(fs, g, ROOT_DIR_INUM);
    assert RootEntries(g) == RootEntries(fs);
  }

  lemma AddOpenConsistent(fs: Fs, n: int, off: nat, append: bool)
    requires Tables(fs) && Consistent(fs) && IsFile(fs, n)
    ensures Consistent(AddOpen(fs, n, off, append).fs)
  {
    hide InodeShape, BlockShape, Ref, Cell, CellsTaken, CellsApart, NoLeak, Typed;
    var g := AddOpen(fs, n, off, append).fs;
    assert Relabelled(fs, g, ROOT_DIR_INUM);
    RelabelledOwned(fs, g, ROOT_DIR_INUM);
    assert RootEntries(g) == RootEntries(fs);
  }

  lemma RepairedTruncateConsistent(fs: Fs, n: int)
    requires Tables(fs) && Consistent(fs) && IsFile(fs, n)
    ensures var t := Truncate(Repaired, fs, n);
            t.ret == 0 && Consistent(t.fs) && IsFile(t.fs, n) && t.fs.inodes[n].size == 0
  {
    hide InodeShape, BlockShape, Ref, Cell, Erase, Owned, RootEntries;
    var t := Truncate(Repaired, fs, n);
    if fs.inodes[n].size != 0 {
      var e := Erase(Repaired, fs, n);
      RepairedEraseOwned(fs, n);
      EraseKeepsTypes(Repaired, fs, n);
      RelabelledOwned(e.fs, t.fs, n);
      RelabelledCells(e.fs, t.fs, n);
      OwnedRoot(fs);
      assert SameInode(fs, e.fs, ROOT_DIR_INUM) && SameInode(e.fs, t.fs, ROOT_DIR_INUM);
      SameRootEntries(fs, e.fs);
      SameRootEntries(e.fs, t.fs);
      OthersStay(fs, e.fs, n);
    }
  }

  lemma OpenExistingConsistent(v: Variant, fs: Fs, n: int, flags: Flags)
    requires Tables(fs) && Consistent(fs) && IsFile(fs, n) && (v.Repaired? || !flags.truncate || fs.inodes[n].size == 0)
    ensures Consistent(OpenExisting(v, fs, n, flags).fs)
  {
    hide Consistent, Erase, AddOpen;
    if flags.truncate && v.Repaired? {
      RepairedTruncateConsistent(fs, n);
    }
    var t := if flags.truncate then Truncate(v, fs, n) else Result(fs, 0);
    AddOpenConsistent(t.fs, n, if flags.append then t.fs.inodes[n].size else 0, flags.append);
  }

  lemma CreateConsistent(fs: Fs)
    requires Tables(fs) && Consistent(fs)
    ensures Consistent(CreateFile(fs).fs)
  {
    hide InodeShape, BlockShape, Ref, Cell, CreateFile, RootEntries;
    CreateOwned(fs);
    CreateTyped(fs);
    OwnedRoot(fs);
    var c := CreateFile(fs);
    assert SameInode(fs, c.fs, ROOT_DIR_INUM);
    SameRootEntries(fs, c.fs);
    forall m | IsFile(fs, m)
      ensures IsFile(c.fs, m)
    {
      assert SameInode(fs, c.fs, m);
    }
  }

  lemma AddToRootConsistent(fs: Fs, sub: int, name: string)
    requires Tables(fs) && Consistent(fs) && IsFile(fs, sub)
    ensures Consistent(AddToRoot(fs, sub, name).fs)
  {
    hide InodeShape, BlockShape, Cell, Owned;
    AddToRootOwned(fs, sub, name);
    AddToRootEntries(fs, sub, name);
    var a := AddToRoot(fs, sub, name);
    assert forall m :: IsFile(fs, m) <==> IsFile(a.fs, m);
  }

  lemma AddToRootEntries(fs: Fs, sub: int, name: string)
    requires Tables(fs) && Owned(fs) && ValidInumber(sub)
    ensures var a := AddToRoot(fs, sub, name);
            var i := FirstUnused(RootEntries(fs));
            a.ret == 0 ==> i != -1 && RootEntries(a.fs) == RootEntries(fs)[i := DirEntry(StoredName(name), sub)]
  {
    hide InodeShape, BlockShape, Cell, CellsTaken, CellsApart, NoLeak;
    RootCell(fs);
  }

  lemma OpenNewConsistent(v: Variant, fs: Fs, name: string)
    requires Tables(fs) && Consistent(fs)
    ensures Consistent(OpenNew(v, fs, name).fs)
  {
    hide InodeShape, BlockShape, Ref, Cell, CreateFile, RootEntries, Owned, AddToRoot, Delete, AddOpen;
    var c := CreateFile(fs);
    CreateConsistent(fs);
    CreateTyped(fs);
    if c.ret != -1 {
      var a := AddToRoot(c.fs, c.ret, name);
      AddToRootConsistent(c.fs, c.ret, name);
      AddToRootOwned(c.fs, c.ret, name);
      if a.ret == -1 {
        RollbackRestores(v, fs);
        var d := Delete(v, c.fs, c.ret);
        OwnedRoot(fs);
        assert SameInode(fs, d.fs, ROOT_DIR_INUM);
        SameRootEntries(fs, d.fs);
        forall m | IsFile(fs, m)
          ensures IsFile(d.fs, m)
        {
          assert SameInode(fs, d.fs, m);
        }
      } else {
        AddOpenConsistent(a.fs, c.ret, 0, false);
      }
    }
  }

  lemma OpenConsistent(v: Variant, fs: Fs, path: string, flags: Flags)
    requires Tables(fs) && Consistent(fs) && (v.Repaired? || !Truncates(fs, OpOpen(path, flags)))
    ensures Consistent(Open(v, fs, path, flags).fs)
  {
    hide InodeShape, BlockShape, OpenExisting, OpenNew, Owned, RootEntries, HandlesOk;
    var n := Lookup(fs, path);
    if ValidPath(path) && n >= 0 {
      var i := FindEntry(RootEntries(fs), path[1..]);
      OpenExistingConsistent(v, fs, n, flags);
    } else if flags.create && ValidPath(path) {
      OpenNewConsistent(v, fs, path[1..]);
    }
  }

  /* ----- runs ----- */

  lemma InitialConsistent()
    ensures Consistent(Initial())
  {
    var fs := Initial();
    assert forall n :: Live(fs, n) ==> n == ROOT_DIR_INUM;
    assert forall k :: ValidCell(k) ==> Cell(fs, ROOT_DIR_INUM, k) == if k == 0 then 0 else -1;
    assert HasOwner(fs, 0) by {
      assert Cell(fs, ROOT_DIR_INUM, 0) == 0;
    }
  }

  /**
   * In every state a run can reach, the TAKEN blocks are exactly the disjoint union of the cells of the live inodes:
   * as written for runs that truncate no file with bytes, and with the repaired erase for all runs.
   */
  lemma {:induction false} RunsKeepOwnership(v: Variant, fs: Fs, ops: seq<Op>)
    requires Tables(fs) && Consistent(fs) && AllowedRun(v, fs, ops)
    requires v.Repaired? || !TruncatesIn(v, fs, ops)
    ensures Consistent(Run(v, fs, ops))
    decreases |ops|
  {
    hide InodeShape, BlockShape, Consistent, Open, Close, Write, Read, Lookup;
    if ops != [] {
      StepConsistent(v, fs, ops[0]);
      RunsKeepOwnership(v, Step(v, fs, ops[0]), ops[1..]);
    }
  }

  lemma StepConsistent(v: Variant, fs: Fs, op: Op)
    requires Tables(fs) && Consistent(fs) && Allowed(fs, op) && (v.Repaired? || !Truncates(fs, op))
    ensures Consistent(Step(v, fs, op))
  {
    hide InodeShape, BlockShape, Consistent, Open, Close, Write, Read, Lookup;
    match op
    case OpOpen(path, flags) => OpenConsistent(v, fs, path, flags);
    case OpClose(h) => CloseConsistent(fs, h);
    case OpWrite(h, buf) => WriteConsistent(v, fs, h, buf);
    case OpRead(h, len) => ReadConsistent(v, fs, h, len);
  }
}
