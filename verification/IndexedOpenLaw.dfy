/**
 * What tfs_open does to files and handles, and the state in which the laws of tfs_write and tfs_read hold: with the
 * repaired lines every run within the rules of a caller stays in it.
 */
module IndexedOpenLaw {
  import opened Bytes
  import opened AllocationTable
  import opened Disk
  import opened IndexedState
  import opened IndexedOwnership
  import opened IndexedWrite
  import opened IndexedWriteLaw
  import opened IndexedReadLaw
  import opened IndexedOps
  import opened IndexedRuns

  ghost predicate AllSized(fs: Fs)
    requires Tables(fs)
  {
    forall m {:trigger IsFile(fs, m)} :: IsFile(fs, m) ==> Sized(fs, m)
  }

  /** Every open handle stands inside its file. */
  ghost predicate Inside(fs: Fs)
    requires Tables(fs)
  {
    forall h {:trigger fs.fileTaken[h]} :: ValidHandle(h) && fs.fileTaken[h] && ValidInumber(fs.files[h].inumber) ==>
      fs.files[h].offset <= fs.inodes[fs.files[h].inumber].size
  }

  ghost predicate Good(fs: Fs)
    requires Tables(fs)
  {
    Consistent(fs) && AllSized(fs) && Inside(fs)
  }

  /** No handle on file n stands past its start. */
  predicate AtStart(fs: Fs, n: int)
    requires Tables(fs)
  {
    forall h :: 0 <= h < MAX_OPEN_FILES && fs.fileTaken[h] && fs.files[h].inumber == n ==> fs.files[h].offset == 0
  }

  /** What callers keep to: live handles, and no truncation under a handle that stands past the start. */
  predicate Rules(fs: Fs, op: Op)
    requires Tables(fs)
  {
    Allowed(fs, op) && (op.OpOpen? && op.flags.truncate && Lookup(fs, op.path) >= 0 ==> AtStart(fs, Lookup(fs, op.path)))
  }

  /** A live handle of a good state is one the laws of tfs_write and tfs_read speak of. */
  lemma LawsApply(fs: Fs, h: int)
    requires Tables(fs) && Good(fs) && ValidHandle(h) && fs.fileTaken[h]
    ensures var n := fs.files[h].inumber;
            Owned(fs) && OpenOn(fs, h, n) && fs.files[h].offset <= fs.inodes[n].size && WriteOffset(fs, h) <= fs.inodes[n].size
  {
    hide InodeShape, BlockShape, Owned, EntriesOk, Sized;
  }

  /** Files other than n are the same, and so are their contents. */
  ghost predicate OtherFilesSame(fs: Fs, g: Fs, n: int)
    requires Tables(fs) && Tables(g)
  {
    forall m {:trigger IsFile(fs, m)} :: IsFile(fs, m) && m != n ==> IsFile(g, m) && SameInode(fs, g, m)
  }

  /** All files of g but n were files before. */
  ghost predicate NoOtherFiles(fs: Fs, g: Fs, n: int)
    requires Tables(fs) && Tables(g)
  {
    forall m {:trigger IsFile(g, m)} :: IsFile(g, m) && m != n ==> IsFile(fs, m)
  }

  /** What is left alone stays sized, and handles on it stay inside. */
  lemma GoodAfter(fs: Fs, g: Fs, n: int)
    requires Tables(fs) && Tables(g) && Good(fs) && Consistent(g)
    requires OtherFilesSame(fs, g, n) && NoOtherFiles(fs, g, n) && (IsFile(g, n) ==> Sized(g, n))
    requires forall h {:trigger g.fileTaken[h]} :: ValidHandle(h) && g.fileTaken[h] ==>
               if g.files[h].inumber == n then g.files[h].offset <= g.inodes[n].size
               else fs.fileTaken[h] && g.files[h] == fs.files[h]
    ensures Good(g)
  {
    hide InodeShape, BlockShape, Owned, EntriesOk, Sized, Cell;
    forall m | IsFile(g, m) ensures Sized(g, m) {
      if m != n {
        assert IsFile(fs, m);
        SameInodeSameContents(fs, g, m);
      }
    }
    forall h {:trigger g.fileTaken[h]} | ValidHandle(h) && g.fileTaken[h] && ValidInumber(g.files[h].inumber)
      ensures g.files[h].offset <= g.inodes[g.files[h].inumber].size
    {
      if g.files[h].inumber != n {
        assert IsFile(fs, fs.files[h].inumber);
      }
    }
  }

  /* ----- tfs_write, tfs_read and tfs_close keep a good state ----- */

  lemma WriteGood(fs: Fs, h: int, buf: seq<byte>)
    requires Tables(fs) && Good(fs) && Allowed(fs, OpWrite(h, buf))
    ensures Good(Write(Repaired, fs, h, buf).fs)
  {
    hide InodeShape, BlockShape, Owned, EntriesOk, Sized, WriteAt, AsInt32, Cell, Contents, Consistent, Splice;
    WriteConsistent(Repaired, fs, h, buf);
    if ValidHandle(h) && |buf| % 0x1_0000_0000 < 0x8000_0000 {
      LawsApply(fs, h);
      var n := fs.files[h].inumber;
      RepairedWriteSplices(fs, h, n, buf);
      var w := Write(Repaired, fs, h, buf);
      GrownBy(fs, w, h, n, WriteOffset(fs, h), buf[..w.ret]);
      FilesAfterWrite(fs, w.fs, n);
      GoodAfter(fs, w.fs, n);
    }
  }

  lemma GrownBy(fs: Fs, w: WriteResult, h: int, n: int, o: nat, d: seq<byte>)
    requires Tables(fs) && Tables(w.fs) && OpenOn(fs, h, n) && o <= fs.inodes[n].size && WroteAt(fs, w, h, n, o, d)
    ensures w.fs.inodes[n].size == Max(fs.inodes[n].size, o + |d|) && Sized(w.fs, n) && IsFile(w.fs, n)
  {
    hide InodeShape, BlockShape, Owned, SameInode;
    OpenOnFile(fs, h, n);
    OpenOnFile(w.fs, h, n);
    assert |Contents(w.fs, n)| == |Splice(Contents(fs, n), o, d)|;
  }

  lemma FilesAfterWrite(fs: Fs, g: Fs, n: int)
    requires Tables(fs) && Tables(g) && OthersSame(fs, g, n) && g.inodeTaken == fs.inodeTaken
    ensures OtherFilesSame(fs, g, n) && NoOtherFiles(fs, g, n)
  {
    hide InodeShape, BlockShape, Cell;
    forall m | Live(fs, m) && m != n ensures IsFile(g, m) <==> IsFile(fs, m) {
      assert SameInode(fs, g, m);
    }
  }

  lemma SameFiles(fs: Fs, g: Fs, n: int)
    requires Tables(fs) && Tables(g) && g.inodes == fs.inodes && g.inodeTaken == fs.inodeTaken && g.blocks == fs.blocks
    ensures OtherFilesSame(fs, g, n) && NoOtherFiles(fs, g, n) && (ValidInumber(n) && Sized(fs, n) ==> Sized(g, n))
    ensures forall m :: IsFile(g, m) <==> IsFile(fs, m)
  {
    hide InodeShape, BlockShape;
    assert forall m, i :: ValidInumber(m) && 0 <= i < SLOTS ==> Ref(g, m, i) == Ref(fs, m, i);
  }

  lemma ReadGood(fs: Fs, h: int, len: nat)
    requires Tables(fs) && Good(fs) && Allowed(fs, OpRead(h, len))
    ensures Good(Read(Repaired, fs, h, len).fs)
  {
    hide InodeShape, BlockShape, Owned, EntriesOk, Sized, ReadAt, Cell, Consistent, Slice;
    ReadConsistent(Repaired, fs, h, len);
    if ValidHandle(h) {
      LawsApply(fs, h);
      var n := fs.files[h].inumber;
      OpenOnFile(fs, h, n);
      RepairedReadSlices(fs, h, n, len);
      var g := Read(Repaired, fs, h, len).fs;
      SameFiles(fs, g, n);
      GoodAfter(fs, g, n);
    }
  }

  lemma CloseGood(fs: Fs, h: int)
    requires Tables(fs) && Good(fs)
    ensures Good(Close(fs, h).fs)
  {
    hide InodeShape, BlockShape, Owned, EntriesOk, Sized, Cell;
    CloseConsistent(fs, h);
    SameFiles(fs, Close(fs, h).fs, -1);
    GoodAfter(fs, Close(fs, h).fs, -1);
  }

  /* ----- tfs_open ----- */

  /** A handle on file n was given out, at offset off of a file that reads text; nothing else about handles changed. */
  ghost predicate HandleOn(fs: Fs, r: Result, n: int, off: nat, append: bool)
    requires Tables(fs) && Tables(r.fs)
  {
    var h := FirstFree(fs.fileTaken);
    if h == -1 then r.ret == -1 && r.fs.fileTaken == fs.fileTaken && r.fs.files == fs.files
    else r.ret == h && r.fs.fileTaken == fs.fileTaken[h := true] && r.fs.files == fs.files[h := OpenFile(n, off, append)]
  }

  /** File n of g reads text. */
  ghost predicate Reads(g: Fs, n: int, text: seq<byte>)
    requires Tables(g)
  {
    IsFile(g, n) && Sized(g, n) && Contents(g, n) == text
  }

  lemma AddOpenKeeps(fs: Fs, n: int, off: nat, append: bool)
    requires Tables(fs) && ValidInumber(n)
    ensures var r := AddOpen(fs, n, off, append);
            && HandleOn(fs, r, n, off, append) && RootEntries(r.fs) == RootEntries(fs)
            && forall m {:trigger IsFile(fs, m)} :: IsFile(fs, m) ==> IsFile(r.fs, m) && SameInode(fs, r.fs, m)
  {
    hide InodeShape, BlockShape;
    var g := AddOpen(fs, n, off, append).fs;
    RelabelledCells(fs, g, n);
  }

  lemma AddOpenLaw(fs: Fs, n: int, off: nat, append: bool, text: seq<byte>)
    requires Tables(fs) && Reads(fs, n, text)
    ensures var r := AddOpen(fs, n, off, append);
            && HandleOn(fs, r, n, off, append) && Reads(r.fs, n, text) && RootEntries(r.fs) == RootEntries(fs)
            && forall m {:trigger IsFile(fs, m)} :: IsFile(fs, m) ==> IsFile(r.fs, m) && SameInode(fs, r.fs, m)
  {
    hide InodeShape, BlockShape;
    var g := AddOpen(fs, n, off, append).fs;
    AddOpenKeeps(fs, n, off, append);
    SameInodeSameContents(fs, g, n);
  }

  /** A truncated file reads nothing, in either variant; in the repaired one its blocks are free as well. */
  lemma TruncateLaw(v: Variant, fs: Fs, n: int)
    requires Tables(fs) && Consistent(fs) && IsFile(fs, n)
    ensures var t := Truncate(v, fs, n);
            && t.ret == 0 && Reads(t.fs, n, []) && OtherFilesSame(fs, t.fs, n) && NoOtherFiles(fs, t.fs, n)
            && t.fs.files == fs.files && t.fs.fileTaken == fs.fileTaken && RootEntries(t.fs) == RootEntries(fs)
            && (v.Repaired? ==> Consistent(t.fs))
  {
    hide InodeShape, BlockShape, Ref, Cell, Erase, Owned, RootEntries;
    var t := Truncate(v, fs, n);
    if v.Repaired? {
      RepairedTruncateConsistent(fs, n);
    }
    EraseSucceeds(v, fs, n);
    if fs.inodes[n].size != 0 {
      var e := Erase(v, fs, n);
      EraseKeepsTypes(v, fs, n);
      RelabelledCells(e.fs, t.fs, n);
      OwnedRoot(fs);
      assert SameInode(fs, e.fs, ROOT_DIR_INUM) && SameInode(e.fs, t.fs, ROOT_DIR_INUM);
      SameRootEntries(fs, e.fs);
      SameRootEntries(e.fs, t.fs);
      forall m | Live(fs, m) && m != n ensures SameInode(fs, t.fs, m) {
        assert SameInode(fs, e.fs, m) && SameInode(e.fs, t.fs, m);
      }
      FilesAfterWrite(fs, t.fs, n);
    } else {
      SameFiles(fs, t.fs, n);
    }
    assert Contents(t.fs, n) == [];
  }

  lemma EraseSucceeds(v: Variant, fs: Fs, n: int)
    requires Tables(fs) && IsFile(fs, n)
    ensures Erase(v, fs, n).ret == 0
  {
    hide InodeShape, BlockShape;
  }

  /**
   * Opening a file that is there, in either variant: emptied or left as it is, the handle at the end or at the start, no
   * other file changed.
   */
  lemma OpenExistingLaw(v: Variant, fs: Fs, n: int, flags: Flags)
    requires Tables(fs) && Consistent(fs) && IsFile(fs, n)
    ensures var r := OpenExisting(v, fs, n, flags);
            && HandleOn(fs, r, n, if flags.append && !flags.truncate then fs.inodes[n].size else 0, flags.append)
            && (if flags.truncate then Reads(r.fs, n, []) else IsFile(r.fs, n) && SameInode(fs, r.fs, n))
            && OtherFilesSame(fs, r.fs, n) && NoOtherFiles(fs, r.fs, n)
            && RootEntries(r.fs) == RootEntries(fs)
  {
    hide InodeShape, BlockShape, Ref, Cell, Truncate, Owned, RootEntries, HandlesOk, EntriesOk;
    if flags.truncate {
      TruncateLaw(v, fs, n);
    } else {
      SameFiles(fs, fs, n);
    }
    var t := if flags.truncate then Truncate(v, fs, n).fs else fs;
    var off := if flags.append then t.inodes[n].size else 0;
    AddOpenKeeps(t, n, off, flags.append);
    var g := AddOpen(t, n, off, flags.append).fs;
    SameFiles(t, g, n);
    forall m | IsFile(fs, m) && m != n ensures IsFile(g, m) && SameInode(fs, g, m) {
      assert SameInode(fs, t, m) && SameInode(t, g, m);
    }
    if flags.truncate {
      ReadsSame(t, g, n, []);
    }
  }

  /** A file can be made: an inode, a block for its block numbers and a directory entry are free. */
  predicate CanCreate(fs: Fs)
    requires Tables(fs)
  {
    FirstFree(fs.inodeTaken) != -1 && FirstFree(fs.blockTaken) != -1 && FirstUnused(RootEntries(fs)) != -1
  }

  /** Every file is as it was, and there is no new one. */
  ghost predicate FilesSame(fs: Fs, g: Fs)
    requires Tables(fs) && Tables(g)
  {
    OtherFilesSame(fs, g, -1) && NoOtherFiles(fs, g, -1)
  }

  /** inode_create gives the first free inode an index block, or fails and makes no file. */
  lemma CreateLaw(fs: Fs)
    requires Tables(fs) && Consistent(fs)
    ensures var c := CreateFile(fs);
            var n := FirstFree(fs.inodeTaken);
            && Consistent(c.fs) && c.fs.files == fs.files && c.fs.fileTaken == fs.fileTaken && RootEntries(c.fs) == RootEntries(fs)
            && (c.ret == -1 <==> n == -1 || FirstFree(fs.blockTaken) == -1)
            && (c.ret == -1 ==> FilesSame(fs, c.fs))
            && (c.ret != -1 ==> c.ret == n && !IsFile(fs, n) && Reads(c.fs, n, []) && OtherFilesSame(fs, c.fs, n) && NoOtherFiles(fs, c.fs, n))
  {
    hide InodeShape, BlockShape, Ref, Cell, RootEntries, CellsApart, NoLeak;
    var c := CreateFile(fs);
    CreateConsistent(fs);
    CreateOwned(fs);
    CreateTyped(fs);
    OwnedRoot(fs);
    assert SameInode(fs, c.fs, ROOT_DIR_INUM);
    SameRootEntries(fs, c.fs);
    if c.ret != -1 {
      assert Contents(c.fs, c.ret) == [];
    }
  }

  /** The directory gets the entry if it has room, and no file changes. */
  lemma AddToRootLaw(fs: Fs, sub: int, name: string)
    requires Tables(fs) && Consistent(fs) && IsFile(fs, sub) && name != ""
    ensures var a := AddToRoot(fs, sub, name);
            var i := FirstUnused(RootEntries(fs));
            && Consistent(a.fs) && a.fs.files == fs.files && a.fs.fileTaken == fs.fileTaken
            && (a.ret == -1 <==> i == -1) && (a.ret == -1 ==> a.fs == fs)
            && (a.ret != -1 ==> RootEntries(a.fs) == RootEntries(fs)[i := DirEntry(StoredName(name), sub)])
            && FilesSame(fs, a.fs) && (forall m :: IsFile(fs, m) <==> IsFile(a.fs, m))
  {
    hide InodeShape, BlockShape, Cell, CellsTaken, CellsApart, NoLeak;
    AddToRootConsistent(fs, sub, name);
    AddToRootOwned(fs, sub, name);
    AddToRootEntries(fs, sub, name);
    RootCell(fs);
  }

  lemma ReadsSame(fs: Fs, g: Fs, n: int, text: seq<byte>)
    requires Tables(fs) && Tables(g) && Reads(fs, n, text) && IsFile(g, n) && SameInode(fs, g, n)
    ensures Reads(g, n, text)
  {
    hide InodeShape, BlockShape, Sized;
    SameInodeSameContents(fs, g, n);
  }

  lemma SameChain(fs: Fs, g: Fs, k: Fs, n: int)
    requires Tables(fs) && Tables(g) && Tables(k) && OtherFilesSame(fs, g, n) && OtherFilesSame(g, k, n)
    ensures OtherFilesSame(fs, k, n)
    ensures NoOtherFiles(fs, g, n) && NoOtherFiles(g, k, n) ==> NoOtherFiles(fs, k, n)
  {
    hide InodeShape, BlockShape, Cell;
    forall m | IsFile(fs, m) && m != n ensures IsFile(k, m) && SameInode(fs, k, m) {
      assert SameInode(fs, g, m) && SameInode(g, k, m);
    }
  }

  /** Making a file, in either variant: if there is room it is empty, entered in the directory and opened at its start; if not, nothing has changed. */
  lemma OpenNewLaw(v: Variant, fs: Fs, name: string)
    requires Tables(fs) && Consistent(fs) && name != ""
    ensures var r := OpenNew(v, fs, name);
            var n := FirstFree(fs.inodeTaken);
            if CanCreate(fs) then
              && HandleOn(fs, r, n, 0, false) && !IsFile(fs, n) && Reads(r.fs, n, [])
              && OtherFilesSame(fs, r.fs, n) && NoOtherFiles(fs, r.fs, n)
              && RootEntries(r.fs) == RootEntries(fs)[FirstUnused(RootEntries(fs)) := DirEntry(StoredName(name), n)]
            else
              && r.ret == -1 && r.fs.files == fs.files && r.fs.fileTaken == fs.fileTaken
              && FilesSame(fs, r.fs) && RootEntries(r.fs) == RootEntries(fs)
  {
    hide InodeShape, BlockShape, Ref, Cell, Owned, RootEntries, HandlesOk, EntriesOk, CreateFile, AddToRoot, Delete, AddOpen, Sized,
      SameInode, Contents;
    var c := CreateFile(fs);
    CreateLaw(fs);
    if c.ret != -1 {
      var n := c.ret;
      var a := AddToRoot(c.fs, n, name);
      AddToRootLaw(c.fs, n, name);
      if a.ret == -1 {
        RolledBack(v, fs);
      } else {
        ReadsSame(c.fs, a.fs, n, []);
        AddOpenLaw(a.fs, n, 0, false, []);
        var g := AddOpen(a.fs, n, 0, false).fs;
        Narrow(c.fs, a.fs, n);
        SameFilesOpen(a.fs, n, 0, false);
        SameChain(fs, c.fs, a.fs, n);
        SameChain(fs, a.fs, g, n);
      }
    }
  }

  lemma Narrow(fs: Fs, g: Fs, n: int)
    requires Tables(fs) && Tables(g) && FilesSame(fs, g)
    ensures OtherFilesSame(fs, g, n) && NoOtherFiles(fs, g, n)
  {
    hide InodeShape, BlockShape, Cell, SameInode;
  }

  lemma SameFilesOpen(fs: Fs, n: int, off: nat, append: bool)
    requires Tables(fs)
    ensures OtherFilesSame(fs, AddOpen(fs, n, off, append).fs, n) && NoOtherFiles(fs, AddOpen(fs, n, off, append).fs, n)
  {
    hide InodeShape, BlockShape;
    SameFiles(fs, AddOpen(fs, n, off, append).fs, n);
  }

  lemma RolledBack(v: Variant, fs: Fs)
    requires Tables(fs) && Consistent(fs) && CreateFile(fs).ret != -1
    ensures var d := Delete(v, CreateFile(fs).fs, CreateFile(fs).ret).fs;
            FilesSame(fs, d) && RootEntries(d) == RootEntries(fs) && d.files == fs.files && d.fileTaken == fs.fileTaken
  {
    hide InodeShape, BlockShape, Ref, Cell, CreateFile, Delete, Owned, RootEntries;
    RollbackRestores(v, fs);
    OwnedRoot(fs);
    var d := Delete(v, CreateFile(fs).fs, CreateFile(fs).ret).fs;
    assert SameInode(fs, d, ROOT_DIR_INUM);
    SameRootEntries(fs, d);
    forall m | Live(fs, m) ensures IsFile(d, m) <==> IsFile(fs, m) {
      assert SameInode(fs, d, m);
    }
  }

  lemma LookupIsFile(fs: Fs, path: string)
    requires Tables(fs) && Consistent(fs)
    ensures Lookup(fs, path) >= 0 ==> ValidPath(path) && IsFile(fs, Lookup(fs, path))
    ensures Lookup(fs, path) >= -1
  {
    hide InodeShape, BlockShape, Owned, HandlesOk, RootEntries;
    if ValidPath(path) {
      var i := FindEntry(RootEntries(fs), path[1..]);
      assert i != -1 ==> Used(RootEntries(fs)[i]);
    }
  }

  /**
   * tfs_open, by path, in either variant: a file found is emptied if asked and opened at its end or its start, marked
   * append if asked, a file not found is made if asked and possible, anything else fails and changes nothing; in every
   * case no other file changes.
   */
  lemma OpenEither(v: Variant, fs: Fs, path: string, flags: Flags)
    requires Tables(fs) && Consistent(fs)
    ensures var r := Open(v, fs, path, flags);
            var n := Lookup(fs, path);
            if n >= 0 then
              && IsFile(fs, n) && HandleOn(fs, r, n, if flags.append && !flags.truncate then fs.inodes[n].size else 0, flags.append)
              && (if flags.truncate then Reads(r.fs, n, []) else IsFile(r.fs, n) && SameInode(fs, r.fs, n))
              && OtherFilesSame(fs, r.fs, n) && NoOtherFiles(fs, r.fs, n)
              && RootEntries(r.fs) == RootEntries(fs)
            else if ValidPath(path) && flags.create && CanCreate(fs) then
              var m := FirstFree(fs.inodeTaken);
              && HandleOn(fs, r, m, 0, false) && !IsFile(fs, m) && Reads(r.fs, m, [])
              && OtherFilesSame(fs, r.fs, m) && NoOtherFiles(fs, r.fs, m)
              && RootEntries(r.fs) == RootEntries(fs)[FirstUnused(RootEntries(fs)) := DirEntry(StoredName(path[1..]), m)]
            else
              && r.ret == -1 && r.fs.files == fs.files && r.fs.fileTaken == fs.fileTaken
              && FilesSame(fs, r.fs) && RootEntries(r.fs) == RootEntries(fs)
  {
    hide InodeShape, BlockShape, Owned, RootEntries, HandlesOk, EntriesOk, Sized, Lookup, OpenExisting, OpenNew, SameInode, Contents, CanCreate,
      HandleOn, Reads, Inside;
    LookupIsFile(fs, path);
    var n := Lookup(fs, path);
    if n >= 0 {
      OpenExistingLaw(v, fs, n, flags);
    } else if ValidPath(path) && flags.create {
      OpenNewLaw(v, fs, path[1..]);
    } else {
      SameFilesAll(fs);
    }
  }

  /** The same with the repaired lines, in the terms of contents. */
  lemma OpenLaw(fs: Fs, path: string, flags: Flags)
    requires Tables(fs) && Good(fs)
    ensures var r := Open(Repaired, fs, path, flags);
            var n := Lookup(fs, path);
            if n >= 0 then
              IsFile(fs, n) && Sized(fs, n) &&
              var text := if flags.truncate then [] else Contents(fs, n);
              && HandleOn(fs, r, n, if flags.append then |text| else 0, flags.append)
              && Reads(r.fs, n, text) && OtherFilesSame(fs, r.fs, n) && NoOtherFiles(fs, r.fs, n)
              && RootEntries(r.fs) == RootEntries(fs)
            else if ValidPath(path) && flags.create && CanCreate(fs) then
              var m := FirstFree(fs.inodeTaken);
              && HandleOn(fs, r, m, 0, false) && !IsFile(fs, m) && Reads(r.fs, m, [])
              && OtherFilesSame(fs, r.fs, m) && NoOtherFiles(fs, r.fs, m)
              && RootEntries(r.fs) == RootEntries(fs)[FirstUnused(RootEntries(fs)) := DirEntry(StoredName(path[1..]), m)]
            else
              && r.ret == -1 && r.fs.files == fs.files && r.fs.fileTaken == fs.fileTaken
              && FilesSame(fs, r.fs) && RootEntries(r.fs) == RootEntries(fs)
  {
    hide InodeShape, BlockShape, Consistent, RootEntries, Sized, Lookup, Open, SameInode, CanCreate, HandleOn, Inside, OtherFilesSame,
      NoOtherFiles, FilesSame;
    GoodIsConsistent(fs);
    OpenEither(Repaired, fs, path, flags);
    var n := Lookup(fs, path);
    if n >= 0 && !flags.truncate {
      var g := Open(Repaired, fs, path, flags).fs;
      SameInodeSameContents(fs, g, n);
    }
  }

  lemma SameFilesAll(fs: Fs)
    requires Tables(fs)
    ensures FilesSame(fs, fs)
  {
    hide InodeShape, BlockShape;
  }

  /** A handle given out inside a file whose other handles are inside it too. */
  lemma HandleGood(fs: Fs, r: Result, n: int, off: nat, append: bool, text: seq<byte>)
    requires Tables(fs) && Good(fs) && Tables(r.fs) && Consistent(r.fs)
    requires HandleOn(fs, r, n, off, append) && Reads(r.fs, n, text) && off <= |text|
    requires OtherFilesSame(fs, r.fs, n) && NoOtherFiles(fs, r.fs, n)
    requires forall h {:trigger fs.fileTaken[h]} :: ValidHandle(h) && fs.fileTaken[h] && fs.files[h].inumber == n ==> fs.files[h].offset <= |text|
    ensures Good(r.fs)
  {
    hide InodeShape, BlockShape, Consistent, Reads, Sized, AllSized, Inside, OtherFilesSame, NoOtherFiles;
    ReadsSize(r.fs, n, text);
    GoodAfter(fs, r.fs, n);
  }

  lemma SameGood(fs: Fs, g: Fs)
    requires Tables(fs) && Good(fs) && Tables(g) && Consistent(g)
    requires FilesSame(fs, g) && g.files == fs.files && g.fileTaken == fs.fileTaken
    ensures Good(g)
  {
    hide InodeShape, BlockShape, Owned, EntriesOk, Sized, AllSized, OtherFilesSame, NoOtherFiles;
    GoodAfter(fs, g, -1);
  }

  /** Handles on a file that is there stand inside what it reads after the call, those on one that was not do not exist. */
  lemma HandlesInside(fs: Fs, n: int)
    requires Tables(fs) && Good(fs)
    ensures forall h {:trigger fs.fileTaken[h]} :: ValidHandle(h) && fs.fileTaken[h] && fs.files[h].inumber == n ==>
              IsFile(fs, n) && Sized(fs, n) && fs.files[h].offset <= |Contents(fs, n)| && (AtStart(fs, n) ==> fs.files[h].offset == 0)
  {
    hide InodeShape, BlockShape, Owned, EntriesOk, Sized;
  }

  lemma OpenGood(fs: Fs, path: string, flags: Flags)
    requires Tables(fs) && Good(fs) && Rules(fs, OpOpen(path, flags))
    ensures Good(Open(Repaired, fs, path, flags).fs)
  {
    hide InodeShape, BlockShape, Good, Open, Lookup, CanCreate, HandleOn, Reads, OtherFilesSame, NoOtherFiles, FilesSame, Consistent,
      RootEntries, AtStart, Contents;
    GoodIsConsistent(fs);
    OpenConsistent(Repaired, fs, path, flags);
    OpenLaw(fs, path, flags);
    LookupIsFile(fs, path);
    var r := Open(Repaired, fs, path, flags);
    var n, m := Lookup(fs, path), FirstFree(fs.inodeTaken);
    if n >= 0 {
      var text := if flags.truncate then [] else Contents(fs, n);
      HandlesInside(fs, n);
      HandleGood(fs, r, n, if flags.append then |text| else 0, flags.append, text);
    } else if ValidPath(path) && flags.create && CanCreate(fs) {
      HandlesInside(fs, m);
      HandleGood(fs, r, m, 0, false, []);
    } else {
      SameGood(fs, r.fs);
    }
  }

  /** The rule about truncation is exact: any other truncation leaves a handle past the end of its file. */
  lemma OpenGoodExact(fs: Fs, path: string, flags: Flags)
    requires Tables(fs) && Good(fs)
    ensures Good(Open(Repaired, fs, path, flags).fs) <==> Rules(fs, OpOpen(path, flags))
  {
    hide InodeShape, BlockShape, Open, Lookup, CanCreate, OtherFilesSame, NoOtherFiles, FilesSame, Consistent, RootEntries, AllSized, Sized;
    if Rules(fs, OpOpen(path, flags)) {
      OpenGood(fs, path, flags);
    } else {
      var n := Lookup(fs, path);
      var h :| 0 <= h < MAX_OPEN_FILES && fs.fileTaken[h] && fs.files[h].inumber == n && fs.files[h].offset != 0;
      OpenLaw(fs, path, flags);
      var g := Open(Repaired, fs, path, flags).fs;
      ReadsSize(g, n, []);
      assert g.fileTaken[h] && g.files[h] == fs.files[h];
    }
  }

  lemma GoodIsConsistent(fs: Fs)
    requires Tables(fs) && Good(fs)
    ensures Consistent(fs)
  {
    hide Consistent, AllSized, Inside;
  }

  lemma ReadsSize(g: Fs, n: int, text: seq<byte>)
    requires Tables(g) && Reads(g, n, text)
    ensures g.inodes[n].size == |text| && Sized(g, n)
  {
    hide InodeShape, BlockShape;
  }

  /* ----- runs ----- */

  predicate RulesRun(fs: Fs, ops: seq<Op>)
    requires Tables(fs)
    decreases |ops|
  {
    ops == [] || (Rules(fs, ops[0]) && RulesRun(Step(Repaired, fs, ops[0]), ops[1..]))
  }

  lemma InitialGood()
    ensures Good(Initial())
  {
    hide Owned, EntriesOk, HandlesOk, BlockShape;
    InitialConsistent();
    assert forall m :: !IsFile(Initial(), m);
  }

  /** With the repaired lines, in every state a run within the rules reaches, the laws hold for every open handle. */
  lemma {:induction false} RunsStayGood(fs: Fs, ops: seq<Op>)
    requires Tables(fs) && Good(fs) && RulesRun(fs, ops)
    ensures Good(Run(Repaired, fs, ops))
    decreases |ops|
  {
    hide InodeShape, BlockShape, Good, Open, Close, Write, Read;
    if ops != [] {
      match ops[0] {
        case OpOpen(path, flags) => OpenGood(fs, path, flags);
        case OpClose(h) => CloseGood(fs, h);
        case OpWrite(h, buf) => WriteGood(fs, h, buf);
        case OpRead(h, len) => ReadGood(fs, h, len);
      }
      RunsStayGood(Step(Repaired, fs, ops[0]), ops[1..]);
    }
  }
}
