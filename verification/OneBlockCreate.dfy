/** Creating a file: the directory as a map, its capacity, and the rollback when it is full. */
module OneBlockCreate {
  import opened Bytes
  import opened AllocationTable
  import opened Disk
  import opened Directory
  import opened OneBlockState
  import opened OneBlockInvariant
  import opened OneBlockRefinement
  import opened OneBlockSteps
  import Spec = OneBlockSpec

  ghost predicate NamesApart(entries: seq<DirEntry>) {
    forall i, j {:trigger InUse(entries, i), InUse(entries, j)} ::
      InUse(entries, i) && InUse(entries, j) && i != j ==> entries[i].name != entries[j].name
  }

  /** A directory of distinct names has fewer names than entries exactly while it has an unused entry. */
  lemma {:induction false} NamesCount(entries: seq<DirEntry>)
    requires NamesApart(entries)
    ensures |Names(entries)| <= |entries|
    ensures |Names(entries)| < |entries| <==> FirstUnused(entries) != -1
    decreases |entries|
  {
    if entries != [] {
      var k := |entries| - 1;
      var init := entries[..k];
      forall i ensures InUse(init, i) <==> InUse(entries, i) && i != k {
      }
      NamesCount(init);
      if Used(entries[k]) {
        assert InUse(entries, k);
        assert Names(entries) == Names(init) + {entries[k].name};
        assert entries[k].name !in Names(init);
      } else {
        assert Names(entries) == Names(init);
      }
    }
  }

  /** The map has room for another name exactly while the directory has an unused entry. */
  lemma RoomAgrees(fs: Fs)
    requires Tables(fs) && DirectoryOk(fs)
    ensures |AbsFiles(fs)| < MAX_DIR_ENTRIES <==> FirstUnused(RootEntries(fs)) != -1
  {
    hide BlockShape, RootEntries, FileBytes, InumberOf, Names;
    NamesCount(RootEntries(fs));
    assert AbsFiles(fs).Keys == Names(RootEntries(fs));
  }

  /* ----- a full directory ----- */

  /** The rollback: only an inode nobody uses has been written. */
  lemma RollbackShape(fs: Fs, name: string)
    requires Tables(fs) && Inv(fs) && (FirstUnused(RootEntries(fs)) == -1 || name == "")
    ensures var n := FirstFree(fs.inodeTaken);
            0 < n && OpenNew(fs, name) == Result(fs.(inodes := fs.inodes[n := Inode(File, 0, -1)]), -1)
  {
    hide BlockShape, DirectoryOk, CountOk, BlocksOk;
    NeverFull(fs);
    var n := FirstFree(fs.inodeTaken);
    assert fs.inodeTaken[n := true][n := false] == fs.inodeTaken;
  }

  /** When the directory is full, or the name empty, the same inodes and blocks are TAKEN as before, and no file has changed. */
  lemma RollbackRestores(fs: Fs, name: string)
    requires Tables(fs) && Inv(fs) && (FirstUnused(RootEntries(fs)) == -1 || name == "")
    ensures var r := OpenNew(fs, name);
            && r.ret == -1 && r.fs.inodeTaken == fs.inodeTaken && r.fs.blockTaken == fs.blockTaken
            && Inv(r.fs) && Abs(r.fs) == Abs(fs)
  {
    hide BlockShape, DirectoryOk, RootEntries, OpenNew, BlocksOk, CountOk, NameOf, Names, InumberOf, FileBytes;
    var g := OpenNew(fs, name).fs;
    RollbackShape(fs, name);
    UnusedInode(fs, FirstFree(fs.inodeTaken));
    FilesSame(fs, g);
    assert AbsHandles(g) == AbsHandles(fs);
  }

  /** Writing an inode that is not taken keeps everything. */
  lemma UnusedInode(fs: Fs, n: int)
    requires Tables(fs) && Inv(fs) && 0 < n < INODE_TABLE_SIZE && !fs.inodeTaken[n]
    ensures var g := fs.(inodes := fs.inodes[n := Inode(File, 0, -1)]);
            && Tables(g) && Inv(g) && RootEntries(g) == RootEntries(fs)
            && (forall m :: LiveFile(g, m) <==> LiveFile(fs, m))
            && forall m :: LiveFile(fs, m) ==> FileBytes(g, m) == FileBytes(fs, m)
  {
    hide BlockShape;
    var g := fs.(inodes := fs.inodes[n := Inode(File, 0, -1)]);
    assert RootEntries(g) == RootEntries(fs);
    forall m ensures LiveFile(g, m) <==> LiveFile(fs, m) {
    }
    forall m, b ensures Owns(g, m, b) <==> Owns(fs, m, b) {
    }
    forall b | ValidBlock(b) && g.blockTaken[b] && b != RootBlock(g) ensures exists m :: Owns(g, m, b) {
      assert fs.blockTaken[b];
      var m :| Owns(fs, m, b);
      assert Owns(g, m, b);
    }
    assert RootOk(g) && DirectoryOk(g) && BlocksOk(g) && HandlesOk(g);
  }

  /* ----- a new entry ----- */

  /** The state with the new inode and its entry, before the file is opened. */
  function Created(fs: Fs, name: string): (r: Fs)
    requires Tables(fs)
    ensures Tables(r)
  {
    var c := CreateFile(fs);
    AddToRoot(c.fs, c.ret, name).fs
  }

  lemma CreatedShape(fs: Fs, name: string)
    requires Tables(fs) && Inv(fs) && FirstUnused(RootEntries(fs)) != -1 && name != ""
    ensures var n := FirstFree(fs.inodeTaken);
            var i := FirstUnused(RootEntries(fs));
            var g := Created(fs, name);
            && 0 < n && CreateFile(fs).ret == n && AddToRoot(CreateFile(fs).fs, n, name).ret == 0
            && RootEntries(g) == RootEntries(fs)[i := DirEntry(StoredName(name), n)]
            && g == fs.(inodes := fs.inodes[n := Inode(File, 0, -1)], inodeTaken := fs.inodeTaken[n := true],
                        blocks := fs.blocks[RootBlock(fs) := Directory(RootEntries(g))])
            && OpenNew(fs, name) == AddOpen(g, n, 0)
  {
    hide BlockShape, DirectoryOk, CountOk, BlocksOk;
    NeverFull(fs);
  }

  lemma CreatedOwned(fs: Fs, name: string)
    requires Tables(fs) && Inv(fs) && FirstUnused(RootEntries(fs)) != -1 && name != ""
    ensures var g := Created(fs, name);
            && RootOk(g) && BlocksOk(g) && CountOk(g) && HandlesOk(g) && RootBlock(g) == RootBlock(fs)
            && (forall m :: LiveFile(g, m) <==> LiveFile(fs, m) || m == FirstFree(fs.inodeTaken))
            && forall m :: LiveFile(fs, m) ==> FileBytes(g, m) == FileBytes(fs, m)
  {
    hide BlockShape, DirectoryOk, RootEntries, Created, BlocksOk, FileBytes;
    CreatedShape(fs, name);
    CreatedBlocks(fs, name);
    forall m | LiveFile(fs, m) ensures FileBytes(Created(fs, name), m) == FileBytes(fs, m) {
      CreatedBytes(fs, name, m);
    }
  }

  lemma CreatedBlocks(fs: Fs, name: string)
    requires Tables(fs) && Inv(fs) && FirstUnused(RootEntries(fs)) != -1 && name != ""
    ensures BlocksOk(Created(fs, name))
  {
    hide BlockShape, DirectoryOk, RootEntries, Created, HandlesOk, CountOk;
    var g := Created(fs, name);
    CreatedShape(fs, name);
    forall m, b ensures Owns(g, m, b) <==> Owns(fs, m, b) {
    }
    forall b | ValidBlock(b) && g.blockTaken[b] && b != RootBlock(g) ensures exists m :: Owns(g, m, b) {
      assert fs.blockTaken[b];
      var m :| Owns(fs, m, b);
      assert Owns(g, m, b);
    }
  }

  lemma CreatedBytes(fs: Fs, name: string, m: int)
    requires Tables(fs) && Inv(fs) && FirstUnused(RootEntries(fs)) != -1 && name != "" && LiveFile(fs, m)
    ensures FileBytes(Created(fs, name), m) == FileBytes(fs, m)
  {
    hide BlockShape, DirectoryOk, RootEntries, Created, HandlesOk, CountOk, BytesOf;
    CreatedShape(fs, name);
    assert fs.inodes[m].size > 0 ==> Owns(fs, m, fs.inodes[m].block);
  }

  /** The directory stays a map if and only if the name, as stored, was not in it. */
  lemma CreatedDirectoryExact(fs: Fs, name: string)
    requires Tables(fs) && Inv(fs) && FirstUnused(RootEntries(fs)) != -1 && name != ""
    ensures DirectoryOk(Created(fs, name)) <==> StoredName(name) !in Names(RootEntries(fs))
  {
    hide BlockShape, RootEntries, Created, BlocksOk, HandlesOk, CountOk;
    var g := Created(fs, name);
    CreatedShape(fs, name);
    CreatedOwned(fs, name);
    var entries, now := RootEntries(fs), RootEntries(g);
    var i, n := FirstUnused(entries), FirstFree(fs.inodeTaken);
    forall j ensures InUse(now, j) <==> InUse(entries, j) || j == i {
    }
    if StoredName(name) in Names(entries) {
      var j :| 0 <= j < |entries| && InUse(entries, j) && entries[j].name == StoredName(name);
      assert InUse(now, j) && InUse(now, i) && now[j].name == now[i].name;
    } else {
      assert Lists(now, i, n);
      forall m | LiveFile(g, m) ensures exists j :: Lists(now, j, m) {
        if m != n {
          var j :| Lists(entries, j, m);
          assert Lists(now, j, m);
        }
      }
      forall j, k | InUse(now, j) && InUse(now, k) && j != k ensures now[j].name != now[k].name && now[j].inumber != now[k].inumber {
        assert j != i ==> InUse(entries, j) && LiveFile(fs, entries[j].inumber);
        assert k != i ==> InUse(entries, k) && LiveFile(fs, entries[k].inumber);
      }
      assert DirectoryOk(g);
    }
  }

  /** A name in the directory does not change its inode; the new one is found if and only if it was stored whole. */
  lemma CreatedLookup(fs: Fs, name: string, asked: string)
    requires Tables(fs) && Inv(fs) && FirstUnused(RootEntries(fs)) != -1 && name != "" && InumberOf(RootEntries(fs), name) == -1
    ensures var found := InumberOf(RootEntries(Created(fs, name)), asked);
            && (asked in Names(RootEntries(fs)) && asked != StoredName(name) ==> found == InumberOf(RootEntries(fs), asked))
            && (asked == name ==> (found != -1 <==> |name| < MAX_FILE_NAME))
            && (asked == name && found != -1 ==> found == FirstFree(fs.inodeTaken))
            && (asked !in Names(RootEntries(fs)) && asked != StoredName(name) ==> found == -1)
  {
    hide BlockShape, RootEntries, Created, BlocksOk, HandlesOk, CountOk;
    CreatedShape(fs, name);
    NameFound(fs, asked);
    var entries, now := RootEntries(fs), RootEntries(Created(fs, name));
    var i, j, k := FirstUnused(entries), FindEntry(entries, asked), FindEntry(now, asked);
    forall l | 0 <= l < |now| && l != i ensures now[l] == entries[l] {
    }
    assert now[i] == DirEntry(StoredName(name), FirstFree(fs.inodeTaken));
    assert j != -1 ==> InUse(entries, j);
    if k != -1 && k != i {
      assert InUse(entries, k);
    }
  }

  lemma CreatedRefines(fs: Fs, name: string)
    requires Tables(fs) && Inv(fs) && FirstUnused(RootEntries(fs)) != -1
    requires 0 < |name| < MAX_FILE_NAME && name !in Names(RootEntries(fs))
    ensures var g := Created(fs, name);
            && Inv(g) && LiveFile(g, FirstFree(fs.inodeTaken)) && g.inodes[FirstFree(fs.inodeTaken)].size == 0
            && NameOf(RootEntries(g), FirstFree(fs.inodeTaken)) == name
            && AbsFiles(g) == AbsFiles(fs)[name := []] && AbsHandles(g) == AbsHandles(fs) && g.closing == fs.closing
  {
    hide BlockShape, RootEntries, Created, BlocksOk, DirectoryOk, CountOk, HandlesOk, Names, InumberOf, FileBytes, NameOf, AbsFiles, AbsHandles;
    var g := Created(fs, name);
    CreatedShape(fs, name);
    CreatedOwned(fs, name);
    CreatedDirectoryExact(fs, name);
    var i := FirstUnused(RootEntries(fs));
    assert InUse(RootEntries(g), i);
    EntryFound(g, i);
    CreatedFiles(fs, name);
    CreatedHandles(fs, name);
  }

  /** The names after the creation, and what is found under each. */
  lemma CreatedNames(fs: Fs, name: string, asked: string)
    requires Tables(fs) && Inv(fs) && FirstUnused(RootEntries(fs)) != -1
    requires 0 < |name| < MAX_FILE_NAME && name !in Names(RootEntries(fs)) && DirectoryOk(Created(fs, name))
    ensures var now := RootEntries(Created(fs, name));
            && (asked in Names(now) <==> asked in Names(RootEntries(fs)) || asked == name)
            && (asked in Names(RootEntries(fs)) ==> InumberOf(now, asked) == InumberOf(RootEntries(fs), asked))
            && InumberOf(now, name) == FirstFree(fs.inodeTaken)
  {
    hide BlockShape, RootEntries, Created, BlocksOk, DirectoryOk, CountOk, HandlesOk, Names, InumberOf, NameOf;
    CreatedShape(fs, name);
    NameFound(fs, name);
    NameFound(fs, asked);
    NameFound(Created(fs, name), asked);
    CreatedLookup(fs, name, asked);
    CreatedLookup(fs, name, name);
  }

  lemma CreatedFiles(fs: Fs, name: string)
    requires Tables(fs) && Inv(fs) && FirstUnused(RootEntries(fs)) != -1
    requires 0 < |name| < MAX_FILE_NAME && name !in Names(RootEntries(fs)) && DirectoryOk(Created(fs, name))
    ensures AbsFiles(Created(fs, name)) == AbsFiles(fs)[name := []]
  {
    hide BlockShape, RootEntries, Created, BlocksOk, DirectoryOk, CountOk, HandlesOk, Names, InumberOf, NameOf, FileBytes;
    var g := Created(fs, name);
    CreatedNames(fs, name, name);
    NewFileEmpty(fs, name);
    forall asked ensures asked in Names(RootEntries(g)) <==> asked in Names(RootEntries(fs)) || asked == name {
      CreatedNames(fs, name, asked);
    }
    forall asked | asked in Names(RootEntries(g)) ensures AbsFiles(g)[asked] == AbsFiles(fs)[name := []][asked] {
      CreatedNames(fs, name, asked);
      NameFound(fs, asked);
    }
  }

  lemma NewFileEmpty(fs: Fs, name: string)
    requires Tables(fs) && Inv(fs) && FirstUnused(RootEntries(fs)) != -1 && name != ""
    ensures FileBytes(Created(fs, name), FirstFree(fs.inodeTaken)) == []
    ensures forall m :: LiveFile(fs, m) ==> FileBytes(Created(fs, name), m) == FileBytes(fs, m)
  {
    hide BlockShape, RootEntries, Created, BlocksOk, DirectoryOk, CountOk, HandlesOk;
    CreatedShape(fs, name);
    CreatedOwned(fs, name);
  }

  lemma CreatedHandles(fs: Fs, name: string)
    requires Tables(fs) && Inv(fs) && FirstUnused(RootEntries(fs)) != -1
    requires 0 < |name| < MAX_FILE_NAME && name !in Names(RootEntries(fs)) && DirectoryOk(Created(fs, name))
    ensures AbsHandles(Created(fs, name)) == AbsHandles(fs)
  {
    hide BlockShape, RootEntries, Created, BlocksOk, DirectoryOk, CountOk, Names, InumberOf, NameOf;
    var g := Created(fs, name);
    CreatedShape(fs, name);
    NameFound(fs, name);
    forall h | 0 <= h < MAX_OPEN_FILES && fs.fileTaken[h]
      ensures NameOf(RootEntries(g), fs.files[h].inumber) == NameOf(RootEntries(fs), fs.files[h].inumber)
    {
      var m := fs.files[h].inumber;
      var was := NameOf(RootEntries(fs), m);
      FileNamed(fs, m);
      CreatedLookup(fs, name, was);
      NameFound(g, was);
    }
  }
}
