/** With the repaired lines the multi-block file system refines the map of IndexedMapSpec: every run is a run of the map. */
module IndexedMap {
  import opened Bytes
  import opened AllocationTable
  import opened Disk
  import opened HandleTable
  import opened Directory
  import opened IndexedState
  import opened IndexedOwnership
  import opened IndexedWriteLaw
  import opened IndexedReadLaw
  import opened IndexedOps
  import opened IndexedRuns
  import opened IndexedOpenLaw
  import Spec = IndexedMapSpec

  /* ----- the abstraction ----- */

  function FileSet(fs: Fs): set<int>
    requires Tables(fs)
  {
    set n | 0 <= n < INODE_TABLE_SIZE && IsFile(fs, n)
  }

  function Text(fs: Fs, n: int): seq<byte>
    requires Tables(fs)
  {
    if IsFile(fs, n) && Sized(fs, n) then Contents(fs, n) else []
  }

  ghost function AbsFiles(fs: Fs): map<string, seq<byte>>
    requires Tables(fs)
  {
    map name | name in Names(RootEntries(fs)) :: Text(fs, InumberOf(RootEntries(fs), name))
  }

  ghost function AbsHandles(fs: Fs): map<int, Spec.Handle>
    requires Tables(fs)
  {
    map h | 0 <= h < MAX_OPEN_FILES && fs.fileTaken[h] ::
      Spec.Handle(NameOf(RootEntries(fs), fs.files[h].inumber), fs.files[h].offset, fs.files[h].append)
  }

  ghost function Abs(fs: Fs): Spec.Spec
    requires Tables(fs)
  {
    Spec.Spec(AbsFiles(fs), AbsHandles(fs))
  }

  /** A state in which the laws hold and the directory is a map onto the files. */
  ghost predicate MapOk(fs: Fs)
    requires Tables(fs)
  {
    Good(fs) && DirOk(RootEntries(fs), FileSet(fs))
  }

  /** The largest number of bytes, up to m, for which there are blocks at offset o of inode n. */
  function Reach(fs: Fs, n: int, o: nat, m: nat): (k: nat)
    requires Tables(fs) && ValidInumber(n) && o + m <= MAX_SIZE
    ensures k <= m && Needed(fs, n, o, k) <= CountFree(fs.blockTaken)
    ensures forall j: nat :: k < j <= m ==> Needed(fs, n, o, j) > CountFree(fs.blockTaken)
    decreases m
  {
    if m == 0 || Needed(fs, n, o, m) <= CountFree(fs.blockTaken) then m else Reach(fs, n, o, m - 1)
  }

  /** The room the tables have for a call; for a write, from its offset on, whatever is to be written. */
  function RoomFor(fs: Fs, op: Op): Spec.Room
    requires Tables(fs)
  {
    Spec.Room(CanCreate(fs), if op.OpWrite? then RoomBehind(fs, op.h) else 0)
  }

  function RoomBehind(fs: Fs, h: int): nat
    requires Tables(fs)
  {
    if ValidHandle(h) && ValidInumber(fs.files[h].inumber) && WriteOffset(fs, h) <= MAX_SIZE
    then Reach(fs, fs.files[h].inumber, WriteOffset(fs, h), MAX_SIZE - WriteOffset(fs, h))
    else 0
  }

  /* ----- frames ----- */

  lemma TextSame(fs: Fs, g: Fs, n: int)
    requires Tables(fs) && Tables(g) && IsFile(fs, n) && IsFile(g, n) && SameInode(fs, g, n) && Sized(fs, n)
    ensures Text(g, n) == Text(fs, n)
  {
    hide InodeShape, BlockShape, Sized;
    SameInodeSameContents(fs, g, n);
  }

  lemma TextReads(g: Fs, n: int, text: seq<byte>)
    requires Tables(g) && Reads(g, n, text)
    ensures Text(g, n) == text
  {
  }

  /** The same files; only file n may read otherwise. */
  lemma FilesFramed(fs: Fs, g: Fs, n: int)
    requires Tables(fs) && Tables(g) && MapOk(fs) && RootEntries(g) == RootEntries(fs)
    requires OtherFilesSame(fs, g, n) && NoOtherFiles(fs, g, n) && (IsFile(fs, n) <==> IsFile(g, n))
    ensures FileSet(g) == FileSet(fs)
    ensures AbsFiles(g) == if IsFile(fs, n) then AbsFiles(fs)[NameOf(RootEntries(fs), n) := Text(g, n)] else AbsFiles(fs)
  {
    hide InodeShape, BlockShape, Owned, HandlesOk, EntriesOk, Sized, RootEntries, SameInode, Text, Names, NameOf, InumberOf, DirOk, Inside;
    var entries := RootEntries(fs);
    if IsFile(fs, n) {
      FileListed(entries, FileSet(fs), n);
    }
    forall name | name in Names(entries)
      ensures AbsFiles(g)[name] == (if IsFile(fs, n) then AbsFiles(fs)[NameOf(entries, n) := Text(g, n)] else AbsFiles(fs))[name]
    {
      ListedName(entries, FileSet(fs), name);
      var m := InumberOf(entries, name);
      if m != n {
        TextSame(fs, g, m);
      }
    }
  }

  /** A handle of a good state, in the terms of the map. */
  lemma HandleInMap(fs: Fs, h: int)
    requires Tables(fs) && MapOk(fs) && ValidHandle(h) && fs.fileTaken[h]
    ensures var n := fs.files[h].inumber;
            var name := NameOf(RootEntries(fs), n);
            && OpenOn(fs, h, n) && Owned(fs) && h in AbsHandles(fs)
            && AbsHandles(fs)[h] == Spec.Handle(name, fs.files[h].offset, fs.files[h].append)
            && name in AbsFiles(fs) && AbsFiles(fs)[name] == Text(fs, n) == Contents(fs, n)
            && fs.files[h].offset <= |Contents(fs, n)|
  {
    hide InodeShape, BlockShape, Owned, EntriesOk, Sized, RootEntries, Names, NameOf, InumberOf, DirOk;
    LawsApply(fs, h);
    FileListed(RootEntries(fs), FileSet(fs), fs.files[h].inumber);
  }

  lemma AbsWellFormed(fs: Fs)
    requires Tables(fs) && MapOk(fs)
    ensures Spec.WellFormed(Abs(fs))
  {
    hide InodeShape, BlockShape, Good, DirOk, RootEntries, Text, AbsFiles;
    forall h | h in AbsHandles(fs) ensures AbsHandles(fs)[h].name in AbsFiles(fs) && AbsHandles(fs)[h].offset <= |AbsFiles(fs)[AbsHandles(fs)[h].name]| {
      HandleInMap(fs, h);
    }
  }

  /** Only the offset of handle h changes. */
  lemma HandlesMoved(fs: Fs, g: Fs, h: int, off: nat)
    requires Tables(fs) && Tables(g) && RootEntries(g) == RootEntries(fs) && g.fileTaken == fs.fileTaken
    requires ValidHandle(h) && fs.fileTaken[h] && g.files == fs.files[h := fs.files[h].(offset := off)]
    ensures AbsHandles(g) ==
            AbsHandles(fs)[h := Spec.Handle(NameOf(RootEntries(fs), fs.files[h].inumber), off, fs.files[h].append)]
  {
    hide InodeShape, BlockShape, RootEntries, NameOf;
  }

  /* ----- tfs_write ----- */

  lemma WriteLeavesRoot(fs: Fs, h: int, buf: seq<byte>)
    requires Tables(fs) && Good(fs) && ValidHandle(h) && fs.fileTaken[h]
    ensures var g := Write(Repaired, fs, h, buf).fs;
            var n := fs.files[h].inumber;
            && RootEntries(g) == RootEntries(fs) && OtherFilesSame(fs, g, n) && NoOtherFiles(fs, g, n) && IsFile(fs, n) && IsFile(g, n)
  {
    hide InodeShape, BlockShape, Owned, EntriesOk, Sized, RootEntries, Write, Cell;
    var n := fs.files[h].inumber;
    var g := Write(Repaired, fs, h, buf).fs;
    LawsApply(fs, h);
    WriteKeepsOthers(Repaired, fs, h, n, buf);
    OwnedRoot(fs);
    assert SameInode(fs, g, ROOT_DIR_INUM);
    SameRootEntries(fs, g);
    FilesAfterWrite(fs, g, n);
  }

  lemma WriteMaps(fs: Fs, h: int, buf: seq<byte>)
    requires Tables(fs) && MapOk(fs) && ValidHandle(h) && fs.fileTaken[h] && |buf| % 0x1_0000_0000 < 0x8000_0000
    ensures Spec.WellFormed(Abs(fs))
    ensures var w := Write(Repaired, fs, h, buf);
            MapOk(w.fs) && Spec.Write(Abs(fs), h, buf, RoomFor(fs, OpWrite(h, buf))) == Spec.Outcome(Abs(w.fs), Spec.Reply(w.ret, []))
  {
    hide InodeShape, BlockShape, Good, Owned, RootEntries, Write, Cell, Sized, IsFile, Contents, Splice, NameOf, InumberOf, Names, DirOk, AbsFiles, AbsHandles,
      SameInode, CanCreate, Text, AsInt32, FileSet;
    AbsWellFormed(fs);
    HandleInMap(fs, h);
    WriteEffect(fs, h, buf);
    WriteFillsRoom(fs, h, buf);
  }

  /** A write stops where its bytes or the room end, and nowhere else. */
  lemma WriteFillsRoom(fs: Fs, h: int, buf: seq<byte>)
    requires Tables(fs) && MapOk(fs) && ValidHandle(h) && fs.fileTaken[h] && |buf| % 0x1_0000_0000 < 0x8000_0000
    ensures Write(Repaired, fs, h, buf).ret == Min(|buf|, RoomFor(fs, OpWrite(h, buf)).bytes)
  {
    hide InodeShape, BlockShape, Owned, RootEntries, Write, Sized, DirOk, EntriesOk, HandlesOk, Needed, CanCreate, FileSet, Reach;
    LawsApply(fs, h);
    OpenOnFile(fs, h, fs.files[h].inumber);
    var n, o := fs.files[h].inumber, WriteOffset(fs, h);
    RepairedWriteSplices(fs, h, n, buf);
    RepairedWriteAmount(fs, h, n, buf);
    var k, room := Min(|buf|, RoomBehind(fs, h)), RoomBehind(fs, h);
    var ret := Write(Repaired, fs, h, buf).ret;
    NeededGrows(fs, n, o, k, room);
    assert k <= ret;
    assert Needed(fs, n, o, ret) <= CountFree(fs.blockTaken);
  }

  lemma WriteEffect(fs: Fs, h: int, buf: seq<byte>)
    requires Tables(fs) && MapOk(fs) && ValidHandle(h) && fs.fileTaken[h] && |buf| % 0x1_0000_0000 < 0x8000_0000
    ensures var w := Write(Repaired, fs, h, buf);
            var n := fs.files[h].inumber;
            var name := NameOf(RootEntries(fs), n);
            var o := WriteOffset(fs, h);
            && 0 <= w.ret <= |buf| && OpenOn(fs, h, n) && o <= |Contents(fs, n)| && MapOk(w.fs)
            && o == (if fs.files[h].append then |Contents(fs, n)| else fs.files[h].offset)
            && AbsFiles(w.fs) == AbsFiles(fs)[name := Splice(Contents(fs, n), o, buf[..w.ret])]
            && AbsHandles(w.fs) == AbsHandles(fs)[h := Spec.Handle(name, o + w.ret, fs.files[h].append)]
  {
    hide InodeShape, BlockShape, Owned, RootEntries, Write, Cell, Sized, NameOf, InumberOf, Names, DirOk, AbsFiles, AbsHandles, SameInode,
      EntriesOk, HandlesOk, OtherFilesSame, NoOtherFiles, FileSet;
    var n := fs.files[h].inumber;
    LawsApply(fs, h);
    OpenOnFile(fs, h, n);
    RepairedWriteSplices(fs, h, n, buf);
    WriteLeavesRoot(fs, h, buf);
    WriteGood(fs, h, buf);
    var w := Write(Repaired, fs, h, buf);
    WroteText(fs, w, h, n, WriteOffset(fs, h), buf[..w.ret]);
    FilesFramed(fs, w.fs, n);
    HandlesMoved(fs, w.fs, h, WriteOffset(fs, h) + w.ret);
  }

  lemma WroteText(fs: Fs, w: WriteResult, h: int, n: int, o: nat, d: seq<byte>)
    requires Tables(fs) && Tables(w.fs) && OpenOn(fs, h, n) && o <= fs.inodes[n].size && WroteAt(fs, w, h, n, o, d)
    ensures Text(w.fs, n) == Splice(Contents(fs, n), o, d)
    ensures w.fs.files == fs.files[h := fs.files[h].(offset := o + |d|)] && w.fs.fileTaken == fs.fileTaken && w.ret == |d|
  {
    hide InodeShape, BlockShape, Owned, SameInode, Splice;
    OpenOnFile(w.fs, h, n);
  }

  /** The map is told exactly the room there is: k bytes, for every k that fits in the largest file, if and only if there are blocks for them. */
  lemma RoomExact(fs: Fs, h: int, buf: seq<byte>, k: nat)
    requires Tables(fs) && MapOk(fs) && ValidHandle(h) && fs.fileTaken[h] && WriteOffset(fs, h) + k <= MAX_SIZE
    ensures ValidInumber(fs.files[h].inumber)
    ensures k <= RoomFor(fs, OpWrite(h, buf)).bytes <==>
            Needed(fs, fs.files[h].inumber, WriteOffset(fs, h), k) <= CountFree(fs.blockTaken)
  {
    hide InodeShape, BlockShape, Owned, RootEntries, Sized, DirOk, EntriesOk, HandlesOk, Needed, CanCreate, FileSet, Reach;
    LawsApply(fs, h);
    var room := RoomBehind(fs, h);
    if k <= room {
      NeededGrows(fs, fs.files[h].inumber, WriteOffset(fs, h), k, room);
    }
  }

  /* ----- tfs_read and tfs_close ----- */

  lemma SameTables(fs: Fs, g: Fs)
    requires Tables(fs) && Tables(g) && MapOk(fs) && g.inodes == fs.inodes && g.inodeTaken == fs.inodeTaken && g.blocks == fs.blocks
    ensures RootEntries(g) == RootEntries(fs) && FileSet(g) == FileSet(fs) && AbsFiles(g) == AbsFiles(fs)
  {
    hide InodeShape, BlockShape, Good, DirOk, Text, Names, InumberOf;
    SameFiles(fs, g, -1);
    assert RootEntries(g) == RootEntries(fs);
    FilesFramed(fs, g, -1);
  }

  lemma ReadMaps(fs: Fs, h: int, len: nat)
    requires Tables(fs) && MapOk(fs) && ValidHandle(h) && fs.fileTaken[h]
    ensures Spec.WellFormed(Abs(fs))
    ensures var r := Read(Repaired, fs, h, len);
            MapOk(r.fs) && Spec.Read(Abs(fs), h, len) == Spec.Outcome(Abs(r.fs), Spec.Reply(r.ret, r.data))
  {
    hide InodeShape, BlockShape, Owned, EntriesOk, HandlesOk, RootEntries, Read, Cell, Sized, NameOf, InumberOf, Names, DirOk, AbsFiles, AbsHandles,
      Text, FileSet, Contents, Slice, IsFile;
    AbsWellFormed(fs);
    HandleInMap(fs, h);
    var n := fs.files[h].inumber;
    OpenOnFile(fs, h, n);
    RepairedReadSlices(fs, h, n, len);
    ReadGood(fs, h, len);
    var r := Read(Repaired, fs, h, len);
    SameTables(fs, r.fs);
    HandlesMoved(fs, r.fs, h, ReadOffset(fs, h) + |r.data|);
  }

  lemma CloseMaps(fs: Fs, h: int)
    requires Tables(fs) && MapOk(fs)
    ensures var c := Close(fs, h);
            MapOk(c.fs) && Spec.Close(Abs(fs), h) == Spec.Outcome(Abs(c.fs), Spec.Reply(c.ret, []))
  {
    hide InodeShape, BlockShape, Good, RootEntries, NameOf, DirOk, AbsFiles, FileSet;
    CloseGood(fs, h);
    SameTables(fs, Close(fs, h).fs);
    if ValidHandle(h) && fs.fileTaken[h] {
      assert AbsHandles(Close(fs, h).fs) == AbsHandles(fs) - {h};
    }
  }

  /* ----- tfs_open ----- */

  /** The handle given out is the least unused one of the map, on the name of the file. */
  lemma HandleMaps(fs: Fs, r: Result, n: int, off: nat, append: bool, t: Spec.Spec)
    requires Tables(fs) && Tables(r.fs) && HandleOn(fs, r, n, off, append)
    requires t.handles == AbsHandles(fs) && t.files == AbsFiles(r.fs)
    requires forall h :: 0 <= h < MAX_OPEN_FILES && fs.fileTaken[h] ==>
               NameOf(RootEntries(r.fs), fs.files[h].inumber) == NameOf(RootEntries(fs), fs.files[h].inumber)
    ensures Spec.NewHandle(t, Spec.Handle(NameOf(RootEntries(r.fs), n), off, append)) == Spec.Outcome(Abs(r.fs), Spec.Reply(r.ret, []))
  {
    hide InodeShape, BlockShape, RootEntries, NameOf, AbsFiles, HandleOn, AbsHandles;
    UsedHandles(fs);
    FirstFreeIsLeast(fs.fileTaken, AbsHandles(fs), 0);
    HandlesGiven(fs, r, n, off, append);
  }

  lemma UsedHandles(fs: Fs)
    requires Tables(fs)
    ensures forall h :: 0 <= h < MAX_OPEN_FILES ==> (fs.fileTaken[h] <==> h in AbsHandles(fs))
  {
    hide InodeShape, BlockShape, RootEntries, NameOf;
  }

  lemma HandlesGiven(fs: Fs, r: Result, n: int, off: nat, append: bool)
    requires Tables(fs) && Tables(r.fs) && HandleOn(fs, r, n, off, append)
    requires forall h :: 0 <= h < MAX_OPEN_FILES && fs.fileTaken[h] ==>
               NameOf(RootEntries(r.fs), fs.files[h].inumber) == NameOf(RootEntries(fs), fs.files[h].inumber)
    ensures var h := FirstFree(fs.fileTaken);
            && r.ret == h
            && AbsHandles(r.fs) ==
               if h == -1 then AbsHandles(fs) else AbsHandles(fs)[h := Spec.Handle(NameOf(RootEntries(r.fs), n), off, append)]
  {
    hide InodeShape, BlockShape, RootEntries, NameOf, FirstFreeFrom;
  }

  lemma LookupMaps(fs: Fs, path: string)
    requires Tables(fs) && MapOk(fs)
    ensures Lookup(fs, path) >= 0 <==> ValidPath(path) && path[1..] in AbsFiles(fs)
    ensures Lookup(fs, path) >= 0 ==>
              var n := Lookup(fs, path);
              IsFile(fs, n) && NameOf(RootEntries(fs), n) == path[1..] && AbsFiles(fs)[path[1..]] == Text(fs, n)
    ensures Lookup(fs, path) >= 0 && Sized(fs, Lookup(fs, path)) ==> AbsFiles(fs)[path[1..]] == Contents(fs, Lookup(fs, path))
  {
    hide InodeShape, BlockShape, Owned, HandlesOk, RootEntries, NameOf, InumberOf, Names, DirOk, Sized, Inside;
    OwnedRootDir(fs);
    LookupIsFile(fs, path);
    if ValidPath(path) {
      ListedName(RootEntries(fs), FileSet(fs), path[1..]);
    }
  }

  lemma OwnedRootDir(fs: Fs)
    requires Tables(fs) && Owned(fs)
    ensures fs.inodes[ROOT_DIR_INUM].kind.Dir? && fs.inodes[ROOT_DIR_INUM].direct[0] != -1
  {
  }

  lemma OpenFoundMaps(fs: Fs, path: string, flags: Flags)
    requires Tables(fs) && MapOk(fs) && Lookup(fs, path) >= 0 && Good(Open(Repaired, fs, path, flags).fs)
    ensures var r := Open(Repaired, fs, path, flags);
            && MapOk(r.fs)
            && Spec.Open(Abs(fs), path, flags, RoomFor(fs, OpOpen(path, flags))) == Spec.Outcome(Abs(r.fs), Spec.Reply(r.ret, []))
  {
    hide InodeShape, BlockShape, Owned, HandlesOk, EntriesOk, RootEntries, NameOf, InumberOf, Names, DirOk, Inside, Lookup, Open, Contents,
      AbsFiles, AbsHandles, HandleOn, CanCreate, Spec.NewHandle, FileSet, OtherFilesSame, NoOtherFiles;
    LookupMaps(fs, path);
    OpenLaw(fs, path, flags);
    var r, n := Open(Repaired, fs, path, flags), Lookup(fs, path);
    var text := if flags.truncate then [] else Contents(fs, n);
    TextReads(r.fs, n, text);
    FilesFramed(fs, r.fs, n);
    assert AbsFiles(r.fs) == AbsFiles(fs)[path[1..] := text];
    assert !flags.truncate ==> AbsFiles(fs)[path[1..] := text] == AbsFiles(fs);
    var t := if flags.truncate then Abs(fs).(files := AbsFiles(fs)[path[1..] := []]) else Abs(fs);
    HandleMaps(fs, r, n, if flags.append then |text| else 0, flags.append, t);
  }

  /** A file made: the directory stays a map, with one name more for an empty file. */
  lemma MadeMaps(fs: Fs, g: Fs, n: int, name: string)
    requires Tables(fs) && MapOk(fs) && Tables(g) && Good(g)
    requires !IsFile(fs, n) && Reads(g, n, []) && OtherFilesSame(fs, g, n) && NoOtherFiles(fs, g, n)
    requires FirstUnused(RootEntries(fs)) != -1 && 0 < |name| < MAX_FILE_NAME && name !in Names(RootEntries(fs))
    requires RootEntries(g) == RootEntries(fs)[FirstUnused(RootEntries(fs)) := DirEntry(StoredName(name), n)]
    ensures MapOk(g) && NameOf(RootEntries(g), n) == name && AbsFiles(g) == AbsFiles(fs)[name := []]
    ensures forall m :: IsFile(fs, m) ==> NameOf(RootEntries(g), m) == NameOf(RootEntries(fs), m)
  {
    hide InodeShape, BlockShape, Owned, HandlesOk, EntriesOk, RootEntries, NameOf, InumberOf, Names, DirOk, Inside, Sized, SameInode, Contents;
    var entries, now := RootEntries(fs), RootEntries(g);
    assert now == AddEntry(entries, name, n);
    MadeFileSet(fs, g, n);
    AddedKeeps(entries, FileSet(fs), name, n);
    AddedFinds(entries, FileSet(fs), name, n);
    TextReads(g, n, []);
    forall other | other in Names(now) ensures AbsFiles(g)[other] == AbsFiles(fs)[name := []][other] {
      if other != name {
        ListedName(entries, FileSet(fs), other);
        TextSame(fs, g, InumberOf(entries, other));
      }
    }
  }

  lemma MadeFileSet(fs: Fs, g: Fs, n: int)
    requires Tables(fs) && Tables(g) && !IsFile(fs, n) && IsFile(g, n) && OtherFilesSame(fs, g, n) && NoOtherFiles(fs, g, n)
    ensures FileSet(g) == FileSet(fs) + {n} && n !in FileSet(fs) && n != -1
  {
    hide InodeShape, BlockShape, SameInode;
  }

  lemma OpenMadeMaps(fs: Fs, path: string, flags: Flags)
    requires Tables(fs) && MapOk(fs) && Good(Open(Repaired, fs, path, flags).fs)
    requires Lookup(fs, path) < 0 && ValidPath(path) && flags.create && CanCreate(fs) && |path[1..]| < MAX_FILE_NAME
    ensures var r := Open(Repaired, fs, path, flags);
            && MapOk(r.fs)
            && Spec.Open(Abs(fs), path, flags, RoomFor(fs, OpOpen(path, flags))) == Spec.Outcome(Abs(r.fs), Spec.Reply(r.ret, []))
  {
    hide InodeShape, BlockShape, Owned, EntriesOk, RootEntries, NameOf, InumberOf, Names, DirOk, Sized, Inside, Lookup, Open, Contents,
      AbsFiles, AbsHandles, HandleOn, Spec.NewHandle, FileSet, OtherFilesSame, NoOtherFiles, Reads;
    LookupMaps(fs, path);
    OpenLaw(fs, path, flags);
    NewNameNotListed(fs, path[1..]);
    var r, n := Open(Repaired, fs, path, flags), FirstFree(fs.inodeTaken);
    MadeMaps(fs, r.fs, n, path[1..]);
    HandleMaps(fs, r, n, 0, false, Abs(fs).(files := AbsFiles(fs)[path[1..] := []]));
  }

  lemma NewNameNotListed(fs: Fs, name: string)
    requires Tables(fs)
    ensures name in AbsFiles(fs) <==> name in Names(RootEntries(fs))
  {
    hide InodeShape, BlockShape, RootEntries, Names, InumberOf, Text;
  }

  lemma OpenRefusedMaps(fs: Fs, path: string, flags: Flags)
    requires Tables(fs) && MapOk(fs) && Good(Open(Repaired, fs, path, flags).fs)
    requires Lookup(fs, path) < 0 && !(ValidPath(path) && flags.create && CanCreate(fs))
    ensures var r := Open(Repaired, fs, path, flags);
            && MapOk(r.fs)
            && Spec.Open(Abs(fs), path, flags, RoomFor(fs, OpOpen(path, flags))) == Spec.Outcome(Abs(r.fs), Spec.Reply(r.ret, []))
  {
    hide InodeShape, BlockShape, Owned, HandlesOk, EntriesOk, RootEntries, NameOf, InumberOf, Names, DirOk, Sized, Inside, Lookup, Open, Contents,
      AbsFiles, Spec.NewHandle, FileSet, OtherFilesSame, NoOtherFiles, CanCreate;
    LookupMaps(fs, path);
    OpenLaw(fs, path, flags);
    var r := Open(Repaired, fs, path, flags);
    NoFileAt(fs, r.fs);
    FilesFramed(fs, r.fs, -1);
    assert AbsHandles(r.fs) == AbsHandles(fs);
  }

  lemma NoFileAt(fs: Fs, g: Fs)
    requires Tables(fs) && Tables(g)
    ensures !IsFile(fs, -1) && !IsFile(g, -1)
    ensures FilesSame(fs, g) ==> OtherFilesSame(fs, g, -1) && NoOtherFiles(fs, g, -1)
  {
  }

  /* ----- every call, every run ----- */

  /** The rules of the map are the rules of the tables. */
  lemma RulesAgree(fs: Fs, op: Op)
    requires Tables(fs) && MapOk(fs) && Spec.Allowed(Abs(fs), op)
    ensures Rules(fs, op)
  {
    hide InodeShape, BlockShape, Owned, EntriesOk, RootEntries, NameOf, InumberOf, Names, DirOk, Sized, Inside, Lookup, Contents, AbsFiles;
    UsedHandles(fs);
    if op.OpOpen? && op.flags.truncate && Lookup(fs, op.path) >= 0 {
      LookupMaps(fs, op.path);
      var n := Lookup(fs, op.path);
      forall h | 0 <= h < MAX_OPEN_FILES && fs.fileTaken[h] && fs.files[h].inumber == n ensures fs.files[h].offset == 0 {
        assert h in AbsHandles(fs) && AbsHandles(fs)[h].name == op.path[1..];
      }
    }
  }

  lemma OpenMaps(fs: Fs, path: string, flags: Flags)
    requires Tables(fs) && MapOk(fs) && Spec.Allowed(Abs(fs), OpOpen(path, flags))
    ensures var r := Open(Repaired, fs, path, flags);
            && MapOk(r.fs)
            && Spec.Open(Abs(fs), path, flags, RoomFor(fs, OpOpen(path, flags))) == Spec.Outcome(Abs(r.fs), Spec.Reply(r.ret, []))
  {
    hide InodeShape, BlockShape, Good, MapOk, Lookup, Open, CanCreate, AbsFiles, AbsHandles, Spec.Open, RootEntries;
    RulesAgree(fs, OpOpen(path, flags));
    GoodOf(fs);
    OpenGood(fs, path, flags);
    LookupMaps(fs, path);
    if Lookup(fs, path) >= 0 {
      OpenFoundMaps(fs, path, flags);
    } else if ValidPath(path) && flags.create && CanCreate(fs) {
      OpenMadeMaps(fs, path, flags);
    } else {
      OpenRefusedMaps(fs, path, flags);
    }
  }

  lemma GoodOf(fs: Fs)
    requires Tables(fs) && MapOk(fs)
    ensures Good(fs)
  {
    hide Good;
  }

  datatype Stepped = Stepped(fs: Fs, reply: Spec.Reply)

  function Answered(fs: Fs, op: Op): (r: Stepped)
    requires Tables(fs)
    ensures Tables(r.fs)
  {
    match op
    case OpOpen(path, flags) => var r := Open(Repaired, fs, path, flags); Stepped(r.fs, Spec.Reply(r.ret, []))
    case OpClose(h) => var r := Close(fs, h); Stepped(r.fs, Spec.Reply(r.ret, []))
    case OpWrite(h, buf) => var r := Write(Repaired, fs, h, buf); Stepped(r.fs, Spec.Reply(r.ret, []))
    case OpRead(h, len) => var r := Read(Repaired, fs, h, len); Stepped(r.fs, Spec.Reply(r.ret, r.data))
  }

  /** Every allowed call takes the map to the map after the call, with the room there is, and replies as the map does. */
  lemma StepMaps(fs: Fs, op: Op)
    requires Tables(fs) && MapOk(fs) && Spec.Allowed(Abs(fs), op)
    ensures Spec.WellFormed(Abs(fs))
    ensures var r := Answered(fs, op);
            MapOk(r.fs) && Spec.Step(Abs(fs), op, RoomFor(fs, op)) == Spec.Outcome(Abs(r.fs), r.reply)
  {
    hide InodeShape, BlockShape, MapOk, Open, Close, Write, Read, Spec.Open, Spec.Close, Spec.Write, Spec.Read, AbsFiles, AbsHandles, RoomFor;
    AbsWellFormed(fs);
    UsedHandles(fs);
    match op
    case OpOpen(path, flags) => OpenMaps(fs, path, flags);
    case OpClose(h) => CloseMaps(fs, h);
    case OpWrite(h, buf) =>
      if ValidHandle(h) && |buf| % 0x1_0000_0000 < 0x8000_0000 {
        WriteMaps(fs, h, buf);
      } else {
        Refused(fs, h, buf, 0);
      }
    case OpRead(h, len) =>
      if ValidHandle(h) {
        ReadMaps(fs, h, len);
      } else {
        Refused(fs, h, [], len);
      }
  }

  lemma Refused(fs: Fs, h: int, buf: seq<byte>, len: nat)
    requires Tables(fs) && MapOk(fs)
    ensures Spec.WellFormed(Abs(fs))
    ensures !ValidHandle(h) || |buf| % 0x1_0000_0000 >= 0x8000_0000 ==>
              Write(Repaired, fs, h, buf) == WriteResult(fs, -1)
              && Spec.Write(Abs(fs), h, buf, RoomFor(fs, OpWrite(h, buf))) == Spec.Outcome(Abs(fs), Spec.Reply(-1, []))
    ensures !ValidHandle(h) ==>
              Read(Repaired, fs, h, len) == ReadResult(fs, -1, [])
              && Spec.Read(Abs(fs), h, len) == Spec.Outcome(Abs(fs), Spec.Reply(-1, []))
  {
    hide InodeShape, BlockShape, MapOk, AbsFiles, WriteAt, ReadAt, CanCreate, RootEntries, NameOf, AsInt32;
    AbsWellFormed(fs);
    UsedHandles(fs);
  }

  /** The calls of a run, each with the room there was for it. */
  predicate AllowedRun(s: Spec.Spec, fs: Fs, ops: seq<Op>)
    requires Tables(fs) && Spec.WellFormed(s)
    decreases |ops|
  {
    ops == [] ||
    (Spec.Allowed(s, ops[0]) &&
     (Spec.StepWellFormed(s, ops[0], RoomFor(fs, ops[0]));
      AllowedRun(Spec.Step(s, ops[0], RoomFor(fs, ops[0])).spec, Answered(fs, ops[0]).fs, ops[1..])))
  }

  datatype Ended = Ended(fs: Fs, replies: seq<Spec.Reply>)

  function Run(fs: Fs, ops: seq<Op>): (r: Ended)
    requires Tables(fs)
    ensures Tables(r.fs)
    decreases |ops|
  {
    if ops == [] then Ended(fs, [])
    else
      var first := Answered(fs, ops[0]);
      var rest := Run(first.fs, ops[1..]);
      Ended(rest.fs, [first.reply] + rest.replies)
  }

  datatype SpecEnded = SpecEnded(spec: Spec.Spec, replies: seq<Spec.Reply>)

  /** The run of the map, told the room at each call. */
  function MapRun(s: Spec.Spec, fs: Fs, ops: seq<Op>): SpecEnded
    requires Tables(fs) && Spec.WellFormed(s) && AllowedRun(s, fs, ops)
    decreases |ops|
  {
    if ops == [] then SpecEnded(s, [])
    else
      Spec.StepWellFormed(s, ops[0], RoomFor(fs, ops[0]));
      var first := Spec.Step(s, ops[0], RoomFor(fs, ops[0]));
      var rest := MapRun(first.spec, Answered(fs, ops[0]).fs, ops[1..]);
      SpecEnded(rest.spec, [first.reply] + rest.replies)
  }

  /** Every run within the rules is a run of the map: same replies, and the map at the end. */
  lemma {:induction false} RunMaps(fs: Fs, ops: seq<Op>)
    requires Tables(fs) && MapOk(fs) && Spec.WellFormed(Abs(fs)) && AllowedRun(Abs(fs), fs, ops)
    ensures var r := Run(fs, ops);
            MapOk(r.fs) && MapRun(Abs(fs), fs, ops) == SpecEnded(Abs(r.fs), r.replies)
    decreases |ops|
  {
    hide InodeShape, BlockShape, MapOk, Answered, Spec.Step, Abs, Spec.Allowed, Spec.WellFormed, RoomFor;
    if ops != [] {
      StepMaps(fs, ops[0]);
      Spec.StepWellFormed(Abs(fs), ops[0], RoomFor(fs, ops[0]));
      RunMaps(Answered(fs, ops[0]).fs, ops[1..]);
    }
  }

  /** From the start, that is from the empty map. */
  lemma RunsFromStart(ops: seq<Op>)
    requires AllowedRun(Spec.Spec(map[], map[]), Initial(), ops)
    ensures var r := Run(Initial(), ops);
            MapOk(r.fs) && MapRun(Spec.Spec(map[], map[]), Initial(), ops) == SpecEnded(Abs(r.fs), r.replies)
  {
    hide InodeShape, BlockShape, MapOk, Answered, Spec.Step, Abs, Spec.Allowed, RoomFor, Initial;
    InitialMaps();
    RunMaps(Initial(), ops);
  }

  lemma InitialMaps()
    ensures MapOk(Initial()) && Abs(Initial()) == Spec.Spec(map[], map[])
  {
    hide BlockShape, Good;
    var fs := Initial();
    InitialGood();
    assert RootEntries(fs) == seq(MAX_DIR_ENTRIES, _ => UNUSED);
    assert forall i :: !InUse(RootEntries(fs), i);
    assert Names(RootEntries(fs)) == {};
    assert AbsFiles(fs) == map[];
    assert AbsHandles(fs) == map[];
  }
}
