/**
 * tfs_lookup and tfs_open on any tables whatever, in either variant: what holds of them also after a truncation has left
 * blocks with two owners.
 */
module IndexedOpenTables {
  import opened Bytes
  import opened AllocationTable
  import opened Disk
  import opened IndexedState
  import opened IndexedOwnership
  import opened IndexedOps
  import opened IndexedRuns
  import opened IndexedOpenLaw

  /** Without a leading slash, or with nothing behind it, no path is found or opened, and nothing changes. */
  lemma NoSlash(v: Variant, fs: Fs, path: string, flags: Flags)
    requires Tables(fs)
    requires path == "" || path == "/" || path[0] != '/'
    ensures Lookup(fs, path) == -1 && Open(v, fs, path, flags) == Result(fs, -1)
  {
    hide InodeShape, BlockShape;
    assert !ValidPath(path);
  }

  /**
   * Behind the slash stands the name: the inode number found is that of the first entry used for it.  Without a root
   * directory nothing is found.
   */
  lemma SlashName(fs: Fs, name: string)
    requires Tables(fs) && name != ""
    ensures var entries, n := RootEntries(fs), Lookup(fs, "/" + name);
            if fs.inodes[ROOT_DIR_INUM].kind == Dir && fs.inodes[ROOT_DIR_INUM].direct[0] != -1
               && exists i :: 0 <= i < |entries| && entries[i].inumber != -1 && entries[i].name == name then
              && n != -1
              && exists i :: (0 <= i < |entries| && entries[i] == DirEntry(name, n)
                              && forall j :: 0 <= j < i ==> entries[j].inumber == -1 || entries[j].name != name)
            else n == -1
  {
    hide InodeShape, BlockShape, RootEntries;
    RootCell(fs);
    ValidPathExact("/" + name);
    var entries := RootEntries(fs);
    assert ("/" + name)[1..] == name;
    var i := FindEntry(entries, name);
    if fs.inodes[ROOT_DIR_INUM].kind == Dir && fs.inodes[ROOT_DIR_INUM].direct[0] != -1 && i != -1 {
      assert entries[i] == DirEntry(name, Lookup(fs, "/" + name));
    }
  }

  /** What is not found is not opened unless it is to be created, and an entry that names no inode is not opened either. */
  lemma NotOpened(v: Variant, fs: Fs, path: string, flags: Flags)
    requires Tables(fs)
    ensures Lookup(fs, path) < 0 && !flags.create ==> Open(v, fs, path, flags) == Result(fs, -1)
    ensures 50 <= Lookup(fs, path) ==> Open(v, fs, path, flags) == Result(fs, -1)
  {
    hide InodeShape, BlockShape, RootEntries;
  }

  /** A truncation fails exactly on a file with bytes and no index block. */
  predicate Erasable(fs: Fs, n: int)
    requires Tables(fs) && ValidInumber(n)
  {
    fs.inodes[n].size == 0 || fs.inodes[n].indexBlock != -1
  }

  /**
   * A file found is opened at its end with TFS_O_APPEND, which the handle keeps, and at its start without; a truncation
   * comes first and leaves it empty, anything else leaves all inodes and blocks alone.
   */
  lemma OpenFound(v: Variant, fs: Fs, path: string, flags: Flags)
    requires Tables(fs) && ValidInumber(Lookup(fs, path))
    ensures var r, n := Open(v, fs, path, flags), Lookup(fs, path);
            && r.fs.inodeTaken == fs.inodeTaken
            && r.fs.inodes == fs.inodes[n := fs.inodes[n].(size := r.fs.inodes[n].size, direct := r.fs.inodes[n].direct)]
            && (!flags.truncate ==> r.fs.inodes == fs.inodes && r.fs.blocks == fs.blocks && r.fs.blockTaken == fs.blockTaken)
            && (if flags.truncate && !Erasable(fs, n) then r.ret == -1 && r.fs.files == fs.files && r.fs.fileTaken == fs.fileTaken
                else
                  && (flags.truncate ==> r.fs.inodes[n].size == 0)
                  && HandleOn(fs, r, n, if flags.append && !flags.truncate then fs.inodes[n].size else 0, flags.append))
  {
    hide InodeShape, BlockShape, RootEntries, Lookup;
    var n := Lookup(fs, path);
    var t := if flags.truncate then Truncate(v, fs, n).fs else fs;
    TruncateTables(v, fs, n);
    assert ValidPath(path) by { FoundIsValid(fs, path); }
    assert Open(v, fs, path, flags) == OpenExisting(v, fs, n, flags);
    assert Open(v, fs, path, flags).fs.inodes == t.inodes;
  }

  lemma FoundIsValid(fs: Fs, path: string)
    requires Tables(fs) && Lookup(fs, path) != -1
    ensures ValidPath(path)
  {
  }

  lemma TruncateTables(v: Variant, fs: Fs, n: int)
    requires Tables(fs) && ValidInumber(n)
    ensures var t := Truncate(v, fs, n);
            && t.fs.inodeTaken == fs.inodeTaken && t.fs.files == fs.files && t.fs.fileTaken == fs.fileTaken
            && t.fs.inodes == fs.inodes[n := fs.inodes[n].(size := t.fs.inodes[n].size, direct := t.fs.inodes[n].direct)]
            && (if Erasable(fs, n) then t.ret == 0 && t.fs.inodes[n].size == 0 else t.ret == -1 && t.fs.inodes[n].size == fs.inodes[n].size)
  {
    hide InodeShape, BlockShape, Released;
    var e := Erase(v, fs, n).fs;
    assert e.inodes == fs.inodes[n := fs.inodes[n].(direct := e.inodes[n].direct)];
    assert fs.inodes == fs.inodes[n := fs.inodes[n]];
  }

  /* ----- handles ----- */

  /** The replies to count opens of the same path in turn. */
  function OpenReplies(v: Variant, fs: Fs, path: string, flags: Flags, count: nat): (r: seq<int>)
    requires Tables(fs)
    ensures |r| == count
    decreases count
  {
    if count == 0 then [] else
    var first := Open(v, fs, path, flags);
    [first.ret] + OpenReplies(v, first.fs, path, flags, count - 1)
  }

  /** With no file open, opens of a file that is there give out the handles 0 to 19, and from then on -1. */
  lemma TwentyHandles(v: Variant, fs: Fs, path: string, flags: Flags, count: nat)
    requires Tables(fs) && ValidInumber(Lookup(fs, path)) && !flags.truncate
    requires forall h :: 0 <= h < |fs.fileTaken| ==> !fs.fileTaken[h]
    ensures OpenReplies(v, fs, path, flags, count) == seq(count, i => if i < 20 then i else -1)
  {
    hide InodeShape, BlockShape, Lookup, OpenReplies, Open;
    HandlesFrom(v, fs, path, flags, 0, count);
    assert OpenReplies(v, fs, path, flags, count) == seq(count, i => if i < 20 then i else -1);
  }

  /** So it is from the start: the first of these opens makes the file, and the handles run out at the 21st. */
  lemma TwentyFromStart(v: Variant, name: string, flags: Flags, count: nat)
    requires 0 < |name| < MAX_FILE_NAME && flags.create && !flags.truncate
    ensures OpenReplies(v, Initial(), "/" + name, flags, count) == seq(count, i => if i < 20 then i else -1)
  {
    hide InodeShape, BlockShape, Lookup, Open, Initial, Consistent;
    if count > 0 {
      var path, r := "/" + name, Open(v, Initial(), "/" + name, flags);
      FirstMade(v, name, flags);
      HandlesFrom(v, r.fs, path, flags, 1, count - 1);
    }
    assert OpenReplies(v, Initial(), "/" + name, flags, count) == seq(count, i => if i < 20 then i else -1);
  }

  lemma FirstMade(v: Variant, name: string, flags: Flags)
    requires 0 < |name| < MAX_FILE_NAME && flags.create && !flags.truncate
    ensures var r := Open(v, Initial(), "/" + name, flags);
            && r.ret == 0 && ValidInumber(Lookup(r.fs, "/" + name))
            && (forall h :: 0 <= h < |r.fs.fileTaken| ==> (r.fs.fileTaken[h] <==> h < 1))
  {
    hide InodeShape, BlockShape, RootEntries, Open, Owned, HandlesOk, Reads, OtherFilesSame, NoOtherFiles;
    var fs, path := Initial(), "/" + name;
    var r := Open(v, fs, path, flags);
    InitialConsistent();
    InitialEntries();
    assert path[1..] == name && ValidPath(path);
    assert FirstUnused(RootEntries(fs)) == 0 by { assert !Used(RootEntries(fs)[0]); }
    assert FirstFree(fs.inodeTaken) == 1 by { assert !fs.inodeTaken[1]; }
    assert FirstFree(fs.blockTaken) == 1 by { assert !fs.blockTaken[1]; }
    assert FirstFree(fs.fileTaken) == 0 by { assert !fs.fileTaken[0]; }
    OpenEither(v, fs, path, flags);
    OpenConsistent(v, fs, path, flags);
    RootStands(r.fs);
    var i := FindEntry(RootEntries(r.fs), name);
    assert RootEntries(r.fs)[0] == DirEntry(name, 1);
    assert i == 0;
  }

  lemma InitialEntries()
    ensures RootEntries(Initial()) == seq(MAX_DIR_ENTRIES, _ => UNUSED)
  {
    hide InodeShape, BlockShape;
  }

  lemma RootStands(fs: Fs)
    requires Tables(fs) && Consistent(fs)
    ensures fs.inodes[ROOT_DIR_INUM].kind == Dir && fs.inodes[ROOT_DIR_INUM].direct[0] != -1
  {
    hide InodeShape, BlockShape, HandlesOk, EntriesOk;
  }

  lemma {:induction false} HandlesFrom(v: Variant, fs: Fs, path: string, flags: Flags, k: nat, count: nat)
    requires Tables(fs) && ValidInumber(Lookup(fs, path)) && !flags.truncate
    requires k <= 20 && forall h :: 0 <= h < |fs.fileTaken| ==> (fs.fileTaken[h] <==> h < k)
    ensures forall i :: 0 <= i < count ==> OpenReplies(v, fs, path, flags, count)[i] == if k + i < 20 then k + i else -1
    decreases count
  {
    hide InodeShape, BlockShape, Lookup, Open;
    if count > 0 {
      var r := Open(v, fs, path, flags);
      OpenFound(v, fs, path, flags);
      FreshHandle(fs.fileTaken, k);
      SameLookup(fs, r.fs, path);
      HandlesFrom(v, r.fs, path, flags, if k < 20 then k + 1 else k, count - 1);
    }
  }

  lemma FreshHandle(taken: seq<bool>, k: nat)
    requires |taken| == 20 && k <= 20 && forall h :: 0 <= h < |taken| ==> (taken[h] <==> h < k)
    ensures FirstFree(taken) == if k < 20 then k else -1
  {
    if k < 20 {
      assert !taken[k];
    }
  }

  lemma SameLookup(fs: Fs, g: Fs, path: string)
    requires Tables(fs) && Tables(g) && g.inodes == fs.inodes && g.blocks == fs.blocks
    ensures Lookup(g, path) == Lookup(fs, path)
  {
    hide InodeShape, BlockShape;
  }
}
