/** tfs_lookup and tfs_open of the one-block version on any tables whatever. */
module OneBlockOpen {
  import opened Bytes
  import opened AllocationTable
  import opened Disk
  import opened OneBlockState
  import opened OneBlockInvariant
  import opened OneBlockRefinement
  import opened OneBlockSteps
  import opened OneBlockCreate
  import opened OneBlockRuns

  /** Without a leading slash, or with nothing behind it, no path is found, and without TFS_O_CREAT nothing is opened or changed. */
  lemma NoSlash(fs: Fs, path: string, flags: Flags)
    requires Tables(fs)
    requires path == "" || path == "/" || path[0] != '/'
    ensures Lookup(fs, path) == -1 && (!flags.create ==> Open(fs, path, flags) == Result(fs, -1))
  {
    hide BlockShape;
    assert !ValidPath(path);
  }

  /**
   * Behind the slash stands the name: the inode number found is that of the first entry used for it.  Without a root
   * directory nothing is found.
   */
  lemma SlashName(fs: Fs, name: string)
    requires Tables(fs) && name != ""
    ensures var entries, n := RootEntries(fs), Lookup(fs, "/" + name);
            if fs.inodes[ROOT_DIR_INUM].kind == Dir && ValidBlock(fs.inodes[ROOT_DIR_INUM].block)
               && exists i :: 0 <= i < |entries| && entries[i].inumber != -1 && entries[i].name == name then
              && n != -1
              && exists i :: (0 <= i < |entries| && entries[i] == DirEntry(name, n)
                              && forall j :: 0 <= j < i ==> entries[j].inumber == -1 || entries[j].name != name)
            else n == -1
  {
    hide BlockShape, RootEntries;
    ValidPathExact("/" + name);
    var entries := RootEntries(fs);
    assert ("/" + name)[1..] == name;
    var i := FindEntry(entries, name);
    if fs.inodes[ROOT_DIR_INUM].kind == Dir && ValidBlock(fs.inodes[ROOT_DIR_INUM].block) && i != -1 {
      assert entries[i] == DirEntry(name, Lookup(fs, "/" + name));
    }
  }

  /** What is not found is not opened unless it is to be created, and an entry that names no inode is not opened either. */
  lemma NotOpened(fs: Fs, path: string, flags: Flags)
    requires Tables(fs)
    ensures Lookup(fs, path) < 0 && !flags.create ==> Open(fs, path, flags) == Result(fs, -1)
    ensures 50 <= Lookup(fs, path) ==> Open(fs, path, flags) == Result(fs, -1)
  {
    hide BlockShape, RootEntries;
  }

  /** A truncation fails exactly on a file with bytes and no block. */
  predicate Erasable(fs: Fs, n: int)
    requires Tables(fs) && ValidInumber(n)
  {
    fs.inodes[n].size == 0 || 0 <= fs.inodes[n].block < 1024
  }

  /** The least free handle stands at offset off of inode n and is counted; with none free the open fails. */
  ghost predicate HandleOn(fs: Fs, r: Result, n: int, off: nat)
    requires Tables(fs) && Tables(r.fs)
  {
    var h := FirstFree(fs.fileTaken);
    if h == -1 then r.ret == -1 && r.fs.fileTaken == fs.fileTaken && r.fs.files == fs.files && r.fs.openCount == fs.openCount
    else
      && r.ret == h && r.fs.fileTaken == fs.fileTaken[h := true] && r.fs.files == fs.files[h := OpenFile(n, off)]
      && r.fs.openCount == fs.openCount + 1
  }

  /**
   * A file found is opened at its end with TFS_O_APPEND and at its start without; a truncation comes first and leaves it
   * empty, its block free, and anything else leaves all inodes and blocks alone.  While the state is closing nothing is
   * opened.
   */
  lemma OpenFound(fs: Fs, path: string, flags: Flags)
    requires Tables(fs) && ValidInumber(Lookup(fs, path))
    ensures var r, n := Open(fs, path, flags), Lookup(fs, path);
            if fs.closing then r == Result(fs, -1)
            else
              && r.fs.inodeTaken == fs.inodeTaken && r.fs.blocks == fs.blocks && !r.fs.closing
              && (if flags.truncate && !Erasable(fs, n) then r == Result(fs, -1)
                  else
                    && HandleOn(fs, r, n, if flags.append && !flags.truncate then fs.inodes[n].size else 0)
                    && (if flags.truncate && fs.inodes[n].size > 0 then
                          && r.fs.inodes == fs.inodes[n := fs.inodes[n].(size := 0)]
                          && r.fs.blockTaken == fs.blockTaken[fs.inodes[n].block := false]
                        else r.fs.inodes == fs.inodes && r.fs.blockTaken == fs.blockTaken))
  {
    hide BlockShape, RootEntries, Lookup;
  }

  /* ----- handles ----- */

  /** The replies to count opens of the same path in turn. */
  function OpenReplies(fs: Fs, path: string, flags: Flags, count: nat): (r: seq<int>)
    requires Tables(fs)
    ensures |r| == count
    decreases count
  {
    if count == 0 then [] else
    var first := Open(fs, path, flags);
    [first.ret] + OpenReplies(first.fs, path, flags, count - 1)
  }

  /** From the start, opens of one new name give out the handles 0 to 19, and from then on -1. */
  lemma TwentyFromStart(name: string, flags: Flags, count: nat)
    requires 0 < |name| < MAX_FILE_NAME && flags.create && !flags.truncate
    ensures OpenReplies(Initial(), "/" + name, flags, count) == seq(count, i => if i < 20 then i else -1)
  {
    hide BlockShape, Lookup, Open, Initial;
    if count > 0 {
      var path, r := "/" + name, Open(Initial(), "/" + name, flags);
      FirstMade(name, flags);
      HandlesFrom(r.fs, path, flags, 1, count - 1);
    }
    assert OpenReplies(Initial(), "/" + name, flags, count) == seq(count, i => if i < 20 then i else -1);
  }

  lemma FirstMade(name: string, flags: Flags)
    requires 0 < |name| < MAX_FILE_NAME && flags.create && !flags.truncate
    ensures var r := Open(Initial(), "/" + name, flags);
            && r.ret == 0 && ValidInumber(Lookup(r.fs, "/" + name)) && !r.fs.closing
            && (forall h :: 0 <= h < |r.fs.fileTaken| ==> (r.fs.fileTaken[h] <==> h < 1))
  {
    hide BlockShape, BlocksOk, HandlesOk, CountOk, DirectoryOk, RootOk;
    var fs, path := Initial(), "/" + name;
    InitialInv();
    assert path[1..] == name && ValidPath(path);
    assert RootEntries(fs)[0] == UNUSED;
    assert FirstUnused(RootEntries(fs)) == 0 by { assert !Used(RootEntries(fs)[0]); }
    assert FirstFree(fs.inodeTaken) == 1 by { assert !fs.inodeTaken[1]; }
    assert FirstFree(fs.fileTaken) == 0 by { assert !fs.fileTaken[0]; }
    var g := Open(fs, path, flags).fs;
    assert RootEntries(g)[0] == DirEntry(name, 1);
    assert FindEntry(RootEntries(g), name) == 0;
  }

  lemma {:induction false} HandlesFrom(fs: Fs, path: string, flags: Flags, k: nat, count: nat)
    requires Tables(fs) && ValidInumber(Lookup(fs, path)) && !flags.truncate && !fs.closing
    requires k <= 20 && forall h :: 0 <= h < |fs.fileTaken| ==> (fs.fileTaken[h] <==> h < k)
    ensures forall i :: 0 <= i < count ==> OpenReplies(fs, path, flags, count)[i] == if k + i < 20 then k + i else -1
    decreases count
  {
    hide BlockShape, Lookup, Open;
    if count > 0 {
      var r := Open(fs, path, flags);
      OpenFound(fs, path, flags);
      assert k < 20 ==> !fs.fileTaken[k];
      SameLookup(fs, r.fs, path);
      HandlesFrom(r.fs, path, flags, if k < 20 then k + 1 else k, count - 1);
    }
  }

  lemma SameLookup(fs: Fs, g: Fs, path: string)
    requires Tables(fs) && Tables(g) && g.inodes == fs.inodes && g.blocks == fs.blocks
    ensures Lookup(g, path) == Lookup(fs, path)
  {
    hide BlockShape;
  }
}
