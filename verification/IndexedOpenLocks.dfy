/**
 * The locks of inodes that tfs_open takes and gives back in the multi-block version (tfs/fs/operations.c:41-102 with
 * find_in_dir, add_dir_entry and inode_delete of tfs/fs/state.c): it locks an inode number before it looks whether it is
 * -1, and its rollback locks an inode it holds already.
 */
module IndexedOpenLocks {
  import opened Bytes
  import opened AllocationTable
  import opened Disk
  import opened IndexedState
  import opened IndexedOwnership
  import opened IndexedOps
  import opened IndexedRuns
  import opened IndexedOpenLaw

  /** pthread_rwlock_wrlock and pthread_rwlock_unlock on the lock of inode n, which there is none of for -1. */
  datatype LockOp = Take(n: int) | Give(n: int)

  /** A caller that holds the locks in held can go through the operations: it takes locks it has not, and gives back its own. */
  predicate GoesThrough(ops: seq<LockOp>, held: set<int>) {
    if ops == [] then held == {}
    else
      match ops[0]
      case Take(n) => ValidInumber(n) && n !in held && GoesThrough(ops[1..], held + {n})
      case Give(n) => n in held && GoesThrough(ops[1..], held - {n})
  }

  /** find_in_dir: without its block the directory's lock is kept. */
  function LookupLocks(fs: Fs, path: string): seq<LockOp>
    requires Tables(fs)
  {
    if !ValidPath(path) || fs.inodes[ROOT_DIR_INUM].kind != Dir then []
    else if fs.inodes[ROOT_DIR_INUM].direct[0] == -1 then [Take(ROOT_DIR_INUM)]
    else [Take(ROOT_DIR_INUM), Give(ROOT_DIR_INUM)]
  }

  function AddEntryLocks(fs: Fs, sub: int, name: string): seq<LockOp>
    requires Tables(fs)
  {
    if !ValidInumber(sub) || fs.inodes[ROOT_DIR_INUM].kind != Dir || |name| == 0 then []
    else [Take(ROOT_DIR_INUM), Give(ROOT_DIR_INUM)]
  }

  /** inode_delete, and then the unlock of tfs_open itself. */
  function RollbackLocks(n: int): seq<LockOp> {
    [Take(n), Give(n), Give(n)]
  }

  function CreateLocks(fs: Fs, name: string): seq<LockOp>
    requires Tables(fs)
  {
    var c := CreateFile(fs);
    if c.ret == -1 then [Take(c.ret)]
    else
      [Take(c.ret)] + AddEntryLocks(c.fs, c.ret, name)
      + (if AddToRoot(c.fs, c.ret, name).ret == -1 then RollbackLocks(c.ret) else [Give(c.ret)])
  }

  /** An inode number the directory does not keep to would be locked and left. */
  function ExistingLocks(n: int): seq<LockOp> {
    if !ValidInumber(n) then [Take(n)] else [Take(n), Give(n)]
  }

  function OpenLocks(fs: Fs, path: string, flags: Flags): seq<LockOp>
    requires Tables(fs)
  {
    if !ValidPath(path) then []
    else
      var n := Lookup(fs, path);
      LookupLocks(fs, path)
      + (if n >= 0 then ExistingLocks(n) else if flags.create then CreateLocks(fs, path[1..]) else [])
  }

  lemma {:induction false} GoesThroughAfter(first: seq<LockOp>, last: seq<LockOp>)
    requires first == [] || exists n :: ValidInumber(n) && first == [Take(n), Give(n)]
    ensures GoesThrough(first + last, {}) <==> GoesThrough(last, {})
  {
    if first == [] {
      assert first + last == last;
    } else {
      var n := first[0].n;
      assert (first + last)[1..][1..] == last;
      assert {} + {n} - {n} == {};
    }
  }

  /** Making a file goes through if and only if there is room for it: without an inode or a block it locks nothing there is, without an entry it locks twice. */
  lemma CreateLocksExact(fs: Fs, name: string)
    requires Tables(fs) && Consistent(fs) && name != ""
    ensures GoesThrough(CreateLocks(fs, name), {}) <==> CanCreate(fs)
  {
    hide InodeShape, BlockShape, Consistent, RootEntries, CreateFile, AddToRoot;
    CreateLaw(fs);
    RootIsLive(fs);
    var c := CreateFile(fs);
    if c.ret != -1 {
      RootIsLive(c.fs);
      AddToRootLaw(c.fs, c.ret, name);
      var n := c.ret;
      var ops := CreateLocks(fs, name);
      if AddToRoot(c.fs, n, name).ret == -1 {
        assert ops == [Take(n), Take(0), Give(0), Take(n), Give(n), Give(n)];
        TakenTwice(n);
      } else {
        assert ops == [Take(n), Take(0), Give(0), Give(n)];
        TakenOnce(n);
      }
    }
  }

  lemma RootIsLive(fs: Fs)
    requires Tables(fs) && Consistent(fs)
    ensures fs.inodes[ROOT_DIR_INUM].kind.Dir? && fs.inodes[ROOT_DIR_INUM].direct[0] != -1 && fs.inodeTaken[ROOT_DIR_INUM]
  {
  }

  lemma TakenOnce(n: int)
    requires ValidInumber(n) && n != 0
    ensures GoesThrough([Take(n), Take(0), Give(0), Give(n)], {})
  {
    var ops := [Take(n), Take(0), Give(0), Give(n)];
    assert ops[1..] == [Take(0), Give(0), Give(n)] && ops[1..][1..] == [Give(0), Give(n)] && ops[1..][1..][1..] == [Give(n)];
    assert {} + {n} + {0} - {0} - {n} == {};
    assert GoesThrough([Give(n)], {} + {n} + {0} - {0});
    assert GoesThrough([Give(0), Give(n)], {} + {n} + {0});
    assert GoesThrough([Take(0), Give(0), Give(n)], {} + {n});
  }

  lemma TakenTwice(n: int)
    requires n != 0
    ensures !GoesThrough([Take(n), Take(0), Give(0), Take(n), Give(n), Give(n)], {})
  {
    var ops := [Take(n), Take(0), Give(0), Take(n), Give(n), Give(n)];
    var rest := [Take(n), Give(n), Give(n)];
    assert n in {} + {n} + {0} - {0};
    assert !GoesThrough(rest, {} + {n} + {0} - {0});
    assert ([Give(0)] + rest)[1..] == rest;
    assert !GoesThrough([Give(0)] + rest, {} + {n} + {0});
    assert ([Take(0), Give(0)] + rest)[1..] == [Give(0)] + rest;
    assert !GoesThrough([Take(0), Give(0)] + rest, {} + {n});
    assert ops[1..] == [Take(0), Give(0)] + rest;
  }

  /**
   * As written, tfs_open goes through its locks and returns with none of them if and only if it does not set out to make
   * a file there is no room for: neither a failed creation nor the rollback comes back by the rules of locks.
   */
  lemma OpenLocksExact(fs: Fs, path: string, flags: Flags)
    requires Tables(fs) && Consistent(fs)
    ensures GoesThrough(OpenLocks(fs, path, flags), {}) <==>
            !(ValidPath(path) && Lookup(fs, path) < 0 && flags.create && !CanCreate(fs))
  {
    hide InodeShape, BlockShape, Consistent, RootEntries, CreateLocks, Lookup, CanCreate;
    if ValidPath(path) {
      RootIsLive(fs);
      LookupIsFile(fs, path);
      var n := Lookup(fs, path);
      var last := if n >= 0 then ExistingLocks(n) else if flags.create then CreateLocks(fs, path[1..]) else [];
      GoesThroughAfter(LookupLocks(fs, path), last);
      if n >= 0 {
        GoesThroughAfter(ExistingLocks(n), []);
        assert ExistingLocks(n) + [] == ExistingLocks(n);
      } else if flags.create {
        CreateLocksExact(fs, path[1..]);
      }
    }
  }

  /** Which locks these are: the directory's for the lookup, then the file's, or those of making it. */
  lemma OpenLocksAre(fs: Fs, path: string, flags: Flags)
    requires Tables(fs) && Consistent(fs)
    ensures var n, m := Lookup(fs, path), FirstFree(fs.inodeTaken);
            OpenLocks(fs, path, flags) ==
            if |path| < 2 || path[0] != '/' then []
            else if n >= 0 then [Take(0), Give(0), Take(n), Give(n)]
            else if !flags.create then [Take(0), Give(0)]
            else if m == -1 || FirstFree(fs.blockTaken) == -1 then [Take(0), Give(0), Take(-1)]
            else if FirstUnused(RootEntries(fs)) != -1 then [Take(0), Give(0), Take(m), Take(0), Give(0), Give(m)]
            else [Take(0), Give(0), Take(m), Take(0), Give(0), Take(m), Give(m), Give(m)]
  {
    hide InodeShape, BlockShape, Consistent, RootEntries, Lookup, CreateFile, AddToRoot;
    if ValidPath(path) {
      RootIsLive(fs);
      LookupIsFile(fs, path);
      CreateLaw(fs);
      var c := CreateFile(fs);
      if c.ret != -1 {
        RootIsLive(c.fs);
        AddToRootLaw(c.fs, c.ret, path[1..]);
      }
    }
  }
}
