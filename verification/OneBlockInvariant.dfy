/** What every operation of the one-block file system keeps: ownership of blocks, the directory, the handles, the count. */
module OneBlockInvariant {
  import opened Bytes
  import opened AllocationTable
  import opened Disk
  import opened Directory
  import opened OneBlockState

  predicate LiveFile(fs: Fs, n: int)
    requires Tables(fs)
  {
    0 < n < INODE_TABLE_SIZE && fs.inodeTaken[n] && fs.inodes[n].kind.File?
  }

  function RootBlock(fs: Fs): int
    requires Tables(fs)
  {
    fs.inodes[ROOT_DIR_INUM].block
  }

  ghost predicate RootOk(fs: Fs)
    requires Tables(fs)
  {
    && fs.inodeTaken[ROOT_DIR_INUM] && fs.inodes[ROOT_DIR_INUM].kind.Dir?
    && ValidBlock(RootBlock(fs)) && fs.blockTaken[RootBlock(fs)] && fs.blocks[RootBlock(fs)].Directory?
    && (forall n :: 0 < n < INODE_TABLE_SIZE && fs.inodeTaken[n] ==> fs.inodes[n].kind.File?)
  }

  /** Names are unique, entries name distinct live files, and every live file has its entry. */
  ghost predicate DirectoryOk(fs: Fs)
    requires Tables(fs)
  {
    var entries := RootEntries(fs);
    && (forall i {:trigger InUse(entries, i)} :: InUse(entries, i) ==> LiveFile(fs, entries[i].inumber) && entries[i].name != "")
    && (forall i, j {:trigger InUse(entries, i), InUse(entries, j)} :: InUse(entries, i) && InUse(entries, j) && i != j ==>
          entries[i].name != entries[j].name && entries[i].inumber != entries[j].inumber)
    && (forall n {:trigger LiveFile(fs, n)} :: LiveFile(fs, n) ==> exists i :: Lists(entries, i, n))
  }

  /** File n has bytes, and they are in block b. */
  predicate Owns(fs: Fs, n: int, b: int)
    requires Tables(fs)
  {
    LiveFile(fs, n) && fs.inodes[n].size > 0 && fs.inodes[n].block == b
  }

  /** A block is TAKEN iff it is the root directory's or exactly one live file with bytes names it. */
  ghost predicate BlocksOk(fs: Fs)
    requires Tables(fs)
  {
    && (forall n, b {:trigger Owns(fs, n, b)} :: Owns(fs, n, b) ==>
          ValidBlock(b) && fs.blockTaken[b] && fs.blocks[b].Data? && b != RootBlock(fs))
    && (forall n, m, b {:trigger Owns(fs, n, b), Owns(fs, m, b)} :: Owns(fs, n, b) && Owns(fs, m, b) ==> n == m)
    && (forall b {:trigger fs.blockTaken[b]} :: ValidBlock(b) && fs.blockTaken[b] && b != RootBlock(fs) ==> exists n :: Owns(fs, n, b))
  }

  ghost predicate HandlesOk(fs: Fs)
    requires Tables(fs)
  {
    forall h {:trigger fs.fileTaken[h]} :: ValidHandle(h) && fs.fileTaken[h] ==>
      LiveFile(fs, fs.files[h].inumber) && fs.files[h].offset <= fs.inodes[fs.files[h].inumber].size
  }

  /** Open handles are on live files, wherever they stand. */
  ghost predicate HandlesNamed(fs: Fs)
    requires Tables(fs)
  {
    forall h {:trigger fs.fileTaken[h]} :: ValidHandle(h) && fs.fileTaken[h] ==> LiveFile(fs, fs.files[h].inumber)
  }

  predicate CountOk(fs: Fs) {
    fs.openCount == |fs.fileTaken| - CountFree(fs.fileTaken)
  }

  ghost predicate Inv(fs: Fs)
    requires Tables(fs)
  {
    RootOk(fs) && DirectoryOk(fs) && BlocksOk(fs) && HandlesOk(fs) && CountOk(fs)
  }

  /** The invariant but for where the handles stand. */
  ghost predicate Sound(fs: Fs)
    requires Tables(fs)
  {
    RootOk(fs) && DirectoryOk(fs) && BlocksOk(fs) && HandlesNamed(fs) && CountOk(fs)
  }

  /* ----- capacity ----- */

  /** A set that maps injectively into the first k numbers has at most k elements. */
  lemma {:induction false} Pigeonhole(s: set<int>, f: int -> int, k: nat)
    requires forall x :: x in s ==> 0 <= f(x) < k
    requires forall x, y :: x in s && y in s && f(x) == f(y) ==> x == y
    ensures |s| <= k
    decreases k
  {
    if k == 0 {
      assert forall x :: x in s ==> f(x) < 0;
      assert forall x :: x !in s;
      assert s == {};
    } else if x :| x in s && f(x) == k - 1 {
      Pigeonhole(s - {x}, f, k - 1);
    } else {
      Pigeonhole(s, f, k - 1);
    }
  }

  ghost function EntryOf(fs: Fs, n: int): (i: int)
    requires Tables(fs) && DirectoryOk(fs) && LiveFile(fs, n)
    ensures Lists(RootEntries(fs), i, n)
  {
    var i :| Lists(RootEntries(fs), i, n);
    i
  }

  /** The place of a live inode among the root and the 23 directory entries. */
  ghost function InodePlace(fs: Fs, n: int): (i: int)
    requires Tables(fs)
  {
    if DirectoryOk(fs) && LiveFile(fs, n) then EntryOf(fs, n) else MAX_DIR_ENTRIES
  }

  ghost function BlockPlace(fs: Fs, b: int): (i: int)
    requires Tables(fs)
  {
    if b != RootBlock(fs) && exists n :: Owns(fs, n, b) then
      var n :| Owns(fs, n, b);
      InodePlace(fs, n)
    else MAX_DIR_ENTRIES
  }

  lemma AtMost24Inodes(fs: Fs)
    requires Tables(fs) && RootOk(fs) && DirectoryOk(fs)
    ensures |TakenSet(fs.inodeTaken)| <= 24
  {
    var live := TakenSet(fs.inodeTaken);
    forall x, y | x in live && y in live && InodePlace(fs, x) == InodePlace(fs, y)
      ensures x == y
    {
      assert x != ROOT_DIR_INUM ==> LiveFile(fs, x);
      assert y != ROOT_DIR_INUM ==> LiveFile(fs, y);
    }
    Pigeonhole(live, n => if Tables(fs) then InodePlace(fs, n) else 0, 24);
  }

  lemma AtMost24Blocks(fs: Fs)
    requires Tables(fs) && RootOk(fs) && DirectoryOk(fs) && BlocksOk(fs)
    ensures |TakenSet(fs.blockTaken)| <= 24
  {
    var taken := TakenSet(fs.blockTaken);
    forall x, y | x in taken && y in taken && BlockPlace(fs, x) == BlockPlace(fs, y)
      ensures x == y
    {
    }
    Pigeonhole(taken, b => if Tables(fs) then BlockPlace(fs, b) else 0, 24);
  }

  /** So neither table is ever full: inode_create and the allocation in tfs_write cannot fail. */
  lemma NeverFull(fs: Fs)
    requires Tables(fs) && RootOk(fs) && DirectoryOk(fs) && BlocksOk(fs)
    ensures FirstFree(fs.inodeTaken) != -1 && FirstFree(fs.blockTaken) != -1
  {
    AtMost24Inodes(fs);
    AtMost24Blocks(fs);
    TakenCount(fs.inodeTaken);
    TakenCount(fs.blockTaken);
    CountFreeZero(fs.inodeTaken);
    CountFreeZero(fs.blockTaken);
  }
}
