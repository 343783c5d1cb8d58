/** What the operations of the multi-block version leave when they cannot do all that is asked, in either variant. */
module IndexedFailures {
  import opened Bytes
  import opened AllocationTable
  import opened Disk
  import opened IndexedState
  import opened IndexedOwnership
  import opened IndexedWrite
  import opened IndexedWriteLaw
  import opened IndexedOps
  import opened IndexedRuns

  /* ----- tfs_write and tfs_read ----- */

  /** A handle or a length that is not one: -1, and nothing changes. */
  lemma Refused(v: Variant, fs: Fs, h: int, buf: seq<byte>, len: nat)
    requires Tables(fs)
    ensures h < 0 || 20 <= h || |buf| % 0x1_0000_0000 >= 0x8000_0000 ==> Write(v, fs, h, buf) == WriteResult(fs, -1)
    ensures h < 0 || 20 <= h ==> Read(v, fs, h, len) == ReadResult(fs, -1, []) && Close(fs, h) == Result(fs, -1)
    ensures 0 <= h < 20 && !(0 <= fs.files[h].inumber < 50) ==>
              Write(v, fs, h, buf) == WriteResult(fs, -1) && Read(v, fs, h, len) == ReadResult(fs, -1, [])
  {
    hide InodeShape, BlockShape, WriteAt, ReadAt;
  }

  /** A file without an index block cannot be written or read, not even in its direct blocks. */
  lemma NoIndexBlock(v: Variant, fs: Fs, h: int, buf: seq<byte>, len: nat)
    requires Tables(fs) && 0 <= h < 20 && 0 <= fs.files[h].inumber < 50
    requires fs.inodes[fs.files[h].inumber].indexBlock == -1
    requires forall i :: 0 <= i < 10 ==> fs.inodes[fs.files[h].inumber].direct[i] != -1
    ensures Write(v, fs, h, buf).ret == -1 && Read(v, fs, h, len).ret == -1
  {
    hide InodeShape, BlockShape, WriteAt, ReadAt, AsInt32;
    UnindexedWrite(v, fs, h, WriteOffset(fs, h), buf);
    UnindexedRead(v, fs, h, len);
  }

  lemma UnindexedWrite(v: Variant, fs: Fs, h: int, o: nat, buf: seq<byte>)
    requires Tables(fs) && ValidHandle(h) && ValidInumber(fs.files[h].inumber)
    requires fs.inodes[fs.files[h].inumber].indexBlock == -1
    requires forall i :: 0 <= i < DIRECT ==> fs.inodes[fs.files[h].inumber].direct[i] != -1
    ensures WriteAt(v, fs, h, o, buf).ret == -1
  {
    hide InodeShape, BlockShape, WriteLoop;
    DirectThere(v, WriteCursor(fs, o / BLOCK_SIZE, o, 0, false), fs.files[h].inumber, buf);
  }

  lemma UnindexedRead(v: Variant, fs: Fs, h: int, len: nat)
    requires Tables(fs) && ValidHandle(h) && ValidInumber(fs.files[h].inumber)
    requires fs.inodes[fs.files[h].inumber].indexBlock == -1
    requires forall i :: 0 <= i < DIRECT ==> fs.inodes[fs.files[h].inumber].direct[i] != -1
    ensures ReadAt(v, fs, h, len).ret == -1
  {
    hide InodeShape, BlockShape, ReadLoop;
    var n := fs.files[h].inumber;
    var o := Min(fs.files[h].offset, fs.inodes[n].size);
    ReadThere(v, ReadCursor(o / BLOCK_SIZE, o, [], false), fs, n, Min(len, fs.inodes[n].size - o));
  }

  lemma {:induction false} DirectThere(v: Variant, c: WriteCursor, n: int, buf: seq<byte>)
    requires Writable(c, n, buf) && !c.full && forall i :: 0 <= i < DIRECT ==> c.fs.inodes[n].direct[i] != -1
    ensures var d := WriteLoop(v, c, n, buf, DIRECT);
            !d.full && d.fs.inodes == c.fs.inodes
    decreases DIRECT - c.slot
  {
    hide InodeShape, BlockShape, PutBytes;
    if c.slot < DIRECT && c.done < |buf| {
      assert Ref(c.fs, n, c.slot) != -1;
      DirectThere(v, WriteStep(v, c, n, buf), n, buf);
    }
  }

  lemma {:induction false} ReadThere(v: Variant, c: ReadCursor, fs: Fs, n: int, toRead: nat)
    requires Tables(fs) && ValidInumber(n) && !c.missing && forall i :: 0 <= i < DIRECT ==> fs.inodes[n].direct[i] != -1
    ensures !ReadLoop(v, c, fs, n, toRead, DIRECT).missing
    decreases DIRECT - c.slot
  {
    hide InodeShape, BlockShape;
    if c.slot < DIRECT && |c.data| < toRead {
      assert Ref(fs, n, c.slot) != -1;
      ReadThere(v, ReadStep(v, c, fs, n, toRead), fs, n, toRead);
    }
  }

  /**
   * A write that runs into a full disk returns what it has written and moves the offset, but as written it does not make
   * the file any longer: what lies past the size is lost to readers.  Any other write stores the offset it ends at as the
   * size, if the file was shorter.
   */
  lemma FullDisk(v: Variant, fs: Fs, h: int, n: int, buf: seq<byte>)
    requires Tables(fs) && Owned(fs) && ValidHandle(h) && fs.files[h].inumber == n && IsFile(fs, n)
    requires |buf| % 0x1_0000_0000 < 0x8000_0000
    ensures var w := Write(v, fs, h, buf);
            var r := WriteLoop(v, Start(fs, WriteOffset(fs, h)), n, buf, SLOTS);
            && w.ret == r.done && w.fs.files[h].offset == r.offset
            && w.fs.inodes[n].size == (if r.full && v.AsWritten? then fs.inodes[n].size else Max(fs.inodes[n].size, r.offset))
            && (r.full <==> r.done < |buf| && r.slot < 266 && Ref(w.fs, n, r.slot) == -1)
            && (r.full ==> CountFree(w.fs.blockTaken) == 0)
  {
    hide InodeShape, BlockShape, Owned, Ref, WriteLoop, WriteAt;
    var c := Start(fs, WriteOffset(fs, h));
    var r := WriteLoop(v, c, n, buf, SLOTS);
    WriteAtOneLoop(v, fs, h, WriteOffset(fs, h), buf);
    WriteLoopOwned(v, c, n, buf, SLOTS);
    WriteLoopVisits(v, c, n, buf);
    FinishRelabels(v, r, n, h);
    RelabelledCells(r.fs, Write(v, fs, h, buf).fs, n);
  }

  /* ----- inodes and the directory ----- */

  /** inode_create without an inode changes nothing; without a block for the numbers it fails and the inode stays TAKEN. */
  lemma CreateFails(fs: Fs)
    requires Tables(fs)
    ensures var c, n := CreateFile(fs), FirstFree(fs.inodeTaken);
            && (c.ret == -1 <==> n == -1 || FirstFree(fs.blockTaken) == -1)
            && (n == -1 ==> c.fs == fs)
            && (n != -1 && c.ret == -1 ==> c.fs.inodeTaken == fs.inodeTaken[n := true] && c.fs.blockTaken == fs.blockTaken && c.fs.blocks == fs.blocks)
  {
    hide InodeShape, BlockShape;
  }

  /** For a directory, without a block the inode is given back, only marked as one that was to be a directory. */
  lemma CreateDirectoryFails(fs: Fs)
    requires Tables(fs)
    ensures var c, n := CreateDirectory(fs), FirstFree(fs.inodeTaken);
            && (c.ret == -1 <==> n == -1 || FirstFree(fs.blockTaken) == -1)
            && (n == -1 ==> c.fs == fs)
            && (n != -1 && c.ret == -1 ==>
                  && c.fs == fs.(inodes := c.fs.inodes)
                  && c.fs.inodes == fs.inodes[n := Inode(Dir, fs.inodes[n].size, [-1, -1, -1, -1, -1, -1, -1, -1, -1, -1], fs.inodes[n].indexBlock)])
  {
    hide InodeShape, BlockShape;
    assert NoBlocks(DIRECT) == [-1, -1, -1, -1, -1, -1, -1, -1, -1, -1];
  }

  /** inode_delete: an inode that is not TAKEN is refused; one without an index block is given up, with -1. */
  lemma DeleteExact(v: Variant, fs: Fs, n: int)
    requires Tables(fs)
    ensures var d := Delete(v, fs, n);
            && (d.ret == 0 <==> 0 <= n < 50 && fs.inodeTaken[n] && fs.inodes[n].indexBlock != -1)
            && (d.ret == 0 || d.ret == -1)
            && (n < 0 || 50 <= n || !fs.inodeTaken[n] ==> d.fs == fs)
            && (0 <= n < 50 ==> d.fs.inodeTaken == fs.inodeTaken[n := false])
            && (d.ret == 0 ==> !d.fs.blockTaken[fs.inodes[n].indexBlock])
            && (0 <= n < 50 && fs.inodeTaken[n] ==> forall i :: 0 <= i < 10 && fs.inodes[n].direct[i] != -1 ==> !d.fs.blockTaken[fs.inodes[n].direct[i]])
  {
    hide BlockShape;
    assert 0 <= n < 50 && !fs.inodeTaken[n] ==> fs.inodeTaken == fs.inodeTaken[n := false];
  }

  /** add_dir_entry on the root: when it enters the name, and that otherwise nothing changes. */
  lemma AddToRootExact(fs: Fs, sub: int, name: string)
    requires Tables(fs)
    ensures var a, root := AddToRoot(fs, sub, name), fs.inodes[0];
            && (a.ret == 0 || a.ret == -1)
            && (a.ret == 0 <==>
                  && 0 <= sub < 50 && name != "" && root.kind == Dir && root.direct[0] != -1
                  && exists i {:trigger RootEntries(fs)[i]} :: 0 <= i < 23 && RootEntries(fs)[i].inumber == -1)
            && (a.ret == -1 ==> a.fs == fs)
  {
    hide InodeShape, BlockShape;
    var i := FirstUnused(RootEntries(fs));
    assert i != -1 ==> RootEntries(fs)[i].inumber == -1;
  }
}
