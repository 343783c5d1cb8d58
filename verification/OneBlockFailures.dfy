/** What the operations of the one-block version leave when they cannot do all that is asked, on any tables. */
module OneBlockFailures {
  import opened Bytes
  import opened AllocationTable
  import opened Disk
  import opened OneBlockState

  /** A handle that is not one, or on no inode: -1, and nothing changes. */
  lemma Refused(fs: Fs, h: int, buf: seq<byte>, len: nat)
    requires Tables(fs) && InBlock(fs, h)
    ensures h < 0 || 20 <= h ==>
              Write(fs, h, buf) == Result(fs, -1) && Read(fs, h, len) == ReadResult(fs, -1, []) && Close(fs, h) == Result(fs, -1)
    ensures 0 <= h < 20 && !(0 <= fs.files[h].inumber < 50) ==>
              Write(fs, h, buf) == Result(fs, -1) && Read(fs, h, len) == ReadResult(fs, -1, [])
  {
    hide BlockShape;
  }

  /** A write of no bytes, or at the end of the block, is 0 and changes nothing; the first write to a file fails on a full disk. */
  lemma WritesNothing(fs: Fs, h: int, buf: seq<byte>)
    requires Tables(fs) && InBlock(fs, h) && 0 <= h < 20 && 0 <= fs.files[h].inumber < 50
    ensures var n := fs.files[h].inumber;
            && (buf == [] || fs.files[h].offset == 1024 ==> Write(fs, h, buf) == Result(fs, 0))
            && (buf != [] && fs.files[h].offset < 1024 && fs.inodes[n].size == 0 && CountFree(fs.blockTaken) == 0 ==>
                  Write(fs, h, buf) == Result(fs.(inodes := fs.inodes[n := fs.inodes[n].(block := -1)]), -1))
            && (buf != [] && fs.files[h].offset < 1024 && fs.inodes[n].size > 0 && !(0 <= fs.inodes[n].block < 1024) ==>
                  Write(fs, h, buf) == Result(fs, -1))
  {
    hide BlockShape, CountFree;
    CountFreeZero(fs.blockTaken);
  }

  /** A read of a file with bytes but without a block fails. */
  lemma ReadsNothing(fs: Fs, h: int, len: nat)
    requires Tables(fs) && 0 <= h < 20 && 0 <= fs.files[h].inumber < 50
    ensures var n := fs.files[h].inumber;
            && (fs.files[h].offset == fs.inodes[n].size || len == 0 ==> Read(fs, h, len) == ReadResult(fs, 0, []))
            && (fs.files[h].offset < fs.inodes[n].size && len > 0 && !(0 <= fs.inodes[n].block < 1024) ==>
                  Read(fs, h, len) == ReadResult(fs, -1, []))
  {
    hide BlockShape;
  }

  /** inode_create without a free inode changes nothing. */
  lemma CreateFails(fs: Fs)
    requires Tables(fs)
    ensures CreateFile(fs).ret == -1 <==> CountFree(fs.inodeTaken) == 0
    ensures CreateFile(fs).ret == -1 ==> CreateFile(fs).fs == fs
  {
    hide BlockShape, CountFree;
    CountFreeZero(fs.inodeTaken);
  }

  /** For a directory, without a block the inode is given back, only marked as one that was to be a directory. */
  lemma CreateDirectoryFails(fs: Fs)
    requires Tables(fs)
    ensures var c, n := CreateDirectory(fs), FirstFree(fs.inodeTaken);
            && (c.ret == -1 <==> n == -1 || FirstFree(fs.blockTaken) == -1)
            && (n == -1 ==> c.fs == fs)
            && (n != -1 && c.ret == -1 ==> c.fs == fs.(inodes := fs.inodes[n := Inode(Dir, fs.inodes[n].size, fs.inodes[n].block)]))
  {
    hide BlockShape;
  }

  /** inode_delete: an inode that is not TAKEN is refused; one with bytes and without a block is given up, with -1. */
  lemma DeleteExact(fs: Fs, n: int)
    requires Tables(fs)
    ensures var d := Delete(fs, n);
            && (d.ret == 0 <==> 0 <= n < 50 && fs.inodeTaken[n] && (fs.inodes[n].size == 0 || 0 <= fs.inodes[n].block < 1024))
            && (d.ret == 0 || d.ret == -1)
            && (n < 0 || 50 <= n || !fs.inodeTaken[n] ==> d.fs == fs)
            && (0 <= n < 50 && fs.inodeTaken[n] ==>
                  d.fs == fs.(inodeTaken := fs.inodeTaken[n := false], blockTaken := d.fs.blockTaken))
            && (d.fs.blockTaken ==
                if d.ret == 0 && fs.inodes[n].size > 0 then fs.blockTaken[fs.inodes[n].block := false] else fs.blockTaken)
  {
    hide BlockShape;
  }

  /** add_dir_entry on the root: when it enters the name, and that otherwise nothing changes. */
  lemma AddToRootExact(fs: Fs, sub: int, name: string)
    requires Tables(fs)
    ensures var a, root := AddToRoot(fs, sub, name), fs.inodes[0];
            && (a.ret == 0 || a.ret == -1)
            && (a.ret == 0 <==>
                  && 0 <= sub < 50 && name != "" && root.kind == Dir && 0 <= root.block < 1024
                  && exists i {:trigger RootEntries(fs)[i]} :: 0 <= i < 23 && RootEntries(fs)[i].inumber == -1)
            && (a.ret == -1 ==> a.fs == fs)
  {
    hide BlockShape;
    var i := FirstUnused(RootEntries(fs));
    assert i != -1 ==> RootEntries(fs)[i].inumber == -1;
  }
}
