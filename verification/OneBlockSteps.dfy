/** Each operation of the one-block file system keeps the invariant and changes the abstract value as its name says. */
module OneBlockSteps {
  import opened Bytes
  import opened AllocationTable
  import opened Disk
  import opened HandleTable
  import opened Directory
  import opened OneBlockState
  import opened OneBlockInvariant
  import opened OneBlockRefinement
  import Spec = OneBlockSpec

  /** The directory and the set of live files are the same. */
  predicate SameDirectory(fs: Fs, g: Fs)
    requires Tables(fs) && Tables(g)
  {
    && g.inodeTaken == fs.inodeTaken && g.inodes[ROOT_DIR_INUM] == fs.inodes[ROOT_DIR_INUM]
    && (forall n :: 0 <= n < INODE_TABLE_SIZE ==> g.inodes[n].kind == fs.inodes[n].kind)
    && g.blocks[RootBlockOr0(fs)] == fs.blocks[RootBlockOr0(fs)]
    && g.blockTaken[RootBlockOr0(fs)] == fs.blockTaken[RootBlockOr0(fs)]
  }

  function RootBlockOr0(fs: Fs): (b: int)
    requires Tables(fs)
    ensures ValidBlock(b)
  {
    if ValidBlock(RootBlock(fs)) then RootBlock(fs) else 0
  }

  lemma DirectoryKept(fs: Fs, g: Fs)
    requires Tables(fs) && Tables(g) && RootOk(fs) && DirectoryOk(fs) && SameDirectory(fs, g)
    ensures RootOk(g) && DirectoryOk(g)
    ensures RootEntries(g) == RootEntries(fs) && RootBlock(g) == RootBlock(fs)
    ensures forall n :: LiveFile(g, n) <==> LiveFile(fs, n)
  {
    hide BlockShape;
    assert RootEntries(g) == RootEntries(fs);
    forall n ensures LiveFile(g, n) <==> LiveFile(fs, n) {
    }
  }

  /** Only file n changes, to data. */
  lemma FilesFramed(fs: Fs, g: Fs, n: int, data: seq<byte>)
    requires Tables(fs) && Tables(g) && DirectoryOk(fs) && DirectoryOk(g) && RootEntries(g) == RootEntries(fs)
    requires LiveFile(fs, n) && FileBytes(g, n) == data
    requires forall m :: LiveFile(fs, m) && m != n ==> FileBytes(g, m) == FileBytes(fs, m)
    ensures AbsFiles(g) == AbsFiles(fs)[NameOf(RootEntries(fs), n) := data]
  {
    hide BlockShape, RootEntries, DirectoryOk, FileBytes, NameOf, InumberOf, Names;
    FileNamed(fs, n);
    forall name | name in Names(RootEntries(fs)) ensures AbsFiles(g)[name] == AbsFiles(fs)[NameOf(RootEntries(fs), n) := data][name] {
      NameFound(fs, name);
    }
  }

  /** No file changes. */
  lemma FilesSame(fs: Fs, g: Fs)
    requires Tables(fs) && Tables(g) && DirectoryOk(fs) && RootEntries(g) == RootEntries(fs)
    requires forall m :: LiveFile(fs, m) ==> FileBytes(g, m) == FileBytes(fs, m)
    ensures AbsFiles(g) == AbsFiles(fs)
  {
    hide BlockShape, RootEntries, DirectoryOk, FileBytes, NameOf, InumberOf, Names;
    forall name | name in Names(RootEntries(fs)) ensures AbsFiles(g)[name] == AbsFiles(fs)[name] {
      NameFound(fs, name);
    }
  }

  /* ----- tfs_write ----- */

  /** The block a write goes to. */
  function Target(fs: Fs, n: int): int
    requires Tables(fs) && ValidInumber(n)
  {
    if fs.inodes[n].size > 0 then fs.inodes[n].block else FirstFree(fs.blockTaken)
  }

  /** A write of k > 0 bytes is the update of one block, one inode and one handle. */
  lemma WriteShape(fs: Fs, h: int, buf: seq<byte>)
    requires Tables(fs) && Inv(fs) && ValidHandle(h) && fs.fileTaken[h]
    requires WriteCount(fs.files[h].offset, |buf|) > 0
    ensures var n := fs.files[h].inumber;
            var off := fs.files[h].offset;
            var k := WriteCount(off, |buf|);
            var b := Target(fs, n);
            var r := Write(fs, h, buf);
            && LiveFile(fs, n) && ValidBlock(b) && b != RootBlock(fs)
            && (forall m :: Owns(fs, m, b) ==> m == n)
            && r.ret == k && r.fs.inodes == fs.inodes[n := Inode(File, Max(fs.inodes[n].size, off + k), b)]
            && r.fs.blockTaken == fs.blockTaken[b := true]
            && r.fs.blocks == fs.blocks[b := PutBytes(fs.blocks[b], off, buf[..k])]
            && r.fs.files == fs.files[h := OpenFile(n, off + k)]
            && r.fs.inodeTaken == fs.inodeTaken && r.fs.fileTaken == fs.fileTaken
            && r.fs.openCount == fs.openCount && r.fs.closing == fs.closing
  {
    hide BlockShape, PutBytes, DirectoryOk, CountOk, RootOk, BlocksOk, EnsureBlock, Owns;
    var n := fs.files[h].inumber;
    assert LiveFile(fs, n);
    TargetShape(fs, n);
  }

  /** The block a write to file n goes to is nobody else's, and after the allocation it is the file's. */
  lemma TargetShape(fs: Fs, n: int)
    requires Tables(fs) && Inv(fs) && LiveFile(fs, n)
    ensures var b := Target(fs, n);
            && ValidBlock(b) && b != RootBlock(fs) && (forall m :: Owns(fs, m, b) ==> m == n)
            && EnsureBlock(fs, n) == fs.(blockTaken := fs.blockTaken[b := true], inodes := fs.inodes[n := fs.inodes[n].(block := b)])
  {
    hide BlockShape, DirectoryOk, CountOk, HandlesOk;
    if fs.inodes[n].size > 0 {
      assert Owns(fs, n, fs.inodes[n].block);
      assert fs.blockTaken[fs.inodes[n].block := true] == fs.blockTaken;
      assert fs.inodes[n := fs.inodes[n].(block := fs.inodes[n].block)] == fs.inodes;
    } else {
      NeverFull(fs);
      var b := FirstFree(fs.blockTaken);
      assert !fs.blockTaken[b];
      forall m ensures !Owns(fs, m, b) {
      }
    }
  }

  lemma WriteKeeps(fs: Fs, h: int, buf: seq<byte>)
    requires Tables(fs) && Inv(fs) && ValidHandle(h) && fs.fileTaken[h]
    ensures Inv(Write(fs, h, buf).fs)
  {
    hide BlockShape, PutBytes, DirectoryOk, RootEntries, Write, BlocksOk;
    if WriteCount(fs.files[h].offset, |buf|) == 0 {
      WriteNothing(fs, h, buf);
    } else {
      WriteShape(fs, h, buf);
      DirectoryKept(fs, Write(fs, h, buf).fs);
      WriteKeepsBlocks(fs, h, buf);
    }
  }

  lemma WriteKeepsBlocks(fs: Fs, h: int, buf: seq<byte>)
    requires Tables(fs) && Inv(fs) && ValidHandle(h) && fs.fileTaken[h] && WriteCount(fs.files[h].offset, |buf|) > 0
    ensures BlocksOk(Write(fs, h, buf).fs)
  {
    hide BlockShape, PutBytes, DirectoryOk, RootEntries, Write, HandlesOk, CountOk;
    var n := fs.files[h].inumber;
    var g := Write(fs, h, buf).fs;
    WriteShape(fs, h, buf);
    forall m, b ensures Owns(g, m, b) <==> (if m == n then b == Target(fs, n) else Owns(fs, m, b)) {
    }
    forall b | ValidBlock(b) && g.blockTaken[b] && b != RootBlock(g) ensures exists m :: Owns(g, m, b) {
      if b == Target(fs, n) {
        assert Owns(g, n, b);
      } else {
        assert fs.blockTaken[b];
        var m :| Owns(fs, m, b);
        assert Owns(g, m, b);
      }
    }
  }

  lemma WriteNothing(fs: Fs, h: int, buf: seq<byte>)
    requires Tables(fs) && Inv(fs) && ValidHandle(h) && fs.fileTaken[h] && WriteCount(fs.files[h].offset, |buf|) == 0
    ensures Write(fs, h, buf) == Result(fs, 0)
  {
    hide BlockShape, DirectoryOk, BlocksOk, CountOk;
    assert LiveFile(fs, fs.files[h].inumber);
  }

  /** Laying d over a block and then cutting it to the new size is laying d over the file. */
  lemma SpliceCut(block: seq<byte>, size: nat, off: nat, d: seq<byte>)
    requires off <= size <= |block| && off + |d| <= |block|
    ensures Splice(block, off, d)[..Max(size, off + |d|)] == Splice(block[..size], off, d)
  {
  }

  lemma WriteBytes(fs: Fs, h: int, buf: seq<byte>)
    requires Tables(fs) && Inv(fs) && ValidHandle(h) && fs.fileTaken[h] && WriteCount(fs.files[h].offset, |buf|) > 0
    ensures var n := fs.files[h].inumber;
            var off := fs.files[h].offset;
            var g := Write(fs, h, buf).fs;
            && LiveFile(fs, n) && off <= |FileBytes(fs, n)|
            && FileBytes(g, n) == Splice(FileBytes(fs, n), off, buf[..WriteCount(off, |buf|)])
            && forall m :: LiveFile(fs, m) && m != n ==> FileBytes(g, m) == FileBytes(fs, m)
  {
    hide BlockShape, Write, DirectoryOk, RootEntries, CountOk, RootOk, BlocksOk, HandlesOk, Splice, FileBytes;
    WriteShape(fs, h, buf);
    WriteOwnBytes(fs, h, buf);
    forall m | LiveFile(fs, m) && m != fs.files[h].inumber ensures FileBytes(Write(fs, h, buf).fs, m) == FileBytes(fs, m) {
      WriteOtherBytes(fs, h, buf, m);
    }
  }

  lemma PutBytesOf(b: Block, at: nat, d: seq<byte>)
    requires BlockShape(b) && at + |d| <= BLOCK_SIZE
    ensures BytesOf(PutBytes(b, at, d)) == Splice(BytesOf(b), at, d)
  {
  }

  lemma WriteOwnBytes(fs: Fs, h: int, buf: seq<byte>)
    requires Tables(fs) && Inv(fs) && ValidHandle(h) && fs.fileTaken[h] && WriteCount(fs.files[h].offset, |buf|) > 0
    ensures var n := fs.files[h].inumber;
            var off := fs.files[h].offset;
            && LiveFile(fs, n) && off <= |FileBytes(fs, n)|
            && FileBytes(Write(fs, h, buf).fs, n) == Splice(FileBytes(fs, n), off, buf[..WriteCount(off, |buf|)])
  {
    hide BlockShape, Write, DirectoryOk, RootEntries, CountOk, RootOk, BytesOf, PutBytes, Splice;
    var n := fs.files[h].inumber;
    var b := Target(fs, n);
    WriteShape(fs, h, buf);
    FileSize(fs, n);
    var off, k := fs.files[h].offset, WriteCount(fs.files[h].offset, |buf|);
    SpliceCut(BytesOf(fs.blocks[b]), fs.inodes[n].size, off, buf[..k]);
    PutBytesOf(fs.blocks[b], off, buf[..k]);
    assert FileBytes(fs, n) == BytesOf(fs.blocks[b])[..fs.inodes[n].size];
  }

  lemma WriteOtherBytes(fs: Fs, h: int, buf: seq<byte>, m: int)
    requires Tables(fs) && Inv(fs) && ValidHandle(h) && fs.fileTaken[h] && WriteCount(fs.files[h].offset, |buf|) > 0
    requires LiveFile(fs, m) && m != fs.files[h].inumber
    ensures FileBytes(Write(fs, h, buf).fs, m) == FileBytes(fs, m)
  {
    hide BlockShape, Write, DirectoryOk, RootEntries, CountOk, RootOk, BytesOf, PutBytes, HandlesOk, BlocksOk;
    WriteShape(fs, h, buf);
    if fs.inodes[m].size > 0 {
      assert Owns(fs, m, fs.inodes[m].block);
    }
  }

  /** Only the offset of handle h changes. */
  lemma HandlesMoved(fs: Fs, g: Fs, h: int, off: nat)
    requires Tables(fs) && Tables(g) && RootEntries(g) == RootEntries(fs) && g.fileTaken == fs.fileTaken
    requires ValidHandle(h) && fs.fileTaken[h] && g.files == fs.files[h := OpenFile(fs.files[h].inumber, off)]
    ensures AbsHandles(g) == AbsHandles(fs)[h := Spec.Handle(NameOf(RootEntries(fs), fs.files[h].inumber), off)]
  {
    hide BlockShape, RootEntries, NameOf;
  }

  /** A handle is an open file of the map. */
  lemma HandleNamed(fs: Fs, h: int)
    requires Tables(fs) && Inv(fs) && ValidHandle(h) && fs.fileTaken[h]
    ensures var n := fs.files[h].inumber;
            var name := NameOf(RootEntries(fs), n);
            && LiveFile(fs, n) && name in AbsFiles(fs) && AbsFiles(fs)[name] == FileBytes(fs, n)
            && h in AbsHandles(fs) && AbsHandles(fs)[h] == Spec.Handle(name, fs.files[h].offset)
            && |FileBytes(fs, n)| == fs.inodes[n].size && fs.files[h].offset <= fs.inodes[n].size
  {
    hide BlockShape, RootEntries, DirectoryOk, CountOk, BlocksOk, RootOk, FileBytes, NameOf, Names, InumberOf;
    var n := fs.files[h].inumber;
    assert LiveFile(fs, n);
    FileNamed(fs, n);
    FileSize(fs, n);
  }

  /** Writing puts the bytes that fit at the offset of the handle, moves it past them, and changes nothing else. */
  lemma WriteRefines(fs: Fs, h: int, buf: seq<byte>)
    requires Tables(fs) && Inv(fs) && ValidHandle(h) && fs.fileTaken[h]
    ensures Spec.WellFormed(Abs(fs))
    ensures Spec.Write(Abs(fs), h, buf) == Spec.Outcome(Abs(Write(fs, h, buf).fs), Spec.Reply(Write(fs, h, buf).ret, []))
  {
    hide BlockShape, Inv, Write, RootEntries, FileBytes, NameOf, AbsFiles, AbsHandles, Splice;
    AbsWellFormed(fs);
    HandleNamed(fs, h);
    var k := WriteCount(fs.files[h].offset, |buf|);
    if k == 0 {
      WriteNothing(fs, h, buf);
      var name, off := AbsHandles(fs)[h].name, AbsHandles(fs)[h].offset;
      SpliceNothing(AbsFiles(fs)[name], off);
      assert buf[..0] == [];
      assert AbsHandles(fs)[h := AbsHandles(fs)[h]] == AbsHandles(fs);
      assert AbsFiles(fs)[name := AbsFiles(fs)[name]] == AbsFiles(fs);
    } else {
      WriteEffect(fs, h, buf);
    }
  }

  lemma SpliceNothing<T>(c: seq<T>, o: nat)
    requires o <= |c|
    ensures Splice(c, o, []) == c
  {
  }

  lemma WriteEffect(fs: Fs, h: int, buf: seq<byte>)
    requires Tables(fs) && Inv(fs) && ValidHandle(h) && fs.fileTaken[h] && WriteCount(fs.files[h].offset, |buf|) > 0
    ensures var name := NameOf(RootEntries(fs), fs.files[h].inumber);
            var off := fs.files[h].offset;
            var k := WriteCount(off, |buf|);
            var r := Write(fs, h, buf);
            && r.ret == k && r.fs.closing == fs.closing && off <= |FileBytes(fs, fs.files[h].inumber)|
            && AbsFiles(r.fs) == AbsFiles(fs)[name := Splice(FileBytes(fs, fs.files[h].inumber), off, buf[..k])]
            && AbsHandles(r.fs) == AbsHandles(fs)[h := Spec.Handle(name, off + k)]
  {
    hide BlockShape, Write, Inv, DirectoryOk, RootEntries, FileBytes, NameOf, AbsFiles, AbsHandles, Splice, PutBytes;
    var g := Write(fs, h, buf).fs;
    var n := fs.files[h].inumber;
    WriteShape(fs, h, buf);
    WriteBytes(fs, h, buf);
    WriteDirectory(fs, h, buf);
    WriteKeepsDirectory(fs, h, buf);
    FilesFramed(fs, g, n, FileBytes(g, n));
    HandlesMoved(fs, g, h, fs.files[h].offset + WriteCount(fs.files[h].offset, |buf|));
  }

  lemma WriteKeepsDirectory(fs: Fs, h: int, buf: seq<byte>)
    requires Tables(fs) && Inv(fs) && ValidHandle(h) && fs.fileTaken[h]
    ensures DirectoryOk(fs) && DirectoryOk(Write(fs, h, buf).fs)
  {
    hide BlockShape, Write, DirectoryOk, RootEntries, CountOk, BlocksOk, RootOk;
    WriteKeeps(fs, h, buf);
  }

  lemma WriteDirectory(fs: Fs, h: int, buf: seq<byte>)
    requires Tables(fs) && Inv(fs) && ValidHandle(h) && fs.fileTaken[h]
    ensures RootEntries(Write(fs, h, buf).fs) == RootEntries(fs)
  {
    hide BlockShape, Write, EnsureBlock, StoreBytes, DirectoryOk, BlocksOk, CountOk, PutBytes;
    if WriteCount(fs.files[h].offset, |buf|) == 0 {
      WriteNothing(fs, h, buf);
    } else {
      WriteShape(fs, h, buf);
    }
  }

  lemma AbsWellFormed(fs: Fs)
    requires Tables(fs) && Inv(fs)
    ensures Spec.WellFormed(Abs(fs))
  {
    hide BlockShape, DirectoryOk, RootEntries, CountOk, BlocksOk, NameOf, Names, InumberOf;
    forall h | h in AbsHandles(fs)
      ensures AbsHandles(fs)[h].name in AbsFiles(fs) && AbsHandles(fs)[h].offset <= |AbsFiles(fs)[AbsHandles(fs)[h].name]|
    {
      var n := fs.files[h].inumber;
      FileNamed(fs, n);
      FileSize(fs, n);
    }
  }

  lemma FileSize(fs: Fs, n: int)
    requires Tables(fs) && BlocksOk(fs) && LiveFile(fs, n)
    ensures |FileBytes(fs, n)| == fs.inodes[n].size
  {
    hide BlockShape, RootEntries;
    assert fs.inodes[n].size > 0 ==> Owns(fs, n, fs.inodes[n].block);
  }

  /* ----- tfs_read ----- */

  /** What a read through a handle inside its file comes to, in the terms of the tables. */
  lemma ReadInside(fs: Fs, h: int, len: nat)
    requires Tables(fs) && ValidHandle(h) && ValidInumber(fs.files[h].inumber)
    requires fs.files[h].offset <= fs.inodes[fs.files[h].inumber].size
    requires fs.inodes[fs.files[h].inumber].size > 0 ==> ValidBlock(fs.inodes[fs.files[h].inumber].block)
    ensures var off, n := fs.files[h].offset, fs.files[h].inumber;
            var k := Min(fs.inodes[n].size - off, len);
            Read(fs, h, len) ==
            if k == 0 then ReadResult(fs, 0, [])
            else ReadResult(fs.(files := fs.files[h := fs.files[h].(offset := off + k)]), k, BytesOf(fs.blocks[fs.inodes[n].block])[off..off + k])
  {
    hide BlockShape, BytesOf, Memory;
    var n, off := fs.files[h].inumber, fs.files[h].offset;
    ReadCountExact(fs.inodes[n].size, off, len);
    var k := ReadCount(fs.inodes[n].size, off, len);
    if k > 0 {
      MemoryInBlock(fs.blocks, fs.inodes[n].block, off, k);
      assert (off + k) % SIZE_MODULUS == off + k;
    }
  }

  lemma SliceOfPrefix(b: seq<byte>, size: nat, off: nat, len: nat)
    requires off <= size <= |b|
    ensures Slice(b[..size], off, len) == b[off..off + Min(size - off, len)]
  {
  }

  /** The bytes of a file from an offset inside it on. */
  lemma FileSlice(fs: Fs, n: int, off: nat, len: nat)
    requires Tables(fs) && BlocksOk(fs) && LiveFile(fs, n) && off <= fs.inodes[n].size
    ensures var k := Min(fs.inodes[n].size - off, len);
            && |Slice(FileBytes(fs, n), off, len)| == k
            && (k > 0 ==> ValidBlock(fs.inodes[n].block)
                          && Slice(FileBytes(fs, n), off, len) == BytesOf(fs.blocks[fs.inodes[n].block])[off..off + k])
  {
    hide BlockShape, RootEntries, BytesOf, Slice;
    FileSize(fs, n);
    if fs.inodes[n].size > 0 {
      assert Owns(fs, n, fs.inodes[n].block);
      SliceOfPrefix(BytesOf(fs.blocks[fs.inodes[n].block]), fs.inodes[n].size, off, len);
    }
  }

  lemma ReadShape(fs: Fs, h: int, len: nat)
    requires Tables(fs) && Inv(fs) && ValidHandle(h) && fs.fileTaken[h]
    ensures var n := fs.files[h].inumber;
            var off := fs.files[h].offset;
            var data := Slice(FileBytes(fs, n), off, len);
            && LiveFile(fs, n) && off <= fs.inodes[n].size
            && Read(fs, h, len) == ReadResult(fs.(files := fs.files[h := OpenFile(n, off + |data|)]), |data|, data)
  {
    hide BlockShape, DirectoryOk, CountOk, RootEntries, RootOk, BytesOf, Read, Slice, FileBytes;
    var n := fs.files[h].inumber;
    assert LiveFile(fs, n);
    assert fs.inodes[n].size > 0 ==> Owns(fs, n, fs.inodes[n].block);
    assert fs.files[h := fs.files[h]] == fs.files;
    FileSlice(fs, n, fs.files[h].offset, len);
    ReadInside(fs, h, len);
  }

  lemma ReadKeeps(fs: Fs, h: int, len: nat)
    requires Tables(fs) && Inv(fs) && ValidHandle(h) && fs.fileTaken[h]
    ensures Inv(Read(fs, h, len).fs)
  {
    hide BlockShape, DirectoryOk, RootEntries, Read, FileBytes, BlocksOk;
    var g := Read(fs, h, len).fs;
    ReadShape(fs, h, len);
    FileSize(fs, fs.files[h].inumber);
    DirectoryKept(fs, g);
    BlocksKept(fs, g);
  }

  /** Ownership is a matter of the inodes and the allocation table. */
  lemma BlocksKept(fs: Fs, g: Fs)
    requires Tables(fs) && Tables(g) && BlocksOk(fs)
    requires g.inodes == fs.inodes && g.inodeTaken == fs.inodeTaken && g.blocks == fs.blocks && g.blockTaken == fs.blockTaken
    ensures BlocksOk(g)
  {
    hide BlockShape;
    forall n, b ensures Owns(g, n, b) <==> Owns(fs, n, b) {
    }
    forall b | ValidBlock(b) && g.blockTaken[b] && b != RootBlock(g) ensures exists n :: Owns(g, n, b) {
      assert fs.blockTaken[b];
      var n :| Owns(fs, n, b);
      assert Owns(g, n, b);
    }
  }

  /** Reading returns the bytes from the offset on, moves the handle past them, and changes nothing else. */
  lemma ReadRefines(fs: Fs, h: int, len: nat)
    requires Tables(fs) && Inv(fs) && ValidHandle(h) && fs.fileTaken[h]
    ensures Spec.WellFormed(Abs(fs))
    ensures var r := Read(fs, h, len);
            Spec.Read(Abs(fs), h, len) == Spec.Outcome(Abs(r.fs), Spec.Reply(r.ret, r.data))
  {
    hide BlockShape, Inv, Read, RootEntries, FileBytes, NameOf, AbsFiles, AbsHandles, Slice;
    AbsWellFormed(fs);
    HandleNamed(fs, h);
    ReadShape(fs, h, len);
    ReadEffect(fs, h, len);
  }

  lemma ReadEffect(fs: Fs, h: int, len: nat)
    requires Tables(fs) && Inv(fs) && ValidHandle(h) && fs.fileTaken[h]
    ensures var r := Read(fs, h, len);
            var n := fs.files[h].inumber;
            && AbsFiles(r.fs) == AbsFiles(fs)
            && AbsHandles(r.fs) == AbsHandles(fs)[h := Spec.Handle(NameOf(RootEntries(fs), n),
                                                                   fs.files[h].offset + |Slice(FileBytes(fs, n), fs.files[h].offset, len)|)]
  {
    hide BlockShape, Read, NameOf, AbsFiles, AbsHandles, Slice, DirectoryOk, BlocksOk, CountOk;
    var g := Read(fs, h, len).fs;
    ReadShape(fs, h, len);
    FilesSame(fs, g);
    HandlesMoved(fs, g, h, g.files[h].offset);
  }

  /** Every read through an open handle is answered as the map answers it. */
  ghost predicate ReadsAgree(fs: Fs)
    requires Tables(fs) && Sound(fs)
  {
    forall h, len: nat :: ValidHandle(h) && fs.fileTaken[h] ==> ReadAgrees(fs, h, len)
  }

  ghost predicate ReadAgrees(fs: Fs, h: int, len: nat)
    requires Tables(fs) && Sound(fs) && ValidHandle(h) && fs.fileTaken[h]
  {
    HandleOnFile(fs, h);
    var r := Read(fs, h, len);
    Spec.Read(Abs(fs), h, len).reply == Spec.Reply(r.ret, r.data)
  }

  lemma HandleOnFile(fs: Fs, h: int)
    requires Tables(fs) && Sound(fs) && ValidHandle(h) && fs.fileTaken[h]
    ensures var n := fs.files[h].inumber;
            && LiveFile(fs, n) && h in Abs(fs).handles && Abs(fs).handles[h].name == NameOf(RootEntries(fs), n)
            && Abs(fs).handles[h].name in Abs(fs).files && Abs(fs).files[Abs(fs).handles[h].name] == FileBytes(fs, n)
            && |FileBytes(fs, n)| == fs.inodes[n].size && Abs(fs).handles[h].offset == fs.files[h].offset
  {
    hide BlockShape, RootEntries, DirectoryOk, CountOk, BlocksOk, RootOk, FileBytes, NameOf, Names, InumberOf;
    var n := fs.files[h].inumber;
    assert LiveFile(fs, n);
    FileNamed(fs, n);
    FileSize(fs, n);
  }

  /** A handle past the end of its file reads bytes where the map has none, whatever their number, or fails. */
  lemma StrayReads(fs: Fs, h: int, len: nat)
    requires Tables(fs) && Sound(fs) && ValidHandle(h) && fs.fileTaken[h] && 0 < len <= BLOCK_SIZE
    requires fs.inodes[fs.files[h].inumber].size < fs.files[h].offset <= BLOCK_SIZE
    ensures Read(fs, h, len).ret == (if ValidBlock(fs.inodes[fs.files[h].inumber].block) then len else -1)
    ensures !ReadAgrees(fs, h, len)
  {
    hide BlockShape, RootEntries, DirectoryOk, CountOk, BlocksOk, RootOk, FileBytes, NameOf, Names, InumberOf, Memory, AbsFiles;
    HandleOnFile(fs, h);
  }

  /** So handles stand inside their files exactly if every read is answered as the map answers it. */
  lemma ReadsAgreeExact(fs: Fs)
    requires Tables(fs) && Sound(fs)
    ensures ReadsAgree(fs) <==> HandlesOk(fs)
  {
    hide BlockShape, RootEntries, DirectoryOk, CountOk, BlocksOk, RootOk, FileBytes, NameOf, Names, InumberOf, Memory, AbsFiles, AbsHandles, Read,
      Spec.Read;
    if HandlesOk(fs) {
      forall h, len: nat | ValidHandle(h) && fs.fileTaken[h] ensures ReadAgrees(fs, h, len) {
        ReadRefines(fs, h, len);
      }
    } else {
      var h :| ValidHandle(h) && fs.fileTaken[h] && !(fs.files[h].offset <= fs.inodes[fs.files[h].inumber].size);
      OneByteDiffers(fs, h);
    }
  }

  lemma OneByteDiffers(fs: Fs, h: int)
    requires Tables(fs) && Sound(fs) && ValidHandle(h) && fs.fileTaken[h]
    requires fs.files[h].offset > fs.inodes[fs.files[h].inumber].size
    ensures !ReadAgrees(fs, h, 1)
  {
    hide BlockShape, RootEntries, DirectoryOk, CountOk, BlocksOk, RootOk, FileBytes, NameOf, Names, InumberOf, Memory, AbsFiles;
    HandleOnFile(fs, h);
  }

  /* ----- tfs_close ----- */

  lemma CloseKeeps(fs: Fs, h: int)
    requires Tables(fs) && Inv(fs)
    ensures Inv(Close(fs, h).fs)
  {
    hide BlockShape, DirectoryOk, RootEntries, BlocksOk;
    var g := Close(fs, h).fs;
    DirectoryKept(fs, g);
    BlocksKept(fs, g);
    if ValidHandle(h) && fs.fileTaken[h] {
      CountFreeUpdate(fs.fileTaken, h, false);
    }
  }

  lemma CloseRefines(fs: Fs, h: int)
    requires Tables(fs) && Inv(fs)
    ensures Spec.Close(Abs(fs), h) == Spec.Outcome(Abs(Close(fs, h).fs), Spec.Reply(Close(fs, h).ret, []))
  {
    hide BlockShape, DirectoryOk, RootEntries, BlocksOk, NameOf, Names, InumberOf, FileBytes;
    var g := Close(fs, h).fs;
    if ValidHandle(h) && fs.fileTaken[h] {
      assert RootEntries(g) == RootEntries(fs) by { DirectoryKept(fs, g); }
      forall m ensures FileBytes(g, m) == FileBytes(fs, m) { SameBytes(fs, g, m); }
      FilesSame(fs, g);
      assert AbsHandles(g) == AbsHandles(fs) - {h};
    }
  }

  lemma SameBytes(fs: Fs, g: Fs, n: int)
    requires Tables(fs) && Tables(g) && g.inodes == fs.inodes && g.blocks == fs.blocks
    ensures FileBytes(g, n) == FileBytes(fs, n)
  {
  }

  /* ----- opening ----- */

  lemma AddOpenKeeps(fs: Fs, n: int, off: nat)
    requires Tables(fs) && Inv(fs) && LiveFile(fs, n) && off <= fs.inodes[n].size
    ensures Inv(AddOpen(fs, n, off).fs)
  {
    hide BlockShape, DirectoryOk, RootEntries, BlocksOk;
    var h := FirstFree(fs.fileTaken);
    var g := AddOpen(fs, n, off).fs;
    DirectoryKept(fs, g);
    BlocksKept(fs, g);
    if h != -1 {
      CountFreeUpdate(fs.fileTaken, h, true);
    }
  }

  /** add_to_open_file_table gives the least unused handle on the file's name, and changes nothing else. */
  lemma AddOpenRefines(fs: Fs, n: int, off: nat)
    requires Tables(fs) && Inv(fs) && LiveFile(fs, n) && off <= fs.inodes[n].size
    ensures var r := AddOpen(fs, n, off);
            Spec.NewHandle(Abs(fs), NameOf(RootEntries(fs), n), off) == Spec.Outcome(Abs(r.fs), Spec.Reply(r.ret, []))
  {
    hide BlockShape, DirectoryOk, RootEntries, BlocksOk, NameOf, Names, InumberOf, FileBytes;
    var g := AddOpen(fs, n, off).fs;
    var h := FirstFree(fs.fileTaken);
    FirstFreeIsLeast(fs.fileTaken, AbsHandles(fs), 0);
    if h != -1 {
      assert RootEntries(g) == RootEntries(fs) by { DirectoryKept(fs, g); }
      forall m ensures FileBytes(g, m) == FileBytes(fs, m) { SameBytes(fs, g, m); }
      FilesSame(fs, g);
      assert AbsHandles(g) == AbsHandles(fs)[h := Spec.Handle(NameOf(RootEntries(fs), n), off)];
    }
  }

  /* ----- truncation ----- */

  /** No handle stands past the start of file n. */
  predicate AtStart(fs: Fs, n: int)
    requires Tables(fs)
  {
    forall h :: 0 <= h < MAX_OPEN_FILES && fs.fileTaken[h] && fs.files[h].inumber == n ==> fs.files[h].offset == 0
  }

  lemma TruncateShape(fs: Fs, n: int)
    requires Tables(fs) && BlocksOk(fs) && LiveFile(fs, n)
    ensures var r := Truncate(fs, n);
            && r.ret == 0 && r.fs.inodes == fs.inodes[n := fs.inodes[n].(size := 0)]
            && (fs.inodes[n].size > 0 ==> Owns(fs, n, fs.inodes[n].block))
            && r.fs == fs.(inodes := r.fs.inodes,
                           blockTaken := if fs.inodes[n].size > 0 then fs.blockTaken[fs.inodes[n].block := false] else fs.blockTaken)
  {
    hide BlockShape, RootEntries;
    assert fs.inodes[n].size > 0 ==> Owns(fs, n, fs.inodes[n].block);
    assert fs.inodes[n := fs.inodes[n]] == fs.inodes;
  }

  lemma TruncateOwned(fs: Fs, n: int)
    requires Tables(fs) && RootOk(fs) && DirectoryOk(fs) && BlocksOk(fs) && LiveFile(fs, n)
    ensures var g := Truncate(fs, n).fs;
            RootOk(g) && DirectoryOk(g) && BlocksOk(g) && RootEntries(g) == RootEntries(fs) && CountOk(g) == CountOk(fs)
  {
    hide BlockShape, DirectoryOk, RootEntries, Truncate;
    var g := Truncate(fs, n).fs;
    TruncateShape(fs, n);
    DirectoryKept(fs, g);
    forall m, b ensures Owns(g, m, b) <==> Owns(fs, m, b) && m != n {
    }
    forall b | ValidBlock(b) && g.blockTaken[b] && b != RootBlock(g) ensures exists m :: Owns(g, m, b) {
      assert fs.blockTaken[b];
      var m :| Owns(fs, m, b);
      assert Owns(g, m, b);
    }
  }

  lemma TruncateKeeps(fs: Fs, n: int)
    requires Tables(fs) && Inv(fs) && LiveFile(fs, n)
    ensures Sound(Truncate(fs, n).fs)
    ensures HandlesOk(Truncate(fs, n).fs) <==> AtStart(fs, n)
  {
    hide BlockShape, DirectoryOk, RootEntries, Truncate, BlocksOk, RootOk;
    var g := Truncate(fs, n).fs;
    TruncateShape(fs, n);
    TruncateOwned(fs, n);
    if HandlesOk(g) {
      forall h | 0 <= h < MAX_OPEN_FILES && fs.fileTaken[h] && fs.files[h].inumber == n ensures fs.files[h].offset == 0 {
        assert g.fileTaken[h];
      }
    }
  }

  /** After a truncation every read is answered as the map answers it if and only if no handle on the file stood past its start. */
  lemma TruncateExact(fs: Fs, n: int)
    requires Tables(fs) && Inv(fs) && LiveFile(fs, n)
    ensures Sound(Truncate(fs, n).fs) && (ReadsAgree(Truncate(fs, n).fs) <==> AtStart(fs, n))
  {
    hide BlockShape, DirectoryOk, RootEntries, Truncate, BlocksOk, RootOk, CountOk, HandlesNamed, ReadsAgree;
    TruncateKeeps(fs, n);
    ReadsAgreeExact(Truncate(fs, n).fs);
  }

  /** The handle that did reads as many bytes as it asks for out of an empty file. */
  lemma TruncatedStillReads(fs: Fs, n: int, h: int, len: nat)
    requires Tables(fs) && Inv(fs) && LiveFile(fs, n) && ValidHandle(h) && fs.fileTaken[h] && fs.files[h].inumber == n
    requires fs.files[h].offset > 0 && 0 < len <= BLOCK_SIZE
    ensures var g := Truncate(fs, n).fs;
            FileBytes(g, n) == [] && Read(g, h, len).ret == len
  {
    hide BlockShape, DirectoryOk, RootEntries, Truncate, CountOk, Memory, BytesOf;
    TruncateShape(fs, n);
    TruncateKeeps(fs, n);
    StrayReads(Truncate(fs, n).fs, h, len);
  }

  lemma TruncateRefines(fs: Fs, n: int)
    requires Tables(fs) && Inv(fs) && LiveFile(fs, n)
    ensures var g := Truncate(fs, n).fs;
            && AbsFiles(g) == AbsFiles(fs)[NameOf(RootEntries(fs), n) := []]
            && AbsHandles(g) == AbsHandles(fs) && g.closing == fs.closing && RootEntries(g) == RootEntries(fs)
  {
    hide BlockShape, DirectoryOk, RootEntries, Truncate, BlocksOk, RootOk, CountOk, NameOf, Names, InumberOf;
    var g := Truncate(fs, n).fs;
    TruncateShape(fs, n);
    TruncateOwned(fs, n);
    FilesFramed(fs, g, n, []);
    assert AbsHandles(g) == AbsHandles(fs);
  }
}
