/**
 * What a truncation leads to in the multi-block version as written: four calls from the initial state, after which
 * the bytes of one file overwrite the block numbers of another.
 */
module IndexedAliasing {
  import opened Bytes
  import opened AllocationTable
  import opened Disk
  import opened IndexedState
  import opened IndexedOps

  lemma FirstFreeIs(taken: seq<bool>, k: nat)
    requires k < |taken| && !taken[k] && forall j :: 0 <= j < k ==> taken[j]
    ensures FirstFree(taken) == k
  {
  }

  lemma FirstUnusedIs(entries: seq<DirEntry>, k: nat)
    requires k < |entries| && !Used(entries[k]) && forall j :: 0 <= j < k ==> Used(entries[j])
    ensures FirstUnused(entries) == k
  {
  }

  /** The root directory is in block 0 and has the entries given. */
  predicate Root(fs: Fs, entries: seq<DirEntry>)
    requires Tables(fs)
  {
    fs.inodes[ROOT_DIR_INUM].kind.Dir? && fs.inodes[ROOT_DIR_INUM].direct[0] == 0 && fs.blocks[0] == Directory(entries)
  }

  const CREATE: Flags := Flags(true, false, false)
  const TRUNCATE: Flags := Flags(false, true, false)

  /** Making a file with everything at hand: inode n, index block b, entry i and handle h are the first free ones. */
  lemma OpenMakes(fs: Fs, entries: seq<DirEntry>, name: string, n: nat, b: nat, i: nat, h: nat)
    requires Tables(fs) && Root(fs, entries) && 0 < |name| < MAX_FILE_NAME && FindEntry(entries, name) == -1
    requires FirstFree(fs.inodeTaken) == n > 0 && FirstFree(fs.blockTaken) == b > 0 && FirstUnused(entries) == i && FirstFree(fs.fileTaken) == h
    ensures Tables(fs) && |fs.inodes| > n && |fs.blocks| > b && |entries| > i && |fs.files| > h
    ensures Open(AsWritten, fs, "/" + name, CREATE) ==
            Result(fs.(inodes := fs.inodes[n := Inode(File, 0, NoBlocks(DIRECT), b)], inodeTaken := fs.inodeTaken[n := true],
                       blocks := fs.blocks[b := Index(NoBlocks(INDEX_ENTRIES))][0 := Directory(entries[i := DirEntry(name, n)])],
                       blockTaken := fs.blockTaken[b := true],
                       files := fs.files[h := OpenFile(n, 0, false)], fileTaken := fs.fileTaken[h := true]), h)
  {
    assert ("/" + name)[1..] == name;
  }

  /** Writing one byte at an offset in the first block of a file whose first block is b. */
  lemma WriteByte(fs: Fs, h: int, n: int, o: nat, b: int, x: byte)
    requires Tables(fs) && ValidHandle(h) && ValidInumber(n) && fs.files[h] == OpenFile(n, o, false) && o < BLOCK_SIZE
    requires fs.inodes[n].indexBlock != -1 && b != -1 && Ref(EnsureBlock(fs, n, 0), n, 0) == b
    ensures ValidBlock(b)
    ensures Write(AsWritten, fs, h, [x]) ==
            WriteResult(GrowTo(SetOffset(PutChunk(EnsureBlock(fs, n, 0), b, o, [x]), h, o + 1), n, o + 1), 1)
  {
    hide InodeShape, BlockShape, PutChunk, EnsureBlock, Ref, WriteStep;
    OneByteStep(fs, n, o, b, x);
    var s := WriteStep(AsWritten, WriteCursor(fs, 0, o, 0, false), n, [x]);
    assert WriteLoop(AsWritten, s, n, [x], DIRECT) == s;
    assert WriteLoop(AsWritten, s.(slot := DIRECT), n, [x], SLOTS) == s.(slot := DIRECT);
  }

  lemma OneByteStep(fs: Fs, n: int, o: nat, b: int, x: byte)
    requires Tables(fs) && ValidInumber(n) && o < BLOCK_SIZE
    requires fs.inodes[n].indexBlock != -1 && b != -1 && Ref(EnsureBlock(fs, n, 0), n, 0) == b
    ensures ValidBlock(b)
    ensures WriteStep(AsWritten, WriteCursor(fs, 0, o, 0, false), n, [x]) ==
            WriteCursor(PutChunk(EnsureBlock(fs, n, 0), b, o, [x]), 1, o + 1, 1, false)
    ensures PutChunk(EnsureBlock(fs, n, 0), b, o, [x]).inodes[n].indexBlock != -1
    ensures PutChunk(EnsureBlock(fs, n, 0), b, o, [x]).files == fs.files
  {
    hide InodeShape, BlockShape, PutBytes, EnsureBlock, Ref, StoreChunk;
    EnsureLeaves(fs, n);
    StoreIsPut(fs, n, o, b, x);
    assert ChunkSize(o, 1) == 1 && [x][0..0 + 1] == [x];
  }

  lemma StoreIsPut(fs: Fs, n: int, o: nat, b: int, x: byte)
    requires Tables(fs) && ValidInumber(n) && o < BLOCK_SIZE && b != -1 && Ref(EnsureBlock(fs, n, 0), n, 0) == b
    ensures StoreChunk(fs, n, 0, o, [x]) == PutChunk(EnsureBlock(fs, n, 0), b, o, [x])
  {
    hide InodeShape, BlockShape, PutBytes, EnsureBlock, Ref;
  }

  lemma EnsureLeaves(fs: Fs, n: int)
    requires Tables(fs) && ValidInumber(n)
    ensures EnsureBlock(fs, n, 0).inodes[n].indexBlock == fs.inodes[n].indexBlock && EnsureBlock(fs, n, 0).files == fs.files
  {
    hide InodeShape, BlockShape, FirstFreeFrom;
  }

  function NoEntries(): (r: seq<DirEntry>)
    ensures |r| == MAX_DIR_ENTRIES && forall i :: 0 <= i < |r| ==> r[i] == UNUSED
  {
    seq(MAX_DIR_ENTRIES, _ => UNUSED)
  }

  /** The directory with /a alone in it. */
  function OnlyA(): (r: seq<DirEntry>)
    ensures |r| == MAX_DIR_ENTRIES
  {
    NoEntries()[0 := DirEntry("a", 1)]
  }

  /** After opening /a: inode 1 with its block numbers in block 1, handle 0 at its start. */
  predicate AMade(fs: Fs) {
    && Tables(fs) && Root(fs, OnlyA())
    && fs.inodes[1] == Inode(File, 0, NoBlocks(DIRECT), 1) && fs.blocks[1] == Index(NoBlocks(INDEX_ENTRIES))
    && fs.files[0] == OpenFile(1, 0, false)
    && FirstFree(fs.inodeTaken) == 2 && FirstFree(fs.blockTaken) == 2 && FirstFree(fs.fileTaken) == 1
    && fs.fileTaken[0] && fs.inodeTaken[1] && (forall b :: 3 <= b < DATA_BLOCKS ==> !fs.blockTaken[b]) && !fs.fileTaken[2]
  }

  lemma MakeA()
    ensures Open(AsWritten, Initial(), "/a", CREATE).ret == 0
    ensures AMade(Open(AsWritten, Initial(), "/a", CREATE).fs)
  {
    hide BlockShape, FirstFreeFrom, FirstUnusedFrom, FindEntryFrom;
    var fs := Initial();
    FirstFreeIs(fs.inodeTaken, 1);
    FirstFreeIs(fs.blockTaken, 1);
    FirstFreeIs(fs.fileTaken, 0);
    FirstUnusedIs(NoEntries(), 0);
    assert "/" + "a" == "/a";
    assert FindEntry(NoEntries(), "a") == -1;
    OpenMakes(fs, NoEntries(), "a", 1, 1, 0, 0);
    var g := Open(AsWritten, fs, "/a", CREATE).fs;
    FirstFreeIs(g.inodeTaken, 2);
    FirstFreeIs(g.blockTaken, 2);
    FirstFreeIs(g.fileTaken, 1);
  }

  /** After one byte is written: it is in block 2, the first direct block of /a. */
  predicate AWritten(fs: Fs) {
    && Tables(fs) && Root(fs, OnlyA())
    && fs.inodes[1] == Inode(File, 1, NoBlocks(DIRECT)[0 := 2], 1) && fs.blocks[1] == Index(NoBlocks(INDEX_ENTRIES))
    && fs.files[0] == OpenFile(1, 1, false) && fs.fileTaken[0]
    && FirstFree(fs.inodeTaken) == 2 && FirstFree(fs.blockTaken) == 3 && FirstFree(fs.fileTaken) == 1
    && fs.fileTaken[0] && fs.inodeTaken[1] && !fs.fileTaken[2]
  }

  lemma WriteA(fs: Fs, x: byte)
    requires AMade(fs)
    ensures AWritten(Write(AsWritten, fs, 0, [x]).fs)
  {
    hide BlockShape, PutBytes, FirstFreeFrom, Write;
    assert EnsureBlock(fs, 1, 0) ==
           fs.(blockTaken := fs.blockTaken[2 := true], inodes := fs.inodes[1 := Inode(File, 0, NoBlocks(DIRECT)[0 := 2], 1)]);
    WriteByte(fs, 0, 1, 0, 2, x);
    FirstFreeIs(fs.blockTaken[2 := true], 3);
  }

  /** After the truncation of /a: block 2 is FREE, and /a still names it. */
  predicate ATruncated(fs: Fs) {
    && Tables(fs) && Root(fs, OnlyA())
    && fs.inodes[1] == Inode(File, 0, NoBlocks(DIRECT)[0 := 2], 1)
    && fs.files[0] == OpenFile(1, 1, false) && fs.fileTaken[0]
    && FirstFree(fs.inodeTaken) == 2 && FirstFree(fs.blockTaken) == 2 && FirstFree(fs.fileTaken) == 2
  }

  lemma TruncateA(fs: Fs)
    requires AWritten(fs)
    ensures ATruncated(Open(AsWritten, fs, "/a", TRUNCATE).fs)
  {
    hide BlockShape, FirstFreeFrom, FindEntryFrom, Erase;
    FirstEntry();
    assert Lookup(fs, "/a") == 1;
    var e := Erase(AsWritten, fs, 1);
    EraseA(fs);
    FirstFreeIs(e.fs.blockTaken, 2);
    FirstFreeIs(fs.fileTaken[1 := true], 2);
  }

  lemma FirstEntry()
    ensures InumberOf(OnlyA(), "a") == 1 && FindEntry(OnlyA(), "b") == -1 && FirstUnused(OnlyA()) == 1
  {
    hide FindEntryFrom, FirstUnusedFrom;
    assert OnlyA()[0] == DirEntry("a", 1);
    assert OnlyA()[1] == UNUSED;
    FirstUnusedIs(OnlyA(), 1);
    assert "a" != "b" by { assert "a"[0] != "b"[0]; }
  }

  lemma EraseA(fs: Fs)
    requires AWritten(fs)
    ensures var e := Erase(AsWritten, fs, 1);
            && e.ret == 0 && e.fs.inodes == fs.inodes && e.fs.blocks == fs.blocks && e.fs.blockTaken == fs.blockTaken[2 := false]
            && e.fs.files == fs.files && e.fs.fileTaken == fs.fileTaken && e.fs.inodeTaken == fs.inodeTaken
  {
    hide BlockShape, FirstFreeFrom;
    var direct := fs.inodes[1].direct;
    assert direct[0] == 2;
    assert forall b :: b in direct ==> b == 2 || b == -1;
    assert 2 in direct;
    assert forall b :: 0 <= b < DATA_BLOCKS ==> b !in IndexSlots(fs, 1);
  }

  /** With /b made after that, its block numbers are in block 2 too. */
  predicate BMade(fs: Fs) {
    && Tables(fs) && Lookup(fs, "/a") == 1 && Lookup(fs, "/b") == 2
    && fs.inodes[1] == Inode(File, 0, NoBlocks(DIRECT)[0 := 2], 1) && fs.inodes[2].indexBlock == 2
    && fs.blocks[2] == Index(NoBlocks(INDEX_ENTRIES))
    && fs.files[0] == OpenFile(1, 1, false) && fs.fileTaken[0]
  }

  lemma MakeB(fs: Fs)
    requires ATruncated(fs)
    ensures BMade(Open(AsWritten, fs, "/b", CREATE).fs)
  {
    hide BlockShape, FirstFreeFrom, FindEntryFrom, FirstUnusedFrom, Open;
    FirstEntry();
    assert "/" + "b" == "/b";
    OpenMakes(fs, OnlyA(), "b", 2, 2, 1, 2);
    var g := Open(AsWritten, fs, "/b", CREATE).fs;
    BothFound();
    assert RootEntries(g) == OnlyA()[1 := DirEntry("b", 2)];
  }

  lemma BothFound()
    ensures InumberOf(OnlyA()[1 := DirEntry("b", 2)], "a") == 1 && InumberOf(OnlyA()[1 := DirEntry("b", 2)], "b") == 2
  {
    hide FindEntryFrom;
    var entries := OnlyA()[1 := DirEntry("b", 2)];
    assert entries[0] == DirEntry("a", 1) && entries[1] == DirEntry("b", 2);
    assert "a" != "b" by { assert "a"[0] != "b"[0]; }
  }

  /** One more byte through the handle on /a goes into that block. */
  lemma WriteOver(fs: Fs, y: byte)
    requires BMade(fs)
    ensures var g := Write(AsWritten, fs, 0, [y]).fs;
            g.inodes[2] == fs.inodes[2] && g.blocks[2].Data? && |g.blocks[2].bytes| == BLOCK_SIZE && g.blocks[2].bytes[1] == y
  {
    hide BlockShape, FirstFreeFrom, Write, Lookup;
    assert EnsureBlock(fs, 1, 0) == fs;
    WriteByte(fs, 0, 1, 1, 2, y);
  }

  /** As written, four calls from the initial state and then a write to /a. */
  function Aliasing(x: byte): seq<Op> {
    [OpOpen("/a", CREATE), OpWrite(0, [x]), OpOpen("/a", TRUNCATE), OpOpen("/b", CREATE)]
  }

  lemma HandleTaken(fs: Fs)
    requires AMade(fs)
    ensures fs.fileTaken[0]
  {
  }

  lemma AliasingRun(x: byte)
    ensures AllowedRun(AsWritten, Initial(), Aliasing(x)) && BMade(Run(AsWritten, Initial(), Aliasing(x)))
  {
    hide BlockShape, Open, Write, Initial, AMade, AWritten, ATruncated, BMade;
    MakeA();
    var s1 := Open(AsWritten, Initial(), "/a", CREATE).fs;
    WriteA(s1, x);
    var s2 := Write(AsWritten, s1, 0, [x]).fs;
    TruncateA(s2);
    var s3 := Open(AsWritten, s2, "/a", TRUNCATE).fs;
    MakeB(s3);
    var s4 := Open(AsWritten, s3, "/b", CREATE).fs;
    var ops := Aliasing(x);
    assert Run(AsWritten, Initial(), ops) == Run(AsWritten, s1, ops[1..]);
    assert Run(AsWritten, s1, ops[1..]) == Run(AsWritten, s2, ops[2..]) by { assert ops[1..][1..] == ops[2..]; }
    assert Run(AsWritten, s2, ops[2..]) == Run(AsWritten, s3, ops[3..]) by { assert ops[2..][1..] == ops[3..]; }
    assert Run(AsWritten, s3, ops[3..]) == Run(AsWritten, s4, ops[4..]) by { assert ops[3..][1..] == ops[4..]; }
    HandleTaken(s1);
    assert ops[4..] == [] && ops[3..][1..] == ops[4..];
    assert AllowedRun(AsWritten, s3, ops[3..]);
    assert ops[2..][1..] == ops[3..];
    assert AllowedRun(AsWritten, s2, ops[2..]);
    assert ops[1..][1..] == ops[2..];
    assert AllowedRun(AsWritten, s1, ops[1..]);
  }

  /**
   * As written, a run of four calls from the initial state ends with the first direct block of /a as the block of the
   * block numbers of /b, and one more byte written to /a overwrites those.
   */
  lemma TruncationAliases(x: byte, y: byte)
    ensures AllowedRun(AsWritten, Initial(), Aliasing(x))
    ensures var fs := Run(AsWritten, Initial(), Aliasing(x));
            var g := Write(AsWritten, fs, 0, [y]).fs;
            var b := fs.inodes[2].indexBlock;
            && fs.fileTaken[0] && Lookup(fs, "/a") == fs.files[0].inumber == 1 && Lookup(fs, "/b") == 2
            && b == Ref(fs, 1, 0) && ValidBlock(b) && fs.blocks[b] == Index(NoBlocks(INDEX_ENTRIES))
            && g.inodes[2] == fs.inodes[2] && g.blocks[b].Data? && |g.blocks[b].bytes| == BLOCK_SIZE && g.blocks[b].bytes[1] == y
  {
    hide BlockShape, Write, Run, Initial, Lookup;
    AliasingRun(x);
    WriteOver(Run(AsWritten, Initial(), Aliasing(x)), y);
  }
}
