/**
 * Who owns which block.  The cells of an inode are its 266 slots and its index block; a state is owned when the
 * TAKEN blocks are exactly the disjoint union of the cells of the live inodes.
 */
module IndexedOwnership {
  import opened Bytes
  import opened AllocationTable
  import opened Disk
  import opened IndexedState

  predicate Live(fs: Fs, n: int)
    requires Tables(fs)
  {
    ValidInumber(n) && fs.inodeTaken[n]
  }

  /** A live file with its index block; inode_create leaves one without when the disk is full (state.c:157-161). */
  predicate IsFile(fs: Fs, n: int)
    requires Tables(fs)
  {
    Live(fs, n) && fs.inodes[n].kind.File? && fs.inodes[n].indexBlock != -1
  }

  predicate ValidCell(k: int) {
    0 <= k <= SLOTS
  }

  function Cell(fs: Fs, n: int, k: int): (b: int)
    requires Tables(fs) && ValidInumber(n) && ValidCell(k)
    ensures b == -1 || ValidBlock(b)
  {
    if k < SLOTS then Ref(fs, n, k) else fs.inodes[n].indexBlock
  }

  ghost predicate CellsTaken(fs: Fs)
    requires Tables(fs)
  {
    forall n, k :: Live(fs, n) && ValidCell(k) && Cell(fs, n, k) != -1 ==> fs.blockTaken[Cell(fs, n, k)]
  }

  ghost predicate CellsApart(fs: Fs)
    requires Tables(fs)
  {
    forall n, k, m, j :: Live(fs, n) && ValidCell(k) && Live(fs, m) && ValidCell(j) && !(n == m && k == j) ==>
      Cell(fs, n, k) == -1 || Cell(fs, n, k) != Cell(fs, m, j)
  }

  ghost predicate HasOwner(fs: Fs, b: int)
    requires Tables(fs)
  {
    exists n, k :: Live(fs, n) && ValidCell(k) && Cell(fs, n, k) == b
  }

  ghost predicate NoLeak(fs: Fs)
    requires Tables(fs)
  {
    forall b {:trigger HasOwner(fs, b)} :: ValidBlock(b) && fs.blockTaken[b] ==> HasOwner(fs, b)
  }

  /** Each block holds what its owner uses it for. */
  ghost predicate Typed(fs: Fs)
    requires Tables(fs)
  {
    && (forall n :: IsFile(fs, n) ==> fs.blocks[fs.inodes[n].indexBlock].Index?)
    && (forall n, i :: Live(fs, n) && n != ROOT_DIR_INUM && 0 <= i < SLOTS && Ref(fs, n, i) != -1
          ==> fs.blocks[Ref(fs, n, i)].Data?)
    && Live(fs, ROOT_DIR_INUM)
    && (forall n :: Live(fs, n) ==> (fs.inodes[n].kind.Dir? <==> n == ROOT_DIR_INUM))
    && fs.inodes[ROOT_DIR_INUM].indexBlock == -1
    && (forall i :: 0 < i < DIRECT ==> fs.inodes[ROOT_DIR_INUM].direct[i] == -1)
    && fs.inodes[ROOT_DIR_INUM].direct[0] != -1
    && fs.blocks[fs.inodes[ROOT_DIR_INUM].direct[0]].Directory?
  }

  ghost predicate Owned(fs: Fs)
    requires Tables(fs)
  {
    CellsTaken(fs) && CellsApart(fs) && NoLeak(fs) && Typed(fs)
  }

  /** The bytes of slot i of inode n. */
  function Page(fs: Fs, n: int, i: int): (r: seq<byte>)
    requires Tables(fs) && ValidInumber(n) && 0 <= i < SLOTS
    ensures |r| == BLOCK_SIZE
  {
    if Ref(fs, n, i) == -1 then seq(BLOCK_SIZE, _ => 0 as byte) else BytesOf(fs.blocks[Ref(fs, n, i)])
  }

  /** Inode m, its block numbers and the blocks they name are the same in both states. */
  ghost predicate SameInode(fs: Fs, g: Fs, m: int)
    requires Tables(fs) && Tables(g) && ValidInumber(m)
  {
    && fs.inodes[m] == g.inodes[m]
    && (forall k :: ValidCell(k) ==> Cell(g, m, k) == Cell(fs, m, k))
    && (forall k :: 0 <= k < SLOTS && Cell(fs, m, k) != -1 ==> g.blocks[Cell(fs, m, k)] == fs.blocks[Cell(fs, m, k)])
  }

  /** g differs from fs at most in the blocks of inode n, its direct array and the allocation of new blocks to it. */
  ghost predicate OnlyFile(fs: Fs, g: Fs, n: int)
    requires Tables(fs) && Tables(g) && ValidInumber(n)
  {
    && g.inodeTaken == fs.inodeTaken && g.files == fs.files && g.fileTaken == fs.fileTaken
    && g.inodes[n].kind == fs.inodes[n].kind && g.inodes[n].size == fs.inodes[n].size
    && g.inodes[n].indexBlock == fs.inodes[n].indexBlock
    && (forall m {:trigger SameInode(fs, g, m)} :: Live(fs, m) && m != n ==> SameInode(fs, g, m))
    && (forall i :: 0 <= i < SLOTS && Ref(fs, n, i) != -1 ==> Ref(g, n, i) == Ref(fs, n, i))
  }

  /** From fs to h, inode n got block b in slot i, and b was either there before or free. */
  ghost predicate CellStep(fs: Fs, h: Fs, n: int, i: int, b: int)
    requires Tables(fs) && Tables(h) && Live(fs, n) && 0 <= i < SLOTS && ValidBlock(b)
  {
    && h.inodeTaken == fs.inodeTaken && h.files == fs.files && h.fileTaken == fs.fileTaken
    && (if Ref(fs, n, i) != -1 then b == Ref(fs, n, i) else !fs.blockTaken[b])
    && h.blockTaken == fs.blockTaken[b := true]
    && (forall m, k :: Live(fs, m) && ValidCell(k) ==>
          Cell(h, m, k) == if m == n && k == i then b else Cell(fs, m, k))
    && h.blocks[b].Data?
    && (forall c :: ValidBlock(c) && c != b && c != fs.inodes[n].indexBlock ==> h.blocks[c] == fs.blocks[c])
    && (fs.inodes[n].indexBlock != -1 ==> h.blocks[fs.inodes[n].indexBlock].Index?)
    && h.inodes == fs.inodes[n := h.inodes[n]]
    && h.inodes[n] == fs.inodes[n].(direct := h.inodes[n].direct)
  }

  lemma CellOfSlot(fs: Fs, n: int)
    requires Tables(fs) && ValidInumber(n)
    ensures Cell(fs, n, SLOTS) == fs.inodes[n].indexBlock
    ensures forall j :: 0 <= j < SLOTS ==> Ref(fs, n, j) == Cell(fs, n, j)
  {
  }

  /** A slot stays without a block only when the disk is full. */
  lemma EnsureBlockFull(fs: Fs, n: int, i: int)
    requires Tables(fs) && Owned(fs) && IsFile(fs, n) && 0 <= i < SLOTS
    ensures Ref(EnsureBlock(fs, n, i), n, i) == -1 <==> Ref(fs, n, i) == -1 && CountFree(fs.blockTaken) == 0
    ensures Ref(EnsureBlock(fs, n, i), n, i) == -1 ==> EnsureBlock(fs, n, i) == fs
  {
    CountFreeZero(fs.blockTaken);
  }

  /** The block a chunk goes to: the one the slot has, or the first free one. */
  function ChunkBlock(fs: Fs, n: int, i: int): (b: int)
    requires Tables(fs) && ValidInumber(n) && 0 <= i < SLOTS
  {
    if Ref(fs, n, i) != -1 then Ref(fs, n, i) else FirstFree(fs.blockTaken)
  }

  lemma ChunkBlockIsNoIndex(fs: Fs, n: int, i: int, m: int)
    requires Tables(fs) && Owned(fs) && IsFile(fs, n) && 0 <= i < SLOTS && Live(fs, m)
    requires Ref(EnsureBlock(fs, n, i), n, i) != -1
    ensures ValidBlock(ChunkBlock(fs, n, i)) && ChunkBlock(fs, n, i) == Ref(EnsureBlock(fs, n, i), n, i)
    ensures fs.inodes[m].indexBlock != ChunkBlock(fs, n, i)
    ensures m != n && fs.inodes[m].indexBlock != -1 ==> fs.inodes[m].indexBlock != fs.inodes[n].indexBlock
  {
    CellOfSlot(fs, n);
    CellOfSlot(fs, m);
  }

  lemma StoreChunkCell(fs: Fs, n: int, i: int, at: nat, d: seq<byte>, m: int, k: int)
    requires Tables(fs) && Owned(fs) && IsFile(fs, n) && 0 <= i < SLOTS && at + |d| <= BLOCK_SIZE
    requires Ref(EnsureBlock(fs, n, i), n, i) != -1
    requires Live(fs, m) && ValidCell(k)
    ensures Cell(StoreChunk(fs, n, i, at, d), m, k) == if m == n && k == i then ChunkBlock(fs, n, i) else Cell(fs, m, k)
  {
    hide CellsTaken, CellsApart, NoLeak;
    ChunkBlockIsNoIndex(fs, n, i, m);
    ChunkBlockIsNoIndex(fs, n, i, n);
  }

  lemma StoreChunkCells(fs: Fs, n: int, i: int, at: nat, d: seq<byte>)
    requires Tables(fs) && Owned(fs) && IsFile(fs, n) && 0 <= i < SLOTS && at + |d| <= BLOCK_SIZE
    requires Ref(EnsureBlock(fs, n, i), n, i) != -1
    ensures var h := StoreChunk(fs, n, i, at, d);
            var b := ChunkBlock(fs, n, i);
            b != -1 && CellStep(fs, h, n, i, b) && h.blocks[b] == PutBytes(fs.blocks[b], at, d)
  {
    hide CellsTaken, CellsApart, NoLeak, Cell;
    ChunkBlockIsNoIndex(fs, n, i, n);
    ChunkBlockTaken(fs, n, i);
    forall m, k | Live(fs, m) && ValidCell(k)
      ensures Cell(StoreChunk(fs, n, i, at, d), m, k) == if m == n && k == i then ChunkBlock(fs, n, i) else Cell(fs, m, k)
    {
      StoreChunkCell(fs, n, i, at, d, m, k);
    }
  }

  lemma ChunkBlockTaken(fs: Fs, n: int, i: int)
    requires Tables(fs) && Owned(fs) && IsFile(fs, n) && 0 <= i < SLOTS
    ensures Ref(fs, n, i) != -1 ==> fs.blockTaken[Ref(fs, n, i)]
  {
    CellOfSlot(fs, n);
  }

  lemma CellStepApart(fs: Fs, h: Fs, n: int, i: int, b: int)
    requires Tables(fs) && Tables(h) && Owned(fs) && Live(fs, n) && 0 <= i < SLOTS && ValidBlock(b)
    requires CellStep(fs, h, n, i, b)
    ensures CellsTaken(h) && CellsApart(h) && NoLeak(h)
  {
    CellOfSlot(fs, n);
    forall c | ValidBlock(c) && h.blockTaken[c]
      ensures HasOwner(h, c)
    {
      if c == b {
        assert Cell(h, n, i) == c;
      } else {
        assert HasOwner(fs, c);
        var m, k :| Live(fs, m) && ValidCell(k) && Cell(fs, m, k) == c;
        assert Cell(h, m, k) == c;
      }
    }
  }

  lemma CellStepTyped(fs: Fs, h: Fs, n: int, i: int, b: int)
    requires Tables(fs) && Tables(h) && Owned(fs) && IsFile(fs, n) && 0 <= i < SLOTS && ValidBlock(b)
    requires CellStep(fs, h, n, i, b)
    ensures Typed(h)
  {
    CellOfSlot(fs, n);
    forall m, j | Live(h, m) && m != ROOT_DIR_INUM && 0 <= j < SLOTS && Ref(h, m, j) != -1
      ensures h.blocks[Ref(h, m, j)].Data?
    {
      CellOfSlot(h, m);
      CellOfSlot(fs, m);
      assert Cell(h, m, j) != b ==> Cell(h, m, j) == Cell(fs, m, j) && Cell(fs, m, j) != Cell(fs, n, SLOTS);
    }
    forall m | IsFile(h, m)
      ensures h.blocks[h.inodes[m].indexBlock].Index?
    {
      CellOfSlot(fs, m);
      assert m != n ==> Cell(fs, m, SLOTS) != b && Cell(fs, m, SLOTS) != Cell(fs, n, SLOTS);
    }
    assert Cell(fs, ROOT_DIR_INUM, 0) == fs.inodes[ROOT_DIR_INUM].direct[0];
    assert Cell(fs, ROOT_DIR_INUM, 0) != b && Cell(fs, ROOT_DIR_INUM, 0) != Cell(fs, n, SLOTS);
  }

  lemma CellStepFrame(fs: Fs, h: Fs, n: int, i: int, b: int)
    requires Tables(fs) && Tables(h) && Owned(fs) && IsFile(fs, n) && 0 <= i < SLOTS && ValidBlock(b)
    requires CellStep(fs, h, n, i, b)
    ensures OnlyFile(fs, h, n)
    ensures forall j :: 0 <= j < SLOTS && j != i ==> Ref(h, n, j) == Ref(fs, n, j) && Page(h, n, j) == Page(fs, n, j)
    ensures CountFree(h.blockTaken) == CountFree(fs.blockTaken) - (if Ref(fs, n, i) == -1 then 1 else 0)
  {
    CellOfSlot(fs, n);
    CellOfSlot(h, n);
    CountFreeUpdate(fs.blockTaken, b, true);
    assert fs.blockTaken[b] <==> Ref(fs, n, i) != -1;
    forall m, k | Live(fs, m) && ValidCell(k) && k < SLOTS && Cell(fs, m, k) != -1 && !(m == n && k == i)
      ensures h.blocks[Cell(fs, m, k)] == fs.blocks[Cell(fs, m, k)]
    {
      assert Cell(fs, m, k) != b && Cell(fs, m, k) != Cell(fs, n, SLOTS);
    }
  }

  ghost predicate HasRoom(fs: Fs, n: int, i: int)
    requires Tables(fs)
  {
    IsFile(fs, n) && 0 <= i < SLOTS && Ref(EnsureBlock(fs, n, i), n, i) != -1
  }

  /** One chunk keeps the ownership of every block and touches nothing of any other inode. */
  lemma StoreChunkOwned(fs: Fs, n: int, i: int, at: nat, d: seq<byte>)
    requires Tables(fs) && Owned(fs) && HasRoom(fs, n, i) && at + |d| <= BLOCK_SIZE
    ensures Owned(StoreChunk(fs, n, i, at, d)) && IsFile(StoreChunk(fs, n, i, at, d), n)
    ensures OnlyFile(fs, StoreChunk(fs, n, i, at, d), n)
  {
    var h := StoreChunk(fs, n, i, at, d);
    var b := ChunkBlock(fs, n, i);
    StoreChunkCells(fs, n, i, at, d);
    CellStepApart(fs, h, n, i, b);
    CellStepTyped(fs, h, n, i, b);
    CellStepFrame(fs, h, n, i, b);
  }

  lemma StoreChunkSlots(fs: Fs, n: int, i: int, at: nat, d: seq<byte>)
    requires Tables(fs) && Owned(fs) && HasRoom(fs, n, i) && at + |d| <= BLOCK_SIZE
    ensures var h := StoreChunk(fs, n, i, at, d);
            && Ref(h, n, i) != -1
            && (forall j :: 0 <= j < SLOTS && j != i ==> Ref(h, n, j) == Ref(fs, n, j) && Page(h, n, j) == Page(fs, n, j))
            && CountFree(h.blockTaken) == CountFree(fs.blockTaken) - (if Ref(fs, n, i) == -1 then 1 else 0)
  {
    var h := StoreChunk(fs, n, i, at, d);
    StoreChunkCells(fs, n, i, at, d);
    CellStepFrame(fs, h, n, i, ChunkBlock(fs, n, i));
    CellOfSlot(h, n);
  }

  lemma StoreChunkBytes(fs: Fs, n: int, i: int, at: nat, d: seq<byte>)
    requires Tables(fs) && Owned(fs) && HasRoom(fs, n, i) && at + |d| <= BLOCK_SIZE
    ensures var h := StoreChunk(fs, n, i, at, d);
            && (forall q :: at <= q < at + |d| ==> Page(h, n, i)[q] == d[q - at])
            && (Ref(fs, n, i) != -1 ==> forall q :: 0 <= q < BLOCK_SIZE && !(at <= q < at + |d|) ==>
                  Page(h, n, i)[q] == Page(fs, n, i)[q])
  {
    var h := StoreChunk(fs, n, i, at, d);
    StoreChunkCells(fs, n, i, at, d);
    CellOfSlot(h, n);
  }
}
