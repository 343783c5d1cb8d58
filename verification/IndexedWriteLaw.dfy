/**
 * A file of the multi-block version is a sequence of bytes.  With the repaired lines tfs_write is a splice of that
 * sequence; as written it is one exactly when the bytes fit in the block that holds the offset.
 */
module IndexedWriteLaw {
  import opened Bytes
  import opened AllocationTable
  import opened Disk
  import opened IndexedState
  import opened IndexedOwnership
  import opened IndexedWrite

  /** Every slot that holds a byte below the size has a block. */
  predicate Sized(fs: Fs, n: int)
    requires Tables(fs) && ValidInumber(n)
  {
    && fs.inodes[n].size <= MAX_SIZE
    && forall i :: 0 <= i < SLOTS && i * BLOCK_SIZE < fs.inodes[n].size ==> Ref(fs, n, i) != -1
  }

  function ByteAt(fs: Fs, n: int, p: nat): byte
    requires Tables(fs) && ValidInumber(n) && p < MAX_SIZE
  {
    Page(fs, n, p / BLOCK_SIZE)[p % BLOCK_SIZE]
  }

  function Contents(fs: Fs, n: int): (c: seq<byte>)
    requires Tables(fs) && ValidInumber(n) && fs.inodes[n].size <= MAX_SIZE
    ensures |c| == fs.inodes[n].size
    ensures forall p :: 0 <= p < |c| ==> c[p] == ByteAt(fs, n, p)
  {
    seq(fs.inodes[n].size, p requires 0 <= p < fs.inodes[n].size => ByteAt(fs, n, p))
  }

  /** What no operation on another inode changes includes the contents. */
  lemma SameInodeSameContents(fs: Fs, g: Fs, m: int)
    requires Tables(fs) && Tables(g) && ValidInumber(m) && SameInode(fs, g, m) && Sized(fs, m)
    ensures Sized(g, m) && Contents(g, m) == Contents(fs, m)
  {
    hide InodeShape, BlockShape, Ref;
    CellOfSlot(fs, m);
    CellOfSlot(g, m);
    forall p | 0 <= p < fs.inodes[m].size
      ensures ByteAt(g, m, p) == ByteAt(fs, m, p)
    {
      assert (p / BLOCK_SIZE) * BLOCK_SIZE < fs.inodes[m].size;
    }
  }

  /* ----- the repaired loop ----- */

  predicate AtOffset(c: WriteCursor, buf: seq<byte>) {
    c.done < |buf| ==> c.slot == c.offset / BLOCK_SIZE
  }

  lemma RepairedStepAtOffset(c: WriteCursor, n: int, buf: seq<byte>)
    requires Writable(c, n, buf) && Owned(c.fs) && IsFile(c.fs, n) && c.slot < SLOTS && c.done < |buf| && !c.full
    requires AtOffset(c, buf)
    ensures var s := WriteStep(Repaired, c, n, buf);
            AtOffset(s, buf) && s.offset - c.offset == s.done - c.done
  {
    hide StoreChunk, EnsureBlock, WriteStep, Owned, InodeShape, BlockShape, Ref;
    WriteStepCases(Repaired, c, n, buf);
  }

  lemma {:induction false} RepairedLoopOffset(c: WriteCursor, n: int, buf: seq<byte>)
    requires Writable(c, n, buf) && Owned(c.fs) && IsFile(c.fs, n) && AtOffset(c, buf)
    ensures var r := WriteLoop(Repaired, c, n, buf, SLOTS);
            AtOffset(r, buf) && r.offset - c.offset == r.done - c.done && r.offset <= Max(c.offset, MAX_SIZE)
    decreases !c.full, SLOTS - c.slot
  {
    hide StoreChunk, EnsureBlock, WriteStep, Owned, InodeShape, BlockShape, Ref;
    if !c.full && c.slot < SLOTS && c.done < |buf| {
      RepairedStepAtOffset(c, n, buf);
      WriteStepOwned(Repaired, c, n, buf);
      WriteStepCases(Repaired, c, n, buf);
      RepairedLoopOffset(WriteStep(Repaired, c, n, buf), n, buf);
    }
  }

  /** The bytes written lie in the file one after the other from the offset on. */
  lemma {:induction false} RepairedLoopBytes(c: WriteCursor, n: int, buf: seq<byte>)
    requires Writable(c, n, buf) && Owned(c.fs) && IsFile(c.fs, n) && AtOffset(c, buf) && c.offset <= MAX_SIZE
    ensures var r := WriteLoop(Repaired, c, n, buf, SLOTS);
            c.done <= r.done && r.offset == c.offset + r.done - c.done <= MAX_SIZE
            && forall p :: c.offset <= p < r.offset ==> ByteAt(r.fs, n, p) == buf[c.done + p - c.offset]
    decreases !c.full, SLOTS - c.slot
  {
    hide StoreChunk, EnsureBlock, WriteStep, Owned, InodeShape, BlockShape, Ref, Page;
    RepairedLoopOffset(c, n, buf);
    if !c.full && c.slot < SLOTS && c.done < |buf| {
      var s := WriteStep(Repaired, c, n, buf);
      RepairedStepAtOffset(c, n, buf);
      WriteStepOwned(Repaired, c, n, buf);
      WriteStepCases(Repaired, c, n, buf);
      if !s.full {
        WriteStepSlots(Repaired, c, n, buf);
        WriteStepBytes(Repaired, c, n, buf);
        RepairedLoopOffset(s, n, buf);
        RepairedLoopBytes(s, n, buf);
        var r := WriteLoop(Repaired, s, n, buf, SLOTS);
        WriteLoopKeeps(Repaired, s, n, buf);
        forall p | c.offset <= p < s.offset
          ensures ByteAt(r.fs, n, p) == buf[c.done + p - c.offset]
        {
          assert p / BLOCK_SIZE == c.slot;
          assert Outside(c.slot, p % BLOCK_SIZE, Position(s), r.offset);
          assert Page(r.fs, n, c.slot)[p % BLOCK_SIZE] == Page(s.fs, n, c.slot)[p % BLOCK_SIZE];
        }
      }
    }
  }

  /* ----- tfs_write as one loop ----- */

  function Start(fs: Fs, o: nat): WriteCursor {
    WriteCursor(fs, o / BLOCK_SIZE, o, 0, false)
  }

  /** What tfs_write does once its loops have stopped at r. */
  function Finish(v: Variant, r: WriteCursor, n: int, h: int): (w: WriteResult)
    requires Tables(r.fs) && ValidInumber(n) && ValidHandle(h)
    ensures Tables(w.fs)
  {
    WriteResult(if r.full then LeaveFull(v, r.fs, n, h, r.offset) else GrowTo(SetOffset(r.fs, h, r.offset), n, r.offset), r.done)
  }

  /** The direct loop followed by the indirect loop is one loop over all the slots. */
  lemma WriteAtOneLoop(v: Variant, fs: Fs, h: int, o: nat, buf: seq<byte>)
    requires Tables(fs) && Owned(fs) && ValidHandle(h) && IsFile(fs, fs.files[h].inumber)
    ensures var n := fs.files[h].inumber;
            WriteAt(v, fs, h, o, buf) == Finish(v, WriteLoop(v, Start(fs, o), n, buf, SLOTS), n, h)
  {
    hide WriteStep, Owned, InodeShape, BlockShape;
    var n := fs.files[h].inumber;
    var d := WriteLoop(v, Start(fs, o), n, buf, DIRECT);
    WriteLoopOwned(v, Start(fs, o), n, buf, DIRECT);
    WriteLoopSplit(v, Start(fs, o), n, buf, DIRECT);
    DirectLoopEnds(v, Start(fs, o), n, buf);
  }

  lemma {:induction false} DirectLoopEnds(v: Variant, c: WriteCursor, n: int, buf: seq<byte>)
    requires Writable(c, n, buf)
    ensures var d := WriteLoop(v, c, n, buf, DIRECT);
            d.full || d.done == |buf| || DIRECT <= d.slot
    decreases !c.full, DIRECT - c.slot
  {
    hide WriteStep, InodeShape, BlockShape;
    if !(c.full || DIRECT <= c.slot || c.done == |buf|) {
      DirectLoopEnds(v, WriteStep(v, c, n, buf), n, buf);
    }
  }

  /* ----- when the blocks suffice ----- */

  lemma {:induction false} MissingSplit(fs: Fs, n: int, i: nat, mid: nat, last: int)
    requires Tables(fs) && ValidInumber(n) && i <= mid <= last <= SLOTS
    ensures Missing(fs, n, i, last) == Missing(fs, n, i, mid) + Missing(fs, n, mid, last)
    decreases mid - i
  {
    if i < mid {
      MissingSplit(fs, n, i + 1, mid, last);
    }
  }

  /** How many bytes of buf fit in the file from offset o on. */
  function Fitting(o: nat, buf: seq<byte>): int {
    Min(|buf|, MAX_SIZE - o)
  }

  /** The slot after the last one that m bytes at o touch. */
  function EndSlot(o: nat, m: int): int
    requires 0 <= m
  {
    (o + m - 1) / BLOCK_SIZE + 1
  }

  /** How many blocks a write of m bytes at o has to allocate. */
  function Needed(fs: Fs, n: int, o: nat, m: int): nat
    requires Tables(fs) && ValidInumber(n) && o + m <= MAX_SIZE
  {
    if m <= 0 then 0 else Missing(fs, n, o / BLOCK_SIZE, EndSlot(o, m))
  }

  /** The repaired loop stops short only on a full disk, and then at the edge of a block. */
  lemma RepairedLoopAmount(fs: Fs, n: int, o: nat, buf: seq<byte>)
    requires Tables(fs) && Owned(fs) && IsFile(fs, n) && o <= MAX_SIZE
    ensures var r := WriteLoop(Repaired, Start(fs, o), n, buf, SLOTS);
            var m := Fitting(o, buf);
            && r.done <= m && (r.full <==> r.done < m)
            && (r.full ==> (o + r.done) % BLOCK_SIZE == 0 || r.done == 0)
            && (0 < m ==> if r.full then r.slot < EndSlot(o, m) else r.slot == EndSlot(o, m))
            && o / BLOCK_SIZE <= r.slot
  {
    hide WriteLoop, WriteStep, Owned, InodeShape, BlockShape, Ref, Page, Missing;
    WriteLoopVisits(Repaired, Start(fs, o), n, buf);
    RepairedLoopOffset(Start(fs, o), n, buf);
    RepairedLoopSlot(Start(fs, o), n, buf);
  }

  /** The repaired loop writes every byte that fits if and only if there are blocks for them. */
  lemma RepairedLoopDone(fs: Fs, n: int, o: nat, buf: seq<byte>)
    requires Tables(fs) && Owned(fs) && IsFile(fs, n) && o <= MAX_SIZE
    ensures var r := WriteLoop(Repaired, Start(fs, o), n, buf, SLOTS);
            var m := Fitting(o, buf);
            && (r.done == m <==> Needed(fs, n, o, m) <= CountFree(fs.blockTaken))
            && (r.full ==> CountFree(r.fs.blockTaken) == 0)
  {
    hide WriteLoop, WriteStep, Owned, InodeShape, BlockShape, Ref, Page;
    var c := Start(fs, o);
    var r := WriteLoop(Repaired, c, n, buf, SLOTS);
    var m := Fitting(o, buf);
    RepairedLoopAmount(fs, n, o, buf);
    WriteLoopVisits(Repaired, c, n, buf);
    if m > 0 && r.full {
      MissingSplit(fs, n, c.slot, r.slot, EndSlot(o, m));
      assert Missing(fs, n, r.slot, EndSlot(o, m)) >= 1;
    }
  }

  /** More bytes need no fewer blocks. */
  lemma NeededGrows(fs: Fs, n: int, o: nat, k: nat, m: nat)
    requires Tables(fs) && ValidInumber(n) && k <= m && o + m <= MAX_SIZE
    ensures Needed(fs, n, o, k) <= Needed(fs, n, o, m)
  {
    hide Missing, InodeShape, BlockShape, Ref;
    if k > 0 {
      MissingSplit(fs, n, o / BLOCK_SIZE, EndSlot(o, k), EndSlot(o, m));
    }
  }

  /** The repaired loop writes k bytes or more if and only if there are blocks for k bytes: it stops nowhere short. */
  lemma RepairedLoopReach(fs: Fs, n: int, o: nat, buf: seq<byte>, k: nat)
    requires Tables(fs) && Owned(fs) && IsFile(fs, n) && o <= MAX_SIZE && k <= Fitting(o, buf)
    ensures k <= WriteLoop(Repaired, Start(fs, o), n, buf, SLOTS).done <==> Needed(fs, n, o, k) <= CountFree(fs.blockTaken)
  {
    hide WriteLoop, WriteStep, Owned, InodeShape, BlockShape, Ref, Page, Missing;
    var r := WriteLoop(Repaired, Start(fs, o), n, buf, SLOTS);
    RepairedLoopAmount(fs, n, o, buf);
    RepairedLoopDone(fs, n, o, buf);
    if !r.full {
      NeededGrows(fs, n, o, k, r.done);
    } else if k > 0 {
      FullLoopReach(fs, n, o, buf, k);
    }
  }

  /** On a full disk the blocks there were are those of the slots before the one the loop stopped at. */
  lemma FullLoopReach(fs: Fs, n: int, o: nat, buf: seq<byte>, k: nat)
    requires Tables(fs) && Owned(fs) && IsFile(fs, n) && o <= MAX_SIZE && 0 < k <= Fitting(o, buf)
    requires WriteLoop(Repaired, Start(fs, o), n, buf, SLOTS).full
    ensures k <= WriteLoop(Repaired, Start(fs, o), n, buf, SLOTS).done <==> Needed(fs, n, o, k) <= CountFree(fs.blockTaken)
  {
    hide WriteLoop, WriteStep, Owned, InodeShape, BlockShape, Ref, Page;
    var c := Start(fs, o);
    var r := WriteLoop(Repaired, c, n, buf, SLOTS);
    RepairedLoopAmount(fs, n, o, buf);
    RepairedLoopDone(fs, n, o, buf);
    WriteLoopVisits(Repaired, c, n, buf);
    RepairedLoopSlot(c, n, buf);
    RepairedLoopOffset(c, n, buf);
    if k <= r.done {
      MissingSplit(fs, n, c.slot, EndSlot(o, k), r.slot);
    } else {
      assert r.slot < EndSlot(o, k);
      MissingSplit(fs, n, c.slot, r.slot, EndSlot(o, k));
      assert Missing(fs, n, r.slot, EndSlot(o, k)) >= 1;
    }
  }

  /** Where the repaired loop stops, in slots. */
  lemma {:induction false} RepairedLoopSlot(c: WriteCursor, n: int, buf: seq<byte>)
    requires Writable(c, n, buf) && Owned(c.fs) && IsFile(c.fs, n) && AtOffset(c, buf) && !c.full
    ensures var r := WriteLoop(Repaired, c, n, buf, SLOTS);
            && (c.done < r.done ==> r.slot == (r.offset - 1) / BLOCK_SIZE + 1)
            && (c.done == r.done ==> r.slot == c.slot && r.offset == c.offset)
            && (r.done < |buf| && c.done < r.done ==> r.offset == r.slot * BLOCK_SIZE)
            && c.done <= r.done
    decreases SLOTS - c.slot
  {
    hide StoreChunk, EnsureBlock, WriteStep, Owned, InodeShape, BlockShape, Ref;
    if c.slot < SLOTS && c.done < |buf| {
      RepairedStepAtOffset(c, n, buf);
      WriteStepOwned(Repaired, c, n, buf);
      WriteStepCases(Repaired, c, n, buf);
      var s := WriteStep(Repaired, c, n, buf);
      if !s.full {
        RepairedLoopSlot(s, n, buf);
      }
    }
  }

  /* ----- storing the offset and the size ----- */

  /** g has the blocks and block numbers of fs; inode n may have another size, and the open files may differ. */
  ghost predicate Relabelled(fs: Fs, g: Fs, n: int)
    requires ValidInumber(n) && n < |fs.inodes|
  {
    && g.blocks == fs.blocks && g.blockTaken == fs.blockTaken && g.inodeTaken == fs.inodeTaken
    && |g.inodes| == |fs.inodes|
    && g.inodes == fs.inodes[n := fs.inodes[n].(size := g.inodes[n].size)]
  }

  lemma RelabelledCells(fs: Fs, g: Fs, n: int)
    requires Tables(fs) && Tables(g) && ValidInumber(n) && Relabelled(fs, g, n)
    ensures forall m, k :: ValidInumber(m) && ValidCell(k) ==> Cell(g, m, k) == Cell(fs, m, k)
    ensures forall m, k :: ValidInumber(m) && 0 <= k < SLOTS ==> Ref(g, m, k) == Ref(fs, m, k) && Page(g, m, k) == Page(fs, m, k)
    ensures forall m :: ValidInumber(m) && m != n ==> SameInode(fs, g, m)
  {
  }

  lemma RelabelledOwned(fs: Fs, g: Fs, n: int)
    requires Tables(fs) && Tables(g) && ValidInumber(n) && Relabelled(fs, g, n) && Owned(fs)
    ensures Owned(g)
  {
    hide Ref, Cell, Page, SameInode;
    RelabelledCells(fs, g, n);
    forall b | ValidBlock(b) && g.blockTaken[b]
      ensures HasOwner(g, b)
    {
      assert HasOwner(fs, b);
      var m, k :| Live(fs, m) && ValidCell(k) && Cell(fs, m, k) == b;
      assert Cell(g, m, k) == b;
    }
  }

  /* ----- the law of tfs_write ----- */

  /** Handle h is open on a file of consistent size. */
  predicate OpenOn(fs: Fs, h: int, n: int)
    requires Tables(fs)
  {
    ValidHandle(h) && fs.files[h].inumber == n && IsFile(fs, n) && Sized(fs, n)
  }

  lemma OpenOnFile(fs: Fs, h: int, n: int)
    requires Tables(fs) && OpenOn(fs, h, n)
    ensures IsFile(fs, n) && ValidHandle(h) && ValidInumber(n) && fs.files[h].inumber == n && Sized(fs, n)
    ensures fs.inodes[n].size <= MAX_SIZE
  {
  }

  /** No inode but n has changed in any block, block number or attribute. */
  ghost predicate OthersSame(fs: Fs, g: Fs, n: int)
    requires Tables(fs) && Tables(g)
  {
    forall m :: Live(fs, m) && m != n ==> SameInode(fs, g, m)
  }

  /** The call wrote exactly d at offset o of the file behind h, said so, moved the offset past it and did nothing else. */
  ghost predicate WroteAt(fs: Fs, w: WriteResult, h: int, n: int, o: nat, d: seq<byte>)
    requires Tables(fs) && Tables(w.fs) && OpenOn(fs, h, n) && o <= fs.inodes[n].size
  {
    && w.ret == |d|
    && w.fs.files == fs.files[h := fs.files[h].(offset := o + |d|)] && w.fs.fileTaken == fs.fileTaken
    && w.fs.inodeTaken == fs.inodeTaken
    && Owned(w.fs) && OpenOn(w.fs, h, n)
    && Contents(w.fs, n) == Splice(Contents(fs, n), o, d)
    && OthersSame(fs, w.fs, n)
  }

  lemma FinishRelabels(v: Variant, r: WriteCursor, n: int, h: int)
    requires Tables(r.fs) && ValidInumber(n) && ValidHandle(h)
    ensures var g := Finish(v, r, n, h).fs;
            && Relabelled(r.fs, g, n)
            && Finish(v, r, n, h).ret == r.done
            && g.files == r.fs.files[h := r.fs.files[h].(offset := r.offset)] && g.fileTaken == r.fs.fileTaken
            && g.inodes[n].size ==
               if r.full && v.AsWritten? then r.fs.inodes[n].size else Max(r.fs.inodes[n].size, r.offset)
  {
  }

  /** Every slot with bytes of the larger file has a block, and the bytes are those of the splice. */
  lemma FinishedText(fs: Fs, g: Fs, n: int, o: nat, d: seq<byte>)
    requires Tables(fs) && Tables(g) && ValidInumber(n) && Sized(fs, n) && o <= fs.inodes[n].size && o + |d| <= MAX_SIZE
    requires g.inodes[n].size == Max(fs.inodes[n].size, o + |d|)
    requires forall i :: 0 <= i < SLOTS && Ref(fs, n, i) != -1 ==> Ref(g, n, i) != -1
    requires KeepsOutside(fs, g, n, o, o + |d|)
    requires forall p :: o <= p < o + |d| ==> Ref(g, n, p / BLOCK_SIZE) != -1 && ByteAt(g, n, p) == d[p - o]
    ensures Sized(g, n) && Contents(g, n) == Splice(Contents(fs, n), o, d)
  {
    hide InodeShape, BlockShape, Ref, Page;
    forall i | 0 <= i < SLOTS && i * BLOCK_SIZE < g.inodes[n].size
      ensures Ref(g, n, i) != -1
    {
      if fs.inodes[n].size <= i * BLOCK_SIZE {
        assert (i * BLOCK_SIZE) / BLOCK_SIZE == i;
      }
    }
    forall p | 0 <= p < g.inodes[n].size
      ensures ByteAt(g, n, p) == Splice(Contents(fs, n), o, d)[p]
    {
      if !(o <= p < o + |d|) {
        assert (p / BLOCK_SIZE) * BLOCK_SIZE < fs.inodes[n].size;
        assert Outside(p / BLOCK_SIZE, p % BLOCK_SIZE, o, o + |d|);
      }
    }
  }

  /** Storing the final offset and size of a repaired write turns the bytes the loop stored into a splice. */
  lemma FinishSplices(v: Variant, fs: Fs, r: WriteCursor, h: int, n: int, o: nat, d: seq<byte>)
    requires Tables(fs) && OpenOn(fs, h, n) && o <= fs.inodes[n].size && o + |d| <= MAX_SIZE
    requires Tables(r.fs) && Owned(r.fs) && IsFile(r.fs, n) && OnlyFile(fs, r.fs, n)
    requires r.done == |d| && r.offset == o + |d| && (r.full ==> v.Repaired? || o + |d| <= fs.inodes[n].size)
    requires KeepsOutside(fs, r.fs, n, o, r.offset)
    requires forall p :: o <= p < o + |d| ==> Ref(r.fs, n, p / BLOCK_SIZE) != -1 && ByteAt(r.fs, n, p) == d[p - o]
    ensures WroteAt(fs, Finish(v, r, n, h), h, n, o, d)
  {
    hide InodeShape, BlockShape, Owned, Ref, Page, Cell, Finish, Splice, Sized, Contents;
    var g := Finish(v, r, n, h).fs;
    OpenOnFile(fs, h, n);
    FinishRelabels(v, r, n, h);
    RelabelledOwned(r.fs, g, n);
    RelabelledCells(r.fs, g, n);
    FinishedText(fs, g, n, o, d);
    forall m | Live(fs, m) && m != n
      ensures SameInode(fs, g, m)
    {
      assert SameInode(fs, r.fs, m) && SameInode(r.fs, g, m);
    }
  }

  /**
   * With the repaired lines, tfs_write at offset o makes the contents the splice of the contents before with the first
   * k bytes of the buffer, moves the offset to o + k and returns k, whatever k is.
   */
  lemma RepairedWriteSplices(fs: Fs, h: int, n: int, buf: seq<byte>)
    requires Tables(fs) && Owned(fs) && OpenOn(fs, h, n)
    requires WriteOffset(fs, h) <= fs.inodes[n].size && |buf| % 0x1_0000_0000 < 0x8000_0000
    ensures var w := Write(Repaired, fs, h, buf);
            0 <= w.ret <= |buf| && WroteAt(fs, w, h, n, WriteOffset(fs, h), buf[..w.ret])
  {
    hide InodeShape, BlockShape, Owned, Ref, Page, WriteLoop, WroteAt, Sized, Finish, OnlyFile, Write;
    WriteOneLoop(Repaired, fs, h, n, buf);
    RepairedLoopSplices(fs, h, n, WriteOffset(fs, h), buf);
    FinishRelabels(Repaired, WriteLoop(Repaired, Start(fs, WriteOffset(fs, h)), n, buf, SLOTS), n, h);
  }

  /**
   * That k is the largest number of bytes, of those that fit in the largest file, for which there are blocks; when it is
   * not all of them, the write stops with every block taken, at the edge of a block.
   */
  lemma RepairedWriteAmount(fs: Fs, h: int, n: int, buf: seq<byte>)
    requires Tables(fs) && Owned(fs) && OpenOn(fs, h, n)
    requires WriteOffset(fs, h) <= fs.inodes[n].size && |buf| % 0x1_0000_0000 < 0x8000_0000
    ensures var w := Write(Repaired, fs, h, buf);
            var o := WriteOffset(fs, h);
            var m := Fitting(o, buf);
            && w.ret <= m
            && (forall k: nat :: k <= m ==> (k <= w.ret <==> Needed(fs, n, o, k) <= CountFree(fs.blockTaken)))
            && (w.ret < m ==> CountFree(w.fs.blockTaken) == 0 && (w.ret == 0 || (o + w.ret) % BLOCK_SIZE == 0))
  {
    hide InodeShape, BlockShape, Owned, Ref, Page, WriteLoop, Write, WroteAt, Sized, Finish, Needed, IsFile, Missing;
    OpenOnFile(fs, h, n);
    var o := WriteOffset(fs, h);
    WriteOneLoop(Repaired, fs, h, n, buf);
    FinishRelabels(Repaired, WriteLoop(Repaired, Start(fs, o), n, buf, SLOTS), n, h);
    RepairedLoopAmount(fs, n, o, buf);
    RepairedLoopDone(fs, n, o, buf);
    forall k: nat | k <= Fitting(o, buf)
      ensures k <= Write(Repaired, fs, h, buf).ret <==> Needed(fs, n, o, k) <= CountFree(fs.blockTaken)
    {
      RepairedLoopReach(fs, n, o, buf, k);
    }
  }

  lemma WriteOneLoop(v: Variant, fs: Fs, h: int, n: int, buf: seq<byte>)
    requires Tables(fs) && Owned(fs) && OpenOn(fs, h, n) && |buf| % 0x1_0000_0000 < 0x8000_0000
    ensures Write(v, fs, h, buf) == Finish(v, WriteLoop(v, Start(fs, WriteOffset(fs, h)), n, buf, SLOTS), n, h)
  {
    hide InodeShape, BlockShape, Owned, Ref, Page, WriteLoop, Sized, Finish, WriteAt;
    WriteAtOneLoop(v, fs, h, WriteOffset(fs, h), buf);
  }

  lemma RepairedLoopSplices(fs: Fs, h: int, n: int, o: nat, buf: seq<byte>)
    requires Tables(fs) && Owned(fs) && OpenOn(fs, h, n) && o <= fs.inodes[n].size
    ensures var r := WriteLoop(Repaired, Start(fs, o), n, buf, SLOTS);
            WroteAt(fs, Finish(Repaired, r, n, h), h, n, o, buf[..r.done])
  {
    hide InodeShape, BlockShape, Owned, Ref, Page, WriteLoop, Missing, WroteAt, Finish, OnlyFile, KeepsOutside;
    var c := Start(fs, o);
    var r := WriteLoop(Repaired, c, n, buf, SLOTS);
    WriteLoopOwned(Repaired, c, n, buf, SLOTS);
    RepairedLoopBytes(c, n, buf);
    assert KeepsOutside(fs, r.fs, n, o, r.offset) by {
      WriteLoopKeeps(Repaired, c, n, buf);
      assert Position(c) == o;
    }
    assert forall p :: o <= p < o + r.done ==> Ref(r.fs, n, p / BLOCK_SIZE) != -1 by {
      WriteLoopVisits(Repaired, c, n, buf);
      RepairedLoopSlot(c, n, buf);
    }
    FinishSplices(Repaired, fs, r, h, n, o, buf[..r.done]);
  }

  /* ----- the law for the source as written ----- */

  /** The m bytes lie in the block that holds offset o. */
  predicate OneBlock(o: nat, m: int) {
    o % BLOCK_SIZE + m <= BLOCK_SIZE
  }

  /** A guard a caller could evaluate: the bytes fit in one block, and it is there or can be allocated. */
  predicate FitsInBlock(fs: Fs, n: int, o: nat, m: int)
    requires Tables(fs) && ValidInumber(n) && o <= MAX_SIZE && o + m <= MAX_SIZE
  {
    OneBlock(o, m) && (0 < m && Ref(fs, n, o / BLOCK_SIZE) == -1 ==> 0 < CountFree(fs.blockTaken))
  }

  /** From the second chunk on, the offset moves by more than the chunk. */
  lemma {:induction false} AsWrittenDrift(c: WriteCursor, n: int, buf: seq<byte>)
    requires Writable(c, n, buf) && Owned(c.fs) && IsFile(c.fs, n) && !c.full && 0 < c.done
    ensures var r := WriteLoop(AsWritten, c, n, buf, SLOTS);
            c.done <= r.done && (c.done < r.done ==> c.offset + (r.done - c.done) < r.offset)
            && (c.done == r.done ==> c.offset == r.offset)
    decreases SLOTS - c.slot
  {
    hide StoreChunk, EnsureBlock, WriteStep, Owned, InodeShape, BlockShape, Ref;
    if c.slot < SLOTS && c.done < |buf| {
      WriteStepOwned(AsWritten, c, n, buf);
      WriteStepCases(AsWritten, c, n, buf);
      var s := WriteStep(AsWritten, c, n, buf);
      if !s.full {
        AsWrittenDrift(s, n, buf);
      }
    }
  }

  /** Within one block the two variants do the same. */
  lemma OneBlockLoop(fs: Fs, n: int, o: nat, buf: seq<byte>)
    requires Tables(fs) && Owned(fs) && IsFile(fs, n) && o <= MAX_SIZE && OneBlock(o, Fitting(o, buf))
    ensures WriteLoop(AsWritten, Start(fs, o), n, buf, SLOTS) == WriteLoop(Repaired, Start(fs, o), n, buf, SLOTS)
    ensures var r := WriteLoop(Repaired, Start(fs, o), n, buf, SLOTS);
            r.full <==> 0 < Fitting(o, buf) && Ref(fs, n, o / BLOCK_SIZE) == -1 && CountFree(fs.blockTaken) == 0
    ensures WriteLoop(Repaired, Start(fs, o), n, buf, SLOTS).full ==> WriteLoop(Repaired, Start(fs, o), n, buf, SLOTS).done == 0
  {
    hide StoreChunk, EnsureBlock, WriteStep, Owned, InodeShape, BlockShape, Ref;
    var c := Start(fs, o);
    if 0 < Fitting(o, buf) {
      WriteStepCases(AsWritten, c, n, buf);
      WriteStepCases(Repaired, c, n, buf);
      var s := WriteStep(Repaired, c, n, buf);
      assert s == WriteStep(AsWritten, c, n, buf);
      assert s.full || s.done == |buf| || s.slot == SLOTS;
      assert WriteLoop(Repaired, s, n, buf, SLOTS) == s == WriteLoop(AsWritten, s, n, buf, SLOTS);
    }
  }

  /** When the bytes reach into a second block, the source as written either stops short or leaves the offset too far on. */
  lemma SecondBlockDrifts(fs: Fs, n: int, o: nat, buf: seq<byte>)
    requires Tables(fs) && Owned(fs) && IsFile(fs, n) && o <= MAX_SIZE && !OneBlock(o, Fitting(o, buf))
    ensures var r := WriteLoop(AsWritten, Start(fs, o), n, buf, SLOTS);
            r.done < Fitting(o, buf) || o + r.done < r.offset
  {
    hide StoreChunk, EnsureBlock, WriteStep, Owned, InodeShape, BlockShape, Ref;
    var c := Start(fs, o);
    WriteStepOwned(AsWritten, c, n, buf);
    WriteStepCases(AsWritten, c, n, buf);
    var s := WriteStep(AsWritten, c, n, buf);
    if s.full {
      assert WriteLoop(AsWritten, s, n, buf, SLOTS) == s;
    } else {
      AsWrittenDrift(s, n, buf);
    }
  }

  /**
   * As written, tfs_write writes all the bytes that fit in the largest file at its offset, returns their number and
   * moves the offset past them, if and only if they fit in the block that holds the offset.
   */
  lemma AsWrittenSplicesExact(fs: Fs, h: int, n: int, buf: seq<byte>)
    requires Tables(fs) && Owned(fs) && OpenOn(fs, h, n)
    requires WriteOffset(fs, h) <= fs.inodes[n].size && |buf| % 0x1_0000_0000 < 0x8000_0000
    ensures var o := WriteOffset(fs, h);
            var m := Fitting(o, buf);
            WroteAt(fs, Write(AsWritten, fs, h, buf), h, n, o, buf[..m]) <==> FitsInBlock(fs, n, o, m)
  {
    hide InodeShape, BlockShape, Owned, Ref, Page, WriteLoop, WroteAt, Sized, Finish, OnlyFile, Write;
    var o := WriteOffset(fs, h);
    var m := Fitting(o, buf);
    var r := WriteLoop(AsWritten, Start(fs, o), n, buf, SLOTS);
    OpenOnFile(fs, h, n);
    WriteOneLoop(AsWritten, fs, h, n, buf);
    FinishRelabels(AsWritten, r, n, h);
    if !OneBlock(o, m) {
      SecondBlockDrifts(fs, n, o, buf);
      if WroteAt(fs, Write(AsWritten, fs, h, buf), h, n, o, buf[..m]) {
        WroteAtOffset(fs, Write(AsWritten, fs, h, buf), h, n, o, buf[..m]);
        assert false;
      }
    } else {
      OneBlockLoop(fs, n, o, buf);
      RepairedLoopAmount(fs, n, o, buf);
      if r.full {
        if WroteAt(fs, Write(AsWritten, fs, h, buf), h, n, o, buf[..m]) {
          WroteAtOffset(fs, Write(AsWritten, fs, h, buf), h, n, o, buf[..m]);
          assert false;
        }
      } else {
        RepairedLoopSplices(fs, h, n, o, buf);
        FinishSame(r, n, h);
      }
    }
  }

  lemma FinishSame(r: WriteCursor, n: int, h: int)
    requires Tables(r.fs) && ValidInumber(n) && ValidHandle(h) && !r.full
    ensures Finish(AsWritten, r, n, h) == Finish(Repaired, r, n, h)
  {
  }

  lemma WroteAtOffset(fs: Fs, w: WriteResult, h: int, n: int, o: nat, d: seq<byte>)
    requires Tables(fs) && Tables(w.fs) && OpenOn(fs, h, n) && o <= fs.inodes[n].size && WroteAt(fs, w, h, n, o, d)
    ensures w.ret == |d| && w.fs.files[h].offset == o + |d|
  {
  }
}
