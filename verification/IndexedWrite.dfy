/** tfs_write of the multi-block version is a splice: what the repaired loops guarantee, and when the source does. */
module IndexedWrite {
  import opened Bytes
  import opened AllocationTable
  import opened Disk
  import opened IndexedState
  import opened IndexedOwnership

  /* ----- the two loops, run one after the other, are one loop over the slots ----- */

  lemma {:induction false} WriteLoopSplit(v: Variant, c: WriteCursor, n: int, buf: seq<byte>, mid: int)
    requires Writable(c, n, buf) && mid <= SLOTS
    ensures WriteLoop(v, c, n, buf, SLOTS) == WriteLoop(v, WriteLoop(v, c, n, buf, mid), n, buf, SLOTS)
    decreases !c.full, SLOTS - c.slot
  {
    if !c.full && c.slot < mid && c.done < |buf| {
      WriteLoopSplit(v, WriteStep(v, c, n, buf), n, buf, mid);
    }
  }

  /* ----- what a loop leaves alone, in both variants ----- */

  lemma OnlyFileTrans(a: Fs, b: Fs, c: Fs, n: int)
    requires Tables(a) && Tables(b) && Tables(c) && ValidInumber(n)
    requires OnlyFile(a, b, n) && OnlyFile(b, c, n)
    ensures OnlyFile(a, c, n)
  {
    forall m | Live(a, m) && m != n
      ensures SameInode(a, c, m)
    {
      assert SameInode(a, b, m) && SameInode(b, c, m);
    }
  }

  function Missing(fs: Fs, n: int, i: nat, last: int): (r: nat)
    requires Tables(fs) && ValidInumber(n) && last <= SLOTS
    decreases last - i
  {
    if last <= i then 0 else (if Ref(fs, n, i) == -1 then 1 else 0) + Missing(fs, n, i + 1, last)
  }

  lemma {:induction false} MissingSame(fs: Fs, g: Fs, n: int, i: nat, last: int)
    requires Tables(fs) && Tables(g) && ValidInumber(n) && last <= SLOTS
    requires forall j :: i <= j < last ==> (Ref(g, n, j) == -1 <==> Ref(fs, n, j) == -1)
    ensures Missing(g, n, i, last) == Missing(fs, n, i, last)
    decreases last - i
  {
    if i < last {
      MissingSame(fs, g, n, i + 1, last);
    }
  }

  /* ----- one turn ----- */

  /** A turn either finds the disk full and changes nothing, or stores its chunk. */
  lemma WriteStepCases(v: Variant, c: WriteCursor, n: int, buf: seq<byte>)
    requires Writable(c, n, buf) && Owned(c.fs) && IsFile(c.fs, n) && c.slot < SLOTS && c.done < |buf| && !c.full
    ensures var s := WriteStep(v, c, n, buf);
            var k := ChunkSize(c.offset, |buf| - c.done);
            if Ref(c.fs, n, c.slot) == -1 && CountFree(c.fs.blockTaken) == 0 then s == c.(full := true)
            else
              && HasRoom(c.fs, n, c.slot)
              && s == WriteCursor(StoreChunk(c.fs, n, c.slot, c.offset % BLOCK_SIZE, buf[c.done..c.done + k]),
                                  c.slot + 1, c.offset + Advance(v, k, c.done + k), c.done + k, false)
  {
    hide StoreChunk, EnsureBlock, Owned, InodeShape, BlockShape, Ref;
    EnsureBlockFull(c.fs, n, c.slot);
  }

  lemma WriteStepOwned(v: Variant, c: WriteCursor, n: int, buf: seq<byte>)
    requires Writable(c, n, buf) && Owned(c.fs) && IsFile(c.fs, n) && c.slot < SLOTS && c.done < |buf| && !c.full
    ensures var s := WriteStep(v, c, n, buf);
            Owned(s.fs) && IsFile(s.fs, n) && OnlyFile(c.fs, s.fs, n)
  {
    hide StoreChunk, EnsureBlock, WriteStep, Owned, InodeShape, BlockShape, Ref;
    WriteStepCases(v, c, n, buf);
    if !WriteStep(v, c, n, buf).full {
      var k := ChunkSize(c.offset, |buf| - c.done);
      StoreChunkOwned(c.fs, n, c.slot, c.offset % BLOCK_SIZE, buf[c.done..c.done + k]);
    }
  }

  lemma WriteStepSlots(v: Variant, c: WriteCursor, n: int, buf: seq<byte>)
    requires Writable(c, n, buf) && Owned(c.fs) && IsFile(c.fs, n) && c.slot < SLOTS && c.done < |buf| && !c.full
    requires !WriteStep(v, c, n, buf).full
    ensures var s := WriteStep(v, c, n, buf);
            && Ref(s.fs, n, c.slot) != -1
            && (forall j :: 0 <= j < SLOTS && j != c.slot ==>
                  Ref(s.fs, n, j) == Ref(c.fs, n, j) && Page(s.fs, n, j) == Page(c.fs, n, j))
            && CountFree(s.fs.blockTaken) == CountFree(c.fs.blockTaken) - (if Ref(c.fs, n, c.slot) == -1 then 1 else 0)
  {
    hide StoreChunk, EnsureBlock, WriteStep, Owned, InodeShape, BlockShape, Ref, Page;
    WriteStepCases(v, c, n, buf);
    var k := ChunkSize(c.offset, |buf| - c.done);
    StoreChunkSlots(c.fs, n, c.slot, c.offset % BLOCK_SIZE, buf[c.done..c.done + k]);
  }

  lemma WriteStepBytes(v: Variant, c: WriteCursor, n: int, buf: seq<byte>)
    requires Writable(c, n, buf) && Owned(c.fs) && IsFile(c.fs, n) && c.slot < SLOTS && c.done < |buf| && !c.full
    requires !WriteStep(v, c, n, buf).full
    ensures var s := WriteStep(v, c, n, buf);
            var at := c.offset % BLOCK_SIZE;
            var k := ChunkSize(c.offset, |buf| - c.done);
            && s.slot == c.slot + 1 && s.done == c.done + k && s.offset == c.offset + Advance(v, k, c.done + k)
            && (forall q :: at <= q < at + k ==> Page(s.fs, n, c.slot)[q] == buf[c.done + q - at])
            && (Ref(c.fs, n, c.slot) != -1 ==> forall q :: 0 <= q < BLOCK_SIZE && !(at <= q < at + k) ==>
                  Page(s.fs, n, c.slot)[q] == Page(c.fs, n, c.slot)[q])
  {
    hide StoreChunk, EnsureBlock, WriteStep, Owned, InodeShape, BlockShape, Ref, Page;
    WriteStepCases(v, c, n, buf);
    var k := ChunkSize(c.offset, |buf| - c.done);
    StoreChunkBytes(c.fs, n, c.slot, c.offset % BLOCK_SIZE, buf[c.done..c.done + k]);
  }

  /* ----- the whole loop ----- */

  lemma {:induction false} WriteLoopOwned(v: Variant, c: WriteCursor, n: int, buf: seq<byte>, last: int)
    requires Writable(c, n, buf) && Owned(c.fs) && IsFile(c.fs, n) && last <= SLOTS
    ensures var r := WriteLoop(v, c, n, buf, last);
            Owned(r.fs) && IsFile(r.fs, n) && OnlyFile(c.fs, r.fs, n)
    decreases !c.full, last - c.slot
  {
    hide WriteStep, Owned, InodeShape, BlockShape;
    if !(c.full || last <= c.slot || c.done == |buf|) {
      var s := WriteStep(v, c, n, buf);
      WriteStepOwned(v, c, n, buf);
      WriteLoopOwned(v, s, n, buf, last);
      OnlyFileTrans(c.fs, s.fs, WriteLoop(v, s, n, buf, last).fs, n);
    }
  }

  /** Which slots a loop visits: those from c.slot up to r.slot have blocks afterwards and the others are untouched. */
  ghost predicate Visited(c: WriteCursor, r: WriteCursor, n: int, buf: seq<byte>)
    requires Writable(c, n, buf) && Writable(r, n, buf)
  {
    && c.slot <= r.slot && c.done <= r.done && r.slot <= Max(c.slot, SLOTS)
    && (forall j :: c.slot <= j < r.slot && j < SLOTS ==> Ref(r.fs, n, j) != -1)
    && (forall j :: 0 <= j < SLOTS && (j < c.slot || r.slot <= j) ==>
          Ref(r.fs, n, j) == Ref(c.fs, n, j) && Page(r.fs, n, j) == Page(c.fs, n, j))
    && (if r.full then r.slot < SLOTS && r.done < |buf| && Ref(r.fs, n, r.slot) == -1 && CountFree(r.fs.blockTaken) == 0
        else r.done == |buf| || SLOTS <= r.slot)
    && CountFree(r.fs.blockTaken) == CountFree(c.fs.blockTaken) - Missing(c.fs, n, c.slot, Min(r.slot, SLOTS))
  }

  lemma {:induction false} WriteLoopVisits(v: Variant, c: WriteCursor, n: int, buf: seq<byte>)
    requires Writable(c, n, buf) && Owned(c.fs) && IsFile(c.fs, n) && !c.full
    ensures Visited(c, WriteLoop(v, c, n, buf, SLOTS), n, buf)
    decreases SLOTS - c.slot
  {
    hide WriteStep, Owned, InodeShape, BlockShape, Ref, Page;
    if c.slot < SLOTS && c.done < |buf| {
      var s := WriteStep(v, c, n, buf);
      WriteStepOwned(v, c, n, buf);
      WriteStepCases(v, c, n, buf);
      if !s.full {
        WriteStepSlots(v, c, n, buf);
        WriteLoopVisits(v, s, n, buf);
        MissingSame(c.fs, s.fs, n, s.slot, Min(WriteLoop(v, s, n, buf, SLOTS).slot, SLOTS));
      }
    }
  }

  /* ----- where the bytes go ----- */

  /** Byte q of slot j lies outside the stretch of the file from position lo up to hi. */
  predicate Outside(j: int, q: int, lo: int, hi: int) {
    j * BLOCK_SIZE + q < lo || hi <= j * BLOCK_SIZE + q
  }

  /** The position in the file of the next byte a cursor writes. */
  function Position(c: WriteCursor): nat {
    c.slot * BLOCK_SIZE + c.offset % BLOCK_SIZE
  }

  /** Every byte the file had in a block, outside the stretch from lo up to hi, is the same in g. */
  ghost predicate KeepsOutside(fs: Fs, g: Fs, n: int, lo: int, hi: int)
    requires Tables(fs) && Tables(g) && ValidInumber(n)
  {
    forall j, q {:trigger Page(g, n, j)[q]} ::
      0 <= j < SLOTS && 0 <= q < BLOCK_SIZE && Ref(fs, n, j) != -1 && Outside(j, q, lo, hi) ==>
        Page(g, n, j)[q] == Page(fs, n, j)[q]
  }

  lemma KeepsOutsideTrans(a: Fs, b: Fs, c: Fs, n: int, lo: int, mid: int, lo': int, hi: int)
    requires Tables(a) && Tables(b) && Tables(c) && ValidInumber(n)
    requires forall j :: 0 <= j < SLOTS && Ref(a, n, j) != -1 ==> Ref(b, n, j) != -1
    requires lo <= lo' && mid <= hi && KeepsOutside(a, b, n, lo, mid) && KeepsOutside(b, c, n, lo', hi)
    ensures KeepsOutside(a, c, n, lo, hi)
  {
    hide InodeShape, BlockShape, Ref, Page;
    forall j, q | 0 <= j < SLOTS && 0 <= q < BLOCK_SIZE && Ref(a, n, j) != -1 && Outside(j, q, lo, hi)
      ensures Page(c, n, j)[q] == Page(a, n, j)[q]
    {
      assert Outside(j, q, lo, mid) && Outside(j, q, lo', hi);
      assert Page(b, n, j)[q] == Page(a, n, j)[q];
    }
  }

  /** The slot never runs ahead of the offset: index <= of_offset / BLOCK_SIZE, even though as written the offset drifts. */
  predicate InStep(c: WriteCursor, buf: seq<byte>) {
    c.done < |buf| ==> c.slot <= c.offset / BLOCK_SIZE
  }

  lemma WriteStepInStep(v: Variant, c: WriteCursor, n: int, buf: seq<byte>)
    requires Writable(c, n, buf) && Owned(c.fs) && IsFile(c.fs, n) && c.slot < SLOTS && c.done < |buf| && !c.full
    requires InStep(c, buf)
    ensures var s := WriteStep(v, c, n, buf);
            && InStep(s, buf) && c.done <= s.done
            && c.offset + (s.done - c.done) <= s.offset
            && (!s.full ==> Position(c) + (s.done - c.done) <= s.offset && Position(c) + (s.done - c.done) <= (c.slot + 1) * BLOCK_SIZE)
  {
    hide StoreChunk, EnsureBlock, WriteStep, Owned, InodeShape, BlockShape, Ref;
    WriteStepCases(v, c, n, buf);
  }

  /** A loop writes only the stretch from its position up to the offset it ends at. */
  lemma {:induction false} WriteLoopKeeps(v: Variant, c: WriteCursor, n: int, buf: seq<byte>)
    requires Writable(c, n, buf) && Owned(c.fs) && IsFile(c.fs, n) && InStep(c, buf)
    ensures var r := WriteLoop(v, c, n, buf, SLOTS);
            && KeepsOutside(c.fs, r.fs, n, Position(c), r.offset)
            && c.done <= r.done && c.offset + (r.done - c.done) <= r.offset
            && (r.done == c.done ==> r.offset == c.offset)
    decreases !c.full, SLOTS - c.slot
  {
    hide WriteStep, Owned, InodeShape, BlockShape, Ref, Page;
    if !c.full && c.slot < SLOTS && c.done < |buf| {
      var s := WriteStep(v, c, n, buf);
      WriteStepOwned(v, c, n, buf);
      WriteStepInStep(v, c, n, buf);
      WriteStepCases(v, c, n, buf);
      if !s.full {
        WriteStepSlots(v, c, n, buf);
        WriteStepBytes(v, c, n, buf);
        WriteLoopKeeps(v, s, n, buf);
        var r := WriteLoop(v, s, n, buf, SLOTS);
        assert KeepsOutside(c.fs, s.fs, n, Position(c), s.offset);
        KeepsOutsideTrans(c.fs, s.fs, r.fs, n, Position(c), s.offset, Position(s), r.offset);
      }
    }
  }
}
