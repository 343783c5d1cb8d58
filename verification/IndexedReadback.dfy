/**
 * The source as written, over whole sequences of calls.  Both offsets drift, but reading with the lengths that were
 * written walks the same blocks as the writing did, and no later write lands on an earlier one.
 */
module IndexedReadback {
  import opened Bytes
  import opened AllocationTable
  import opened Disk
  import opened IndexedState
  import opened IndexedOwnership
  import opened IndexedWrite
  import opened IndexedWriteLaw
  import opened IndexedReadLaw

  /** Where the offset ends when, as written, total bytes are moved and done of them have been when it is off. */
  function EndOffset(off: nat, total: nat, done: nat): (e: nat)
    requires done <= total
    ensures off + (total - done) <= e
    decreases total - done
  {
    if done == total then off
    else
      var k := ChunkSize(off, total - done);
      EndOffset(off + done + k, total, done + k)
  }

  /** The next chunk of buf lies in the slot, at the place the offset gives. */
  predicate ChunkLaid(fs: Fs, n: int, slot: nat, off: nat, buf: seq<byte>, done: nat)
    requires Tables(fs) && ValidInumber(n) && done < |buf|
  {
    var at := off % BLOCK_SIZE;
    && slot < SLOTS && Ref(fs, n, slot) != -1
    && forall q :: at <= q < at + ChunkSize(off, |buf| - done) ==> Page(fs, n, slot)[q] == buf[done + q - at]
  }

  /** The bytes of buf from done on lie in the slots and at the places where a write loop leaves them. */
  predicate Laid(fs: Fs, n: int, slot: nat, off: nat, buf: seq<byte>, done: nat)
    requires Tables(fs) && ValidInumber(n) && done <= |buf|
    decreases |buf| - done
  {
    done == |buf| ||
    var k := ChunkSize(off, |buf| - done);
    ChunkLaid(fs, n, slot, off, buf, done) && Laid(fs, n, slot + 1, off + done + k, buf, done + k)
  }

  lemma StepLays(c: WriteCursor, n: int, buf: seq<byte>)
    requires Writable(c, n, buf) && Owned(c.fs) && IsFile(c.fs, n) && c.slot < SLOTS && c.done < |buf| && !c.full
    requires !WriteStep(AsWritten, c, n, buf).full
    ensures ChunkLaid(WriteStep(AsWritten, c, n, buf).fs, n, c.slot, c.offset, buf, c.done)
  {
    hide InodeShape, BlockShape, Owned, Ref, Page, WriteStep;
    WriteStepSlots(AsWritten, c, n, buf);
    WriteStepBytes(AsWritten, c, n, buf);
  }

  /** A chunk that ends at or before position lo stays when only the stretch from lo on is written. */
  lemma ChunkKept(fs: Fs, g: Fs, n: int, slot: nat, off: nat, buf: seq<byte>, done: nat, lo: int, hi: int)
    requires Tables(fs) && Tables(g) && ValidInumber(n) && done < |buf| && ChunkLaid(fs, n, slot, off, buf, done)
    requires slot * BLOCK_SIZE + off % BLOCK_SIZE + ChunkSize(off, |buf| - done) <= lo && KeepsOutside(fs, g, n, lo, hi)
    requires forall j :: 0 <= j < SLOTS && Ref(fs, n, j) != -1 ==> Ref(g, n, j) != -1
    ensures ChunkLaid(g, n, slot, off, buf, done)
  {
    hide InodeShape, BlockShape, Ref, Page;
    var at := off % BLOCK_SIZE;
    forall q | at <= q < at + ChunkSize(off, |buf| - done)
      ensures Page(g, n, slot)[q] == buf[done + q - at]
    {
      assert Outside(slot, q, lo, hi);
    }
  }

  /** The chunk of one turn is still there when the loop has run on. */
  lemma ChunkStays(c: WriteCursor, n: int, buf: seq<byte>)
    requires Writable(c, n, buf) && Owned(c.fs) && IsFile(c.fs, n) && InStep(c, buf)
    requires c.slot < SLOTS && c.done < |buf| && !c.full && !WriteStep(AsWritten, c, n, buf).full
    ensures var r := WriteLoop(AsWritten, WriteStep(AsWritten, c, n, buf), n, buf, SLOTS);
            ChunkLaid(r.fs, n, c.slot, c.offset, buf, c.done)
  {
    hide InodeShape, BlockShape, Owned, Ref, Page, WriteStep, WriteLoop, ChunkLaid, KeepsOutside;
    var s := WriteStep(AsWritten, c, n, buf);
    WriteStepOwned(AsWritten, c, n, buf);
    WriteStepCases(AsWritten, c, n, buf);
    WriteStepInStep(AsWritten, c, n, buf);
    StepLays(c, n, buf);
    WriteLoopKeeps(AsWritten, s, n, buf);
    WriteLoopOwned(AsWritten, s, n, buf, SLOTS);
    var r := WriteLoop(AsWritten, s, n, buf, SLOTS);
    ChunkKept(s.fs, r.fs, n, c.slot, c.offset, buf, c.done, Position(s), r.offset);
  }

  /** A write loop that writes everything lays the bytes out, and ends at the offset the lengths alone determine. */
  lemma {:induction false} LoopLays(c: WriteCursor, n: int, buf: seq<byte>)
    requires Writable(c, n, buf) && Owned(c.fs) && IsFile(c.fs, n) && InStep(c, buf) && !c.full
    requires WriteLoop(AsWritten, c, n, buf, SLOTS).done == |buf|
    ensures var r := WriteLoop(AsWritten, c, n, buf, SLOTS);
            r.offset == EndOffset(c.offset, |buf|, c.done) && Laid(r.fs, n, c.slot, c.offset, buf, c.done)
    decreases SLOTS - c.slot
  {
    hide InodeShape, BlockShape, Owned, Ref, Page, WriteStep, ChunkLaid, OnlyFile, IsFile, StoreChunk, HasRoom;
    if c.done < |buf| {
      WriteStepOwned(AsWritten, c, n, buf);
      WriteStepCases(AsWritten, c, n, buf);
      WriteStepInStep(AsWritten, c, n, buf);
      ChunkStays(c, n, buf);
      LoopLays(WriteStep(AsWritten, c, n, buf), n, buf);
    }
  }

  /** Bytes laid out before position lo stay where they are when only the stretch from lo on is written. */
  lemma {:induction false} LaidKept(fs: Fs, g: Fs, n: int, slot: nat, off: nat, buf: seq<byte>, done: nat, lo: int, hi: int)
    requires Tables(fs) && Tables(g) && ValidInumber(n) && done <= |buf|
    requires done < |buf| ==> slot <= off / BLOCK_SIZE
    requires Laid(fs, n, slot, off, buf, done) && EndOffset(off, |buf|, done) <= lo
    requires KeepsOutside(fs, g, n, lo, hi)
    requires forall j :: 0 <= j < SLOTS && Ref(fs, n, j) != -1 ==> Ref(g, n, j) != -1
    ensures Laid(g, n, slot, off, buf, done)
    decreases |buf| - done
  {
    hide InodeShape, BlockShape, Ref, Page, ChunkLaid, KeepsOutside;
    if done < |buf| {
      var k := ChunkSize(off, |buf| - done);
      LaidKept(fs, g, n, slot + 1, off + done + k, buf, done + k, lo, hi);
      ChunkKept(fs, g, n, slot, off, buf, done, lo, hi);
    }
  }

  /* ----- reading what was laid out ----- */

  /**
   * The clamp of the indirect read loop (operations.c:275-276) comes out right at every chunk: a chunk after the first
   * one lies in a direct block or fills its block.
   */
  predicate ClampAgrees(slot: nat, off: nat, total: nat, done: nat)
    requires done <= total
    decreases total - done
  {
    done == total ||
    var k := ChunkSize(off, total - done);
    (slot < DIRECT || ChunkSize(off, total) == k) && ClampAgrees(slot + 1, off + done + k, total, done + k)
  }

  lemma ReadStepLaid(c: ReadCursor, fs: Fs, n: int, buf: seq<byte>)
    requires Tables(fs) && ValidInumber(n) && !c.missing && |c.data| < |buf| && c.data == buf[..|c.data|]
    requires ChunkLaid(fs, n, c.slot, c.offset, buf, |c.data|)
    requires c.slot < DIRECT || ChunkSize(c.offset, |buf|) == ChunkSize(c.offset, |buf| - |c.data|)
    ensures var s := ReadStep(AsWritten, c, fs, n, |buf|);
            |s.data| <= |buf| && s.data == buf[..|s.data|]
  {
    hide InodeShape, BlockShape, Ref, Page, ReadStep;
    ReadStepBytes(AsWritten, c, fs, n, |buf|);
    var s := ReadStep(AsWritten, c, fs, n, |buf|);
    var at := c.offset % BLOCK_SIZE;
    forall x | 0 <= x < |s.data|
      ensures s.data[x] == buf[x]
    {
      if x < |c.data| {
        assert s.data[x] == s.data[..|c.data|][x];
      } else {
        var q := x - |c.data| + at;
        assert s.data[|c.data| + q - at] == Page(fs, n, c.slot)[q];
      }
    }
  }

  /** The read loop takes the steps of the write loop; where the clamp is wrong it reads too much. */
  lemma {:induction false} ReadLaid(c: ReadCursor, fs: Fs, n: int, buf: seq<byte>)
    requires Tables(fs) && ValidInumber(n) && !c.missing && |c.data| <= |buf|
    requires c.data == buf[..|c.data|] && Laid(fs, n, c.slot, c.offset, buf, |c.data|)
    ensures var r := ReadLoop(AsWritten, c, fs, n, |buf|, SLOTS);
            if ClampAgrees(c.slot, c.offset, |buf|, |c.data|)
            then r.data == buf && r.offset == EndOffset(c.offset, |buf|, |c.data|)
            else |buf| < |r.data|
    decreases |buf| - |c.data|
  {
    hide InodeShape, BlockShape, Ref, Page, ReadLoop, ReadStep;
    ReadLoopUnroll(AsWritten, c, fs, n, |buf|);
    if |c.data| < |buf| {
      ReadStepBytes(AsWritten, c, fs, n, |buf|);
      var s := ReadStep(AsWritten, c, fs, n, |buf|);
      if c.slot < DIRECT || ChunkSize(c.offset, |buf|) == ChunkSize(c.offset, |buf| - |c.data|) {
        ReadStepLaid(c, fs, n, buf);
        ReadLaid(s, fs, n, buf);
      } else {
        ReadLoopUnroll(AsWritten, s, fs, n, |buf|);
      }
    }
  }

  /* ----- whole sequences ----- */

  function EndAll(o: nat, records: seq<seq<byte>>): (e: nat)
    ensures o <= e
    decreases |records|
  {
    if records == [] then o else EndAll(EndOffset(o, |records[0]|, 0), records[1..])
  }

  predicate LaidAll(fs: Fs, n: int, o: nat, records: seq<seq<byte>>)
    requires Tables(fs) && ValidInumber(n)
    decreases |records|
  {
    records == [] ||
    (Laid(fs, n, o / BLOCK_SIZE, o, records[0], 0) && LaidAll(fs, n, EndOffset(o, |records[0]|, 0), records[1..]))
  }

  predicate AllAgree(o: nat, records: seq<seq<byte>>)
    decreases |records|
  {
    records == [] ||
    (ClampAgrees(o / BLOCK_SIZE, o, |records[0]|, 0) && AllAgree(EndOffset(o, |records[0]|, 0), records[1..]))
  }

  /** Handle h is open on file n at offset o and does not append. */
  predicate StandsAt(fs: Fs, h: int, n: int, o: nat)
    requires Tables(fs)
  {
    ValidHandle(h) && fs.files[h] == OpenFile(n, o, false) && IsFile(fs, n)
  }

  /** One write, as written, that returns the length of its buffer. */
  lemma WriteLays(fs: Fs, h: int, n: int, o: nat, buf: seq<byte>)
    requires Tables(fs) && Owned(fs) && StandsAt(fs, h, n, o) && |buf| % 0x1_0000_0000 < 0x8000_0000
    requires Write(AsWritten, fs, h, buf).ret == |buf|
    ensures var g := Write(AsWritten, fs, h, buf).fs;
            var e := EndOffset(o, |buf|, 0);
            && Owned(g) && StandsAt(g, h, n, e) && g.files == fs.files[h := g.files[h]]
            && Laid(g, n, o / BLOCK_SIZE, o, buf, 0) && KeepsOutside(fs, g, n, o, e)
            && (forall j :: 0 <= j < SLOTS && Ref(fs, n, j) != -1 ==> Ref(g, n, j) != -1)
            && e <= g.inodes[n].size && fs.inodes[n].size <= g.inodes[n].size
  {
    hide InodeShape, BlockShape, Owned, Ref, Page, WriteLoop, WriteAt, Finish, Laid, EndOffset;
    var c := Start(fs, o);
    var r := WriteLoop(AsWritten, c, n, buf, SLOTS);
    WriteAtOneLoop(AsWritten, fs, h, o, buf);
    FinishRelabels(AsWritten, r, n, h);
    WriteLoopOwned(AsWritten, c, n, buf, SLOTS);
    WriteLoopVisits(AsWritten, c, n, buf);
    WriteLoopKeeps(AsWritten, c, n, buf);
    LoopLays(c, n, buf);
    assert Position(c) == o;
    var g := Finish(AsWritten, r, n, h).fs;
    RelabelledOwned(r.fs, g, n);
    RelabelledCells(r.fs, g, n);
    RelabelledLaid(r.fs, g, n, o / BLOCK_SIZE, o, buf, 0);
  }

  lemma {:induction false} RelabelledLaid(fs: Fs, g: Fs, n: int, slot: nat, off: nat, buf: seq<byte>, done: nat)
    requires Tables(fs) && Tables(g) && ValidInumber(n) && done <= |buf| && Laid(fs, n, slot, off, buf, done)
    requires forall j :: 0 <= j < SLOTS ==> Ref(g, n, j) == Ref(fs, n, j) && Page(g, n, j) == Page(fs, n, j)
    ensures Laid(g, n, slot, off, buf, done)
    decreases |buf| - done
  {
    hide InodeShape, BlockShape;
    if done < |buf| {
      var k := ChunkSize(off, |buf| - done);
      RelabelledLaid(fs, g, n, slot + 1, off + done + k, buf, done + k);
    }
  }

  /** No later write lands on an earlier one: after all the writes every record is still laid out. */
  lemma {:induction false} WritesLay(fs: Fs, h: int, n: int, o: nat, records: seq<seq<byte>>)
    requires Tables(fs) && Owned(fs) && StandsAt(fs, h, n, o)
    requires forall i :: 0 <= i < |records| ==> |records[i]| % 0x1_0000_0000 < 0x8000_0000
    requires WriteAll(AsWritten, fs, h, records).complete
    ensures var g := WriteAll(AsWritten, fs, h, records).fs;
            && IsFile(g, n) && g.files == fs.files[h := g.files[h]]
            && LaidAll(g, n, o, records) && KeepsOutside(fs, g, n, o, EndAll(o, records))
            && (forall j :: 0 <= j < SLOTS && Ref(fs, n, j) != -1 ==> Ref(g, n, j) != -1)
            && (records != [] ==> EndAll(o, records) <= g.inodes[n].size) && fs.inodes[n].size <= g.inodes[n].size
    decreases |records|
  {
    hide InodeShape, BlockShape, Owned, Ref, Page, Write, Laid, EndOffset;
    if records != [] {
      var a := Write(AsWritten, fs, h, records[0]).fs;
      var e := EndOffset(o, |records[0]|, 0);
      WriteLays(fs, h, n, o, records[0]);
      WritesLay(a, h, n, e, records[1..]);
      var g := WriteAll(AsWritten, a, h, records[1..]).fs;
      LaidKept(a, g, n, o / BLOCK_SIZE, o, records[0], 0, e, EndAll(o, records));
      KeepsOutsideTrans(fs, a, g, n, o, e, e, EndAll(o, records));
    }
  }

  lemma ReadOneRecord(fs: Fs, h: int, n: int, o: nat, buf: seq<byte>)
    requires Tables(fs) && StandsAt(fs, h, n, o) && EndOffset(o, |buf|, 0) <= fs.inodes[n].size
    requires Laid(fs, n, o / BLOCK_SIZE, o, buf, 0)
    ensures var r := Read(AsWritten, fs, h, |buf|);
            && (r.data == buf <==> ClampAgrees(o / BLOCK_SIZE, o, |buf|, 0))
            && (r.data == buf ==> r.fs == SetOffset(fs, h, EndOffset(o, |buf|, 0)))
  {
    hide InodeShape, BlockShape, Ref, Page, ReadLoop, Laid, ClampAgrees, EndOffset;
    var c := StartRead(o);
    ReadLoopSplit(AsWritten, c, fs, n, |buf|, DIRECT);
    DirectReadEnds(AsWritten, c, fs, n, |buf|);
    ReadLoopUnroll(AsWritten, ReadLoop(AsWritten, c, fs, n, |buf|, DIRECT), fs, n, |buf|);
    assert c.data == buf[..|c.data|];
    ReadLaid(c, fs, n, buf);
    ReadSlotFree(ReadLoop(AsWritten, c, fs, n, |buf|, DIRECT), fs, n, |buf|);
  }

  /** Moving the slot of a read that has finished or gone past the direct blocks changes nothing but the slot. */
  lemma ReadSlotFree(d: ReadCursor, fs: Fs, n: int, toRead: nat)
    requires Tables(fs) && ValidInumber(n)
    requires d.missing || toRead <= |d.data| || DIRECT <= d.slot
    ensures var a := ReadLoop(AsWritten, d, fs, n, toRead, SLOTS);
            var b := ReadLoop(AsWritten, d.(slot := Max(d.slot, DIRECT)), fs, n, toRead, SLOTS);
            a.offset == b.offset && a.data == b.data && a.missing == b.missing
  {
    hide InodeShape, BlockShape, Ref, ReadLoop;
    ReadLoopUnroll(AsWritten, d, fs, n, toRead);
    ReadLoopUnroll(AsWritten, d.(slot := Max(d.slot, DIRECT)), fs, n, toRead);
  }

  lemma {:induction false} ReadsOfLaid(fs: Fs, h: int, n: int, o: nat, records: seq<seq<byte>>)
    requires Tables(fs) && StandsAt(fs, h, n, o) && LaidAll(fs, n, o, records)
    requires records != [] ==> EndAll(o, records) <= fs.inodes[n].size
    ensures ReadAll(AsWritten, fs, h, Lengths(records)) == records <==> AllAgree(o, records)
    decreases |records|
  {
    hide InodeShape, BlockShape, Ref, Page, Read, Laid, ClampAgrees, EndOffset;
    if records != [] {
      var e := EndOffset(o, |records[0]|, 0);
      ReadOneRecord(fs, h, n, o, records[0]);
      var r := Read(AsWritten, fs, h, |records[0]|);
      assert ReadAll(AsWritten, fs, h, Lengths(records)) == [r.data] + ReadAll(AsWritten, r.fs, h, Lengths(records[1..]));
      if r.data == records[0] {
        RelabelledCells(fs, r.fs, n);
        RelabelledLaidAll(fs, r.fs, n, e, records[1..]);
        ReadsOfLaid(r.fs, h, n, e, records[1..]);
        assert records == [records[0]] + records[1..];
      }
    }
  }

  function Lengths(records: seq<seq<byte>>): (r: seq<nat>)
    ensures |r| == |records|
  {
    if records == [] then [] else [|records[0]|] + Lengths(records[1..])
  }

  lemma {:induction false} RelabelledLaidAll(fs: Fs, g: Fs, n: int, o: nat, records: seq<seq<byte>>)
    requires Tables(fs) && Tables(g) && ValidInumber(n) && LaidAll(fs, n, o, records)
    requires forall j :: 0 <= j < SLOTS ==> Ref(g, n, j) == Ref(fs, n, j) && Page(g, n, j) == Page(fs, n, j)
    ensures LaidAll(g, n, o, records)
    decreases |records|
  {
    hide InodeShape, BlockShape, Ref, Page, Laid, EndOffset;
    if records != [] {
      RelabelledLaid(fs, g, n, o / BLOCK_SIZE, o, records[0], 0);
      RelabelledLaidAll(fs, g, n, EndOffset(o, |records[0]|, 0), records[1..]);
    }
  }

  /**
   * As written: records written in turn through one handle and read back with the same lengths through another handle
   * that stands where the first one stood come back unchanged, although both offsets drift, if and only if no record
   * meets the wrong clamp of the indirect read loop.
   */
  lemma AsWrittenReadback(fs: Fs, h: int, g: int, n: int, o: nat, records: seq<seq<byte>>)
    requires Tables(fs) && Owned(fs) && StandsAt(fs, h, n, o) && StandsAt(fs, g, n, o) && g != h
    requires forall i :: 0 <= i < |records| ==> |records[i]| % 0x1_0000_0000 < 0x8000_0000
    requires WriteAll(AsWritten, fs, h, records).complete
    ensures ReadAll(AsWritten, WriteAll(AsWritten, fs, h, records).fs, g, Lengths(records)) == records
            <==> AllAgree(o, records)
  {
    hide InodeShape, BlockShape, Ref, Page, Owned, ReadAll, WriteAll, LaidAll, AllAgree, EndAll;
    WritesLay(fs, h, n, o, records);
    ReadsOfLaid(WriteAll(AsWritten, fs, h, records).fs, g, n, o, records);
  }

  /** A record every chunk of which lies in the direct blocks. */
  predicate StaysDirect(slot: nat, off: nat, total: nat, done: nat)
    requires done <= total
    decreases total - done
  {
    done == total ||
    var k := ChunkSize(off, total - done);
    slot < DIRECT && StaysDirect(slot + 1, off + done + k, total, done + k)
  }

  /** In the direct blocks the clamp is never wrong. */
  lemma {:induction false} DirectAgrees(slot: nat, off: nat, total: nat, done: nat)
    requires done <= total && StaysDirect(slot, off, total, done)
    ensures ClampAgrees(slot, off, total, done)
    decreases total - done
  {
    if done < total {
      var k := ChunkSize(off, total - done);
      DirectAgrees(slot + 1, off + done + k, total, done + k);
    }
  }

  /** Every chunk of every record lies in the direct blocks. */
  predicate AllDirect(o: nat, records: seq<seq<byte>>)
    decreases |records|
  {
    records == [] ||
    (StaysDirect(o / BLOCK_SIZE, o, |records[0]|, 0) && AllDirect(EndOffset(o, |records[0]|, 0), records[1..]))
  }

  lemma {:induction false} AllDirectAgree(o: nat, records: seq<seq<byte>>)
    requires AllDirect(o, records)
    ensures AllAgree(o, records)
    decreases |records|
  {
    if records != [] {
      DirectAgrees(o / BLOCK_SIZE, o, |records[0]|, 0);
      AllDirectAgree(EndOffset(o, |records[0]|, 0), records[1..]);
    }
  }

  /** As written: whatever is written in the direct blocks is read back with the same lengths, although both offsets drift. */
  lemma DirectReadback(fs: Fs, h: int, g: int, n: int, o: nat, records: seq<seq<byte>>)
    requires Tables(fs) && Owned(fs) && StandsAt(fs, h, n, o) && StandsAt(fs, g, n, o) && g != h
    requires forall i :: 0 <= i < |records| ==> |records[i]| % 0x1_0000_0000 < 0x8000_0000
    requires WriteAll(AsWritten, fs, h, records).complete && AllDirect(o, records)
    ensures ReadAll(AsWritten, WriteAll(AsWritten, fs, h, records).fs, g, Lengths(records)) == records
  {
    hide InodeShape, BlockShape, Ref, Page, Owned, ReadAll, WriteAll, AllDirect, AllAgree;
    AllDirectAgree(o, records);
    AsWrittenReadback(fs, h, g, n, o, records);
  }
}
