/**
 * tfs_read of the multi-block version: a slice of the contents with the repaired lines, and as written exactly when
 * the bytes lie in the block that holds the offset.  With the repaired lines reading undoes writing, however the bytes
 * are cut into calls.
 */
module IndexedReadLaw {
  import opened Bytes
  import opened AllocationTable
  import opened Disk
  import opened IndexedState
  import opened IndexedOwnership
  import opened IndexedWrite
  import opened IndexedWriteLaw

  lemma {:induction false} ReadLoopSplit(v: Variant, c: ReadCursor, fs: Fs, n: int, toRead: nat, mid: int)
    requires Tables(fs) && ValidInumber(n) && mid <= SLOTS
    ensures ReadLoop(v, c, fs, n, toRead, SLOTS) == ReadLoop(v, ReadLoop(v, c, fs, n, toRead, mid), fs, n, toRead, SLOTS)
    decreases !c.missing, SLOTS - c.slot
  {
    hide ReadStep, InodeShape, BlockShape;
    if !c.missing && c.slot < mid && |c.data| < toRead {
      ReadLoopSplit(v, ReadStep(v, c, fs, n, toRead), fs, n, toRead, mid);
    }
  }

  lemma {:induction false} DirectReadEnds(v: Variant, c: ReadCursor, fs: Fs, n: int, toRead: nat)
    requires Tables(fs) && ValidInumber(n)
    ensures var d := ReadLoop(v, c, fs, n, toRead, DIRECT);
            d.missing || toRead <= |d.data| || DIRECT <= d.slot
    decreases !c.missing, DIRECT - c.slot
  {
    hide ReadStep, InodeShape, BlockShape;
    if !(c.missing || DIRECT <= c.slot || toRead <= |c.data|) {
      DirectReadEnds(v, ReadStep(v, c, fs, n, toRead), fs, n, toRead);
    }
  }

  function StartRead(o: nat): ReadCursor {
    ReadCursor(o / BLOCK_SIZE, o, [], false)
  }

  /** Where a read through h begins, and how many bytes it is after. */
  function ReadOffset(fs: Fs, h: int): nat
    requires Tables(fs) && ValidHandle(h) && ValidInumber(fs.files[h].inumber)
  {
    Min(fs.files[h].offset, fs.inodes[fs.files[h].inumber].size)
  }

  function ToRead(fs: Fs, h: int, len: nat): nat
    requires Tables(fs) && ValidHandle(h) && ValidInumber(fs.files[h].inumber)
  {
    Min(len, fs.inodes[fs.files[h].inumber].size - ReadOffset(fs, h))
  }

  lemma ReadOneLoop(v: Variant, fs: Fs, h: int, n: int, len: nat)
    requires Tables(fs) && ValidHandle(h) && fs.files[h].inumber == n && IsFile(fs, n)
    ensures var r := ReadLoop(v, StartRead(ReadOffset(fs, h)), fs, n, ToRead(fs, h, len), SLOTS);
            Read(v, fs, h, len) == ReadResult(SetOffset(fs, h, r.offset), |r.data|, r.data)
  {
    hide ReadStep, InodeShape, BlockShape;
    ReadLoopSplit(v, StartRead(ReadOffset(fs, h)), fs, n, ToRead(fs, h, len), DIRECT);
    DirectReadEnds(v, StartRead(ReadOffset(fs, h)), fs, n, ToRead(fs, h, len));
  }

  /* ----- the repaired loop ----- */

  /** The bytes of file n from position o up to position e, where every slot between has a block. */
  ghost predicate Covered(fs: Fs, n: int, o: nat, e: nat)
    requires Tables(fs) && ValidInumber(n)
  {
    e <= MAX_SIZE && forall i :: o / BLOCK_SIZE <= i < SLOTS && i * BLOCK_SIZE < e ==> Ref(fs, n, i) != -1
  }

  lemma {:induction false} RepairedReadBytes(c: ReadCursor, fs: Fs, n: int, toRead: nat)
    requires Tables(fs) && ValidInumber(n) && !c.missing && |c.data| <= toRead
    requires Covered(fs, n, c.offset, c.offset + toRead - |c.data|)
    requires |c.data| < toRead ==> c.slot == c.offset / BLOCK_SIZE
    ensures var r := ReadLoop(Repaired, c, fs, n, toRead, SLOTS);
            && |r.data| == toRead && r.offset == c.offset + toRead - |c.data|
            && r.data[..|c.data|] == c.data
            && forall p :: c.offset <= p < r.offset ==> r.data[|c.data| + p - c.offset] == ByteAt(fs, n, p)
    decreases SLOTS - c.slot
  {
    hide InodeShape, BlockShape, Ref, ReadLoop, ReadStep;
    ReadLoopUnroll(Repaired, c, fs, n, toRead);
    if |c.data| < toRead {
      assert c.slot * BLOCK_SIZE < c.offset + toRead - |c.data|;
      ReadStepBytes(Repaired, c, fs, n, toRead);
      var s := ReadStep(Repaired, c, fs, n, toRead);
      RepairedReadBytes(s, fs, n, toRead);
      var r := ReadLoop(Repaired, s, fs, n, toRead, SLOTS);
      forall p | c.offset <= p < r.offset
        ensures r.data[|c.data| + p - c.offset] == ByteAt(fs, n, p)
      {
        if p < s.offset {
          assert r.data[..|s.data|][|c.data| + p - c.offset] == s.data[|c.data| + p - c.offset];
        }
      }
      assert c.data == s.data[..|c.data|] == r.data[..|s.data|][..|c.data|];
    }
  }

  lemma ReadLoopUnroll(v: Variant, c: ReadCursor, fs: Fs, n: int, toRead: nat)
    requires Tables(fs) && ValidInumber(n)
    ensures ReadLoop(v, c, fs, n, toRead, SLOTS) ==
            if c.missing || SLOTS <= c.slot || toRead <= |c.data| then c
            else ReadLoop(v, ReadStep(v, c, fs, n, toRead), fs, n, toRead, SLOTS)
  {
    hide InodeShape, BlockShape, Ref, ReadStep;
  }

  lemma ReadStepBytes(v: Variant, c: ReadCursor, fs: Fs, n: int, toRead: nat)
    requires Tables(fs) && ValidInumber(n) && !c.missing && c.slot < SLOTS && |c.data| < toRead
    requires Ref(fs, n, c.slot) != -1
    ensures var s := ReadStep(v, c, fs, n, toRead);
            var k := ReadChunk(v, c.slot, c.offset, toRead, |c.data|);
            var at := c.offset % BLOCK_SIZE;
            && s.slot == c.slot + 1 && !s.missing && |s.data| == |c.data| + k
            && s.offset == c.offset + Advance(v, k, |c.data| + k)
            && s.data[..|c.data|] == c.data
            && (forall q :: at <= q < at + k ==> s.data[|c.data| + q - at] == Page(fs, n, c.slot)[q])
  {
    hide InodeShape, BlockShape, Ref;
  }

  /**
   * With the repaired lines, tfs_read hands back exactly the contents from its offset on, at most len bytes of them,
   * moves the offset past them and changes nothing else.
   */
  lemma RepairedReadSlices(fs: Fs, h: int, n: int, len: nat)
    requires Tables(fs) && OpenOn(fs, h, n)
    ensures var data := Slice(Contents(fs, n), ReadOffset(fs, h), len);
            Read(Repaired, fs, h, len) == ReadResult(SetOffset(fs, h, ReadOffset(fs, h) + |data|), |data|, data)
  {
    hide InodeShape, BlockShape, Ref, ReadLoop, Read, Page;
    var o := ReadOffset(fs, h);
    var t := ToRead(fs, h, len);
    ReadOneLoop(Repaired, fs, h, n, len);
    RepairedReadBytes(StartRead(o), fs, n, t);
    BytesAreSlice(fs, n, o, len, ReadLoop(Repaired, StartRead(o), fs, n, t, SLOTS).data);
  }

  lemma BytesAreSlice(fs: Fs, n: int, o: nat, len: nat, data: seq<byte>)
    requires Tables(fs) && ValidInumber(n) && o <= fs.inodes[n].size <= MAX_SIZE
    requires |data| == Min(len, fs.inodes[n].size - o)
    requires forall p :: o <= p < o + |data| ==> data[0 + p - o] == ByteAt(fs, n, p)
    ensures data == Slice(Contents(fs, n), o, len)
  {
    hide InodeShape, BlockShape, Ref, Page, ByteAt;
    forall q | 0 <= q < |data|
      ensures data[q] == Contents(fs, n)[o + q]
    {
      assert data[0 + (o + q) - o] == ByteAt(fs, n, o + q);
    }
  }

  /* ----- the source as written ----- */

  /** After a first chunk, the offset moves by more than what is read. */
  lemma {:induction false} AsWrittenReadDrift(c: ReadCursor, fs: Fs, n: int, toRead: nat)
    requires Tables(fs) && ValidInumber(n) && 0 < |c.data|
    ensures var r := ReadLoop(AsWritten, c, fs, n, toRead, SLOTS);
            |c.data| <= |r.data| && (|c.data| < |r.data| ==> c.offset + (|r.data| - |c.data|) < r.offset)
            && (|c.data| == |r.data| ==> r.offset == c.offset)
    decreases !c.missing, SLOTS - c.slot
  {
    hide InodeShape, BlockShape, Ref, ReadLoop;
    ReadLoopUnroll(AsWritten, c, fs, n, toRead);
    if !c.missing && c.slot < SLOTS && |c.data| < toRead {
      AsWrittenReadDrift(ReadStep(AsWritten, c, fs, n, toRead), fs, n, toRead);
    }
  }

  /**
   * As written, tfs_read hands back the contents from its offset on and moves the offset past them if and only if the
   * bytes it is after lie in the block that holds the offset.
   */
  lemma AsWrittenSlicesExact(fs: Fs, h: int, n: int, len: nat)
    requires Tables(fs) && OpenOn(fs, h, n)
    ensures var data := Slice(Contents(fs, n), ReadOffset(fs, h), len);
            Read(AsWritten, fs, h, len) == ReadResult(SetOffset(fs, h, ReadOffset(fs, h) + |data|), |data|, data)
            <==> OneBlock(ReadOffset(fs, h), ToRead(fs, h, len))
  {
    hide InodeShape, BlockShape, Ref, ReadLoop, Read, ReadStep;
    var o := ReadOffset(fs, h);
    var t := ToRead(fs, h, len);
    var c := StartRead(o);
    ReadOneLoop(AsWritten, fs, h, n, len);
    ReadOneLoop(Repaired, fs, h, n, len);
    RepairedReadSlices(fs, h, n, len);
    ReadLoopUnroll(AsWritten, c, fs, n, t);
    ReadLoopUnroll(Repaired, c, fs, n, t);
    if 0 < t {
      var s := ReadStep(AsWritten, c, fs, n, t);
      assert Covered(fs, n, o, o + t);
      assert c.slot * BLOCK_SIZE < o + t;
      ReadStepBytes(AsWritten, c, fs, n, t);
      FirstReadStep(c, fs, n, t);
      ReadLoopUnroll(AsWritten, s, fs, n, t);
      ReadLoopUnroll(Repaired, s, fs, n, t);
      if !OneBlock(o, t) {
        AsWrittenReadDrift(s, fs, n, t);
        var r := ReadLoop(AsWritten, s, fs, n, t, SLOTS);
        assert |r.data| == t ==> SetOffset(fs, h, r.offset).files[h].offset != SetOffset(fs, h, o + t).files[h].offset;
      }
    }
  }

  lemma FirstReadStep(c: ReadCursor, fs: Fs, n: int, toRead: nat)
    requires Tables(fs) && ValidInumber(n) && c.slot < SLOTS && c.data == [] && 0 < toRead
    ensures ReadStep(AsWritten, c, fs, n, toRead) == ReadStep(Repaired, c, fs, n, toRead)
  {
    hide InodeShape, BlockShape, Ref;
  }

  /* ----- sequences of calls ----- */

  datatype Writes = Writes(fs: Fs, complete: bool)

  /** Writing records one after the other through h; complete when every call returned the length of its record. */
  function WriteAll(v: Variant, fs: Fs, h: int, records: seq<seq<byte>>): (r: Writes)
    requires Tables(fs)
    ensures Tables(r.fs)
    decreases |records|
  {
    if records == [] then Writes(fs, true)
    else
      var w := Write(v, fs, h, records[0]);
      var rest := WriteAll(v, w.fs, h, records[1..]);
      Writes(rest.fs, w.ret == |records[0]| && rest.complete)
  }

  /** What reading with the given lengths, one call after the other through h, hands back. */
  function ReadAll(v: Variant, fs: Fs, h: int, lens: seq<nat>): (r: seq<seq<byte>>)
    requires Tables(fs)
    ensures |r| == |lens|
    decreases |lens|
  {
    if lens == [] then []
    else
      var r := Read(v, fs, h, lens[0]);
      [r.data] + ReadAll(v, r.fs, h, lens[1..])
  }

  function Sum(lens: seq<nat>): nat {
    if lens == [] then 0 else lens[0] + Sum(lens[1..])
  }

  /** What one repaired write means for the next one. */
  lemma RepairedWriteNext(fs: Fs, h: int, n: int, buf: seq<byte>)
    requires Tables(fs) && Owned(fs) && OpenOn(fs, h, n)
    requires WriteOffset(fs, h) <= fs.inodes[n].size && |buf| % 0x1_0000_0000 < 0x8000_0000
    requires Write(Repaired, fs, h, buf).ret == |buf|
    ensures var w := Write(Repaired, fs, h, buf);
            var o := WriteOffset(fs, h);
            && Owned(w.fs) && OpenOn(w.fs, h, n) && o + |buf| <= MAX_SIZE
            && w.fs.files == fs.files[h := fs.files[h].(offset := o + |buf|)]
            && Contents(w.fs, n) == Splice(Contents(fs, n), o, buf)
            && WriteOffset(w.fs, h) == o + |buf| <= w.fs.inodes[n].size
  {
    hide InodeShape, BlockShape, Ref, Write, Owned;
    RepairedWriteSplices(fs, h, n, buf);
    assert buf[..|buf|] == buf;
  }

  lemma SpliceTwice<T>(c: seq<T>, o: nat, a: seq<T>, b: seq<T>)
    requires o <= |c|
    ensures Splice(Splice(c, o, a), o + |a|, b) == Splice(c, o, a + b)
  {
  }

  /** With the repaired lines, writing records in turn is writing their concatenation. */
  lemma {:induction false} RepairedWritesSplice(fs: Fs, h: int, n: int, records: seq<seq<byte>>)
    requires Tables(fs) && Owned(fs) && OpenOn(fs, h, n) && WriteOffset(fs, h) <= fs.inodes[n].size
    requires forall i :: 0 <= i < |records| ==> |records[i]| % 0x1_0000_0000 < 0x8000_0000
    requires WriteAll(Repaired, fs, h, records).complete
    ensures var g := WriteAll(Repaired, fs, h, records).fs;
            var o := WriteOffset(fs, h);
            && Owned(g) && OpenOn(g, h, n)
            && Contents(g, n) == Splice(Contents(fs, n), o, Concat(records))
            && g.files == fs.files[h := g.files[h]] && WriteOffset(g, h) == o + |Concat(records)|
    decreases |records|
  {
    hide InodeShape, BlockShape, Ref, Write, Owned, IsFile, Contents, Splice, Sized, WriteOffset;
    OpenOnFile(fs, h, n);
    if records == [] {
      SpliceNothing(Contents(fs, n), WriteOffset(fs, h));
    } else {
      var w := Write(Repaired, fs, h, records[0]);
      RepairedWriteNext(fs, h, n, records[0]);
      RepairedWritesSplice(w.fs, h, n, records[1..]);
      SpliceTwice(Contents(fs, n), WriteOffset(fs, h), records[0], Concat(records[1..]));
    }
  }

  lemma SpliceNothing<T>(c: seq<T>, o: nat)
    requires o <= |c|
    ensures Splice(c, o, []) == c
  {
  }

  /** With the repaired lines, reading in turn hands back one slice. */
  lemma {:induction false} RepairedReadsSlice(fs: Fs, h: int, n: int, lens: seq<nat>)
    requires Tables(fs) && OpenOn(fs, h, n)
    ensures Concat(ReadAll(Repaired, fs, h, lens)) == Slice(Contents(fs, n), ReadOffset(fs, h), Sum(lens))
    decreases |lens|
  {
    hide InodeShape, BlockShape, Ref, Read, Owned, IsFile, Page, Contents, Slice, Sized;
    OpenOnFile(fs, h, n);
    if lens != [] {
      var r := Read(Repaired, fs, h, lens[0]);
      RepairedReadSlices(fs, h, n, lens[0]);
      MovedOffset(fs, h, n, ReadOffset(fs, h) + |r.data|);
      RepairedReadsSlice(r.fs, h, n, lens[1..]);
      SliceTwice(Contents(fs, n), ReadOffset(fs, h), lens[0], Sum(lens[1..]));
    }
  }

  lemma SliceTwice<T>(c: seq<T>, o: nat, a: nat, b: nat)
    requires o <= |c|
    ensures Slice(c, o, a) + Slice(c, o + |Slice(c, o, a)|, b) == Slice(c, o, a + b)
  {
  }

  lemma MovedOffset(fs: Fs, h: int, n: int, off: nat)
    requires Tables(fs) && OpenOn(fs, h, n)
    ensures var g := SetOffset(fs, h, off);
            OpenOn(g, h, n) && Contents(g, n) == Contents(fs, n) && ReadOffset(g, h) == Min(off, fs.inodes[n].size)
  {
    var g := SetOffset(fs, h, off);
    RelabelledCells(fs, g, n);
    forall p | 0 <= p < fs.inodes[n].size
      ensures ByteAt(g, n, p) == ByteAt(fs, n, p)
    {
    }
  }

  /**
   * Reading undoes writing, with the repaired lines: records written through one handle at offset o come back through
   * another handle at offset o, whatever lengths the reads are cut into.
   */
  lemma RepairedReadUndoesWrite(fs: Fs, h: int, g: int, n: int, records: seq<seq<byte>>, lens: seq<nat>)
    requires Tables(fs) && Owned(fs) && OpenOn(fs, h, n) && WriteOffset(fs, h) <= fs.inodes[n].size
    requires forall i :: 0 <= i < |records| ==> |records[i]| % 0x1_0000_0000 < 0x8000_0000
    requires WriteAll(Repaired, fs, h, records).complete
    requires g != h && OpenOn(fs, g, n) && fs.files[g].offset == WriteOffset(fs, h)
    requires Sum(lens) == |Concat(records)|
    ensures Concat(ReadAll(Repaired, WriteAll(Repaired, fs, h, records).fs, g, lens)) == Concat(records)
  {
    hide InodeShape, BlockShape, Ref, Write, Read, Owned, Page, ReadAll, WriteAll;
    var a := WriteAll(Repaired, fs, h, records).fs;
    RepairedWritesSplice(fs, h, n, records);
    assert a.files[g] == fs.files[g];
    RepairedReadsSlice(a, g, n, lens);
  }
}
