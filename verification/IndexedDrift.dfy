/**
 * The source as written on any file at all, also one whose size and blocks have drifted apart in earlier calls: exactly
 * when a write or a read does what it should to the bytes at its offset.
 */
module IndexedDrift {
  import opened Bytes
  import opened AllocationTable
  import opened Disk
  import opened IndexedState
  import opened IndexedOwnership
  import opened IndexedWrite
  import opened IndexedWriteLaw
  import opened IndexedReadLaw
  import opened IndexedRuns

  /* ----- tfs_write ----- */

  /** How many bytes of buf fit in the largest file from offset o on, which may lie past its end. */
  function FitAt(o: nat, buf: seq<byte>): nat {
    if o <= MAX_SIZE then Fitting(o, buf) else 0
  }

  /**
   * The call put exactly d at offset o of file n, in blocks the file has, left every other byte and every other file alone,
   * returned the length, and moved the offset and, if need be, the size past it.
   */
  ghost predicate PutAt(fs: Fs, w: WriteResult, h: int, n: int, o: nat, d: seq<byte>)
    requires Tables(fs) && Tables(w.fs) && ValidHandle(h) && ValidInumber(n)
  {
    && w.ret == |d| && (d != [] ==> o + |d| <= MAX_SIZE)
    && w.fs.files == fs.files[h := fs.files[h].(offset := o + |d|)] && w.fs.fileTaken == fs.fileTaken
    && w.fs.inodeTaken == fs.inodeTaken && w.fs.inodes[n].size == Max(fs.inodes[n].size, o + |d|)
    && Owned(w.fs) && IsFile(w.fs, n) && OthersSame(fs, w.fs, n)
    && KeepsOutside(fs, w.fs, n, o, o + |d|)
    && forall p :: o <= p < o + |d| ==> Ref(w.fs, n, p / BLOCK_SIZE) != -1 && ByteAt(w.fs, n, p) == d[p - o]
  }

  lemma FinishPuts(v: Variant, fs: Fs, r: WriteCursor, h: int, n: int, o: nat, d: seq<byte>)
    requires Tables(fs) && ValidHandle(h) && IsFile(fs, n)
    requires Tables(r.fs) && Owned(r.fs) && IsFile(r.fs, n) && OnlyFile(fs, r.fs, n) && (d != [] ==> o + |d| <= MAX_SIZE)
    requires r.done == |d| && r.offset == o + |d| && (r.full ==> v.Repaired?)
    requires KeepsOutside(fs, r.fs, n, o, r.offset)
    requires forall p :: o <= p < o + |d| ==> Ref(r.fs, n, p / BLOCK_SIZE) != -1 && ByteAt(r.fs, n, p) == d[p - o]
    ensures PutAt(fs, Finish(v, r, n, h), h, n, o, d)
  {
    hide InodeShape, BlockShape, Owned, Ref, Page, Cell, Finish;
    var g := Finish(v, r, n, h).fs;
    FinishRelabels(v, r, n, h);
    RelabelledOwned(r.fs, g, n);
    RelabelledCells(r.fs, g, n);
    forall m | Live(fs, m) && m != n ensures SameInode(fs, g, m) {
      assert SameInode(fs, r.fs, m) && SameInode(r.fs, g, m);
    }
  }

  /** The loop with the repaired lines puts what it writes, whether or not the file has drifted. */
  lemma RepairedLoopPuts(fs: Fs, h: int, n: int, o: nat, buf: seq<byte>)
    requires Tables(fs) && Owned(fs) && ValidHandle(h) && IsFile(fs, n) && o <= MAX_SIZE
    ensures var r := WriteLoop(Repaired, Start(fs, o), n, buf, SLOTS);
            PutAt(fs, Finish(Repaired, r, n, h), h, n, o, buf[..r.done])
  {
    hide InodeShape, BlockShape, Owned, Ref, Page, WriteLoop, Missing, PutAt, Finish, OnlyFile, KeepsOutside;
    var c := Start(fs, o);
    var r := WriteLoop(Repaired, c, n, buf, SLOTS);
    WriteLoopOwned(Repaired, c, n, buf, SLOTS);
    RepairedLoopBytes(c, n, buf);
    assert KeepsOutside(fs, r.fs, n, o, r.offset) by {
      WriteLoopKeeps(Repaired, c, n, buf);
      assert Position(c) == o;
    }
    assert forall p :: o <= p < o + r.done ==> Ref(r.fs, n, p / BLOCK_SIZE) != -1 by {
      WriteLoopVisits(Repaired, c, n, buf);
      RepairedLoopSlot(c, n, buf);
    }
    FinishPuts(Repaired, fs, r, h, n, o, buf[..r.done]);
  }

  /** Past the largest file there is nothing to write to. */
  lemma PastTheEnd(v: Variant, fs: Fs, h: int, n: int, o: nat, buf: seq<byte>)
    requires Tables(fs) && Owned(fs) && ValidHandle(h) && IsFile(fs, n) && o > MAX_SIZE
    ensures PutAt(fs, Finish(v, WriteLoop(v, Start(fs, o), n, buf, SLOTS), n, h), h, n, o, [])
  {
    hide InodeShape, BlockShape, Owned, Ref, Page, WriteStep, PutAt, Finish;
    var c := Start(fs, o);
    assert SLOTS <= c.slot;
    SameOnly(fs, n);
    FinishPuts(v, fs, c, h, n, o, []);
  }

  lemma SameOnly(fs: Fs, n: int)
    requires Tables(fs) && ValidInumber(n)
    ensures OnlyFile(fs, fs, n) && forall o: nat :: KeepsOutside(fs, fs, n, o, o)
  {
    hide InodeShape, BlockShape, Ref;
    forall m | Live(fs, m) ensures SameInode(fs, fs, m) {
    }
  }

  /**
   * As written, on any file: tfs_write puts all the bytes that fit in the largest file at its offset if and only if they fit
   * in the block that holds the offset and that block is there or can be had.
   */
  lemma AsWrittenWriteExact(fs: Fs, h: int, n: int, buf: seq<byte>)
    requires Tables(fs) && Owned(fs) && ValidHandle(h) && fs.files[h].inumber == n && IsFile(fs, n) && |buf| % 0x1_0000_0000 < 0x8000_0000
    ensures var o := WriteOffset(fs, h);
            var m := FitAt(o, buf);
            PutAt(fs, Write(AsWritten, fs, h, buf), h, n, o, buf[..m]) <==> m == 0 || FitsInBlock(fs, n, o, m)
  {
    hide InodeShape, BlockShape, Owned, Ref, Page, WriteLoop, PutAt, Finish, OnlyFile, WriteAt;
    var o := WriteOffset(fs, h);
    var m := FitAt(o, buf);
    var r := WriteLoop(AsWritten, Start(fs, o), n, buf, SLOTS);
    WriteAtOneLoop(AsWritten, fs, h, o, buf);
    FinishRelabels(AsWritten, r, n, h);
    if o > MAX_SIZE {
      PastTheEnd(AsWritten, fs, h, n, o, buf);
    } else if !OneBlock(o, m) {
      SecondBlockDrifts(fs, n, o, buf);
      PutOffset(fs, Write(AsWritten, fs, h, buf), h, n, o, buf[..m]);
    } else {
      OneBlockLoop(fs, n, o, buf);
      RepairedLoopAmount(fs, n, o, buf);
      if r.full {
        PutOffset(fs, Write(AsWritten, fs, h, buf), h, n, o, buf[..m]);
      } else {
        RepairedLoopPuts(fs, h, n, o, buf);
        FinishSame(r, n, h);
      }
    }
  }

  lemma PutOffset(fs: Fs, w: WriteResult, h: int, n: int, o: nat, d: seq<byte>)
    requires Tables(fs) && Tables(w.fs) && ValidHandle(h) && ValidInumber(n)
    ensures PutAt(fs, w, h, n, o, d) ==> w.ret == |d| && w.fs.files[h].offset == o + |d|
  {
    hide Owned, KeepsOutside, OthersSame, IsFile, Ref, InodeShape, BlockShape;
  }

  /* ----- tfs_read ----- */

  /** The call handed back the t bytes at offset o, from blocks the file has, and moved the offset past them. */
  ghost predicate GotAt(fs: Fs, r: ReadResult, h: int, n: int, o: nat, t: nat)
    requires Tables(fs) && ValidHandle(h) && ValidInumber(n)
  {
    && r.ret == |r.data| == t && r.fs == SetOffset(fs, h, o + t)
    && forall p :: o <= p < o + t ==> p < MAX_SIZE && Ref(fs, n, p / BLOCK_SIZE) != -1 && r.data[p - o] == ByteAt(fs, n, p)
  }

  /** A guard a caller could evaluate: the bytes lie in one block of the file, and it is there. */
  predicate LiesInBlock(fs: Fs, n: int, o: nat, t: nat)
    requires Tables(fs) && ValidInumber(n)
  {
    t == 0 || (o + t <= MAX_SIZE && OneBlock(o, t) && Ref(fs, n, o / BLOCK_SIZE) != -1)
  }

  /**
   * As written, on any file: tfs_read hands back the bytes there are from its offset on, at most len of them, if and only if
   * they lie in the block that holds the offset and that block is there.
   */
  lemma AsWrittenReadExact(fs: Fs, h: int, n: int, len: nat)
    requires Tables(fs) && ValidHandle(h) && fs.files[h].inumber == n && IsFile(fs, n)
    ensures GotAt(fs, Read(AsWritten, fs, h, len), h, n, ReadOffset(fs, h), ToRead(fs, h, len))
            <==> LiesInBlock(fs, n, ReadOffset(fs, h), ToRead(fs, h, len))
  {
    hide InodeShape, BlockShape, Ref, Page, ReadLoop, Read, ReadStep;
    var o, t := ReadOffset(fs, h), ToRead(fs, h, len);
    var c := StartRead(o);
    ReadOneLoop(AsWritten, fs, h, n, len);
    ReadLoopUnroll(AsWritten, c, fs, n, t);
    if t > 0 && c.slot < SLOTS {
      if Ref(fs, n, c.slot) == -1 {
        MissingStep(c, fs, n, t);
        ReadLoopUnroll(AsWritten, ReadStep(AsWritten, c, fs, n, t), fs, n, t);
      } else {
        OneStepRead(fs, h, n, o, t);
      }
    }
  }

  lemma MissingStep(c: ReadCursor, fs: Fs, n: int, t: nat)
    requires Tables(fs) && ValidInumber(n) && c.slot < SLOTS && |c.data| < t && Ref(fs, n, c.slot) == -1
    ensures ReadStep(AsWritten, c, fs, n, t) == c.(missing := true)
  {
  }

  lemma OneStepRead(fs: Fs, h: int, n: int, o: nat, t: nat)
    requires Tables(fs) && ValidHandle(h) && ValidInumber(n) && o < MAX_SIZE && t > 0 && Ref(fs, n, o / BLOCK_SIZE) != -1
    ensures var r := ReadLoop(AsWritten, StartRead(o), fs, n, t, SLOTS);
            GotAt(fs, ReadResult(SetOffset(fs, h, r.offset), |r.data|, r.data), h, n, o, t) <==> LiesInBlock(fs, n, o, t)
  {
    hide InodeShape, BlockShape, Ref, Page, ReadLoop, ReadStep;
    var c := StartRead(o);
    var s := ReadStep(AsWritten, c, fs, n, t);
    var r := ReadLoop(AsWritten, c, fs, n, t, SLOTS);
    ReadLoopUnroll(AsWritten, c, fs, n, t);
    ReadStepBytes(AsWritten, c, fs, n, t);
    ReadLoopUnroll(AsWritten, s, fs, n, t);
    if OneBlock(o, t) {
      assert r == s && |s.data| == t;
      forall p | o <= p < o + t
        ensures p < MAX_SIZE && p / BLOCK_SIZE == o / BLOCK_SIZE && r.data[p - o] == ByteAt(fs, n, p)
      {
        assert p % BLOCK_SIZE == o % BLOCK_SIZE + (p - o);
        assert s.data[0 + p % BLOCK_SIZE - o % BLOCK_SIZE] == Page(fs, n, o / BLOCK_SIZE)[p % BLOCK_SIZE];
      }
    } else {
      AsWrittenReadDrift(s, fs, n, t);
      assert SetOffset(fs, h, r.offset).files[h].offset == r.offset;
      assert SetOffset(fs, h, o + t).files[h].offset == o + t;
    }
  }
}
