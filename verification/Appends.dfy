/**
 * Threads that append to one file of the multi-block version, each through its own handle, while anything else goes on
 * in other files.  tfs_write takes the offset of an append handle from the size before it takes the lock of the inode
 * (tfs/fs/operations.c:129-135); BeforeLock is that, UnderLock the repair.  The chunk and size lines are the repaired ones.
 */
module Appends {
  import opened Bytes
  import opened AllocationTable
  import opened Disk
  import opened IndexedState
  import opened IndexedOwnership
  import opened IndexedWrite
  import opened IndexedWriteLaw
  import opened IndexedReadLaw

  datatype OffsetRead = BeforeLock | UnderLock

  /** Thread t appends to inode n through handles[t]. */
  datatype Threads = Threads(n: int, handles: seq<int>, offsetRead: OffsetRead)

  /** A thread is outside tfs_write, waiting for the lock, holding it, or about to give it back. */
  datatype Pc = Outside | Waiting(buf: seq<byte>) | Holding(buf: seq<byte>) | Stored

  /** The lock's owner, -1 when free; log is what each locked section wrote, in lock order. */
  datatype Machine = Machine(fs: Fs, pcs: seq<Pc>, owner: int, log: seq<seq<byte>>)

  datatype Move =
    | Call(t: nat, buf: seq<byte>)
    | Lock(t: nat)
    | Store(t: nat)
    | Unlock(t: nat)
    | Elsewhere(fs: Fs)

  predicate Wellformed(p: Threads, s: Machine) {
    && Tables(s.fs) && |s.pcs| == |p.handles|
    && (forall t :: 0 <= t < |p.handles| ==> OpenOn(s.fs, p.handles[t], p.n))
    && (forall t, u :: 0 <= t < u < |p.handles| ==> p.handles[t] != p.handles[u])
  }

  /** Work on other files: it leaves this one, and the handles on it, alone. */
  ghost predicate LeavesAlone(p: Threads, fs: Fs, g: Fs) {
    && Tables(fs) && Tables(g) && ValidInumber(p.n) && Owned(g) && SameInode(fs, g, p.n)
    && (forall t {:trigger p.handles[t]} :: 0 <= t < |p.handles| && ValidHandle(p.handles[t]) ==>
          OpenOn(g, p.handles[t], p.n) && g.files[p.handles[t]] == fs.files[p.handles[t]])
  }

  ghost predicate Enabled(p: Threads, s: Machine, m: Move) {
    match m
    case Call(t, buf) => t < |s.pcs| && s.pcs[t].Outside? && |buf| % 0x1_0000_0000 < 0x8000_0000
    case Lock(t) => t < |s.pcs| && s.pcs[t].Waiting? && s.owner == -1
    case Store(t) => t < |s.pcs| && s.pcs[t].Holding?
    case Unlock(t) => t < |s.pcs| && s.pcs[t].Stored?
    case Elsewhere(g) => LeavesAlone(p, s.fs, g)
  }

  /** of_offset = i_size */
  function TakeOffset(p: Threads, fs: Fs, t: nat): (r: Fs)
    requires Tables(fs) && ValidInumber(p.n) && t < |p.handles| && ValidHandle(p.handles[t])
    ensures Tables(r)
  {
    SetOffset(fs, p.handles[t], fs.inodes[p.n].size)
  }

  ghost function Next(p: Threads, s: Machine, m: Move): (r: Machine)
    requires Wellformed(p, s) && Enabled(p, s, m)
    ensures Tables(r.fs)
  {
    match m
    case Call(t, buf) =>
      assert OpenOn(s.fs, p.handles[t], p.n);
      s.(pcs := s.pcs[t := Waiting(buf)], fs := if p.offsetRead.BeforeLock? then TakeOffset(p, s.fs, t) else s.fs)
    case Lock(t) =>
      assert OpenOn(s.fs, p.handles[t], p.n);
      s.(pcs := s.pcs[t := Holding(s.pcs[t].buf)], owner := t,
         fs := if p.offsetRead.UnderLock? then TakeOffset(p, s.fs, t) else s.fs)
    case Store(t) =>
      assert OpenOn(s.fs, p.handles[t], p.n);
      var h := p.handles[t];
      var w := WriteAt(Repaired, s.fs, h, s.fs.files[h].offset, s.pcs[t].buf);
      s.(fs := w.fs, pcs := s.pcs[t := Stored],
         log := s.log + [if 0 <= w.ret <= |s.pcs[t].buf| then s.pcs[t].buf[..w.ret] else []])
    case Unlock(t) => s.(pcs := s.pcs[t := Outside], owner := -1)
    case Elsewhere(g) => s.(fs := g)
  }

  /* ----- what every step keeps ----- */

  predicate Inside(s: Machine, t: int) {
    0 <= t < |s.pcs| && (s.pcs[t].Holding? || s.pcs[t].Stored?)
  }

  /** Thread t has taken its offset. */
  predicate HasOffset(p: Threads, s: Machine, t: int) {
    0 <= t < |s.pcs| && (s.pcs[t].Holding? || (s.pcs[t].Waiting? && p.offsetRead.BeforeLock?))
  }

  predicate Fresh(p: Threads, s: Machine, t: int)
    requires Wellformed(p, s) && 0 <= t < |p.handles|
  {
    assert OpenOn(s.fs, p.handles[t], p.n);
    s.fs.files[p.handles[t]].offset == s.fs.inodes[p.n].size
  }

  /**
   * The lock has at most one owner, an offset once taken is never past the end, and an offset taken under the lock is
   * the end.
   */
  ghost predicate Inv(p: Threads, s: Machine) {
    && Wellformed(p, s) && Owned(s.fs) && ValidInumber(p.n) && Sized(s.fs, p.n)
    && (forall t {:trigger Inside(s, t)} :: Inside(s, t) ==> t == s.owner)
    && (forall t {:trigger HasOffset(p, s, t)} :: HasOffset(p, s, t) ==>
          s.fs.files[p.handles[t]].offset <= s.fs.inodes[p.n].size)
    && (forall t {:trigger HasOffset(p, s, t)} :: HasOffset(p, s, t) && p.offsetRead.UnderLock? ==> Fresh(p, s, t))
    && (forall t :: 0 <= t < |s.pcs| && (s.pcs[t].Waiting? || s.pcs[t].Holding?) ==> |s.pcs[t].buf| % 0x1_0000_0000 < 0x8000_0000)
  }

  /** A write of the repaired lines at an offset inside the file. */
  lemma WriteAtSplices(fs: Fs, h: int, n: int, o: nat, buf: seq<byte>)
    requires Tables(fs) && Owned(fs) && OpenOn(fs, h, n) && o <= fs.inodes[n].size
    ensures var w := WriteAt(Repaired, fs, h, o, buf);
            0 <= w.ret <= |buf| && WroteAt(fs, w, h, n, o, buf[..w.ret])
  {
    hide InodeShape, BlockShape, Owned, Ref, Page, WriteLoop, WroteAt, Sized, Finish, OnlyFile, WriteAt;
    WriteAtOneLoop(Repaired, fs, h, o, buf);
    RepairedLoopSplices(fs, h, n, o, buf);
    FinishRelabels(Repaired, WriteLoop(Repaired, Start(fs, o), n, buf, SLOTS), n, h);
  }

  /** What a locked section appended to the log is what it laid over the file, at the offset its handle held. */
  lemma StoreSplices(p: Threads, s: Machine, t: nat)
    requires Inv(p, s) && Enabled(p, s, Store(t))
    ensures var h := p.handles[t];
            var r := Next(p, s, Store(t));
            && OpenOn(s.fs, h, p.n) && s.fs.files[h].offset <= s.fs.inodes[p.n].size
            && |r.log| == |s.log| + 1 && r.log[..|s.log|] == s.log
            && WroteAt(s.fs, WriteAt(Repaired, s.fs, h, s.fs.files[h].offset, s.pcs[t].buf), h, p.n,
                       s.fs.files[h].offset, r.log[|s.log|])
            && r.log[|s.log|] <= s.pcs[t].buf
  {
    hide InodeShape, BlockShape, Owned, WroteAt, Sized, WriteAt, IsFile;
    var h := p.handles[t];
    assert HasOffset(p, s, t);
    WriteAtSplices(s.fs, h, p.n, s.fs.files[h].offset, s.pcs[t].buf);
  }

  lemma WroteAtGrows(fs: Fs, w: WriteResult, h: int, n: int, o: nat, d: seq<byte>)
    requires Tables(fs) && Tables(w.fs) && OpenOn(fs, h, n) && o <= fs.inodes[n].size && WroteAt(fs, w, h, n, o, d)
    ensures w.fs.inodes[n].size == Max(fs.inodes[n].size, o + |d|)
  {
    hide InodeShape, BlockShape, Owned, Ref, Page, SameInode;
    OpenOnFile(fs, h, n);
    OpenOnFile(w.fs, h, n);
    assert |Contents(w.fs, n)| == |Splice(Contents(fs, n), o, d)|;
  }

  lemma StoreKeeps(p: Threads, s: Machine, t: nat)
    requires Inv(p, s) && Enabled(p, s, Store(t))
    ensures Inv(p, Next(p, s, Store(t)))
  {
    hide InodeShape, BlockShape, Owned, Sized, WriteAt, IsFile, Contents, SameInode, Splice;
    StoreSplices(p, s, t);
    var r := Next(p, s, Store(t));
    var h := p.handles[t];
    WroteAtGrows(s.fs, WriteAt(Repaired, s.fs, h, s.fs.files[h].offset, s.pcs[t].buf), h, p.n, s.fs.files[h].offset, r.log[|s.log|]);
    assert Inside(s, t);
    forall u | 0 <= u < |p.handles| ensures OpenOn(r.fs, p.handles[u], p.n) && (u != t ==> r.fs.files[p.handles[u]] == s.fs.files[p.handles[u]]) {
      assert OpenOn(s.fs, p.handles[u], p.n);
    }
    forall u ensures Inside(r, u) <==> Inside(s, u) {
    }
    forall u | HasOffset(p, r, u)
      ensures HasOffset(p, s, u) && u != t && (p.offsetRead.UnderLock? ==> u == s.owner)
    {
      assert Inside(r, u) || p.offsetRead.BeforeLock?;
    }
  }

  lemma CallKeeps(p: Threads, s: Machine, t: nat, buf: seq<byte>)
    requires Inv(p, s) && Enabled(p, s, Call(t, buf))
    ensures Inv(p, Next(p, s, Call(t, buf)))
  {
    hide InodeShape, BlockShape, Owned, Sized, TakeOffset;
    assert OpenOn(s.fs, p.handles[t], p.n);
    OffsetTaken(p, s.fs, t);
    var r := Next(p, s, Call(t, buf));
    forall u ensures Inside(r, u) <==> Inside(s, u) {
    }
    forall u | HasOffset(p, r, u) ensures u == t || HasOffset(p, s, u) {
    }
  }

  lemma LockKeeps(p: Threads, s: Machine, t: nat)
    requires Inv(p, s) && Enabled(p, s, Lock(t))
    ensures Inv(p, Next(p, s, Lock(t)))
  {
    hide InodeShape, BlockShape, Owned, Sized, TakeOffset;
    assert OpenOn(s.fs, p.handles[t], p.n);
    OffsetTaken(p, s.fs, t);
    var r := Next(p, s, Lock(t));
    forall u ensures Inside(r, u) <==> u == t {
      assert !Inside(s, u);
    }
    forall u | HasOffset(p, r, u) ensures u == t || HasOffset(p, s, u) {
    }
  }

  lemma MoveKeeps(p: Threads, s: Machine, m: Move)
    requires Inv(p, s) && Enabled(p, s, m)
    ensures Inv(p, Next(p, s, m))
  {
    hide InodeShape, BlockShape, Owned, WriteAt, IsFile, Cell, TakeOffset;
    var r := Next(p, s, m);
    match m
    case Store(t) => StoreKeeps(p, s, t);
    case Call(t, buf) => CallKeeps(p, s, t, buf);
    case Lock(t) => LockKeeps(p, s, t);
    case Unlock(t) =>
      assert Inside(s, t);
      forall u ensures Inside(r, u) <==> Inside(s, u) && u != t {
      }
      forall u ensures HasOffset(p, r, u) <==> HasOffset(p, s, u) {
      }
    case Elsewhere(g) =>
      SameInodeSameContents(s.fs, g, p.n);
      forall u ensures Inside(r, u) <==> Inside(s, u) {
      }
      forall u ensures HasOffset(p, r, u) <==> HasOffset(p, s, u) {
      }
  }

  lemma OffsetTaken(p: Threads, fs: Fs, t: nat)
    requires Tables(fs) && ValidInumber(p.n) && t < |p.handles| && ValidHandle(p.handles[t]) && Owned(fs) && Sized(fs, p.n)
    ensures var g := TakeOffset(p, fs, t);
            && Owned(g) && Sized(g, p.n) && Contents(g, p.n) == Contents(fs, p.n)
            && g.files == fs.files[p.handles[t] := g.files[p.handles[t]]]
            && g.files[p.handles[t]] == fs.files[p.handles[t]].(offset := fs.inodes[p.n].size)
            && g.inodes == fs.inodes && forall h :: OpenOn(fs, h, p.n) ==> OpenOn(g, h, p.n)
  {
    hide InodeShape, BlockShape, Owned;
    var g := TakeOffset(p, fs, t);
    RelabelledOwned(fs, g, p.n);
    RelabelledCells(fs, g, p.n);
    forall q | 0 <= q < fs.inodes[p.n].size ensures ByteAt(g, p.n, q) == ByteAt(fs, p.n, q) {
      assert (q / BLOCK_SIZE) * BLOCK_SIZE < fs.inodes[p.n].size;
    }
  }

  /** Distinct handles on one file, with every thread outside, are a start. */
  lemma StartInv(p: Threads, fs: Fs)
    requires Tables(fs) && Owned(fs) && ValidInumber(p.n) && Sized(fs, p.n)
    requires forall t :: 0 <= t < |p.handles| ==> OpenOn(fs, p.handles[t], p.n)
    requires forall t, u :: 0 <= t < u < |p.handles| ==> p.handles[t] != p.handles[u]
    ensures Inv(p, Machine(fs, seq(|p.handles|, _ => Outside), -1, []))
  {
    hide InodeShape, BlockShape, Owned, Sized, IsFile;
  }

  /* ----- runs ----- */

  ghost predicate EnabledRun(p: Threads, s: Machine, moves: seq<Move>)
    decreases |moves|
  {
    moves == [] || (Wellformed(p, s) && Enabled(p, s, moves[0]) && EnabledRun(p, Next(p, s, moves[0]), moves[1..]))
  }

  ghost function Run(p: Threads, s: Machine, moves: seq<Move>): Machine
    requires EnabledRun(p, s, moves)
    decreases |moves|
  {
    if moves == [] then s else Run(p, Next(p, s, moves[0]), moves[1..])
  }

  /** What the locked section of t writes. */
  ghost function Record(p: Threads, s: Machine, t: nat): seq<byte>
    requires Wellformed(p, s) && Enabled(p, s, Store(t))
  {
    var log := Next(p, s, Store(t)).log;
    log[|log| - 1]
  }

  /** Some locked section of the run has bytes to write and an offset that is no longer the end of the file. */
  ghost predicate SomeStale(p: Threads, s: Machine, moves: seq<Move>)
    requires EnabledRun(p, s, moves)
    decreases |moves|
  {
    moves != [] &&
    ((moves[0].Store? && !Fresh(p, s, moves[0].t) && s.pcs[moves[0].t].buf != [])
     || SomeStale(p, Next(p, s, moves[0]), moves[1..]))
  }

  /** The file. */
  ghost function Text(p: Threads, s: Machine): seq<byte>
    requires Inv(p, s)
  {
    Contents(s.fs, p.n)
  }

  ghost function Offset(p: Threads, s: Machine, t: nat): nat
    requires Inv(p, s) && t < |p.handles|
  {
    OpenOnFile(s.fs, p.handles[t], p.n);
    s.fs.files[p.handles[t]].offset
  }

  /** A move is either a splice of a record at the offset of a handle, or no change to the file at all. */
  lemma MoveContents(p: Threads, s: Machine, m: Move)
    requires Inv(p, s) && Enabled(p, s, m)
    ensures Inv(p, Next(p, s, m)) && (m.Store? ==> m.t < |p.handles|)
    ensures var r := Next(p, s, m);
            if m.Store? then
              var off := Offset(p, s, m.t);
              && off <= |Text(p, s)| && (Fresh(p, s, m.t) <==> off == |Text(p, s)|) && r.log == s.log + [Record(p, s, m.t)]
              && Text(p, r) == Splice(Text(p, s), off, Record(p, s, m.t))
            else r.log == s.log && Text(p, r) == Text(p, s)
  {
    hide InodeShape, BlockShape, Owned, WriteAt, IsFile, Cell, TakeOffset, SameInode;
    MoveKeeps(p, s, m);
    match m
    case Store(t) => StoreSplices(p, s, t);
    case Call(t, buf) => OpenOnFile(s.fs, p.handles[t], p.n); OffsetTaken(p, s.fs, t);
    case Lock(t) => OpenOnFile(s.fs, p.handles[t], p.n); OffsetTaken(p, s.fs, t);
    case Unlock(t) =>
    case Elsewhere(g) => SameInodeSameContents(s.fs, g, p.n);
  }

  /**
   * A run leaves the file as its contents before followed by every record in lock order if and only if no locked section
   * wrote at an offset that was no longer the end; otherwise bytes are missing.
   */
  lemma {:induction false} RunExact(p: Threads, s: Machine, moves: seq<Move>)
    requires Inv(p, s) && EnabledRun(p, s, moves)
    ensures var r := Run(p, s, moves);
            && Inv(p, r) && |s.log| <= |r.log| && r.log[..|s.log|] == s.log
            && (!SomeStale(p, s, moves) <==> Text(p, r) == Text(p, s) + Concat(r.log[|s.log|..]))
            && (SomeStale(p, s, moves) ==> |Text(p, r)| < |Text(p, s)| + |Concat(r.log[|s.log|..])|)
    decreases |moves|
  {
    hide Inv, Wellformed, Enabled, Next, Text, Offset, Fresh, Record, Splice;
    if moves == [] {
      assert s.log[|s.log|..] == [];
    } else {
      var m := moves[0];
      var q := Next(p, s, m);
      var r := Run(p, s, moves);
      MoveContents(p, s, m);
      RunExact(p, q, moves[1..]);
      var tail := r.log[|q.log|..];
      if m.Store? {
        var rec := Record(p, s, m.t);
        assert r.log[|s.log|..] == [rec] + tail;
        SpliceAtEnd(Text(p, s), Offset(p, s, m.t), rec);
        RecordEmpty(p, s, m.t);
        assert Text(p, s) + rec + Concat(tail) == Text(p, s) + (rec + Concat(tail));
      }
    }
  }

  /** There is room for one byte at offset o: the block is there, or one is free. */
  predicate RoomAt(fs: Fs, n: int, o: nat)
    requires Tables(fs) && ValidInumber(n)
  {
    o < MAX_SIZE && (Ref(fs, n, o / BLOCK_SIZE) != -1 || CountFree(fs.blockTaken) > 0)
  }

  lemma WritesSome(fs: Fs, n: int, o: nat, buf: seq<byte>)
    requires Tables(fs) && Owned(fs) && IsFile(fs, n) && buf != [] && RoomAt(fs, n, o)
    ensures WriteLoop(Repaired, Start(fs, o), n, buf, SLOTS).done > 0
  {
    hide InodeShape, BlockShape, Owned, Ref, Page, WriteStep, StoreChunk;
    var c := Start(fs, o);
    WriteStepCases(Repaired, c, n, buf);
    WriteStepOwned(Repaired, c, n, buf);
    var r := WriteStep(Repaired, c, n, buf);
    DoneGrows(r, n, buf);
  }

  lemma {:induction false} DoneGrows(c: WriteCursor, n: int, buf: seq<byte>)
    requires Writable(c, n, buf)
    ensures c.done <= WriteLoop(Repaired, c, n, buf, SLOTS).done
    decreases !c.full, SLOTS - c.slot
  {
    hide InodeShape, BlockShape, Ref, EnsureBlock, StoreChunk;
    if !c.full && c.slot < SLOTS && c.done < |buf| {
      DoneGrows(WriteStep(Repaired, c, n, buf), n, buf);
    }
  }

  /** A locked section that has room for a byte writes nothing only if it has nothing to write. */
  lemma RecordSome(p: Threads, s: Machine, t: nat)
    requires Inv(p, s) && Enabled(p, s, Store(t)) && RoomAt(s.fs, p.n, Offset(p, s, t))
    ensures Record(p, s, t) == [] <==> s.pcs[t].buf == []
  {
    hide InodeShape, BlockShape, Owned, Ref, Page, WriteLoop, Sized, Finish, IsFile, WriteAt;
    var h, o, buf := p.handles[t], Offset(p, s, t), s.pcs[t].buf;
    assert HasOffset(p, s, t);
    OpenOnFile(s.fs, h, p.n);
    WriteAtOneLoop(Repaired, s.fs, h, o, buf);
    var r := WriteLoop(Repaired, Start(s.fs, o), p.n, buf, SLOTS);
    FinishRelabels(Repaired, r, p.n, h);
    assert Record(p, s, t) == buf[..r.done];
    if buf != [] {
      WritesSome(s.fs, p.n, o, buf);
    }
  }

  /** At an offset that is no longer the end there always is room: the block is there. */
  lemma RecordEmpty(p: Threads, s: Machine, t: nat)
    requires Inv(p, s) && Enabled(p, s, Store(t))
    ensures !Fresh(p, s, t) ==> (Record(p, s, t) == [] <==> s.pcs[t].buf == [])
  {
    hide InodeShape, BlockShape, Owned, Ref, WriteAt, IsFile, Record;
    assert HasOffset(p, s, t);
    OpenOnFile(s.fs, p.handles[t], p.n);
    if !Fresh(p, s, t) {
      var o := Offset(p, s, t);
      assert (o / BLOCK_SIZE) * BLOCK_SIZE < s.fs.inodes[p.n].size;
      RecordSome(p, s, t);
    }
  }

  /** Laying d over c inside it is shorter than c followed by d, unless it is at the end or d is empty. */
  lemma SpliceAtEnd<T>(c: seq<T>, o: nat, d: seq<T>)
    requires o <= |c|
    ensures Splice(c, o, d) == c + d <==> o == |c| || d == []
    ensures |Splice(c, o, d)| < |c| + |d| <==> o < |c| && d != []
  {
  }

  /** With the offset taken under the lock, every interleaving appends: nothing is lost and nothing overwritten. */
  lemma {:induction false} UnderLockNeverStale(p: Threads, s: Machine, moves: seq<Move>)
    requires p.offsetRead.UnderLock? && Inv(p, s) && EnabledRun(p, s, moves)
    ensures !SomeStale(p, s, moves)
    decreases |moves|
  {
    hide InodeShape, BlockShape, Owned, Sized, IsFile, WriteAt, Next;
    if moves != [] {
      if moves[0].Store? {
        assert HasOffset(p, s, moves[0].t);
      }
      MoveKeeps(p, s, moves[0]);
      UnderLockNeverStale(p, Next(p, s, moves[0]), moves[1..]);
    }
  }

  lemma AppendsNeverOverwrite(p: Threads, s: Machine, moves: seq<Move>)
    requires p.offsetRead.UnderLock? && Inv(p, s) && EnabledRun(p, s, moves) && s.log == []
    ensures var r := Run(p, s, moves);
            Inv(p, r) && Text(p, r) == Text(p, s) + Concat(r.log)
  {
    hide Inv, Text, SomeStale, EnabledRun, Run;
    UnderLockNeverStale(p, s, moves);
    RunExact(p, s, moves);
    assert Run(p, s, moves).log[0..] == Run(p, s, moves).log;
  }

  /** A record is the longest start of the buffer that fits in the largest file and has blocks, whatever its length. */
  lemma RecordExact(p: Threads, s: Machine, t: nat, k: nat)
    requires Inv(p, s) && Enabled(p, s, Store(t)) && k <= Fitting(Offset(p, s, t), s.pcs[t].buf)
    ensures Record(p, s, t) <= s.pcs[t].buf && |Record(p, s, t)| <= Fitting(Offset(p, s, t), s.pcs[t].buf)
    ensures k <= |Record(p, s, t)| <==> Needed(s.fs, p.n, Offset(p, s, t), k) <= CountFree(s.fs.blockTaken)
  {
    hide InodeShape, BlockShape, Owned, Ref, Page, WriteLoop, Sized, Finish, Needed, IsFile, WriteAt;
    var h, o, buf := p.handles[t], Offset(p, s, t), s.pcs[t].buf;
    assert HasOffset(p, s, t);
    OpenOnFile(s.fs, h, p.n);
    WriteAtOneLoop(Repaired, s.fs, h, o, buf);
    RepairedLoopAmount(s.fs, p.n, o, buf);
    RepairedLoopReach(s.fs, p.n, o, buf, k);
    var r := WriteLoop(Repaired, Start(s.fs, o), p.n, buf, SLOTS);
    FinishRelabels(Repaired, r, p.n, h);
    assert Record(p, s, t) == buf[..r.done];
  }

  /* ----- the run that loses a record ----- */

  lemma RunCons(p: Threads, s: Machine, m: Move, rest: seq<Move>)
    requires Wellformed(p, s) && Enabled(p, s, m) && EnabledRun(p, Next(p, s, m), rest)
    ensures EnabledRun(p, s, [m] + rest) && Run(p, s, [m] + rest) == Run(p, Next(p, s, m), rest)
  {
    hide Wellformed, Enabled, Next;
    assert ([m] + rest)[0] == m && ([m] + rest)[1..] == rest;
  }

  /**
   * As written, from any state with the lock free, room for a byte and two threads outside, the second can overwrite what
   * the first appends: the file ends shorter than its old contents and the two records.
   */
  lemma AppendLost(p: Threads, s: Machine, a: nat, b: nat, x: seq<byte>, y: seq<byte>)
    requires p.offsetRead.BeforeLock? && Inv(p, s) && s.owner == -1 && RoomAt(s.fs, p.n, s.fs.inodes[p.n].size)
    requires a < |s.pcs| && b < |s.pcs| && a != b && s.pcs[a].Outside? && s.pcs[b].Outside?
    requires |x| % 0x1_0000_0000 < 0x8000_0000 && |y| % 0x1_0000_0000 < 0x8000_0000 && x != [] && y != []
    ensures EnabledRun(p, s, Race(a, b, x, y))
    ensures var r := Run(p, s, Race(a, b, x, y));
            Inv(p, r) && |r.log| == |s.log| + 2 &&
            var u, v := r.log[|s.log|], r.log[|s.log| + 1];
            && Text(p, r) == Splice(Text(p, s) + u, |Text(p, s)|, v)
            && |Text(p, r)| < |Text(p, s)| + |u| + |v|
  {
    hide InodeShape, BlockShape, Inv, Wellformed, Enabled, Next, Text, Splice, Offset, EnabledRun, Run, RoomAt, AsInt32;
    RaceBegins(p, s, a, b, x, y);
    var first := [Call(a, x)] + ([Call(b, y)] + ([Lock(a)] + ([Store(a)] + [])));
    var last := [Unlock(a)] + ([Lock(b)] + ([Store(b)] + []));
    var half := Run(p, s, first);
    RaceEnds(p, half, a, b, y);
    RunAppend(p, s, first, last);
    assert Race(a, b, x, y) == first + last;
    var r := Run(p, half, last);
    assert r.log[|s.log|] == r.log[..|half.log|][|s.log|];
    SpliceAtEnd(Text(p, half), |Text(p, s)|, r.log[|s.log| + 1]);
  }

  /** Both threads take their offset, then one after the other goes through its locked section. */
  function Race(a: nat, b: nat, x: seq<byte>, y: seq<byte>): seq<Move> {
    [Call(a, x), Call(b, y), Lock(a), Store(a), Unlock(a), Lock(b), Store(b)]
  }

  /** Calls and locks leave the contents and the room for more as they are. */
  lemma QuietRoom(p: Threads, s: Machine, m: Move)
    requires Inv(p, s) && Enabled(p, s, m) && (m.Call? || m.Lock?)
    ensures var r := Next(p, s, m);
            && Tables(r.fs) && ValidInumber(p.n) && r.fs.inodes == s.fs.inodes
            && forall o: nat :: RoomAt(r.fs, p.n, o) <==> RoomAt(s.fs, p.n, o)
  {
    hide InodeShape, BlockShape, Owned, Sized, IsFile, Contents;
    assert OpenOn(s.fs, p.handles[m.t], p.n);
  }

  ghost predicate RaceStart(p: Threads, s: Machine, a: nat, b: nat, x: seq<byte>, y: seq<byte>) {
    && p.offsetRead.BeforeLock? && Inv(p, s) && s.owner == -1 && RoomAt(s.fs, p.n, s.fs.inodes[p.n].size)
    && a < |s.pcs| && b < |s.pcs| && a != b && s.pcs[a].Outside? && s.pcs[b].Outside?
    && |x| % 0x1_0000_0000 < 0x8000_0000 && |y| % 0x1_0000_0000 < 0x8000_0000 && x != [] && y != []
  }

  lemma RaceBegins(p: Threads, s: Machine, a: nat, b: nat, x: seq<byte>, y: seq<byte>)
    requires RaceStart(p, s, a, b, x, y)
    ensures EnabledRun(p, s, [Call(a, x)] + ([Call(b, y)] + ([Lock(a)] + ([Store(a)] + []))))
    ensures var r := Run(p, s, [Call(a, x)] + ([Call(b, y)] + ([Lock(a)] + ([Store(a)] + []))));
            && Inv(p, r) && |r.pcs| == |s.pcs| && r.pcs[a].Stored? && r.pcs[b] == Waiting(y) && r.owner == a
            && |r.log| == |s.log| + 1 && r.log[|s.log|] != []
            && Text(p, r) == Text(p, s) + r.log[|s.log|] && Offset(p, r, b) == |Text(p, s)|
  {
    hide InodeShape, BlockShape, Owned, Sized, IsFile, WriteAt, SameInode, Cell, Contents, Splice, RoomAt, Ref, Record;
    var s1 := Next(p, s, Call(a, x));
    MoveContents(p, s, Call(a, x));
    QuietRoom(p, s, Call(a, x));
    var s2 := Next(p, s1, Call(b, y));
    MoveContents(p, s1, Call(b, y));
    QuietRoom(p, s1, Call(b, y));
    var s3 := Next(p, s2, Lock(a));
    MoveContents(p, s2, Lock(a));
    QuietRoom(p, s2, Lock(a));
    MoveContents(p, s3, Store(a));
    RecordSome(p, s3, a);
    OffsetsKept(p, s3, a, b);
    SpliceAtEnd(Text(p, s3), Offset(p, s3, a), Record(p, s3, a));
    RunCons(p, s3, Store(a), []);
    RunCons(p, s2, Lock(a), [Store(a)] + []);
    RunCons(p, s1, Call(b, y), [Lock(a)] + ([Store(a)] + []));
    RunCons(p, s, Call(a, x), [Call(b, y)] + ([Lock(a)] + ([Store(a)] + [])));
  }

  lemma RaceEnds(p: Threads, s: Machine, a: nat, b: nat, y: seq<byte>)
    requires Inv(p, s) && a < |s.pcs| && b < |s.pcs| && a != b && s.pcs[a].Stored? && s.pcs[b] == Waiting(y) && s.owner == a && y != []
    requires p.offsetRead.BeforeLock? && Offset(p, s, b) < |Text(p, s)|
    ensures EnabledRun(p, s, [Unlock(a)] + ([Lock(b)] + ([Store(b)] + [])))
    ensures var r := Run(p, s, [Unlock(a)] + ([Lock(b)] + ([Store(b)] + [])));
            && Inv(p, r) && |r.log| == |s.log| + 1 && r.log[..|s.log|] == s.log && r.log[|s.log|] != []
            && Text(p, r) == Splice(Text(p, s), Offset(p, s, b), r.log[|s.log|])
  {
    hide InodeShape, BlockShape, Owned, Sized, IsFile, WriteAt, SameInode, Cell, Contents, Splice, Ref, Record;
    var s5 := Next(p, s, Unlock(a));
    MoveContents(p, s, Unlock(a));
    var s6 := Next(p, s5, Lock(b));
    MoveContents(p, s5, Lock(b));
    MoveContents(p, s6, Store(b));
    RecordEmpty(p, s6, b);
    RunCons(p, s6, Store(b), []);
    RunCons(p, s5, Lock(b), [Store(b)] + []);
    RunCons(p, s, Unlock(a), [Lock(b)] + ([Store(b)] + []));
  }

  lemma {:induction false} RunAppend(p: Threads, s: Machine, first: seq<Move>, last: seq<Move>)
    requires EnabledRun(p, s, first) && EnabledRun(p, Run(p, s, first), last)
    ensures EnabledRun(p, s, first + last) && Run(p, s, first + last) == Run(p, Run(p, s, first), last)
    decreases |first|
  {
    hide Wellformed, Enabled, Next;
    if first == [] {
      assert first + last == last;
    } else {
      assert (first + last)[0] == first[0] && (first + last)[1..] == first[1..] + last;
      RunAppend(p, Next(p, s, first[0]), first[1..], last);
    }
  }

  /** The store of one thread leaves the offset of another where it was. */
  lemma OffsetsKept(p: Threads, s: Machine, t: nat, u: nat)
    requires Inv(p, s) && Enabled(p, s, Store(t)) && u < |p.handles| && u != t
    ensures Inv(p, Next(p, s, Store(t))) && Offset(p, Next(p, s, Store(t)), u) == Offset(p, s, u)
  {
    hide InodeShape, BlockShape, Owned, Sized, IsFile, WriteAt, SameInode, Cell, Contents, Splice;
    MoveKeeps(p, s, Store(t));
    StoreSplices(p, s, t);
    assert OpenOn(s.fs, p.handles[u], p.n);
    assert p.handles[u] != p.handles[t];
  }
}
