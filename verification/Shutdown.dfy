/**
 * The shutdown of the one-block file system as a machine: any number of threads open, close and write files while one
 * destroyer waits in tfs_destroy_after_all_closed.  Every step is a piece of code that no other thread can cut in two:
 * one access outside the global lock, or one access under it.
 */
module Shutdown {
  import opened AllocationTable
  import opened Bytes
  import opened Disk
  import opened OneBlockState
  import opened OneBlockInvariant

  /** Where tfs_open reads the closing flag: before the lock, as written (tfs_server/fs/operations.c:135), or under it. */
  datatype ClosingCheck = BeforeLock | UnderLock

  datatype Owner = Free | Thread(t: nat) | Destroyer

  /** Where a thread stands.  Passed: it is past the closing check and waits for the lock. */
  datatype Pc =
    | Outside
    | Passed(path: string, flags: Flags)
    | Opening(path: string, flags: Flags)
    | Closing(h: int)
    | InClose(h: int)
    | Removed
    | Writing(h: int, buf: seq<byte>)
    | InWrite(h: int, buf: seq<byte>)
    | Leaving

  /**
   * Where the destroyer stands.  Asleep: inside pthread_cond_wait, no signal pending for it; Signalled: woken, waiting
   * for the lock; AtLoop: about to test the count; Left: out of the loop, still holding the lock; Gone: past the unlock.
   */
  datatype DestroyerPc = NotCalled | Called | Entered | AtLoop | Asleep | Signalled | Left | Gone

  /** opens counts the calls of tfs_open that succeeded. */
  datatype Machine = Machine(fs: Fs, owner: Owner, pcs: seq<Pc>, destroyer: DestroyerPc, opens: nat)

  datatype Move =
    | CallOpen(t: nat, path: string, flags: Flags)
    | CallClose(t: nat, h: int)
    | CallWrite(t: nat, h: int, buf: seq<byte>)
    | TakeLock(t: nat)
    | Work(t: nat)
    | SignalIfNone(t: nat)
    | GiveLock(t: nat)
    | CallDestroy
    | DestroyerTakesLock
    | SetClosing
    | TestCount
    | WakeUnasked
    | DestroyerGivesLock

  predicate Wants(pc: Pc) {
    pc.Passed? || pc.Closing? || pc.Writing?
  }

  predicate Holds(pc: Pc) {
    pc.Opening? || pc.InClose? || pc.Removed? || pc.InWrite? || pc.Leaving?
  }

  predicate DestroyerHolds(d: DestroyerPc) {
    d.Entered? || d.AtLoop? || d.Left?
  }

  predicate Enabled(s: Machine, m: Move) {
    match m
    case CallOpen(t, _, _) => t < |s.pcs| && s.pcs[t].Outside?
    case CallClose(t, _) => t < |s.pcs| && s.pcs[t].Outside?
    case CallWrite(t, _, _) => t < |s.pcs| && s.pcs[t].Outside?
    case TakeLock(t) => t < |s.pcs| && Wants(s.pcs[t]) && s.owner.Free?
    case Work(t) => t < |s.pcs| && (s.pcs[t].Opening? || s.pcs[t].InClose? || s.pcs[t].InWrite?)
    case SignalIfNone(t) => t < |s.pcs| && s.pcs[t].Removed?
    case GiveLock(t) => t < |s.pcs| && s.pcs[t].Leaving?
    case CallDestroy => s.destroyer.NotCalled?
    case DestroyerTakesLock => (s.destroyer.Called? || s.destroyer.Signalled?) && s.owner.Free?
    case SetClosing => s.destroyer.Entered?
    case TestCount => s.destroyer.AtLoop?
    case WakeUnasked => s.destroyer.Asleep?
    case DestroyerGivesLock => s.destroyer.Left?
  }

  /** What a thread does to the file system under the lock, and where it stands then. */
  function Worked(c: ClosingCheck, fs: Fs, pc: Pc): (r: (Result, Pc))
    requires Tables(fs)
    ensures Tables(r.0.fs)
  {
    match pc
    case Opening(path, flags) =>
      (if c.UnderLock? then Open(fs, path, flags) else OpenUnsynchronized(fs, path, flags), Leaving)
    case InClose(h) => (Close(fs, h), Removed)
    case InWrite(h, buf) => (if InBlock(fs, h) then Write(fs, h, buf) else Result(fs, 0), Leaving)
    case _ => (Result(fs, 0), pc)
  }

  function Next(c: ClosingCheck, s: Machine, m: Move): (r: Machine)
    requires Tables(s.fs) && Enabled(s, m)
    ensures Tables(r.fs)
  {
    match m
    case CallOpen(t, path, flags) =>
      if c.BeforeLock? && s.fs.closing then s else s.(pcs := s.pcs[t := Passed(path, flags)])
    case CallClose(t, h) => s.(pcs := s.pcs[t := Closing(h)])
    case CallWrite(t, h, buf) => s.(pcs := s.pcs[t := Writing(h, buf)])
    case TakeLock(t) =>
      var pc := match s.pcs[t] {
        case Passed(path, flags) => Opening(path, flags)
        case Closing(h) => InClose(h)
        case Writing(h, buf) => InWrite(h, buf)
        case other => other
      };
      s.(owner := Thread(t), pcs := s.pcs[t := pc])
    case Work(t) =>
      var w := Worked(c, s.fs, s.pcs[t]);
      s.(fs := w.0.fs, pcs := s.pcs[t := w.1], opens := if s.pcs[t].Opening? && w.0.ret >= 0 then s.opens + 1 else s.opens)
    case SignalIfNone(t) =>
      s.(pcs := s.pcs[t := Leaving], destroyer := if s.fs.openCount == 0 && s.destroyer.Asleep? then Signalled else s.destroyer)
    case GiveLock(t) => s.(owner := Free, pcs := s.pcs[t := Outside])
    case CallDestroy => s.(destroyer := Called)
    case DestroyerTakesLock => s.(owner := Destroyer, destroyer := if s.destroyer.Called? then Entered else AtLoop)
    case SetClosing => s.(fs := s.fs.(closing := true), destroyer := AtLoop)
    case TestCount =>
      if s.fs.openCount == 0 then s.(destroyer := Left) else s.(destroyer := Asleep, owner := Free)
    case WakeUnasked => s.(destroyer := Signalled)
    case DestroyerGivesLock => s.(destroyer := Gone, owner := Free)
  }

  /* ----- what every step keeps ----- */

  predicate NoneOpen(fs: Fs)
    requires Tables(fs)
  {
    forall h :: 0 <= h < MAX_OPEN_FILES ==> !fs.fileTaken[h]
  }

  predicate HoldsLock(s: Machine, t: int) {
    0 <= t < |s.pcs| && Holds(s.pcs[t])
  }

  /** A thread has removed an entry of the open file table and has not signalled yet. */
  predicate AboutToSignal(s: Machine) {
    s.owner.Thread? && s.owner.t < |s.pcs| && s.pcs[s.owner.t].Removed?
  }

  predicate Awaited(d: DestroyerPc) {
    d.AtLoop? || d.Asleep? || d.Signalled? || d.Left? || d.Gone?
  }

  ghost predicate Inv(s: Machine) {
    && Tables(s.fs) && CountOk(s.fs)
    && (forall t {:trigger HoldsLock(s, t)} :: HoldsLock(s, t) ==> s.owner == Thread(t))
    && (s.owner.Thread? ==> HoldsLock(s, s.owner.t))
    && (DestroyerHolds(s.destroyer) <==> s.owner.Destroyer?)
    && (s.fs.closing <==> Awaited(s.destroyer))
    && (s.destroyer.Asleep? ==> s.fs.openCount > 0 || AboutToSignal(s))
    && (s.destroyer.Left? ==> s.fs.openCount == 0)
  }

  /** Nothing but the open file table, its count and the closing flag matters to the shutdown. */
  predicate SameOpenFiles(fs: Fs, g: Fs) {
    g.fileTaken == fs.fileTaken && g.openCount == fs.openCount && g.closing == fs.closing
  }

  lemma TruncateKeepsOpen(fs: Fs, n: int)
    requires Tables(fs) && ValidInumber(n)
    ensures SameOpenFiles(fs, Truncate(fs, n).fs)
  {
    hide BlockShape;
  }

  lemma WriteKeepsOpen(fs: Fs, h: int, buf: seq<byte>)
    requires Tables(fs) && InBlock(fs, h)
    ensures SameOpenFiles(fs, Write(fs, h, buf).fs)
  {
    hide BlockShape;
  }

  lemma CreateKeepsOpen(fs: Fs, name: string)
    requires Tables(fs)
    ensures var c := CreateFile(fs);
            var a := AddToRoot(c.fs, c.ret, name);
            SameOpenFiles(fs, c.fs) && SameOpenFiles(fs, a.fs) && SameOpenFiles(fs, Delete(a.fs, c.ret).fs)
  {
    hide BlockShape, EntriesOf;
  }

  /** The table, its count and the flag after an entry has been added, if r is not -1, to the state before. */
  predicate Added(fs: Fs, r: Result) {
    && CountOk(r.fs) && r.fs.closing == fs.closing
    && r.fs.openCount == fs.openCount + (if r.ret >= 0 then 1 else 0)
    && (r.ret < 0 ==> r.fs.fileTaken == fs.fileTaken)
  }

  lemma AddOpenAdds(fs: Fs, n: int, off: nat)
    requires Tables(fs) && CountOk(fs) && off <= BLOCK_SIZE
    ensures Added(fs, AddOpen(fs, n, off))
  {
    hide BlockShape;
    var h := FirstFree(fs.fileTaken);
    if h != -1 {
      CountFreeUpdate(fs.fileTaken, h, true);
    }
  }

  lemma OpenExistingAdds(fs: Fs, n: int, flags: Flags)
    requires Tables(fs) && CountOk(fs)
    ensures Added(fs, OpenExisting(fs, n, flags))
  {
    hide BlockShape, AddOpen, Truncate;
    if ValidInumber(n) {
      TruncateKeepsOpen(fs, n);
      var t := if flags.truncate then Truncate(fs, n).fs else fs;
      AddOpenAdds(t, n, if flags.append then t.inodes[n].size else 0);
    }
  }

  lemma OpenNewAdds(fs: Fs, name: string)
    requires Tables(fs) && CountOk(fs)
    ensures Added(fs, OpenNew(fs, name))
  {
    hide BlockShape, AddOpen, CreateFile, AddToRoot, Delete;
    CreateKeepsOpen(fs, name);
    var c := CreateFile(fs);
    AddOpenAdds(AddToRoot(c.fs, c.ret, name).fs, c.ret, 0);
  }

  /** An open adds one TAKEN entry exactly when it succeeds, and the count keeps to the number of them. */
  lemma OpenAdds(fs: Fs, path: string, flags: Flags)
    requires Tables(fs) && CountOk(fs)
    ensures Added(fs, OpenUnsynchronized(fs, path, flags))
  {
    hide BlockShape, Lookup, OpenExisting, OpenNew;
    OpenExistingAdds(fs, Lookup(fs, path), flags);
    OpenNewAdds(fs, if path == "" then path else path[1..]);
  }

  lemma CloseRemoves(fs: Fs, h: int)
    requires Tables(fs) && CountOk(fs)
    ensures var r := Close(fs, h);
            && CountOk(r.fs) && r.fs.closing == fs.closing && r.fs.openCount <= fs.openCount
            && (r.ret == 0 <==> ValidHandle(h) && fs.fileTaken[h])
            && (r.ret == 0 ==> r.fs.openCount == fs.openCount - 1) && (r.ret != 0 ==> r.fs == fs)
  {
    hide BlockShape;
    if ValidHandle(h) && fs.fileTaken[h] {
      CountFreeUpdate(fs.fileTaken, h, false);
    }
  }

  lemma WorkedCounts(c: ClosingCheck, fs: Fs, pc: Pc)
    requires Tables(fs) && CountOk(fs)
    ensures var w := Worked(c, fs, pc);
            && CountOk(w.0.fs) && w.0.fs.closing == fs.closing
            && (w.0.fs.openCount >= fs.openCount || pc.InClose?)
            && (w.0.fs.openCount > fs.openCount ==> pc.Opening? && w.0.ret >= 0)
            && (pc.Opening? && w.0.ret >= 0 ==> w.0.fs.openCount == fs.openCount + 1 && (c.UnderLock? ==> !fs.closing))
  {
    hide BlockShape, OpenUnsynchronized, Close, Write;
    match pc
    case Opening(path, flags) => OpenAdds(fs, path, flags);
    case InClose(h) => CloseRemoves(fs, h);
    case InWrite(h, buf) =>
      if InBlock(fs, h) {
        WriteKeepsOpen(fs, h, buf);
      }
    case _ =>
  }

  /** The count is zero exactly when no entry of the table is TAKEN. */
  lemma ZeroIsNone(fs: Fs)
    requires Tables(fs) && CountOk(fs)
    ensures fs.openCount == 0 <==> NoneOpen(fs)
  {
    hide BlockShape;
    TakenCount(fs.fileTaken);
    forall h | 0 <= h < MAX_OPEN_FILES ensures fs.fileTaken[h] <==> h in TakenSet(fs.fileTaken) {
    }
    assert NoneOpen(fs) ==> TakenSet(fs.fileTaken) == {};
  }

  lemma MoveKeeps(c: ClosingCheck, s: Machine, m: Move)
    requires Inv(s) && Enabled(s, m)
    ensures Inv(Next(c, s, m))
  {
    hide BlockShape, Worked;
    var r := Next(c, s, m);
    if m.Work? {
      assert HoldsLock(s, m.t);
      WorkedCounts(c, s.fs, s.pcs[m.t]);
      WorkedPc(c, s.fs, s.pcs[m.t]);
    }
    if m.SignalIfNone? || m.GiveLock? {
      assert HoldsLock(s, m.t);
    }
    if m.TakeLock? || m.DestroyerTakesLock? {
      assert forall t :: !HoldsLock(s, t);
    }
    forall t | HoldsLock(r, t) ensures r.owner == Thread(t) {
      assert (m.TakeLock? && t == m.t) || HoldsLock(s, t);
    }
    if r.owner.Thread? {
      assert (m.TakeLock? && r.owner.t == m.t) || HoldsLock(s, r.owner.t);
    }
  }

  lemma WorkedPc(c: ClosingCheck, fs: Fs, pc: Pc)
    requires Tables(fs)
    ensures var now := Worked(c, fs, pc).1;
            && (pc.Opening? || pc.InWrite? ==> now.Leaving?) && (pc.InClose? ==> now.Removed?)
  {
    hide BlockShape;
  }

  /* ----- runs ----- */

  predicate EnabledRun(c: ClosingCheck, s: Machine, moves: seq<Move>)
    requires Tables(s.fs)
    decreases |moves|
  {
    moves == [] || (Enabled(s, moves[0]) && EnabledRun(c, Next(c, s, moves[0]), moves[1..]))
  }

  function Run(c: ClosingCheck, s: Machine, moves: seq<Move>): (r: Machine)
    requires Tables(s.fs) && EnabledRun(c, s, moves)
    ensures Tables(r.fs)
    decreases |moves|
  {
    if moves == [] then s else Run(c, Next(c, s, moves[0]), moves[1..])
  }

  /** The machine before anything is called, with k threads. */
  function Start(k: nat): (s: Machine)
    ensures Tables(s.fs)
  {
    Machine(Initial(), Free, seq(k, _ => Outside), NotCalled, 0)
  }

  lemma StartInv(k: nat)
    ensures Inv(Start(k))
  {
    hide BlockShape;
    var s := Start(k);
    assert NoneOpen(s.fs);
    assert TakenSet(s.fs.fileTaken) == {};
    TakenCount(s.fs.fileTaken);
  }

  lemma {:induction false} RunKeeps(c: ClosingCheck, s: Machine, moves: seq<Move>)
    requires Inv(s) && EnabledRun(c, s, moves)
    ensures Inv(Run(c, s, moves))
    decreases |moves|
  {
    hide BlockShape, Next, Enabled, HoldsLock, CountOk;
    if moves != [] {
      MoveKeeps(c, s, moves[0]);
      RunKeeps(c, Next(c, s, moves[0]), moves[1..]);
    }
  }

  /* ----- the wait of the destroyer ----- */

  /** When the destroyer leaves its wait loop no entry of the open file table is TAKEN. */
  lemma LeavesWhenNoneOpen(c: ClosingCheck, s: Machine, moves: seq<Move>)
    requires Inv(s) && EnabledRun(c, s, moves) && Run(c, s, moves).destroyer.Left?
    ensures NoneOpen(Run(c, s, moves).fs)
  {
    hide BlockShape, Next, Enabled;
    RunKeeps(c, s, moves);
    ZeroIsNone(Run(c, s, moves).fs);
  }

  /** No wakeup is lost: with the lock free and nothing open, a destroyer that has not finished has a step to take. */
  lemma NoLostWakeup(c: ClosingCheck, s: Machine, moves: seq<Move>)
    requires Inv(s) && EnabledRun(c, s, moves)
    ensures var r := Run(c, s, moves);
            r.owner.Free? && r.destroyer.Asleep? ==> r.fs.openCount > 0 && !NoneOpen(r.fs)
    ensures var r := Run(c, s, moves);
            r.owner.Free? && NoneOpen(r.fs) ==>
              r.destroyer.Gone? || Enabled(r, CallDestroy) || Enabled(r, DestroyerTakesLock)
  {
    hide BlockShape, Next;
    RunKeeps(c, s, moves);
    ZeroIsNone(Run(c, s, moves).fs);
  }

  /* ----- opens that succeed after the flag is set ----- */

  predicate PastCheck(pc: Pc) {
    pc.Passed? || pc.Opening?
  }

  /** How many threads are past the closing check and have not opened yet. */
  function CountPast(pcs: seq<Pc>): nat {
    if pcs == [] then 0 else (if PastCheck(pcs[0]) then 1 else 0) + CountPast(pcs[1..])
  }

  lemma {:induction false} CountPastUpdate(pcs: seq<Pc>, t: nat, pc: Pc)
    requires t < |pcs|
    ensures CountPast(pcs[t := pc]) == CountPast(pcs) - (if PastCheck(pcs[t]) then 1 else 0) + (if PastCheck(pc) then 1 else 0)
  {
    if t == 0 {
      assert pcs[t := pc][1..] == pcs[1..];
    } else {
      assert pcs[t := pc][1..] == pcs[1..][t - 1 := pc];
      CountPastUpdate(pcs[1..], t - 1, pc);
    }
  }

  /** Once the flag is set it stays, the threads past the check and the opens that succeed together never grow. */
  lemma MoveAfterClosing(c: ClosingCheck, s: Machine, m: Move)
    requires Inv(s) && Enabled(s, m) && s.fs.closing
    ensures var r := Next(c, s, m);
            && r.fs.closing && s.opens <= r.opens
            && (c.BeforeLock? ==> CountPast(r.pcs) + r.opens <= CountPast(s.pcs) + s.opens)
            && (c.UnderLock? ==> r.opens == s.opens)
            && r.fs.openCount - r.opens <= s.fs.openCount - s.opens
  {
    hide BlockShape, Worked, CountPast;
    var r := Next(c, s, m);
    if m.Work? {
      WorkedCounts(c, s.fs, s.pcs[m.t]);
      WorkedPc(c, s.fs, s.pcs[m.t]);
      CountPastUpdate(s.pcs, m.t, r.pcs[m.t]);
    } else if m.CallOpen? || m.CallClose? || m.CallWrite? || m.TakeLock? || m.SignalIfNone? || m.GiveLock? {
      CountPastUpdate(s.pcs, m.t, r.pcs[m.t]);
    }
  }

  /**
   * After the flag is set, the opens that still succeed number at most the threads that were past the check as written,
   * and none with the check under the lock.
   */
  lemma {:induction false} OpensAfterClosing(c: ClosingCheck, s: Machine, moves: seq<Move>)
    requires Inv(s) && EnabledRun(c, s, moves) && s.fs.closing
    ensures var r := Run(c, s, moves);
            && s.opens <= r.opens <= s.opens + (if c.BeforeLock? then CountPast(s.pcs) - CountPast(r.pcs) else 0)
            && r.fs.openCount - r.opens <= s.fs.openCount - s.opens
    decreases |moves|
  {
    hide BlockShape, Next, Enabled, HoldsLock, CountOk, CountPast;
    if moves != [] {
      MoveKeeps(c, s, moves[0]);
      MoveAfterClosing(c, s, moves[0]);
      OpensAfterClosing(c, Next(c, s, moves[0]), moves[1..]);
    }
  }

  /**
   * So once the destroyer has left its loop, the TAKEN entries never number more than the threads that were past the
   * check then; with the check under the lock nothing is ever open again.
   */
  lemma OpenAfterDestroy(c: ClosingCheck, s: Machine, moves: seq<Move>)
    requires Inv(s) && EnabledRun(c, s, moves) && s.destroyer.Left?
    ensures var r := Run(c, s, moves);
            && |TakenSet(r.fs.fileTaken)| <= CountPast(s.pcs)
            && (c.UnderLock? ==> NoneOpen(r.fs))
  {
    hide BlockShape, Next, Enabled, CountPast;
    OpensAfterClosing(c, s, moves);
    RunKeeps(c, s, moves);
    var r := Run(c, s, moves);
    TakenCount(r.fs.fileTaken);
    ZeroIsNone(r.fs);
  }

  lemma RunCons(c: ClosingCheck, s: Machine, m: Move, rest: seq<Move>)
    requires Tables(s.fs) && Enabled(s, m) && EnabledRun(c, Next(c, s, m), rest)
    ensures EnabledRun(c, s, [m] + rest) && Run(c, s, [m] + rest) == Run(c, Next(c, s, m), rest)
  {
    hide BlockShape, Next, Enabled;
    assert ([m] + rest)[0] == m && ([m] + rest)[1..] == rest;
  }

  /**
   * As written the bound is met: whenever the destroyer has left its loop and a thread past the check has a path that
   * opens, it opens the file after the destroyer is gone.
   */
  lemma OpenedAfterDestroy(s: Machine, t: nat)
    requires Inv(s) && s.destroyer.Left? && t < |s.pcs| && s.pcs[t].Passed?
    requires OpenUnsynchronized(s.fs, s.pcs[t].path, s.pcs[t].flags).ret >= 0
    ensures var moves := [DestroyerGivesLock] + ([TakeLock(t)] + ([Work(t)] + []));
            EnabledRun(BeforeLock, s, moves) &&
            var r := Run(BeforeLock, s, moves);
            r.destroyer.Gone? && !NoneOpen(r.fs)
  {
    hide BlockShape, OpenUnsynchronized;
    var s1 := Next(BeforeLock, s, DestroyerGivesLock);
    var s2 := Next(BeforeLock, s1, TakeLock(t));
    var s3 := Next(BeforeLock, s2, Work(t));
    RunCons(BeforeLock, s2, Work(t), []);
    RunCons(BeforeLock, s1, TakeLock(t), [Work(t)] + []);
    RunCons(BeforeLock, s, DestroyerGivesLock, [TakeLock(t)] + ([Work(t)] + []));
    OpenAdds(s.fs, s.pcs[t].path, s.pcs[t].flags);
    ZeroIsNone(s3.fs);
  }

  /** And that state is reached from the start: one thread checks the flag, and only then is the destroyer called. */
  lemma PassedBeforeDestroy(k: nat, t: nat, path: string, flags: Flags)
    requires t < k
    ensures var moves := [CallOpen(t, path, flags)] + ([CallDestroy] + ([DestroyerTakesLock] + ([SetClosing] + ([TestCount] + []))));
            EnabledRun(BeforeLock, Start(k), moves) &&
            var r := Run(BeforeLock, Start(k), moves);
            r.destroyer.Left? && |r.pcs| == k && r.pcs[t] == Passed(path, flags) && r.fs == Initial().(closing := true)
  {
    hide BlockShape, Initial, Lookup;
    InitialFlags();
    var s := Start(k);
    var s1 := Next(BeforeLock, s, CallOpen(t, path, flags));
    var s2 := Next(BeforeLock, s1, CallDestroy);
    var s3 := Next(BeforeLock, s2, DestroyerTakesLock);
    var s4 := Next(BeforeLock, s3, SetClosing);
    RunCons(BeforeLock, s4, TestCount, []);
    RunCons(BeforeLock, s3, SetClosing, [TestCount] + []);
    RunCons(BeforeLock, s2, DestroyerTakesLock, [SetClosing] + ([TestCount] + []));
    RunCons(BeforeLock, s1, CallDestroy, [DestroyerTakesLock] + ([SetClosing] + ([TestCount] + [])));
    RunCons(BeforeLock, s, CallOpen(t, path, flags), [CallDestroy] + ([DestroyerTakesLock] + ([SetClosing] + ([TestCount] + []))));
  }

  lemma InitialFlags()
    ensures !Initial().closing && Initial().openCount == 0
  {
  }

  /** In the initial file system a new path opens, whatever the closing flag says: tfs_open does not look at it again. */
  lemma InitialOpens()
    ensures OpenUnsynchronized(Initial().(closing := true), "/a", Flags(true, false, false)).ret >= 0
  {
    hide BlockShape;
    var fs := Initial().(closing := true);
    assert RootEntries(fs) == seq(MAX_DIR_ENTRIES, _ => UNUSED);
    assert FindEntry(RootEntries(fs), "a") == -1;
    assert !fs.inodeTaken[1] && FirstFree(fs.inodeTaken) != -1;
    assert !Used(EntriesOf(fs.blocks[0])[0]) && FirstUnused(EntriesOf(fs.blocks[0])) != -1;
    assert !fs.fileTaken[0] && FirstFree(fs.fileTaken) != -1;
  }

  lemma {:induction false} RunAppend(c: ClosingCheck, s: Machine, a: seq<Move>, b: seq<Move>)
    requires Tables(s.fs) && EnabledRun(c, s, a) && EnabledRun(c, Run(c, s, a), b)
    ensures EnabledRun(c, s, a + b) && Run(c, s, a + b) == Run(c, Run(c, s, a), b)
    decreases |a|
  {
    hide BlockShape, Next, Enabled;
    if a == [] {
      assert a + b == b;
    } else {
      assert (a + b)[0] == a[0] && (a + b)[1..] == a[1..] + b;
      RunAppend(c, Next(c, s, a[0]), a[1..], b);
    }
  }

  /** Thread t checks the flag, the destroyer goes through its whole course, and the thread goes on. */
  function LateOpen(t: nat): seq<Move> {
    [CallOpen(t, "/a", Flags(true, false, false))] + ([CallDestroy] + ([DestroyerTakesLock] + ([SetClosing] + ([TestCount] + []))))
    + ([DestroyerGivesLock] + ([TakeLock(t)] + ([Work(t)] + [])))
  }

  /** As written, that is a run from the start at the end of which the destroyer is gone and a file is open. */
  lemma FileOpenAfterShutdown(k: nat, t: nat)
    requires t < k
    ensures EnabledRun(BeforeLock, Start(k), LateOpen(t))
    ensures var r := Run(BeforeLock, Start(k), LateOpen(t));
            r.destroyer.Gone? && !NoneOpen(r.fs)
  {
    hide BlockShape, Next, Enabled, OpenUnsynchronized, Initial, Start, EnabledRun, Run;
    var flags := Flags(true, false, false);
    var first := [CallOpen(t, "/a", flags)] + ([CallDestroy] + ([DestroyerTakesLock] + ([SetClosing] + ([TestCount] + []))));
    var last := [DestroyerGivesLock] + ([TakeLock(t)] + ([Work(t)] + []));
    StartInv(k);
    PassedBeforeDestroy(k, t, "/a", flags);
    RunKeeps(BeforeLock, Start(k), first);
    InitialOpens();
    OpenedAfterDestroy(Run(BeforeLock, Start(k), first), t);
    RunAppend(BeforeLock, Start(k), first, last);
  }
}
