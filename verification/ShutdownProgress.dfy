/** Every call that has been made returns, whatever the order of the steps; only the destroyer can be left waiting, for an open file. */
module ShutdownProgress {
  import opened AllocationTable
  import opened Bytes
  import opened Disk
  import opened OneBlockState
  import OneBlockInvariant
  import opened Shutdown

  /** How many steps a thread has before it at most; one that will signal also has those of a destroyer it wakes. */
  function ThreadRank(pc: Pc): nat {
    match pc
    case Outside => 0
    case Leaving => 1
    case Opening(_, _) => 2
    case InWrite(_, _) => 2
    case Passed(_, _) => 3
    case Writing(_, _) => 3
    case Removed => 5
    case InClose(_) => 6
    case Closing(_) => 7
  }

  function DestroyerRank(d: DestroyerPc): nat {
    match d
    case NotCalled => 0
    case Called => 4
    case Entered => 3
    case AtLoop => 2
    case Asleep => 0
    case Signalled => 3
    case Left => 1
    case Gone => 0
  }

  function Total(pcs: seq<Pc>): nat {
    if pcs == [] then 0 else ThreadRank(pcs[0]) + Total(pcs[1..])
  }

  function Rank(s: Machine): nat {
    Total(s.pcs) + DestroyerRank(s.destroyer)
  }

  lemma {:induction false} TotalUpdate(pcs: seq<Pc>, t: nat, pc: Pc)
    requires t < |pcs|
    ensures Total(pcs[t := pc]) == Total(pcs) - ThreadRank(pcs[t]) + ThreadRank(pc)
  {
    if t == 0 {
      assert pcs[t := pc][1..] == pcs[1..];
    } else {
      assert pcs[t := pc][1..] == pcs[1..][t - 1 := pc];
      TotalUpdate(pcs[1..], t - 1, pc);
    }
  }

  predicate IsCall(m: Move) {
    m.CallOpen? || m.CallClose? || m.CallWrite? || m.CallDestroy?
  }

  function Wakes(moves: seq<Move>): nat {
    if moves == [] then 0 else (if moves[0].WakeUnasked? then 1 else 0) + Wakes(moves[1..])
  }

  predicate NoCalls(moves: seq<Move>) {
    forall k :: 0 <= k < |moves| ==> !IsCall(moves[k])
  }

  lemma MoveLowers(c: ClosingCheck, s: Machine, m: Move)
    requires Inv(s) && Enabled(s, m) && !IsCall(m)
    ensures Rank(Next(c, s, m)) + 1 <= Rank(s) + (if m.WakeUnasked? then 4 else 0)
  {
    hide BlockShape, OneBlockInvariant.CountOk, HoldsLock, Worked, Total;
    if m.TakeLock? || m.Work? || m.SignalIfNone? || m.GiveLock? {
      TotalUpdate(s.pcs, m.t, Next(c, s, m).pcs[m.t]);
    }
    if m.Work? {
      WorkedPc(c, s.fs, s.pcs[m.t]);
    }
  }

  /** Without further calls a run is at most as long as the rank of its first state, and four steps more for each unasked wakeup. */
  lemma {:induction false} CallsReturn(c: ClosingCheck, s: Machine, moves: seq<Move>)
    requires Inv(s) && EnabledRun(c, s, moves) && NoCalls(moves)
    ensures |moves| + Rank(Run(c, s, moves)) <= Rank(s) + 4 * Wakes(moves)
    decreases |moves|
  {
    hide BlockShape, OneBlockInvariant.CountOk, HoldsLock, Next, Enabled, Rank;
    if moves != [] {
      MoveLowers(c, s, moves[0]);
      MoveKeeps(c, s, moves[0]);
      CallsReturn(c, Next(c, s, moves[0]), moves[1..]);
    }
  }

  /** No thread is inside a call, and the destroyer has not been called, is gone, or sleeps while a file is open. */
  predicate AtRest(s: Machine)
    requires Tables(s.fs)
  {
    && s.owner.Free? && (forall t: nat :: t < |s.pcs| ==> s.pcs[t].Outside?)
    && (s.destroyer.NotCalled? || s.destroyer.Gone? || (s.destroyer.Asleep? && !NoneOpen(s.fs)))
  }

  /** Such a run cannot stop anywhere else: while anything is left to do, someone has a step to take. */
  lemma RestExact(s: Machine)
    requires Inv(s)
    ensures AtRest(s) <==> forall m :: Enabled(s, m) ==> IsCall(m) || m.WakeUnasked?
  {
    hide BlockShape, OneBlockInvariant.CountOk;
    ZeroIsNone(s.fs);
    if s.owner.Thread? {
      HolderMoves(s, s.owner.t);
    }
    if forall m :: Enabled(s, m) ==> IsCall(m) || m.WakeUnasked? {
      assert !Enabled(s, SetClosing) && !Enabled(s, TestCount) && !Enabled(s, DestroyerGivesLock) && !Enabled(s, DestroyerTakesLock);
      forall t: nat | t < |s.pcs| ensures s.pcs[t].Outside? {
        assert !Enabled(s, TakeLock(t));
        assert !HoldsLock(s, t);
      }
    }
  }

  /** Whoever has the lock can go on. */
  lemma HolderMoves(s: Machine, t: nat)
    requires HoldsLock(s, t)
    ensures Enabled(s, Work(t)) || Enabled(s, SignalIfNone(t)) || Enabled(s, GiveLock(t))
  {
  }

  /* ----- the bound of Shutdown.OpensAfterClosing ----- */

  /** CountPast is the number of threads between the check of the flag and their open. */
  lemma CountPastExact(pcs: seq<Pc>)
    ensures CountPast(pcs) == |set t | 0 <= t < |pcs| && (pcs[t].Passed? || pcs[t].Opening?)|
  {
    var marks := seq(|pcs|, t requires 0 <= t < |pcs| => PastCheck(pcs[t]));
    PastMarks(pcs, marks);
    TakenCount(marks);
    assert TakenSet(marks) == set t | 0 <= t < |pcs| && (pcs[t].Passed? || pcs[t].Opening?);
  }

  lemma {:induction false} PastMarks(pcs: seq<Pc>, marks: seq<bool>)
    requires |marks| == |pcs| && forall t :: 0 <= t < |pcs| ==> (marks[t] <==> PastCheck(pcs[t]))
    ensures CountPast(pcs) + CountFree(marks) == |pcs|
  {
    if pcs != [] {
      PastMarks(pcs[1..], marks[1..]);
    }
  }
}
