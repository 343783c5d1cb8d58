/** The end of the workers: once server_destroy has signalled a session its worker leaves its loop. */
module RequestExit {
  import opened Options
  import opened RequestRing
  import opened SessionTable
  import opened RequestServer
  import opened RequestInvariant
  import opened RequestRuns
  import opened RequestLocks

  /** The steps to its exit of a worker that cannot sleep any more, those that take a lock of the other kind included. */
  function Weight(w: WorkerPc): nat {
    match w
    case Exited => 0
    case Testing => 2
    case Counting(_) => 3
    case Cleared(_) => 4
    case Answered => 5
    case Removed => 6
    case Operated => 6
    case Closing => 7
    case Drained => 8
    case Draining => 8
    case Serving => 10
    case Checking => 12
    case Looking => 13
    case Dozing => 13
    case Locking => 14
    case Woken => 14
    case Asleep => 15
  }

  /** The worker has the lock its next step is made under, and so one step of the two behind it. */
  predicate HasGuard(s: Server, i: nat)
    requires Wellformed(s)
  {
    Needs(s, Worker(i)).Some? && Ready(s, Worker(i))
  }

  function Rank(s: Server, i: nat): int
    requires Wellformed(s) && i < |s.sessions|
  {
    Weight(s.sessions[i].worker) - if HasGuard(s, i) then 1 else 0
  }

  /** The steps of worker i, and its taking of a lock. */
  predicate OwnStep(m: Move, i: nat) {
    m == Take(Worker(i)) || (m.WorkerMove? && m.i == i)
  }

  lemma PassedStep(x: Session, v: View, files: nat)
    requires x.counter < |x.ring| && WorkerOk(x, v.open) && SleepOk(x, v) && v.mainPast && !x.worker.Asleep? && !x.worker.Exited?
    ensures Weight(WorkerLocal(x, v.open, files).worker) <=
            if x.worker.Draining? then Weight(x.worker) + 2 else Weight(x.worker) - (if WorkerNeeds(x).Some? then 2 else 1)
  {
  }

  /** Once server_destroy has signalled a session only its worker's own steps move it on. */
  lemma OthersLeave(s: Server, n: nat, i: nat, m: Move)
    requires Inv(s, n) && i < |s.sessions| && Past(s.main, i) && Enabled(s, m) && !(m.WorkerMove? && m.i == i)
    ensures i < |Next(s, m).sessions| && Past(Next(s, m).main, i)
    ensures Next(s, m).sessions[i].worker == s.sessions[i].worker
  {
    hide SessionOk, Distinct, Next, SlotCloses, ViewOf;
    MoveKeeps(s, n, m);
    SlotKept(s, n, m, i);
    AwakeOncePassed(s, n, i);
    PastStays(s, m, i);
  }

  lemma AwakeOncePassed(s: Server, n: nat, i: nat)
    requires Inv(s, n) && i < |s.sessions| && Past(s.main, i)
    ensures !s.sessions[i].worker.Asleep?
  {
    hide Distinct, ClientOk, Pending, RingOk, CounterOk, WorkerOk, LockOk;
    assert SessionOk(s.sessions[i], n, ViewOf(s, i));
  }

  lemma PastStays(s: Server, m: Move, i: nat)
    requires Wellformed(s) && Enabled(s, m) && Past(s.main, i)
    ensures Past(Next(s, m).main, i)
  {
    hide WorkerLocal, WorkerNeeds, Ready, MountAdded, ReceiverNext;
    if m.ReceiverMove? {
      ReceiverLeavesMain(s);
    }
  }

  lemma ReceiverLeavesMain(s: Server)
    requires Wellformed(s) && Enabled(s, ReceiverMove)
    ensures ReceiverNext(s).main == s.main
  {
    hide WorkerNeeds, Ready;
  }

  lemma OwnMove(s: Server, n: nat, i: nat, m: Move)
    requires Inv(s, n) && i < |s.sessions| && Past(s.main, i) && Enabled(s, m) && m.WorkerMove? && m.i == i
    ensures |Next(s, m).sessions| == |s.sessions| && Past(Next(s, m).main, i)
    ensures Weight(Next(s, m).sessions[i].worker) <=
            if s.sessions[i].worker.Draining? then Rank(s, i) + 2 else Rank(s, i) - 1
  {
    hide Distinct, ClientOk, Pending, RingOk, CounterOk, LockOk, Weight, WorkerLocal, WorkerNeeds;
    assert SessionOk(s.sessions[i], n, ViewOf(s, i));
    PassedStep(s.sessions[i], ViewOf(s, i), s.files);
    DrainingNeedsNone(s.sessions[i]);
  }

  lemma DrainingNeedsNone(x: Session)
    requires x.counter < |x.ring|
    ensures x.worker.Draining? ==> WorkerNeeds(x).None?
  {
  }

  /** A lock its worker has stays its own while others step. */
  lemma GuardStays(s: Server, n: nat, i: nat, m: Move)
    requires Inv(s, n) && i < |s.sessions| && Enabled(s, m) && !OwnStep(m, i) && HasGuard(s, i)
    ensures Inv(Next(s, m), n) && HasGuard(Next(s, m), i)
  {
    hide SessionOk, Distinct, WorkerLocal, WorkerNeeds, Next, ViewOf;
    MoveKeeps(s, n, m);
    NeedsKept(s, n, m, Worker(i));
    HeldAfter(s, m);
  }

  /**
   * Each step of its worker, the taking of a lock included, brings a signalled session nearer to the end, but for the end
   * of the wait of a further shutdown, and no other step takes it further away.
   */
  lemma PassedMove(s: Server, n: nat, i: nat, m: Move)
    requires Inv(s, n) && i < |s.sessions| && Past(s.main, i) && Enabled(s, m)
    ensures var r := Next(s, m);
            && Inv(r, n) && i < |r.sessions| && Past(r.main, i)
            && Rank(r, i) <= Rank(s, i) + Cost(s, i, m)
  {
    hide SessionOk, Distinct, WorkerLocal, WorkerNeeds, Next, ViewOf, Weight;
    MoveKeeps(s, n, m);
    if m.WorkerMove? && m.i == i {
      OwnMove(s, n, i, m);
    } else {
      OthersLeave(s, n, i, m);
      if m == Take(Worker(i)) {
        TakesGuard(s, n, i);
      } else if HasGuard(s, i) {
        GuardStays(s, n, i, m);
      }
    }
  }

  lemma TakesGuard(s: Server, n: nat, i: nat)
    requires Inv(s, n) && i < |s.sessions| && Enabled(s, Take(Worker(i)))
    ensures Inv(Next(s, Take(Worker(i))), n) && !HasGuard(s, i) && HasGuard(Next(s, Take(Worker(i))), i)
  {
    hide SessionOk, Distinct, WorkerNeeds, ViewOf;
    MoveKeeps(s, n, Take(Worker(i)));
    NeedsKept(s, n, Take(Worker(i)), Worker(i));
  }

  /** What a move does to the number of steps left: one less for a step of the worker, two more when a wait ends. */
  function Cost(s: Server, i: nat, m: Move): int
    requires Wellformed(s)
  {
    if !OwnStep(m, i) then 0 else if m.WorkerMove? && i < |s.sessions| && s.sessions[i].worker.Draining? then 2 else -1
  }

  function Balance(s: Server, i: nat, moves: seq<Move>): int
    requires EnabledRun(s, moves)
    decreases |moves|
  {
    if moves == [] then 0 else Cost(s, i, moves[0]) + Balance(Next(s, moves[0]), i, moves[1..])
  }

  /**
   * So a worker takes at most fourteen more steps before it exits, those that take a lock included, and three more for each
   * time the wait of a further shutdown ends.
   */
  lemma {:induction false} WorkersExit(s: Server, n: nat, i: nat, moves: seq<Move>)
    requires Inv(s, n) && Wellformed(s) && i < |s.sessions| && Past(s.main, i) && EnabledRun(s, moves)
    ensures var r := Run(s, moves);
            && Inv(r, n) && i < |r.sessions| && Past(r.main, i)
            && 0 <= Rank(r, i) <= Rank(s, i) + Balance(s, i, moves)
    decreases |moves|
  {
    hide Next, SessionOk, Distinct, Rank, ViewOf;
    if moves == [] {
      RankBounds(s, n, i);
    } else {
      PassedMove(s, n, i, moves[0]);
      WorkersExit(Next(s, moves[0]), n, i, moves[1..]);
    }
  }

  /** The steps left are at most fourteen, and none exactly when the worker has exited. */
  lemma RankBounds(s: Server, n: nat, i: nat)
    requires Inv(s, n) && i < |s.sessions| && Past(s.main, i)
    ensures Wellformed(s) && 0 <= Rank(s, i) <= 14 && (Rank(s, i) == 0 <==> s.sessions[i].worker.Exited?)
  {
    hide Distinct, RingOk, CounterOk, WorkerOk, ClientOk, Pending, LockOk;
    assert SessionOk(s.sessions[i], n, ViewOf(s, i));
  }
}
