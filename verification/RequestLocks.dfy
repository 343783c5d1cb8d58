/**
 * The locks of the request server: a session lock comes first and then at most one of server_lock, the lock of the session
 * table and the global lock of the file system, so that there is no cyclic wait.  What can wait for long is a shutdown,
 * and with more than one slot for a session the receiver can be stuck behind it.
 */
module RequestLocks {
  import opened Options
  import opened RequestRing
  import opened SessionTable
  import opened RequestServer
  import opened RequestInvariant
  import opened RequestRuns

  /* ----- who holds what, and who waits for what ----- */

  datatype Resource = SessionLock(i: nat) | Other(g: Guard)

  predicate Has(s: Server, t: Thread, a: Resource) {
    match a
    case Other(g) => g in s.held && s.held[g] == t
    case SessionLock(i) =>
      i < |s.sessions| &&
      (match t
       case Receiver => s.sessions[i].lock.ByReceiver?
       case Worker(j) => j == i && s.sessions[i].lock.ByWorker?
       case Main => s.sessions[i].lock.ByMain?)
  }

  /** The next step of t takes lock a, which it does not have. */
  predicate Awaits(s: Server, t: Thread, a: Resource)
    requires Wellformed(s)
  {
    match a
    case Other(g) => Needs(s, t) == Some(g) && !Has(s, t, a)
    case SessionLock(i) =>
      i < |s.sessions| &&
      (match t
       case Receiver => s.receiver.Waiting? && s.receiver.i == i
       case Worker(j) => j == i && (s.sessions[i].worker.Locking? || s.sessions[i].worker.Woken?)
       case Main => s.main == Destroying(i))
  }

  /**
   * The steps that touch shared state are made by the thread that has the lock that guards it: server_open is read and
   * cleared under server_lock, the session table is changed under its lock, file operations and the wait of a shutdown begin
   * under the global lock, and a worker that looks at its slot or has a request has the lock of its session.
   */
  lemma StepsUnderLocks(s: Server, n: nat, m: Move)
    requires Inv(s, n) && Enabled(s, m)
    ensures match m {
      case WorkerMove(i, _) =>
        && s.sessions[i].counter < |s.sessions[i].ring|
        && (s.sessions[i].worker == Testing || s.sessions[i].worker == Checking || s.sessions[i].worker == Closing ==>
              Has(s, Worker(i), Other(ServerLock)))
        && (s.sessions[i].worker == Serving && At(s.sessions[i]) == Some(Unmount) ==> Has(s, Worker(i), Other(TableLock)))
        && (s.sessions[i].worker == Serving && At(s.sessions[i]).Some? && (At(s.sessions[i]).value.Call? || At(s.sessions[i]).value == Shutdown) ==>
              Has(s, Worker(i), Other(GlobalLock)))
        && (s.sessions[i].worker in {Looking, Checking, Dozing, Serving, Operated, Draining, Drained, Removed, Closing, Answered} ==>
              Has(s, Worker(i), SessionLock(i)))
      case ReceiverMove =>
        && (s.receiver.Adding? ==> Has(s, Receiver, Other(TableLock)))
        && (s.receiver.Storing? || s.receiver.Signalling? || s.receiver.Releasing? ==> Has(s, Receiver, SessionLock(s.receiver.i)))
      case MainMove =>
        && (s.main == Watching ==> Has(s, Main, Other(ServerLock)))
        && (s.main.Holding? || s.main.Signalled? ==> Has(s, Main, SessionLock(s.main.i)))
      case _ => true
    }
  {
    hide Distinct, RingOk, CounterOk, WorkerOk, ClientOk, Pending, SleepOk;
    match m
    case WorkerMove(i, _) => assert SessionOk(s.sessions[i], n, ViewOf(s, i));
    case ReceiverMove =>
      if !s.receiver.Adding? && !s.receiver.Waiting? {
        assert SessionOk(s.sessions[s.receiver.i], n, ViewOf(s, s.receiver.i));
      }
    case MainMove =>
      if s.main.Holding? || s.main.Signalled? {
        assert SessionOk(s.sessions[s.main.i], n, ViewOf(s, s.main.i));
      }
    case _ =>
  }

  /** A thread that has one of the other locks is about to use it. */
  ghost predicate HeldOk(s: Server)
    requires Wellformed(s)
  {
    forall g {:trigger s.held[g]} :: g in s.held ==> Needs(s, s.held[g]) == Some(g)
  }

  /** What thread t needs is its own affair: no step of another thread changes it. */
  lemma NeedsKept(s: Server, n: nat, m: Move, t: Thread)
    requires Inv(s, n) && Enabled(s, m) && Needs(s, t).Some?
    requires match m {
      case ReceiverMove => t != Receiver
      case WorkerMove(i, _) => t != Worker(i)
      case MainMove => t != Main
      case _ => true
    }
    ensures Wellformed(Next(s, m)) && Needs(Next(s, m), t) == Needs(s, t)
  {
    hide SessionOk, Distinct, WorkerLocal, WorkerNeeds;
    MoveKeeps(s, n, m);
    var r := Next(s, m);
    if t.Worker? {
      WorkerNeedsKept(s, n, m, t.i);
    }
  }

  lemma WorkerNeedsKept(s: Server, n: nat, m: Move, i: nat)
    requires Inv(s, n) && Enabled(s, m) && i < |s.sessions| && WorkerNeeds(s.sessions[i]).Some?
    requires !(m.WorkerMove? && m.i == i)
    ensures Inv(Next(s, m), n) && i < |Next(s, m).sessions|
    ensures Next(s, m).sessions[i].counter < |Next(s, m).sessions[i].ring|
    ensures WorkerNeeds(Next(s, m).sessions[i]) == WorkerNeeds(s.sessions[i])
  {
    hide SessionOk, Distinct, ViewOf, Next, WorkerNeeds;
    MoveKeeps(s, n, m);
    WorkerSlot(s, n, i);
    SlotKept(s, n, m, i);
    SameNeeds(s.sessions[i], Next(s, m).sessions[i]);
  }

  /** Another thread's step leaves the worker's slot alone while the worker has the lock, and at most wakes it. */
  ghost predicate SlotSame(x: Session, y: Session) {
    && |y.ring| == |x.ring| && y.counter == x.counter && (!x.worker.Asleep? ==> y.worker == x.worker)
    && (HoldsLock(x.worker) ==> y.ring == x.ring)
  }

  lemma SlotKept(s: Server, n: nat, m: Move, i: nat)
    requires Inv(s, n) && Enabled(s, m) && i < |s.sessions| && !(m.WorkerMove? && m.i == i)
    ensures i < |Next(s, m).sessions| && SlotSame(s.sessions[i], Next(s, m).sessions[i])
  {
    hide SessionOk, Distinct, WorkerLocal, ViewOf, ReceiverNext, WorkerNeeds, MainNext;
    match m
    case ReceiverMove => ReceiverSlot(s, n, i);
    case MainMove => MainSlot(s, i);
    case WorkerMove(_, _) => SessionsCount(s, m);
    case _ =>
  }

  lemma SessionsCount(s: Server, m: Move)
    requires Wellformed(s) && Enabled(s, m) && m.WorkerMove?
    ensures |Next(s, m).sessions| == |s.sessions|
  {
    hide WorkerLocal, WorkerNeeds, Ready;
  }

  lemma ReceiverSlot(s: Server, n: nat, i: nat)
    requires Inv(s, n) && Enabled(s, ReceiverMove) && i < |s.sessions|
    ensures i < |ReceiverNext(s).sessions| && SlotSame(s.sessions[i], ReceiverNext(s).sessions[i])
  {
    hide SessionOk, Distinct, ViewOf, WorkerNeeds;
    if s.receiver.Storing? && s.receiver.i == i {
      StoringHolds(s, n);
    }
  }

  lemma MainSlot(s: Server, i: nat)
    requires Wellformed(s) && Enabled(s, MainMove) && i < |s.sessions|
    ensures i < |MainNext(s).sessions| && SlotSame(s.sessions[i], MainNext(s).sessions[i])
  {
    hide WorkerNeeds;
  }

  lemma SameNeeds(x: Session, y: Session)
    requires x.counter < |x.ring| == |y.ring| && y.counter == x.counter && WorkerNeeds(x).Some?
    requires !x.worker.Asleep? ==> y.worker == x.worker
    requires HoldsLock(x.worker) ==> y.ring == x.ring
    ensures WorkerNeeds(y) == WorkerNeeds(x)
  {
  }

  lemma StoringHolds(s: Server, n: nat)
    requires Inv(s, n) && s.receiver.Storing?
    ensures !HoldsLock(s.sessions[s.receiver.i].worker)
  {
    hide Distinct, RingOk, CounterOk, WorkerOk, ClientOk, Pending, SleepOk;
    assert SessionOk(s.sessions[s.receiver.i], n, ViewOf(s, s.receiver.i));
  }

  /** The thread whose step it is, where steps are made under locks. */
  function Stepper(m: Move): Option<Thread> {
    match m
    case ReceiverMove => Some(Receiver)
    case WorkerMove(i, _) => Some(Worker(i))
    case MainMove => Some(Main)
    case _ => None
  }

  /** Which of the other locks are held after a step. */
  lemma HeldAfter(s: Server, m: Move)
    requires Wellformed(s) && Enabled(s, m)
    ensures Next(s, m).held ==
            match m {
              case Take(t) => s.held[Needs(s, t).value := t]
              case _ => if Stepper(m).Some? && Needs(s, Stepper(m).value).Some? then s.held - {Needs(s, Stepper(m).value).value} else s.held
            }
  {
    hide WorkerLocal, WorkerNeeds, MountAdded;
    if m.ReceiverMove? && s.receiver.Adding? {
      MountLeavesHeld(s, s.receiver.path);
    }
  }

  lemma MountLeavesHeld(s: Server, path: string)
    requires Wellformed(s)
    ensures MountAdded(s, path).held == s.held
  {
  }

  lemma MoveKeepsHeld(s: Server, n: nat, m: Move)
    requires Inv(s, n) && HeldOk(s) && Enabled(s, m)
    ensures Inv(Next(s, m), n) && HeldOk(Next(s, m))
  {
    hide Next, Needs, Distinct, SessionOk, Enabled;
    MoveKeeps(s, n, m);
    HeldAfter(s, m);
    var r := Next(s, m);
    if m.Take? {
      TakeNeeds(s, m.t);
    }
    forall g {:trigger r.held[g]} | g in r.held ensures Needs(r, r.held[g]) == Some(g) {
      if !(m.Take? && g == Needs(s, m.t).value) {
        assert r.held[g] == s.held[g];
        NeedsKept(s, n, m, s.held[g]);
      } else {
        NeedsKept(s, n, m, m.t);
      }
    }
  }

  lemma TakeNeeds(s: Server, t: Thread)
    requires Wellformed(s) && Enabled(s, Take(t))
    ensures Needs(s, t).Some?
  {
  }

  lemma {:induction false} RunKeepsHeld(s: Server, n: nat, moves: seq<Move>)
    requires Inv(s, n) && HeldOk(s) && EnabledRun(s, moves)
    ensures Inv(Run(s, moves), n) && HeldOk(Run(s, moves))
    decreases |moves|
  {
    hide Next, Inv, HeldOk;
    if moves != [] {
      InvWellformed(s, n);
      MoveKeepsHeld(s, n, moves[0]);
      RunKeepsHeld(Next(s, moves[0]), n, moves[1..]);
    }
  }

  lemma InvWellformed(s: Server, n: nat)
    requires Inv(s, n)
    ensures Wellformed(s)
  {
    hide SessionOk, Distinct, ViewOf;
  }

  /* ----- the lock order ----- */

  /** Which thread has the lock of a session can be read off where the threads stand. */
  lemma SessionHolder(s: Server, n: nat, t: Thread, i: nat)
    requires Inv(s, n) && i < |s.sessions|
    ensures Has(s, t, SessionLock(i)) <==>
            match t
            case Receiver => (s.receiver.Storing? || s.receiver.Signalling? || s.receiver.Releasing?) && s.receiver.i == i
            case Worker(j) => j == i && HoldsLock(s.sessions[i].worker)
            case Main => (s.main.Holding? || s.main.Signalled?) && s.main.i == i
  {
    hide Distinct, RingOk, CounterOk, WorkerOk, ClientOk, Pending, SleepOk;
    assert SessionOk(s.sessions[i], n, ViewOf(s, i));
  }

  /** Who waits for one of the other locks has at most the lock of its session; who waits for a session has nothing. */
  lemma LockOrder(s: Server, n: nat, t: Thread, a: Resource, b: Resource)
    requires Inv(s, n) && HeldOk(s)
    ensures Awaits(s, t, a) && Has(s, t, b) ==> a.Other? && b.SessionLock?
  {
    hide SessionOk, Distinct;
    match b
    case Other(g) =>
      assert g in s.held ==> Needs(s, s.held[g]) == Some(g);
    case SessionLock(i) =>
      if i < |s.sessions| {
        SessionHolder(s, n, t, i);
      }
  }

  /** A thread has at most one session's lock and at most one of the others. */
  lemma AtMostOneEach(s: Server, n: nat, t: Thread, a: Resource, b: Resource)
    requires Inv(s, n) && HeldOk(s) && Has(s, t, a) && Has(s, t, b) && (a.Other? <==> b.Other?)
    ensures a == b
  {
    hide SessionOk, Distinct;
    if a.Other? {
      assert Needs(s, s.held[a.g]) == Some(a.g) && Needs(s, s.held[b.g]) == Some(b.g);
    } else {
      SessionHolder(s, n, t, a.i);
      SessionHolder(s, n, t, b.i);
    }
  }

  /** Thread t waits for a lock that u has. */
  ghost predicate WaitsOn(s: Server, t: Thread, u: Thread)
    requires Wellformed(s)
  {
    exists a :: Awaits(s, t, a) && Has(s, u, a)
  }

  /** A chain of waits has at most three threads, so none of them closes to a cycle. */
  lemma ChainEnds(s: Server, n: nat, t: Thread, u: Thread, w: Thread, z: Thread)
    requires Inv(s, n) && HeldOk(s) && WaitsOn(s, t, u) && WaitsOn(s, u, w)
    ensures !WaitsOn(s, w, z)
  {
    hide SessionOk, HeldOk, Awaits, Has;
    var a :| Awaits(s, t, a) && Has(s, u, a);
    var b :| Awaits(s, u, b) && Has(s, w, b);
    LockOrder(s, n, u, b, a);
    forall c ensures !(Awaits(s, w, c) && Has(s, z, c)) {
      LockOrder(s, n, w, c, b);
    }
  }

  /** No threads wait for each other in a ring, in any state of any run from the start. */
  lemma NoCyclicWait(sessions: nat, n: nat, moves: seq<Move>, ring: seq<Thread>)
    requires n >= 1 && EnabledRun(Start(sessions, n), moves) && ring != []
    ensures var r := Run(Start(sessions, n), moves);
            Inv(r, n) && Wellformed(r) && exists k: nat :: k < |ring| && !WaitsOn(r, ring[k], ring[Slot(k + 1, |ring|)])
  {
    hide Inv, HeldOk, WaitsOn, Next, Start, EnabledRun, Run;
    StartHeld(sessions, n);
    RunKeepsHeld(Start(sessions, n), n, moves);
    var r := Run(Start(sessions, n), moves);
    InvWellformed(r, n);
    var l := |ring|;
    var t, u, w, z := ring[0], ring[Slot(1, l)], ring[Slot(Slot(1, l) + 1, l)], ring[Slot(Slot(Slot(1, l) + 1, l) + 1, l)];
    if WaitsOn(r, t, u) && WaitsOn(r, u, w) {
      ChainEnds(r, n, t, u, w, z);
    }
  }

  lemma StartHeld(sessions: nat, n: nat)
    requires n >= 1
    ensures Inv(Start(sessions, n), n) && HeldOk(Start(sessions, n))
  {
    StartInv(sessions, n);
  }

  /* ----- who can take a step ----- */

  /** Thread t can go on: by its next step, or by taking the lock that step is made under. */
  predicate CanStep(s: Server, t: Thread)
    requires Wellformed(s)
  {
    || Enabled(s, Take(t))
    || (match t
        case Receiver => Enabled(s, ReceiverMove)
        case Worker(i) => Enabled(s, WorkerMove(i, true))
        case Main => Enabled(s, MainMove))
  }

  /** Worker i is in the wait of tfs_destroy_after_all_closed, and a file is open. */
  predicate WaitsForCloses(s: Server, t: Thread) {
    t.Worker? && t.i < |s.sessions| && s.sessions[t.i].worker.Draining? && s.files > 0
  }

  /** Thread t is in the middle of something: not at rest, asleep without a signal, or finished. */
  predicate Busy(s: Server, t: Thread) {
    match t
    case Receiver => !s.receiver.Reading?
    case Worker(i) => i < |s.sessions| && !s.sessions[i].worker.Asleep? && !s.sessions[i].worker.Exited?
    case Main => !s.main.Sleeping? && !s.main.Joining?
  }

  /**
   * A busy thread can go on unless another has the one lock it needs next, or it waits in a shutdown for files to be
   * closed.
   */
  lemma BusyMoves(s: Server, n: nat, t: Thread)
    requires Inv(s, n) && HeldOk(s) && Busy(s, t)
    ensures !CanStep(s, t) <==> WaitsForCloses(s, t) || exists u :: u != t && WaitsOn(s, t, u)
  {
    hide SessionOk, Distinct;
    if Needs(s, t).Some? {
      NeedyWaits(s, t);
    } else {
      SessionWaits(s, n, t);
    }
  }

  /** A thread that needs none of the other locks waits for a session exactly if another has it. */
  lemma SessionWaits(s: Server, n: nat, t: Thread)
    requires Inv(s, n) && HeldOk(s) && Needs(s, t).None?
    ensures (exists u :: u != t && WaitsOn(s, t, u)) <==>
            exists i :: 0 <= i < |s.sessions| && !s.sessions[i].lock.Free? && Awaits(s, t, SessionLock(i))
  {
    hide SessionOk, Distinct, HeldOk, Needs;
    forall i | 0 <= i < |s.sessions| && !s.sessions[i].lock.Free? && Awaits(s, t, SessionLock(i))
      ensures exists u :: u != t && WaitsOn(s, t, u)
    {
      var u := match s.sessions[i].lock { case ByReceiver => Receiver case ByWorker => Worker(i) case _ => Main };
      assert Has(s, u, SessionLock(i));
      SessionHolder(s, n, t, i);
      assert WaitsOn(s, t, u) && u != t;
    }
    forall u | u != t && WaitsOn(s, t, u)
      ensures exists i :: 0 <= i < |s.sessions| && !s.sessions[i].lock.Free? && Awaits(s, t, SessionLock(i))
    {
      var a :| Awaits(s, t, a) && Has(s, u, a);
      assert !s.sessions[a.i].lock.Free? && Awaits(s, t, SessionLock(a.i));
    }
  }

  /** Whoever has a lock is busy, and whoever has one of the three other locks can go on at once. */
  lemma HoldersMove(s: Server, n: nat, t: Thread, a: Resource)
    requires Inv(s, n) && HeldOk(s) && Has(s, t, a)
    ensures Busy(s, t) && (a.Other? ==> CanStep(s, t))
  {
    hide SessionOk, Distinct;
    match a {
      case Other(g) => assert Needs(s, s.held[g]) == Some(g);
      case SessionLock(i) => SessionHolder(s, n, t, i);
    }
  }

  /** A thread that needs one of the other locks has it, or can take it, or waits for the one that has it. */
  lemma NeedyWaits(s: Server, t: Thread)
    requires Wellformed(s) && Needs(s, t).Some?
    ensures var g := Needs(s, t).value;
            && (Enabled(s, Take(t)) <==> g !in s.held)
            && (g in s.held && s.held[g] != t ==> WaitsOn(s, t, s.held[g]))
            && (forall u :: WaitsOn(s, t, u) && u != t ==> g in s.held && s.held[g] == u)
  {
    var g := Needs(s, t).value;
    if g in s.held && s.held[g] != t {
      assert Awaits(s, t, Other(g)) && Has(s, s.held[g], Other(g));
    }
    forall u | WaitsOn(s, t, u) && u != t ensures g in s.held && s.held[g] == u {
      var a :| Awaits(s, t, a) && Has(s, u, a);
      NeedyHasNoSession(s, t, a);
    }
  }

  lemma NeedyHasNoSession(s: Server, t: Thread, a: Resource)
    requires Wellformed(s) && Needs(s, t).Some? && Awaits(s, t, a)
    ensures a == Other(Needs(s, t).value)
  {
  }

  /* ----- the receiver behind a shutdown ----- */

  /** The worker holds the lock of its session and is at a shutdown it has not answered. */
  predicate InShutdown(x: Session)
    requires x.counter < |x.ring|
  {
    (x.worker.Serving? || x.worker.Draining? || x.worker.Drained?) && At(x) == Some(Shutdown)
  }

  /** The receiver has read a request for session i and waits for the lock its worker holds. */
  predicate Stuck(s: Server, i: nat) {
    s.receiver.Waiting? && s.receiver.i == i && i < |s.sessions| && s.sessions[i].lock.ByWorker?
  }

  /**
   * While a shutdown is served the receiver is or comes to be stuck behind it exactly when its client has another request
   * outstanding that is in no slot: in the receiver's hands it is stuck already, in the pipe it is by reading it.
   */
  lemma StuckExact(s: Server, n: nat, i: nat)
    requires Inv(s, n) && i < |s.sessions| && s.sessions[i].counter < |s.sessions[i].ring| && InShutdown(s.sessions[i])
    ensures var x := s.sessions[i];
            && |x.processed| < |x.received|
            && (Stuck(s, i) || x.inbox != [] <==> x.unanswered > |x.received| - |x.processed|)
            && (x.inbox != [] && s.receiver.Reading? ==>
                  Enabled(s, ReadRequest(i)) && Stuck(Next(s, ReadRequest(i)), i) && !Enabled(Next(s, ReadRequest(i)), ReceiverMove))
  {
    hide Distinct, Slot, ClientOk, Holds, SleepOk;
    var x := s.sessions[i];
    assert SessionOk(x, n, ViewOf(s, i));
    EmptyBefore(x, n);
    assert Pending(x, ViewOf(s, i).hand) == x.received[|x.processed|..] + ViewOf(s, i).hand + x.inbox;
    if x.inbox != [] && s.receiver.Reading? {
      MoveKeeps(s, n, ReadRequest(i));
    }
  }

  /** With the one slot of the source it never is: the shutdown is the one request its client may have outstanding. */
  lemma OneSlotNeverStuck(sessions: nat, moves: seq<Move>, i: nat)
    requires EnabledRun(Start(sessions, 1), moves) && i < |Run(Start(sessions, 1), moves).sessions|
    ensures var r := Run(Start(sessions, 1), moves);
            Inv(r, 1) && r.sessions[i].counter < |r.sessions[i].ring| && !(InShutdown(r.sessions[i]) && Stuck(r, i))
  {
    hide Next, Distinct, Slot, ClientOk, Holds, SleepOk, Start, Enabled, Pending;
    StartInv(sessions, 1);
    RunKeeps(Start(sessions, 1), 1, moves);
    var r := Run(Start(sessions, 1), moves);
    assert SessionOk(r.sessions[i], 1, ViewOf(r, i));
    if InShutdown(r.sessions[i]) {
      StuckExact(r, 1, i);
    }
  }

  /** A request that closes a file. */
  predicate Closes(req: Req) {
    req.Call? && req.op.CloseFile?
  }

  function CountCloses(reqs: seq<Req>): nat {
    if reqs == [] then 0 else (if Closes(reqs[0]) then 1 else 0) + CountCloses(reqs[1..])
  }

  /** The closes in the slots of a session that its worker has not carried out. */
  function SlotCloses(x: Session): nat
    requires x.counter < |x.ring|
  {
    CountCloses(Left(x))
  }

  predicate CarriedOut(x: Session)
    requires x.counter < |x.ring|
  {
    (x.worker.Operated? || x.worker.Answered? || x.worker.Removed? || x.worker.Closing? || x.worker.Drained?) && At(x).Some?
  }

  predicate Fit(xs: seq<Session>) {
    forall i :: 0 <= i < |xs| ==> xs[i].counter < |xs[i].ring|
  }

  function AllCloses(xs: seq<Session>): nat
    requires Fit(xs)
  {
    if xs == [] then 0 else SlotCloses(xs[0]) + AllCloses(xs[1..])
  }

  lemma {:induction false} AllClosesUpdate(xs: seq<Session>, i: nat, x: Session)
    requires Fit(xs) && i < |xs| && x.counter < |x.ring|
    ensures Fit(xs[i := x]) && AllCloses(xs[i := x]) == AllCloses(xs) - SlotCloses(xs[i]) + SlotCloses(x)
  {
    hide SlotCloses;
    if i == 0 {
      assert xs[i := x][1..] == xs[1..];
    } else {
      assert xs[i := x][1..] == xs[1..][i - 1 := x];
      AllClosesUpdate(xs[1..], i - 1, x);
    }
  }

  /** A worker's step takes a close off exactly when it carries one out, and only then can the number of open files fall. */
  lemma WorkerCloses(x: Session, n: nat, v: View, files: nat, ok: bool)
    requires SessionOk(x, n, v) && x.counter < |x.ring|
    ensures var y := WorkerLocal(x, v.open, files);
            && y.counter < |y.ring| && SlotCloses(y) <= SlotCloses(x)
            && (x.worker.Serving? && FilesAfter(files, At(x), ok) < files ==>
                  FilesAfter(files, At(x), ok) == files - 1 && SlotCloses(y) == SlotCloses(x) - 1)
  {
    hide Slot, Holds, ClientOk, Pending, LockOk, SleepOk, CounterOk, RingOk;
    var y := WorkerLocal(x, v.open, files);
    WorkerLeft(x, n, v, files);
    assert Left(x) == Left(y) || (Left(x) != [] && Left(y) == Left(x)[1..]);
  }

  /** The requests in slots that are not carried out. */
  function Left(x: Session): seq<Req>
    requires x.counter < |x.ring|
  {
    Tail(x.received, |x.processed| + if CarriedOut(x) then 1 else 0)
  }

  lemma WorkerLeft(x: Session, n: nat, v: View, files: nat)
    requires SessionOk(x, n, v) && x.counter < |x.ring|
    ensures var y := WorkerLocal(x, v.open, files);
            && y.counter < |y.ring|
            && (Left(y) == Left(x) || (Left(x) != [] && Left(y) == Left(x)[1..]))
            && (x.worker.Serving? && At(x).Some? && At(x).value.Call? ==> Left(x) != [] && At(x) == Some(Left(x)[0]) && Left(y) == Left(x)[1..])
  {
    hide Slot, Holds, ClientOk, Pending, LockOk, SleepOk, RingOk;
    if x.worker.Serving? {
      ServedLeft(x, n, files);
    } else if x.worker.Answered? {
      EmptiedLeft(x);
    } else {
      SameLeft(x, v, files);
    }
  }

  lemma ServedLeft(x: Session, n: nat, files: nat)
    requires RingOk(x, n) && x.counter == Slot(|x.processed|, n) && x.worker.Serving?
    ensures var y := Served(x, files);
            if At(x).None? || y.worker.Draining? then Left(y) == Left(x)
            else Left(x) != [] && At(x) == Some(Left(x)[0]) && Left(y) == Left(x)[1..]
  {
    hide Slot, Holds;
    EmptyBefore(x, n);
  }

  lemma EmptiedLeft(x: Session)
    requires x.counter < |x.ring| && x.worker.Answered?
    ensures Emptied(x).counter < |Emptied(x).ring| && Left(Emptied(x)) == Left(x)
  {
  }

  lemma SameLeft(x: Session, v: View, files: nat)
    requires x.counter < |x.ring| && WorkerOk(x, v.open) && !x.worker.Serving? && !x.worker.Answered?
    ensures var y := WorkerLocal(x, v.open, files);
            y.counter < |y.ring| && Left(y) == Left(x)
  {
    var y := WorkerLocal(x, v.open, files);
    assert y.received == x.received && y.processed == x.processed;
  }

  /** The receiver is stuck behind a shutdown, and the closes that are in slots are too few for the shutdown to end. */
  predicate Deadlocked(s: Server, i: nat)
    requires Fit(s.sessions)
  {
    Stuck(s, i) && s.sessions[i].worker.Draining? && AllCloses(s.sessions) < s.files
  }

  lemma InvFit(s: Server, n: nat)
    requires Inv(s, n)
    ensures Wellformed(s) && Fit(s.sessions)
  {
    hide SessionOk, Distinct, ViewOf;
  }

  /** Then no step of any thread changes that. */
  lemma DeadlockStays(s: Server, n: nat, i: nat, m: Move)
    requires Inv(s, n) && Fit(s.sessions) && Deadlocked(s, i) && Enabled(s, m)
    ensures Inv(Next(s, m), n) && Fit(Next(s, m).sessions) && Deadlocked(Next(s, m), i)
  {
    hide SessionOk, Distinct, SlotCloses, WorkerLocal, ViewOf, FilesAfter, AllCloses;
    MoveKeeps(s, n, m);
    var r := Next(s, m);
    InvFit(r, n);
    match m
    case WorkerMove(j, ok) =>
      WorkerSlot(s, n, j);
      ViewOpen(s, j);
      WorkerCloses(s.sessions[j], n, ViewOf(s, j), s.files, ok);
      AllClosesUpdate(s.sessions, j, WorkerLocal(s.sessions[j], s.open, s.files));
    case Send(j, req) =>
      OtherCloses(s.sessions[j], Sent(s.sessions[j], req));
      AllClosesUpdate(s.sessions, j, Sent(s.sessions[j], req));
    case WakeWorker(j) =>
      SignalCloses(s.sessions[j]);
      AllClosesUpdate(s.sessions, j, Signal(s.sessions[j]));
    case MainMove =>
      MainCloses(s);
      SessionHolder(s, n, Main, i);
    case _ =>
  }

  lemma ViewOpen(s: Server, j: nat)
    requires j < |s.table|
    ensures ViewOf(s, j).open == s.open
  {
  }

  lemma OtherCloses(x: Session, y: Session)
    requires x.counter < |x.ring| && y.ring == x.ring && y.counter == x.counter && y.worker == x.worker
    requires y.received == x.received && y.processed == x.processed
    ensures SlotCloses(y) == SlotCloses(x)
  {
  }

  lemma SignalCloses(x: Session)
    requires x.counter < |x.ring|
    ensures SlotCloses(Signal(x)) == SlotCloses(x)
  {
  }

  lemma MainCloses(s: Server)
    requires Wellformed(s) && Enabled(s, MainMove) && Fit(s.sessions)
    ensures Fit(Next(s, MainMove).sessions) && AllCloses(Next(s, MainMove).sessions) == AllCloses(s.sessions)
  {
    hide SlotCloses, AllCloses;
    if (s.main.Destroying? || s.main.Holding? || s.main.Signalled?) && s.main.i < |s.sessions| {
      var x, y := s.sessions[s.main.i], Next(s, MainMove).sessions[s.main.i];
      SignalCloses(x);
      if y != Signal(x) {
        OtherCloses(x, y);
      }
      AllClosesUpdate(s.sessions, s.main.i, y);
    }
  }

  /**
   * With more slots the receiver can be stuck for good: if more files are open than closes are in slots, no run gets it
   * past the shutdown, since the closes that would end it can only come through the receiver.
   */
  lemma {:induction false} StuckForGood(s: Server, n: nat, i: nat, moves: seq<Move>)
    requires Inv(s, n) && Fit(s.sessions) && Deadlocked(s, i) && EnabledRun(s, moves)
    ensures var r := Run(s, moves);
            Inv(r, n) && Fit(r.sessions) && Deadlocked(r, i) && Wellformed(r) && !Enabled(r, ReceiverMove)
    decreases |moves|
  {
    hide SessionOk, Next, Distinct, ViewOf, AllCloses;
    if moves != [] {
      DeadlockStays(s, n, i, moves[0]);
      StuckForGood(Next(s, moves[0]), n, i, moves[1..]);
    }
  }
}
