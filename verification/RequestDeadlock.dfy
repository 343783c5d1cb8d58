/**
 * With two slots for a session the receiver can be stuck for good: a run from the start, of one client that opens a file
 * and then sends a shutdown and the close of that file without waiting between the two.
 */
module RequestDeadlock {
  import opened Options
  import opened RequestRing
  import opened SessionTable
  import opened RequestServer
  import opened RequestInvariant
  import opened RequestRuns
  import opened RequestLocks

  ghost predicate Reaches(s: Server, t: Server) {
    exists moves :: EnabledRun(s, moves) && Run(s, moves) == t
  }

  lemma ReachesSelf(s: Server)
    ensures Reaches(s, s)
  {
    assert EnabledRun(s, []) && Run(s, []) == s;
  }

  /** One more move at the front. */
  lemma ReachesBy(s: Server, m: Move, t: Server)
    requires Wellformed(s) && Enabled(s, m) && Reaches(Next(s, m), t)
    ensures Reaches(s, t)
  {
    hide Wellformed, Enabled, Next;
    var rest :| EnabledRun(Next(s, m), rest) && Run(Next(s, m), rest) == t;
    var moves := [m] + rest;
    assert moves[0] == m && moves[1..] == rest;
    assert EnabledRun(s, moves) && Run(s, moves) == t;
  }

  lemma ReachesTrans(s: Server, t: Server, u: Server)
    requires Reaches(s, t) && Reaches(t, u)
    ensures Reaches(s, u)
  {
    var a :| EnabledRun(s, a) && Run(s, a) == t;
    var b :| EnabledRun(t, b) && Run(t, b) == u;
    RunAppend(s, a, b);
  }

  lemma {:induction false} RunAppend(s: Server, a: seq<Move>, b: seq<Move>)
    requires EnabledRun(s, a) && EnabledRun(Run(s, a), b)
    ensures EnabledRun(s, a + b) && Run(s, a + b) == Run(Run(s, a), b)
    decreases |a|
  {
    hide Wellformed, Enabled, Next;
    if a == [] {
      assert a + b == b;
    } else {
      assert (a + b)[0] == a[0] && (a + b)[1..] == a[1..] + b;
      RunAppend(Next(s, a[0]), a[1..], b);
    }
  }

  /* ----- a server of one session ----- */

  function One(x: Session, entry: Option<string>, r: ReceiverPc, files: nat, held: map<Guard, Thread>): Server {
    Server([x], [entry], r, true, Watching, files, held)
  }

  predicate Fits(x: Session) {
    x.producer < |x.ring| && x.counter < |x.ring|
  }

  /** The receiver stores the request in its hands. */
  lemma Delivers(x: Session, e: Option<string>, req: Req, files: nat)
    requires Fits(x) && x.lock.Free? && !x.worker.Asleep?
    ensures Fits(Stored(x, req)) && Reaches(One(x, e, Waiting(0, req), files, map[]), One(Stored(x, req), e, Reading, files, map[]))
  {
    hide Reaches;
    var s0 := One(x, e, Waiting(0, req), files, map[]);
    var s1 := One(x.(lock := ByReceiver), e, Storing(0, req), files, map[]);
    var s2 := One(Stored(x.(lock := ByReceiver), req), e, Signalling(0), files, map[]);
    var s3 := One(Stored(x.(lock := ByReceiver), req), e, Releasing(0), files, map[]);
    var s4 := One(Stored(x, req), e, Reading, files, map[]);
    ReachesSelf(s4);
    assert Next(s3, ReceiverMove) == s4;
    ReachesBy(s3, ReceiverMove, s4);
    assert Next(s2, ReceiverMove) == s3;
    ReachesBy(s2, ReceiverMove, s4);
    assert Next(s1, ReceiverMove) == s2;
    ReachesBy(s1, ReceiverMove, s4);
    assert Next(s0, ReceiverMove) == s1;
    ReachesBy(s0, ReceiverMove, s4);
  }

  /** The worker goes from the test of its loop to the request in its slot. */
  lemma Fetches(x: Session, e: Option<string>, files: nat)
    requires Fits(x) && x.lock.Free? && x.worker.Testing? && x.ring[x.counter].Some?
    ensures Reaches(One(x, e, Reading, files, map[]), One(x.(lock := ByWorker, worker := Serving), e, Reading, files, map[]))
  {
    hide Reaches;
    var s0 := One(x, e, Reading, files, map[]);
    var s1 := One(x, e, Reading, files, map[ServerLock := Worker(0)]);
    var s2 := One(x.(worker := Locking), e, Reading, files, map[]);
    var s3 := One(x.(lock := ByWorker, worker := Looking), e, Reading, files, map[]);
    var s4 := One(x.(lock := ByWorker, worker := Serving), e, Reading, files, map[]);
    var step := WorkerMove(0, true);
    ReachesSelf(s4);
    assert Next(s3, step) == s4;
    ReachesBy(s3, step, s4);
    assert Next(s2, step) == s3;
    ReachesBy(s2, step, s4);
    assert Next(s1, step) == s2;
    ReachesBy(s1, step, s4);
    assert Next(s0, Take(Worker(0))) == s1;
    ReachesBy(s0, Take(Worker(0)), s4);
  }

  /** A step of the worker that needs none of the other locks and touches only its session. */
  lemma WorkerSteps(x: Session, e: Option<string>, files: nat)
    requires Fits(x) && (x.worker.Answered? || x.worker.Cleared? || x.worker.Counting?)
    ensures var s := One(x, e, Reading, files, map[]);
            Wellformed(s) && Enabled(s, WorkerMove(0, true))
            && Next(s, WorkerMove(0, true)) == One(WorkerLocal(x, true, files), e, Reading, files, map[])
  {
    hide WorkerLocal;
  }

  /** The session when the worker has cleared its slot and is back at the test of its loop. */
  function Finished(x: Session, req: Req): Session
    requires Fits(x)
  {
    x.(worker := Testing, lock := Free, ring := x.ring[x.counter := None], processed := x.processed + [req],
       counter := Advance(x.counter, |x.ring|))
  }

  lemma Finishes(x: Session, e: Option<string>, req: Req, files: nat)
    requires Fits(x) && x.lock.ByWorker? && x.worker.Answered? && x.ring[x.counter] == Some(req)
    ensures Fits(Finished(x, req)) && Reaches(One(x, e, Reading, files, map[]), One(Finished(x, req), e, Reading, files, map[]))
  {
    hide Reaches, Next, Enabled, Wellformed, One;
    var y := x.(ring := x.ring[x.counter := None], processed := x.processed + [req]);
    var x1, x2, x3 := y.(worker := Cleared(true)), y.(worker := Counting(true), lock := Free), Finished(x, req);
    var step := WorkerMove(0, true);
    WorkerSteps(x, e, files);
    WorkerSteps(x1, e, files);
    WorkerSteps(x2, e, files);
    assert WorkerLocal(x, true, files) == x1 && WorkerLocal(x1, true, files) == x2 && WorkerLocal(x2, true, files) == x3;
    ReachesSelf(One(x3, e, Reading, files, map[]));
    ReachesBy(One(x2, e, Reading, files, map[]), step, One(x3, e, Reading, files, map[]));
    ReachesBy(One(x1, e, Reading, files, map[]), step, One(x3, e, Reading, files, map[]));
    ReachesBy(One(x, e, Reading, files, map[]), step, One(x3, e, Reading, files, map[]));
  }

  /** The client sends a request. */
  lemma Sends(x: Session, e: Option<string>, req: Req, files: nat)
    requires Fits(x) && x.client.Mounted? && x.unanswered < |x.ring| && !req.Mount? && !req.Unmount?
    ensures Reaches(One(x, e, Reading, files, map[]), One(x.(inbox := x.inbox + [req], unanswered := x.unanswered + 1), e, Reading, files, map[]))
  {
    hide Reaches;
    var s0 := One(x, e, Reading, files, map[]);
    var s1 := One(x.(inbox := x.inbox + [req], unanswered := x.unanswered + 1), e, Reading, files, map[]);
    ReachesSelf(s1);
    assert Next(s0, Send(0, req)) == s1;
    ReachesBy(s0, Send(0, req), s1);
  }

  /** The receiver reads the next request of the session. */
  lemma Reads(x: Session, e: Option<string>, req: Req, rest: seq<Req>, files: nat)
    requires Fits(x) && x.inbox == [req] + rest
    ensures Reaches(One(x, e, Reading, files, map[]), One(x.(inbox := rest), e, Waiting(0, req), files, map[]))
  {
    hide Reaches;
    var s0 := One(x, e, Reading, files, map[]);
    var s1 := One(x.(inbox := rest), e, Waiting(0, req), files, map[]);
    assert x.inbox[1..] == rest;
    ReachesSelf(s1);
    assert Next(s0, ReadRequest(0)) == s1;
    ReachesBy(s0, ReadRequest(0), s1);
  }

  /** Stored, and fetched by the worker. */
  lemma Arrives(x: Session, e: Option<string>, req: Req, files: nat)
    requires Fits(x) && x.lock.Free? && x.worker.Testing? && x.producer == x.counter
    ensures Fits(Stored(x, req))
    ensures Reaches(One(x, e, Waiting(0, req), files, map[]), One(Stored(x, req).(lock := ByWorker, worker := Serving), e, Reading, files, map[]))
  {
    hide Reaches;
    Delivers(x, e, req, files);
    var y := Stored(x, req);
    Fetches(y, e, files);
    ReachesTrans(One(x, e, Waiting(0, req), files, map[]), One(y, e, Reading, files, map[]),
                 One(y.(lock := ByWorker, worker := Serving), e, Reading, files, map[]));
  }

  /* ----- the run ----- */

  const OPEN: Req := Call(OpenFile, 0)
  const CLOSE: Req := Call(CloseFile, 0)

  function Fresh(): Session {
    Session([None, None], 0, 0, Free, Testing, Nobody, 0, [], [], [])
  }

  /** The client has mounted. */
  function HasMounted(): Session {
    Session([None, None], 1, 1, Free, Testing, Mounted, 0, [], [Mount("c")], [Mount("c")])
  }

  /** It has opened a file. */
  function HasOpened(): Session {
    Session([None, None], 0, 0, Free, Testing, Mounted, 0, [], [Mount("c"), OPEN], [Mount("c"), OPEN])
  }

  /** Its shutdown waits for the file to be closed, and its close has been read. */
  function HasShutDown(): Session {
    Session([Some(Shutdown), None], 1, 0, ByWorker, Draining, Mounted, 2, [], [Mount("c"), OPEN, Shutdown], [Mount("c"), OPEN])
  }

  lemma MountRead()
    ensures Reaches(One(Fresh(), None, Reading, 0, map[]),
                    One(Fresh().(client := Mounting, unanswered := 1), Some("c"), Waiting(0, Mount("c")), 0, map[]))
  {
    hide Reaches;
    var s0 := One(Fresh(), None, Reading, 0, map[]);
    var s1 := One(Fresh(), None, Adding("c"), 0, map[]);
    var s2 := One(Fresh(), None, Adding("c"), 0, map[TableLock := Receiver]);
    var s3 := One(Fresh().(client := Mounting, unanswered := 1), Some("c"), Waiting(0, Mount("c")), 0, map[]);
    ReachesSelf(s3);
    assert Next(s2, ReceiverMove) == s3;
    ReachesBy(s2, ReceiverMove, s3);
    assert Next(s1, Take(Receiver)) == s2;
    ReachesBy(s1, Take(Receiver), s3);
    assert Next(s0, ReadMount("c")) == s1;
    ReachesBy(s0, ReadMount("c"), s3);
  }

  lemma Mounts()
    ensures Reaches(One(Fresh(), None, Reading, 0, map[]), One(HasMounted(), Some("c"), Reading, 0, map[]))
  {
    hide Reaches;
    var e := Some("c");
    var x := Fresh().(client := Mounting, unanswered := 1);
    var s0 := One(Fresh(), None, Reading, 0, map[]);
    MountRead();
    Arrives(x, e, Mount("c"), 0);
    var z := Stored(x, Mount("c")).(lock := ByWorker, worker := Serving);
    ReachesTrans(s0, One(x, e, Waiting(0, Mount("c")), 0, map[]), One(z, e, Reading, 0, map[]));
    MountServed(z);
    var a := z.(worker := Answered, client := Mounted, unanswered := 0);
    ReachesTrans(s0, One(z, e, Reading, 0, map[]), One(a, e, Reading, 0, map[]));
    Finishes(a, e, Mount("c"), 0);
    assert Finished(a, Mount("c")) == HasMounted();
    ReachesTrans(s0, One(a, e, Reading, 0, map[]), One(HasMounted(), e, Reading, 0, map[]));
  }

  lemma MountServed(z: Session)
    requires Fits(z) && z.worker.Serving? && z.ring[z.counter] == Some(Mount("c"))
    ensures Reaches(One(z, Some("c"), Reading, 0, map[]),
                    One(z.(worker := Answered, client := Mounted, unanswered := 0), Some("c"), Reading, 0, map[]))
  {
    hide Reaches;
    var s0 := One(z, Some("c"), Reading, 0, map[]);
    var s1 := One(z.(worker := Answered, client := Mounted, unanswered := 0), Some("c"), Reading, 0, map[]);
    ReachesSelf(s1);
    assert Next(s0, WorkerMove(0, true)) == s1;
    ReachesBy(s0, WorkerMove(0, true), s1);
  }

  /** The open is carried out and answered. */
  lemma OpenServed(z: Session, e: Option<string>)
    requires Fits(z) && z.worker.Serving? && z.ring[z.counter] == Some(OPEN) && z.unanswered == 1
    ensures Reaches(One(z, e, Reading, 0, map[]), One(z.(worker := Answered, unanswered := 0), e, Reading, 1, map[]))
  {
    hide Reaches;
    var s0 := One(z, e, Reading, 0, map[]);
    var s1 := One(z, e, Reading, 0, map[GlobalLock := Worker(0)]);
    var s2 := One(z.(worker := Operated), e, Reading, 1, map[]);
    var s3 := One(z.(worker := Answered, unanswered := 0), e, Reading, 1, map[]);
    var step := WorkerMove(0, true);
    ReachesSelf(s3);
    assert Next(s2, step) == s3;
    ReachesBy(s2, step, s3);
    assert Next(s1, step) == s2;
    ReachesBy(s1, step, s3);
    assert Next(s0, Take(Worker(0))) == s1;
    ReachesBy(s0, Take(Worker(0)), s3);
  }

  lemma Opens()
    ensures Reaches(One(HasMounted(), Some("c"), Reading, 0, map[]), One(HasOpened(), Some("c"), Reading, 1, map[]))
  {
    hide Reaches;
    var e := Some("c");
    var x := HasMounted().(unanswered := 1);
    var s0 := One(HasMounted(), e, Reading, 0, map[]);
    Sends(HasMounted(), e, OPEN, 0);
    assert [] + [OPEN] == [OPEN] + [];
    Reads(x.(inbox := [OPEN]), e, OPEN, [], 0);
    ReachesTrans(s0, One(x.(inbox := [OPEN]), e, Reading, 0, map[]), One(x, e, Waiting(0, OPEN), 0, map[]));
    Arrives(x, e, OPEN, 0);
    var z := Stored(x, OPEN).(lock := ByWorker, worker := Serving);
    ReachesTrans(s0, One(x, e, Waiting(0, OPEN), 0, map[]), One(z, e, Reading, 0, map[]));
    OpenServed(z, e);
    var a := z.(worker := Answered, unanswered := 0);
    ReachesTrans(s0, One(z, e, Reading, 0, map[]), One(a, e, Reading, 1, map[]));
    Finishes(a, e, OPEN, 1);
    assert Finished(a, OPEN) == HasOpened();
    ReachesTrans(s0, One(a, e, Reading, 1, map[]), One(HasOpened(), e, Reading, 1, map[]));
  }

  /** The shutdown finds the file open and waits, and the receiver reads the close. */
  lemma ShutdownWaits(z: Session, e: Option<string>)
    requires Fits(z) && z.worker.Serving? && z.ring[z.counter] == Some(Shutdown)
    ensures Reaches(One(z, e, Reading, 1, map[]), One(z.(worker := Draining), e, Reading, 1, map[]))
  {
    hide Reaches;
    var s0 := One(z, e, Reading, 1, map[]);
    var s1 := One(z, e, Reading, 1, map[GlobalLock := Worker(0)]);
    var s2 := One(z.(worker := Draining), e, Reading, 1, map[]);
    ReachesSelf(s2);
    assert Next(s1, WorkerMove(0, true)) == s2;
    ReachesBy(s1, WorkerMove(0, true), s2);
    assert Next(s0, Take(Worker(0))) == s1;
    ReachesBy(s0, Take(Worker(0)), s2);
  }

  /** The client sends both requests, and the receiver reads the first. */
  lemma BothSent()
    ensures Reaches(One(HasOpened(), Some("c"), Reading, 1, map[]),
                    One(HasOpened().(unanswered := 2, inbox := [CLOSE]), Some("c"), Waiting(0, Shutdown), 1, map[]))
  {
    hide Reaches;
    var e := Some("c");
    var x1, x2 := HasOpened().(unanswered := 1, inbox := [Shutdown]), HasOpened().(unanswered := 2, inbox := [Shutdown, CLOSE]);
    var s0 := One(HasOpened(), e, Reading, 1, map[]);
    Sends(HasOpened(), e, Shutdown, 1);
    assert [] + [Shutdown] == [Shutdown];
    Sends(x1, e, CLOSE, 1);
    assert [Shutdown] + [CLOSE] == [Shutdown, CLOSE];
    ReachesTrans(s0, One(x1, e, Reading, 1, map[]), One(x2, e, Reading, 1, map[]));
    Reads(x2, e, Shutdown, [CLOSE], 1);
    ReachesTrans(s0, One(x2, e, Reading, 1, map[]), One(x2.(inbox := [CLOSE]), e, Waiting(0, Shutdown), 1, map[]));
  }

  lemma ShutsDown()
    ensures Reaches(One(HasOpened(), Some("c"), Reading, 1, map[]), One(HasShutDown(), Some("c"), Waiting(0, CLOSE), 1, map[]))
  {
    hide Reaches;
    var e := Some("c");
    var x := HasOpened().(unanswered := 2, inbox := [CLOSE]);
    var s0 := One(HasOpened(), e, Reading, 1, map[]);
    BothSent();
    Arrives(x, e, Shutdown, 1);
    var z := Stored(x, Shutdown).(lock := ByWorker, worker := Serving);
    ReachesTrans(s0, One(x, e, Waiting(0, Shutdown), 1, map[]), One(z, e, Reading, 1, map[]));
    ShutdownWaits(z, e);
    var w := z.(worker := Draining);
    ReachesTrans(s0, One(z, e, Reading, 1, map[]), One(w, e, Reading, 1, map[]));
    assert [CLOSE] == [CLOSE] + [];
    Reads(w, e, CLOSE, [], 1);
    assert w.(inbox := []) == HasShutDown();
    ReachesTrans(s0, One(w, e, Reading, 1, map[]), One(HasShutDown(), e, Waiting(0, CLOSE), 1, map[]));
  }

  /** The state the run ends in. */
  function TheEnd(): Server {
    One(HasShutDown(), Some("c"), Waiting(0, CLOSE), 1, map[])
  }

  lemma EndReached()
    ensures Reaches(Start(1, 2), TheEnd())
  {
    hide Fresh, HasMounted, HasOpened, HasShutDown;
    StartIsOne();
    Mounts();
    Opens();
    ShutsDown();
    ReachesTrans(Start(1, 2), One(HasMounted(), Some("c"), Reading, 0, map[]), One(HasOpened(), Some("c"), Reading, 1, map[]));
    ReachesTrans(Start(1, 2), One(HasOpened(), Some("c"), Reading, 1, map[]), TheEnd());
  }

  lemma StartIsOne()
    ensures Start(1, 2) == One(Fresh(), None, Reading, 0, map[])
  {
    assert Start(1, 2).sessions[0].ring == [None, None];
  }

  lemma EndIsDeadlocked()
    ensures Fit(TheEnd().sessions) && Deadlocked(TheEnd(), 0)
  {
    var x := HasShutDown();
    assert Left(x) == [Shutdown];
    assert AllCloses([x]) == SlotCloses(x) + AllCloses([]);
    assert CountCloses([Shutdown]) == CountCloses([]);
  }

  /**
   * With two slots there is a run from the start after which no run, whatever the clients and threads do, gets the receiver
   * past the shutdown: the close that would end it is in the receiver's hands.
   */
  lemma ReceiverStuckForGood()
    ensures Reaches(Start(1, 2), TheEnd()) && Wellformed(TheEnd())
    ensures forall moves :: EnabledRun(TheEnd(), moves) ==>
              var r := Run(TheEnd(), moves);
              Wellformed(r) && r.receiver == Waiting(0, CLOSE) && !Enabled(r, ReceiverMove)
  {
    EndReached();
    EndIsDeadlocked();
    StartInv(1, 2);
    var first :| EnabledRun(Start(1, 2), first) && Run(Start(1, 2), first) == TheEnd();
    RunKeeps(Start(1, 2), 2, first);
    forall moves | EnabledRun(TheEnd(), moves)
      ensures Wellformed(Run(TheEnd(), moves)) && Run(TheEnd(), moves).receiver == Waiting(0, CLOSE)
              && !Enabled(Run(TheEnd(), moves), ReceiverMove)
    {
      StuckForGood(TheEnd(), 2, 0, moves);
      HandsStay(TheEnd(), 2, moves);
    }
  }

  /** A stuck receiver keeps what it has in its hands. */
  lemma {:induction false} HandsStay(s: Server, n: nat, moves: seq<Move>)
    requires Inv(s, n) && Fit(s.sessions) && Deadlocked(s, 0) && EnabledRun(s, moves)
    ensures Run(s, moves).receiver == s.receiver
    decreases |moves|
  {
    hide SessionOk, Distinct, ViewOf, AllCloses, WorkerLocal, WorkerNeeds;
    if moves != [] {
      DeadlockStays(s, n, 0, moves[0]);
      HandsStay(Next(s, moves[0]), n, moves[1..]);
    }
  }
}
