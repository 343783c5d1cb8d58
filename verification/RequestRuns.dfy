/** The theorems about the request server: what holds in every state of every run. */
module RequestRuns {
  import opened Options
  import opened RequestRing
  import opened SessionTable
  import opened RequestServer
  import opened RequestInvariant

  /* ----- every step keeps the invariant ----- */

  /** Session i and its view change; the others, and their views, do not, but for the server being closed. */
  lemma OneSession(s: Server, r: Server, n: nat, i: nat)
    requires Inv(s, n) && i < |s.sessions| && |r.sessions| == |s.sessions| && |r.table| == |s.table|
    requires forall j :: 0 <= j < |s.sessions| && j != i ==> r.sessions[j] == s.sessions[j]
    requires forall j :: 0 <= j < |s.sessions| && j != i ==>
               ViewOf(r, j) == ViewOf(s, j) || ViewOf(r, j) == ViewOf(s, j).(open := false)
    requires SessionOk(r.sessions[i], n, ViewOf(r, i))
    ensures forall j {:trigger r.sessions[j]} :: 0 <= j < |r.sessions| ==> SessionOk(r.sessions[j], n, ViewOf(r, j))
  {
    hide SessionOk, ViewOf, Distinct, MainOk;
    forall j {:trigger r.sessions[j]} | 0 <= j < |r.sessions| ensures SessionOk(r.sessions[j], n, ViewOf(r, j)) {
      if j != i {
        assert SessionOk(s.sessions[j], n, ViewOf(s, j));
        CloseKeeps(s.sessions[j], n, ViewOf(s, j));
      }
    }
  }

  /** The counters stay within the ring. */
  lemma SessionsFit(r: Server, n: nat)
    requires |r.table| == |r.sessions|
    requires forall j {:trigger r.sessions[j]} :: 0 <= j < |r.sessions| ==> SessionOk(r.sessions[j], n, ViewOf(r, j))
    ensures forall j :: 0 <= j < |r.sessions| ==> r.sessions[j].producer < |r.sessions[j].ring| && r.sessions[j].counter < |r.sessions[j].ring|
  {
    hide Holds, CounterOk, WorkerOk, LockOk, SleepOk, ClientOk, Pending, ViewOf;
  }

  lemma ClientMoveKeeps(s: Server, n: nat, i: nat, req: Req)
    requires Inv(s, n) && Enabled(s, Send(i, req))
    ensures Inv(Next(s, Send(i, req)), n)
  {
    hide SessionOk, Sent, Distinct;
    var r := Next(s, Send(i, req));
    var x := s.sessions[i];
    SendKeeps(x, n, ViewOf(s, i), req);
    OneSession(s, r, n, i);
    SessionsFit(r, n);
  }

  /** A step that touches no session. */
  lemma QuietKeeps(s: Server, n: nat, m: Move)
    requires Inv(s, n) && Enabled(s, m) && (m.Take? || m.ReadMount? || m.WakeMain?)
    ensures Inv(Next(s, m), n)
  {
    hide SessionOk, Distinct;
    SameSessions(s, Next(s, m), n);
  }

  lemma AddingKeeps(s: Server, n: nat)
    requires Inv(s, n) && Enabled(s, ReceiverMove) && s.receiver.Adding?
    ensures Inv(Next(s, ReceiverMove), n)
  {
    hide SessionOk, Distinct;
    var r := Next(s, ReceiverMove);
    var path := s.receiver.path;
    var i := SessionFor(s.table, path);
    if i != -1 {
      AddedDistinct(s.table, path);
      MountKeeps(s.sessions[i], n, ViewOf(s, i), path);
      OneSession(s, r, n, i);
      SessionsFit(r, n);
    } else {
      SameSessions(s, r, n);
    }
  }

  lemma ReadRequestKeeps(s: Server, n: nat, i: nat)
    requires Inv(s, n) && Enabled(s, ReadRequest(i))
    ensures Inv(Next(s, ReadRequest(i)), n)
  {
    hide SessionOk, Distinct;
    var r := Next(s, ReadRequest(i));
    TakeKeeps(s.sessions[i], n, ViewOf(s, i));
    OneSession(s, r, n, i);
    SessionsFit(r, n);
  }

  lemma ReceiverKeeps(s: Server, n: nat)
    requires Inv(s, n) && Enabled(s, ReceiverMove) && !s.receiver.Adding?
    ensures Inv(Next(s, ReceiverMove), n)
  {
    hide SessionOk, Distinct, Stored;
    var r := Next(s, ReceiverMove);
    var i := s.receiver.i;
    var x := s.sessions[i];
    if s.receiver.Storing? {
      StoreSlot(x, n, ViewOf(s, i), s.receiver.req);
    } else if s.receiver.Signalling? {
      SignalKeeps(x, n, ViewOf(s, i));
    } else {
      LockKeeps(x, n, ViewOf(s, i), ByReceiver);
    }
    OneSession(s, r, n, i);
    SessionsFit(r, n);
  }

  /** The lock of a session changing hands between the receiver or main and nobody. */
  lemma LockKeeps(x: Session, n: nat, v: View, who: Lock)
    requires SessionOk(x, n, v) && (who.ByReceiver? || who.ByMain?)
    ensures x.lock.Free? && who.ByReceiver? ==> SessionOk(x.(lock := who), n, v.(receiverHolds := true))
    ensures x.lock.Free? && who.ByMain? ==> SessionOk(x.(lock := who), n, v.(mainHolds := true))
    ensures v.receiverHolds && !v.signalling ==> SessionOk(x.(lock := Free), n, v.(receiverHolds := false))
    ensures v.mainHolds ==> SessionOk(x.(lock := Free), n, v.(mainHolds := false))
  {
    hide Holds, Slot;
    assert Pending(x.(lock := who), v.hand) == Pending(x, v.hand);
    assert Pending(x.(lock := Free), v.hand) == Pending(x, v.hand);
  }

  /** What the worker's step is to its own session: an unmount takes the entry away. */
  function AfterWork(x: Session, v: View): View
    requires x.counter < |x.ring|
  {
    if x.worker.Serving? && At(x) == Some(Unmount) then v.(entry := None) else v
  }

  lemma LocalKeeps(x: Session, n: nat, v: View, files: nat)
    requires SessionOk(x, n, v) && x.counter < |x.ring| && !x.worker.Asleep? && !x.worker.Exited?
    requires x.worker.Locking? || x.worker.Woken? ==> x.lock.Free?
    ensures SessionOk(WorkerLocal(x, v.open, files), n, AfterWork(x, v))
    ensures SessionOk(WorkerLocal(x, v.open, files), n, AfterWork(x, v).(open := false))
  {
    hide SessionOk, WorkerLocal, Served, Emptied;
    if x.worker.Serving? && At(x) == Some(Unmount) {
      UnmountKeeps(x, n, v, files);
    } else if Acts(x) {
      ActsKeeps(x, n, v, files);
    } else if x.worker.Serving? {
      ServeKeeps(x, n, v, files);
    } else if x.worker.Answered? {
      EmptyKeeps(x, n, v);
      AnsweredLocal(x, v.open, files);
    } else if x.worker.Counting? {
      CountKeeps(x, n, v, files);
    } else {
      WorkerKeeps(x, n, v, files);
    }
    CloseKeeps(WorkerLocal(x, v.open, files), n, AfterWork(x, v));
  }

  lemma WorkerMoveKeeps(s: Server, n: nat, i: nat, ok: bool)
    requires Inv(s, n) && Enabled(s, WorkerMove(i, ok))
    ensures Inv(Next(s, WorkerMove(i, ok)), n)
  {
    hide SessionOk, WorkerLocal, Distinct, ViewOf, AfterWork, SessionFor, Apply;
    var r := Next(s, WorkerMove(i, ok));
    WorkerSlot(s, n, i);
    WorkerViews(s, i, ok);
    LocalKeeps(s.sessions[i], n, ViewOf(s, i), s.files);
    LeaveDistinct(s.table, i);
    OneSession(s, r, n, i);
    SessionsFit(r, n);
  }

  lemma WorkerViews(s: Server, i: nat, ok: bool)
    requires Wellformed(s) && Enabled(s, WorkerMove(i, ok))
    ensures var r := Next(s, WorkerMove(i, ok));
            var v := AfterWork(s.sessions[i], ViewOf(s, i));
            && |r.table| == |s.table| && |r.sessions| == |s.sessions|
            && ViewOf(s, i).open == s.open
            && (ViewOf(r, i) == v || ViewOf(r, i) == v.(open := false))
            && forall j :: 0 <= j < |s.sessions| && j != i ==> ViewOf(r, j) == ViewOf(s, j) || ViewOf(r, j) == ViewOf(s, j).(open := false)
  {
    hide WorkerLocal, SessionFor, ViewOf, AfterWork, WorkerNext;
    WorkerLeaves(s, i, ok);
    var r := Next(s, WorkerMove(i, ok));
    SameView(s, r, i);
    forall j | 0 <= j < |s.sessions| && j != i ensures ViewOf(r, j) == ViewOf(s, j) || ViewOf(r, j) == ViewOf(s, j).(open := false) {
      SameView(s, r, j);
    }
    LeftView(s, i);
  }

  /** What a worker's step leaves alone. */
  lemma WorkerLeaves(s: Server, i: nat, ok: bool)
    requires Wellformed(s) && Enabled(s, WorkerMove(i, ok))
    ensures var r := Next(s, WorkerMove(i, ok));
            && r.receiver == s.receiver && (r.open == s.open || !r.open)
            && (r.main == s.main || (s.main.Sleeping? && r.main.Roused?)) && |r.sessions| == |s.sessions|
            && r.table == if s.sessions[i].worker.Serving? && At(s.sessions[i]) == Some(Unmount) then s.table[i := None] else s.table
  {
    hide WorkerLocal, SessionFor;
  }

  lemma SameView(s: Server, r: Server, j: nat)
    requires j < |s.table| == |r.table| && r.receiver == s.receiver && (r.open == s.open || !r.open)
    requires r.main == s.main || (s.main.Sleeping? && r.main.Roused?)
    ensures ViewOf(r, j) == ViewOf(s, j).(entry := r.table[j]) || ViewOf(r, j) == ViewOf(s, j).(entry := r.table[j], open := false)
    ensures ViewOf(s, j).open == s.open && ViewOf(s, j).entry == s.table[j]
  {
    hide Hand;
  }

  lemma LeftView(s: Server, i: nat)
    requires Wellformed(s) && i < |s.sessions|
    ensures AfterWork(s.sessions[i], ViewOf(s, i)) ==
            if s.sessions[i].worker.Serving? && At(s.sessions[i]) == Some(Unmount) then ViewOf(s, i).(entry := None) else ViewOf(s, i)
  {
    hide ViewOf;
  }

  lemma LeaveDistinct(table: Table, i: nat)
    requires Distinct(table)
    ensures Distinct(Apply(table, Leave(i)))
  {
  }

  lemma AnsweredLocal(x: Session, open: bool, files: nat)
    requires x.counter < |x.ring| && x.worker.Answered?
    ensures WorkerLocal(x, open, files) == Emptied(x)
  {
  }

  lemma WorkerSlot(s: Server, n: nat, i: nat)
    requires Inv(s, n) && i < |s.sessions|
    ensures s.sessions[i].counter < |s.sessions[i].ring| && SessionOk(s.sessions[i], n, ViewOf(s, i))
  {
    hide SessionOk;
  }

  /** The steps of main that touch a session. */
  lemma DestroyKeeps(s: Server, n: nat)
    requires Inv(s, n) && Enabled(s, MainMove) && s.main.Destroying? && s.main.i < |s.sessions|
    ensures Inv(Next(s, MainMove), n)
  {
    hide SessionOk, Distinct;
    LockKeeps(s.sessions[s.main.i], n, ViewOf(s, s.main.i), ByMain);
    OneSession(s, Next(s, MainMove), n, s.main.i);
    SessionsFit(Next(s, MainMove), n);
  }

  lemma HoldingKeeps(s: Server, n: nat)
    requires Inv(s, n) && Enabled(s, MainMove) && s.main.Holding?
    ensures Inv(Next(s, MainMove), n)
  {
    hide SessionOk, Distinct;
    PassKeeps(s.sessions[s.main.i], n, ViewOf(s, s.main.i));
    OneSession(s, Next(s, MainMove), n, s.main.i);
    SessionsFit(Next(s, MainMove), n);
  }

  lemma SignalledKeeps(s: Server, n: nat)
    requires Inv(s, n) && Enabled(s, MainMove) && s.main.Signalled?
    ensures Inv(Next(s, MainMove), n)
  {
    hide SessionOk, Distinct;
    LockKeeps(s.sessions[s.main.i], n, ViewOf(s, s.main.i), ByMain);
    OneSession(s, Next(s, MainMove), n, s.main.i);
    SessionsFit(Next(s, MainMove), n);
  }

  lemma MainKeeps(s: Server, n: nat)
    requires Inv(s, n) && Enabled(s, MainMove)
    ensures Inv(Next(s, MainMove), n)
  {
    hide SessionOk, Distinct;
    if s.main.Destroying? && s.main.i < |s.sessions| {
      DestroyKeeps(s, n);
    } else if s.main.Holding? {
      HoldingKeeps(s, n);
    } else if s.main.Signalled? {
      SignalledKeeps(s, n);
    } else {
      SameSessions(s, Next(s, MainMove), n);
    }
  }

  lemma SameSessions(s: Server, r: Server, n: nat)
    requires Inv(s, n) && r.sessions == s.sessions && r.table == s.table
    requires forall j :: 0 <= j < |s.sessions| ==> ViewOf(r, j) == ViewOf(s, j)
    ensures forall j {:trigger r.sessions[j]} :: 0 <= j < |r.sessions| ==> SessionOk(r.sessions[j], n, ViewOf(r, j))
  {
    hide SessionOk, ViewOf;
  }

  /** After main has signalled a session whose lock it holds, the worker is not asleep, nor about to be. */
  lemma PassKeeps(x: Session, n: nat, v: View)
    requires SessionOk(x, n, v) && v.mainHolds && !v.open
    ensures SessionOk(Signal(x), n, v.(mainPast := true))
  {
    hide Holds, Slot;
    assert Pending(Signal(x), v.hand) == Pending(x, v.hand);
  }

  lemma MoveKeeps(s: Server, n: nat, m: Move)
    requires Inv(s, n) && Enabled(s, m)
    ensures Inv(Next(s, m), n)
  {
    hide SessionOk, Distinct, ViewOf;
    match m
    case Send(i, req) => ClientMoveKeeps(s, n, i, req);
    case ReadRequest(i) => ReadRequestKeeps(s, n, i);
    case ReceiverMove =>
      if s.receiver.Adding? {
        AddingKeeps(s, n);
      } else {
        ReceiverKeeps(s, n);
      }
    case WorkerMove(i, ok) => WorkerMoveKeeps(s, n, i, ok);
    case WakeWorker(i) => WakeKeeps(s, n, i);
    case MainMove => MainKeeps(s, n);
    case _ => QuietKeeps(s, n, m);
  }

  lemma WakeKeeps(s: Server, n: nat, i: nat)
    requires Inv(s, n) && Enabled(s, WakeWorker(i))
    ensures Inv(Next(s, WakeWorker(i)), n)
  {
    hide SessionOk, Distinct;
    var r := Next(s, WakeWorker(i));
    SignalKeeps(s.sessions[i], n, ViewOf(s, i));
    OneSession(s, r, n, i);
    SessionsFit(r, n);
  }

  /* ----- runs ----- */

  predicate EnabledRun(s: Server, moves: seq<Move>)
    decreases |moves|
  {
    moves == [] || (Wellformed(s) && Enabled(s, moves[0]) && EnabledRun(Next(s, moves[0]), moves[1..]))
  }

  function Run(s: Server, moves: seq<Move>): Server
    requires EnabledRun(s, moves)
    decreases |moves|
  {
    if moves == [] then s else Run(Next(s, moves[0]), moves[1..])
  }

  lemma {:induction false} RunKeeps(s: Server, n: nat, moves: seq<Move>)
    requires Inv(s, n) && EnabledRun(s, moves)
    ensures Inv(Run(s, moves), n)
    decreases |moves|
  {
    hide Next, Inv;
    if moves != [] {
      MoveKeeps(s, n, moves[0]);
      RunKeeps(Next(s, moves[0]), n, moves[1..]);
    }
  }

  lemma StartInv(sessions: nat, n: nat)
    requires n >= 1
    ensures Inv(Start(sessions, n), n)
  {
    var s := Start(sessions, n);
    forall i | 0 <= i < sessions ensures SessionOk(s.sessions[i], n, ViewOf(s, i)) {
      IdleSession(n);
    }
    assert Wellformed(s) && Distinct(s.table);
  }

  lemma IdleSession(n: nat)
    requires n >= 1
    ensures SessionOk(Session(seq(n, _ => None), 0, 0, Free, Testing, Nobody, 0, [], [], []), n, View(None, true, [], false, false, false, false))
  {
    SlotUnique(0, 0, n);
    var x := Session(seq(n, _ => None), 0, 0, Free, Testing, Nobody, 0, [], [], []);
    assert Pending(x, []) == [];
  }

  /* ----- the slots ----- */

  /** No occupied slot is ever overwritten: where the receiver is about to store a request, there is none. */
  lemma NeverOverwrites(s: Server, n: nat, moves: seq<Move>)
    requires Inv(s, n) && EnabledRun(s, moves) && Run(s, moves).receiver.Storing?
    ensures var r := Run(s, moves);
            Inv(r, n) && r.sessions[r.receiver.i].ring[r.sessions[r.receiver.i].producer].None?
  {
    hide SessionOk, Next, Distinct, Enabled;
    RunKeeps(s, n, moves);
    var r := Run(s, moves);
    RoomToStore(r.sessions[r.receiver.i], n, ViewOf(r, r.receiver.i));
  }

  /**
   * In every state the requests received for a session are those processed followed by those in its slots, in order, over
   * any number of clients that use the session in turn.  The producer's counter is the number received mod n, the
   * worker's is the number processed mod n while the server is open, and the difference is from 0 to n.
   */
  lemma ReceivedInOrder(s: Server, n: nat, moves: seq<Move>, i: nat)
    requires Inv(s, n) && EnabledRun(s, moves) && i < |Run(s, moves).sessions|
    ensures var r := Run(s, moves);
            var x := r.sessions[i];
            && |x.ring| == n >= 1
            && x.received == x.processed + Unwound(x.ring, Slot(|x.processed|, n), n)
            && 0 <= |x.received| - |x.processed| <= n
            && x.producer == |x.received| % n
            && (r.open && !x.worker.Cleared? && !x.worker.Counting? ==> x.counter == |x.processed| % n)
            && (r.open && (x.worker.Cleared? || x.worker.Counting?) ==> Advance(x.counter, n) == |x.processed| % n)
  {
    hide Next, Distinct, Enabled, LockOk, SleepOk, WorkerOk, ClientOk, Pending, Holds;
    RunKeeps(s, n, moves);
    var r := Run(s, moves);
    var x := r.sessions[i];
    assert SessionOk(x, n, ViewOf(r, i));
    RingInOrder(x.ring, x.received, x.processed);
    EmptyBefore(x, n);
  }

  /* ----- wakeups ----- */

  /** No wakeup is lost: with its lock free, a worker asleep has nothing to do. */
  lemma NoLostWakeup(s: Server, n: nat, moves: seq<Move>, i: nat)
    requires Inv(s, n) && EnabledRun(s, moves) && i < |Run(s, moves).sessions| && Run(s, moves).sessions[i].lock.Free?
    ensures var r := Run(s, moves);
            r.sessions[i].worker.Asleep? ==> r.sessions[i].received == r.sessions[i].processed
  {
    hide Next, Distinct, ClientOk, Pending, Holds, Slot;
    RunKeeps(s, n, moves);
    var r := Run(s, moves);
    var x := r.sessions[i];
    assert SessionOk(x, n, ViewOf(r, i));
    EmptyBefore(x, n);
    AllProcessed(x, n);
  }

  lemma AllProcessed(x: Session, n: nat)
    requires RingOk(x, n)
    ensures |x.processed| == |x.received| ==> x.processed == x.received
  {
  }

  /** Main is not left asleep once the server is closed. */
  lemma MainNotAsleep(s: Server, n: nat, moves: seq<Move>)
    requires Inv(s, n) && EnabledRun(s, moves)
    ensures !Run(s, moves).open ==> !Run(s, moves).main.Sleeping?
  {
    hide SessionOk, Next, Distinct, Enabled;
    RunKeeps(s, n, moves);
  }

  /* ----- the end ----- */

  /** The server closes for good, and only on a shutdown request whose tfs_destroy_after_all_closed returned 0. */
  lemma ClosedByShutdown(s: Server, n: nat, m: Move)
    requires Inv(s, n) && Enabled(s, m)
    ensures var r := Next(s, m);
            && (!s.open ==> !r.open)
            && (s.open ==> (!r.open <==> m.WorkerMove? && m.ok && s.sessions[m.i].worker.Closing?))
    ensures m.WorkerMove? && s.sessions[m.i].worker.Closing? ==>
              s.sessions[m.i].counter < |s.sessions[m.i].ring| && At(s.sessions[m.i]) == Some(Shutdown)
  {
    hide Distinct, Holds, Slot, CounterOk, LockOk, SleepOk, ClientOk, Pending, ViewOf, WorkerLocal;
    if m.WorkerMove? {
      assert SessionOk(s.sessions[m.i], n, ViewOf(s, m.i));
    }
  }

  /* ----- sessions ----- */

  /** What comes first in a session says who has it. */
  lemma FirstPending(client: Client, entry: Option<string>, p: seq<Req>)
    requires ClientOk(client, entry, p) && p != []
    ensures p[0].Mount? ==> client.Mounting? && entry == Some(p[0].path)
    ensures client.Mounting? ==> p[0].Mount?
    ensures p[0].Unmount? ==> client.Unmounting?
    ensures !client.Nobody?
  {
    if client.Unmounting? && |p| > 1 {
      assert p[..|p| - 1][0] == p[0];
    }
  }

  /**
   * A mount is refused if and only if its path has a session or no session is free; any other gets the first free one and
   * nothing else of the table or of the other sessions changes.
   */
  lemma MountExact(s: Server, path: string)
    requires Wellformed(s) && Enabled(s, ReceiverMove) && s.receiver == Adding(path)
    ensures var r := Next(s, ReceiverMove);
            if Some(path) in s.table || None !in s.table then
              r.table == s.table && r.sessions == s.sessions && r.receiver == Reading
            else
              exists i: nat {:trigger s.table[i]} :: i < |s.table| && s.table[i].None? && (forall j :: 0 <= j < i ==> s.table[j].Some?)
                && r.table == s.table[i := Some(path)] && r.receiver == Waiting(i, Mount(path))
                && r.sessions == s.sessions[i := s.sessions[i].(client := Mounting, unanswered := 1)]
  {
    var i := SessionFor(s.table, path);
  }

  /** Live sessions have distinct paths, and a mount is answered on the path of the client that sent it. */
  lemma MountsAnswered(s: Server, n: nat, moves: seq<Move>, i: nat)
    requires Inv(s, n) && EnabledRun(s, moves) && i < |Run(s, moves).sessions|
    ensures var r := Run(s, moves);
            var x := r.sessions[i];
            && Inv(r, n) && Distinct(r.table) && x.counter < |x.ring|
            && (x.worker.Serving? && At(x).Some? && At(x).value.Mount? ==> r.table[i] == Some(At(x).value.path))
  {
    hide Next, Holds, Slot, LockOk, SleepOk, ClientOk, Pending;
    RunKeeps(s, n, moves);
    var r := Run(s, moves);
    var x := r.sessions[i];
    assert SessionOk(x, n, ViewOf(r, i));
    if x.worker.Serving? && At(x).Some? && At(x).value.Mount? {
      ActedOn(x, n, ViewOf(r, i), 0);
      assert Pending(x, ViewOf(r, i).hand)[0] == At(x).value;
      FirstPending(x.client, ViewOf(r, i).entry, Pending(x, ViewOf(r, i).hand));
    }
  }
}
