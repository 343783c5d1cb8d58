/**
 * The request server as a machine (tfs_server/fs/tfs_server.c): clients, one receiver, one worker for each session and the
 * main thread that ends them.  A step is one access to shared state under the lock that guards it, or one local action.
 * The number of sessions and of slots for each session are parameters; the source has 20 and 1.
 */
module RequestServer {
  import opened Options
  import opened RequestRing
  import opened SessionTable

  /** What a call does to the number of open files if it succeeds. */
  datatype FileOp = OpenFile | CloseFile | UseFile

  /** What a slot holds; Call stands for open, close, write and read, told apart by what. */
  datatype Req = Mount(path: string) | Unmount | Call(op: FileOp, what: int) | Shutdown

  datatype Lock = Free | ByReceiver | ByWorker | ByMain

  /** The locks besides those of the sessions: server_lock, client_session_table_lock and single_global_lock. */
  datatype Guard = ServerLock | TableLock | GlobalLock

  datatype Thread = Receiver | Worker(i: nat) | Main

  /** Where requestHandler stands. */
  datatype WorkerPc =
    | Testing                  // at the test of the outer loop
    | Locking                  // waiting for the lock of its session
    | Looking                  // about to test the slot
    | Checking                 // the slot was empty: about to test whether the server is open
    | Dozing                   // it was open: about to wait
    | Asleep                   // in pthread_cond_wait, no signal pending
    | Woken                    // signalled, waiting for the lock
    | Serving                  // out of the inner loop
    | Operated                 // a file operation is done and not answered yet
    | Draining                 // in the wait of tfs_destroy_after_all_closed, until no file is open
    | Drained                  // out of that wait, the shutdown not answered yet
    | Removed                  // an unmount has left the table and is not answered yet
    | Closing                  // a shutdown is answered and is about to clear server_open
    | Answered                 // about to clear the slot
    | Cleared(served: bool)    // about to give back the lock
    | Counting(served: bool)   // about to advance its counter
    | Exited

  /** A session id is in nobody's hands, given to a client that does not know it yet, in use, or being given up. */
  datatype Client = Nobody | Mounting | Mounted | Unmounting

  /**
   * unanswered is the client's own count of requests without a reply; inbox holds its requests in the server's pipe.
   * received and processed are the history of the slots.
   */
  datatype Session = Session(
    ring: seq<Option<Req>>, producer: nat, counter: nat, lock: Lock, worker: WorkerPc,
    client: Client, unanswered: nat, inbox: seq<Req>, received: seq<Req>, processed: seq<Req>)

  /** Where serverPipeReader stands. */
  datatype ReceiverPc =
    | Reading
    | Adding(path: string)
    | Waiting(i: nat, req: Req)
    | Storing(i: nat, req: Req)
    | Signalling(i: nat)
    | Releasing(i: nat)

  /** Where main stands: watching server_open, or at session i of the loop of server_destroy. */
  datatype MainPc = Watching | Sleeping | Roused | Destroying(i: nat) | Holding(i: nat) | Signalled(i: nat) | Joining

  /** files is the number of open files; held says who has which of the other locks. */
  datatype Server = Server(sessions: seq<Session>, table: Table, receiver: ReceiverPc, open: bool, main: MainPc,
                           files: nat, held: map<Guard, Thread>)

  /** ok is the outcome of a file operation, or of a shutdown. */
  datatype Move =
    | Take(t: Thread)
    | Send(i: nat, req: Req)
    | ReadMount(path: string)
    | ReadRequest(i: nat)
    | ReceiverMove
    | WorkerMove(i: nat, ok: bool)
    | WakeWorker(i: nat)
    | MainMove
    | WakeMain

  predicate HoldsLock(w: WorkerPc) {
    w.Looking? || w.Checking? || w.Dozing? || w.Serving? || w.Operated? || w.Draining? || w.Drained?
    || w.Removed? || w.Closing? || w.Answered? || w.Cleared?
  }

  predicate Wellformed(s: Server) {
    && |s.table| == |s.sessions|
    && (forall i :: 0 <= i < |s.sessions| ==>
          var x := s.sessions[i];
          x.producer < |x.ring| && x.counter < |x.ring|)
    && (!s.receiver.Reading? && !s.receiver.Adding? ==> s.receiver.i < |s.sessions|)
    && (s.main.Destroying? ==> s.main.i <= |s.sessions|)
    && (s.main.Holding? || s.main.Signalled? ==> s.main.i < |s.sessions|)
  }

  /* ----- the other locks ----- */

  /** The lock a worker's next step is made under: check_server_open, write_shutdown, removeClientPipe and the file operations. */
  function WorkerNeeds(x: Session): Option<Guard>
    requires x.counter < |x.ring|
  {
    match x.worker
    case Testing => Some(ServerLock)
    case Checking => Some(ServerLock)
    case Closing => Some(ServerLock)
    case Serving =>
      (match x.ring[x.counter]
       case Some(Unmount) => Some(TableLock)
       case Some(Call(_, _)) => Some(GlobalLock)
       case Some(Shutdown) => Some(GlobalLock)
       case _ => None)
    case _ => None
  }

  function Needs(s: Server, t: Thread): Option<Guard>
    requires Wellformed(s)
  {
    match t
    case Receiver => if s.receiver.Adding? then Some(TableLock) else None
    case Worker(i) => if i < |s.sessions| then WorkerNeeds(s.sessions[i]) else None
    case Main => if s.main.Watching? then Some(ServerLock) else None
  }

  /** The thread has the lock its next step is made under, if there is one. */
  predicate Ready(s: Server, t: Thread)
    requires Wellformed(s)
  {
    Needs(s, t).Some? ==> Needs(s, t).value in s.held && s.held[Needs(s, t).value] == t
  }

  /** The step of t gives back the lock it was made under; pthread_cond_wait does so too. */
  function GiveBack(s: Server, t: Thread, r: Server): Server
    requires Wellformed(s)
  {
    if Needs(s, t).Some? then r.(held := s.held - {Needs(s, t).value}) else r
  }

  predicate Enabled(s: Server, m: Move)
    requires Wellformed(s)
  {
    match m
    case Take(t) => Needs(s, t).Some? && Needs(s, t).value !in s.held
    case Send(i, req) =>
      i < |s.sessions| && s.sessions[i].client.Mounted? && s.sessions[i].unanswered < |s.sessions[i].ring| && !req.Mount?
    case ReadMount(_) => s.receiver.Reading?
    case ReadRequest(i) => s.receiver.Reading? && i < |s.sessions| && s.sessions[i].inbox != []
    case ReceiverMove =>
      !s.receiver.Reading? && (s.receiver.Waiting? ==> s.sessions[s.receiver.i].lock.Free?) && Ready(s, Receiver)
    case WorkerMove(i, _) =>
      i < |s.sessions| && !s.sessions[i].worker.Asleep? && !s.sessions[i].worker.Exited?
      && (s.sessions[i].worker.Locking? || s.sessions[i].worker.Woken? ==> s.sessions[i].lock.Free?)
      && (s.sessions[i].worker.Draining? ==> s.files == 0) && Ready(s, Worker(i))
    case WakeWorker(i) => i < |s.sessions| && s.sessions[i].worker.Asleep?
    case MainMove =>
      !s.main.Sleeping? && !s.main.Joining? && (s.main.Destroying? && s.main.i < |s.sessions| ==> s.sessions[s.main.i].lock.Free?)
      && Ready(s, Main)
    case WakeMain => s.main.Sleeping?
  }

  function With(s: Server, i: nat, x: Session): Server
    requires i < |s.sessions|
  {
    s.(sessions := s.sessions[i := x])
  }

  /** pthread_cond_signal on the condition of a session: only its worker ever waits there. */
  function Signal(x: Session): Session {
    if x.worker.Asleep? then x.(worker := Woken) else x
  }

  /* ----- clients: tecnicofs_client_api.c ----- */

  function Sent(x: Session, req: Req): Session {
    x.(inbox := x.inbox + [req], unanswered := x.unanswered + 1, client := if req.Unmount? then Unmounting else x.client)
  }

  /* ----- the receiver: read_mount to read_shutdown ----- */

  /** addClientPipe; a mount that is refused is answered with -1. */
  function MountAdded(s: Server, path: string): Server
    requires Wellformed(s)
  {
    var i := SessionFor(s.table, path);
    if i == -1 then s.(receiver := Reading)
    else With(s, i, s.sessions[i].(client := Mounting, unanswered := 1)).(table := Added(s.table, path), receiver := Waiting(i, Mount(path)))
  }

  function RequestRead(s: Server, i: nat): Server
    requires Wellformed(s) && i < |s.sessions| && s.sessions[i].inbox != []
  {
    var x := s.sessions[i];
    With(s, i, x.(inbox := x.inbox[1..])).(receiver := Waiting(i, x.inbox[0]))
  }

  function Stored(x: Session, req: Req): Session
    requires x.producer < |x.ring|
  {
    x.(ring := x.ring[x.producer := Some(req)], producer := Advance(x.producer, |x.ring|), received := x.received + [req])
  }

  function ReceiverNext(s: Server): Server
    requires Wellformed(s) && Enabled(s, ReceiverMove)
  {
    match s.receiver
    case Adding(path) => MountAdded(s, path)
    case Waiting(i, req) => With(s, i, s.sessions[i].(lock := ByReceiver)).(receiver := Storing(i, req))
    case Storing(i, req) => With(s, i, Stored(s.sessions[i], req)).(receiver := Signalling(i))
    case Signalling(i) => With(s, i, Signal(s.sessions[i])).(receiver := Releasing(i))
    case Releasing(i) => With(s, i, s.sessions[i].(lock := Free)).(receiver := Reading)
  }

  /* ----- a worker: requestHandler ----- */

  /**
   * What the worker does about the request in its slot.  A mount is answered, an unmount leaves the table first, a call
   * is carried out, and a shutdown waits while a file is open.
   */
  function Served(x: Session, files: nat): Session
    requires x.counter < |x.ring|
  {
    match x.ring[x.counter]
    case None => x.(worker := Answered)
    case Some(Mount(_)) => x.(worker := Answered, client := Mounted, unanswered := 0)
    case Some(Unmount) => x.(worker := Removed, client := Nobody, unanswered := 0)
    case Some(Call(_, _)) => x.(worker := Operated)
    case Some(Shutdown) => x.(worker := if files == 0 then Drained else Draining)
  }

  /** The reply to a call or a shutdown. */
  function Replied(x: Session, now: WorkerPc): Session {
    x.(worker := now, unanswered := if x.unanswered > 0 then x.unanswered - 1 else 0)
  }

  function Emptied(x: Session): Session
    requires x.counter < |x.ring|
  {
    match x.ring[x.counter]
    case None => x.(worker := Cleared(false))
    case Some(req) => x.(worker := Cleared(true), ring := x.ring[x.counter := None], processed := x.processed + [req])
  }

  /** The worker's step on its session; open is what check_server_open returns, files the number of open files. */
  function WorkerLocal(x: Session, open: bool, files: nat): Session
    requires x.counter < |x.ring|
  {
    match x.worker
    case Testing => x.(worker := if open then Locking else Exited)
    case Locking => x.(worker := Looking, lock := ByWorker)
    case Looking => x.(worker := if x.ring[x.counter].Some? then Serving else Checking)
    case Checking => x.(worker := if open then Dozing else Serving)
    case Dozing => x.(worker := Asleep, lock := Free)
    case Woken => x.(worker := Looking, lock := ByWorker)
    case Serving => Served(x, files)
    case Operated => Replied(x, Answered)
    case Draining => x.(worker := Serving)
    case Drained => Replied(x, Closing)
    case Removed => x.(worker := Answered)
    case Closing => x.(worker := Answered)
    case Answered => Emptied(x)
    case Cleared(served) => x.(worker := Counting(served), lock := Free)
    case Counting(_) => x.(worker := Testing, counter := Advance(x.counter, |x.ring|))
    case _ => x
  }

  /** The number of open files after a call. */
  function FilesAfter(files: nat, req: Option<Req>, ok: bool): nat {
    match req
    case Some(Call(OpenFile, _)) => if ok then files + 1 else files
    case Some(Call(CloseFile, _)) => if ok && files > 0 then files - 1 else files
    case _ => files
  }

  /** A shutdown whose tfs_destroy_after_all_closed returned 0 clears server_open and signals main. */
  function WorkerNext(s: Server, i: nat, ok: bool): Server
    requires Wellformed(s) && i < |s.sessions|
  {
    var x := s.sessions[i];
    var r := With(s, i, WorkerLocal(x, s.open, s.files));
    if x.worker.Closing? && ok then r.(open := false, main := if s.main.Sleeping? then Roused else s.main)
    else if x.worker.Serving? && x.ring[x.counter] == Some(Unmount) then r.(table := Apply(s.table, Leave(i)))
    else if x.worker.Serving? then r.(files := FilesAfter(s.files, x.ring[x.counter], ok))
    else r
  }

  /* ----- main: the wait for server_open, then server_destroy ----- */

  function MainNext(s: Server): Server
    requires Wellformed(s) && Enabled(s, MainMove)
  {
    match s.main
    case Watching => s.(main := if s.open then Sleeping else Destroying(0))
    case Roused => s.(main := Watching)
    case Destroying(i) =>
      if i == |s.sessions| then s.(main := Joining)
      else With(s, i, s.sessions[i].(lock := ByMain)).(main := Holding(i))
    case Holding(i) => With(s, i, Signal(s.sessions[i])).(main := Signalled(i))
    case Signalled(i) => With(s, i, s.sessions[i].(lock := Free)).(main := Destroying(i + 1))
    case _ => s
  }

  function Next(s: Server, m: Move): Server
    requires Wellformed(s) && Enabled(s, m)
  {
    match m
    case Take(t) => s.(held := s.held[Needs(s, t).value := t])
    case Send(i, req) => With(s, i, Sent(s.sessions[i], req))
    case ReadMount(path) => s.(receiver := Adding(path))
    case ReadRequest(i) => RequestRead(s, i)
    case ReceiverMove => GiveBack(s, Receiver, ReceiverNext(s))
    case WorkerMove(i, ok) => GiveBack(s, Worker(i), WorkerNext(s, i, ok))
    case WakeWorker(i) => With(s, i, Signal(s.sessions[i]))
    case MainMove => GiveBack(s, Main, MainNext(s))
    case WakeMain => s.(main := Roused)
  }

  /** server_init, for the given numbers of sessions and slots. */
  function Start(sessions: nat, slots: nat): Server {
    var idle := Session(seq(slots, _ => None), 0, 0, Free, Testing, Nobody, 0, [], [], []);
    Server(seq(sessions, _ => idle), seq(sessions, _ => None), Reading, true, Watching, 0, map[])
  }
}
