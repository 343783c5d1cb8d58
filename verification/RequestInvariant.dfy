/** What every step of the request server keeps. */
module RequestInvariant {
  import opened Options
  import opened RequestRing
  import opened SessionTable
  import opened RequestServer

  /** What the rest of the server is to a session: its table entry, server_open, the receiver and main. */
  datatype View = View(entry: Option<string>, open: bool, hand: seq<Req>, receiverHolds: bool, signalling: bool,
                       mainHolds: bool, mainPast: bool)

  /** The request the receiver has read for session i and not stored yet. */
  function Hand(r: ReceiverPc, i: nat): seq<Req> {
    if (r.Waiting? || r.Storing?) && r.i == i then [r.req] else []
  }

  /** server_destroy has signalled session i. */
  predicate Past(m: MainPc, i: nat) {
    m.Joining? || (m.Signalled? && i <= m.i) || ((m.Destroying? || m.Holding?) && i < m.i)
  }

  function ViewOf(s: Server, i: nat): View
    requires i < |s.table|
  {
    View(s.table[i], s.open, Hand(s.receiver, i),
         (s.receiver.Storing? || s.receiver.Signalling? || s.receiver.Releasing?) && s.receiver.i == i,
         s.receiver.Signalling? && s.receiver.i == i,
         (s.main.Holding? || s.main.Signalled?) && s.main.i == i,
         Past(s.main, i))
  }

  ghost predicate RingOk(x: Session, n: nat) {
    |x.ring| == n >= 1 && Holds(x.ring, x.received, x.processed) && x.producer == Slot(|x.received|, n) && x.counter < n
  }

  /** The slot at the worker's counter. */
  function At(x: Session): Option<Req>
    requires x.counter < |x.ring|
  {
    x.ring[x.counter]
  }

  /** The worker's counter is the number of requests processed, as a slot; it runs ahead only on the way out of a closed server. */
  ghost predicate CounterOk(x: Session, n: nat, open: bool)
    requires RingOk(x, n)
  {
    match x.worker
    case Cleared(served) => CountedOk(x, n, open, served)
    case Counting(served) => CountedOk(x, n, open, served)
    case Testing => x.counter == Slot(|x.processed|, n) || !open
    case Exited => !open
    case _ => x.counter == Slot(|x.processed|, n)
  }

  ghost predicate CountedOk(x: Session, n: nat, open: bool, served: bool)
    requires RingOk(x, n)
  {
    if served then Advance(x.counter, n) == Slot(|x.processed|, n) else !open
  }

  predicate WorkerOk(x: Session, open: bool)
    requires x.counter < |x.ring|
  {
    match x.worker
    case Checking => At(x).None?
    case Dozing => At(x).None?
    case Serving => At(x).Some? || !open
    case Operated => At(x).Some? && At(x).value.Call?
    case Draining => At(x) == Some(Shutdown)
    case Drained => At(x) == Some(Shutdown)
    case Removed => At(x) == Some(Unmount)
    case Closing => At(x) == Some(Shutdown)
    case Answered => At(x).Some? || !open
    case _ => true
  }

  predicate LockOk(x: Session, v: View) {
    && (x.lock.ByWorker? <==> HoldsLock(x.worker))
    && (x.lock.ByReceiver? <==> v.receiverHolds)
    && (x.lock.ByMain? <==> v.mainHolds)
    && (v.signalling ==> v.receiverHolds)
  }

  /** A worker asleep has an empty slot, or a signal is on its way; and never sleeps once main has passed it. */
  predicate SleepOk(x: Session, v: View)
    requires x.counter < |x.ring|
  {
    && (x.worker.Asleep? ==> At(x).None? || v.signalling)
    && (v.mainPast ==> !v.open && !x.worker.Asleep? && !x.worker.Dozing?)
  }

  /** The worker has done what its slot asks for, and the slot is still to be cleared. */
  predicate Done(x: Session)
    requires x.counter < |x.ring|
  {
    (x.worker.Removed? || x.worker.Closing? || x.worker.Answered?) && At(x).Some?
  }

  function Tail<T>(s: seq<T>, k: nat): seq<T> {
    if k <= |s| then s[k..] else []
  }

  /** The requests of a session that no one has acted on: in slots, in the receiver's hands, in the pipe. */
  function Pending(x: Session, hand: seq<Req>): seq<Req>
    requires x.counter < |x.ring|
  {
    Tail(x.received, |x.processed| + if Done(x) then 1 else 0) + hand + x.inbox
  }

  predicate Plain(p: seq<Req>) {
    forall k :: 0 <= k < |p| ==> !p[k].Mount? && !p[k].Unmount?
  }

  /** Who has the session, by what is pending: one mount, plain requests, or plain requests and an unmount. */
  predicate ClientOk(client: Client, entry: Option<string>, p: seq<Req>) {
    match client
    case Nobody => p == [] && entry.None?
    case Mounting => |p| == 1 && p[0].Mount? && entry == Some(p[0].path)
    case Mounted => entry.Some? && Plain(p)
    case Unmounting => entry.Some? && p != [] && p[|p| - 1].Unmount? && Plain(p[..|p| - 1])
  }

  ghost predicate SessionOk(x: Session, n: nat, v: View) {
    && RingOk(x, n) && CounterOk(x, n, v.open) && WorkerOk(x, v.open) && LockOk(x, v) && SleepOk(x, v)
    && ClientOk(x.client, v.entry, Pending(x, v.hand)) && x.unanswered == |Pending(x, v.hand)| <= n
  }

  predicate MainOk(s: Server) {
    (s.main.Sleeping? ==> s.open) && (s.main.Destroying? || s.main.Holding? || s.main.Signalled? || s.main.Joining? ==> !s.open)
  }

  ghost predicate Inv(s: Server, n: nat) {
    && Wellformed(s) && Distinct(s.table) && MainOk(s)
    && (forall i {:trigger s.sessions[i]} :: 0 <= i < |s.sessions| ==> SessionOk(s.sessions[i], n, ViewOf(s, i)))
  }

  /* ----- one session, step by step ----- */

  /** Closing the server breaks nothing. */
  lemma CloseKeeps(x: Session, n: nat, v: View)
    requires SessionOk(x, n, v)
    ensures SessionOk(x, n, v.(open := false))
  {
    hide Holds, Slot;
  }

  lemma SendKeeps(x: Session, n: nat, v: View, req: Req)
    requires SessionOk(x, n, v) && x.client.Mounted? && x.unanswered < |x.ring| && !req.Mount?
    ensures SessionOk(Sent(x, req), n, v)
  {
    hide Holds, Slot, ClientOk, Pending;
    SentPending(x, v.hand, req);
    SentClient(v.entry, Pending(x, v.hand), req);
  }

  lemma SentPending(x: Session, hand: seq<Req>, req: Req)
    requires x.counter < |x.ring|
    ensures Pending(Sent(x, req), hand) == Pending(x, hand) + [req]
  {
  }

  lemma SentClient(entry: Option<string>, p: seq<Req>, req: Req)
    requires ClientOk(Mounted, entry, p) && !req.Mount?
    ensures ClientOk(if req.Unmount? then Unmounting else Mounted, entry, p + [req])
  {
    assert (p + [req])[..|p|] == p;
  }

  /** A mount takes a session nobody has. */
  lemma MountKeeps(x: Session, n: nat, v: View, path: string)
    requires SessionOk(x, n, v) && v.entry.None? && v.hand == []
    ensures SessionOk(x.(client := Mounting, unanswered := 1), n, v.(entry := Some(path), hand := [Mount(path)]))
  {
    hide Holds, Slot;
    var after := x.(client := Mounting, unanswered := 1);
    assert Pending(x, []) == [];
    assert Pending(after, [Mount(path)]) == [Mount(path)];
  }

  lemma TakeKeeps(x: Session, n: nat, v: View)
    requires SessionOk(x, n, v) && x.inbox != [] && v.hand == []
    ensures SessionOk(x.(inbox := x.inbox[1..]), n, v.(hand := [x.inbox[0]]))
  {
    hide Holds, Slot;
    var after := x.(inbox := x.inbox[1..]);
    assert Pending(after, [x.inbox[0]]) == Pending(x, []);
  }

  /** With the lock in the receiver's hands and a request still to store, the slot at the producer counter is free. */
  lemma RoomToStore(x: Session, n: nat, v: View)
    requires SessionOk(x, n, v) && v.receiverHolds && |v.hand| == 1
    ensures |x.received| - |x.processed| < n && x.ring[x.producer].None?
  {
    hide Slot;
    assert !Done(x);
    assert Pending(x, v.hand) == x.received[|x.processed|..] + v.hand + x.inbox;
  }

  lemma StoreSlot(x: Session, n: nat, v: View, req: Req)
    requires SessionOk(x, n, v) && v.receiverHolds && v.hand == [req] && !v.signalling
    ensures SessionOk(Stored(x, req), n, v.(hand := [], signalling := true))
  {
    hide Slot, Holds;
    RoomToStore(x, n, v);
    StoreKeeps(x.ring, x.received, x.processed, req);
    AdvanceSlot(|x.received|, n);
    EmptyBefore(x, n);
    var after := Stored(x, req);
    assert after.received[|x.processed|..] == x.received[|x.processed|..] + [req];
    assert Pending(after, []) == Pending(x, [req]);
  }

  lemma EmptyBefore(x: Session, n: nat)
    requires RingOk(x, n)
    ensures |x.processed| <= |x.received| <= |x.processed| + n
    ensures x.counter == Slot(|x.processed|, n) ==> (At(x).None? <==> |x.processed| == |x.received|)
    ensures x.counter == Slot(|x.processed|, n) && At(x).Some? ==> At(x) == Some(x.received[|x.processed|])
  {
    hide Slot;
  }

  /** A step of the worker that leaves the slots alone. */
  predicate Moves(w: WorkerPc) {
    w.Testing? || w.Looking? || w.Checking? || w.Locking? || w.Woken? || w.Dozing? || w.Removed? || w.Closing? || w.Cleared?
    || w.Draining?
  }

  lemma MovedPending(x: Session, n: nat, v: View, files: nat)
    requires RingOk(x, n) && WorkerOk(x, v.open) && Moves(x.worker)
    ensures var after := WorkerLocal(x, v.open, files);
            RingOk(after, n) && Pending(after, v.hand) == Pending(x, v.hand) && WorkerOk(after, v.open) && At(after) == At(x)
  {
    hide Slot, Holds;
  }

  lemma MovedCounter(x: Session, n: nat, v: View, files: nat)
    requires RingOk(x, n) && CounterOk(x, n, v.open) && Moves(x.worker)
    ensures RingOk(WorkerLocal(x, v.open, files), n) && CounterOk(WorkerLocal(x, v.open, files), n, v.open)
  {
    hide Slot, Holds, At;
  }

  lemma MovedLock(x: Session, v: View, files: nat)
    requires x.counter < |x.ring| && WorkerOk(x, v.open) && LockOk(x, v) && SleepOk(x, v) && Moves(x.worker)
    requires x.worker.Locking? || x.worker.Woken? ==> x.lock.Free?
    ensures LockOk(WorkerLocal(x, v.open, files), v) && SleepOk(WorkerLocal(x, v.open, files), v)
  {
  }

  lemma WorkerKeeps(x: Session, n: nat, v: View, files: nat)
    requires SessionOk(x, n, v) && Moves(x.worker)
    requires x.worker.Locking? || x.worker.Woken? ==> x.lock.Free?
    ensures SessionOk(WorkerLocal(x, v.open, files), n, v)
  {
    hide Slot, Holds, LockOk, SleepOk, WorkerOk, CounterOk, ClientOk, Pending, At;
    MovedPending(x, n, v, files);
    MovedCounter(x, n, v, files);
    MovedLock(x, v, files);
  }

  /** The step that answers the request in the slot, or with an unmount takes its client's session away. */
  predicate Acts(x: Session)
    requires x.counter < |x.ring|
  {
    x.worker.Operated? || x.worker.Drained?
    || (x.worker.Serving? && At(x).Some? && (At(x).value.Mount? || At(x).value.Unmount?))
  }

  /** A worker that serves without answering yet, or finds its slot empty on the way out, takes nothing off. */
  lemma ServeKeeps(x: Session, n: nat, v: View, files: nat)
    requires SessionOk(x, n, v) && x.worker.Serving? && !Acts(x)
    ensures SessionOk(WorkerLocal(x, v.open, files), n, v)
  {
    hide Slot, Holds, ClientOk, Pending;
    NotDoneYet(x, v, files);
  }

  lemma NotDoneYet(x: Session, v: View, files: nat)
    requires x.counter < |x.ring| && x.worker.Serving? && !Acts(x)
    ensures Pending(Served(x, files), v.hand) == Pending(x, v.hand)
  {
  }

  /** The acting step only moves the worker and its client on. */
  lemma ActingStep(x: Session, open: bool, files: nat)
    requires x.counter < |x.ring| && Acts(x) && At(x).Some?
    ensures var y := WorkerLocal(x, open, files);
            && y.ring == x.ring && y.counter == x.counter && y.received == x.received && y.processed == x.processed && y.inbox == x.inbox
            && Done(y) && !Done(x)
  {
  }

  /** The request in the slot is the first of what is pending. */
  lemma FirstIsServed(x: Session, n: nat, hand: seq<Req>, open: bool, files: nat)
    requires RingOk(x, n) && x.counter == Slot(|x.processed|, n) && Acts(x) && At(x).Some?
    ensures Pending(x, hand) == [At(x).value] + Pending(WorkerLocal(x, open, files), hand)
  {
    hide Slot, Holds, WorkerLocal, Acts, Done;
    EmptyBefore(x, n);
    ActingStep(x, open, files);
    var c := |x.processed|;
    assert Tail(x.received, c) == [At(x).value] + Tail(x.received, c + 1);
  }

  /** Acting on the request in the slot takes it off what is pending. */
  lemma ActedOn(x: Session, n: nat, v: View, files: nat)
    requires SessionOk(x, n, v) && Acts(x)
    ensures At(x).Some?
    ensures var y := WorkerLocal(x, v.open, files);
            var p, q := Pending(x, v.hand), Pending(y, v.hand);
            && p == [At(x).value] + q
            && (!At(x).value.Unmount? ==> ClientOk(y.client, v.entry, q))
            && (At(x).value.Unmount? ==> q == [] && y.client.Nobody?)
            && y.unanswered == |q|
  {
    hide Slot, Holds, Pending, LockOk, SleepOk;
    FirstIsServed(x, n, v.hand, v.open, files);
    var p, q := Pending(x, v.hand), Pending(WorkerLocal(x, v.open, files), v.hand);
    assert p[1..] == q;
    assert p[0] == At(x).value;
    if x.client.Unmounting? && q != [] {
      assert p[..|p| - 1][0] == p[0];
      assert p[..|p| - 1][1..] == q[..|q| - 1];
    }
  }

  lemma ActsKeeps(x: Session, n: nat, v: View, files: nat)
    requires SessionOk(x, n, v) && Acts(x) && !(x.worker.Serving? && At(x) == Some(Unmount))
    ensures SessionOk(WorkerLocal(x, v.open, files), n, v)
  {
    hide Slot, Holds, ClientOk, Pending;
    ActedOn(x, n, v, files);
  }

  lemma UnmountKeeps(x: Session, n: nat, v: View, files: nat)
    requires SessionOk(x, n, v) && x.worker.Serving? && At(x) == Some(Unmount)
    ensures SessionOk(WorkerLocal(x, v.open, files), n, v.(entry := None))
  {
    hide Slot, Holds, Pending;
    ActedOn(x, n, v, files);
  }

  lemma EmptyKeeps(x: Session, n: nat, v: View)
    requires SessionOk(x, n, v) && x.worker.Answered?
    ensures SessionOk(Emptied(x), n, v)
  {
    hide Slot, Holds;
    EmptyBefore(x, n);
    if At(x).Some? {
      ClearKeeps(x.ring, x.received, x.processed);
      AdvanceSlot(|x.processed|, n);
    }
    assert Pending(Emptied(x), v.hand) == Pending(x, v.hand);
  }

  lemma CountKeeps(x: Session, n: nat, v: View, files: nat)
    requires SessionOk(x, n, v) && x.worker.Counting?
    ensures SessionOk(WorkerLocal(x, v.open, files), n, v)
  {
    hide Slot, Holds;
    var after := WorkerLocal(x, v.open, files);
    assert Advance(x.counter, n) < n;
    assert Pending(after, v.hand) == Pending(x, v.hand);
  }

  /** A signal, whoever sends it. */
  lemma SignalKeeps(x: Session, n: nat, v: View)
    requires SessionOk(x, n, v)
    ensures SessionOk(Signal(x), n, v) && SessionOk(Signal(x), n, v.(signalling := false))
  {
    hide Slot, Holds;
    assert Pending(Signal(x), v.hand) == Pending(x, v.hand);
  }
}
