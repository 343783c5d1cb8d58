/** The history of a session over the clients that use it in turn. */
module RequestHistory {
  import opened Options
  import opened RequestRing
  import opened SessionTable
  import opened RequestServer
  import opened RequestInvariant
  import opened RequestRuns

  /** Every request the session has seen, in order. */
  function History(x: Session, hand: seq<Req>): seq<Req> {
    x.received + hand + x.inbox
  }

  /** One client after the other: a mount comes first and right after each unmount, and nowhere else. */
  predicate InTurn(h: seq<Req>) {
    forall k {:trigger h[k]} :: 0 <= k < |h| ==> (h[k].Mount? <==> k == 0 || h[k - 1].Unmount?)
  }

  predicate EndsTurn(h: seq<Req>) {
    h == [] || h[|h| - 1].Unmount?
  }

  /** A session is between two turns exactly when nobody has it or it is being given up. */
  predicate TurnOk(x: Session, hand: seq<Req>) {
    var h := History(x, hand);
    InTurn(h) && (EndsTurn(h) <==> x.client.Nobody? || x.client.Unmounting?)
  }

  ghost predicate HistoryOk(s: Server)
    requires Wellformed(s)
  {
    forall i {:trigger s.sessions[i]} :: 0 <= i < |s.sessions| ==> TurnOk(s.sessions[i], Hand(s.receiver, i))
  }

  lemma MoveKeepsHistory(s: Server, n: nat, m: Move)
    requires Inv(s, n) && HistoryOk(s) && Enabled(s, m)
    ensures Inv(Next(s, m), n) && HistoryOk(Next(s, m))
  {
    hide Distinct, SessionOk, TurnOk, Next;
    MoveKeeps(s, n, m);
    SameCount(s, m);
    var r := Next(s, m);
    forall i {:trigger r.sessions[i]} | 0 <= i < |r.sessions| ensures TurnOk(r.sessions[i], Hand(r.receiver, i)) {
      assert TurnOk(s.sessions[i], Hand(s.receiver, i));
      match m
      case Send(_, _) => TurnAfterSend(s, n, m, i);
      case ReceiverMove =>
        if s.receiver.Adding? {
          TurnAfterMount(s, n, m, i);
        } else {
          TurnUnchanged(s, m, i);
        }
      case WorkerMove(_, _) => TurnAfterWork(s, n, m, i);
      case _ => TurnUnchanged(s, m, i);
    }
  }

  lemma SameCount(s: Server, m: Move)
    requires Wellformed(s) && Enabled(s, m)
    ensures |Next(s, m).sessions| == |s.sessions|
  {
    hide WorkerLocal, WorkerNeeds, Ready, SessionFor;
  }

  /** A request added to the history of a session: a mount where a turn has ended, anything else where it has not. */
  lemma InTurnAppend(h: seq<Req>, req: Req)
    requires InTurn(h) && (req.Mount? <==> EndsTurn(h))
    ensures InTurn(h + [req]) && (EndsTurn(h + [req]) <==> req.Unmount?)
  {
    var now := h + [req];
    forall k | 0 <= k < |now| ensures now[k].Mount? <==> (k == 0 || now[k - 1].Unmount?) {
      if k < |h| {
        assert now[k] == h[k];
        assert k > 0 ==> now[k - 1] == h[k - 1];
        assert h[k].Mount? <==> (k == 0 || h[k - 1].Unmount?);
      } else {
        assert now[k] == req;
        assert k > 0 ==> now[k - 1] == h[|h| - 1];
        assert req.Mount? <==> EndsTurn(h);
      }
    }
    assert InTurn(now);
    assert EndsTurn(now) <==> req.Unmount?;
  }

  lemma TurnAfterSend(s: Server, n: nat, m: Move, i: nat)
    requires Inv(s, n) && Enabled(s, m) && m.Send? && i < |s.sessions| && TurnOk(s.sessions[i], Hand(s.receiver, i))
    ensures |Next(s, m).sessions| == |s.sessions| && TurnOk(Next(s, m).sessions[i], Hand(Next(s, m).receiver, i))
  {
    hide Distinct, SessionOk, InTurn, EndsTurn;
    if m.i == i {
      var x, hand := s.sessions[i], Hand(s.receiver, i);
      assert History(Sent(x, m.req), hand) == History(x, hand) + [m.req];
      InTurnAppend(History(x, hand), m.req);
    }
  }

  lemma TurnAfterMount(s: Server, n: nat, m: Move, i: nat)
    requires Inv(s, n) && Enabled(s, m) && m.ReceiverMove? && s.receiver.Adding? && i < |s.sessions| && TurnOk(s.sessions[i], Hand(s.receiver, i))
    ensures |Next(s, m).sessions| == |s.sessions| && TurnOk(Next(s, m).sessions[i], Hand(Next(s, m).receiver, i))
  {
    hide Distinct, InTurn, EndsTurn, RingOk, CounterOk, WorkerOk, LockOk, SleepOk;
    if SessionFor(s.table, s.receiver.path) == i {
      var x := s.sessions[i];
      assert SessionOk(x, n, ViewOf(s, i));
      var after := x.(client := Mounting, unanswered := 1);
      assert x.inbox == [];
      assert History(after, [Mount(s.receiver.path)]) == History(x, []) + [Mount(s.receiver.path)];
      InTurnAppend(History(x, []), Mount(s.receiver.path));
    }
  }

  lemma TurnAfterWork(s: Server, n: nat, m: Move, i: nat)
    requires Inv(s, n) && Enabled(s, m) && m.WorkerMove? && i < |s.sessions| && TurnOk(s.sessions[i], Hand(s.receiver, i))
    ensures |Next(s, m).sessions| == |s.sessions| && TurnOk(Next(s, m).sessions[i], Hand(Next(s, m).receiver, i))
  {
    hide Distinct, SessionOk, InTurn, EndsTurn, Next, Enabled, WorkerLocal;
    WorkerSessions(s, m);
    if m.i == i {
      var x := s.sessions[i];
      assert SessionOk(x, n, ViewOf(s, i));
      ServedClient(x, n, ViewOf(s, i), s.files);
    }
  }

  /** A worker's step is a step of its own session. */
  lemma WorkerSessions(s: Server, m: Move)
    requires Wellformed(s) && Enabled(s, m) && m.WorkerMove?
    ensures m.i < |s.sessions| && Next(s, m).sessions == s.sessions[m.i := WorkerLocal(s.sessions[m.i], s.open, s.files)] && Next(s, m).receiver == s.receiver
  {
    hide WorkerLocal, WorkerNeeds, Ready;
  }

  /** A mount makes its client the one in the session, an unmount ends the turn of the one giving it up, nothing else changes who has it. */
  lemma ServedClient(x: Session, n: nat, v: View, files: nat)
    requires SessionOk(x, n, v)
    ensures var y := WorkerLocal(x, v.open, files);
            && y.received == x.received && y.inbox == x.inbox
            && (y.client.Nobody? || y.client.Unmounting? <==> x.client.Nobody? || x.client.Unmounting?)
  {
    hide Holds, Slot, CounterOk, LockOk, SleepOk, ClientOk, Pending, WorkerOk;
    if Acts(x) {
      ActedOn(x, n, v, files);
      assert Pending(x, v.hand)[0] == At(x).value;
      FirstPending(x.client, v.entry, Pending(x, v.hand));
    }
  }

  lemma StoredHistory(x: Session, req: Req)
    requires x.producer < |x.ring|
    ensures History(Stored(x, req), []) == History(x, [req])
  {
  }

  lemma TakenHistory(x: Session)
    requires x.inbox != []
    ensures History(x.(inbox := x.inbox[1..]), [x.inbox[0]]) == History(x, [])
  {
  }

  /** The receiver moves a request along and changes no history. */
  lemma ReceiverHistory(s: Server, m: Move, i: nat)
    requires Wellformed(s) && Enabled(s, m) && i < |s.sessions| && (m.ReadRequest? || (m.ReceiverMove? && !s.receiver.Adding?))
    ensures var y := Next(s, m).sessions[i];
            && History(y, Hand(Next(s, m).receiver, i)) == History(s.sessions[i], Hand(s.receiver, i))
            && y.client == s.sessions[i].client
  {
    if m.ReceiverMove? && s.receiver.i == i && s.receiver.Storing? {
      StoredHistory(s.sessions[i], s.receiver.req);
    } else if m.ReadRequest? && m.i == i {
      TakenHistory(s.sessions[i]);
    }
  }

  lemma TurnUnchanged(s: Server, m: Move, i: nat)
    requires Wellformed(s) && Enabled(s, m) && i < |s.sessions| && TurnOk(s.sessions[i], Hand(s.receiver, i))
    requires !m.Send? && !m.WorkerMove? && !(m.ReceiverMove? && s.receiver.Adding?)
    ensures |Next(s, m).sessions| == |s.sessions| && TurnOk(Next(s, m).sessions[i], Hand(Next(s, m).receiver, i))
  {
    hide InTurn, EndsTurn, Distinct, ReceiverNext, RequestRead, WorkerLocal, WorkerNeeds, Ready;
    SameCount(s, m);
    if m.ReadRequest? || m.ReceiverMove? {
      ReceiverHistory(s, m, i);
    }
  }

  /**
   * In every run from the start the requests of different clients never mix in a session: those received, in hand and in
   * the pipe are turns of one client each.
   */
  lemma ClientsInTurn(sessions: nat, n: nat, moves: seq<Move>)
    requires n >= 1 && EnabledRun(Start(sessions, n), moves)
    ensures Inv(Run(Start(sessions, n), moves), n) && HistoryOk(Run(Start(sessions, n), moves))
  {
    StartInv(sessions, n);
    RunKeepsHistory(Start(sessions, n), n, moves);
  }

  lemma {:induction false} RunKeepsHistory(s: Server, n: nat, moves: seq<Move>)
    requires Inv(s, n) && HistoryOk(s) && EnabledRun(s, moves)
    ensures Inv(Run(s, moves), n) && HistoryOk(Run(s, moves))
    decreases |moves|
  {
    hide Next, Inv, HistoryOk;
    if moves != [] {
      MoveKeepsHistory(s, n, moves[0]);
      RunKeepsHistory(Next(s, moves[0]), n, moves[1..]);
    }
  }
}
