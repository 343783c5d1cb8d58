/** The number of open files as a shutdown sees it, counted from the calls the workers have carried out. */
module RequestFiles {
  import opened Options
  import opened RequestRing
  import opened SessionTable
  import opened RequestServer
  import opened RequestInvariant
  import opened RequestRuns

  /** The step is that of a worker that carries out a call of that kind with success. */
  predicate Succeeds(s: Server, m: Move, op: FileOp) {
    m.WorkerMove? && m.ok && m.i < |s.sessions| &&
    var x := s.sessions[m.i];
    x.worker == Serving && x.counter < |x.ring| && x.ring[x.counter].Some? &&
    x.ring[x.counter].value.Call? && x.ring[x.counter].value.op == op
  }

  /** How many opens of a run succeeded. */
  function Opens(s: Server, moves: seq<Move>): nat
    requires EnabledRun(s, moves)
    decreases |moves|
  {
    if moves == [] then 0
    else (if Succeeds(s, moves[0], OpenFile) then 1 else 0) + Opens(Next(s, moves[0]), moves[1..])
  }

  /** How many closes of a run succeeded while a file was open. */
  function Closes(s: Server, moves: seq<Move>): nat
    requires EnabledRun(s, moves)
    decreases |moves|
  {
    if moves == [] then 0
    else (if Succeeds(s, moves[0], CloseFile) && s.files > 0 then 1 else 0) + Closes(Next(s, moves[0]), moves[1..])
  }

  lemma FilesMove(s: Server, m: Move)
    requires Wellformed(s) && Enabled(s, m)
    ensures Next(s, m).files ==
            s.files + (if Succeeds(s, m, OpenFile) then 1 else 0) - (if Succeeds(s, m, CloseFile) && s.files > 0 then 1 else 0)
  {
    hide WorkerLocal, WorkerNeeds, MountAdded, Ready;
    if m.ReceiverMove? && s.receiver.Adding? {
      MountFiles(s, s.receiver.path);
    }
  }

  lemma MountFiles(s: Server, path: string)
    requires Wellformed(s)
    ensures MountAdded(s, path).files == s.files
  {
  }

  lemma {:induction false} FilesOfRun(s: Server, moves: seq<Move>)
    requires EnabledRun(s, moves)
    ensures Run(s, moves).files + Closes(s, moves) == s.files + Opens(s, moves)
    decreases |moves|
  {
    hide Next, Succeeds, Enabled;
    if moves != [] {
      FilesMove(s, moves[0]);
      FilesOfRun(Next(s, moves[0]), moves[1..]);
    }
  }

  /** In every run from the start the files open are the opens that succeeded less the closes that did. */
  lemma FilesCounted(sessions: nat, slots: nat, moves: seq<Move>)
    requires EnabledRun(Start(sessions, slots), moves)
    ensures Run(Start(sessions, slots), moves).files == Opens(Start(sessions, slots), moves) - Closes(Start(sessions, slots), moves)
  {
    FilesOfRun(Start(sessions, slots), moves);
  }

  /**
   * A shutdown gets past its wait exactly if every file opened has been closed, whether it comes to it for the first time
   * or is in it already.
   */
  lemma ShutdownWaits(sessions: nat, slots: nat, moves: seq<Move>, i: nat, ok: bool)
    requires slots >= 1 && EnabledRun(Start(sessions, slots), moves) && i < |Run(Start(sessions, slots), moves).sessions|
    ensures Wellformed(Run(Start(sessions, slots), moves))
    ensures var s := Run(Start(sessions, slots), moves);
            var x, closed := s.sessions[i], Opens(Start(sessions, slots), moves) == Closes(Start(sessions, slots), moves);
            && (x.worker.Serving? && x.ring[x.counter] == Some(Shutdown) && Enabled(s, WorkerMove(i, ok)) ==>
                  |Next(s, WorkerMove(i, ok)).sessions| == |s.sessions|
                  && Next(s, WorkerMove(i, ok)).sessions[i].worker == if closed then Drained else Draining)
            && (x.worker.Draining? ==> (Enabled(s, WorkerMove(i, ok)) <==> closed))
  {
    hide SessionOk, Distinct, ViewOf;
    StartInv(sessions, slots);
    RunKeeps(Start(sessions, slots), slots, moves);
    FilesOfRun(Start(sessions, slots), moves);
  }
}
