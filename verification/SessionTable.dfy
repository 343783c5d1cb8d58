/** The table of client pipe paths, by session: tfs_server/fs/tfs_server.c:546-576. */
module SessionTable {
  import opened Options

  type Table = seq<Option<string>>

  /** Live sessions have distinct client paths. */
  predicate Distinct(table: Table) {
    forall i, j :: 0 <= i < j < |table| && table[i].Some? && table[j].Some? ==> table[i].value != table[j].value
  }

  predicate Present(table: Table, path: string) {
    exists i :: 0 <= i < |table| && table[i] == Some(path)
  }

  predicate FullFrom(table: Table, i: nat) {
    forall j :: i <= j < |table| ==> table[j].Some?
  }

  function FirstEmpty(table: Table, i: nat): (r: int)
    requires i <= |table|
    ensures r == -1 <==> FullFrom(table, i)
    ensures r != -1 ==> i <= r < |table| && table[r].None? && forall j :: i <= j < r ==> table[j].Some?
    decreases |table| - i
  {
    if i == |table| then -1 else if table[i].None? then i else FirstEmpty(table, i + 1)
  }

  /** The session a mount of path is given, -1 when it is refused. */
  function SessionFor(table: Table, path: string): (r: int)
    ensures r == -1 <==> Present(table, path) || FullFrom(table, 0)
    ensures r != -1 ==> 0 <= r < |table| && table[r].None? && forall j :: 0 <= j < r ==> table[j].Some?
  {
    if Present(table, path) then -1 else FirstEmpty(table, 0)
  }

  function Added(table: Table, path: string): (r: Table)
    ensures |r| == |table|
  {
    var i := SessionFor(table, path);
    if i == -1 then table else table[i := Some(path)]
  }

  lemma AddedDistinct(table: Table, path: string)
    requires Distinct(table)
    ensures Distinct(Added(table, path))
    ensures Present(Added(table, path), path) <==> Present(table, path) || !FullFrom(table, 0)
  {
    var i := SessionFor(table, path);
    if i != -1 {
      assert Added(table, path)[i] == Some(path);
    }
  }

  datatype Op = Enter(path: string) | Leave(session: int)

  function Apply(table: Table, op: Op): (r: Table)
    ensures |r| == |table|
  {
    match op
    case Enter(path) => Added(table, path)
    case Leave(i) => if 0 <= i < |table| then table[i := None] else table
  }

  function ApplyAll(table: Table, ops: seq<Op>): (r: Table)
    ensures |r| == |table|
    decreases |ops|
  {
    if ops == [] then table else ApplyAll(Apply(table, ops[0]), ops[1..])
  }

  /** In every state that mounts and unmounts reach, live sessions have distinct paths. */
  lemma {:induction false} RunsKeepDistinct(table: Table, ops: seq<Op>)
    requires Distinct(table)
    ensures Distinct(ApplyAll(table, ops))
    decreases |ops|
  {
    if ops != [] {
      match ops[0] {
        case Enter(path) => AddedDistinct(table, path);
        case Leave(_) =>
      }
      RunsKeepDistinct(Apply(table, ops[0]), ops[1..]);
    }
  }

  /** A mount that is given session i is undone by the unmount of i, and a second mount of the path before that is refused. */
  lemma LeaveUndoesEnter(table: Table, path: string)
    requires SessionFor(table, path) != -1
    ensures Apply(Apply(table, Enter(path)), Leave(SessionFor(table, path))) == table
    ensures SessionFor(Apply(table, Enter(path)), path) == -1
  {
    var i := SessionFor(table, path);
    assert Apply(table, Enter(path))[i] == Some(path);
  }

  class ClientPipes {
    const table: array<Option<string>>

    /** server_init: operations of no session. */
    constructor (sessions: nat)
      ensures table.Length == sessions && fresh(table) && table[..] == seq(sessions, _ => None)
    {
      table := new Option<string>[sessions](_ => None);
    }

    /** addClientPipe: refuse a path that is present, else take the first free entry. */
    method AddClientPipe(path: string) returns (session: int)
      modifies table
      ensures session == SessionFor(old(table[..]), path)
      ensures table[..] == Added(old(table[..]), path)
    {
      var i := 0;
      while i < table.Length
        invariant 0 <= i <= table.Length && table[..] == old(table[..])
        invariant forall j :: 0 <= j < i ==> table[j] != Some(path)
      {
        if table[i].Some? && table[i].value == path {
          assert table[..][i] == Some(path);
          return -1;
        }
        i := i + 1;
      }
      assert !Present(table[..], path);
      i := 0;
      while i < table.Length
        invariant 0 <= i <= table.Length && table[..] == old(table[..])
        invariant forall j :: 0 <= j < i ==> table[j].Some?
      {
        if table[i].None? {
          assert SessionFor(table[..], path) == i;
          table[i] := Some(path);
          return i;
        }
        i := i + 1;
      }
      return -1;
    }

    method RemoveClientPipe(session: int)
      requires 0 <= session < table.Length
      modifies table
      ensures table[..] == Apply(old(table[..]), Leave(session))
    {
      table[session] := None;
    }
  }
}
