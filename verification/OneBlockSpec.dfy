/**
 * What the one-block file system is for: a map from names to byte sequences of at most one block, and handles that
 * stand at an offset of a named file.  No inodes, no blocks, no tables.
 */
module OneBlockSpec {
  import opened Bytes
  import opened Disk
  import opened HandleTable

  datatype Handle = Handle(name: string, offset: nat)

  datatype Spec = Spec(files: map<string, seq<byte>>, handles: map<int, Handle>, closing: bool)

  datatype Op =
    | OpOpen(path: string, flags: Flags)
    | OpClose(h: int)
    | OpWrite(h: int, buf: seq<byte>)
    | OpRead(h: int, len: nat)

  /** What a caller sees of a call. */
  datatype Reply = Reply(ret: int, data: seq<byte>)

  datatype Outcome = Outcome(spec: Spec, reply: Reply)

  function NewHandle(s: Spec, name: string, offset: nat): Outcome {
    var h := LeastUnused(s.handles, 0);
    if h == -1 then Outcome(s, Reply(-1, []))
    else Outcome(s.(handles := s.handles[h := Handle(name, offset)]), Reply(h, []))
  }

  function Open(s: Spec, path: string, flags: Flags): Outcome {
    var refused := Outcome(s, Reply(-1, []));
    if s.closing || !ValidPath(path) then refused
    else
      var name := path[1..];
      if name in s.files then
        var t := if flags.truncate then s.(files := s.files[name := []]) else s;
        NewHandle(t, name, if flags.append then |t.files[name]| else 0)
      else if flags.create && |s.files| < MAX_DIR_ENTRIES then NewHandle(s.(files := s.files[name := []]), name, 0)
      else refused
  }

  function Close(s: Spec, h: int): Outcome {
    if h !in s.handles then Outcome(s, Reply(-1, []))
    else Outcome(s.(handles := s.handles - {h}), Reply(0, []))
  }

  /** Handles name files of the map and stand inside them. */
  predicate WellFormed(s: Spec) {
    && (forall name :: name in s.files ==> |s.files[name]| <= BLOCK_SIZE)
    && (forall h :: h in s.handles ==> s.handles[h].name in s.files && s.handles[h].offset <= |s.files[s.handles[h].name]|)
  }

  function Write(s: Spec, h: int, buf: seq<byte>): Outcome
    requires WellFormed(s)
  {
    if h !in s.handles then Outcome(s, Reply(-1, []))
    else
      var Handle(name, off) := s.handles[h];
      var k := Min(|buf|, BLOCK_SIZE - off);
      Outcome(s.(files := s.files[name := Splice(s.files[name], off, buf[..k])],
                 handles := s.handles[h := Handle(name, off + k)]), Reply(k, []))
  }

  /** A handle past the end of its file reads nothing. */
  function Read(s: Spec, h: int, len: nat): Outcome
    requires h in s.handles ==> s.handles[h].name in s.files
  {
    if h !in s.handles then Outcome(s, Reply(-1, []))
    else
      var Handle(name, off) := s.handles[h];
      var data := Slice(s.files[name], off, len);
      Outcome(s.(handles := s.handles[h := Handle(name, off + |data|)]), Reply(|data|, data))
  }

  function Step(s: Spec, op: Op): Outcome
    requires WellFormed(s)
  {
    match op
    case OpOpen(path, flags) => Open(s, path, flags)
    case OpClose(h) => Close(s, h)
    case OpWrite(h, buf) => Write(s, h, buf)
    case OpRead(h, len) => Read(s, h, len)
  }

  /* ----- what callers keep to ----- */

  /** No handle on the name stands past its start. */
  predicate AtStart(s: Spec, name: string) {
    forall h :: h in s.handles && s.handles[h].name == name ==> s.handles[h].offset == 0
  }

  /** The rules of tfs_open: they matter only while the state is not closing. */
  predicate OpenRules(s: Spec, path: string, flags: Flags) {
    s.closing ||
    if ValidPath(path) && path[1..] in s.files then flags.truncate ==> AtStart(s, path[1..])
    else flags.create && |s.files| < MAX_DIR_ENTRIES ==>
      if ValidPath(path) then |path[1..]| < MAX_FILE_NAME else |path| == 1
  }

  /** Writes and reads go through handles that are open; get_open_file_entry does not check it (state.c:342-347). */
  predicate Allowed(s: Spec, op: Op) {
    match op
    case OpOpen(path, flags) => path != "" && OpenRules(s, path, flags)
    case OpClose(_) => true
    case OpWrite(h, _) => ValidHandle(h) ==> h in s.handles
    case OpRead(h, _) => ValidHandle(h) ==> h in s.handles
  }

  /* ----- runs ----- */

  /** Every call of the run is within the rules when it is made. */
  predicate AllowedRun(s: Spec, ops: seq<Op>)
    requires WellFormed(s)
    decreases |ops|
  {
    ops == [] || (Allowed(s, ops[0]) && (StepWellFormed(s, ops[0]); AllowedRun(Step(s, ops[0]).spec, ops[1..])))
  }

  datatype Ended = Ended(spec: Spec, replies: seq<Reply>)

  function Run(s: Spec, ops: seq<Op>): Ended
    requires WellFormed(s) && AllowedRun(s, ops)
    decreases |ops|
  {
    if ops == [] then Ended(s, [])
    else
      StepWellFormed(s, ops[0]);
      var first := Step(s, ops[0]);
      var rest := Run(first.spec, ops[1..]);
      Ended(rest.spec, [first.reply] + rest.replies)
  }

  /** Within the rules every handle stays inside a file of the map. */
  lemma StepWellFormed(s: Spec, op: Op)
    requires WellFormed(s) && Allowed(s, op)
    ensures WellFormed(Step(s, op).spec)
  {
    hide Splice, Slice, Open;
    if op.OpOpen? {
      OpenWellFormed(s, op.path, op.flags);
    }
  }

  lemma OpenWellFormed(s: Spec, path: string, flags: Flags)
    requires WellFormed(s) && OpenRules(s, path, flags)
    ensures WellFormed(Open(s, path, flags).spec)
  {
    hide LeastUnused;
  }

  /** The calls that may change the file: writes through a handle on it, and opens that truncate it. */
  predicate Touches(s: Spec, op: Op, name: string) {
    match op
    case OpOpen(path, flags) => flags.truncate && ValidPath(path) && path[1..] == name
    case OpWrite(h, _) => h in s.handles && s.handles[h].name == name
    case _ => false
  }

  predicate TouchedIn(s: Spec, ops: seq<Op>, name: string)
    requires WellFormed(s) && AllowedRun(s, ops)
    decreases |ops|
  {
    ops != [] && (Touches(s, ops[0], name) || (StepWellFormed(s, ops[0]); TouchedIn(Step(s, ops[0]).spec, ops[1..], name)))
  }

  /** No run changes a file it does not truncate or write to, and no run loses a name. */
  lemma {:induction false} OthersUntouched(s: Spec, ops: seq<Op>, name: string)
    requires WellFormed(s) && AllowedRun(s, ops) && name in s.files
    ensures var t := Run(s, ops).spec;
            name in t.files && (!TouchedIn(s, ops, name) ==> t.files[name] == s.files[name])
    decreases |ops|
  {
    if ops != [] {
      StepWellFormed(s, ops[0]);
      OthersUntouched(Step(s, ops[0]).spec, ops[1..], name);
    }
  }

  /** What was written is what is read: any handle at the same place of the same file reads the bytes back. */
  lemma WriteThenRead(s: Spec, h: int, buf: seq<byte>, other: int, len: nat)
    requires WellFormed(s) && h in s.handles && other in s.handles && other != h && s.handles[other] == s.handles[h]
    ensures WellFormed(Write(s, h, buf).spec)
    ensures var k := Write(s, h, buf).reply.ret;
            len <= k ==> Read(Write(s, h, buf).spec, other, len).reply == Reply(len, buf[..len])
  {
  }
}
