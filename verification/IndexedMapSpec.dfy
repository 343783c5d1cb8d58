/**
 * What the multi-block file system is for: a map from names to byte sequences, and handles that stand at an offset of a
 * named file, or append to it.  How much room is left is not the map's business: it is told with every call.
 */
module IndexedMapSpec {
  import opened Bytes
  import opened Disk
  import opened HandleTable
  import opened IndexedState
  import opened IndexedOps

  datatype Handle = Handle(name: string, offset: nat, append: bool)

  datatype Spec = Spec(files: map<string, seq<byte>>, handles: map<int, Handle>)

  /** Whether a file can be made, and how many bytes of a write there are blocks for. */
  datatype Room = Room(create: bool, bytes: nat)

  datatype Reply = Reply(ret: int, data: seq<byte>)

  datatype Outcome = Outcome(spec: Spec, reply: Reply)

  function NewHandle(s: Spec, handle: Handle): Outcome {
    var h := LeastUnused(s.handles, 0);
    if h == -1 then Outcome(s, Reply(-1, [])) else Outcome(s.(handles := s.handles[h := handle]), Reply(h, []))
  }

  function Open(s: Spec, path: string, flags: Flags, room: Room): Outcome {
    if !ValidPath(path) then Outcome(s, Reply(-1, []))
    else
      var name := path[1..];
      if name in s.files then
        var t := if flags.truncate then s.(files := s.files[name := []]) else s;
        NewHandle(t, Handle(name, if flags.append then |t.files[name]| else 0, flags.append))
      else if flags.create && room.create then NewHandle(s.(files := s.files[name := []]), Handle(name, 0, false))
      else Outcome(s, Reply(-1, []))
  }

  function Close(s: Spec, h: int): Outcome {
    if h !in s.handles then Outcome(s, Reply(-1, [])) else Outcome(s.(handles := s.handles - {h}), Reply(0, []))
  }

  /** Handles name files of the map and stand inside them. */
  predicate WellFormed(s: Spec) {
    forall h :: h in s.handles ==> s.handles[h].name in s.files && s.handles[h].offset <= |s.files[s.handles[h].name]|
  }

  /** A write through an append handle begins at the end of the file, any other where the handle stands. */
  function Write(s: Spec, h: int, buf: seq<byte>, room: Room): Outcome
    requires WellFormed(s)
  {
    if h !in s.handles || |buf| % 0x1_0000_0000 >= 0x8000_0000 then Outcome(s, Reply(-1, []))
    else
      var Handle(name, offset, append) := s.handles[h];
      var o := if append then |s.files[name]| else offset;
      var k := Min(|buf|, room.bytes);
      Outcome(s.(files := s.files[name := Splice(s.files[name], o, buf[..k])], handles := s.handles[h := Handle(name, o + k, append)]),
              Reply(k, []))
  }

  function Read(s: Spec, h: int, len: nat): Outcome
    requires WellFormed(s)
  {
    if h !in s.handles then Outcome(s, Reply(-1, []))
    else
      var Handle(name, offset, append) := s.handles[h];
      var data := Slice(s.files[name], offset, len);
      Outcome(s.(handles := s.handles[h := Handle(name, offset + |data|, append)]), Reply(|data|, data))
  }

  function Step(s: Spec, op: Op, room: Room): Outcome
    requires WellFormed(s)
  {
    match op
    case OpOpen(path, flags) => Open(s, path, flags, room)
    case OpClose(h) => Close(s, h)
    case OpWrite(h, buf) => Write(s, h, buf, room)
    case OpRead(h, len) => Read(s, h, len)
  }

  /**
   * What callers keep to: live handles, no truncation under a handle past the start, and new names of at most 39
   * characters.
   */
  predicate Allowed(s: Spec, op: Op) {
    match op
    case OpOpen(path, flags) =>
      ValidPath(path) ==>
        if path[1..] in s.files then
          flags.truncate ==> forall h :: h in s.handles && s.handles[h].name == path[1..] ==> s.handles[h].offset == 0
        else flags.create ==> |path[1..]| < MAX_FILE_NAME
    case OpClose(_) => true
    case OpWrite(h, _) => ValidHandle(h) ==> h in s.handles
    case OpRead(h, _) => ValidHandle(h) ==> h in s.handles
  }

  /** Within the rules every handle stays inside a file of the map, whatever the room. */
  lemma StepWellFormed(s: Spec, op: Op, room: Room)
    requires WellFormed(s) && Allowed(s, op)
    ensures WellFormed(Step(s, op, room).spec)
  {
    hide Splice, Slice, Open, AsInt32;
    if op.OpOpen? {
      OpenWellFormed(s, op.path, op.flags, room);
    }
  }

  lemma OpenWellFormed(s: Spec, path: string, flags: Flags, room: Room)
    requires WellFormed(s) && Allowed(s, OpOpen(path, flags))
    ensures WellFormed(Open(s, path, flags, room).spec)
  {
    hide LeastUnused;
  }
}
