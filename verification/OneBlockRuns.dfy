/**
 * The main theorems about the one-block file system: an open is the open of the map if and only if the caller keeps
 * three rules it can check, and every run within the rules is a run of the map.
 */
module OneBlockRuns {
  import opened Bytes
  import opened AllocationTable
  import opened Disk
  import opened Directory
  import opened OneBlockState
  import opened OneBlockInvariant
  import opened OneBlockRefinement
  import opened OneBlockSteps
  import opened OneBlockCreate
  import Spec = OneBlockSpec

  /** The state after an operation keeps the invariant, and it and the reply are those of the map. */
  ghost predicate Keeps(g: Fs, ret: int, data: seq<byte>, to: Spec.Outcome)
    requires Tables(g)
  {
    Inv(g) && Abs(g) == to.spec && to.reply == Spec.Reply(ret, data)
  }

  /** The state and the reply are those of the map, and so is the reply to every read that may come next. */
  ghost predicate Refines(g: Fs, ret: int, data: seq<byte>, to: Spec.Outcome)
    requires Tables(g)
  {
    Sound(g) && ReadsAgree(g) && Abs(g) == to.spec && to.reply == Spec.Reply(ret, data)
  }

  /** The two come to the same. */
  lemma KeepsIsRefines(g: Fs, ret: int, data: seq<byte>, to: Spec.Outcome)
    requires Tables(g)
    ensures Keeps(g, ret, data, to) <==> Refines(g, ret, data, to)
  {
    hide BlockShape, RootOk, DirectoryOk, BlocksOk, CountOk, ReadsAgree, Abs;
    if Sound(g) {
      ReadsAgreeExact(g);
    }
  }

  /* ----- tfs_open ----- */

  /** Lookup follows the map. */
  lemma LookupAgrees(fs: Fs, path: string)
    requires Tables(fs) && Inv(fs)
    ensures Lookup(fs, path) == if ValidPath(path) then InumberOf(RootEntries(fs), path[1..]) else -1
    ensures Lookup(fs, path) >= 0 <==> ValidPath(path) && path[1..] in AbsFiles(fs)
    ensures Lookup(fs, path) >= 0 ==>
              LiveFile(fs, Lookup(fs, path)) && NameOf(RootEntries(fs), Lookup(fs, path)) == path[1..]
              && AbsFiles(fs)[path[1..]] == FileBytes(fs, Lookup(fs, path))
    ensures Lookup(fs, path) >= -1
  {
    hide BlockShape, RootEntries, BlocksOk, DirectoryOk, HandlesOk, CountOk, NameOf, Names, InumberOf, FileBytes;
    if ValidPath(path) {
      NameFound(fs, path[1..]);
    }
  }

  /** Handles of the map on a name are the handles of the table on its inode. */
  lemma AtStartAgrees(fs: Fs, n: int)
    requires Tables(fs) && Inv(fs) && LiveFile(fs, n)
    ensures AtStart(fs, n) <==> Spec.AtStart(Abs(fs), NameOf(RootEntries(fs), n))
  {
    hide BlockShape, RootEntries, BlocksOk, DirectoryOk, CountOk, NameOf, Names, InumberOf, FileBytes;
    forall h | 0 <= h < MAX_OPEN_FILES && fs.fileTaken[h]
      ensures fs.files[h].inumber == n <==> AbsHandles(fs)[h].name == NameOf(RootEntries(fs), n)
    {
      FileNamed(fs, n);
      FileNamed(fs, fs.files[h].inumber);
    }
    if AtStart(fs, n) {
      assert Spec.AtStart(Abs(fs), NameOf(RootEntries(fs), n));
    } else {
      var h :| 0 <= h < MAX_OPEN_FILES && fs.fileTaken[h] && fs.files[h].inumber == n && fs.files[h].offset != 0;
      assert h in AbsHandles(fs);
    }
  }

  lemma OpenExistingKept(fs: Fs, n: int, flags: Flags)
    requires Tables(fs) && Inv(fs) && LiveFile(fs, n) && (flags.truncate ==> AtStart(fs, n))
    ensures var r := OpenExisting(fs, n, flags);
            var name := NameOf(RootEntries(fs), n);
            var s := if flags.truncate then Abs(fs).(files := AbsFiles(fs)[name := []]) else Abs(fs);
            name in s.files && Keeps(r.fs, r.ret, [], Spec.NewHandle(s, name, if flags.append then |s.files[name]| else 0))
  {
    hide BlockShape, RootEntries, BlocksOk, DirectoryOk, CountOk, HandlesOk, RootOk, NameOf, Names, InumberOf, FileBytes, Truncate, AddOpen,
      AbsFiles, AbsHandles, Spec.NewHandle;
    var t := if flags.truncate then Truncate(fs, n).fs else fs;
    if flags.truncate {
      TruncateKeeps(fs, n);
      TruncateOwned(fs, n);
      TruncateShape(fs, n);
      TruncateRefines(fs, n);
    }
    FileSize(t, n);
    FileInMap(t, n);
    var off := if flags.append then t.inodes[n].size else 0;
    AddOpenKeeps(t, n, off);
    AddOpenRefines(t, n, off);
  }

  lemma FileInMap(fs: Fs, n: int)
    requires Tables(fs) && Inv(fs) && LiveFile(fs, n)
    ensures var name := NameOf(RootEntries(fs), n);
            name in AbsFiles(fs) && AbsFiles(fs)[name] == FileBytes(fs, n)
  {
    hide BlockShape, RootEntries, BlocksOk, DirectoryOk, CountOk, HandlesOk, RootOk, NameOf, Names, InumberOf, FileBytes;
    FileNamed(fs, n);
  }

  /** Truncating a file that another handle is inside leaves that handle past the end: the state is no longer a good one. */
  lemma OpenExistingBroken(fs: Fs, n: int, flags: Flags)
    requires Tables(fs) && Inv(fs) && LiveFile(fs, n) && flags.truncate && !AtStart(fs, n)
    ensures !Inv(OpenExisting(fs, n, flags).fs)
  {
    hide BlockShape, RootEntries, BlocksOk, DirectoryOk, CountOk, RootOk, Truncate;
    TruncateShape(fs, n);
    var h :| 0 <= h < MAX_OPEN_FILES && fs.fileTaken[h] && fs.files[h].inumber == n && fs.files[h].offset != 0;
    var g := OpenExisting(fs, n, flags).fs;
    assert g.fileTaken[h] && g.files[h] == fs.files[h] && g.inodes[n].size == 0;
  }

  lemma OpenNewKept(fs: Fs, name: string)
    requires Tables(fs) && Inv(fs) && FirstUnused(RootEntries(fs)) != -1
    requires 0 < |name| < MAX_FILE_NAME && name !in AbsFiles(fs)
    ensures var r := OpenNew(fs, name);
            Keeps(r.fs, r.ret, [], Spec.NewHandle(Abs(fs).(files := AbsFiles(fs)[name := []]), name, 0))
  {
    hide BlockShape, RootEntries, BlocksOk, DirectoryOk, CountOk, HandlesOk, RootOk, NameOf, Names, InumberOf, FileBytes, AddOpen, OpenNew,
      Created, AbsHandles, Spec.NewHandle;
    var n, g := FirstFree(fs.inodeTaken), Created(fs, name);
    CreatedShape(fs, name);
    CreatedRefines(fs, name);
    AddOpenKeeps(g, n, 0);
    AddOpenRefines(g, n, 0);
  }

  /** A file entered under a name already there breaks the directory; any other name is a new name of the map. */
  lemma OpenNewGrows(fs: Fs, name: string)
    requires Tables(fs) && Inv(fs) && FirstUnused(RootEntries(fs)) != -1 && name != ""
    ensures var g := OpenNew(fs, name).fs;
            Inv(g) ==> StoredName(name) in AbsFiles(g) && StoredName(name) !in AbsFiles(fs) && (name in AbsFiles(g) <==> |name| < MAX_FILE_NAME)
  {
    hide BlockShape, RootEntries, BlocksOk, CountOk, HandlesOk, NameOf, FileBytes, OpenNew, Created, InumberOf, DirectoryOk, Names;
    var g, c := OpenNew(fs, name).fs, Created(fs, name);
    CreatedShape(fs, name);
    if Inv(g) {
      OpenedDirectory(c, FirstFree(fs.inodeTaken));
      CreatedDirectoryExact(fs, name);
      var i := FirstUnused(RootEntries(fs));
      assert InUse(RootEntries(g), i);
      EntryFound(g, i);
      NameFound(g, name);
      NewName(fs, g, name);
    }
  }

  lemma NewName(fs: Fs, g: Fs, name: string)
    requires Tables(fs) && Inv(fs) && Tables(g) && Inv(g) && FirstUnused(RootEntries(fs)) != -1 && name != ""
    requires RootEntries(g) == RootEntries(fs)[FirstUnused(RootEntries(fs)) := DirEntry(StoredName(name), FirstFree(fs.inodeTaken))]
    requires FirstFree(fs.inodeTaken) > 0 && StoredName(name) in Names(RootEntries(g))
    ensures name in Names(RootEntries(g)) <==> |name| < MAX_FILE_NAME
  {
    hide BlockShape, RootEntries, BlocksOk, DirectoryOk, CountOk, HandlesOk, Names, InumberOf;
    NameFound(g, name);
  }

  lemma OpenedDirectory(c: Fs, n: int)
    requires Tables(c)
    ensures var g := AddOpen(c, n, 0).fs;
            RootEntries(g) == RootEntries(c) && DirectoryOk(g) == DirectoryOk(c)
  {
    hide BlockShape;
    var g := AddOpen(c, n, 0).fs;
    assert RootEntries(g) == RootEntries(c);
    forall m ensures LiveFile(g, m) <==> LiveFile(c, m) {
    }
  }

  /** Within Spec.OpenRules, and only within them, tfs_open keeps the invariant and is the open of the map. */
  lemma OpenKeepsExact(fs: Fs, path: string, flags: Flags)
    requires Tables(fs) && Inv(fs) && path != ""
    ensures var r := Open(fs, path, flags);
            Keeps(r.fs, r.ret, [], Spec.Open(Abs(fs), path, flags)) <==> Spec.OpenRules(Abs(fs), path, flags)
  {
    hide BlockShape, RootEntries, BlocksOk, DirectoryOk, CountOk, HandlesOk, RootOk, NameOf, Names, InumberOf, FileBytes,
      OpenExisting, OpenNew, Lookup, AbsFiles, AbsHandles, Spec.NewHandle, Spec.AtStart, AtStart;
    var n := Lookup(fs, path);
    LookupAgrees(fs, path);
    RoomAgrees(fs);
    if fs.closing {
    } else if n >= 0 {
      AtStartAgrees(fs, n);
      if flags.truncate && !AtStart(fs, n) {
        OpenExistingBroken(fs, n, flags);
      } else {
        OpenExistingKept(fs, n, flags);
      }
    } else if flags.create {
      var name := path[1..];
      if FirstUnused(RootEntries(fs)) == -1 || name == "" {
        RollbackRestores(fs, name);
      } else if ValidPath(path) && |name| < MAX_FILE_NAME {
        OpenNewKept(fs, name);
      } else {
        OpenNewGrows(fs, name);
        NewHandleFiles(Abs(fs), name);
      }
    }
  }

  /**
   * tfs_open is the open of the map, down to every read that may follow, if and only if the caller keeps to
   * Spec.OpenRules: a file is not truncated under a handle that stands past its start, and what is created is named by a
   * slash and at most 39 characters.
   */
  lemma OpenExact(fs: Fs, path: string, flags: Flags)
    requires Tables(fs) && Inv(fs) && path != ""
    ensures var r := Open(fs, path, flags);
            Refines(r.fs, r.ret, [], Spec.Open(Abs(fs), path, flags)) <==> Spec.OpenRules(Abs(fs), path, flags)
  {
    hide BlockShape, Inv, Open, Keeps, Refines, Abs, Spec.Open, Spec.OpenRules;
    OpenKeepsExact(fs, path, flags);
    var r := Open(fs, path, flags);
    KeepsIsRefines(r.fs, r.ret, [], Spec.Open(Abs(fs), path, flags));
  }

  lemma NewHandleFiles(s: Spec.Spec, name: string)
    ensures name in Spec.NewHandle(s.(files := s.files[name := []]), name, 0).spec.files
  {
  }

  /* ----- runs ----- */

  datatype Stepped = Stepped(fs: Fs, reply: Spec.Reply)

  /** A write does not start outside of a block. */
  predicate StepDefined(fs: Fs, op: Spec.Op)
    requires Tables(fs)
  {
    op.OpWrite? ==> InBlock(fs, op.h)
  }

  /** One call on the file system. */
  function Step(fs: Fs, op: Spec.Op): (r: Stepped)
    requires Tables(fs)
    requires StepDefined(fs, op)
    ensures Tables(r.fs)
  {
    match op
    case OpOpen(path, flags) => var r := Open(fs, path, flags); Stepped(r.fs, Spec.Reply(r.ret, []))
    case OpClose(h) => var r := Close(fs, h); Stepped(r.fs, Spec.Reply(r.ret, []))
    case OpWrite(h, buf) => var r := Write(fs, h, buf); Stepped(r.fs, Spec.Reply(r.ret, []))
    case OpRead(h, len) => var r := Read(fs, h, len); Stepped(r.fs, Spec.Reply(r.ret, r.data))
  }

  lemma WriteDefined(fs: Fs, op: Spec.Op)
    requires Tables(fs) && Inv(fs) && Spec.Allowed(Abs(fs), op)
    ensures StepDefined(fs, op)
  {
    hide BlockShape, RootEntries, BlocksOk, DirectoryOk, CountOk, RootOk, NameOf, Names, InumberOf, FileBytes;
  }

  /** Every allowed call keeps the invariant, takes the map to the map after the call, and replies as the map does. */
  lemma StepRefines(fs: Fs, op: Spec.Op)
    requires Tables(fs) && Inv(fs) && Spec.Allowed(Abs(fs), op)
    ensures StepDefined(fs, op) && Spec.WellFormed(Abs(fs))
    ensures var r := Step(fs, op);
            Inv(r.fs) && Spec.Step(Abs(fs), op) == Spec.Outcome(Abs(r.fs), r.reply)
  {
    hide BlockShape, Inv, Open, Close, Write, Read, Spec.Open, Spec.Close, Spec.Write, Spec.Read, AbsFiles, Spec.OpenRules;
    WriteDefined(fs, op);
    AbsWellFormed(fs);
    match op
    case OpOpen(path, flags) => OpenKeepsExact(fs, path, flags);
    case OpClose(h) =>
      CloseKeeps(fs, h);
      CloseRefines(fs, h);
    case OpWrite(h, buf) =>
      if ValidHandle(h) {
        WriteKeeps(fs, h, buf);
        WriteRefines(fs, h, buf);
      } else {
        BadHandle(fs, h, buf, 0);
      }
    case OpRead(h, len) =>
      if ValidHandle(h) {
        ReadKeeps(fs, h, len);
        ReadRefines(fs, h, len);
      } else {
        BadHandle(fs, h, [], len);
      }
  }

  lemma BadHandle(fs: Fs, h: int, buf: seq<byte>, len: nat)
    requires Tables(fs) && Inv(fs) && !ValidHandle(h)
    ensures Spec.WellFormed(Abs(fs)) && Write(fs, h, buf) == Result(fs, -1) && Read(fs, h, len) == ReadResult(fs, -1, [])
    ensures Spec.Write(Abs(fs), h, buf) == Spec.Outcome(Abs(fs), Spec.Reply(-1, [])) == Spec.Read(Abs(fs), h, len)
  {
    hide BlockShape, Inv, AbsFiles;
    AbsWellFormed(fs);
  }

  /** No write of the run starts outside of a block. */
  predicate Defined(fs: Fs, ops: seq<Spec.Op>)
    requires Tables(fs)
    decreases |ops|
  {
    ops == [] || (StepDefined(fs, ops[0]) && Defined(Step(fs, ops[0]).fs, ops[1..]))
  }

  datatype Ended = Ended(fs: Fs, replies: seq<Spec.Reply>)

  function Run(fs: Fs, ops: seq<Spec.Op>): (r: Ended)
    requires Tables(fs) && Defined(fs, ops)
    ensures Tables(r.fs)
    decreases |ops|
  {
    if ops == [] then Ended(fs, [])
    else
      var first := Step(fs, ops[0]);
      var rest := Run(first.fs, ops[1..]);
      Ended(rest.fs, [first.reply] + rest.replies)
  }

  /** Every run within the rules is a run of the map: same replies, and the map at the end. */
  lemma {:induction false} RunRefines(fs: Fs, ops: seq<Spec.Op>)
    requires Tables(fs) && Inv(fs) && Spec.WellFormed(Abs(fs)) && Spec.AllowedRun(Abs(fs), ops)
    ensures Defined(fs, ops)
    ensures var r := Run(fs, ops);
            Inv(r.fs) && Spec.Run(Abs(fs), ops) == Spec.Ended(Abs(r.fs), r.replies)
    decreases |ops|
  {
    hide BlockShape, Inv, Step, Spec.Step, Abs, Spec.Allowed, Spec.WellFormed;
    if ops != [] {
      StepRefines(fs, ops[0]);
      Spec.StepWellFormed(Abs(fs), ops[0]);
      RunRefines(Step(fs, ops[0]).fs, ops[1..]);
    }
  }

  /** In every state a run reaches, neither table is full, and the count of open files is that of the TAKEN entries. */
  lemma RunsNeverFill(fs: Fs, ops: seq<Spec.Op>)
    requires Tables(fs) && Inv(fs) && Spec.WellFormed(Abs(fs)) && Spec.AllowedRun(Abs(fs), ops)
    ensures Defined(fs, ops)
    ensures var g := Run(fs, ops).fs;
            && |TakenSet(g.inodeTaken)| <= 24 && |TakenSet(g.blockTaken)| <= 24
            && FirstFree(g.inodeTaken) != -1 && FirstFree(g.blockTaken) != -1
            && g.openCount == |TakenSet(g.fileTaken)|
  {
    hide BlockShape, RootOk, DirectoryOk, BlocksOk, HandlesOk, Abs, Step, Spec.Step, Spec.Allowed, Spec.WellFormed;
    RunRefines(fs, ops);
    var g := Run(fs, ops).fs;
    AtMost24Inodes(g);
    AtMost24Blocks(g);
    NeverFull(g);
    TakenCount(g.fileTaken);
  }

  lemma InitialInv()
    ensures Inv(Initial()) && RootEntries(Initial()) == seq(MAX_DIR_ENTRIES, _ => UNUSED)
  {
    hide BlockShape;
    var fs := Initial();
    assert RootEntries(fs) == seq(MAX_DIR_ENTRIES, _ => UNUSED);
    AllFree(fs.fileTaken);
    assert RootOk(fs) && DirectoryOk(fs) && BlocksOk(fs) && HandlesOk(fs);
  }

  /** The file system starts as the empty map. */
  lemma InitialRefines()
    ensures Inv(Initial()) && Abs(Initial()) == Spec.Spec(map[], map[], false)
  {
    hide BlockShape, RootEntries, FileBytes, Inv;
    InitialInv();
    var fs := Initial();
    assert Names(RootEntries(fs)) == {};
    assert AbsFiles(fs) == map[];
    assert AbsHandles(fs) == map[];
  }

  lemma {:induction false} AllFree(taken: seq<bool>)
    requires forall i :: 0 <= i < |taken| ==> !taken[i]
    ensures CountFree(taken) == |taken|
  {
    if taken != [] {
      AllFree(taken[1..]);
    }
  }

  /** From the start: every run within the rules is a run of the map from the empty one. */
  lemma RunsFromStart(ops: seq<Spec.Op>)
    requires Spec.AllowedRun(Spec.Spec(map[], map[], false), ops)
    ensures Defined(Initial(), ops)
    ensures var r := Run(Initial(), ops);
            Inv(r.fs) && Spec.Run(Spec.Spec(map[], map[], false), ops) == Spec.Ended(Abs(r.fs), r.replies)
  {
    hide BlockShape, Inv, Step, Spec.Step, Abs, Spec.Allowed, Initial;
    InitialRefines();
    RunRefines(Initial(), ops);
  }

  /* ----- names stay where they were put ----- */

  lemma StepKeepsEntries(fs: Fs, op: Spec.Op, i: int)
    requires Tables(fs) && Inv(fs) && Spec.Allowed(Abs(fs), op) && InUse(RootEntries(fs), i)
    ensures StepDefined(fs, op) && RootEntries(Step(fs, op).fs)[i] == RootEntries(fs)[i]
  {
    hide BlockShape, DirectoryOk, CountOk, Abs, Write, Open, Spec.OpenRules, RootEntries;
    match op
    case OpOpen(path, flags) => OpenKeepsEntries(fs, path, flags, i);
    case OpClose(h) => DirectoryKept(fs, Step(fs, op).fs);
    case OpWrite(h, buf) =>
      if ValidHandle(h) {
        HandleTaken(fs, h);
        WriteDirectory(fs, h, buf);
      } else {
        BadHandle(fs, h, buf, 0);
      }
    case OpRead(h, len) => DirectoryKept(fs, Step(fs, op).fs);
  }

  lemma HandleTaken(fs: Fs, h: int)
    requires Tables(fs) && ValidHandle(h)
    ensures h in Abs(fs).handles <==> fs.fileTaken[h]
  {
  }

  lemma OpenKeepsEntries(fs: Fs, path: string, flags: Flags, i: int)
    requires Tables(fs) && Inv(fs) && InUse(RootEntries(fs), i)
    ensures RootEntries(Open(fs, path, flags).fs)[i] == RootEntries(fs)[i]
  {
    hide BlockShape, DirectoryOk, CountOk, Lookup, RootEntries, OpenExisting, OpenNew, BlocksOk, HandlesOk, NameOf, InumberOf, Names;
    var n := Lookup(fs, path);
    LookupAgrees(fs, path);
    if fs.closing {
    } else if n >= 0 {
      ExistingKeepsEntries(fs, n, flags);
    } else if flags.create {
      var name := if path == "" then path else path[1..];
      if FirstUnused(RootEntries(fs)) == -1 || name == "" {
        RollbackShape(fs, name);
        UnusedInode(fs, FirstFree(fs.inodeTaken));
      } else {
        CreatedShape(fs, name);
        OpenedDirectory(Created(fs, name), FirstFree(fs.inodeTaken));
      }
    }
  }

  lemma ExistingKeepsEntries(fs: Fs, n: int, flags: Flags)
    requires Tables(fs) && Inv(fs) && LiveFile(fs, n)
    ensures RootEntries(OpenExisting(fs, n, flags).fs) == RootEntries(fs)
  {
    hide BlockShape, DirectoryOk, CountOk, RootEntries, Truncate, BlocksOk, HandlesOk;
    TruncateShape(fs, n);
    TruncateOwned(fs, n);
    var t := if flags.truncate then Truncate(fs, n).fs else fs;
    DirectoryKept(t, AddOpen(t, n, if flags.append then t.inodes[n].size else 0).fs);
  }

  /** Once a name is found, every later lookup finds the same inode. */
  lemma {:induction false} LookupStable(fs: Fs, ops: seq<Spec.Op>, path: string)
    requires Tables(fs) && Inv(fs) && Spec.WellFormed(Abs(fs)) && Spec.AllowedRun(Abs(fs), ops) && Lookup(fs, path) >= 0
    ensures Defined(fs, ops) && Lookup(Run(fs, ops).fs, path) == Lookup(fs, path)
    decreases |ops|
  {
    hide BlockShape, Inv, Step, Spec.Step, Abs, Spec.Allowed, Spec.WellFormed, Lookup, RootEntries;
    RunRefines(fs, ops);
    if ops != [] {
      StepRefines(fs, ops[0]);
      Spec.StepWellFormed(Abs(fs), ops[0]);
      StepKeepsLookup(fs, ops[0], path);
      LookupStable(Step(fs, ops[0]).fs, ops[1..], path);
    }
  }

  lemma StepKeepsLookup(fs: Fs, op: Spec.Op, path: string)
    requires Tables(fs) && Inv(fs) && Spec.Allowed(Abs(fs), op) && Lookup(fs, path) >= 0
    ensures StepDefined(fs, op) && Lookup(Step(fs, op).fs, path) == Lookup(fs, path)
  {
    hide BlockShape, Step, Abs, Spec.Allowed, Lookup, RootEntries, BlocksOk, HandlesOk, CountOk, RootOk, InumberOf, DirectoryOk, Names;
    LookupAgrees(fs, path);
    StepRefines(fs, op);
    var g := Step(fs, op).fs;
    LookupAgrees(g, path);
    EntryOfName(fs, path[1..]);
    var i := FindEntry(RootEntries(fs), path[1..]);
    StepKeepsEntries(fs, op, i);
    assert InUse(RootEntries(g), i);
    EntryFound(g, i);
  }

  lemma EntryOfName(fs: Fs, name: string)
    requires Tables(fs) && InumberOf(RootEntries(fs), name) >= 0
    ensures var i := FindEntry(RootEntries(fs), name);
            InUse(RootEntries(fs), i) && RootEntries(fs)[i] == DirEntry(name, InumberOf(RootEntries(fs), name))
  {
    hide BlockShape, RootEntries;
  }
}
