/** The numbers of config.h, in what a caller sees of them. */
module IndexedSizes {
  import opened Bytes
  import opened AllocationTable
  import opened Disk
  import opened IndexedState
  import opened IndexedOwnership
  import opened IndexedWrite
  import opened IndexedWriteLaw
  import opened IndexedOps
  import opened IndexedRuns
  import opened IndexedOpenLaw
  import opened IndexedOpenTables

  /** At the start there is room for 49 files by their inodes, for 23 by the directory, for 20 handles, and 1023 blocks are free. */
  lemma RoomAtStart()
    ensures var fs := Initial();
            && CountFree(fs.inodeTaken) == 49 && CountFree(fs.blockTaken) == 1023 && CountFree(fs.fileTaken) == 20
            && |RootEntries(fs)| == 23 && (forall i :: 0 <= i < 23 ==> RootEntries(fs)[i].inumber == -1)
  {
    hide InodeShape, BlockShape, CountFree;
    var fs := Initial();
    InitialEntries();
    OneTaken(fs.inodeTaken);
    OneTaken(fs.blockTaken);
    NoneTaken(fs.fileTaken);
  }

  lemma {:induction false} NoneTaken(taken: seq<bool>)
    requires forall i :: 0 <= i < |taken| ==> !taken[i]
    ensures CountFree(taken) == |taken|
  {
    if taken != [] {
      NoneTaken(taken[1..]);
    }
  }

  lemma OneTaken(taken: seq<bool>)
    requires taken != [] && taken[0] && forall i :: 1 <= i < |taken| ==> !taken[i]
    ensures CountFree(taken) == |taken| - 1
  {
    NoneTaken(taken[1..]);
  }

  lemma {:induction false} MissingAtMost(fs: Fs, n: int, i: nat, last: int)
    requires Tables(fs) && ValidInumber(n) && i <= last <= SLOTS
    ensures Missing(fs, n, i, last) <= last - i
    decreases last - i
  {
    hide InodeShape, BlockShape, Ref;
    if i < last {
      MissingAtMost(fs, n, i + 1, last);
    }
  }

  /**
   * With the repaired lines, where 266 blocks are free a write is complete unless it reaches past byte 272384, which is
   * where the largest file ends.
   */
  lemma RoomyWrite(fs: Fs, h: int, n: int, buf: seq<byte>)
    requires Tables(fs) && Owned(fs) && OpenOn(fs, h, n) && WriteOffset(fs, h) <= fs.inodes[n].size && |buf| < 0x8000_0000
    requires 266 <= CountFree(fs.blockTaken)
    ensures Write(Repaired, fs, h, buf).ret == Min(|buf|, 272384 - WriteOffset(fs, h))
  {
    hide InodeShape, BlockShape, Owned, Write, Missing, Sized, IsFile, Ref;
    OpenOnFile(fs, h, n);
    RepairedWriteAmount(fs, h, n, buf);
    var o := WriteOffset(fs, h);
    var m := Fitting(o, buf);
    if m > 0 {
      MissingAtMost(fs, n, o / BLOCK_SIZE, EndSlot(o, m));
    }
    assert Needed(fs, n, o, m) <= 266;
  }

  /** From the start: the first write to the first file holds 272384 bytes and no more, and they are those of the buffer. */
  lemma FirstWrite(name: string, buf: seq<byte>)
    requires name != "" && |buf| < 0x8000_0000
    ensures var a := Open(Repaired, Initial(), "/" + name, Flags(true, false, false));
            var w := Write(Repaired, a.fs, a.ret, buf);
            a.ret == 0 && w.ret == Min(|buf|, 272384) && Reads(w.fs, 1, buf[..w.ret])
  {
    hide InodeShape, BlockShape, Open, Write, Owned, HandlesOk, EntriesOk, RootEntries, CountFree, OtherFilesSame, NoOtherFiles, Lookup, AllSized,
      Sized, Contents;
    var fs, path := Initial(), "/" + name;
    var a := Open(Repaired, fs, path, Flags(true, false, false));
    InitialGood();
    FreeAtStart(name);
    OpenLaw(fs, path, Flags(true, false, false));
    OpenGood(fs, path, Flags(true, false, false));
    LawsApply(a.fs, 0);
    OpenedRoom(name);
    RoomyWrite(a.fs, 0, 1, buf);
    RepairedWriteSplices(a.fs, 0, 1, buf);
    var w := Write(Repaired, a.fs, 0, buf);
    assert Splice([], 0, buf[..w.ret]) == buf[..w.ret];
  }

  lemma FreeAtStart(name: string)
    requires name != ""
    ensures var fs := Initial();
            && ("/" + name)[1..] == name && ValidPath("/" + name) && Lookup(fs, "/" + name) == -1
            && FirstUnused(RootEntries(fs)) == 0 && FirstFree(fs.inodeTaken) == 1 && FirstFree(fs.blockTaken) == 1 && FirstFree(fs.fileTaken) == 0
            && CanCreate(fs)
  {
    hide InodeShape, BlockShape, RootEntries;
    var fs := Initial();
    InitialEntries();
    assert ("/" + name)[1..] == name;
    assert FirstUnused(RootEntries(fs)) == 0 by { assert !Used(RootEntries(fs)[0]); }
    assert FirstFree(fs.inodeTaken) == 1 by { assert !fs.inodeTaken[1]; }
    assert FirstFree(fs.blockTaken) == 1 by { assert !fs.blockTaken[1]; }
    assert FirstFree(fs.fileTaken) == 0 by { assert !fs.fileTaken[0]; }
  }

  lemma OpenedRoom(name: string)
    requires name != ""
    ensures var a := Open(Repaired, Initial(), "/" + name, Flags(true, false, false));
            CountFree(a.fs.blockTaken) == 1022
  {
    hide InodeShape, BlockShape, RootEntries, CountFree, Lookup;
    var fs := Initial();
    FreeAtStart(name);
    RoomAtStart();
    RootStands(fs) by { InitialConsistent(); }
    CountFreeUpdate(fs.blockTaken, 1, true);
    var c := CreateFile(fs);
    CreateLaw(fs) by { InitialConsistent(); }
    RootStands(c.fs);
    assert c.fs.blockTaken == fs.blockTaken[1 := true];
    assert FirstUnused(RootEntries(c.fs)) == 0;
  }
}
