/** Reading back through a handle that is opened after the writes. */
module IndexedReopen {
  import opened Bytes
  import opened AllocationTable
  import opened Disk
  import opened IndexedState
  import opened IndexedOwnership
  import opened IndexedWrite
  import opened IndexedWriteLaw
  import opened IndexedReadLaw
  import opened IndexedReadback
  import opened IndexedOps
  import opened IndexedRuns
  import opened IndexedOpenLaw

  /** Opening a file that is there, neither emptied nor at its end, only gives out a handle at its start. */
  lemma OpenAtStart(v: Variant, fs: Fs, path: string, flags: Flags, n: int)
    requires Tables(fs) && ValidInumber(n) && Lookup(fs, path) == n && !flags.truncate && !flags.append
    ensures Open(v, fs, path, flags) == AddOpen(fs, n, 0, false)
  {
    hide InodeShape, BlockShape, RootEntries, AddOpen;
  }

  /**
   * As written: records written from the start of a file, and read back with the same lengths through a handle opened
   * afterwards, come back unchanged if and only if the clamp is right at every chunk.
   */
  lemma AsWrittenReopened(fs: Fs, h: int, n: int, records: seq<seq<byte>>, path: string, flags: Flags)
    requires Tables(fs) && Owned(fs) && StandsAt(fs, h, n, 0)
    requires forall i :: 0 <= i < |records| ==> |records[i]| % 0x1_0000_0000 < 0x8000_0000
    requires WriteAll(AsWritten, fs, h, records).complete
    requires var a := WriteAll(AsWritten, fs, h, records).fs;
             Lookup(a, path) == n && !flags.truncate && !flags.append && Open(AsWritten, a, path, flags).ret != -1
    ensures var r := Open(AsWritten, WriteAll(AsWritten, fs, h, records).fs, path, flags);
            && (ReadAll(AsWritten, r.fs, r.ret, Lengths(records)) == records <==> AllAgree(0, records))
            && (AllDirect(0, records) ==> ReadAll(AsWritten, r.fs, r.ret, Lengths(records)) == records)
  {
    hide InodeShape, BlockShape, Ref, Page, Owned, ReadAll, WriteAll, LaidAll, AllAgree, EndAll, Lookup, Open, AllDirect, KeepsOutside;
    var a := WriteAll(AsWritten, fs, h, records).fs;
    WritesLay(fs, h, n, 0, records);
    OpenAtStart(AsWritten, a, path, flags, n);
    var r := AddOpen(a, n, 0, false);
    RelabelledCells(a, r.fs, n);
    RelabelledLaidAll(a, r.fs, n, 0, records);
    ReadsOfLaid(r.fs, r.ret, n, 0, records);
    if AllDirect(0, records) {
      AllDirectAgree(0, records);
    }
  }

  /**
   * With the repaired lines: records written from the start of a file come back through a handle opened afterwards,
   * whatever lengths the reads are cut into.
   */
  lemma RepairedReopened(fs: Fs, h: int, n: int, records: seq<seq<byte>>, lens: seq<nat>, path: string, flags: Flags)
    requires Tables(fs) && Owned(fs) && OpenOn(fs, h, n) && WriteOffset(fs, h) == 0
    requires forall i :: 0 <= i < |records| ==> |records[i]| % 0x1_0000_0000 < 0x8000_0000
    requires WriteAll(Repaired, fs, h, records).complete && Sum(lens) == |Concat(records)|
    requires var a := WriteAll(Repaired, fs, h, records).fs;
             Lookup(a, path) == n && !flags.truncate && !flags.append && Open(Repaired, a, path, flags).ret != -1
    ensures var r := Open(Repaired, WriteAll(Repaired, fs, h, records).fs, path, flags);
            Concat(ReadAll(Repaired, r.fs, r.ret, lens)) == Concat(records)
  {
    hide InodeShape, BlockShape, Ref, Page, Owned, ReadAll, WriteAll, Lookup, Open, Sized, Contents, AddOpen, Concat;
    var a := WriteAll(Repaired, fs, h, records).fs;
    RepairedWritesSplice(fs, h, n, records);
    OpenOnFile(a, h, n);
    OpenAtStart(Repaired, a, path, flags, n);
    AddOpenLaw(a, n, 0, false, Contents(a, n));
    var r := AddOpen(a, n, 0, false);
    FirstFreeHandle(a, n);
    RepairedReadsSlice(r.fs, r.ret, n, lens);
  }

  lemma FirstFreeHandle(fs: Fs, n: int)
    requires Tables(fs) && AddOpen(fs, n, 0, false).ret != -1
    ensures ValidHandle(AddOpen(fs, n, 0, false).ret)
  {
  }
}
