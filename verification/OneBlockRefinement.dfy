/** The one-block file system refines the map of OneBlockSpec: each operation keeps the invariant and takes the spec's step. */
module OneBlockRefinement {
  import opened Bytes
  import opened AllocationTable
  import opened Disk
  import opened Directory
  import opened OneBlockState
  import opened OneBlockInvariant
  import Spec = OneBlockSpec

  /* ----- the abstraction ----- */

  function FileBytes(fs: Fs, n: int): (r: seq<byte>)
    requires Tables(fs)
    ensures |r| <= BLOCK_SIZE
  {
    if !ValidInumber(n) || !ValidBlock(fs.inodes[n].block) then [] else BytesOf(fs.blocks[fs.inodes[n].block])[..fs.inodes[n].size]
  }

  ghost function AbsFiles(fs: Fs): map<string, seq<byte>>
    requires Tables(fs)
  {
    map name | name in Names(RootEntries(fs)) :: FileBytes(fs, InumberOf(RootEntries(fs), name))
  }

  ghost function AbsHandles(fs: Fs): map<int, Spec.Handle>
    requires Tables(fs)
  {
    map h | 0 <= h < MAX_OPEN_FILES && fs.fileTaken[h] ::
      Spec.Handle(NameOf(RootEntries(fs), fs.files[h].inumber), fs.files[h].offset)
  }

  ghost function Abs(fs: Fs): Spec.Spec
    requires Tables(fs)
  {
    Spec.Spec(AbsFiles(fs), AbsHandles(fs), fs.closing)
  }

  /* ----- the directory as a map ----- */

  /** An entry is found by its name, and its inode number leads back to the name. */
  lemma EntryFound(fs: Fs, i: int)
    requires Tables(fs) && DirectoryOk(fs) && InUse(RootEntries(fs), i)
    ensures var e := RootEntries(fs)[i];
            && e.name in Names(RootEntries(fs)) && InumberOf(RootEntries(fs), e.name) == e.inumber
            && NameOf(RootEntries(fs), e.inumber) == e.name && LiveFile(fs, e.inumber)
  {
    hide BlockShape, RootEntries;
    var entries := RootEntries(fs);
    var j := FindEntry(entries, entries[i].name);
    assert InUse(entries, j);
    assert Lists(entries, i, entries[i].inumber);
    forall k | Lists(entries, k, entries[i].inumber) ensures k == i {
      assert InUse(entries, k);
    }
  }

  /** Lookup agrees with the map: a name is in it iff it is found, and then its inode is a live file of that name. */
  lemma NameFound(fs: Fs, name: string)
    requires Tables(fs) && DirectoryOk(fs)
    ensures name in Names(RootEntries(fs)) <==> InumberOf(RootEntries(fs), name) != -1
    ensures name in Names(RootEntries(fs)) ==>
              var n := InumberOf(RootEntries(fs), name);
              LiveFile(fs, n) && NameOf(RootEntries(fs), n) == name && 0 < |name| < MAX_FILE_NAME
  {
    hide BlockShape, RootEntries;
    var entries := RootEntries(fs);
    if i :| 0 <= i < |entries| && InUse(entries, i) && entries[i].name == name {
      EntryFound(fs, i);
    }
    var j := FindEntry(entries, name);
    if j != -1 {
      assert InUse(entries, j);
    }
  }

  /** And every live file is found under one name. */
  lemma FileNamed(fs: Fs, n: int)
    requires Tables(fs) && DirectoryOk(fs) && LiveFile(fs, n)
    ensures NameOf(RootEntries(fs), n) in Names(RootEntries(fs))
    ensures InumberOf(RootEntries(fs), NameOf(RootEntries(fs), n)) == n
  {
    var i := EntryOf(fs, n);
    assert InUse(RootEntries(fs), i);
    EntryFound(fs, i);
  }
}
