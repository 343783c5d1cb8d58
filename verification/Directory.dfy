/** A directory as a map from names to inode numbers. */
module Directory {
  import opened Disk

  /** Entry i of the directory is in use. */
  predicate InUse(entries: seq<DirEntry>, i: int) {
    0 <= i < |entries| && Used(entries[i])
  }

  /** Entry i is in use and names inode n. */
  predicate Lists(entries: seq<DirEntry>, i: int, n: int) {
    InUse(entries, i) && entries[i].inumber == n
  }

  function Names(entries: seq<DirEntry>): set<string> {
    set i | 0 <= i < |entries| && InUse(entries, i) :: entries[i].name
  }

  /** The name under which inode n is listed. */
  ghost function NameOf(entries: seq<DirEntry>, n: int): string {
    if i :| Lists(entries, i, n) then entries[i].name else ""
  }

  /** Names and inode numbers of entries are distinct, and the inode numbers are those of the files. */
  ghost predicate DirOk(entries: seq<DirEntry>, files: set<int>) {
    && (forall i {:trigger InUse(entries, i)} :: InUse(entries, i) ==> entries[i].inumber in files)
    && (forall i, j {:trigger InUse(entries, i), InUse(entries, j)} :: InUse(entries, i) && InUse(entries, j) && i != j ==>
          entries[i].name != entries[j].name && entries[i].inumber != entries[j].inumber)
    && (forall n :: n in files ==> exists i :: Lists(entries, i, n))
  }

  /** An entry is found by its name, and its inode number leads back to the name. */
  lemma ListedFound(entries: seq<DirEntry>, files: set<int>, i: int)
    requires DirOk(entries, files) && InUse(entries, i)
    ensures var e := entries[i];
            e.name in Names(entries) && InumberOf(entries, e.name) == e.inumber && NameOf(entries, e.inumber) == e.name && e.inumber in files
  {
    var j := FindEntry(entries, entries[i].name);
    assert InUse(entries, j);
    assert Lists(entries, i, entries[i].inumber);
    forall k | Lists(entries, k, entries[i].inumber) ensures k == i {
      assert InUse(entries, k);
    }
  }

  lemma ListedName(entries: seq<DirEntry>, files: set<int>, name: string)
    requires DirOk(entries, files)
    ensures name in Names(entries) <==> InumberOf(entries, name) != -1
    ensures name in Names(entries) ==> InumberOf(entries, name) in files && NameOf(entries, InumberOf(entries, name)) == name
  {
    if i :| 0 <= i < |entries| && InUse(entries, i) && entries[i].name == name {
      ListedFound(entries, files, i);
    }
    var j := FindEntry(entries, name);
    if j != -1 {
      assert InUse(entries, j);
    }
  }

  lemma FileListed(entries: seq<DirEntry>, files: set<int>, n: int)
    requires DirOk(entries, files) && n in files
    ensures NameOf(entries, n) in Names(entries) && InumberOf(entries, NameOf(entries, n)) == n
  {
    var i :| Lists(entries, i, n);
    ListedFound(entries, files, i);
  }

  /** A new name for a new file keeps the directory a map, and finds that file under that name and all others as before. */
  lemma AddedKeeps(entries: seq<DirEntry>, files: set<int>, name: string, n: int)
    requires DirOk(entries, files) && n !in files && n != -1 && FirstUnused(entries) != -1
    requires name !in Names(entries) && |name| < MAX_FILE_NAME
    ensures DirOk(AddEntry(entries, name, n), files + {n})
  {
    var now, i := AddEntry(entries, name, n), FirstUnused(entries);
    forall j ensures InUse(now, j) <==> InUse(entries, j) || j == i {
    }
    assert Lists(now, i, n);
    forall m | m in files ensures exists j :: Lists(now, j, m) {
      var j :| Lists(entries, j, m);
      assert Lists(now, j, m);
    }
    forall j, k | InUse(now, j) && InUse(now, k) && j != k ensures now[j].name != now[k].name && now[j].inumber != now[k].inumber {
      assert j != i ==> InUse(entries, j) && entries[j].name in Names(entries);
      assert k != i ==> InUse(entries, k) && entries[k].name in Names(entries);
    }
  }

  lemma AddedFinds(entries: seq<DirEntry>, files: set<int>, name: string, n: int)
    requires DirOk(entries, files) && n !in files && n != -1 && FirstUnused(entries) != -1
    requires name !in Names(entries) && |name| < MAX_FILE_NAME
    ensures var now := AddEntry(entries, name, n);
            && Names(now) == Names(entries) + {name} && InumberOf(now, name) == n && NameOf(now, n) == name
            && (forall other :: other in Names(entries) ==> InumberOf(now, other) == InumberOf(entries, other))
            && (forall m :: m in files ==> NameOf(now, m) == NameOf(entries, m))
  {
    var now, i := AddEntry(entries, name, n), FirstUnused(entries);
    AddedKeeps(entries, files, name, n);
    forall j ensures InUse(now, j) <==> InUse(entries, j) || j == i {
    }
    ListedFound(now, files + {n}, i);
    forall other | other in Names(entries) ensures other in Names(now) && InumberOf(now, other) == InumberOf(entries, other) {
      var j :| 0 <= j < |entries| && InUse(entries, j) && entries[j].name == other;
      ListedFound(entries, files, j);
      assert InUse(now, j);
      ListedFound(now, files + {n}, j);
    }
    forall m | m in files ensures NameOf(now, m) == NameOf(entries, m) {
      var j :| Lists(entries, j, m);
      ListedFound(entries, files, j);
      assert InUse(now, j);
      ListedFound(now, files + {n}, j);
    }
    assert Names(now) == Names(entries) + {name};
  }
}
