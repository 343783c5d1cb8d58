/** The storage both versions of the file system share: numbered blocks, and the directory kept in one of them. */
module Disk {
  import opened Bytes

  const BLOCK_SIZE: int := 1024
  const DATA_BLOCKS: int := 1024
  const INODE_TABLE_SIZE: int := 50
  const MAX_OPEN_FILES: int := 20
  const MAX_FILE_NAME: int := 40
  const MAX_DIR_ENTRIES: int := 23  // of MAX_FILE_NAME characters and an int, in a block
  const ROOT_DIR_INUM: int := 0
  const INDEX_ENTRIES: int := 256  // BLOCK_SIZE / sizeof(int)

  datatype InodeType = File | Dir

  datatype DirEntry = DirEntry(name: string, inumber: int)

  /** What a block was last used for.  All kinds are numbered together, so that they stay apart is a theorem. */
  datatype Block =
    | Data(bytes: seq<byte>)
    | Index(slots: seq<int>)
    | Directory(entries: seq<DirEntry>)

  predicate ValidBlock(b: int) {
    0 <= b < DATA_BLOCKS
  }

  predicate ValidInumber(n: int) {
    0 <= n < INODE_TABLE_SIZE
  }

  predicate ValidHandle(h: int) {
    0 <= h < MAX_OPEN_FILES
  }

  predicate BlockShape(b: Block) {
    match b
    case Data(bytes) => |bytes| == BLOCK_SIZE
    case Index(slots) => |slots| == INDEX_ENTRIES && forall i :: 0 <= i < |slots| ==> slots[i] == -1 || ValidBlock(slots[i])
    case Directory(entries) =>
      |entries| == MAX_DIR_ENTRIES && forall i :: 0 <= i < |entries| ==> |entries[i].name| < MAX_FILE_NAME
  }

  /**
   * The bytes of a block.  A block that last held block numbers or entries reads as zeros;
   * the theorems about contents only ever read bytes that were written.
   */
  function BytesOf(b: Block): (r: seq<byte>)
    requires BlockShape(b)
    ensures |r| == BLOCK_SIZE
  {
    if b.Data? then b.bytes else seq(BLOCK_SIZE, _ => 0 as byte)
  }

  /** memcpy of d into a block at byte offset at. */
  function PutBytes(b: Block, at: nat, d: seq<byte>): (r: Block)
    requires BlockShape(b) && at + |d| <= BLOCK_SIZE
    ensures r.Data? && BlockShape(r)
    ensures r.bytes == Splice(BytesOf(b), at, d)
  {
    Data(Splice(BytesOf(b), at, d))
  }

  /* ----- flags and path names ----- */

  datatype Flags = Flags(create: bool, truncate: bool, append: bool)

  predicate ValidPath(path: string) {
    |path| > 1 && path[0] == '/'
  }

  /** A path is valid exactly when it is a slash before a name that is not empty, which is what follows the slash. */
  lemma ValidPathExact(path: string)
    ensures ValidPath(path) <==> exists name :: name != "" && path == "/" + name
    ensures forall name :: path == "/" + name ==> path[1..] == name
  {
    if ValidPath(path) {
      assert path == "/" + path[1..] && path[1..] != "";
    }
  }

  /** strncpy of 39 characters and a terminator: longer names are stored cut. */
  function StoredName(name: string): (r: string)
    ensures |r| < MAX_FILE_NAME
    ensures r == name <==> |name| < MAX_FILE_NAME
    ensures |name| >= MAX_FILE_NAME ==> |r| == 39 && r <= name
  {
    if |name| < MAX_FILE_NAME then name else name[..MAX_FILE_NAME - 1]
  }

  /* ----- directory entries ----- */

  predicate Used(e: DirEntry) {
    e.inumber != -1
  }

  /** The first used entry, from i on, that holds the name; -1 if there is none. */
  function FindEntryFrom(entries: seq<DirEntry>, name: string, i: nat): (r: int)
    requires i <= |entries|
    ensures r == -1 || i <= r < |entries|
    ensures r == -1 ==> forall j :: i <= j < |entries| ==> !(Used(entries[j]) && entries[j].name == name)
    ensures r != -1 ==> Used(entries[r]) && entries[r].name == name
    ensures r != -1 ==> forall j :: i <= j < r ==> !(Used(entries[j]) && entries[j].name == name)
    decreases |entries| - i
  {
    if i == |entries| then -1
    else if Used(entries[i]) && entries[i].name == name then i
    else FindEntryFrom(entries, name, i + 1)
  }

  function FindEntry(entries: seq<DirEntry>, name: string): (r: int)
    ensures r == -1 || 0 <= r < |entries|
    ensures r == -1 <==> forall j :: 0 <= j < |entries| ==> !(Used(entries[j]) && entries[j].name == name)
    ensures r != -1 ==> Used(entries[r]) && entries[r].name == name
    ensures r != -1 ==> forall j :: 0 <= j < r ==> !(Used(entries[j]) && entries[j].name == name)
  {
    FindEntryFrom(entries, name, 0)
  }

  function FirstUnusedFrom(entries: seq<DirEntry>, i: nat): (r: int)
    requires i <= |entries|
    ensures r == -1 || i <= r < |entries|
    ensures r == -1 ==> forall j :: i <= j < |entries| ==> Used(entries[j])
    ensures r != -1 ==> !Used(entries[r]) && forall j :: i <= j < r ==> Used(entries[j])
    decreases |entries| - i
  {
    if i == |entries| then -1 else if !Used(entries[i]) then i else FirstUnusedFrom(entries, i + 1)
  }

  function FirstUnused(entries: seq<DirEntry>): (r: int)
    ensures r == -1 || 0 <= r < |entries|
    ensures r == -1 <==> forall j :: 0 <= j < |entries| ==> Used(entries[j])
    ensures r != -1 ==> !Used(entries[r]) && forall j :: 0 <= j < r ==> Used(entries[j])
  {
    FirstUnusedFrom(entries, 0)
  }

  function InumberOf(entries: seq<DirEntry>, name: string): (r: int)
    ensures r == -1 <==> FindEntry(entries, name) == -1
  {
    var i := FindEntry(entries, name);
    if i == -1 then -1 else entries[i].inumber
  }

  /** The entries after add_dir_entry has filled the first unused one; unchanged when the directory is full. */
  function AddEntry(entries: seq<DirEntry>, name: string, inumber: int): (r: seq<DirEntry>)
    ensures |r| == |entries|
  {
    var i := FirstUnused(entries);
    if i == -1 then entries else entries[i := DirEntry(StoredName(name), inumber)]
  }

  /** The scan of add_dir_entry: the first unused entry, or -1. */
  method ScanUnused(entries: seq<DirEntry>) returns (r: int)
    ensures r == FirstUnused(entries)
  {
    var i := 0;
    while i < |entries|
      invariant 0 <= i <= |entries|
      invariant forall j :: 0 <= j < i ==> Used(entries[j])
    {
      if entries[i].inumber == -1 {
        return i;
      }
      i := i + 1;
    }
    return -1;
  }

  /** The scan of find_in_dir: the inumber of the first used entry with the name, or -1. */
  method ScanName(entries: seq<DirEntry>, name: string) returns (r: int)
    requires forall i :: 0 <= i < |entries| ==> |entries[i].name| < MAX_FILE_NAME
    ensures r == InumberOf(entries, name)
  {
    var i := 0;
    while i < |entries|
      invariant 0 <= i <= |entries|
      invariant forall j :: 0 <= j < i ==> !(Used(entries[j]) && entries[j].name == name)
    {
      if entries[i].inumber != -1 {
        var same := SameName(entries[i].name, name);
        if same {
          assert FindEntry(entries, name) == i;
          return entries[i].inumber;
        }
      }
      i := i + 1;
    }
    assert FindEntry(entries, name) == -1;
    return -1;
  }

  /** strncmp over MAX_FILE_NAME characters, a stored name against a name asked for. */
  method SameName(stored: string, name: string) returns (same: bool)
    requires |stored| < MAX_FILE_NAME
    ensures same <==> stored == name
  {
    var i := 0;
    while i < MAX_FILE_NAME
      invariant 0 <= i <= MAX_FILE_NAME && i <= |stored| && i <= |name|
      invariant stored[..i] == name[..i]
    {
      if i == |stored| || i == |name| {
        assert stored == stored[..|stored|] && name == name[..|name|];
        return |stored| == |name|;
      }
      if stored[i] != name[i] {
        return false;
      }
      i := i + 1;
    }
  }
}
