/** The numbering of handles: the first free entry of the open file table is the least number not in use. */
module HandleTable {
  import opened AllocationTable
  import opened Disk

  function LeastUnused<H>(handles: map<int, H>, h: int): (r: int)
    requires 0 <= h <= MAX_OPEN_FILES
    ensures r == -1 || h <= r < MAX_OPEN_FILES
    ensures r == -1 ==> forall i :: h <= i < MAX_OPEN_FILES ==> i in handles
    ensures r != -1 ==> r !in handles && forall i :: h <= i < r ==> i in handles
    decreases MAX_OPEN_FILES - h
  {
    if h == MAX_OPEN_FILES then -1 else if h !in handles then h else LeastUnused(handles, h + 1)
  }

  lemma {:induction false} FirstFreeIsLeast<H>(taken: seq<bool>, handles: map<int, H>, h: int)
    requires |taken| == MAX_OPEN_FILES && 0 <= h <= MAX_OPEN_FILES
    requires forall i :: 0 <= i < MAX_OPEN_FILES ==> (taken[i] <==> i in handles)
    ensures LeastUnused(handles, h) == FirstFreeFrom(taken, h)
    decreases MAX_OPEN_FILES - h
  {
    if h < MAX_OPEN_FILES {
      FirstFreeIsLeast(taken, handles, h + 1);
    }
  }
}
