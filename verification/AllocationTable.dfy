/** First-fit allocation in a table of FREE (false) and TAKEN (true) marks: inodes, blocks and open files all use it. */
module AllocationTable {

  function FirstFreeFrom(taken: seq<bool>, i: nat): (r: int)
    requires i <= |taken|
    ensures r == -1 || i <= r < |taken|
    ensures r == -1 ==> forall j :: i <= j < |taken| ==> taken[j]
    ensures r != -1 ==> !taken[r] && forall j :: i <= j < r ==> taken[j]
    decreases |taken| - i
  {
    if i == |taken| then -1 else if !taken[i] then i else FirstFreeFrom(taken, i + 1)
  }

  function FirstFree(taken: seq<bool>): (r: int)
    ensures r == -1 || 0 <= r < |taken|
    ensures r == -1 <==> forall j :: 0 <= j < |taken| ==> taken[j]
    ensures r != -1 ==> !taken[r] && forall j :: 0 <= j < r ==> taken[j]
  {
    FirstFreeFrom(taken, 0)
  }

  function CountFree(taken: seq<bool>): (n: nat)
    ensures n <= |taken|
  {
    if taken == [] then 0 else (if taken[0] then 0 else 1) + CountFree(taken[1..])
  }

  lemma {:induction false} CountFreeUpdate(taken: seq<bool>, i: nat, mark: bool)
    requires i < |taken|
    ensures CountFree(taken[i := mark]) == CountFree(taken) + (if taken[i] then 1 else 0) - (if mark then 1 else 0)
  {
    if i == 0 {
      assert taken[i := mark][1..] == taken[1..];
    } else {
      assert taken[i := mark][1..] == taken[1..][i - 1 := mark];
      CountFreeUpdate(taken[1..], i - 1, mark);
    }
  }

  lemma {:induction false} CountFreeZero(taken: seq<bool>)
    ensures CountFree(taken) == 0 <==> FirstFree(taken) == -1
  {
    if taken != [] {
      CountFreeZero(taken[1..]);
      assert forall j :: 0 <= j < |taken[1..]| ==> taken[1..][j] == taken[j + 1];
      if !taken[0] {
        assert FirstFree(taken) != -1;
      } else if FirstFree(taken) != -1 {
        assert !taken[1..][FirstFree(taken) - 1];
      }
    }
  }

  /** The entries marked TAKEN. */
  function TakenSet(taken: seq<bool>): set<int> {
    set n | 0 <= n < |taken| && taken[n]
  }

  /** TAKEN and FREE entries together are the whole table. */
  lemma {:induction false} TakenCount(taken: seq<bool>)
    ensures |TakenSet(taken)| == |taken| - CountFree(taken)
    decreases |taken|
  {
    if taken != [] {
      var init, last := taken[..|taken| - 1], |taken| - 1;
      TakenCount(init);
      CountFreeSplit(init, taken[last..]);
      assert taken == init + taken[last..];
      assert taken[last..] == [taken[last]] && taken[last..][1..] == [];
      assert TakenSet(taken) == if taken[last] then TakenSet(init) + {last} else TakenSet(init);
    }
  }

  lemma {:induction false} CountFreeSplit(a: seq<bool>, b: seq<bool>)
    ensures CountFree(a + b) == CountFree(a) + CountFree(b)
  {
    if a == [] {
      assert a + b == b;
    } else {
      assert (a + b)[1..] == a[1..] + b;
      CountFreeSplit(a[1..], b);
    }
  }

  /** The scan every allocator of the source runs: mark and return the first free entry, or return -1. */
  method TakeFirstFree(table: array<bool>) returns (r: int)
    modifies table
    ensures r == FirstFree(old(table[..]))
    ensures table[..] == if r == -1 then old(table[..]) else old(table[..])[r := true]
  {
    var i := 0;
    while i < table.Length
      invariant 0 <= i <= table.Length
      invariant table[..] == old(table[..])
      invariant forall j :: 0 <= j < i ==> table[j]
    {
      if !table[i] {
        table[i] := true;
        return i;
      }
      i := i + 1;
    }
    return -1;
  }
}
