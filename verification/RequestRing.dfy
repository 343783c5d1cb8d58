/**
 * The slots of one session: a ring of n entries (SESSION_BUFFER_AMOUNT), filled at a producer counter and emptied at a
 * counter private to the worker.  received and processed are the histories of the session.
 */
module RequestRing {
  import opened Options

  /** increment_buffer_counter, and the worker's own counter: tfs_server/fs/tfs_server.c:169-171 and 619-624. */
  function Advance(k: nat, n: nat): nat {
    if k + 1 >= n then 0 else k + 1
  }

  /** The slot of position j: counters run through the positions, slots through their remainders. */
  function Slot(j: nat, n: nat): (k: nat)
    requires n >= 1
    ensures k < n
  {
    j % n
  }

  /** A multiple of n is 0 or at least n away from it. */
  lemma Multiple(d: int, n: nat)
    ensures d >= 1 ==> d * n >= n
    ensures d <= -1 ==> d * n + n <= 0
    ensures d == 0 ==> d * n == 0
  {
    if d >= 1 {
      assert d * n == (d - 1) * n + n;
    } else if d <= -1 {
      assert d * n == (d + 1) * n - n;
    }
  }

  lemma SlotUnique(q: nat, r: nat, n: nat)
    requires r < n
    ensures Slot(q * n + r, n) == r
  {
    var x := q * n + r;
    var p := x / n;
    assert x == p * n + x % n;
    assert (q - p) * n == q * n - p * n;
    Multiple(q - p, n);
  }

  /** The counters are remainders: advancing one is going to the next position. */
  lemma AdvanceSlot(j: nat, n: nat)
    requires n >= 1
    ensures Advance(Slot(j, n), n) == Slot(j + 1, n)
  {
    var q, r := j / n, j % n;
    assert j == q * n + r;
    if r + 1 < n {
      SlotUnique(q, r + 1, n);
    } else {
      assert (q + 1) * n == q * n + n;
      SlotUnique(q + 1, 0, n);
    }
  }

  /** Positions less than a whole turn apart have different slots, and a whole turn leads back to the slot. */
  lemma SlotsApart(x: nat, y: nat, n: nat)
    requires x < y <= x + n
    ensures Slot(x, n) == Slot(y, n) <==> y == x + n
  {
    var p, q := x / n, y / n;
    assert x == p * n + x % n && y == q * n + y % n;
    assert (q - p) * n == q * n - p * n;
    Multiple(q - p, n);
    Multiple(q - p - 1, n);
    assert (q - p - 1) * n == (q - p) * n - n;
  }

  /** The occupied slots are exactly those of the requests received and not yet processed, each holding its request. */
  ghost predicate Holds<T>(ring: seq<Option<T>>, received: seq<T>, processed: seq<T>) {
    var n, c, r := |ring|, |processed|, |received|;
    && n >= 1 && c <= r <= c + n && processed == received[..c]
    && (forall j :: c <= j < r ==> ring[Slot(j, n)] == Some(received[j]))
    && (forall j :: r <= j < c + n ==> ring[Slot(j, n)] == None)
  }

  /** While fewer than n requests are waiting the slot at the producer counter is free, and filling it queues the request. */
  lemma StoreKeeps<T>(ring: seq<Option<T>>, received: seq<T>, processed: seq<T>, q: T)
    requires Holds(ring, received, processed) && |received| - |processed| < |ring|
    ensures var k := Slot(|received|, |ring|);
            ring[k] == None && Holds(ring[k := Some(q)], received + [q], processed)
  {
    hide Slot;
    var n, c, r := |ring|, |processed|, |received|;
    var after, now := ring[Slot(r, n) := Some(q)], received + [q];
    forall j | c <= j < r + 1 ensures after[Slot(j, n)] == Some(now[j]) {
      if j < r {
        SlotsApart(j, r, n);
      }
    }
    forall j | r + 1 <= j < c + n ensures after[Slot(j, n)] == None {
      SlotsApart(r, j, n);
    }
  }

  /** Emptying the slot at the worker's counter takes the oldest request. */
  lemma ClearKeeps<T>(ring: seq<Option<T>>, received: seq<T>, processed: seq<T>)
    requires Holds(ring, received, processed) && |processed| < |received|
    ensures var k := Slot(|processed|, |ring|);
            && ring[k] == Some(received[|processed|])
            && Holds(ring[k := None], received, processed + [received[|processed|]])
  {
    hide Slot;
    var n, c, r := |ring|, |processed|, |received|;
    var after := ring[Slot(c, n) := None];
    assert received[..c + 1] == processed + [received[c]];
    forall j | c + 1 <= j < r ensures after[Slot(j, n)] == Some(received[j]) {
      SlotsApart(c, j, n);
    }
    forall j | r <= j < c + 1 + n ensures after[Slot(j, n)] == None {
      SlotsApart(c, j, n);
    }
  }

  /** The requests in the ring, in order, as the worker finds them from its counter on. */
  function Unwound<T>(ring: seq<Option<T>>, at: nat, left: nat): seq<T>
    requires at < |ring|
    decreases left
  {
    if left == 0 || ring[at].None? then [] else [ring[at].value] + Unwound(ring, Advance(at, |ring|), left - 1)
  }

  lemma {:induction false} UnwoundFrom<T>(ring: seq<Option<T>>, received: seq<T>, processed: seq<T>, j: nat)
    requires Holds(ring, received, processed) && |processed| <= j <= |received|
    ensures Unwound(ring, Slot(j, |ring|), |processed| + |ring| - j) == received[j..]
    decreases |received| - j
  {
    hide Slot;
    var n := |ring|;
    if j < |received| {
      AdvanceSlot(j, n);
      UnwoundFrom(ring, received, processed, j + 1);
      assert received[j..] == [received[j]] + received[j + 1..];
    } else if j < |processed| + n {
      assert ring[Slot(j, n)] == None;
    }
  }

  /** Requests received are those processed followed by those in the ring. */
  lemma RingInOrder<T>(ring: seq<Option<T>>, received: seq<T>, processed: seq<T>)
    requires Holds(ring, received, processed)
    ensures received == processed + Unwound(ring, Slot(|processed|, |ring|), |ring|)
  {
    hide Slot;
    UnwoundFrom(ring, received, processed, |processed|);
  }
}
