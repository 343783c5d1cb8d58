/** Bytes and the two sequence operations a file is specified with. */
module Bytes {
  newtype byte = x: int | 0 <= x < 256

  function Min(a: int, b: int): int {
    if a < b then a else b
  }

  function Max(a: int, b: int): int {
    if a < b then b else a
  }

  /** The sequence c after d has been laid over it from position o on, growing c when d reaches past its end. */
  function Splice<T>(c: seq<T>, o: nat, d: seq<T>): (r: seq<T>)
    requires o <= |c|
    ensures |r| == Max(|c|, o + |d|)
    ensures forall p :: 0 <= p < |r| ==> r[p] == if o <= p < o + |d| then d[p - o] else c[p]
  {
    if o + |d| <= |c| then c[..o] + d + c[o + |d|..] else c[..o] + d
  }

  /** The bytes from position o on, at most n of them. */
  function Slice<T>(c: seq<T>, o: nat, n: nat): (r: seq<T>)
    ensures o <= |c| ==> |r| == Min(n, |c| - o)
    ensures |c| <= o ==> r == []
  {
    if |c| <= o then [] else c[o..o + Min(n, |c| - o)]
  }

  /** The concatenation of a list of records. */
  function Concat<T>(records: seq<seq<T>>): seq<T> {
    if records == [] then [] else records[0] + Concat(records[1..])
  }
}
