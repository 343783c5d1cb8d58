/**
 * The bytes between client and server: one opcode byte and then the fields of the request, each of fixed size but for the
 * bytes of a write (tfs_server/client/tecnicofs_client_api.c:36-222, tfs_server/fs/tfs_server.c:74-113 and 284-500).
 */
module Wire {
  import opened Bytes

  const NAME_SIZE: int := 40
  const INT_SIZE: int := 4
  const LEN_SIZE: int := 8
  const INT_RANGE: int := 0x1_0000_0000
  const LEN_RANGE: int := 0x1_0000_0000_0000_0000

  /** Names are the 40 bytes of their field. */
  datatype Request =
    | Mount(path: seq<byte>)
    | Unmount(session: int)
    | Open(session: int, name: seq<byte>, flags: int)
    | Close(session: int, handle: int)
    | Write(session: int, handle: int, data: seq<byte>)
    | Read(session: int, handle: int, len: nat)
    | Shutdown(session: int)

  predicate IsInt(x: int) {
    -0x8000_0000 <= x < 0x8000_0000
  }

  /** What the C types of the fields can hold. */
  predicate Valid(r: Request) {
    && (!r.Mount? ==> IsInt(r.session))
    && (match r
        case Mount(path) => |path| == NAME_SIZE
        case Unmount(_) => true
        case Open(_, name, flags) => |name| == NAME_SIZE && IsInt(flags)
        case Close(_, handle) => IsInt(handle)
        case Write(_, handle, data) => IsInt(handle) && |data| < LEN_RANGE
        case Read(_, handle, len) => IsInt(handle) && len < LEN_RANGE
        case Shutdown(_) => true)
  }

  /* ----- numbers ----- */

  function Pow256(k: nat): (p: nat)
    ensures p >= 1
  {
    if k == 0 then 1 else 256 * Pow256(k - 1)
  }

  /** The k bytes of x, least significant first. */
  function Le(x: nat, k: nat): (s: seq<byte>)
    ensures |s| == k
  {
    if k == 0 then [] else [(x % 256) as byte] + Le(x / 256, k - 1)
  }

  function OfLe(s: seq<byte>): nat {
    if s == [] then 0 else s[0] as nat + 256 * OfLe(s[1..])
  }

  lemma {:induction false} LeRoundTrip(x: nat, k: nat)
    requires x < Pow256(k)
    ensures OfLe(Le(x, k)) == x
  {
    if k > 0 {
      LeRoundTrip(x / 256, k - 1);
      assert Le(x, k)[1..] == Le(x / 256, k - 1);
    }
  }

  lemma {:induction false} OfLeRoundTrip(s: seq<byte>)
    ensures OfLe(s) < Pow256(|s|) && Le(OfLe(s), |s|) == s
  {
    if s != [] {
      OfLeRoundTrip(s[1..]);
      assert OfLe(s) % 256 == s[0] as nat && OfLe(s) / 256 == OfLe(s[1..]);
    }
  }

  lemma Ranges()
    ensures Pow256(4) == INT_RANGE && Pow256(8) == LEN_RANGE
  {
    assert Pow256(1) == 256 && Pow256(2) == 0x1_0000 && Pow256(3) == 0x100_0000;
    assert Pow256(5) == 0x100_0000_0000 && Pow256(6) == 0x1_0000_0000_0000 && Pow256(7) == 0x100_0000_0000_0000;
  }

  /** A C int, in two's complement. */
  function IntBytes(x: int): (s: seq<byte>)
    requires IsInt(x)
    ensures |s| == INT_SIZE
  {
    Le(if x < 0 then x + INT_RANGE else x, 4)
  }

  function OfInt(s: seq<byte>): (x: int)
    requires |s| == INT_SIZE
  {
    var n := OfLe(s);
    if n < 0x8000_0000 then n else n - INT_RANGE
  }

  lemma IntRoundTrip(x: int)
    requires IsInt(x)
    ensures OfInt(IntBytes(x)) == x
  {
    Ranges();
    LeRoundTrip(if x < 0 then x + INT_RANGE else x, 4);
  }

  lemma OfIntRoundTrip(s: seq<byte>)
    requires |s| == INT_SIZE
    ensures IsInt(OfInt(s)) && IntBytes(OfInt(s)) == s
  {
    Ranges();
    OfLeRoundTrip(s);
  }

  /** The bytes of a number: byte i is the number of its 256 to the ith powers, mod 256. */
  lemma {:induction false} LeAt(x: nat, k: nat, i: nat)
    requires i < k
    ensures Le(x, k)[i] as int == (x / Pow256(i)) % 256
  {
    if i > 0 {
      LeAt(x / 256, k - 1, i - 1);
      DivDiv(x, Pow256(i - 1));
    }
  }

  lemma DivDiv(x: nat, p: nat)
    requires p >= 1
    ensures x / (256 * p) == x / 256 / p
  {
    var q, a := x / (256 * p), x / 256;
    assert 256 * p * q == 256 * (p * q) && 256 * (p * q) <= x < 256 * (p * q + p);
    QuotientUnique(a, p, q);
  }

  lemma QuotientUnique(a: int, p: nat, q: int)
    requires p >= 1 && p * q <= a < p * q + p
    ensures a / p == q
  {
    var d := a / p;
    assert p * d <= a < p * d + p;
    Below(p, d, q);
    Below(p, q, d);
  }

  lemma Below(p: nat, c: int, d: int)
    ensures c < d ==> p * c + p <= p * d
  {
    if c < d {
      var k := d - c - 1;
      assert p * k >= 0;
      assert p * d == p * (c + 1 + k) == p * c + p + p * k;
    }
  }

  lemma TurnedOver(x: int, p: nat, k: int)
    requires p >= 1
    ensures (x + p * (256 * k)) / p % 256 == x / p % 256
  {
    var q := x / p;
    assert p * (q + 256 * k) == p * q + p * (256 * k);
    QuotientUnique(x + p * (256 * k), p, q + 256 * k);
  }

  /** An int is sent least significant byte first; division rounds down, so that a negative one comes in two's complement. */
  lemma IntBytesExact(x: int)
    requires IsInt(x)
    ensures IntBytes(x) == [(x % 256) as byte, (x / 0x100 % 256) as byte, (x / 0x1_0000 % 256) as byte, (x / 0x100_0000 % 256) as byte]
  {
    hide Le;
    var n := if x < 0 then x + INT_RANGE else x;
    assert Pow256(0) == 1 && Pow256(1) == 0x100 && Pow256(2) == 0x1_0000 && Pow256(3) == 0x100_0000;
    forall i | 0 <= i < 4 ensures Le(n, 4)[i] as int == (n / Pow256(i)) % 256 {
      LeAt(n, 4, i);
    }
    if x < 0 {
      TurnedOver(x, 1, 0x100_0000);
      TurnedOver(x, 0x100, 0x1_0000);
      TurnedOver(x, 0x1_0000, 0x100);
      TurnedOver(x, 0x100_0000, 1);
    }
  }

  /** A size_t. */
  function LenBytes(x: nat): (s: seq<byte>)
    ensures |s| == LEN_SIZE
  {
    Le(x, 8)
  }

  function OfLen(s: seq<byte>): (x: nat)
    requires |s| == LEN_SIZE
  {
    OfLe(s)
  }

  lemma LenRoundTrip(x: nat)
    requires x < LEN_RANGE
    ensures OfLen(LenBytes(x)) == x
  {
    Ranges();
    LeRoundTrip(x, 8);
  }

  lemma OfLenRoundTrip(s: seq<byte>)
    requires |s| == LEN_SIZE
    ensures OfLen(s) < LEN_RANGE && LenBytes(OfLen(s)) == s
  {
    Ranges();
    OfLeRoundTrip(s);
  }

  predicate IsSsize(x: int) {
    -0x8000_0000_0000_0000 <= x < 0x8000_0000_0000_0000
  }

  /** A ssize_t, in two's complement. */
  function SsizeBytes(x: int): (s: seq<byte>)
    requires IsSsize(x)
    ensures |s| == LEN_SIZE
  {
    Le(if x < 0 then x + LEN_RANGE else x, 8)
  }

  function OfSsize(s: seq<byte>): (x: int)
    requires |s| == LEN_SIZE
  {
    var n := OfLe(s);
    if n < 0x8000_0000_0000_0000 then n else n - LEN_RANGE
  }

  /** So is the count of a reply. */
  lemma SsizeBytesExact(x: int, i: nat)
    requires IsSsize(x) && i < 8
    ensures SsizeBytes(x)[i] as int == (x / Pow256(i)) % 256
  {
    hide Le;
    var n := if x < 0 then x + LEN_RANGE else x;
    Ranges();
    LeAt(n, 8, i);
    if x < 0 {
      PowSum(i, 7 - i);
      TurnedOver(x, Pow256(i), Pow256(7 - i));
    }
  }

  lemma {:induction false} PowSum(i: nat, k: nat)
    ensures Pow256(i) * (256 * Pow256(k)) == Pow256(i + k + 1)
  {
    if i > 0 {
      PowSum(i - 1, k);
    }
  }

  lemma SsizeRoundTrip(x: int)
    requires IsSsize(x)
    ensures OfSsize(SsizeBytes(x)) == x
  {
    Ranges();
    LeRoundTrip(if x < 0 then x + LEN_RANGE else x, 8);
  }

  /* ----- replies ----- */

  /** What a worker writes on the pipe of its client: an int, the count of a write, or the count and the bytes of a read. */
  datatype Reply = IntReply(x: int) | CountReply(count: int) | ReadReply(data: seq<byte>)

  predicate ValidReply(r: Reply) {
    match r
    case IntReply(x) => IsInt(x)
    case CountReply(count) => IsSsize(count)
    case ReadReply(data) => IsSsize(|data|)
  }

  function EncodeReply(r: Reply): seq<byte>
    requires ValidReply(r)
  {
    match r
    case IntReply(x) => IntBytes(x)
    case CountReply(count) => SsizeBytes(count)
    case ReadReply(data) => SsizeBytes(|data|) + data
  }

  /** What the client takes from its pipe is what the worker put there. */
  lemma ReplyRoundTrip(r: Reply, rest: seq<byte>)
    requires ValidReply(r)
    ensures var s := EncodeReply(r) + rest;
            match r
            case IntReply(x) => OfInt(s[..4]) == x && s[4..] == rest
            case CountReply(count) => OfSsize(s[..8]) == count && s[8..] == rest
            case ReadReply(data) => OfSsize(s[..8]) == |data| && s[8..] == data + rest
  {
    hide IntBytes, OfInt, SsizeBytes, OfSsize;
    var s := EncodeReply(r) + rest;
    match r
    case IntReply(x) =>
      IntRoundTrip(x);
      assert s[..4] == IntBytes(x) && s[4..] == rest;
    case CountReply(count) =>
      SsizeRoundTrip(count);
      assert s[..8] == SsizeBytes(count) && s[8..] == rest;
    case ReadReply(data) =>
      SsizeRoundTrip(|data|);
      assert s[..8] == SsizeBytes(|data|) && s[8..] == data + rest;
  }

  /* ----- requests ----- */

  function Opcode(r: Request): byte {
    match r
    case Mount(_) => 1
    case Unmount(_) => 2
    case Open(_, _, _) => 3
    case Close(_, _) => 4
    case Write(_, _, _) => 5
    case Read(_, _, _) => 6
    case Shutdown(_) => 7
  }

  /** The fields after the opcode and the session id. */
  function Body(r: Request): seq<byte>
    requires Valid(r) && !r.Mount?
  {
    match r
    case Unmount(_) => []
    case Open(_, name, flags) => name + IntBytes(flags)
    case Close(_, handle) => IntBytes(handle)
    case Write(_, handle, data) => IntBytes(handle) + LenBytes(|data|) + data
    case Read(_, handle, len) => IntBytes(handle) + LenBytes(len)
    case Shutdown(_) => []
  }

  /** The buffer a client builds. */
  function Encode(r: Request): seq<byte>
    requires Valid(r)
  {
    [Opcode(r)] + (if r.Mount? then r.path else IntBytes(r.session) + Body(r))
  }

  /** The bytes of the seven requests. */
  lemma RequestBytes(r: Request)
    requires Valid(r)
    ensures Encode(r) ==
            match r {
              case Mount(path) => [1] + path
              case Unmount(session) => [2] + IntBytes(session)
              case Open(session, name, flags) => [3] + IntBytes(session) + name + IntBytes(flags)
              case Close(session, handle) => [4] + IntBytes(session) + IntBytes(handle)
              case Write(session, handle, data) => [5] + IntBytes(session) + IntBytes(handle) + LenBytes(|data|) + data
              case Read(session, handle, len) => [6] + IntBytes(session) + IntBytes(handle) + LenBytes(len)
              case Shutdown(session) => [7] + IntBytes(session)
            }
  {
    hide IntBytes, LenBytes;
  }

  /** What reading one request off the pipe comes to: it has not all arrived, its opcode is none of the seven, or it is here. */
  datatype Decoded = Incomplete | BadOpcode | Got(req: Request, rest: seq<byte>)

  function Decode(s: seq<byte>): Decoded {
    if s == [] then Incomplete
    else
      var t := s[1..];
      if s[0] == 1 then
        if |t| < NAME_SIZE then Incomplete else Got(Mount(t[..NAME_SIZE]), t[NAME_SIZE..])
      else if s[0] == 0 || s[0] > 7 then BadOpcode
      else if |t| < INT_SIZE then Incomplete
      else DecodeBody(s[0], OfInt(t[..INT_SIZE]), t[INT_SIZE..])
  }

  function DecodeBody(opcode: byte, session: int, t: seq<byte>): Decoded
    requires 2 <= opcode <= 7
  {
    if opcode == 2 then Got(Unmount(session), t)
    else if opcode == 3 then
      if |t| < NAME_SIZE + INT_SIZE then Incomplete
      else Got(Open(session, t[..NAME_SIZE], OfInt(t[NAME_SIZE..NAME_SIZE + INT_SIZE])), t[NAME_SIZE + INT_SIZE..])
    else if opcode == 4 then
      if |t| < INT_SIZE then Incomplete else Got(Close(session, OfInt(t[..INT_SIZE])), t[INT_SIZE..])
    else if opcode == 5 then
      if |t| < INT_SIZE + LEN_SIZE then Incomplete
      else
        var n, u := OfLen(t[INT_SIZE..INT_SIZE + LEN_SIZE]), t[INT_SIZE + LEN_SIZE..];
        if |u| < n then Incomplete else Got(Write(session, OfInt(t[..INT_SIZE]), u[..n]), u[n..])
    else if opcode == 6 then
      if |t| < INT_SIZE + LEN_SIZE then Incomplete
      else Got(Read(session, OfInt(t[..INT_SIZE]), OfLen(t[INT_SIZE..INT_SIZE + LEN_SIZE])), t[INT_SIZE + LEN_SIZE..])
    else Got(Shutdown(session), t)
  }

  /* ----- decoding is the inverse of encoding ----- */

  lemma Cut<T>(a: seq<T>, b: seq<T>)
    ensures (a + b)[..|a|] == a && (a + b)[|a|..] == b
  {
  }

  lemma BodyRoundTrip(r: Request, rest: seq<byte>)
    requires Valid(r) && !r.Mount?
    ensures DecodeBody(Opcode(r), r.session, Body(r) + rest) == Got(r, rest)
  {
    hide IntBytes, OfInt, LenBytes, OfLen;
    var t := Body(r) + rest;
    match r
    case Unmount(_) =>
    case Shutdown(_) =>
    case Open(_, name, flags) =>
      IntRoundTrip(flags);
      assert t[..40] == name && t[40..44] == IntBytes(flags) && t[44..] == rest;
    case Close(_, handle) =>
      IntRoundTrip(handle);
      assert t[..4] == IntBytes(handle) && t[4..] == rest;
    case Read(_, handle, len) =>
      IntRoundTrip(handle);
      LenRoundTrip(len);
      assert t[..4] == IntBytes(handle) && t[4..12] == LenBytes(len) && t[12..] == rest;
    case Write(_, handle, data) =>
      IntRoundTrip(handle);
      LenRoundTrip(|data|);
      assert t[..4] == IntBytes(handle) && t[4..12] == LenBytes(|data|) && t[12..] == data + rest;
      Cut(data, rest);
  }

  /** Whatever follows it, a request comes back as it was sent, and nothing of what follows is taken. */
  lemma RoundTrip(r: Request, rest: seq<byte>)
    requires Valid(r)
    ensures Decode(Encode(r) + rest) == Got(r, rest)
  {
    hide IntBytes, OfInt, Body, DecodeBody;
    var s := Encode(r) + rest;
    if r.Mount? {
      assert s[1..] == r.path + rest;
      Cut(r.path, rest);
    } else {
      assert s[1..] == IntBytes(r.session) + (Body(r) + rest);
      Cut(IntBytes(r.session), Body(r) + rest);
      IntRoundTrip(r.session);
      BodyRoundTrip(r, rest);
    }
  }

  lemma BodyBack(opcode: byte, session: int, t: seq<byte>)
    requires 2 <= opcode <= 7 && IsInt(session)
    ensures var d := DecodeBody(opcode, session, t);
            && !d.BadOpcode?
            && (d.Got? ==> Valid(d.req) && !d.req.Mount? && Opcode(d.req) == opcode && d.req.session == session && t == Body(d.req) + d.rest)
  {
    hide IntBytes, OfInt, LenBytes, OfLen;
    if |t| >= 4 {
      OfIntRoundTrip(t[..4]);
    }
    if opcode == 3 && |t| >= 44 {
      OfIntRoundTrip(t[40..44]);
      assert t == t[..40] + t[40..44] + t[44..];
    }
    if |t| >= 12 {
      OfLenRoundTrip(t[4..12]);
      assert t == t[..4] + t[4..12] + t[12..];
    }
  }

  /** Decoding accepts nothing else: what it returns is valid, and the bytes it took are the encoding. */
  lemma DecodeExact(s: seq<byte>, r: Request, rest: seq<byte>)
    ensures Decode(s) == Got(r, rest) <==> Valid(r) && s == Encode(r) + rest
  {
    hide IntBytes, OfInt, Body, DecodeBody;
    if Decode(s) == Got(r, rest) {
      var t := s[1..];
      if s[0] == 1 {
        assert s == [s[0]] + (t[..40] + t[40..]);
      } else {
        OfIntRoundTrip(t[..4]);
        BodyBack(s[0], OfInt(t[..4]), t[4..]);
        assert s == [s[0]] + (t[..4] + t[4..]);
      }
    }
    if Valid(r) && s == Encode(r) + rest {
      RoundTrip(r, rest);
    }
  }

  /* ----- streams ----- */

  predicate AllValid(rs: seq<Request>) {
    forall i :: 0 <= i < |rs| ==> Valid(rs[i])
  }

  function EncodeAll(rs: seq<Request>): seq<byte>
    requires AllValid(rs)
  {
    if rs == [] then [] else Encode(rs[0]) + EncodeAll(rs[1..])
  }

  datatype Stream = Stream(reqs: seq<Request>, last: Decoded)

  /** The requests of a stream until one is bad or not all there; last is Incomplete at its proper end. */
  function DecodeAll(s: seq<byte>): (r: Stream)
    decreases |s|
  {
    var d := Decode(s);
    if !d.Got? || |s| <= |d.rest| then Stream([], d)
    else
      var more := DecodeAll(d.rest);
      Stream([d.req] + more.reqs, more.last)
  }

  /** The stream of any list of requests, from whichever clients, decodes to the list with nothing left over. */
  lemma {:induction false} StreamRoundTrip(rs: seq<Request>)
    requires AllValid(rs)
    ensures DecodeAll(EncodeAll(rs)) == Stream(rs, Incomplete)
    decreases |rs|
  {
    hide Encode, Decode;
    if rs == [] {
      EmptyIncomplete();
    } else {
      RoundTrip(rs[0], EncodeAll(rs[1..]));
      EncodedLength(rs[0]);
      StreamRoundTrip(rs[1..]);
      assert rs == [rs[0]] + rs[1..];
    }
  }

  /** A request put behind a stream is one more request of the stream. */
  lemma {:induction false} StreamGrows(rs: seq<Request>, r: Request)
    requires AllValid(rs) && Valid(r)
    ensures EncodeAll(rs + [r]) == EncodeAll(rs) + Encode(r)
    decreases |rs|
  {
    hide Encode;
    if rs == [] {
      assert [r][1..] == [];
    } else {
      assert (rs + [r])[0] == rs[0] && (rs + [r])[1..] == rs[1..] + [r];
      StreamGrows(rs[1..], r);
    }
  }

  lemma EmptyIncomplete()
    ensures Decode([]) == Incomplete
  {
  }

  lemma EncodedLength(r: Request)
    requires Valid(r)
    ensures |Encode(r)| ==
            match r
            case Mount(_) => 41
            case Unmount(_) => 5
            case Open(_, _, _) => 49
            case Close(_, _) => 9
            case Write(_, _, data) => 17 + |data|
            case Read(_, _, _) => 17
            case Shutdown(_) => 5
  {
  }

  /** So two lists of requests with the same bytes are the same list: no encoding is confused with another. */
  lemma StreamsDiffer(a: seq<Request>, b: seq<Request>)
    requires AllValid(a) && AllValid(b) && EncodeAll(a) == EncodeAll(b)
    ensures a == b
  {
    StreamRoundTrip(a);
    StreamRoundTrip(b);
  }

  /** A request that has not all arrived is never taken for another one. */
  lemma PrefixIncomplete(r: Request, s: seq<byte>, rest: seq<byte>)
    requires Valid(r) && Encode(r) == s + rest && rest != []
    ensures Decode(s) == Incomplete
  {
    hide Encode, Decode;
    var d := Decode(s);
    if d.Got? {
      DecodeExact(s, d.req, d.rest);
      RoundTrip(d.req, d.rest + rest);
      assert Encode(d.req) + (d.rest + rest) == Encode(r) + [];
      RoundTrip(r, []);
    } else if d.BadOpcode? {
      OpcodeFirst(r);
      BadFirst(s);
    }
  }

  lemma OpcodeFirst(r: Request)
    requires Valid(r)
    ensures Encode(r) != [] && 1 <= Encode(r)[0] <= 7
  {
  }

  lemma BadFirst(s: seq<byte>)
    ensures Decode(s).BadOpcode? <==> s != [] && (s[0] == 0 || s[0] > 7)
  {
  }

  /* ----- names ----- */

  /** The C string in a field: the bytes before the first zero. */
  function CString(field: seq<byte>): seq<byte> {
    if field == [] || field[0] == 0 then [] else [field[0]] + CString(field[1..])
  }

  /** A client copies 40 bytes from its string, so whatever lies behind it too; the server still reads the name. */
  lemma {:induction false} NameSurvives(name: seq<byte>, junk: seq<byte>)
    requires forall i :: 0 <= i < |name| ==> name[i] != 0
    ensures CString(name + [0] + junk) == name
  {
    if name != [] {
      assert (name + [0] + junk)[1..] == name[1..] + [0] + junk;
      NameSurvives(name[1..], junk);
    }
  }
}
