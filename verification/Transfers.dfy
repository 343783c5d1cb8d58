/**
 * The transfers themselves: a pipe takes and gives any positive number of bytes at a time, and the loops on both sides go
 * on until the whole buffer is through.  A pipe is the bytes that are or will be in it.
 */
module Transfers {
  import opened Bytes
  import opened Wire

  class Pipe {
    var bytes: seq<byte>

    constructor ()
      ensures bytes == []
    {
      bytes := [];
    }

    /** write(2): some of the bytes, at least one. */
    method WriteSome(d: seq<byte>) returns (ret: nat)
      requires d != []
      modifies this
      ensures 0 < ret <= |d| && bytes == old(bytes) + d[..ret]
    {
      ret :| 0 < ret <= |d|;
      bytes := bytes + d[..ret];
    }

    /** read(2) of at most len bytes: some of them, at least one. */
    method ReadSome(len: nat) returns (d: seq<byte>)
      requires 0 < len && bytes != []
      modifies this
      ensures 0 < |d| <= len && d + bytes == old(bytes)
    {
      var ret: nat :| 0 < ret <= len && ret <= |bytes|;
      d := bytes[..ret];
      bytes := bytes[ret..];
    }
  }

  /** write_on_pipe. */
  method WriteOnPipe(pipe: Pipe, buffer: array<byte>)
    modifies pipe
    ensures pipe.bytes == old(pipe.bytes) + buffer[..]
  {
    var written := 0;
    while written < buffer.Length
      invariant 0 <= written <= buffer.Length
      invariant pipe.bytes == old(pipe.bytes) + buffer[..written]
      decreases buffer.Length - written
    {
      var ret := pipe.WriteSome(buffer[written..]);
      assert buffer[..written] + buffer[written..][..ret] == buffer[..written + ret];
      written := written + ret;
    }
    assert buffer[..written] == buffer[..];
  }

  /** read_from_pipe of len bytes that are there, or will be. */
  method ReadFromPipe(pipe: Pipe, len: nat) returns (buffer: array<byte>)
    requires len <= |pipe.bytes|
    modifies pipe
    ensures fresh(buffer) && buffer.Length == len
    ensures buffer[..] == old(pipe.bytes)[..len] && pipe.bytes == old(pipe.bytes)[len..]
  {
    buffer := new byte[len](_ => 0);
    var beenRead := 0;
    while beenRead < len
      invariant 0 <= beenRead <= len
      invariant buffer[..beenRead] == old(pipe.bytes)[..beenRead] && pipe.bytes == old(pipe.bytes)[beenRead..]
      decreases len - beenRead
    {
      var d := pipe.ReadSome(len - beenRead);
      CopyAt(buffer, beenRead, d);
      assert d + pipe.bytes == old(pipe.bytes)[beenRead..];
      assert d == old(pipe.bytes)[beenRead..beenRead + |d|];
      assert old(pipe.bytes)[..beenRead + |d|] == old(pipe.bytes)[..beenRead] + d;
      beenRead := beenRead + |d|;
    }
    assert buffer[..len] == buffer[..];
  }

  /** memcpy into a buffer. */
  method CopyAt(buffer: array<byte>, at: nat, d: seq<byte>)
    requires at + |d| <= buffer.Length
    modifies buffer
    ensures buffer[..at + |d|] == old(buffer[..at]) + d
  {
    forall k | 0 <= k < |d| {
      buffer[at + k] := d[k];
    }
    assert buffer[..at] == old(buffer[..at]);
    assert buffer[at..at + |d|] == d;
    assert buffer[..at + |d|] == buffer[..at] + buffer[at..at + |d|];
  }

  /** The static state of the client library: its session, and its ends of the server's pipe and of its own. */
  class ClientApi {
    const server: Pipe
    const client: Pipe
    var sessionId: int

    constructor (server: Pipe, client: Pipe)
      ensures this.server == server && this.client == client && sessionId == -1
    {
      this.server, this.client, sessionId := server, client, -1;
    }

    /** A buffer of the given size that starts with the opcode and the session. */
    method Begin(opcode: byte, total: nat) returns (buffer: array<byte>, size: nat)
      requires IsInt(sessionId) && total >= 5
      ensures fresh(buffer) && buffer.Length == total && size == 5
      ensures buffer[..size] == [opcode] + IntBytes(sessionId)
    {
      hide IntBytes;
      buffer := new byte[total](_ => 0);
      size := 0;
      CopyAt(buffer, size, [opcode]);
      size := size + 1;
      CopyAt(buffer, size, IntBytes(sessionId));
      size := size + INT_SIZE;
    }

    /** The reply: one read(2), which hands over all that is asked for. */
    method TakeReply(len: nat) returns (d: seq<byte>)
      requires len <= |client.bytes|
      modifies client
      ensures d == old(client.bytes)[..len] && client.bytes == old(client.bytes)[len..]
    {
      d := client.bytes[..len];
      client.bytes := client.bytes[len..];
    }

    /** tfs_mount: lines 15-57.  The reply is the session id, -1 when the server refuses. */
    method Mount(path: seq<byte>) returns (ret: int)
      requires server != client && |path| == NAME_SIZE && INT_SIZE <= |client.bytes|
      modifies this, server, client
      ensures server.bytes == old(server.bytes) + Encode(Request.Mount(path)) && client.bytes == old(client.bytes)[INT_SIZE..]
      ensures server.bytes == old(server.bytes) + ([1] + path)
      ensures IsInt(sessionId) && sessionId == OfInt(old(client.bytes)[..INT_SIZE]) && ret == if sessionId == -1 then -1 else 0
    {
      hide OfInt, IntBytes;
      var buffer := new byte[41](_ => 0);
      var size := 0;
      CopyAt(buffer, size, [1]);
      size := size + 1;
      CopyAt(buffer, size, path);
      size := size + NAME_SIZE;
      assert buffer[..size] == buffer[..];
      WriteOnPipe(server, buffer);
      var reply := TakeReply(INT_SIZE);
      OfIntRoundTrip(reply);
      sessionId := OfInt(reply);
      return if sessionId == -1 then -1 else 0;
    }

    /** tfs_unmount: lines 60-90. */
    method Unmount() returns (ret: int)
      requires server != client && IsInt(sessionId) && INT_SIZE <= |client.bytes|
      modifies this, server, client
      ensures server.bytes == old(server.bytes) + Encode(Request.Unmount(old(sessionId))) && client.bytes == old(client.bytes)[INT_SIZE..]
      ensures server.bytes == old(server.bytes) + ([2] + IntBytes(old(sessionId)))
      ensures sessionId == -1 && ret == OfInt(old(client.bytes)[..INT_SIZE])
    {
      hide IntBytes, OfInt;
      var buffer, size := Begin(2, 5);
      assert buffer[..size] == buffer[..];
      RequestBytes(Request.Unmount(sessionId));
      WriteOnPipe(server, buffer);
      var reply := TakeReply(INT_SIZE);
      sessionId := -1;
      return OfInt(reply);
    }

    /** tfs_open: lines 93-118. */
    method Open(name: seq<byte>, flags: int) returns (fhandle: int)
      requires server != client && IsInt(sessionId) && |name| == NAME_SIZE && IsInt(flags) && INT_SIZE <= |client.bytes|
      modifies server, client
      ensures server.bytes == old(server.bytes) + Encode(Request.Open(sessionId, name, flags)) && client.bytes == old(client.bytes)[INT_SIZE..]
      ensures server.bytes == old(server.bytes) + ([3] + IntBytes(sessionId) + name + IntBytes(flags))
      ensures fhandle == OfInt(old(client.bytes)[..INT_SIZE])
    {
      hide IntBytes, OfInt, Encode;
      var buffer, size := Begin(3, 49);
      CopyAt(buffer, size, name);
      size := size + NAME_SIZE;
      CopyAt(buffer, size, IntBytes(flags));
      size := size + INT_SIZE;
      assert buffer[..size] == buffer[..];
      RequestBytes(Request.Open(sessionId, name, flags));
      WriteOnPipe(server, buffer);
      var reply := TakeReply(INT_SIZE);
      return OfInt(reply);
    }

    /** tfs_close: lines 121-144. */
    method Close(handle: int) returns (ret: int)
      requires server != client && IsInt(sessionId) && IsInt(handle) && INT_SIZE <= |client.bytes|
      modifies server, client
      ensures server.bytes == old(server.bytes) + Encode(Request.Close(sessionId, handle)) && client.bytes == old(client.bytes)[INT_SIZE..]
      ensures server.bytes == old(server.bytes) + ([4] + IntBytes(sessionId) + IntBytes(handle))
      ensures ret == OfInt(old(client.bytes)[..INT_SIZE])
    {
      hide IntBytes, OfInt;
      var buffer, size := Begin(4, 9);
      CopyAt(buffer, size, IntBytes(handle));
      size := size + INT_SIZE;
      assert buffer[..size] == buffer[..];
      RequestBytes(Request.Close(sessionId, handle));
      WriteOnPipe(server, buffer);
      var reply := TakeReply(INT_SIZE);
      return OfInt(reply);
    }

    /** tfs_write: lines 147-174. */
    method Write(handle: int, data: seq<byte>) returns (count: int)
      requires server != client && IsInt(sessionId) && IsInt(handle) && |data| < LEN_RANGE && LEN_SIZE <= |client.bytes|
      modifies server, client
      ensures server.bytes == old(server.bytes) + Encode(Request.Write(sessionId, handle, data)) && client.bytes == old(client.bytes)[LEN_SIZE..]
      ensures server.bytes == old(server.bytes) + ([5] + IntBytes(sessionId) + IntBytes(handle) + LenBytes(|data|) + data)
      ensures count == OfSsize(old(client.bytes)[..LEN_SIZE])
    {
      hide IntBytes, LenBytes, Encode, OfSsize;
      var buffer, size := Begin(5, 17 + |data|);
      CopyAt(buffer, size, IntBytes(handle));
      size := size + INT_SIZE;
      CopyAt(buffer, size, LenBytes(|data|));
      size := size + LEN_SIZE;
      CopyAt(buffer, size, data);
      size := size + |data|;
      assert buffer[..size] == buffer[..];
      RequestBytes(Request.Write(sessionId, handle, data));
      WriteOnPipe(server, buffer);
      var reply := TakeReply(LEN_SIZE);
      return OfSsize(reply);
    }

    /** tfs_read: lines 177-204.  A count of -1 would be taken for a length. */
    method Read(handle: int, len: nat) returns (count: int, data: seq<byte>)
      requires server != client && IsInt(sessionId) && IsInt(handle) && len < LEN_RANGE
      requires LEN_SIZE <= |client.bytes| && 0 <= OfSsize(client.bytes[..LEN_SIZE]) <= |client.bytes| - LEN_SIZE
      modifies server, client
      ensures server.bytes == old(server.bytes) + Encode(Request.Read(sessionId, handle, len))
      ensures server.bytes == old(server.bytes) + ([6] + IntBytes(sessionId) + IntBytes(handle) + LenBytes(len))
      ensures count == OfSsize(old(client.bytes)[..LEN_SIZE]) == |data| && data + client.bytes == old(client.bytes)[LEN_SIZE..]
    {
      hide IntBytes, LenBytes, Encode, OfSsize;
      var buffer, size := Begin(6, 17);
      CopyAt(buffer, size, IntBytes(handle));
      size := size + INT_SIZE;
      CopyAt(buffer, size, LenBytes(len));
      size := size + LEN_SIZE;
      assert buffer[..size] == buffer[..];
      RequestBytes(Request.Read(sessionId, handle, len));
      WriteOnPipe(server, buffer);
      var reply := TakeReply(LEN_SIZE);
      count := OfSsize(reply);
      data := TakeReply(count);
    }

    /** tfs_shutdown_after_all_closed: lines 207-228. */
    method ShutdownAfterAllClosed() returns (ret: int)
      requires server != client && IsInt(sessionId) && INT_SIZE <= |client.bytes|
      modifies server, client
      ensures server.bytes == old(server.bytes) + Encode(Shutdown(sessionId)) && client.bytes == old(client.bytes)[INT_SIZE..]
      ensures server.bytes == old(server.bytes) + ([7] + IntBytes(sessionId))
      ensures ret == OfInt(old(client.bytes)[..INT_SIZE])
    {
      hide IntBytes, OfInt;
      var buffer, size := Begin(7, 5);
      assert buffer[..size] == buffer[..];
      RequestBytes(Shutdown(sessionId));
      WriteOnPipe(server, buffer);
      var reply := TakeReply(INT_SIZE);
      return OfInt(reply);
    }
  }

  /* ----- a worker's reply ----- */

  /** write_mount to write_shutdown, on the pipe of the client. */
  method WriteReply(pipe: Pipe, r: Reply)
    requires ValidReply(r)
    modifies pipe
    ensures pipe.bytes == old(pipe.bytes) + EncodeReply(r)
  {
    hide IntBytes, SsizeBytes;
    match r {
      case IntReply(x) =>
        SendField(pipe, IntBytes(x));
      case CountReply(count) =>
        SendField(pipe, SsizeBytes(count));
      case ReadReply(data) =>
        var buffer := new byte[LEN_SIZE + |data|](_ => 0);
        CopyAt(buffer, 0, SsizeBytes(|data|));
        CopyAt(buffer, LEN_SIZE, data);
        assert buffer[..LEN_SIZE + |data|] == buffer[..];
        WriteOnPipe(pipe, buffer);
    }
  }

  method SendField(pipe: Pipe, d: seq<byte>)
    modifies pipe
    ensures pipe.bytes == old(pipe.bytes) + d
  {
    var buffer := new byte[|d|](_ => 0);
    CopyAt(buffer, 0, d);
    assert buffer[..|d|] == buffer[..];
    WriteOnPipe(pipe, buffer);
  }

  /* ----- the receiver ----- */

  /** The fields read_open to read_shutdown read, after the session. */
  method ReadBody(pipe: Pipe, opcode: byte, session: int) returns (r: Request)
    requires 2 <= opcode <= 7 && DecodeBody(opcode, session, pipe.bytes).Got?
    modifies pipe
    ensures DecodeBody(opcode, session, old(pipe.bytes)) == Got(r, pipe.bytes)
  {
    hide OfInt, OfLen;
    if opcode == 2 {
      return Unmount(session);
    } else if opcode == 3 {
      var name := ReadFromPipe(pipe, NAME_SIZE);
      var flags := ReadFromPipe(pipe, INT_SIZE);
      assert flags[..] == old(pipe.bytes)[NAME_SIZE..NAME_SIZE + INT_SIZE];
      return Open(session, name[..], OfInt(flags[..]));
    } else if opcode == 4 {
      var handle := ReadFromPipe(pipe, INT_SIZE);
      return Close(session, OfInt(handle[..]));
    } else if opcode == 5 {
      var handle := ReadFromPipe(pipe, INT_SIZE);
      var len := ReadFromPipe(pipe, LEN_SIZE);
      assert len[..] == old(pipe.bytes)[INT_SIZE..INT_SIZE + LEN_SIZE];
      assert pipe.bytes == old(pipe.bytes)[INT_SIZE + LEN_SIZE..];
      var data := ReadFromPipe(pipe, OfLen(len[..]));
      return Write(session, OfInt(handle[..]), data[..]);
    } else if opcode == 6 {
      var handle := ReadFromPipe(pipe, INT_SIZE);
      var len := ReadFromPipe(pipe, LEN_SIZE);
      assert len[..] == old(pipe.bytes)[INT_SIZE..INT_SIZE + LEN_SIZE];
      assert pipe.bytes == old(pipe.bytes)[INT_SIZE + LEN_SIZE..];
      return Read(session, OfInt(handle[..]), OfLen(len[..]));
    } else {
      return Shutdown(session);
    }
  }

  /** One turn of the loop of serverPipeReader: the opcode, then the fields it calls for. */
  method ReadRequest(pipe: Pipe) returns (r: Request)
    requires Decode(pipe.bytes).Got?
    modifies pipe
    ensures Decode(old(pipe.bytes)) == Got(r, pipe.bytes)
  {
    hide OfInt, DecodeBody;
    var opcode := ReadFromPipe(pipe, 1);
    if opcode[0] == 1 {
      var path := ReadFromPipe(pipe, NAME_SIZE);
      return Mount(path[..]);
    }
    var session := ReadFromPipe(pipe, INT_SIZE);
    assert session[..] == old(pipe.bytes)[1..][..INT_SIZE];
    assert pipe.bytes == old(pipe.bytes)[1..][INT_SIZE..];
    r := ReadBody(pipe, opcode[0], OfInt(session[..]));
  }

  /** However the bytes of the requests sent are cut on their way, the receiver gets those requests, in that order. */
  method ReadAll(pipe: Pipe, ghost sent: seq<Request>) returns (got: seq<Request>)
    requires AllValid(sent) && pipe.bytes == EncodeAll(sent)
    modifies pipe
    ensures got == sent && pipe.bytes == []
  {
    hide Encode, Decode;
    got := [];
    ghost var left := sent;
    while pipe.bytes != []
      invariant AllValid(left) && pipe.bytes == EncodeAll(left) && sent == got + left
      decreases |left|
    {
      RoundTrip(left[0], EncodeAll(left[1..]));
      var r := ReadRequest(pipe);
      got := got + [r];
      left := left[1..];
    }
    EncodedAll(left);
  }

  lemma EncodedAll(rs: seq<Request>)
    requires AllValid(rs)
    ensures EncodeAll(rs) == [] <==> rs == []
  {
    hide Encode;
    if rs != [] {
      OpcodeFirst(rs[0]);
    }
  }
}
