/** The responder objects; each method is tied to the value semantics of its responder. */
module Responders {
  import opened Wire
  import opened Channels
  import opened Writers
  import Framing
  import Streaming
  import RpcReply
  import LegacyReply

  class StreamingResponse {
    const base: BaseResponse
    const cd: Codec
    const chunkSize: int
    var buffer: seq<byte>
    var firstWrite: bool
    var isClosed: bool

    constructor (cd: Codec, writer: Sink, n: int)
      requires writer.whole
      ensures Valid() && base.transport == writer && this.cd == cd && chunkSize == n
      ensures fresh(base) && fresh(base.limiter) && fresh(base.encoder)
      ensures State() == Streaming.NewStream(writer.items, n)
    {
      this.cd := cd;
      var limited := new LimitedWriter(writer, 0);
      base := new BaseResponse(writer, limited);
      chunkSize := n;
      buffer := [];
      firstWrite := true;
      isClosed := false;
    }

    ghost predicate Valid()
      reads this, base
    {
      base.Valid() && (chunkSize > 0 ==> |buffer| <= chunkSize)
    }

    ghost function State(): Streaming.Stream
      reads this, base, base.limiter, base.encoder, base.transport
    {
      Streaming.Stream(base.Chan(), base.id, buffer, chunkSize, firstWrite, isClosed)
    }

    method Commit() returns (err: Option<Error>)
      requires Valid()
      modifies this`buffer, base.encoder, base.limiter, base.transport
      ensures Valid() && (State(), err) == Streaming.Commit(cd, old(State()))
    {
      if |buffer| <= 0 {
        return None;
      }
      var form := if chunkSize <= 0 then Text else Base64;
      err := base.Encode(cd, Data(buffer, form, base.id));
      buffer := [];
    }

    method SetResponseResult(r: Value) returns (err: Option<Error>)
      requires Valid()
      modifies this`buffer, base.encoder, base.limiter, base.transport
      ensures Valid() && (State(), err) == Streaming.SetResult(cd, old(State()), r)
    {
      if isClosed {
        return None;
      }
      err := Commit();
      if err.Some? {
        return;
      }
      err := base.Encode(cd, Result(V20Stream, r, base.id));
    }

    method Close() returns (err: Option<Error>)
      requires Valid()
      modifies this`buffer, this`isClosed, base.encoder, base.limiter, base.transport
      ensures Valid() && (State(), err) == Streaming.Close(cd, old(State()))
    {
      err := Commit();
      if err.Some? {
        return;
      }
      if !isClosed {
        err := SetResponseResult(DONE);
      }
      isClosed := true;
    }

    method SetResponseError(e: Error) returns (err: Option<Error>)
      requires Valid()
      modifies this`buffer, this`isClosed, base`encoder, base.encoder, base.limiter, base.transport
      ensures Valid() && (base.encoder == old(base.encoder) || fresh(base.encoder))
      ensures (State(), err) == Streaming.SetError(cd, old(State()), e)
    {
      if isClosed {
        return None;
      }
      err := Commit();
      if err.Some? {
        return;
      }
      base.MaxResponse(0);
      isClosed := true;
      err := base.Encode(cd, Failure(V20Stream, ErrorObject(e), base.id));
      if err.Some? {
        var _ := Close();
        return;
      }
      err := Close();
      var _ := Close();
    }

    method Write(p: seq<byte>) returns (n: nat, err: Option<Error>)
      requires Valid()
      modifies this`buffer, this`firstWrite, base.encoder, base.limiter, base.transport
      ensures Valid() && (State(), n, err) == Streaming.Write(cd, old(State()), p)
    {
      if isClosed {
        return 0, Some(END_OF_FILE);
      }
      n := 0;
      if firstWrite {
        err := SetResponseResult(HEADER);
        firstWrite := false;
        if err.Some? {
          return;
        }
      }
      if chunkSize <= 0 {
        n, err := WriteLines(Framing.SplitAfter(p));
      } else {
        n, err := WriteChunks(p);
      }
    }

    method WriteLines(ps: seq<seq<byte>>) returns (n: nat, err: Option<Error>)
      requires Valid() && chunkSize <= 0
      modifies this`buffer, base.encoder, base.limiter, base.transport
      ensures Valid() && (State(), n, err) == Streaming.WritePieces(cd, old(State()), ps)
    {
      n, err := 0, None;
      var i := 0;
      ghost var start := State();
      while i < |ps|
        invariant 0 <= i <= |ps| && Valid()
        invariant base.encoder == old(base.encoder)
        invariant var rest := Streaming.WritePieces(cd, State(), ps[i..]);
                  Streaming.WritePieces(cd, start, ps) == (rest.0, n + rest.1, rest.2)
        invariant State() == start.(chan := State().chan, buffer := buffer)
      {
        var v := ps[i];
        assert ps[i..][0] == v && ps[i..][1..] == ps[i + 1..];
        if v != [] {
          if v[|v| - 1] == NEWLINE {
            var line := v[..|v| - 1];
            if buffer != [] {
              line := buffer + line;
              buffer := [];
            } else {
              assert buffer + line == line;
            }
            err := base.Encode(cd, Data(line, Text, base.id));
            if err.Some? {
              return;
            }
          } else {
            buffer := buffer + v;
          }
          n := n + |v|;
        }
        i := i + 1;
      }
      err := None;
    }

    method WriteChunks(p: seq<byte>) returns (n: nat, err: Option<Error>)
      requires Valid() && 0 < chunkSize
      modifies this`buffer, base.encoder, base.limiter, base.transport
      ensures Valid() && (State(), n, err) == Streaming.WriteBlocks(cd, old(State()), p)
    {
      if |p| + |buffer| < chunkSize {
        buffer := buffer + p;
        return |p|, None;
      }
      var missing := Remainder(chunkSize, |buffer|);
      buffer := buffer + p[..missing];
      n := missing;
      err := Commit();
      if err.Some? {
        return;
      }
      assert State() == Streaming.Commit(cd, old(State()).(buffer := old(buffer) + p[..missing])).0;
      n, err := WriteWholeBlocks(p, missing);
      if err.Some? {
        return;
      }
      var chunk := n;
      buffer := buffer + p[chunk..];
      n := n + (|p| - chunk);
    }

    /** The loop of `WriteChunks`; the count runs ahead of a block that fails. */
    method WriteWholeBlocks(p: seq<byte>, missing: nat) returns (chunk: nat, err: Option<Error>)
      requires Valid() && 0 < chunkSize && missing <= |p|
      modifies base.encoder, base.limiter, base.transport
      ensures Valid() && (State(), chunk, err) == Streaming.CutBlocks(cd, old(State()), p, missing)
    {
      chunk := missing;
      ghost var start := State();
      while chunk + chunkSize < |p|
        invariant missing <= chunk <= |p| && Valid()
        invariant base.encoder == old(base.encoder)
        invariant State() == start.(chan := State().chan)
        invariant Streaming.CutBlocks(cd, start, p, missing) == Streaming.CutBlocks(cd, State(), p, chunk)
        decreases |p| - chunk
      {
        var data := p[chunk..chunk + chunkSize];
        chunk := chunk + chunkSize;
        err := base.Encode(cd, Data(data, Base64, base.id));
        if err.Some? {
          return;
        }
      }
      err := None;
    }
  }

  /** The count of bytes missing to a full block as the program computes it. */
  method Remainder(n: int, have: int) returns (m: int)
    requires 0 <= have <= n && 0 < n
    ensures m == if have == 0 then 0 else n - have
  {
    m := (n - have) % n;
  }

  class RpcResponse {
    const base: BaseResponse
    const cd: Codec
    const raw: Sink
    var dataSent: bool
    var resultSet: bool

    constructor (cd: Codec, w: Sink)
      requires w.whole
      ensures Valid() && raw == w && this.cd == cd
      ensures fresh(base) && fresh(base.limiter) && fresh(base.encoder) && fresh(base.transport)
      ensures State() == RpcReply.NewReply(w.items)
    {
      this.cd := cd;
      raw := w;
      var buffer := new Sink(true);
      var limiter := new LimitedWriter(buffer, -1);
      base := new BaseResponse(buffer, limiter);
      dataSent := false;
      resultSet := false;
    }

    ghost predicate Valid()
      reads this, base
    {
      base.Valid() && raw.whole && raw != base.transport
    }

    ghost function State(): RpcReply.Reply
      reads this, base, base.limiter, base.encoder, base.transport, raw
    {
      RpcReply.Reply(base.Chan(), raw.items, base.id, dataSent, resultSet)
    }

    method Write(p: seq<byte>) returns (n: nat, err: Option<Error>)
      requires Valid()
      modifies base.limiter, base.transport
      ensures Valid() && (State(), n, err) == RpcReply.Write(old(State()), p)
    {
      if resultSet {
        return 0, Some(RESULT_ALREADY_SET);
      }
      n, err := base.Write(p);
    }

    method SetResponseError(e: Error) returns (err: Option<Error>)
      requires Valid()
      modifies this`resultSet, base.transport
      ensures Valid() && (State(), err) == RpcReply.SetError(old(State()), e)
    {
      if dataSent {
        return Some(RESULT_ALREADY_SET);
      }
      if base.id.None? {
        return None;
      }
      resultSet := true;
      base.transport.Reset();
      var f := Failure(V20, ErrorObject(e), base.id);
      var _, _ := base.transport.Write([Object(f)], cd.size(f));
      assert [] + [Object(f)] == [Object(f)];
      err := None;
    }

    method SetResponseResult(v: Value) returns (err: Option<Error>)
      requires Valid()
      modifies this`resultSet, base.encoder, base.limiter, base.transport
      ensures Valid() && (State(), err) == RpcReply.SetResult(cd, old(State()), v)
    {
      if resultSet {
        return Some(RESULT_ALREADY_SET);
      }
      if base.id.None? {
        return None;
      }
      resultSet := true;
      err := base.Encode(cd, Result(V20, v, base.id));
    }

    method Close() returns (err: Option<Error>)
      requires Valid()
      modifies this, base`encoder, base.encoder, base.limiter, base.transport, raw
      ensures Valid() && (base.encoder == old(base.encoder) || fresh(base.encoder))
      ensures (State(), err) == RpcReply.Close(cd, old(State()))
    {
      if dataSent {
        return None;
      }
      dataSent := true;
      if !resultSet {
        base.MaxResponse(0);
        var content := RawBytes(base.transport.items);
        base.transport.Reset();
        err := SetResponseResult(Content(content));
        if err.Some? {
          return;
        }
      }
      var _, _ := raw.Write(base.transport.items, Length(cd, base.transport.items));
      base.transport.Reset();
      err := None;
    }
  }

  class LegacyStreamingResponse {
    const base: BaseResponse
    const cd: Codec

    constructor (cd: Codec, out: Sink)
      requires out.whole
      ensures this.cd == cd && base.Valid() && base.transport == out && base.Chan() == Open(-1, out.items)
      ensures fresh(base) && fresh(base.limiter) && fresh(base.encoder)
    {
      this.cd := cd;
      var limiter := new LimitedWriter(out, -1);
      base := new BaseResponse(out, limiter);
    }

    method Write(p: seq<byte>) returns (n: nat, err: Option<Error>)
      requires base.Valid()
      modifies base.limiter, base.transport
      ensures base.Valid() && (base.Chan(), n, err) == PutBytes(old(base.Chan()), p)
    {
      n, err := base.Write(p);
    }

    method SetResponseResult(v: Value) returns (err: Option<Error>)
      requires base.Valid()
      modifies base.limiter, base.transport
      ensures base.Valid() && (base.Chan(), err) == LegacyReply.SetResult(cd, old(base.Chan()), v)
    {
      match LegacyReply.Printed(cd, v)
      case None => err := None;
      case Some(p) =>
        var _, e := base.Write(p);
        err := e;
    }
  }
}
