/** The request object, run to completion by one goroutine: read, check, invoke, close. */
module Requests {
  import opened Wire
  import Channels
  import opened Writers
  import opened Responders
  import opened Engine
  import opened Sequential
  import RpcReply
  import Streaming
  import Answers
  import Agreement

  /** A responder of one of the three kinds. */
  class Responser {
    const cd: Codec
    const out: Sink
    const rpc: RpcResponse?
    const line: StreamingResponse?
    const legacy: LegacyStreamingResponse?
    ghost var Repr: set<object>

    /** Makes the responder for a kind on an existing transport. */
    constructor (cd: Codec, out: Sink, mode: MethodType)
      requires out.whole
      ensures Valid() && this.cd == cd && this.out == out && fresh(Repr - {out})
      ensures State() == match mode
                         case RpcMethod => Rpc(RpcReply.NewReply(out.items))
                         case LegacyMethod => Legacy(Channels.Open(-1, out.items))
                         case StreamMethod => Line(Streaming.NewStream(out.items, 0))
    {
      this.cd := cd;
      this.out := out;
      rpc, line, legacy := null, null, null;
      match mode {
        case RpcMethod => rpc := new RpcResponse(cd, out);
        case LegacyMethod => legacy := new LegacyStreamingResponse(cd, out);
        case StreamMethod => line := new StreamingResponse(cd, out, 0);
      }
      new;
      Repr := {this, out};
      match mode {
        case RpcMethod => Repr := Repr + {rpc, rpc.base, rpc.base.limiter, rpc.base.encoder, rpc.base.transport};
        case LegacyMethod => Repr := Repr + {legacy, legacy.base, legacy.base.limiter, legacy.base.encoder};
        case StreamMethod => Repr := Repr + {line, line.base, line.base.limiter, line.base.encoder};
      }
    }

    ghost predicate Valid()
      reads this, Repr
      ensures Valid() ==> this in Repr && out in Repr
    {
      && {this, out} <= Repr
      && (if rpc != null then line == null && legacy == null && RpcValid()
          else if line != null then legacy == null && LineValid()
          else legacy != null && LegacyValid())
    }

    ghost predicate RpcValid()
      requires rpc != null
      reads this, Repr
    {
      && {rpc, rpc.base, rpc.base.limiter, rpc.base.transport} <= Repr && rpc.base.encoder in Repr
      && rpc.Valid() && rpc.cd == cd && rpc.raw == out
    }

    ghost predicate LineValid()
      requires line != null
      reads this, Repr
    {
      && {line, line.base, line.base.limiter} <= Repr && line.base.encoder in Repr
      && line.Valid() && line.cd == cd && line.chunkSize <= 0 && line.base.transport == out
    }

    ghost predicate LegacyValid()
      requires legacy != null
      reads this, Repr
    {
      && {legacy, legacy.base, legacy.base.limiter} <= Repr && legacy.base.encoder in Repr
      && legacy.base.Valid() && legacy.cd == cd && legacy.base.transport == out
    }

    ghost function State(): (r: Responder)
      requires Valid()
      reads this, Repr
      ensures Sound(r) && Sent(r) == out.items
    {
      if rpc != null then Rpc(rpc.State())
      else if line != null then Line(line.State())
      else Legacy(legacy.base.Chan())
    }

    method Write(p: seq<byte>) returns (n: nat, err: Option<Error>)
      requires Valid()
      modifies Repr
      ensures Valid() && Repr == old(Repr)
      ensures (State(), n, err) == Engine.Write(cd, old(State()), p)
    {
      if rpc != null {
        n, err := rpc.Write(p);
      } else if line != null {
        n, err := line.Write(p);
      } else {
        n, err := legacy.Write(p);
      }
    }

    method SetResponseResult(v: Value) returns (err: Option<Error>)
      requires Valid()
      modifies Repr
      ensures Valid() && Repr == old(Repr)
      ensures (State(), err) == Engine.SetResult(cd, old(State()), v)
    {
      if rpc != null {
        err := rpc.SetResponseResult(v);
      } else if line != null {
        err := line.SetResponseResult(v);
      } else {
        err := legacy.SetResponseResult(v);
      }
    }

    method SetResponseError(e: Error)
      requires Valid()
      modifies Repr
      ensures Valid() && fresh(Repr - old(Repr))
      ensures State() == Engine.SetError(cd, old(State()), e)
    {
      if rpc != null {
        var _ := rpc.SetResponseError(e);
      } else if line != null {
        var _ := line.SetResponseError(e);
        Repr := Repr + {line.base.encoder};
      }
    }

    method Close()
      requires Valid()
      modifies Repr
      ensures Valid() && fresh(Repr - old(Repr))
      ensures State() == Engine.Close(cd, old(State()))
    {
      if rpc != null {
        var _ := rpc.Close();
        Repr := Repr + {rpc.base.encoder};
      } else if line != null {
        var _ := line.Close();
      }
    }

    method MaxResponse(max: int)
      requires Valid()
      modifies Repr
      ensures Valid() && fresh(Repr - old(Repr))
      ensures State() == Engine.MaxResponse(old(State()), max)
    {
      if rpc != null {
        rpc.base.MaxResponse(max);
        Repr := Repr + {rpc.base.encoder};
      } else if line != null {
        line.base.MaxResponse(max);
        Repr := Repr + {line.base.encoder};
      } else {
        legacy.base.MaxResponse(max);
        Repr := Repr + {legacy.base.encoder};
      }
    }

    method SetId(id: IdRef)
      requires Valid()
      modifies Repr
      ensures Valid() && Repr == old(Repr)
      ensures State() == Engine.SetId(old(State()), id)
    {
      if rpc != null {
        rpc.base.SetId(id);
      } else if line != null {
        line.base.SetId(id);
      } else {
        legacy.base.SetId(id);
      }
    }
  }

  class JsonRpcRequest {
    const cd: Codec
    const req: Request
    const out: Sink
    var err: Option<Error>
    var responder: Responser

    /** A request whose reading ended with `req.transport`. */
    constructor (cd: Codec, req: Request, out: Sink)
      requires out.whole && out.items == []
      ensures Valid() && fresh(Repr() - {out}) && this.cd == cd && this.req == req && this.out == out
      ensures err == req.transport && responder.State() == NewResponder(req.mode)
    {
      this.cd := cd;
      this.req := req;
      this.out := out;
      err := req.transport;
      responder := new Responser(cd, out, req.mode);
    }

    ghost function Repr(): set<object>
      reads this, responder
    {
      {this} + responder.Repr
    }

    ghost predicate Valid()
      reads this, responder, responder.Repr
    {
      responder.Valid() && responder.cd == cd && responder.out == out && this !in responder.Repr
    }

    method EnsureProtocol()
      requires Valid()
      modifies this`responder
      ensures Valid() && fresh(Repr() - old(Repr()))
      ensures responder.State() == Upgrade(old(responder.State()), req.version)
    {
      if req.version.V20Stream? && responder.rpc == null && responder.line == null {
        responder := new Responser(cd, out, StreamMethod);
      }
    }

    /** The copy loop of a reader. */
    method Copy(pieces: seq<seq<byte>>) returns (e: Option<Error>)
      requires Valid()
      modifies responder.Repr
      ensures Valid() && fresh(Repr() - old(Repr()))
      ensures responder == old(responder)
      ensures (responder.State(), e) == CopyAll(cd, old(responder.State()), pieces)
    {
      var i := 0;
      ghost var start := responder.State();
      assert pieces[0..] == pieces;
      while i < |pieces|
        invariant 0 <= i <= |pieces| && responder == old(responder)
        invariant Valid() && fresh(Repr() - old(Repr()))
        invariant CopyAll(cd, start, pieces) == CopyAll(cd, responder.State(), pieces[i..])
      {
        assert pieces[i..][0] == pieces[i] && pieces[i..][1..] == pieces[i + 1..];
        var n;
        n, e := responder.Write(pieces[i]);
        if e.Some? {
          return;
        }
        if n < |pieces[i]| {
          return Some(SHORT_WRITE);
        }
        i := i + 1;
      }
      e := None;
    }

    /** Runs the method and hands its outcome to the responder. */
    method Invoke(o: Outcome)
      requires Valid()
      modifies this`err, responder.Repr
      ensures Valid() && fresh(Repr() - old(Repr()))
      ensures (responder.State(), err) == Sequential.Invoke(cd, old(responder.State()), o)
    {
      match o
      case Fails(e) =>
        err := Some(e);
        responder.SetResponseError(e);
      case Returns(v) =>
        var e := responder.SetResponseResult(v);
        err := e;
      case Streams(pieces, end) =>
        var e := Copy(pieces);
        err := if e.Some? then e else end;
    }

    /** Settles the protocol and the id, and checks the request. */
    method Prepare()
      requires Valid() && err == req.transport == None
      modifies Repr()
      ensures Valid() && fresh(Repr() - old(Repr()))
      ensures responder.State() == SetId(Upgrade(old(responder.State()), req.version), req.id)
      ensures err == if IsValid(req) then None else Some(INVALID_REQUEST)
    {
      EnsureProtocol();
      responder.SetId(req.id);
      if !IsValid(req) {
        err := Some(INVALID_REQUEST);
      }
    }

    /** Sets the limit of the method and runs it. */
    method Run(t: Target)
      requires Valid()
      modifies Repr()
      ensures Valid() && fresh(Repr() - old(Repr()))
      ensures (responder.State(), err)
           == Sequential.Invoke(cd, Engine.MaxResponse(old(responder.State()), AsInt64(t.maxResponse)), t.outcome)
    {
      responder.MaxResponse(AsInt64(t.maxResponse));
      Invoke(t.outcome);
    }

    method Process(target: Option<Target>)
      requires Valid() && err == req.transport && responder.State() == NewResponder(req.mode)
      modifies Repr()
      ensures Valid() && fresh(Repr() - old(Repr()))
      ensures (responder.State(), err) == Processed(cd, Call(req, target))
    {
      if err.Some? {
        return;
      }
      Prepare();
      if err.Some? {
        return;
      }
      match target
      case None => err := Some(METHOD_NOT_FOUND);
      case Some(t) => Run(t);
    }

    /** Reports an error with the limit lifted. */
    method ReportError(e: Error)
      requires Valid()
      modifies responder.Repr
      ensures Valid() && fresh(Repr() - old(Repr())) && responder == old(responder)
      ensures responder.State() == Engine.SetError(cd, Engine.MaxResponse(old(responder.State()), 0), e)
    {
      responder.MaxResponse(0);
      responder.SetResponseError(e);
    }

    method Close()
      requires Valid()
      modifies Repr()
      ensures Valid() && fresh(Repr() - old(Repr()))
      ensures responder.State() == CloseWith(cd, old(responder.State()), req.version, old(err))
    {
      EnsureProtocol();
      if err.Some? {
        ReportError(err.value);
      }
      responder.Close();
    }
  }

  /** Serves one request on an empty transport; what arrives there is its closed form. */
  method ProcessContext(cd: Codec, req: Request, target: Option<Target>, out: Sink)
    requires out.whole && out.items == []
    modifies out
    ensures out.items == Sent(Serve(cd, Call(req, target)))
    ensures Sane(cd) && (target.Some? ==> Answers.CopyLike(target.value.outcome)) ==>
              out.items == Agreement.Answer(cd, Call(req, target))
  {
    if Sane(cd) && (target.Some? ==> Answers.CopyLike(target.value.outcome)) {
      Agreement.ServeAnswers(cd, Call(req, target));
    }
    var request := new JsonRpcRequest(cd, req, out);
    request.Process(target);
    request.Close();
  }
}
