/** The writer stack under every responder: sink, limiter, encoder, and the state they share. */
module Writers {
  import opened Wire
  import opened Channels

  /** A buffer or a transport. Only a `whole` sink is known to take every write completely. */
  class Sink {
    const whole: bool
    var items: seq<Item>
    var answer: Option<Error>  // the error of the last write

    constructor (whole: bool)
      ensures this.whole == whole && items == [] && answer == None
    {
      this.whole := whole;
      items := [];
      answer := None;
    }

    method Write(p: seq<Item>, length: nat) returns (reported: nat, err: Option<Error>)
      modifies this
      ensures reported <= length && err == answer
      ensures whole ==> reported == length && items == old(items) + p && err.None?
    {
      reported :| reported <= length;
      err := *;
      if whole {
        reported, err := length, None;
      }
      if reported == length {
        items := items + p;
      }
      answer := err;
    }

    method Reset()
      modifies this`items
      ensures items == []
    {
      items := [];
    }
  }

  class LimitedWriter {
    const sink: Sink
    var n: int

    constructor (sink: Sink, limit: int)
      ensures this.sink == sink && n == Allowance(limit)
    {
      this.sink := sink;
      n := if limit > 0 then limit else MAX_INT64;
    }

    method SetLimit(limit: int)
      modifies this
      ensures n == Allowance(limit)
    {
      if limit > 0 {
        n := limit;
      } else {
        n := MAX_INT64;
      }
    }

    /** `length` is the number of bytes `p` stands for. */
    method Write(p: seq<Item>, length: nat) returns (reported: nat, err: Option<Error>)
      modifies this, sink
      ensures reported <= length
      ensures n == AllowanceAfter(old(n), [Attempt(length, reported)])
      ensures reported == Delivered(old(n), Attempt(length, reported))
      ensures err == if Admits(old(n), length) then sink.answer else Some(LIMIT_EXCEED)
      ensures !Admits(old(n), length) ==> unchanged(sink)
      ensures sink.whole && Admits(old(n), length) ==>
                err.None? && reported == length && sink.items == old(sink.items) + p
    {
      if n <= 0 || length > n {
        return 0, Some(LIMIT_EXCEED);
      }
      reported, err := sink.Write(p, length);
      n := n - reported;
    }
  }

  /** The encoder keeps its first write error for ever. */
  class Encoder {
    const limiter: LimitedWriter
    var failed: Option<Error>

    constructor (limiter: LimitedWriter)
      ensures this.limiter == limiter && failed == None
    {
      this.limiter := limiter;
      failed := None;
    }

    method Encode(cd: Codec, f: Frame) returns (err: Option<Error>)
      requires limiter.sink.whole
      modifies this, limiter, limiter.sink
      ensures (Channel(limiter.n, failed, limiter.sink.items), err)
           == Channels.Encode(cd, old(Channel(limiter.n, failed, limiter.sink.items)), f)
    {
      if failed.Some? {
        return failed;
      }
      var _, e := limiter.Write([Object(f)], cd.size(f));
      if e.Some? {
        failed := e;
      }
      err := e;
    }
  }

  /** The fields common to all responders. */
  class BaseResponse {
    const transport: Sink
    const limiter: LimitedWriter
    var encoder: Encoder
    var id: IdRef

    constructor (transport: Sink, limiter: LimitedWriter)
      requires transport.whole && limiter.sink == transport
      ensures this.transport == transport && this.limiter == limiter && fresh(encoder)
      ensures Valid() && id == Some(Null)
      ensures Chan() == Channel(limiter.n, None, transport.items)
    {
      this.transport := transport;
      this.limiter := limiter;
      encoder := new Encoder(limiter);
      id := Some(Null);
    }

    ghost predicate Valid()
      reads this
    {
      transport.whole && limiter.sink == transport && encoder.limiter == limiter
    }

    ghost function Chan(): Channel
      reads this, limiter, encoder, transport
    {
      Channel(limiter.n, encoder.failed, transport.items)
    }

    method MaxResponse(max: int)
      requires Valid()
      modifies this`encoder, limiter
      ensures Valid() && fresh(encoder)
      ensures Chan() == Relimit(old(Chan()), max)
    {
      limiter.SetLimit(max);
      encoder := new Encoder(limiter);
    }

    method SetId(id: IdRef)
      modifies this`id
      ensures this.id == id
    {
      this.id := id;
    }

    method Encode(cd: Codec, f: Frame) returns (err: Option<Error>)
      requires Valid()
      modifies encoder, limiter, transport
      ensures (Chan(), err) == Channels.Encode(cd, old(Chan()), f)
    {
      err := encoder.Encode(cd, f);
    }

    method Write(p: seq<byte>) returns (n: nat, err: Option<Error>)
      requires Valid()
      modifies limiter, transport
      ensures (Chan(), n, err) == PutBytes(old(Chan()), p)
    {
      n, err := limiter.Write(Bytes(p), |p|);
    }
  }
}
