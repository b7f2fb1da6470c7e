/** From the configuration of a method to what a client receives. */
module Service {
  import opened Wire
  import opened Registry
  import opened Engine
  import opened Sequential
  import opened Answers

  /** The method the registry finds for a request; `behaviour` says what each invoker does. */
  function TargetOf(h: seq<Event>, req: Request, behaviour: int -> Outcome): Option<Target> {
    match Lookup(h, Key(req.name, req.mode))
    case None => None
    case Some(e) => Some(Target(e.limits.maxResponse, behaviour(e.invoker)))
  }

  /** What the configuration promises an RPC client. */
  function ConfiguredAnswer(cd: Codec, conf: map<string, MethodConf>, req: Request, behaviour: int -> Outcome)
    : seq<Item>
  {
    if req.transport.None? && IsValid(req) && req.name in conf && !conf[req.name].streamed then
      var v := conf[req.name];
      RpcAnswer(cd, Call(req, Some(Target(LimitsOf(v).maxResponse, behaviour(v.invoker)))))
    else if req.transport.Some? then ErrorItem(req.transport.value, Some(Null))
    else if req.id.None? then []
    else ErrorItem(if IsValid(req) then METHOD_NOT_FOUND else INVALID_REQUEST, req.id)
  }

  /** A configured service: in every interleaving in time an RPC request gets the answer its configuration
      promises; a method configured as streamed is not found by RPC. */
  lemma ConfiguredRequest(cd: Codec, conf: map<string, MethodConf>, h: seq<Event>, req: Request,
                          behaviour: int -> Outcome, schedule: seq<Actor>)
    requires Sane(cd) && Configured(h, conf, conf.Keys) && req.mode == RpcMethod
    requires forall i :: CopyLike(behaviour(i))
    requires var call := Call(req, TargetOf(h, req, behaviour));
             Feasible(cd, call, Start(call), schedule)
    ensures var call := Call(req, TargetOf(h, req, behaviour));
            var s := After(cd, call, Start(call), schedule);
            (!s.expired || InTime(call, schedule)) && s.main.Finished? ==>
              Sent(s.resp) == ConfiguredAnswer(cd, conf, req, behaviour)
  {
    var call := Call(req, TargetOf(h, req, behaviour));
    RpcRefinesAnswer(cd, call, schedule);
    var key := Key(req.name, RpcMethod);
    assert Lookup(h, key) == Registered(h, key);
  }
}
