/** One request as a protocol: the main goroutine, the invoking goroutine, context expiry and the grace timer. */
module Engine {
  import opened Wire
  import opened Channels
  import Streaming
  import RpcReply
  import LegacyReply

  // ----- responders behind one interface -----

  datatype Responder =
    | Rpc(reply: RpcReply.Reply)
    | Line(stream: Streaming.Stream)
    | Legacy(chan: Channel)

  function NewResponder(mode: MethodType): Responder {
    match mode
    case RpcMethod => Rpc(RpcReply.NewReply([]))
    case LegacyMethod => Legacy(Open(-1, []))
    case StreamMethod => Line(Streaming.NewStream([], 0))
  }

  /** A legacy stream is upgraded when the request asks for the streaming protocol. */
  function Upgrade(r: Responder, version: Version): Responder {
    if version.V20Stream? && r.Legacy? then Line(Streaming.NewStream(r.chan.out, 0)) else r
  }

  function SetId(r: Responder, id: IdRef): Responder {
    match r
    case Rpc(s) => Rpc(s.(id := id))
    case Line(s) => Line(s.(id := id))
    case Legacy(_) => r
  }

  function MaxResponse(r: Responder, max: int): Responder {
    match r
    case Rpc(s) => Rpc(s.(chan := Relimit(s.chan, max)))
    case Line(s) => Line(s.(chan := Relimit(s.chan, max)))
    case Legacy(c) => Legacy(Relimit(c, max))
  }

  function Write(cd: Codec, r: Responder, p: seq<byte>): (Responder, nat, Option<Error>)
    requires Sound(r)
  {
    match r
    case Rpc(s) => var (s1, n, e) := RpcReply.Write(s, p); (Rpc(s1), n, e)
    case Line(s) => var (s1, n, e) := Streaming.Write(cd, s, p); (Line(s1), n, e)
    case Legacy(c) => var (c1, n, e) := PutBytes(c, p); (Legacy(c1), n, e)
  }

  function SetResult(cd: Codec, r: Responder, v: Value): (Responder, Option<Error>) {
    match r
    case Rpc(s) => var (s1, e) := RpcReply.SetResult(cd, s, v); (Rpc(s1), e)
    case Line(s) => var (s1, e) := Streaming.SetResult(cd, s, v); (Line(s1), e)
    case Legacy(c) => var (c1, e) := LegacyReply.SetResult(cd, c, v); (Legacy(c1), e)
  }

  function SetError(cd: Codec, r: Responder, err: Error): Responder {
    match r
    case Rpc(s) => Rpc(RpcReply.SetError(s, err).0)
    case Line(s) => Line(Streaming.SetError(cd, s, err).0)
    case Legacy(_) => r
  }

  function Close(cd: Codec, r: Responder): Responder {
    match r
    case Rpc(s) => Rpc(RpcReply.Close(cd, s).0)
    case Line(s) => Line(Streaming.Close(cd, s).0)
    case Legacy(_) => r
  }

  /** Requests are served in line mode. */
  predicate Sound(r: Responder) {
    r.Line? ==> r.stream.chunkSize <= 0
  }

  /** What has reached the transport. */
  function Sent(r: Responder): seq<Item> {
    match r
    case Rpc(s) => s.raw
    case Line(s) => s.chan.out
    case Legacy(c) => c.out
  }

  // ----- requests -----

  /** `transport` is the error met while reading the request, if any. */
  datatype Request = Request(transport: Option<Error>, version: Version, name: string, id: IdRef, mode: MethodType)

  /** What the invoked method does: fail, return a value, or hand over a reader that yields pieces and then
      ends or fails. */
  datatype Outcome =
    | Fails(error: Error)
    | Returns(value: Value)
    | Streams(pieces: seq<seq<byte>>, end: Option<Error>)

  /** The method found for the request, with its response limit. */
  datatype Target = Target(maxResponse: nat, outcome: Outcome)

  datatype Call = Call(req: Request, target: Option<Target>)

  predicate IsValid(req: Request) {
    (req.version.V20? || req.version.V20Stream?) && req.name != ""
  }

  /** An unsigned limit converted to a signed 64-bit one. */
  function AsInt64(u: nat): int {
    if u <= MAX_INT64 then u else u - 0x1_0000_0000_0000_0000
  }

  /** The error that stops a request before anything is invoked. */
  function EarlyError(call: Call): Option<Error> {
    if call.req.transport.Some? then call.req.transport
    else if !IsValid(call.req) then Some(INVALID_REQUEST)
    else if call.target.None? then Some(METHOD_NOT_FOUND)
    else None
  }

  // ----- the protocol -----

  datatype Main =
    | Waiting                 // for expiry or the end of the worker
    | Judging                 // about to look at the error
    | Grace                   // waiting for the timer or the worker
    | Closing                 // about to read the error once
    | Limiting(e: Error)      // about to lift the limit
    | Erring(e: Error)        // about to report the error
    | Ending                  // about to close the responder
    | Finished

  datatype Worker =
    | Invoking                // the method runs
    | Failing(e: Error)       // about to store its error
    | Reporting(e: Error)     // about to report its error
    | Answering(v: Value)     // about to set the result
    | Copying(left: seq<seq<byte>>)
    | Storing(found: Option<Error>)
    | Exited                  // finished, or never started

  datatype State = State(main: Main, worker: Worker, err: Option<Error>, expired: bool, resp: Responder)

  datatype Actor = Expire | Timeout | Done | Proceed | Work

  function Start(call: Call): State {
    var r := NewResponder(call.req.mode);
    if call.req.transport.Some? then State(Closing, Exited, EarlyError(call), false, r)
    else
      var r1 := SetId(Upgrade(r, call.req.version), call.req.id);
      if EarlyError(call).Some? then State(Closing, Exited, EarlyError(call), false, r1)
      else State(Waiting, Invoking, None, false, MaxResponse(r1, AsInt64(call.target.value.maxResponse)))
  }

  predicate Enabled(s: State, a: Actor) {
    match a
    case Expire => !s.expired
    case Timeout => s.main.Waiting? && s.expired
    case Done => s.main.Waiting? && s.worker.Exited?
    case Proceed => !s.main.Waiting? && !s.main.Finished?
    case Work => !s.worker.Exited?
  }

  /** The states a request can be in. */
  predicate WellFormed(call: Call, s: State) {
    && Sound(s.resp)
    && (s.worker != Exited ==> EarlyError(call).None?)
    && (s.worker.Copying? ==> EarlyError(call).None? && call.target.value.outcome.Streams?)
  }

  function Do(cd: Codec, call: Call, s: State, a: Actor): (s': State)
    requires WellFormed(call, s) && Enabled(s, a)
    ensures WellFormed(call, s')
  {
    match a
    case Expire => s.(expired := true)
    case Timeout => s.(main := Judging, err := Some(TIMEOUT))
    case Done => s.(main := Judging)
    case Proceed => DoMain(cd, call, s)
    case Work => DoWorker(cd, call, s)
  }

  function DoMain(cd: Codec, call: Call, s: State): (s': State)
    requires WellFormed(call, s) && Enabled(s, Proceed)
    ensures WellFormed(call, s')
  {
    match s.main
    case Judging => s.(main := if s.err.Some? then Grace else Closing)
    case Grace => s.(main := Closing)
    case Closing =>
      s.(main := if s.err.Some? then Limiting(s.err.value) else Ending, resp := Upgrade(s.resp, call.req.version))
    case Limiting(e) => s.(main := Erring(e), resp := MaxResponse(s.resp, 0))
    case Erring(e) => s.(main := Ending, resp := SetError(cd, s.resp, e))
    case Ending => s.(main := Finished, resp := Close(cd, s.resp))
  }

  function DoWorker(cd: Codec, call: Call, s: State): (s': State)
    requires WellFormed(call, s) && Enabled(s, Work)
    ensures WellFormed(call, s')
  {
    match s.worker
    case Invoking =>
      if s.expired then s.(worker := Exited)
      else
        (match call.target.value.outcome
         case Fails(e) => s.(worker := Failing(e))
         case Returns(v) => s.(worker := Answering(v))
         case Streams(pieces, _) => s.(worker := Copying(pieces)))
    case Failing(e) => s.(worker := Reporting(e), err := Some(e))
    case Reporting(e) => s.(worker := Exited, resp := SetError(cd, s.resp, e))
    case Answering(v) =>
      var (r, e) := SetResult(cd, s.resp, v);
      s.(worker := Storing(e), resp := r)
    case Copying(left) =>
      if left == [] then s.(worker := Storing(call.target.value.outcome.end))
      else
        var (r, e) := WriteWhole(cd, s.resp, left[0]);
        s.(worker := if e.Some? then Storing(e) else Copying(left[1..]), resp := r)
    case Storing(e) => s.(worker := Exited, err := e)
  }

  /** One write of the copy loop, which takes a short count for an error. */
  function WriteWhole(cd: Codec, r: Responder, p: seq<byte>): (res: (Responder, Option<Error>))
    requires Sound(r)
    ensures Sound(res.0)
  {
    var (r1, n, e) := Write(cd, r, p);
    (r1, if e.None? && n < |p| then Some(SHORT_WRITE) else e)
  }

  predicate Feasible(cd: Codec, call: Call, s: State, schedule: seq<Actor>)
    requires WellFormed(call, s)
    decreases |schedule|
  {
    schedule != [] ==> Enabled(s, schedule[0]) && Feasible(cd, call, Do(cd, call, s, schedule[0]), schedule[1..])
  }

  /** The state an interleaving leads to. */
  function After(cd: Codec, call: Call, s: State, schedule: seq<Actor>): (s': State)
    requires WellFormed(call, s) && Feasible(cd, call, s, schedule)
    ensures WellFormed(call, s')
    decreases |schedule|
  {
    if schedule == [] then s else After(cd, call, Do(cd, call, s, schedule[0]), schedule[1..])
  }

  /** A longer run from a run. */
  lemma Extend(cd: Codec, call: Call, s: State, a: Actor, rest: seq<Actor>)
    requires WellFormed(call, s) && Enabled(s, a) && Feasible(cd, call, Do(cd, call, s, a), rest)
    ensures Feasible(cd, call, s, [a] + rest)
    ensures After(cd, call, s, [a] + rest) == After(cd, call, Do(cd, call, s, a), rest)
  {
    assert ([a] + rest)[1..] == rest;
  }

  /** Main waits only once. */
  lemma {:induction false} WaitsOnce(cd: Codec, call: Call, s: State, schedule: seq<Actor>)
    requires WellFormed(call, s) && Feasible(cd, call, s, schedule) && !s.main.Waiting?
    ensures Timeout !in schedule && Done !in schedule
    ensures !After(cd, call, s, schedule).main.Waiting?
    decreases |schedule|
  {
    if schedule == [] {
    } else {
      WaitsOnce(cd, call, Do(cd, call, s, schedule[0]), schedule[1..]);
      assert schedule == [schedule[0]] + schedule[1..];
    }
  }

  // ----- every run ends -----

  function MainRank(m: Main): nat {
    match m
    case Finished => 0 case Ending => 1 case Erring(_) => 2 case Limiting(_) => 3
    case Closing => 4 case Grace => 5 case Judging => 6 case Waiting => 7
  }

  function WorkerRank(call: Call, w: Worker): nat {
    match w
    case Exited => 0
    case Storing(_) => 1
    case Reporting(_) => 1
    case Failing(_) => 2
    case Answering(_) => 2
    case Copying(left) => 2 + |left|
    case Invoking =>
      if call.target.Some? && call.target.value.outcome.Streams? then 3 + |call.target.value.outcome.pieces| else 3
  }

  function Rank(call: Call, s: State): nat {
    MainRank(s.main) + WorkerRank(call, s.worker) + (if s.expired then 0 else 1)
  }

  lemma StepsGoDown(cd: Codec, call: Call, s: State, a: Actor)
    requires WellFormed(call, s) && Enabled(s, a)
    ensures Rank(call, Do(cd, call, s, a)) < Rank(call, s)
  {
  }

  /** Every interleaving is bounded, and it can only stop with the request finished: unless it is, the worker
      or the main goroutine can step even if the context never expires. */
  lemma {:induction false} EveryRunEnds(cd: Codec, call: Call, s: State, schedule: seq<Actor>)
    requires WellFormed(call, s) && Feasible(cd, call, s, schedule)
    ensures var s1 := After(cd, call, s, schedule);
            && |schedule| + Rank(call, s1) <= Rank(call, s)
            && (s1.main.Finished? || Enabled(s1, Done) || Enabled(s1, Proceed) || Enabled(s1, Work))
    decreases |schedule|
  {
    if schedule == [] {
    } else {
      StepsGoDown(cd, call, s, schedule[0]);
      EveryRunEnds(cd, call, Do(cd, call, s, schedule[0]), schedule[1..]);
    }
  }
}
