/** In time every interleaving computes the same answer as a plain sequential call. */
module Sequential {
  import opened Wire
  import opened Engine

  /** The copy loop. */
  function CopyAll(cd: Codec, r: Responder, pieces: seq<seq<byte>>): (res: (Responder, Option<Error>))
    requires Sound(r)
    ensures Sound(res.0)
    decreases |pieces|
  {
    if pieces == [] then (r, None)
    else
      var (r1, e) := WriteWhole(cd, r, pieces[0]);
      if e.Some? then (r1, e) else CopyAll(cd, r1, pieces[1..])
  }

  /** The whole invocation: the responder it leaves and the error it stores. */
  function Invoke(cd: Codec, r: Responder, o: Outcome): (res: (Responder, Option<Error>))
    requires Sound(r)
    ensures Sound(res.0)
  {
    match o
    case Fails(e) => (SetError(cd, r, e), Some(e))
    case Returns(v) => SetResult(cd, r, v)
    case Streams(pieces, end) =>
      var (r1, e) := CopyAll(cd, r, pieces);
      (r1, if e.Some? then e else end)
  }

  function CloseWith(cd: Codec, r: Responder, version: Version, err: Option<Error>): (r': Responder)
    requires Sound(r)
    ensures Sound(r')
  {
    var r1 := Upgrade(r, version);
    match err
    case None => Close(cd, r1)
    case Some(e) => Close(cd, SetError(cd, MaxResponse(r1, 0), e))
  }

  /** The responder and the error before the request is closed. */
  function Processed(cd: Codec, call: Call): (res: (Responder, Option<Error>))
    ensures Sound(res.0)
  {
    var s := Start(call);
    if EarlyError(call).Some? then (s.resp, EarlyError(call)) else Invoke(cd, s.resp, call.target.value.outcome)
  }

  /** Read, check, invoke, close: the reference a request is measured against. */
  function Serve(cd: Codec, call: Call): Responder {
    var (r, e) := Processed(cd, call);
    CloseWith(cd, r, call.req.version, e)
  }

  /** What the worker still has to do to the responder and the stored error, if nothing interferes. */
  function Pending(cd: Codec, call: Call, s: State): (res: (Responder, Option<Error>))
    requires WellFormed(call, s)
    ensures Sound(res.0)
  {
    match s.worker
    case Invoking => Invoke(cd, s.resp, call.target.value.outcome)
    case Failing(e) => (SetError(cd, s.resp, e), Some(e))
    case Reporting(e) => (SetError(cd, s.resp, e), s.err)
    case Answering(v) => SetResult(cd, s.resp, v)
    case Copying(left) =>
      var (r, e) := CopyAll(cd, s.resp, left);
      (r, if e.Some? then e else call.target.value.outcome.end)
    case Storing(e) => (s.resp, e)
    case Exited => (s.resp, s.err)
  }

  lemma WorkKeepsPending(cd: Codec, call: Call, s: State)
    requires WellFormed(call, s) && Enabled(s, Work) && (s.worker.Invoking? ==> !s.expired)
    ensures Pending(cd, call, DoWorker(cd, call, s)) == Pending(cd, call, s)
  {
  }

  /** What the request still has to do. */
  function Remaining(cd: Codec, call: Call, s: State): Responder
    requires WellFormed(call, s)
  {
    match s.main
    case Finished => s.resp
    case Ending => Close(cd, s.resp)
    case Erring(e) => Close(cd, SetError(cd, s.resp, e))
    case Limiting(e) => Close(cd, SetError(cd, MaxResponse(s.resp, 0), e))
    case _ =>
      var (r, e) := Pending(cd, call, s);
      CloseWith(cd, r, call.req.version, e)
  }

  /** No expiry precedes the return of the method, and main is past its wait only if the worker is gone. */
  predicate Unhurried(s: State) {
    (s.worker.Invoking? ==> !s.expired) && (s.main.Waiting? || s.worker.Exited?)
  }

  lemma StepKeepsRemaining(cd: Codec, call: Call, s: State, a: Actor)
    requires WellFormed(call, s) && Enabled(s, a) && Unhurried(s)
    requires !a.Timeout? && (a.Expire? ==> !s.worker.Invoking?)
    ensures Unhurried(Do(cd, call, s, a))
    ensures Remaining(cd, call, Do(cd, call, s, a)) == Remaining(cd, call, s)
  {
    if a.Work? {
      WorkKeepsPending(cd, call, s);
    }
  }

  /** The context expires before the worker's first step, which is the return of the method. */
  predicate ExpiresFirst(schedule: seq<Actor>) {
    schedule != [] && (schedule[0].Expire? || (!schedule[0].Work? && ExpiresFirst(schedule[1..])))
  }

  /** Main never gives up waiting, and a method that is to run returns before the context expires: what it returns
      later is dropped. */
  predicate InTime(call: Call, schedule: seq<Actor>) {
    Timeout !in schedule && (EarlyError(call).None? ==> !ExpiresFirst(schedule))
  }

  lemma {:induction false} RunKeepsRemaining(cd: Codec, call: Call, s: State, schedule: seq<Actor>)
    requires WellFormed(call, s) && Feasible(cd, call, s, schedule) && Unhurried(s)
    requires Timeout !in schedule && (s.worker.Invoking? ==> !ExpiresFirst(schedule))
    ensures Remaining(cd, call, After(cd, call, s, schedule)) == Remaining(cd, call, s)
    decreases |schedule|
  {
    if schedule == [] {
    } else {
      assert schedule[0] in schedule;
      StepKeepsRemaining(cd, call, s, schedule[0]);
      RunKeepsRemaining(cd, call, Do(cd, call, s, schedule[0]), schedule[1..]);
    }
  }

  lemma {:induction false} UnexpiredIsInTime(cd: Codec, call: Call, s: State, schedule: seq<Actor>)
    requires WellFormed(call, s) && Feasible(cd, call, s, schedule)
    requires !After(cd, call, s, schedule).expired
    ensures !s.expired && Timeout !in schedule && !ExpiresFirst(schedule)
    decreases |schedule|
  {
    if schedule == [] {
    } else {
      UnexpiredIsInTime(cd, call, Do(cd, call, s, schedule[0]), schedule[1..]);
      assert schedule == [schedule[0]] + schedule[1..];
    }
  }

  /** The refinement theorem, for every kind of responder: unless main gives up waiting or the method returns
      too late, the request ends as the sequential call. All runs that do not expire are among these. */
  lemma InTimeRunIsSequential(cd: Codec, call: Call, schedule: seq<Actor>)
    requires Feasible(cd, call, Start(call), schedule)
    ensures var s := After(cd, call, Start(call), schedule);
            && (!s.expired ==> InTime(call, schedule))
            && (InTime(call, schedule) && s.main.Finished? ==> s.resp == Serve(cd, call))
  {
    if !After(cd, call, Start(call), schedule).expired {
      UnexpiredIsInTime(cd, call, Start(call), schedule);
    }
    if InTime(call, schedule) {
      RunKeepsRemaining(cd, call, Start(call), schedule);
    }
  }
}
