/** The response limit of a method, and which requests reach a method, told by what a client receives. */
module Limits {
  import opened Wire
  import opened Channels
  import opened Engine
  import opened Sequential
  import opened LineMode
  import opened StreamAnswers
  import Answers
  import Agreement
  import LegacyReply

  const MAX_UINT64: int := 0xFFFF_FFFF_FFFF_FFFF

  /** A request that can be read and is valid, for a method that was found. */
  predicate Reaches(call: Call) {
    && call.req.transport.None? && call.req.name != ""
    && (call.req.version == V20 || call.req.version == V20Stream)
    && call.target.Some? && call.target.value.maxResponse <= MAX_UINT64
  }

  /** What a method limited to `max` may send: nothing else is limited, neither 0 nor what overflows. */
  ghost predicate Bounds(max: nat, bound: nat) {
    bound == if 0 < max <= MAX_INT64 then max else MAX_INT64
  }

  lemma LimitIsBound(call: Call, bound: nat)
    requires Reaches(call) && Bounds(call.target.value.maxResponse, bound)
    ensures EarlyError(call).None? && Answers.LimitOf(call.target.value) == bound
  {
  }

  function Response(value: Value, id: IdRef): seq<Item> {
    [Object(Result(V20, value, id))]
  }

  function Refusal(code: int, id: IdRef): seq<Item> {
    [Object(Failure(V20, RpcError(code, None), id))]
  }

  /** An RPC call with a reader that ends without an error is answered with all bytes exactly if they are within the
      limit, and with the limit error otherwise. */
  lemma RpcReaderLimit(cd: Codec, call: Call, bound: nat)
    requires Sane(cd) && call.req.mode == RpcMethod && call.req.id.Some?
    requires Reaches(call) && Bounds(call.target.value.maxResponse, bound)
    requires call.target.value.outcome.Streams? && call.target.value.outcome.end.None?
    requires Answers.CopyLike(call.target.value.outcome)
    ensures var p := Concat(call.target.value.outcome.pieces);
            Sent(Serve(cd, call))
            == if |p| <= bound then Response(Content(p), call.req.id) else Refusal(-32098, call.req.id)
  {
    LimitIsBound(call, bound);
    Answers.ServeRpc(cd, call);
  }

  /** A plain result counts with its whole encoding. */
  lemma RpcResultLimit(cd: Codec, call: Call, bound: nat)
    requires Sane(cd) && call.req.mode == RpcMethod && call.req.id.Some?
    requires Reaches(call) && Bounds(call.target.value.maxResponse, bound)
    requires call.target.value.outcome.Returns?
    ensures var v := call.target.value.outcome.value;
            Sent(Serve(cd, call))
            == if cd.size(Result(V20, v, call.req.id)) <= bound then Response(v, call.req.id)
               else Refusal(-32098, call.req.id)
  {
    LimitIsBound(call, bound);
    Answers.ServeRpc(cd, call);
  }

  /** Leading frames that are within the bound, where one more would not be. */
  ghost predicate Longest(cd: Codec, bound: nat, fs: seq<Frame>, k: nat) {
    k <= |fs| && Sizes(cd, fs[..k]) <= bound && (k < |fs| ==> Sizes(cd, fs[..k + 1]) > bound)
  }

  /** If header and lines alone exceed the bound, those that fit are followed by the limit error; otherwise what
      fits of header, lines, tail and footer is all there is. */
  ghost predicate ShowsWithin(cd: Codec, bound: nat, id: IdRef, p: seq<byte>, k: nat, fs: seq<Frame>) {
    var lines := LineFrames(p, id);
    var all := lines + TailFrames(p, id) + [DoneFrame(id)];
    if Sizes(cd, lines) > bound then
      Longest(cd, bound, lines, k) && fs == lines[..k] + [Failure(V20Stream, RpcError(-32098, None), id)]
    else Longest(cd, bound, all, k) && fs == all[..k]
  }

  lemma OutputWithin(cd: Codec, bound: nat, id: IdRef, p: seq<byte>) returns (k: nat)
    requires Sane(cd)
    ensures ShowsWithin(cd, bound, id, p, k, StreamedOutput(cd, bound, id, p, None))
  {
    var lines := LineFrames(p, id);
    var shown := if Sizes(cd, lines) > bound then lines else lines + TailFrames(p, id) + [DoneFrame(id)];
    k := FittingPrefix(cd, bound, shown);
    FittingPrefixMeaning(cd, bound, shown);
  }

  /** A stream with a reader that ends without an error shows the longest leading part of its frames that is within
      the limit, and the limit error behind a part of the header and the lines. */
  lemma StreamReaderLimit(cd: Codec, call: Call, bound: nat) returns (k: nat, fs: seq<Frame>)
    requires Sane(cd) && IsStreamed(call.req)
    requires Reaches(call) && Bounds(call.target.value.maxResponse, bound)
    requires call.target.value.outcome.Streams? && call.target.value.outcome.end.None?
    requires Answers.CopyLike(call.target.value.outcome)
    ensures Sent(Serve(cd, call)) == Objects(fs)
    ensures ShowsWithin(cd, bound, call.req.id, Concat(call.target.value.outcome.pieces), k, fs)
  {
    LimitIsBound(call, bound);
    ServeStream(cd, call);
    fs := StreamAnswer(cd, call);
    k := OutputWithin(cd, bound, call.req.id, Concat(call.target.value.outcome.pieces));
  }

  /** A legacy stream shows all bytes exactly if they are within the limit, and otherwise those of the leading
      writes up to the first that would exceed it. */
  lemma LegacyReaderLimit(cd: Codec, call: Call, bound: nat) returns (k: nat)
    requires Agreement.IsLegacy(call.req)
    requires Reaches(call) && Bounds(call.target.value.maxResponse, bound)
    requires call.target.value.outcome.Streams? && Answers.CopyLike(call.target.value.outcome)
    ensures var ws := call.target.value.outcome.pieces;
            && k <= |ws| && Sent(Serve(cd, call)) == Bytes(Concat(ws[..k]))
            && |Concat(ws[..k])| <= bound && (k == |ws| <==> |Concat(ws)| <= bound)
            && (k < |ws| ==> |Concat(ws[..k])| + |ws[k]| > bound)
  {
    var ws := call.target.value.outcome.pieces;
    LimitIsBound(call, bound);
    Agreement.ServeLegacy(cd, call);
    LegacyReply.PassesThrough(Open(bound, []), ws);
    k := LegacyReply.FittingWrites(bound, ws);
    NextWriteIsTooLong(bound, ws);
  }

  lemma {:induction false} NextWriteIsTooLong(bound: nat, ws: seq<seq<byte>>)
    requires forall w :: w in ws ==> w != []
    ensures var k := LegacyReply.FittingWrites(bound, ws);
            && |Concat(ws[..k])| <= bound && (k < |ws| ==> |Concat(ws[..k])| + |ws[k]| > bound)
    decreases |ws|
  {
    var k := LegacyReply.FittingWrites(bound, ws);
    if ws == [] || |ws[0]| > bound {
      assert ws[..0] == [];
    } else {
      assert ws[0] in ws && forall w :: w in ws[1..] ==> w in ws;
      NextWriteIsTooLong(bound - |ws[0]|, ws[1..]);
      TakeMore(ws, k - 1);
      assert ws[..k][1..] == ws[1..][..k - 1];
    }
  }

  /** A legacy stream prints a plain result if it fits: a text itself, a number in decimal, other values not. */
  lemma LegacyResult(cd: Codec, call: Call, bound: nat) returns (p: Option<seq<byte>>)
    requires Agreement.IsLegacy(call.req)
    requires Reaches(call) && Bounds(call.target.value.maxResponse, bound)
    requires call.target.value.outcome.Returns?
    ensures match call.target.value.outcome.value
            case Word(t) => p == Some(cd.utf8(t))
            case Number(n) => exists s :: LegacyReply.Spells(s, n) && p == Some(cd.utf8(s))
            case Content(bytes) => p == Some(bytes)
            case Other(_) => p.None?
    ensures Sent(Serve(cd, call)) == Bytes(if p.Some? && |p.value| <= bound then p.value else [])
  {
    LimitIsBound(call, bound);
    Agreement.ServeLegacy(cd, call);
    p := LegacyReply.PrintsResults(cd, Open(bound, []), call.target.value.outcome.value);
  }

  /** Requests that reach no method, and what they are answered: the error met while reading, under a null id; an
      invalid request for any version but the two known ones or an empty name; else a method that is not found. */
  lemma Refusals(cd: Codec, call: Call)
    requires Sane(cd) && (call.target.Some? ==> Answers.CopyLike(call.target.value.outcome))
    requires call.req.transport.Some? || call.req.version == OtherVersion || call.req.name == "" || call.target.None?
    ensures var sent, read := Sent(Serve(cd, call)), call.req.transport.None?;
            var known := call.req.version != OtherVersion && call.req.name != "";
            var e := if !read then ErrorObject(call.req.transport.value)
                     else RpcError(if known then -32601 else -32600, None);
            var id := if read then call.req.id else Some(Null);
            if call.req.mode.RpcMethod? then sent == if id.None? then [] else [Object(Failure(V20, e, id))]
            else if call.req.mode.LegacyMethod? && call.req.version != V20Stream then sent == []
            else sent == [Object(Failure(V20Stream, e, id))]
  {
    Agreement.ServeAnswers(cd, call);
  }
}
