/** The streaming responder: re-frames arbitrary writes into a header, data frames and a footer. */
module Streaming {
  import opened Wire
  import opened Channels
  import opened Framing

  datatype Stream = Stream(chan: Channel, id: IdRef, buffer: seq<byte>, chunkSize: int,
                           firstWrite: bool, closed: bool)

  /** The buffer never exceeds a block. */
  predicate Regular(s: Stream) {
    s.chunkSize > 0 ==> |s.buffer| <= s.chunkSize
  }

  function NewStream(out: seq<Item>, chunkSize: int): Stream {
    Stream(Open(0, out), Some(Null), [], chunkSize, true, false)
  }

  function Emit(cd: Codec, s: Stream, f: Frame): (Stream, Option<Error>) {
    var (c, e) := Encode(cd, s.chan, f);
    (s.(chan := c), e)
  }

  function BufferFrame(s: Stream): Frame {
    Data(s.buffer, if s.chunkSize <= 0 then Text else Base64, s.id)
  }

  function Commit(cd: Codec, s: Stream): (Stream, Option<Error>) {
    if s.buffer == [] then (s, None)
    else
      var (s1, e) := Emit(cd, s, BufferFrame(s));
      (s1.(buffer := []), e)
  }

  function SetResult(cd: Codec, s: Stream, v: Value): (Stream, Option<Error>) {
    if s.closed then (s, None)
    else
      var (s1, e) := Commit(cd, s);
      if e.Some? then (s1, e) else Emit(cd, s1, Result(V20Stream, v, s1.id))
  }

  function Close(cd: Codec, s: Stream): (Stream, Option<Error>) {
    var (s1, e) := Commit(cd, s);
    if e.Some? then (s1, e)
    else
      var (s2, e2) := if s1.closed then (s1, None) else SetResult(cd, s1, DONE);
      (s2.(closed := true), e2)
  }

  function SetError(cd: Codec, s: Stream, err: Error): (Stream, Option<Error>) {
    if s.closed then (s, None)
    else
      var (s1, e) := Commit(cd, s);
      if e.Some? then (s1, e)
      else
        var s2 := s1.(chan := Relimit(s1.chan, 0), closed := true);
        Emit(cd, s2, Failure(V20Stream, ErrorObject(err), s2.id))
  }

  // ----- writing -----

  /** Sends the header before the first write. */
  function Begin(cd: Codec, s: Stream): (Stream, Option<Error>) {
    if s.firstWrite then
      var (s1, e) := SetResult(cd, s, HEADER);
      (s1.(firstWrite := false), e)
    else (s, None)
  }

  function Write(cd: Codec, s: Stream, p: seq<byte>): (r: (Stream, nat, Option<Error>))
    requires Regular(s)
    ensures Regular(r.0) && r.0.chunkSize == s.chunkSize
  {
    if s.closed then (s, 0, Some(END_OF_FILE))
    else
      var (s1, e) := Begin(cd, s);
      if e.Some? then (s1, 0, e)
      else if s.chunkSize <= 0 then WritePieces(cd, s1, SplitAfter(p))
      else WriteBlocks(cd, s1, p)
  }

  /** Line mode: a piece ending in a newline completes the line begun in the buffer. */
  function WritePieces(cd: Codec, s: Stream, ps: seq<seq<byte>>): (r: (Stream, nat, Option<Error>))
    ensures r.0.chunkSize == s.chunkSize
    decreases |ps|
  {
    if ps == [] then (s, 0, None)
    else if ps[0] == [] then WritePieces(cd, s, ps[1..])
    else
      var (s1, e) := WritePiece(cd, s, ps[0]);
      if e.Some? then (s1, 0, e)
      else
        var (s2, n, e2) := WritePieces(cd, s1, ps[1..]);
        (s2, |ps[0]| + n, e2)
  }

  function WritePiece(cd: Codec, s: Stream, v: seq<byte>): (Stream, Option<Error>)
    requires v != []
  {
    if v[|v| - 1] == NEWLINE then
      Emit(cd, s.(buffer := []), Data(s.buffer + v[..|v| - 1], Text, s.id))
    else (s.(buffer := s.buffer + v), None)
  }

  /** The bytes missing to a full block; none for an empty or a full buffer. */
  function Missing(n: nat, buffer: seq<byte>): (m: nat)
    requires 0 < n && |buffer| <= n
    ensures m == 0 || |buffer| + m == n
  {
    if buffer == [] then 0 else n - |buffer|
  }

  /** Chunk mode: fill the buffer up to a block, cut whole blocks, keep the rest. */
  function WriteBlocks(cd: Codec, s: Stream, p: seq<byte>): (r: (Stream, nat, Option<Error>))
    requires 0 < s.chunkSize && |s.buffer| <= s.chunkSize
    ensures r.0.chunkSize == s.chunkSize && |r.0.buffer| <= s.chunkSize
  {
    if |p| + |s.buffer| >= s.chunkSize then
      var missing := Missing(s.chunkSize, s.buffer);
      var (s1, e) := Commit(cd, s.(buffer := s.buffer + p[..missing]));
      if e.Some? then (s1, missing, e)
      else
        var (s2, at, e2) := CutBlocks(cd, s1, p, missing);
        if e2.Some? then (s2, at, e2)
        else (s2.(buffer := s2.buffer + p[at..]), |p|, None)
    else (s.(buffer := s.buffer + p), |p|, None)
  }

  /** On failure the returned offset lies behind the block that failed. */
  function CutBlocks(cd: Codec, s: Stream, p: seq<byte>, at: nat): (r: (Stream, nat, Option<Error>))
    requires 0 < s.chunkSize && at <= |p|
    ensures r.0 == s.(chan := r.0.chan) && at <= r.1 <= |p|
    ensures r.2.None? ==> |p| - r.1 <= s.chunkSize
    decreases |p| - at
  {
    if at + s.chunkSize < |p| then
      var (s1, e) := Emit(cd, s, Data(p[at..at + s.chunkSize], Base64, s.id));
      if e.Some? then (s1, at + s.chunkSize, e) else CutBlocks(cd, s1, p, at + s.chunkSize)
    else (s, at, None)
  }

  /** Successive writes as a copy loop performs them: stop at the first error. */
  function WriteAll(cd: Codec, s: Stream, ws: seq<seq<byte>>): (Stream, Option<Error>)
    requires Regular(s)
    decreases |ws|
  {
    if ws == [] then (s, None)
    else
      var (s1, _, e) := Write(cd, s, ws[0]);
      if e.Some? then (s1, e) else WriteAll(cd, s1, ws[1..])
  }
}
