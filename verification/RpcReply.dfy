/** The plain JSON-RPC responder: buffers output and emits one object. */
module RpcReply {
  import opened Wire
  import opened Channels

  /** `chan.out` is the buffer, `raw` the transport. */
  datatype Reply = Reply(chan: Channel, raw: seq<Item>, id: IdRef, dataSent: bool, resultSet: bool)

  function NewReply(raw: seq<Item>): Reply {
    Reply(Open(-1, []), raw, Some(Null), false, false)
  }

  function Write(s: Reply, p: seq<byte>): (Reply, nat, Option<Error>) {
    if s.resultSet then (s, 0, Some(RESULT_ALREADY_SET))
    else
      var (c, n, e) := PutBytes(s.chan, p);
      (s.(chan := c), n, e)
  }

  /** Errors bypass the limiter and replace whatever was buffered. */
  function SetError(s: Reply, err: Error): (Reply, Option<Error>) {
    if s.dataSent then (s, Some(RESULT_ALREADY_SET))
    else if s.id.None? then (s, None)
    else (s.(resultSet := true, chan := s.chan.(out := [Object(Failure(V20, ErrorObject(err), s.id))])), None)
  }

  function SetResult(cd: Codec, s: Reply, v: Value): (Reply, Option<Error>) {
    if s.resultSet then (s, Some(RESULT_ALREADY_SET))
    else if s.id.None? then (s, None)
    else
      var (c, e) := Encode(cd, s.chan, Result(V20, v, s.id));
      (s.(resultSet := true, chan := c), e)
  }

  function Close(cd: Codec, s: Reply): (Reply, Option<Error>) {
    if s.dataSent then (s, None)
    else
      var (s1, e) :=
        if s.resultSet then (s, None)
        else SetResult(cd, s.(chan := Open(0, [])), Content(RawBytes(s.chan.out)));
      var s2 := s1.(dataSent := true);
      if e.Some? then (s2, e)
      else (s2.(raw := s2.raw + s2.chan.out, chan := s2.chan.(out := [])), None)
  }
}

/** The pass-through responder. */
module LegacyReply {
  import opened Wire
  import opened Channels
  import opened Numerals

  function IntText(n: int): string {
    if n < 0 then "-" + DigitText(Format(-n, Decimal)) else DigitText(Format(n, Decimal))
  }

  /** Texts and signed integers are printed, every other value is dropped. */
  function Printed(cd: Codec, v: Value): Option<seq<byte>> {
    match v
    case Word(text) => Some(cd.utf8(text))
    case Number(n) => Some(cd.utf8(IntText(n)))
    case Content(bytes) => Some(bytes)
    case Other(_) => None
  }

  function SetResult(cd: Codec, c: Channel, v: Value): (Channel, Option<Error>) {
    match Printed(cd, v)
    case None => (c, None)
    case Some(p) => var (c1, _, e) := PutBytes(c, p); (c1, e)
  }

  // ----- what a printed result looks like -----

  /** The text spells the number: a minus sign exactly for a negative one, then a numeral of its size. */
  predicate Spells(s: string, n: int) {
    if n < 0 then s != "" && s[0] == '-' && IsNumeral(s[1..]) && ReadNumeral(s[1..]) == -n
    else IsNumeral(s) && ReadNumeral(s) == n
  }

  lemma IntTextSpells(n: int)
    ensures Spells(IntText(n), n)
  {
    var size: nat := if n < 0 then -n else n;
    NumberTextReads(size);
    assert n < 0 ==> IntText(n)[1..] == DigitText(Format(size, Decimal));
  }

  /** A result adds its text if that fits: a text itself, a number its decimal spelling. Other values add nothing. */
  lemma PrintsResults(cd: Codec, c: Channel, v: Value) returns (p: Option<seq<byte>>)
    ensures match v
            case Word(t) => p == Some(cd.utf8(t))
            case Number(n) => exists s :: Spells(s, n) && p == Some(cd.utf8(s))
            case Content(bytes) => p == Some(bytes)
            case Other(_) => p.None?
    ensures var (c1, e) := SetResult(cd, c, v);
            match p
            case None => c1 == c && e.None?
            case Some(b) =>
              if c.allowance > 0 && |b| <= c.allowance then
                c1.out == c.out + Bytes(b) && c1.allowance == c.allowance - |b| && e.None?
              else c1 == c && e == Some(LIMIT_EXCEED)
  {
    p := Printed(cd, v);
    if v.Number? {
      IntTextSpells(v.number);
      assert Spells(IntText(v.number), v.number);
    }
  }

  function WriteAll(c: Channel, ws: seq<seq<byte>>): (Channel, Option<Error>)
    decreases |ws|
  {
    if ws == [] then (c, None)
    else
      var (c1, _, e) := PutBytes(c, ws[0]);
      if e.Some? then (c1, e) else WriteAll(c1, ws[1..])
  }

  /** The leading writes that fit, each of them whole. */
  function FittingWrites(allowance: int, ws: seq<seq<byte>>): (k: nat)
    ensures k <= |ws|
  {
    if ws == [] || !Admits(allowance, |ws[0]|) then 0
    else 1 + FittingWrites(allowance - |ws[0]|, ws[1..])
  }

  lemma BytesConcat(p: seq<byte>, q: seq<byte>)
    ensures Bytes(p + q) == Bytes(p) + Bytes(q)
  {
  }

  /** Bytes pass unchanged up to the first write that would overrun the limit. */
  lemma {:induction false} PassesThrough(c: Channel, ws: seq<seq<byte>>)
    requires c.allowance >= 0
    ensures var (c1, e) := WriteAll(c, ws);
            var k := FittingWrites(c.allowance, ws);
            && c1.out == c.out + Bytes(Concat(ws[..k]))
            && c1 == c.(allowance := c.allowance - |Concat(ws[..k])|, out := c1.out) && c1.allowance >= 0
            && (e.None? <==> k == |ws|)
            && (e.Some? ==> e.value == LIMIT_EXCEED)
    ensures (forall w :: w in ws ==> w != []) ==>
              (WriteAll(c, ws).1.None? <==> |Concat(ws)| <= c.allowance)
    decreases |ws|
  {
    var k := FittingWrites(c.allowance, ws);
    if ws != [] && Admits(c.allowance, |ws[0]|) {
      var c1 := PutBytes(c, ws[0]).0;
      PassesThrough(c1, ws[1..]);
      assert ws[0] in ws && (forall w :: w in ws[1..] ==> w in ws);
      TakeMore(ws, k - 1);
      assert ws[..k][1..] == ws[1..][..k - 1];
      BytesConcat(ws[0], Concat(ws[1..][..k - 1]));
      Assoc(c.out, Bytes(ws[0]), Bytes(Concat(ws[1..][..k - 1])));
    } else {
      assert ws[..k] == [] && Bytes([]) == [];
      assert ws != [] ==> ws[0] in ws;
    }
  }
}
