/** A limited writer with a JSON encoder on top of it, as one value. */
module Channels {
  import opened Wire

  // ----- the limiter -----

  function Allowance(limit: int): int {
    if limit > 0 then limit else MAX_INT64
  }

  predicate Admits(allowance: int, length: nat) {
    !(allowance <= 0 || length > allowance)
  }

  /** One write of `length` bytes of which the sink behind the limiter reports `reported`. */
  datatype Attempt = Attempt(length: nat, reported: nat)

  function Delivered(allowance: int, a: Attempt): nat {
    if Admits(allowance, a.length) then a.reported else 0
  }

  function AllowanceAfter(allowance: int, attempts: seq<Attempt>): int {
    if attempts == [] then allowance
    else AllowanceAfter(allowance - Delivered(allowance, attempts[0]), attempts[1..])
  }

  function TotalDelivered(allowance: int, attempts: seq<Attempt>): nat {
    if attempts == [] then 0
    else
      var d := Delivered(allowance, attempts[0]);
      d + TotalDelivered(allowance - d, attempts[1..])
  }

  /** Between limit changes nothing is lost and the limit is never overrun, whatever the sink reports. */
  lemma {:induction false} LimiterConserves(allowance: int, attempts: seq<Attempt>)
    requires allowance >= 0
    requires forall a :: a in attempts ==> a.reported <= a.length
    ensures AllowanceAfter(allowance, attempts) + TotalDelivered(allowance, attempts) == allowance
    ensures 0 <= AllowanceAfter(allowance, attempts)
    ensures TotalDelivered(allowance, attempts) <= allowance
  {
    if attempts == [] {
    } else {
      assert attempts[0] in attempts;
      LimiterConserves(allowance - Delivered(allowance, attempts[0]), attempts[1..]);
    }
  }

  // ----- limiter, encoder and sink together -----

  /** `failed` is the error the encoder keeps until it is recreated. */
  datatype Channel = Channel(allowance: int, failed: Option<Error>, out: seq<Item>)

  function Open(limit: int, out: seq<Item>): Channel {
    Channel(Allowance(limit), None, out)
  }

  function Relimit(c: Channel, limit: int): Channel {
    Open(limit, c.out)
  }

  function Encode(cd: Codec, c: Channel, f: Frame): (Channel, Option<Error>) {
    if c.failed.Some? then (c, c.failed)
    else if !Admits(c.allowance, cd.size(f)) then (c.(failed := Some(LIMIT_EXCEED)), Some(LIMIT_EXCEED))
    else (c.(allowance := c.allowance - cd.size(f), out := c.out + [Object(f)]), None)
  }

  function PutBytes(c: Channel, p: seq<byte>): (Channel, nat, Option<Error>) {
    if !Admits(c.allowance, |p|) then (c, 0, Some(LIMIT_EXCEED))
    else (c.(allowance := c.allowance - |p|, out := c.out + Bytes(p)), |p|, None)
  }

  /** Encodes frames in order and stops at the first failure. */
  function SendAll(cd: Codec, c: Channel, fs: seq<Frame>): (Channel, Option<Error>)
    decreases |fs|
  {
    if fs == [] then (c, None)
    else
      var (c', e) := Encode(cd, c, fs[0]);
      if e.Some? then (c', e) else SendAll(cd, c', fs[1..])
  }

  function Sizes(cd: Codec, fs: seq<Frame>): nat {
    if fs == [] then 0 else cd.size(fs[0]) + Sizes(cd, fs[1..])
  }

  lemma {:induction false} SizesAppend(cd: Codec, fs: seq<Frame>, gs: seq<Frame>)
    ensures Sizes(cd, fs + gs) == Sizes(cd, fs) + Sizes(cd, gs)
    decreases |fs|
  {
    if fs == [] {
      assert fs + gs == gs;
    } else {
      assert (fs + gs)[1..] == fs[1..] + gs;
      SizesAppend(cd, fs[1..], gs);
    }
  }

  /** How many leading frames fit. */
  function FittingPrefix(cd: Codec, allowance: int, fs: seq<Frame>): (k: nat)
    ensures k <= |fs|
  {
    if fs == [] || !Admits(allowance, cd.size(fs[0])) then 0
    else 1 + FittingPrefix(cd, allowance - cd.size(fs[0]), fs[1..])
  }

  lemma TakeMore<T>(s: seq<T>, k: nat)
    requires k < |s|
    ensures s[..k + 1] == [s[0]] + s[1..][..k]
  {
  }

  lemma SizesTakeMore(cd: Codec, fs: seq<Frame>, k: nat)
    requires k < |fs|
    ensures Sizes(cd, fs[..k + 1]) == cd.size(fs[0]) + Sizes(cd, fs[1..][..k])
  {
    TakeMore(fs, k);
    assert ([fs[0]] + fs[1..][..k])[1..] == fs[1..][..k];
  }

  lemma {:induction false} FittingPrefixMeaning(cd: Codec, allowance: int, fs: seq<Frame>)
    requires Sane(cd) && allowance >= 0
    ensures var k := FittingPrefix(cd, allowance, fs);
            && Sizes(cd, fs[..k]) <= allowance
            && (k < |fs| ==> Sizes(cd, fs[..k + 1]) > allowance)
            && (k == |fs| <==> Sizes(cd, fs) <= allowance)
    decreases |fs|
  {
    if fs == [] {
    } else {
      var rest := allowance - cd.size(fs[0]);
      if Admits(allowance, cd.size(fs[0])) {
        var k := FittingPrefix(cd, rest, fs[1..]);
        FittingPrefixMeaning(cd, rest, fs[1..]);
        SizesTakeMore(cd, fs, k);
        if k + 1 < |fs| {
          SizesTakeMore(cd, fs, k + 1);
        }
      } else {
        SizesTakeMore(cd, fs, 0);
      }
    }
  }

  lemma ObjectsCons(f: Frame, fs: seq<Frame>)
    ensures Objects([f] + fs) == [Object(f)] + Objects(fs)
  {
  }

  lemma {:induction false} SendAllSends(cd: Codec, c: Channel, fs: seq<Frame>)
    requires c.failed.None?
    ensures var (c', e) := SendAll(cd, c, fs);
            var k := FittingPrefix(cd, c.allowance, fs);
            && c'.out == c.out + Objects(fs[..k])
            && c'.allowance == c.allowance - Sizes(cd, fs[..k])
            && (e.None? <==> k == |fs|)
            && e == c'.failed && (e.Some? ==> e.value == LIMIT_EXCEED)
    decreases |fs|
  {
    if fs != [] && Admits(c.allowance, cd.size(fs[0])) {
      var c1 := Encode(cd, c, fs[0]).0;
      var k := FittingPrefix(cd, c1.allowance, fs[1..]);
      SendAllSends(cd, c1, fs[1..]);
      SizesTakeMore(cd, fs, k);
      TakeMore(fs, k);
      ObjectsCons(fs[0], fs[1..][..k]);
      Assoc(c.out, [Object(fs[0])], Objects(fs[1..][..k]));
    } else {
      assert Objects(fs[..0]) == [];
    }
  }

  /** A channel that has not failed emits exactly the longest prefix whose total size fits, and
      reports the limit error exactly when the whole does not fit. */
  lemma SendAllMeaning(cd: Codec, c: Channel, fs: seq<Frame>)
    requires Sane(cd) && c.failed.None? && c.allowance >= 0
    ensures var (c', e) := SendAll(cd, c, fs);
            var k := FittingPrefix(cd, c.allowance, fs);
            && c'.out == c.out + Objects(fs[..k])
            && c'.allowance == c.allowance - Sizes(cd, fs[..k]) >= 0
            && (k < |fs| ==> Sizes(cd, fs[..k + 1]) > c.allowance)
            && (e.None? <==> Sizes(cd, fs) <= c.allowance)
            && (e.None? <==> k == |fs|)
            && e == c'.failed && (e.Some? ==> e.value == LIMIT_EXCEED)
  {
    FittingPrefixMeaning(cd, c.allowance, fs);
    SendAllSends(cd, c, fs);
  }

  lemma {:induction false} SendAllAppend(cd: Codec, c: Channel, fs: seq<Frame>, gs: seq<Frame>)
    ensures var (c', e) := SendAll(cd, c, fs);
            SendAll(cd, c, fs + gs) == if e.Some? then (c', e) else SendAll(cd, c', gs)
    decreases |fs|
  {
    if fs == [] {
      assert fs + gs == gs;
    } else {
      assert (fs + gs)[1..] == fs[1..] + gs;
      SendAllAppend(cd, Encode(cd, c, fs[0]).0, fs[1..], gs);
    }
  }

  lemma SendCons(cd: Codec, c: Channel, f: Frame, fs: seq<Frame>)
    ensures var (c', e) := Encode(cd, c, f);
            SendAll(cd, c, [f] + fs) == if e.Some? then (c', e) else SendAll(cd, c', fs)
  {
    assert ([f] + fs)[1..] == fs;
  }

  lemma SendOne(cd: Codec, c: Channel, f: Frame)
    ensures SendAll(cd, c, [f]) == Encode(cd, c, f)
  {
    assert [f][1..] == [];
  }
}
