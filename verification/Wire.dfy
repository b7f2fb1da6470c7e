/** What travels between a request, its responder and the transport. */
module Wire {

  datatype Option<+T> = None | Some(value: T)

  newtype byte = x: int | 0 <= x < 256

  const NEWLINE: byte := 10
  const MAX_INT64: int := 0x7FFF_FFFF_FFFF_FFFF

  datatype Version = V20 | V20Stream | OtherVersion

  datatype MethodType = RpcMethod | LegacyMethod | StreamMethod

  datatype IdValue = Null | Given(tag: int)

  /** The id pointer of a request; `None` is the nil pointer of a notification. */
  type IdRef = Option<IdValue>

  /** `Foreign` is any error that is not a JSON-RPC error object. */
  datatype Error =
    | RpcError(code: int, data: Option<string>)
    | Foreign(message: string)

  const INVALID_REQUEST := RpcError(-32600, None)
  const METHOD_NOT_FOUND := RpcError(-32601, None)
  const TIMEOUT := RpcError(-32099, None)
  const LIMIT_EXCEED := RpcError(-32098, None)
  const RESULT_ALREADY_SET := Foreign("Result already set")
  const END_OF_FILE := Foreign("EOF")
  const SHORT_WRITE := Foreign("short write")

  const INTERNAL_ERROR_CODE := -32603

  /** The error object put on the wire: a foreign error becomes an internal error. */
  function ErrorObject(e: Error): (r: Error)
    ensures r.RpcError? && (e.RpcError? ==> r == e)
    ensures e.Foreign? ==> r.code == INTERNAL_ERROR_CODE && r.data == Some(e.message)
  {
    match e
    case RpcError(_, _) => e
    case Foreign(message) => RpcError(INTERNAL_ERROR_CODE, Some(message))
  }

  /** A text, a signed integer, a text given by its bytes (such as the output the RPC responder has collected),
      or any further JSON value. */
  datatype Value =
    | Word(text: string)
    | Number(number: int)
    | Content(bytes: seq<byte>)
    | Other(tag: int)

  const HEADER := Word("OK")
  const DONE := Word("Done")

  datatype Form = Text | Base64

  /** One JSON object on the wire. */
  datatype Frame =
    | Result(version: Version, value: Value, id: IdRef)
    | Failure(version: Version, error: Error, id: IdRef)
    | Data(bytes: seq<byte>, form: Form, id: IdRef)

  /** One unit of output: a raw byte or a whole encoded object. */
  datatype Item = Byte(b: byte) | Object(frame: Frame)

  function Bytes(p: seq<byte>): seq<Item> {
    seq(|p|, i requires 0 <= i < |p| => Byte(p[i]))
  }

  function Objects(fs: seq<Frame>): seq<Item> {
    seq(|fs|, i requires 0 <= i < |fs| => Object(fs[i]))
  }

  /** The encoding left abstract: the length of an encoded object, and the bytes of a text. */
  datatype Codec = Codec(size: Frame -> nat, utf8: string -> seq<byte>)

  /** Every encoded object ends in a newline and fits a Go slice. */
  ghost predicate Sane(cd: Codec) {
    forall f: Frame :: 1 <= cd.size(f) <= MAX_INT64
  }

  lemma Assoc<T>(x: seq<T>, y: seq<T>, z: seq<T>)
    ensures x + (y + z) == x + y + z
  {
  }

  lemma TakeAppend<T>(x: seq<T>, y: seq<T>, k: nat)
    requires |x| <= k <= |x| + |y|
    ensures (x + y)[..k] == x + y[..k - |x|]
  {
  }

  function Length(cd: Codec, items: seq<Item>): nat {
    if items == [] then 0
    else (match items[0] case Byte(_) => 1 case Object(f) => cd.size(f)) + Length(cd, items[1..])
  }

  /** The raw bytes among the items. */
  function RawBytes(items: seq<Item>): seq<byte> {
    if items == [] then []
    else (match items[0] case Byte(b) => [b] case Object(_) => []) + RawBytes(items[1..])
  }

  lemma {:induction false} RawBytesAppend(items: seq<Item>, p: seq<byte>)
    ensures RawBytes(items + Bytes(p)) == RawBytes(items) + p
    decreases |items| + |p|
  {
    if items != [] {
      assert (items + Bytes(p))[1..] == items[1..] + Bytes(p);
      RawBytesAppend(items[1..], p);
    } else if p != [] {
      assert items + Bytes(p) == Bytes(p) && Bytes(p)[1..] == [] + Bytes(p[1..]);
      RawBytesAppend([], p[1..]);
    } else {
      assert items + Bytes(p) == [];
    }
  }

  function Concat<T>(ps: seq<seq<T>>): seq<T> {
    if ps == [] then [] else ps[0] + Concat(ps[1..])
  }
}
