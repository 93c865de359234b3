/** `_cbor_decode` as a function from the unread bytes to a value and the bytes left over. */
module CborDecode {
  import opened Bytes
  import opened CborWire

  const MAX_DEPTH := 64

  datatype Error =
    | TooDeep
    | Truncated
    | UnexpectedBreak
    | BadChunk
    | BadMapKey
    | IndefiniteNotAllowed
    | TruncatedArgument
    | ReservedInfo
    | TruncatedString
    | InvalidUtf8
    | UnsupportedSimple

  /** `(value, next_index)`, `(_BREAK, next_index)` or a raised `_CBORError`. */
  datatype Result = Ok(value: Value, rest: bytes) | Stop(rest: bytes) | Err(error: Error)

  /** An argument, the bytes it was read from (none when it sits in the initial byte) and what follows. */
  datatype ArgResult = Arg(val: nat, raw: bytes, rest: bytes) | BadArg(error: Error)

  /** Outcome of one of the decoder's loops: what it collected and what is left. */
  datatype Many<T> = Done(items: seq<T>, rest: bytes) | Failed(error: Error)

  function Prepend<T>(xs: seq<T>, m: Many<T>): Many<T> {
    match m
    case Done(ys, rest) => Done(xs + ys, rest)
    case Failed(e) => Failed(e)
  }

  /** `1 << (ai - 24)` */
  function Width(ai: nat): (w: nat)
    requires 24 <= ai <= 27
    ensures w in {1, 2, 4, 8} && Info(w) == ai
  {
    if ai == 24 then 1 else if ai == 25 then 2 else if ai == 26 then 4 else 8
  }

  function Argument(s: bytes, ai: nat): (r: ArgResult)
    requires ai < 31
    ensures r.Arg? ==> |r.rest| <= |s|
  {
    if 24 <= ai <= 27 && Width(ai) > |s| then BadArg(TruncatedArgument)
    else if ai < 24 then Arg(ai, [], s)
    else if ai <= 27 then Arg(FromBigEndian(s[..Width(ai)]), s[..Width(ai)], s[Width(ai)..])
    else BadArg(ReservedInfo)
  }

  function Decode(s: bytes, depth: int, allowBreak: bool): (r: Result)
    ensures !r.Err? ==> |r.rest| < |s|
    ensures r.Stop? ==> allowBreak
    ensures r.Ok? && s[0] / 32 == 2 ==> r.value.Bytes?
    ensures r.Ok? && s[0] / 32 == 3 ==> r.value.Text?
    ensures r.Ok? ==> s[0] != BREAK
    decreases |s|, 0
  {
    if depth > MAX_DEPTH then Err(TooDeep)
    else if s == [] then Err(Truncated)
    else if s[0] % 32 == 31 then Indefinite(s[1..], depth, s[0] / 32, allowBreak)
    else
      match Argument(s[1..], s[0] % 32)
      case BadArg(e) => Err(e)
      case Arg(val, raw, rest) => Definite(rest, depth, s[0] / 32, s[0] % 32, val, raw)
  }

  function Indefinite(s: bytes, depth: int, major: nat, allowBreak: bool): (r: Result)
    ensures !r.Err? ==> |r.rest| <= |s| && (r.Stop? <==> major == 7)
    ensures r.Stop? ==> allowBreak
    ensures r.Ok? && major == 2 ==> r.value.Bytes?
    ensures r.Ok? && major == 3 ==> r.value.Text?
    decreases |s|, 2
  {
    if major == 7 then
      if allowBreak then Stop(s) else Err(UnexpectedBreak)
    else if major in {2, 3} then
      match Chunks(s, depth, major)
      case Failed(e) => Err(e)
      case Done(content, rest) => Ok(StringValue(major, content), rest)
    else if major == 4 then
      match ItemsToBreak(s, depth)
      case Failed(e) => Err(e)
      case Done(items, rest) => Ok(Array(items), rest)
    else if major == 5 then
      match PairsToBreak(s, depth)
      case Failed(e) => Err(e)
      case Done(updates, rest) => Ok(Map(updates), rest)
    else Err(IndefiniteNotAllowed)
  }

  function Definite(s: bytes, depth: int, major: nat, ai: nat, val: nat, raw: bytes): (r: Result)
    ensures !r.Err? ==> r.Ok? && |r.rest| <= |s|
    ensures r.Ok? && major == 2 ==> r.value.Bytes?
    ensures r.Ok? && major == 3 ==> r.value.Text?
    decreases |s|, 2
  {
    match major
    case 0 => Ok(Int(val), s)
    case 1 => Ok(Int(-1 - val), s)
    case 2 => if val > |s| then Err(TruncatedString) else Ok(Bytes(s[..val]), s[val..])
    case 3 =>
      if val > |s| then Err(TruncatedString)
      else if !ValidUtf8(s[..val]) then Err(InvalidUtf8)
      else Ok(Text(s[..val]), s[val..])
    case 4 => (
      match Items(s, depth, val)
      case Failed(e) => Err(e)
      case Done(items, rest) => Ok(Array(items), rest)
    )
    case 5 => (
      match PairItems(s, depth, val)
      case Failed(e) => Err(e)
      case Done(updates, rest) => Ok(Map(updates), rest)
    )
    case 6 => Decode(s, depth + 1, false)
    case _ =>
      if ai == 20 then Ok(Bool(false), s)
      else if ai == 21 then Ok(Bool(true), s)
      else if ai == 22 || ai == 23 then Ok(Null, s)
      else if ai in {25, 26, 27} then Ok(Float(raw), s)
      else Err(UnsupportedSimple)
  }

  /** The guard before each chunk: the next byte, unless it is the break code, must start a
      definite-length string of the same type. */
  predicate ChunkStart(s: bytes, major: nat) {
    s != [] && s[0] != BREAK ==> s[0] / 32 == major && s[0] % 32 != 31
  }

  function ContentOf(v: Value): bytes
    requires v.Bytes? || v.Text?
  {
    if v.Bytes? then v.b else v.utf8
  }

  function Chunks(s: bytes, depth: int, major: nat): (r: Many<byte>)
    requires major in {2, 3}
    ensures r.Done? ==> |r.rest| < |s|
    decreases |s|, 1
  {
    if !ChunkStart(s, major) then Failed(BadChunk)
    else
      match Decode(s, depth + 1, true)
      case Err(e) => Failed(e)
      case Stop(rest) => Done([], rest)
      case Ok(v, rest) => Prepend(ContentOf(v), Chunks(rest, depth, major))
  }

  function ItemsToBreak(s: bytes, depth: int): (r: Many<Value>)
    ensures r.Done? ==> |r.rest| < |s|
    decreases |s|, 1
  {
    match Decode(s, depth + 1, true)
    case Err(e) => Failed(e)
    case Stop(rest) => Done([], rest)
    case Ok(v, rest) => Prepend([v], ItemsToBreak(rest, depth))
  }

  function PairsToBreak(s: bytes, depth: int): (r: Many<(Value, Value)>)
    ensures r.Done? ==> |r.rest| < |s|
    decreases |s|, 1
  {
    match Decode(s, depth + 1, true)
    case Err(e) => Failed(e)
    case Stop(rest) => Done([], rest)
    case Ok(k, mid) =>
      match Decode(mid, depth + 1, false)
      case Err(e) => Failed(e)
      case Ok(v, rest) =>
        if Hashable(k) then Prepend([(k, v)], PairsToBreak(rest, depth)) else Failed(BadMapKey)
  }

  function Items(s: bytes, depth: int, n: nat): (r: Many<Value>)
    ensures r.Done? ==> |r.rest| <= |s|
    decreases |s|, 1
  {
    if n == 0 then Done([], s)
    else
      match Decode(s, depth + 1, false)
      case Err(e) => Failed(e)
      case Ok(v, rest) => Prepend([v], Items(rest, depth, n - 1))
  }

  function PairItems(s: bytes, depth: int, n: nat): (r: Many<(Value, Value)>)
    ensures r.Done? ==> |r.rest| <= |s|
    decreases |s|, 1
  {
    if n == 0 then Done([], s)
    else
      match Decode(s, depth + 1, false)
      case Err(e) => Failed(e)
      case Ok(k, mid) =>
        match Decode(mid, depth + 1, false)
        case Err(e) => Failed(e)
        case Ok(v, rest) =>
          if Hashable(k) then Prepend([(k, v)], PairItems(rest, depth, n - 1)) else Failed(BadMapKey)
  }
}
