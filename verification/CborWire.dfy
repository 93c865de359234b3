/** The wire grammar of CBOR (section 3 of RFC 8949), independent of any decoder: concrete syntax trees
    that record every choice an encoder has, the bytes each tree stands for, and its meaning. */
module CborWire {
  import opened Maximum
  import opened Bytes
  import opened Options

  /** Decoded values. A Python dict is represented by the assignments that built it, in order
      (`DictGet` reads it: the last write wins); a float by its big-endian IEEE 754 bytes. */
  datatype Value =
    | Int(n: int)
    | Bytes(b: bytes)
    | Text(utf8: bytes)
    | Array(items: seq<Value>)
    | Map(updates: seq<(Value, Value)>)
    | Bool(truth: bool)
    | Null
    | Float(ieee: bytes)

  /** Python lists and dicts are unhashable; everything else can be a dict key. */
  predicate Hashable(v: Value) {
    !v.Array? && !v.Map?
  }

  function Pow2(n: nat): (p: nat)
    ensures p > 0
  {
    if n == 0 then 1 else 2 * Pow2(n - 1)
  }

  /** `x * 2^e` */
  function Scaled(x: nat, e: int): real
    decreases if e < 0 then -e else e
  {
    if e > 0 then 2.0 * Scaled(x, e - 1) else if e < 0 then Scaled(x, e + 1) / 2.0 else x as real
  }

  /** The number with these fields, of `w` and `m` bits; none for infinities and for what is not a number. */
  function FloatOf(sign: nat, exponent: nat, mantissa: nat, w: nat, m: nat): Option<real>
    requires w > 0
  {
    var bias := Pow2(w - 1) - 1;
    if exponent == Pow2(w) - 1 then None
    else
      var x := if exponent == 0 then Scaled(mantissa, 1 - bias - m)
               else Scaled(Pow2(m) + mantissa, exponent - bias - m);
      Some(if sign == 0 then x else -x)
  }

  function Cut(n: nat, d: nat): (nat, nat)
    requires d > 0
  {
    (n / d, n % d)
  }

  /** The number that IEEE 754 bytes stand for, with `w` exponent bits and `m` mantissa bits. */
  function FloatBits(bits: nat, w: nat, m: nat): Option<real>
    requires w > 0
  {
    var (high, mantissa) := Cut(bits, Pow2(m));
    var (sign, exponent) := Cut(high, Pow2(w));
    FloatOf(sign, exponent, mantissa, w, m)
  }

  function FloatValue(ieee: bytes): Option<real> {
    var bits := FromBigEndian(ieee);
    if |ieee| == 2 then FloatBits(bits, 5, 10)
    else if |ieee| == 4 then FloatBits(bits, 8, 23)
    else if |ieee| == 8 then FloatBits(bits, 11, 52)
    else None
  }

  /** Python compares numbers of all types by value, and True is 1. */
  function Number(v: Value): Option<real> {
    match v
    case Int(n) => Some(n as real)
    case Bool(b) => Some(if b then 1.0 else 0.0)
    case Float(ieee) => FloatValue(ieee)
    case _ => None
  }

  /** A stored key answers a look-up of `key`. */
  predicate Answers(stored: Value, key: Value)
    requires key.Int? || key.Text? || key.Bytes?
  {
    if key.Int? then Number(stored) == Number(key) else stored == key
  }

  /** `doc.get(key)` for the keys that are looked up: integers, text, byte strings. */
  function DictGet(updates: seq<(Value, Value)>, key: Value): (v: Value)
    requires key.Int? || key.Text? || key.Bytes?
  {
    if updates == [] then Null
    else
      var last := updates[|updates| - 1];
      if Answers(last.0, key) then last.1 else DictGet(updates[..|updates| - 1], key)
  }

  /** An argument: in the initial byte (width 0) or in the 1, 2, 4 or 8 bytes that follow it.
      Only the width-0 form is bounded by 24; longer heads than necessary are legal. */
  datatype Head = Head(width: nat, arg: nat)

  datatype Chunk = Chunk(h: Head, content: bytes)

  datatype Wire =
    | WUInt(h: Head)
    | WNInt(h: Head)
    | WStr(major: int, h: Head, content: bytes)
    | WStrIndef(major: int, chunks: seq<Chunk>)
    | WArr(h: Head, items: Wires)
    | WArrIndef(items: Wires)
    | WMap(h: Head, pairs: Pairs)
    | WMapIndef(pairs: Pairs)
    | WTag(h: Head, item: Wire)
    | WSimple(info: nat)
    | WFloat(ieee: bytes)

  datatype Wires = WNil | WCons(first: Wire, rest: Wires)

  datatype Pairs = PNil | PCons(key: Wire, value: Wire, rest: Pairs)

  const BREAK: byte := 0xFF

  // ---------------------------------------------------------------- the bytes

  /** Additional information that announces `width` argument bytes. */
  function Info(width: nat): nat
    requires width in {1, 2, 4, 8}
  {
    if width == 1 then 24 else if width == 2 then 25 else if width == 4 then 26 else 27
  }

  predicate LegalHead(h: Head) {
    (h.width == 0 && h.arg < 24) || (h.width in {1, 2, 4, 8} && h.arg < Pow256(h.width))
  }

  function HeadBytes(major: int, h: Head): (s: bytes)
    requires 0 <= major < 8 && LegalHead(h)
    ensures |s| == 1 + h.width
  {
    if h.width == 0 then [major * 32 + h.arg]
    else [major * 32 + Info(h.width)] + BigEndian(h.arg, h.width)
  }

  /** Legal items: argument in range, counts and lengths as announced, text well formed chunk by chunk,
      only the simple values false, true, null and undefined, and only hashable map keys. */
  predicate Legal(w: Wire) {
    match w
    case WUInt(h) => LegalHead(h)
    case WNInt(h) => LegalHead(h)
    case WStr(major, h, content) => LegalString(major, h, content)
    case WStrIndef(major, chunks) =>
      LegalChunks(major, chunks)
    case WArr(h, items) => LegalHead(h) && h.arg == Count(items) && LegalAll(items)
    case WArrIndef(items) => LegalAll(items)
    case WMap(h, pairs) => LegalHead(h) && h.arg == CountPairs(pairs) && LegalPairs(pairs)
    case WMapIndef(pairs) => LegalPairs(pairs)
    case WTag(h, item) => LegalHead(h) && Legal(item)
    case WSimple(info) => 20 <= info <= 23
    case WFloat(ieee) => |ieee| in {2, 4, 8}
  }

  predicate LegalString(major: int, h: Head, content: bytes) {
    major in {2, 3} && LegalHead(h) && h.arg == |content| && (major == 3 ==> ValidUtf8(content))
  }

  predicate LegalChunks(major: int, chunks: seq<Chunk>) {
    if chunks == [] then major in {2, 3}
    else LegalString(major, chunks[0].h, chunks[0].content) && LegalChunks(major, chunks[1..])
  }

  predicate LegalAll(ws: Wires) {
    match ws
    case WNil => true
    case WCons(w, rest) => Legal(w) && LegalAll(rest)
  }

  predicate LegalPairs(ps: Pairs) {
    match ps
    case PNil => true
    case PCons(k, v, rest) => Legal(k) && Hashable(Meaning(k)) && Legal(v) && LegalPairs(rest)
  }

  function Count(ws: Wires): nat {
    match ws case WNil => 0 case WCons(_, rest) => 1 + Count(rest)
  }

  function CountPairs(ps: Pairs): nat {
    match ps case PNil => 0 case PCons(_, _, rest) => 1 + CountPairs(rest)
  }

  function Enc(w: Wire): (s: bytes)
    requires Legal(w)
    ensures |s| > 0
  {
    match w
    case WUInt(h) => HeadBytes(0, h)
    case WNInt(h) => HeadBytes(1, h)
    case WStr(major, h, content) => HeadBytes(major, h) + content
    case WStrIndef(major, chunks) => [major * 32 + 31] + EncChunks(major, chunks)
    case WArr(h, items) => HeadBytes(4, h) + EncAll(items)
    case WArrIndef(items) => [4 * 32 + 31] + (EncAll(items) + [BREAK])
    case WMap(h, pairs) => HeadBytes(5, h) + EncPairs(pairs)
    case WMapIndef(pairs) => [5 * 32 + 31] + (EncPairs(pairs) + [BREAK])
    case WTag(h, item) => HeadBytes(6, h) + Enc(item)
    case WSimple(info) => [7 * 32 + info]
    case WFloat(ieee) => [7 * 32 + Info(|ieee|)] + ieee
  }

  function EncAll(ws: Wires): bytes
    requires LegalAll(ws)
  {
    match ws
    case WNil => []
    case WCons(w, rest) => Enc(w) + EncAll(rest)
  }

  function EncPairs(ps: Pairs): bytes
    requires LegalPairs(ps)
  {
    match ps
    case PNil => []
    case PCons(k, v, rest) => Enc(k) + (Enc(v) + EncPairs(rest))
  }

  /** The chunks of an indefinite-length string and the break code that ends them. */
  function EncChunks(major: int, chunks: seq<Chunk>): bytes
    requires LegalChunks(major, chunks)
  {
    if chunks == [] then [BREAK]
    else HeadBytes(major, chunks[0].h) + (chunks[0].content + EncChunks(major, chunks[1..]))
  }

  // -------------------------------------------------------------- the meaning

  function StringValue(major: int, content: bytes): Value {
    if major == 2 then Bytes(content) else Text(content)
  }

  function Meaning(w: Wire): Value {
    match w
    case WUInt(h) => Int(h.arg)
    case WNInt(h) => Int(-1 - h.arg)
    case WStr(major, _, content) => StringValue(major, content)
    case WStrIndef(major, chunks) => StringValue(major, Joined(chunks))
    case WArr(_, items) => Array(Meanings(items))
    case WArrIndef(items) => Array(Meanings(items))
    case WMap(_, pairs) => Map(PairMeanings(pairs))
    case WMapIndef(pairs) => Map(PairMeanings(pairs))
    case WTag(_, item) => Meaning(item)
    case WSimple(info) => if info == 20 then Bool(false) else if info == 21 then Bool(true) else Null
    case WFloat(ieee) => Float(ieee)
  }

  function Meanings(ws: Wires): seq<Value> {
    match ws
    case WNil => []
    case WCons(w, rest) => [Meaning(w)] + Meanings(rest)
  }

  function PairMeanings(ps: Pairs): seq<(Value, Value)> {
    match ps
    case PNil => []
    case PCons(k, v, rest) => [(Meaning(k), Meaning(v))] + PairMeanings(rest)
  }

  function Joined(chunks: seq<Chunk>): bytes {
    if chunks == [] then [] else chunks[0].content + Joined(chunks[1..])
  }

  // ---------------------------------------------------------------- nesting

  /** Nesting depth of the deepest item below `w`; the chunks of a string are not items of their own. */
  function Height(w: Wire): nat {
    match w
    case WArr(_, items) => Heights(items)
    case WArrIndef(items) => Heights(items)
    case WMap(_, pairs) => PairHeights(pairs)
    case WMapIndef(pairs) => PairHeights(pairs)
    case WTag(_, item) => 1 + Height(item)
    case _ => 0
  }

  function Heights(ws: Wires): nat {
    match ws
    case WNil => 0
    case WCons(w, rest) => Max(1 + Height(w), Heights(rest))
  }

  function PairHeights(ps: Pairs): nat {
    match ps
    case PNil => 0
    case PCons(k, v, rest) => Max(1 + Height(k), Max(1 + Height(v), PairHeights(rest)))
  }

  /** Some item of indefinite length sits exactly `d` levels below the top of `w`. */
  predicate IndefiniteAt(w: Wire, d: nat) {
    match w
    case WStrIndef(_, _) => d == 0
    case WArr(_, items) => d > 0 && IndefiniteIn(items, d - 1)
    case WArrIndef(items) => d == 0 || IndefiniteIn(items, d - 1)
    case WMap(_, pairs) => d > 0 && IndefiniteInPairs(pairs, d - 1)
    case WMapIndef(pairs) => d == 0 || IndefiniteInPairs(pairs, d - 1)
    case WTag(_, item) => d > 0 && IndefiniteAt(item, d - 1)
    case _ => false
  }

  predicate IndefiniteIn(ws: Wires, d: nat) {
    match ws
    case WNil => false
    case WCons(w, rest) => IndefiniteAt(w, d) || IndefiniteIn(rest, d)
  }

  predicate IndefiniteInPairs(ps: Pairs, d: nat) {
    match ps
    case PNil => false
    case PCons(k, v, rest) => IndefiniteAt(k, d) || IndefiniteAt(v, d) || IndefiniteInPairs(rest, d)
  }
}
