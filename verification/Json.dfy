/** JSON values and their canonical text: `json.dumps(value, sort_keys=True, separators=(",", ":"))`. */
module Json {
  import opened Options

  /** Strings are sequences of UTF-16 code units: that is what the escaped text can tell apart. */
  type Unit = x: int | 0 <= x < 0x10000

  type Str = seq<Unit>

  /** Object members are listed in key order, which is how `sort_keys` writes a dict. A float is known by its
      `repr`, from which the double can be recovered. */
  datatype Value =
    | Null
    | Bool(truth: bool)
    | Int(n: int)
    | Float(repr: string)
    | String(s: Str)
    | Array(items: seq<Value>)
    | Object(members: seq<(Str, Value)>)

  predicate NumberChar(c: char) {
    '0' <= c <= '9' || c == '-' || c == '+' || c == '.' || c == 'e'
  }

  /** Finite doubles print with a point or an exponent. */
  predicate FloatRepr(r: string) {
    r != "" && ('0' <= r[0] <= '9' || r[0] == '-') && (forall i :: 0 <= i < |r| ==> NumberChar(r[i])) &&
    ('.' in r || 'e' in r)
  }

  predicate Valid(v: Value) {
    match v
    case Float(r) => FloatRepr(r)
    case Array(items) => ValidItems(items)
    case Object(members) => ValidMembers(members)
    case _ => true
  }

  predicate ValidItems(items: seq<Value>) {
    items == [] || (Valid(items[0]) && ValidItems(items[1..]))
  }

  predicate ValidMember(m: (Str, Value)) {
    Valid(m.1)
  }

  predicate ValidMembers(members: seq<(Str, Value)>) {
    members == [] || (ValidMember(members[0]) && ValidMembers(members[1..]))
  }

  // ------------------------------------------------------------ canonical text

  function Digit(d: nat): char
    requires d < 10
  {
    '0' + d as char
  }

  function Digits(n: nat): (s: string)
    ensures s != ""
  {
    if n < 10 then [Digit(n)] else Digits(n / 10) + [Digit(n % 10)]
  }

  function Decimal(n: int): string {
    if n < 0 then "-" + Digits(-n) else Digits(n)
  }

  function HexDigit(d: nat): char
    requires d < 16
  {
    if d < 10 then '0' + d as char else 'a' + (d - 10) as char
  }

  /** One code unit inside a string literal (`ensure_ascii`). */
  function Escape(u: Unit): string {
    if u == 0x22 then "\\\""
    else if u == 0x5C then "\\\\"
    else if u == 0x0A then "\\n"
    else if u == 0x0D then "\\r"
    else if u == 0x09 then "\\t"
    else if u == 0x0C then "\\f"
    else if u == 0x08 then "\\b"
    else if 0x20 <= u <= 0x7E then [u as char]
    else ['\\', 'u', HexDigit(u / 4096), HexDigit(u / 256 % 16), HexDigit(u / 16 % 16), HexDigit(u % 16)]
  }

  /** The characters up to and including the closing quote. */
  function Body(s: Str): string {
    if s == [] then "\"" else Escape(s[0]) + Body(s[1..])
  }

  function Quote(s: Str): string {
    "\"" + Body(s)
  }

  function Canon(v: Value): string
    decreases v, 1
  {
    match v
    case Null => "null"
    case Bool(b) => if b then "true" else "false"
    case Int(n) => Decimal(n)
    case Float(r) => r
    case String(s) => Quote(s)
    case Array(items) => "[" + (if items == [] then "]" else Canon(items[0]) + MoreItems(items[1..]))
    case Object(members) =>
      "{" + (if members == [] then "}" else Member(members[0]) + MoreMembers(members[1..]))
  }

  function MoreItems(items: seq<Value>): string
    decreases items, 0
  {
    if items == [] then "]" else "," + (Canon(items[0]) + MoreItems(items[1..]))
  }

  function Member(m: (Str, Value)): string
    decreases m, 2
  {
    Quote(m.0) + (":" + Canon(m.1))
  }

  function MoreMembers(members: seq<(Str, Value)>): string
    decreases members, 0
  {
    if members == [] then "}" else "," + (Member(members[0]) + MoreMembers(members[1..]))
  }

  // -------------------------------------------------------------- dictionaries

  /** `d.get(key)` */
  function Get(members: seq<(Str, Value)>, key: Str): Option<Value> {
    if members == [] then None
    else if members[0].0 == key then Some(members[0].1)
    else Get(members[1..], key)
  }

  function Units(s: string): (u: Str)
    ensures |u| == |s| && forall i :: 0 <= i < |s| && s[i] < 128 as char ==> u[i] == s[i] as int
  {
    seq(|s|, i requires 0 <= i < |s| => s[i] as int % 0x10000)
  }
}
