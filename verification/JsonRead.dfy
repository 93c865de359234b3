/** A reader of JSON text (sections 2 to 7 of RFC 8259, without insignificant white space; leading zeros are not
    refused), written without reference to the canonical text. */
module JsonRead {
  import opened Options
  import opened Json
  import opened JsonInjective
  import opened JsonLexer

  // --------------------------------------------------------------------- the grammar

  function HexValue(c: char): Option<nat> {
    if '0' <= c <= '9' then Some(c as int - '0' as int)
    else if 'a' <= c <= 'f' then Some(c as int - 'a' as int + 10)
    else if 'A' <= c <= 'F' then Some(c as int - 'A' as int + 10)
    else None
  }

  /** Four hexadecimal digits. */
  function HexUnit(t: string): Option<Unit> {
    if |t| < 4 then None
    else
      match (HexValue(t[0]), HexValue(t[1]), HexValue(t[2]), HexValue(t[3]))
      case (Some(a), Some(b), Some(c), Some(d)) =>
        if a < 16 && b < 16 && c < 16 && d < 16 then Some(4096 * a + 256 * b + 16 * c + d) else None
      case _ => None
  }

  /** The two-character escapes. */
  function ShortEscape(c: char): Option<Unit> {
    match c
    case '"' => Some(0x22)
    case '\\' => Some(0x5C)
    case '/' => Some(0x2F)
    case 'b' => Some(0x08)
    case 'f' => Some(0x0C)
    case 'n' => Some(0x0A)
    case 'r' => Some(0x0D)
    case 't' => Some(0x09)
    case _ => None
  }

  /** One code unit of a string literal, and how many characters it takes; none for the quote that closes it. */
  function ReadUnit(t: string): (r: Option<(Unit, nat)>)
    ensures r.Some? ==> 1 <= r.value.1 <= |t|
  {
    if t == "" || t[0] == '"' || t[0] < ' ' || t[0] > '~' then None
    else if t[0] != '\\' then Some((t[0] as int, 1))
    else if |t| >= 2 && ShortEscape(t[1]).Some? then Some((ShortEscape(t[1]).value, 2))
    else if |t| >= 6 && t[1] == 'u' && HexUnit(t[2..]).Some? then Some((HexUnit(t[2..]).value, 6))
    else None
  }

  /** The rest of a string literal up to its closing quote. */
  function ReadString(t: string): (r: Option<(Str, string)>)
    ensures r.Some? ==> |r.value.1| < |t|
    decreases |t|
  {
    if t != "" && t[0] == '"' then Some(([], t[1..]))
    else
      match ReadUnit(t)
      case None => None
      case Some((u, n)) =>
        match ReadString(t[n..])
        case None => None
        case Some((s, rest)) => Some(([u] + s, rest))
  }

  predicate AllDigits(s: string) {
    forall i :: 0 <= i < |s| ==> '0' <= s[i] <= '9'
  }

  /** A number without a point or an exponent is an integer; others keep their text. */
  function ReadNumber(raw: string): Option<Value> {
    if !Integral(raw) then Some(Float(raw))
    else if AllDigits(raw) then Some(Int(ToNat(raw)))
    else if raw != "" && raw[0] == '-' && AllDigits(raw[1..]) then Some(Int(-(ToNat(raw[1..]) as int)))
    else None
  }

  function ReadValue(t: string): (r: Option<(Value, string)>)
    ensures r.Some? ==> |r.value.1| < |t|
    decreases |t|, 1
  {
    if "null" <= t then Some((Null, t[4..]))
    else if "true" <= t then Some((Bool(true), t[4..]))
    else if "false" <= t then Some((Bool(false), t[5..]))
    else if t == "" then None
    else if t[0] == '"' then
      match ReadString(t[1..]) case None => None case Some((s, rest)) => Some((String(s), rest))
    else if t[0] == '[' then
      if "[]" <= t then Some((Array([]), t[2..]))
      else match ReadItems(t[1..]) case None => None case Some((items, rest)) => Some((Array(items), rest))
    else if t[0] == '{' then
      if "{}" <= t then Some((Object([]), t[2..]))
      else match ReadMembers(t[1..]) case None => None case Some((members, rest)) => Some((Object(members), rest))
    else
      var n := NumberLength(t);
      if n == 0 then None
      else match ReadNumber(t[..n]) case None => None case Some(v) => Some((v, t[n..]))
  }

  /** One or more values separated by commas, and the closing bracket. */
  function ReadItems(t: string): (r: Option<(seq<Value>, string)>)
    ensures r.Some? ==> |r.value.1| < |t|
    decreases |t|, 2
  {
    match ReadValue(t)
    case None => None
    case Some((v, more)) =>
      if "]" <= more then Some(([v], more[1..]))
      else if !("," <= more) then None
      else
        match ReadItems(more[1..])
        case None => None
        case Some((items, rest)) => Some(([v] + items, rest))
  }

  function ReadMember(t: string): (r: Option<((Str, Value), string)>)
    ensures r.Some? ==> |r.value.1| < |t|
    decreases |t|, 2
  {
    if !("\"" <= t) then None
    else
      match ReadString(t[1..])
      case None => None
      case Some((key, more)) =>
        if !(":" <= more) then None
        else match ReadValue(more[1..]) case None => None case Some((v, rest)) => Some(((key, v), rest))
  }

  function ReadMembers(t: string): (r: Option<(seq<(Str, Value)>, string)>)
    ensures r.Some? ==> |r.value.1| < |t|
    decreases |t|, 3
  {
    match ReadMember(t)
    case None => None
    case Some((m, more)) =>
      if "}" <= more then Some(([m], more[1..]))
      else if !("," <= more) then None
      else
        match ReadMembers(more[1..])
        case None => None
        case Some((members, rest)) => Some(([m] + members, rest))
  }
}
