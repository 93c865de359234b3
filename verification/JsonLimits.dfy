/** The two independent limit checks: a scan of the text and a walk of the decoded value. */
module JsonLimits {
  import opened Maximum
  import opened Options
  import opened Json
  import opened JsonInjective

  const MAX_DEPTH := 64
  const MAX_INTEGER_DIGITS := 640

  // ----------------------------------------------------------------- the scanner

  datatype Scanner = Scanner(depth: int, inString: bool, escaped: bool)

  /** One character; `None` is the raised nesting error. */
  function Next(st: Scanner, c: char): Option<Scanner> {
    if st.inString then
      if st.escaped then Some(st.(escaped := false))
      else if c == '\\' then Some(st.(escaped := true))
      else if c == '"' then Some(st.(inString := false))
      else Some(st)
    else if c == '"' then Some(st.(inString := true))
    else if c == '[' || c == '{' then
      if st.depth + 1 > MAX_DEPTH then None else Some(st.(depth := st.depth + 1))
    else if c == ']' || c == '}' then Some(st.(depth := st.depth - 1))
    else Some(st)
  }

  function Scan(st: Scanner, text: string): Option<Scanner>
    decreases text
  {
    if text == "" then Some(st)
    else
      match Next(st, text[0])
      case None => None
      case Some(st') => Scan(st', text[1..])
  }

  const FRESH := Scanner(0, false, false)

  /** `_check_json_depth` (and the scan in the signature verifier's `_read_json`): false is a ValueError. */
  method CheckJsonDepth(text: string) returns (ok: bool)
    ensures ok <==> Scan(FRESH, text).Some?
  {
    var depth, inString, escaped := 0, false, false;
    for i := 0 to |text|
      invariant Scan(FRESH, text) == Scan(Scanner(depth, inString, escaped), text[i..])
    {
      var c := text[i];
      assert text[i..][0] == c && text[i..][1..] == text[i + 1..];
      if inString {
        if escaped { escaped := false; }
        else if c == '\\' { escaped := true; }
        else if c == '"' { inString := false; }
      } else if c == '"' {
        inString := true;
      } else if c == '[' || c == '{' {
        depth := depth + 1;
        if depth > MAX_DEPTH { return false; }
      } else if c == ']' || c == '}' {
        depth := depth - 1;
      }
    }
    return true;
  }

  // ----------------------------------------------------------------- the value

  /** Containers on the deepest path. */
  function Depth(v: Value): nat {
    match v
    case Array(items) => 1 + ItemsDepth(items)
    case Object(members) => 1 + MembersDepth(members)
    case _ => 0
  }

  function ItemsDepth(items: seq<Value>): nat {
    if items == [] then 0 else Max(Depth(items[0]), ItemsDepth(items[1..]))
  }

  function MemberDepth(m: (Str, Value)): nat {
    Depth(m.1)
  }

  function MembersDepth(members: seq<(Str, Value)>): nat {
    if members == [] then 0 else Max(MemberDepth(members[0]), MembersDepth(members[1..]))
  }

  // ----------------------------------------- the scanner measures the value's depth

  function Then(r: Option<Scanner>, text: string): Option<Scanner> {
    if r.None? then None else Scan(r.value, text)
  }

  lemma {:induction false} ScanConcat(st: Scanner, a: string, b: string)
    ensures Scan(st, a + b) == Then(Scan(st, a), b)
    decreases a
  {
    if a == "" {
      assert a + b == b;
    } else {
      assert (a + b)[1..] == a[1..] + b;
      if Next(st, a[0]).Some? {
        ScanConcat(Next(st, a[0]).value, a[1..], b);
      }
    }
  }

  /** Text without quotes and brackets leaves the scanner alone outside a string. */
  lemma {:induction false} ScanQuiet(d: int, text: string)
    requires forall i :: 0 <= i < |text| ==> text[i] !in "\"[]{}"
    ensures Scan(Scanner(d, false, false), text) == Some(Scanner(d, false, false))
  {
    if text != "" {
      assert text[0] !in "\"[]{}";
      ScanQuiet(d, text[1..]);
    }
  }

  /** Whatever the contents, a string literal is passed over. */
  lemma {:induction false} ScanBody(d: int, s: Str)
    ensures Scan(Scanner(d, true, false), Body(s)) == Some(Scanner(d, false, false))
  {
    if s == [] {
      assert Body(s)[1..] == "";
    } else {
      ScanEscape(d, s[0]);
      ScanConcat(Scanner(d, true, false), Escape(s[0]), Body(s[1..]));
      ScanBody(d, s[1..]);
    }
  }

  lemma ScanEscape(d: int, u: Unit)
    ensures Scan(Scanner(d, true, false), Escape(u)) == Some(Scanner(d, true, false))
  {
    var e, st := Escape(u), Scanner(d, true, false);
    if |e| == 1 {
      assert e[1..] == "";
    } else {
      ScanTwo(d, e[..2]);
      ScanPlain(d, e[2..]);
      assert e == e[..2] + e[2..];
      ScanConcat(st, e[..2], e[2..]);
    }
  }

  lemma ScanTwo(d: int, e: string)
    requires |e| == 2 && e[0] == '\\'
    ensures Scan(Scanner(d, true, false), e) == Some(Scanner(d, true, false))
  {
    assert e[1..][1..] == "";
    assert Scan(Scanner(d, true, true), e[1..]) == Scan(Scanner(d, true, false), e[1..][1..]);
  }

  lemma {:induction false} ScanPlain(d: int, e: string)
    requires forall i :: 0 <= i < |e| ==> e[i] != '"' && e[i] != '\\'
    ensures Scan(Scanner(d, true, false), e) == Some(Scanner(d, true, false))
  {
    if e != "" {
      ScanPlain(d, e[1..]);
    }
  }

  lemma ScanQuote(d: int, s: Str)
    ensures Scan(Scanner(d, false, false), Quote(s)) == Some(Scanner(d, false, false))
  {
    assert Quote(s)[1..] == Body(s);
    ScanBody(d, s);
  }

  function After(d: int, deepest: int, end: int): Option<Scanner> {
    if deepest <= MAX_DEPTH then Some(Scanner(end, false, false)) else None
  }

  /** Scanning a value's canonical text at depth `d` fails if and only if the value nests past the limit, and
      otherwise comes back to depth `d`, outside any string. */
  lemma {:induction false} ScanCanon(d: int, v: Value)
    requires Valid(v) && d <= MAX_DEPTH
    ensures Scan(Scanner(d, false, false), Canon(v)) == After(d, d + Depth(v), d)
    decreases v, 1
  {
    match v
    case Array(items) => ScanArray(d, items);
    case Object(members) => ScanObject(d, members);
    case String(s) => ScanQuote(d, s);
    case _ =>
      QuietScalar(v);
      ScanQuiet(d, Canon(v));
  }

  lemma QuietScalar(v: Value)
    requires Valid(v) && !v.Array? && !v.Object? && !v.String?
    ensures forall i :: 0 <= i < |Canon(v)| ==> Canon(v)[i] !in "\"[]{}"
  {
    if v.Int? {
      DecimalFacts(v.n);
    }
    assert forall c: char :: NumberChar(c) ==> c !in "\"[]{}";
  }

  lemma ScanComma(d: int, x: string, rest: string)
    ensures Scan(Scanner(d, false, false), "," + (x + rest)) == Then(Scan(Scanner(d, false, false), x), rest)
  {
    assert ("," + (x + rest))[1..] == x + rest;
    ScanConcat(Scanner(d, false, false), x, rest);
  }

  lemma ScanOpen(d: int, text: string)
    requires text != "" && (text[0] == '[' || text[0] == '{')
    ensures Scan(Scanner(d, false, false), text) ==
            if d + 1 > MAX_DEPTH then None else Scan(Scanner(d + 1, false, false), text[1..])
  {
  }

  lemma {:induction false} ScanArray(d: int, items: seq<Value>)
    requires ValidItems(items) && d <= MAX_DEPTH
    ensures Scan(Scanner(d, false, false), Canon(Array(items))) == After(d, d + 1 + ItemsDepth(items), d)
    decreases items, 2
  {
    var text := Canon(Array(items));
    ScanOpen(d, text);
    if items == [] {
      assert text[1..] == "]" && "]"[1..] == "";
    } else {
      assert text[1..] == Canon(items[0]) + MoreItems(items[1..]);
      if d + 1 <= MAX_DEPTH {
        ScanConcat(Scanner(d + 1, false, false), Canon(items[0]), MoreItems(items[1..]));
        ScanCanon(d + 1, items[0]);
        ScanMoreItems(d + 1, items[1..]);
      }
    }
  }

  lemma {:induction false} ScanMoreItems(d: int, items: seq<Value>)
    requires ValidItems(items) && d <= MAX_DEPTH
    ensures Scan(Scanner(d, false, false), MoreItems(items)) == After(d, d + ItemsDepth(items), d - 1)
    decreases items, 0
  {
    if items == [] {
      assert "]"[1..] == "";
    } else {
      ScanComma(d, Canon(items[0]), MoreItems(items[1..]));
      ScanCanon(d, items[0]);
      ScanMoreItems(d, items[1..]);
    }
  }

  lemma {:induction false} ScanMember(d: int, m: (Str, Value))
    requires ValidMember(m) && d <= MAX_DEPTH
    ensures Scan(Scanner(d, false, false), Member(m)) == After(d, d + MemberDepth(m), d)
    decreases m, 2
  {
    var st := Scanner(d, false, false);
    ScanConcat(st, Quote(m.0), ":" + Canon(m.1));
    ScanQuote(d, m.0);
    assert (":" + Canon(m.1))[1..] == Canon(m.1);
    ScanCanon(d, m.1);
  }

  lemma {:induction false} ScanObject(d: int, members: seq<(Str, Value)>)
    requires ValidMembers(members) && d <= MAX_DEPTH
    ensures Scan(Scanner(d, false, false), Canon(Object(members))) == After(d, d + 1 + MembersDepth(members), d)
    decreases members, 3
  {
    var text := Canon(Object(members));
    ScanOpen(d, text);
    if members == [] {
      assert text[1..] == "}" && "}"[1..] == "";
    } else {
      assert text[1..] == Member(members[0]) + MoreMembers(members[1..]);
      if d + 1 <= MAX_DEPTH {
        ScanConcat(Scanner(d + 1, false, false), Member(members[0]), MoreMembers(members[1..]));
        ScanMember(d + 1, members[0]);
        ScanMoreMembers(d + 1, members[1..]);
      }
    }
  }

  lemma {:induction false} ScanMoreMembers(d: int, members: seq<(Str, Value)>)
    requires ValidMembers(members) && d <= MAX_DEPTH
    ensures Scan(Scanner(d, false, false), MoreMembers(members)) == After(d, d + MembersDepth(members), d - 1)
    decreases members, 0
  {
    if members == [] {
      assert "}"[1..] == "";
    } else {
      ScanComma(d, Member(members[0]), MoreMembers(members[1..]));
      ScanMember(d, members[0]);
      ScanMoreMembers(d, members[1..]);
    }
  }
}
