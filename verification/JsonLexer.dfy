/** The integer literals of a text, as a lexer finds them: what `parse_int` is called with. */
module JsonLexer {
  import opened Sequences
  import opened Json
  import opened JsonInjective
  import opened JsonLimits
  import opened JsonWalk

  /** What follows the closing quote of the string literal that the text is in. */
  function AfterString(text: string): (rest: string)
    ensures |rest| <= |text|
    decreases |text|
  {
    if text == "" then ""
    else if text[0] == '\\' then AfterString(if |text| == 1 then "" else text[2..])
    else if text[0] == '"' then text[1..]
    else AfterString(text[1..])
  }

  /** How many characters at the start of the text continue a number. */
  function NumberLength(text: string): (n: nat)
    ensures n <= |text| && (n > 0 <==> text != "" && NumberChar(text[0]))
  {
    if text == "" || !NumberChar(text[0]) then 0 else 1 + NumberLength(text[1..])
  }

  predicate NumberStart(c: char) {
    '0' <= c <= '9' || c == '-'
  }

  /** A number without a point or an exponent goes to `parse_int`. */
  predicate Integral(raw: string) {
    '.' !in raw && 'e' !in raw
  }

  /** The integer literals outside strings, in order. */
  function Integers(text: string): seq<string>
    decreases |text|
  {
    if text == "" then []
    else if text[0] == '"' then Integers(AfterString(text[1..]))
    else if NumberStart(text[0]) then
      var n := NumberLength(text);
      (if Integral(text[..n]) then [text[..n]] else []) + Integers(text[n..])
    else Integers(text[1..])
  }

  // ------------------------------------------------------------------ strings

  lemma EscapeRead(u: Unit, t: string)
    ensures AfterString(Escape(u) + t) == AfterString(t)
  {
    var e := Escape(u);
    if |e| == 1 {
      assert (e + t)[1..] == t;
    } else {
      assert (e + t)[2..] == e[2..] + t;
      PlainRead(e[2..], t);
    }
  }

  lemma {:induction false} PlainRead(w: string, t: string)
    requires forall i :: 0 <= i < |w| ==> w[i] != '"' && w[i] != '\\'
    ensures AfterString(w + t) == AfterString(t)
  {
    if w == "" {
      assert w + t == t;
    } else {
      assert (w + t)[1..] == w[1..] + t;
      PlainRead(w[1..], t);
    }
  }

  lemma {:induction false} BodyRead(s: Str, t: string)
    ensures AfterString(Body(s) + t) == t
  {
    if s != [] {
      Assoc(Escape(s[0]), Body(s[1..]), t);
      EscapeRead(s[0], Body(s[1..]) + t);
      BodyRead(s[1..], t);
    }
  }

  lemma QuoteRead(s: Str, t: string)
    ensures Integers(Quote(s) + t) == Integers(t)
  {
    assert (Quote(s) + t)[1..] == Body(s) + t;
    BodyRead(s, t);
  }

  // ------------------------------------------------------------ numbers and words

  lemma {:induction false} NumberLengthIs(r: string, t: string)
    requires NumberText(r) && Delimited(t)
    ensures NumberLength(r + t) == |r|
  {
    if r == "" {
      assert r + t == t;
    } else {
      assert (r + t)[1..] == r[1..] + t;
      NumberLengthIs(r[1..], t);
    }
  }

  lemma NumberRead(r: string, t: string)
    requires NumberText(r) && r != "" && NumberStart(r[0]) && Delimited(t)
    ensures Integers(r + t) == (if Integral(r) then [r] else []) + Integers(t)
  {
    NumberLengthIs(r, t);
    assert (r + t)[..|r|] == r && (r + t)[|r|..] == t;
  }

  /** Characters that start neither a string nor a number are passed over. */
  lemma {:induction false} WordRead(w: string, t: string)
    requires forall i :: 0 <= i < |w| ==> w[i] != '"' && !NumberStart(w[i])
    ensures Integers(w + t) == Integers(t)
  {
    if w == "" {
      assert w + t == t;
    } else {
      assert (w + t)[1..] == w[1..] + t;
      WordRead(w[1..], t);
    }
  }

  // ------------------------------------------------------------------- values

  /** Reading the canonical text of a value finds its integers, whatever its strings and floats contain. */
  lemma {:induction false} CanonRead(v: Value, t: string)
    requires Valid(v) && Delimited(t)
    ensures Integers(Canon(v) + t) == Literals(v) + Integers(t)
    decreases v, 1
  {
    match v
    case Null => WordRead("null", t);
    case Bool(b) => WordRead(Canon(v), t);
    case Int(n) =>
      DecimalFacts(n);
      NumberRead(Decimal(n), t);
    case Float(r) => NumberRead(r, t);
    case String(s) => QuoteRead(s, t);
    case Array(items) => ArrayRead(items, t);
    case Object(members) => ObjectRead(members, t);
  }

  lemma {:induction false} ArrayRead(items: seq<Value>, t: string)
    requires ValidItems(items) && Delimited(t)
    ensures Integers(Canon(Array(items)) + t) == ItemsLiterals(items) + Integers(t)
    decreases items, 1
  {
    if items == [] {
      WordRead("[]", t);
      assert Canon(Array(items)) == "[]";
    } else {
      var more := MoreItems(items[1..]);
      Assoc3("[", Canon(items[0]), more, t);
      WordRead("[", Canon(items[0]) + (more + t));
      CanonRead(items[0], more + t);
      MoreItemsRead(items[1..], t);
      Assoc(Literals(items[0]), ItemsLiterals(items[1..]), Integers(t));
    }
  }

  lemma {:induction false} MoreItemsRead(items: seq<Value>, t: string)
    requires ValidItems(items) && Delimited(t)
    ensures Integers(MoreItems(items) + t) == ItemsLiterals(items) + Integers(t)
    decreases items, 0
  {
    if items == [] {
      WordRead("]", t);
    } else {
      var more := MoreItems(items[1..]);
      Assoc3(",", Canon(items[0]), more, t);
      WordRead(",", Canon(items[0]) + (more + t));
      CanonRead(items[0], more + t);
      MoreItemsRead(items[1..], t);
      Assoc(Literals(items[0]), ItemsLiterals(items[1..]), Integers(t));
    }
  }

  lemma {:induction false} MemberRead(m: (Str, Value), t: string)
    requires ValidMember(m) && Delimited(t)
    ensures Integers(Member(m) + t) == MemberLiterals(m) + Integers(t)
    decreases m, 2
  {
    Assoc3(Quote(m.0), ":", Canon(m.1), t);
    QuoteRead(m.0, ":" + (Canon(m.1) + t));
    WordRead(":", Canon(m.1) + t);
    CanonRead(m.1, t);
  }

  lemma {:induction false} ObjectRead(members: seq<(Str, Value)>, t: string)
    requires ValidMembers(members) && Delimited(t)
    ensures Integers(Canon(Object(members)) + t) == MembersLiterals(members) + Integers(t)
    decreases members, 1
  {
    if members == [] {
      WordRead("{}", t);
      assert Canon(Object(members)) == "{}";
    } else {
      var more := MoreMembers(members[1..]);
      Assoc3("{", Member(members[0]), more, t);
      WordRead("{", Member(members[0]) + (more + t));
      MemberRead(members[0], more + t);
      MoreMembersRead(members[1..], t);
      Assoc(MemberLiterals(members[0]), MembersLiterals(members[1..]), Integers(t));
    }
  }

  lemma {:induction false} MoreMembersRead(members: seq<(Str, Value)>, t: string)
    requires ValidMembers(members) && Delimited(t)
    ensures Integers(MoreMembers(members) + t) == MembersLiterals(members) + Integers(t)
    decreases members, 0
  {
    if members == [] {
      WordRead("}", t);
    } else {
      var more := MoreMembers(members[1..]);
      Assoc3(",", Member(members[0]), more, t);
      WordRead(",", Member(members[0]) + (more + t));
      MemberRead(members[0], more + t);
      MoreMembersRead(members[1..], t);
      Assoc(MemberLiterals(members[0]), MembersLiterals(members[1..]), Integers(t));
    }
  }

  /** The checks on the text and the walk over the value agree: the scan passes the canonical text exactly when the
      value nests at most 64 containers, whatever its strings contain; and the integer literals of the text are short
      enough exactly when the integers of the value are below 10^640 in magnitude. */
  lemma LimitsAgree(v: Value)
    requires Valid(v)
    ensures Scan(FRESH, Canon(v)).Some? <==> Depth(v) <= 64
    ensures AllAccepted(Integers(Canon(v))) <==> IntegersFit(v)
  {
    ScanCanon(0, v);
    CanonRead(v, "");
    assert Canon(v) + "" == Canon(v) && Literals(v) + Integers("") == Literals(v);
    LiteralsAgree(v);
  }
}
