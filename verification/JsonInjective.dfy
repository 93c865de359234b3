/** Canonical text determines the value: `_canon` is injective. */
module JsonInjective {
  import opened Sequences
  import opened Json

  // -------------------------------------------------------------------- numbers

  /** Text after a value: nothing, or something that cannot continue a number. */
  predicate Delimited(t: string) {
    t == "" || !NumberChar(t[0])
  }

  predicate NumberText(r: string) {
    forall i :: 0 <= i < |r| ==> NumberChar(r[i])
  }

  lemma NumberEnds(a: string, s: string, b: string, t: string)
    requires NumberText(a) && NumberText(b) && Delimited(s) && Delimited(t) && a + s == b + t
    ensures a == b && s == t
  {
    if |a| < |b| {
      ShorterNumber(a, s, b, t);
    } else if |b| < |a| {
      ShorterNumber(b, t, a, s);
    }
    Split(a, s, b, t);
  }

  lemma ShorterNumber(a: string, s: string, b: string, t: string)
    requires NumberText(b) && Delimited(s) && |a| < |b|
    ensures a + s != b + t
  {
    assert s != "" ==> (a + s)[|a|] == s[0];
    assert (b + t)[|a|] == b[|a|];
  }

  function ToNat(s: string): nat
    requires forall i :: 0 <= i < |s| ==> '0' <= s[i] <= '9'
  {
    if s == "" then 0 else ToNat(s[..|s| - 1]) * 10 + (s[|s| - 1] as int - '0' as int)
  }

  lemma {:induction false} DigitsRead(n: nat)
    ensures forall i :: 0 <= i < |Digits(n)| ==> '0' <= Digits(n)[i] <= '9'
    ensures ToNat(Digits(n)) == n
  {
    if n >= 10 {
      DigitsRead(n / 10);
      assert Digits(n)[..|Digits(n)| - 1] == Digits(n / 10);
    } else {
      assert ToNat([Digit(n)]) == ToNat("") * 10 + n;
    }
  }

  lemma DecimalFacts(n: int)
    ensures NumberText(Decimal(n)) && Decimal(n) != "" && ('0' <= Decimal(n)[0] <= '9' || Decimal(n)[0] == '-')
    ensures '.' !in Decimal(n) && 'e' !in Decimal(n)
  {
    DigitsRead(if n < 0 then -n else n);
  }

  lemma DecimalInjective(m: int, n: int)
    requires Decimal(m) == Decimal(n)
    ensures m == n
  {
    DecimalSign(m);
    DecimalSign(n);
    DigitsRead(if m < 0 then -m else m);
    DigitsRead(if n < 0 then -n else n);
    if m < 0 && n < 0 {
      Split("-", Digits(-m), "-", Digits(-n));
    }
  }

  lemma DecimalSign(n: int)
    ensures Decimal(n) != "" && (Decimal(n)[0] == '-' <==> n < 0)
  {
    DigitsRead(if n < 0 then -n else n);
  }

  // -------------------------------------------------------------------- strings

  lemma HexInjective(u: Unit, v: Unit)
    requires Escape(u) == Escape(v) && |Escape(u)| == 6
    ensures u == v
  {
    var a, b := Escape(u), Escape(v);
    assert a[2] == b[2] && a[3] == b[3] && a[4] == b[4] && a[5] == b[5];
    HexDigitInjective(u / 4096, v / 4096);
    HexDigitInjective(u / 256 % 16, v / 256 % 16);
    HexDigitInjective(u / 16 % 16, v / 16 % 16);
    HexDigitInjective(u % 16, v % 16);
    Nibbles(u);
    Nibbles(v);
  }

  lemma HexDigitInjective(d: nat, e: nat)
    requires d < 16 && e < 16 && HexDigit(d) == HexDigit(e)
    ensures d == e
  {
  }

  lemma Nibbles(u: Unit)
    ensures u == 4096 * (u / 4096) + 256 * (u / 256 % 16) + 16 * (u / 16 % 16) + u % 16
  {
    assert u / 256 == 16 * (u / 4096) + u / 256 % 16;
    assert u / 16 == 16 * (u / 256) + u / 16 % 16;
  }

  lemma EscapeInjective(u: Unit, s: string, v: Unit, t: string)
    requires Escape(u) + s == Escape(v) + t
    ensures u == v && s == t
  {
    var a, b := Escape(u), Escape(v);
    assert a[0] == (a + s)[0] == b[0];
    if a[0] == '\\' {
      assert a[1] == (a + s)[1] == b[1];
    }
    Split(a, s, b, t);
    if |a| == 6 {
      HexInjective(u, v);
    }
  }

  lemma {:induction false} BodyInjective(a: Str, s: string, b: Str, t: string)
    requires Body(a) + s == Body(b) + t
    ensures a == b && s == t
  {
    if a == [] && b == [] {
      Split("\"", s, "\"", t);
    } else if a == [] {
      BodyNotQuote(b, t, s);
    } else if b == [] {
      BodyNotQuote(a, s, t);
    } else {
      Assoc(Escape(a[0]), Body(a[1..]), s);
      Assoc(Escape(b[0]), Body(b[1..]), t);
      EscapeInjective(a[0], Body(a[1..]) + s, b[0], Body(b[1..]) + t);
      BodyInjective(a[1..], s, b[1..], t);
      assert a == [a[0]] + a[1..] && b == [b[0]] + b[1..];
    }
  }

  lemma BodyNotQuote(a: Str, s: string, t: string)
    requires a != []
    ensures Body(a) + s != "\"" + t
  {
    assert (Body(a) + s)[0] == Escape(a[0])[0];
  }

  lemma QuoteInjective(a: Str, s: string, b: Str, t: string)
    requires Quote(a) + s == Quote(b) + t
    ensures a == b && s == t
  {
    Assoc("\"", Body(a), s);
    Assoc("\"", Body(b), t);
    Split("\"", Body(a) + s, "\"", Body(b) + t);
    BodyInjective(a, s, b, t);
  }

  // --------------------------------------------------------------------- values

  /** The first character of a value's text gives its type away. */
  lemma CanonStarts(v: Value)
    requires Valid(v)
    ensures Canon(v) != "" && Canon(v)[0] !in ",]}:"
    ensures var c := Canon(v)[0];
            && (c == 'n' <==> v.Null?) && (c == 't' <==> v == Bool(true)) && (c == 'f' <==> v == Bool(false))
            && (c == '"' <==> v.String?) && (c == '[' <==> v.Array?) && (c == '{' <==> v.Object?)
            && ('0' <= c <= '9' || c == '-' <==> v.Int? || v.Float?)
  {
    if v.Int? {
      DecimalFacts(v.n);
    }
  }

  lemma {:induction false} CanonInjective(a: Value, s: string, b: Value, t: string)
    requires Valid(a) && Valid(b) && Delimited(s) && Delimited(t)
    requires Canon(a) + s == Canon(b) + t
    ensures a == b && s == t
    decreases a, 1
  {
    CanonStarts(a);
    CanonStarts(b);
    assert Canon(a)[0] == (Canon(a) + s)[0] == Canon(b)[0];
    match a
    case Array(items) => ArrayInjective(items, s, b.items, t);
    case Object(members) => ObjectInjective(members, s, b.members, t);
    case String(u) => QuoteInjective(u, s, b.s, t);
    case Null => Split("null", s, "null", t);
    case Bool(x) => Split(Canon(a), s, Canon(b), t);
    case Int(n) => NumberInjective(a, s, b, t);
    case Float(r) => NumberInjective(a, s, b, t);
  }

  lemma NumberInjective(a: Value, s: string, b: Value, t: string)
    requires Valid(a) && Valid(b) && Delimited(s) && Delimited(t)
    requires (a.Int? || a.Float?) && (b.Int? || b.Float?)
    requires Canon(a) + s == Canon(b) + t
    ensures a == b && s == t
  {
    if a.Int? { DecimalFacts(a.n); }
    if b.Int? { DecimalFacts(b.n); }
    NumberEnds(Canon(a), s, Canon(b), t);
    if a.Int? && b.Int? {
      DecimalInjective(a.n, b.n);
    }
  }

  lemma {:induction false} ArrayInjective(a: seq<Value>, s: string, b: seq<Value>, t: string)
    requires ValidItems(a) && ValidItems(b)
    requires Canon(Array(a)) + s == Canon(Array(b)) + t
    ensures a == b && s == t
    decreases a, 2
  {
    var x := if a == [] then "]" else Canon(a[0]) + MoreItems(a[1..]);
    var y := if b == [] then "]" else Canon(b[0]) + MoreItems(b[1..]);
    Assoc("[", x, s);
    Assoc("[", y, t);
    Split("[", x + s, "[", y + t);
    if a != [] {
      CanonStarts(a[0]);
      Assoc(Canon(a[0]), MoreItems(a[1..]), s);
    }
    if b != [] {
      CanonStarts(b[0]);
      Assoc(Canon(b[0]), MoreItems(b[1..]), t);
    }
    assert (x + s)[0] == (y + t)[0];
    if a == [] {
      Split("]", s, "]", t);
    } else {
      CanonInjective(a[0], MoreItems(a[1..]) + s, b[0], MoreItems(b[1..]) + t);
      MoreItemsInjective(a[1..], s, b[1..], t);
      assert a == [a[0]] + a[1..] && b == [b[0]] + b[1..];
    }
  }

  lemma {:induction false} MoreItemsInjective(a: seq<Value>, s: string, b: seq<Value>, t: string)
    requires ValidItems(a) && ValidItems(b) && MoreItems(a) + s == MoreItems(b) + t
    ensures a == b && s == t
    decreases a, 0
  {
    assert MoreItems(a)[0] == (MoreItems(a) + s)[0] == MoreItems(b)[0];
    if a == [] {
      Split("]", s, "]", t);
    } else {
      var x, y := MoreItems(a[1..]) + s, MoreItems(b[1..]) + t;
      Assoc3(",", Canon(a[0]), MoreItems(a[1..]), s);
      Assoc3(",", Canon(b[0]), MoreItems(b[1..]), t);
      Split(",", Canon(a[0]) + x, ",", Canon(b[0]) + y);
      CanonInjective(a[0], x, b[0], y);
      MoreItemsInjective(a[1..], s, b[1..], t);
      assert a == [a[0]] + a[1..] && b == [b[0]] + b[1..];
    }
  }

  lemma {:induction false} MemberInjective(a: (Str, Value), s: string, b: (Str, Value), t: string)
    requires ValidMember(a) && ValidMember(b) && Delimited(s) && Delimited(t)
    requires Member(a) + s == Member(b) + t
    ensures a == b && s == t
    decreases a, 2
  {
    Assoc3(Quote(a.0), ":", Canon(a.1), s);
    Assoc3(Quote(b.0), ":", Canon(b.1), t);
    QuoteInjective(a.0, ":" + (Canon(a.1) + s), b.0, ":" + (Canon(b.1) + t));
    Split(":", Canon(a.1) + s, ":", Canon(b.1) + t);
    CanonInjective(a.1, s, b.1, t);
  }

  lemma {:induction false} ObjectInjective(a: seq<(Str, Value)>, s: string, b: seq<(Str, Value)>, t: string)
    requires ValidMembers(a) && ValidMembers(b)
    requires Canon(Object(a)) + s == Canon(Object(b)) + t
    ensures a == b && s == t
    decreases a, 3
  {
    var x := if a == [] then "}" else Member(a[0]) + MoreMembers(a[1..]);
    var y := if b == [] then "}" else Member(b[0]) + MoreMembers(b[1..]);
    Assoc("{", x, s);
    Assoc("{", y, t);
    Split("{", x + s, "{", y + t);
    if a != [] { Assoc(Member(a[0]), MoreMembers(a[1..]), s); }
    if b != [] { Assoc(Member(b[0]), MoreMembers(b[1..]), t); }
    assert (x + s)[0] == (y + t)[0];
    if a == [] {
      Split("}", s, "}", t);
    } else {
      MemberInjective(a[0], MoreMembers(a[1..]) + s, b[0], MoreMembers(b[1..]) + t);
      MoreMembersInjective(a[1..], s, b[1..], t);
      assert a == [a[0]] + a[1..] && b == [b[0]] + b[1..];
    }
  }

  lemma {:induction false} MoreMembersInjective(a: seq<(Str, Value)>, s: string, b: seq<(Str, Value)>, t: string)
    requires ValidMembers(a) && ValidMembers(b) && MoreMembers(a) + s == MoreMembers(b) + t
    ensures a == b && s == t
    decreases a, 0
  {
    assert MoreMembers(a)[0] == (MoreMembers(a) + s)[0] == MoreMembers(b)[0];
    if a == [] {
      Split("}", s, "}", t);
    } else {
      var x, y := MoreMembers(a[1..]) + s, MoreMembers(b[1..]) + t;
      Assoc3(",", Member(a[0]), MoreMembers(a[1..]), s);
      Assoc3(",", Member(b[0]), MoreMembers(b[1..]), t);
      Split(",", Member(a[0]) + x, ",", Member(b[0]) + y);
      MemberInjective(a[0], x, b[0], y);
      MoreMembersInjective(a[1..], s, b[1..], t);
      assert a == [a[0]] + a[1..] && b == [b[0]] + b[1..];
    }
  }

  /** Equal canonical texts come from equal values. */
  lemma CanonDetermines(a: Value, b: Value)
    requires Valid(a) && Valid(b) && Canon(a) == Canon(b)
    ensures a == b
  {
    assert Canon(a) + "" == Canon(a) && Canon(b) + "" == Canon(b);
    CanonInjective(a, "", b, "");
  }
}
