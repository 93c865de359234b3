/** Reading a canonical text gives the value back: `json.loads` inverts `json.dumps`. */
module JsonRoundTrip {
  import opened Sequences
  import opened Options
  import opened Json
  import opened JsonInjective
  import opened JsonLexer
  import opened JsonRead

  // ------------------------------------------------------------------------ strings

  lemma ReadEscape(u: Unit, t: string)
    ensures ReadUnit(Escape(u) + t) == Some((u, |Escape(u)|)) && (Escape(u) + t)[|Escape(u)|..] == t
  {
    var e := Escape(u);
    if |e| == 6 {
      Nibbles(u);
      assert (e + t)[2..] == e[2..] + t;
      HexRead(u / 4096);
      HexRead(u / 256 % 16);
      HexRead(u / 16 % 16);
      HexRead(u % 16);
    }
  }

  lemma HexRead(d: nat)
    requires d < 16
    ensures HexValue(HexDigit(d)) == Some(d)
  {
  }

  lemma {:induction false} ReadBody(s: Str, t: string)
    ensures ReadString(Body(s) + t) == Some((s, t))
  {
    if s == [] {
      assert ("\"" + t)[1..] == t;
    } else {
      Assoc(Escape(s[0]), Body(s[1..]), t);
      ReadEscape(s[0], Body(s[1..]) + t);
      ReadBody(s[1..], t);
      NotQuote(s[0], Body(s[1..]) + t);
      assert s == [s[0]] + s[1..];
    }
  }

  lemma NotQuote(u: Unit, t: string)
    ensures (Escape(u) + t)[0] != '"'
  {
  }

  // ------------------------------------------------------------------------- values

  lemma Starts(w: string, t: string)
    requires w != ""
    ensures w <= w + t && (w + t)[|w|..] == t && (w + t)[0] == w[0]
  {
  }

  lemma ReadWord(v: Value, t: string)
    requires v.Null? || v.Bool?
    ensures ReadValue(Canon(v) + t) == Some((v, t))
  {
    Starts(Canon(v), t);
  }

  lemma NoWord(t: string)
    requires t != "" && t[0] !in "ntf"
    ensures !("null" <= t) && !("true" <= t) && !("false" <= t)
  {
  }

  lemma IntIsRead(n: int)
    ensures ReadNumber(Decimal(n)) == Some(Int(n))
  {
    DecimalFacts(n);
    DecimalSign(n);
    DigitsRead(if n < 0 then -n else n);
    if n < 0 {
      assert Decimal(n)[1..] == Digits(-n);
    }
  }

  lemma NumberIsRead(v: Value, t: string)
    requires Valid(v) && (v.Int? || v.Float?) && Delimited(t)
    ensures ReadValue(Canon(v) + t) == Some((v, t))
  {
    var r := Canon(v);
    if v.Int? {
      DecimalFacts(v.n);
      IntIsRead(v.n);
    }
    Starts(r, t);
    NumberLengthIs(r, t);
    assert (r + t)[..|r|] == r;
  }

  lemma TextIsRead(s: Str, t: string)
    ensures ReadValue(Quote(s) + t) == Some((String(s), t))
  {
    assert (Quote(s) + t)[0] == '"' && (Quote(s) + t)[1..] == Body(s) + t;
    NoWord(Quote(s) + t);
    ReadBody(s, t);
  }

  lemma Bracket(c: string, t: string)
    requires |c| == 1
    ensures c <= c + t && (c + t)[1..] == t
  {
  }

  /** The reader gets every value back from its canonical text, whatever follows that can follow a value. */
  lemma {:induction false} ReadCanon(v: Value, t: string)
    requires Valid(v) && Delimited(t)
    ensures ReadValue(Canon(v) + t) == Some((v, t))
    decreases v, 1
  {
    match v
    case Null => ReadWord(v, t);
    case Bool(b) => ReadWord(v, t);
    case Int(n) => NumberIsRead(v, t);
    case Float(r) => NumberIsRead(v, t);
    case String(s) => TextIsRead(s, t);
    case Array(items) => ArrayIsRead(items, t);
    case Object(members) => ObjectIsRead(members, t);
  }

  lemma {:induction false} ArrayIsRead(items: seq<Value>, t: string)
    requires ValidItems(items)
    ensures ReadValue(Canon(Array(items)) + t) == Some((Array(items), t))
    decreases items, 1
  {
    if items == [] {
      assert Canon(Array(items)) == "[]";
      Starts("[]", t);
    } else {
      var text := Canon(items[0]) + (MoreItems(items[1..]) + t);
      Assoc3("[", Canon(items[0]), MoreItems(items[1..]), t);
      Bracket("[", text);
      CanonStarts(items[0]);
      ItemsAreRead(items, t);
      OpenArray(text, items, t);
    }
  }

  lemma OpenArray(text: string, items: seq<Value>, t: string)
    requires text != "" && text[0] != ']' && ReadItems(text) == Some((items, t))
    ensures ReadValue("[" + text) == Some((Array(items), t))
  {
    Bracket("[", text);
    NoWord("[" + text);
    assert ("[" + text)[1] == text[0];
  }

  lemma {:induction false} ItemsAreRead(items: seq<Value>, t: string)
    requires ValidItems(items) && items != []
    ensures ReadItems(Canon(items[0]) + (MoreItems(items[1..]) + t)) == Some((items, t))
    decreases items, 0
  {
    var more, rest := MoreItems(items[1..]) + t, items[1..];
    ReadCanon(items[0], more);
    if rest == [] {
      Bracket("]", t);
      assert items == [items[0]];
    } else {
      Assoc(",", Canon(rest[0]) + MoreItems(rest[1..]), t);
      Assoc(Canon(rest[0]), MoreItems(rest[1..]), t);
      Bracket(",", Canon(rest[0]) + (MoreItems(rest[1..]) + t));
      ItemsAreRead(rest, t);
      assert items == [items[0]] + rest;
    }
  }

  lemma {:induction false} MemberIsRead(m: (Str, Value), t: string)
    requires ValidMember(m) && Delimited(t)
    ensures ReadMember(Member(m) + t) == Some((m, t))
    decreases m, 2
  {
    var colon := ":" + (Canon(m.1) + t);
    Assoc3(Quote(m.0), ":", Canon(m.1), t);
    assert Quote(m.0) + colon == "\"" + (Body(m.0) + colon);
    Bracket("\"", Body(m.0) + colon);
    ReadBody(m.0, colon);
    Bracket(":", Canon(m.1) + t);
    ReadCanon(m.1, t);
  }

  lemma {:induction false} ObjectIsRead(members: seq<(Str, Value)>, t: string)
    requires ValidMembers(members)
    ensures ReadValue(Canon(Object(members)) + t) == Some((Object(members), t))
    decreases members, 1
  {
    if members == [] {
      assert Canon(Object(members)) == "{}";
      Starts("{}", t);
    } else {
      var text := Member(members[0]) + (MoreMembers(members[1..]) + t);
      Assoc3("{", Member(members[0]), MoreMembers(members[1..]), t);
      MembersAreRead(members, t);
      OpenObject(text, members, t);
    }
  }

  lemma OpenObject(text: string, members: seq<(Str, Value)>, t: string)
    requires text != "" && text[0] != '}' && ReadMembers(text) == Some((members, t))
    ensures ReadValue("{" + text) == Some((Object(members), t))
  {
    Bracket("{", text);
    NoWord("{" + text);
    assert ("{" + text)[1] == text[0];
  }

  lemma {:induction false} MembersAreRead(members: seq<(Str, Value)>, t: string)
    requires ValidMembers(members) && members != []
    ensures ReadMembers(Member(members[0]) + (MoreMembers(members[1..]) + t)) == Some((members, t))
    decreases members, 0
  {
    var more, rest := MoreMembers(members[1..]) + t, members[1..];
    MemberIsRead(members[0], more);
    if rest == [] {
      Bracket("}", t);
      assert members == [members[0]];
    } else {
      Assoc(",", Member(rest[0]) + MoreMembers(rest[1..]), t);
      Assoc(Member(rest[0]), MoreMembers(rest[1..]), t);
      Bracket(",", Member(rest[0]) + (MoreMembers(rest[1..]) + t));
      MembersAreRead(rest, t);
      assert members == [members[0]] + rest;
    }
  }

  /** Reading inverts writing. */
  lemma ReadInvertsCanon(v: Value)
    requires Valid(v)
    ensures ReadValue(Canon(v)) == Some((v, ""))
  {
    ReadCanon(v, "");
    assert Canon(v) + "" == Canon(v);
  }

  // ------------------------------------------------------------------ which text it is

  /** Printable ASCII. */
  predicate Ascii(s: string) {
    forall i :: 0 <= i < |s| ==> ' ' <= s[i] <= '~'
  }

  /** No printable ASCII text that reads as this unit is shorter than its escape, and hexadecimal digits are written in
      lower case: with the reader this leaves no choice. */
  lemma EscapeIsForced(u: Unit, e: string)
    requires ReadUnit(e) == Some((u, |e|))
    ensures Ascii(Escape(u)) && |Escape(u)| <= |e|
    ensures forall i :: 0 <= i < 6 == |Escape(u)| ==> !('A' <= Escape(u)[i] <= 'F')
  {
  }

  lemma {:induction false} BodyIsAscii(s: Str)
    ensures Ascii(Body(s))
  {
    if s != [] {
      BodyIsAscii(s[1..]);
      EscapeIsAscii(s[0]);
    }
  }

  lemma EscapeIsAscii(u: Unit)
    ensures Ascii(Escape(u))
  {
  }

  lemma NumberIsAscii(s: string)
    requires NumberText(s)
    ensures Ascii(s)
  {
  }

  /** The canonical text is printable ASCII, so its bytes are its characters. */
  lemma {:induction false} CanonIsAscii(v: Value)
    requires Valid(v)
    ensures Ascii(Canon(v))
    decreases v, 1
  {
    match v
    case Int(n) =>
      DecimalFacts(n);
      NumberIsAscii(Decimal(n));
    case Float(r) => NumberIsAscii(r);
    case String(s) => BodyIsAscii(s);
    case Array(items) =>
      if items != [] {
        CanonIsAscii(items[0]);
        ItemsAreAscii(items[1..]);
      }
    case Object(members) =>
      if members != [] {
        MemberIsAscii(members[0]);
        MembersAreAscii(members[1..]);
      }
    case _ =>
  }

  lemma {:induction false} ItemsAreAscii(items: seq<Value>)
    requires ValidItems(items)
    ensures Ascii(MoreItems(items))
    decreases items, 0
  {
    if items != [] {
      CanonIsAscii(items[0]);
      ItemsAreAscii(items[1..]);
    }
  }

  lemma {:induction false} MemberIsAscii(m: (Str, Value))
    requires ValidMember(m)
    ensures Ascii(Member(m))
    decreases m, 2
  {
    BodyIsAscii(m.0);
    CanonIsAscii(m.1);
  }

  lemma {:induction false} MembersAreAscii(members: seq<(Str, Value)>)
    requires ValidMembers(members)
    ensures Ascii(MoreMembers(members))
    decreases members, 0
  {
    if members != [] {
      MemberIsAscii(members[0]);
      MembersAreAscii(members[1..]);
    }
  }
}
