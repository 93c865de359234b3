/** What `_cbor_decode` accepts, exactly. */
module CborExact {
  import opened Maximum
  import opened Bytes
  import opened Options
  import opened CborWire
  import opened CborDecode
  import opened CborComplete
  import opened CborSound
  import opened CborUnambiguous
  import opened CborFloat
  import Utf8

  /** A value comes back if and only if the input starts with a legal encoding of it that fits. */
  lemma DecodeExact(s: bytes, depth: int, allowBreak: bool, value: Value, rest: bytes)
    ensures Decode(s, depth, allowBreak) == Ok(value, rest) <==> exists w :: Reads(s, depth, w, value, rest)
  {
    if Decode(s, depth, allowBreak) == Ok(value, rest) {
      var w := WireOf(s, depth, allowBreak);
      assert Reads(s, depth, w, value, rest);
    }
    if w :| Reads(s, depth, w, value, rest) {
      DecodesLegal(w, rest, depth, allowBreak);
    }
  }

  /** The break marker comes back if and only if it was allowed and is the next byte. */
  lemma StopExact(s: bytes, depth: int, allowBreak: bool, rest: bytes)
    ensures Decode(s, depth, allowBreak) == Stop(rest) <==>
            allowBreak && depth <= 64 && s == [0xFF] + rest
  {
  }

  // ---------------------------------------------------- the depth limit, exactly

  lemma {:induction false} ReachIsHeight(w: Wire, n: nat)
    ensures Reach(w) <= n <==> Height(w) <= n && !IndefiniteAt(w, n)
    decreases w
  {
    match w
    case WArr(_, items) => ReachesIsHeights(items, n);
    case WArrIndef(items) => ReachesIsHeights(items, n);
    case WMap(_, pairs) => PairReachesIsHeights(pairs, n);
    case WMapIndef(pairs) => PairReachesIsHeights(pairs, n);
    case WTag(_, item) => if n > 0 { ReachIsHeight(item, n - 1); }
    case _ =>
  }

  lemma {:induction false} ReachesIsHeights(ws: Wires, n: nat)
    ensures Reaches(ws) <= n <==> Heights(ws) <= n && !(n > 0 && IndefiniteIn(ws, n - 1))
    decreases ws
  {
    if ws.WCons? && n > 0 {
      ReachIsHeight(ws.first, n - 1);
      ReachesIsHeights(ws.rest, n);
    }
  }

  lemma {:induction false} PairReachesIsHeights(ps: Pairs, n: nat)
    ensures PairReaches(ps) <= n <==> PairHeights(ps) <= n && !(n > 0 && IndefiniteInPairs(ps, n - 1))
    decreases ps
  {
    if ps.PCons? && n > 0 {
      ReachIsHeight(ps.key, n - 1);
      ReachIsHeight(ps.value, n - 1);
      PairReachesIsHeights(ps.rest, n);
    }
  }

  /** Every legal encoding is decoded to its meaning and to nothing else when it nests at most 64 levels and has
      no item of indefinite length at level 64; every other one is refused. */
  lemma LegalEncodingDecodes(w: Wire, t: bytes)
    requires Legal(w)
    ensures if Height(w) <= 64 && !IndefiniteAt(w, 64) then
              Decode(Enc(w) + t, 0, false) == Ok(Meaning(w), t)
            else Decode(Enc(w) + t, 0, false).Err?
  {
    ReachIsHeight(w, 64);
    if Reach(w) <= 64 {
      DecodesLegal(w, t, 0, false);
    } else if Decode(Enc(w) + t, 0, false).Ok? {
      var r := Decode(Enc(w) + t, 0, false);
      var w' := WireOf(Enc(w) + t, 0, false);
      Unambiguous(w', r.rest, w, t);
    }
  }

  function Nested(n: nat, w: Wire): Wire {
    if n == 0 then w else WArr(Head(0, 1), WCons(Nested(n - 1, w), WNil))
  }

  lemma {:induction false} NestedFacts(n: nat, w: Wire)
    requires Legal(w) && Height(w) == 0
    ensures Legal(Nested(n, w)) && Height(Nested(n, w)) == n
    ensures IndefiniteAt(Nested(n, w), n) <==> IndefiniteAt(w, 0)
  {
    if n > 0 {
      NestedFacts(n - 1, w);
      var inner := WCons(Nested(n - 1, w), WNil);
      assert Heights(inner) == Max(n, 0) && Count(inner) == 1 && LegalAll(inner);
      assert IndefiniteIn(inner, n - 1) <==> IndefiniteAt(Nested(n - 1, w), n - 1);
    }
  }

  lemma {:induction false} NestedMeaning(n: nat, w: Wire, w': Wire)
    requires Meaning(w) == Meaning(w')
    ensures Meaning(Nested(n, w)) == Meaning(Nested(n, w'))
  {
    if n > 0 {
      NestedMeaning(n - 1, w, w');
    }
  }

  /** Nesting at most 64 levels is not enough: an empty array in 64 arrays is accepted when its length is
      definite and refused when it is indefinite, although both encode the same value. */
  lemma EmptyIndefiniteArrayAtLimit(t: bytes)
    ensures var definite, indefinite := Nested(MAX_DEPTH, WArr(Head(0, 0), WNil)), Nested(MAX_DEPTH, WArrIndef(WNil));
            Legal(definite) && Legal(indefinite) && Height(definite) == Height(indefinite) == MAX_DEPTH &&
            Meaning(definite) == Meaning(indefinite) &&
            Decode(Enc(definite) + t, 0, false).Ok? && Decode(Enc(indefinite) + t, 0, false).Err?
  {
    NestedFacts(MAX_DEPTH, WArr(Head(0, 0), WNil));
    NestedFacts(MAX_DEPTH, WArrIndef(WNil));
    NestedMeaning(MAX_DEPTH, WArr(Head(0, 0), WNil), WArrIndef(WNil));
    LegalEncodingDecodes(Nested(MAX_DEPTH, WArr(Head(0, 0), WNil)), t);
    LegalEncodingDecodes(Nested(MAX_DEPTH, WArrIndef(WNil)), t);
  }

  /** Reading a decoded map: the value of the last pair whose key answers, and None exactly when no key does or the
      last one that does holds None. */
  lemma {:induction false} LastWriteWins(updates: seq<(Value, Value)>, key: Value)
    requires key.Int? || key.Text? || key.Bytes?
    ensures forall i :: 0 <= i < |updates| && Answers(updates[i].0, key) &&
                        (forall j :: i < j < |updates| ==> !Answers(updates[j].0, key)) ==>
              DictGet(updates, key) == updates[i].1
    ensures (forall i :: 0 <= i < |updates| ==> !Answers(updates[i].0, key)) ==> DictGet(updates, key) == Null
  {
    if updates != [] {
      LastWriteWins(updates[..|updates| - 1], key);
    }
  }

  /** The algorithm identifier is looked up under 1: a header that stores it under true, or under the float 1.0,
      answers as well. */
  lemma OneHasManyNames(v: Value)
    ensures DictGet([(Int(1), v)], Int(1)) == DictGet([(Bool(true), v)], Int(1)) == v
    ensures DictGet([(Float([0x3C, 0x00]), v)], Int(1)) == v
  {
    assert Pow2(10) == 1024 && Pow2(5) == 32 && Pow2(4) == 16 by {
      assert Pow2(8) == 256 && Pow2(4) == 16;
    }
    var half: bytes := [0x3C, 0x00];
    assert half[..1] == [0x3C] && half[..1][..0] == [];
    Formats(half, 5, 10);
    FieldsOf(15360, 15, 0, 15, 0, 5, 10);
    OneIs(5, 10);
  }

  // ------------------------------------------------------------ what Python accepts

  /** A text string is accepted exactly when its bytes encode some sequence of scalar values. */
  lemma TextIsUtf8(h: Head, content: bytes, t: bytes, depth: nat, allowBreak: bool)
    requires LegalHead(h) && h.arg == |content| && depth <= MAX_DEPTH
    ensures Decode(HeadBytes(3, h) + content + t, depth, allowBreak) ==
            if exists text :: Utf8.EncodeText(text) == content then Ok(Text(content), t) else Err(InvalidUtf8)
  {
    HeadedItem(3, h, content, t, depth, allowBreak);
    Utf8.ValidExactly(content);
    assert (content + t)[..|content|] == content && (content + t)[|content|..] == t;
  }

  lemma OnePair(s: bytes, k: Value, mid: bytes, v: Value, t: bytes)
    requires Decode(s, 1, false) == Ok(k, mid) && Decode(mid, 1, false) == Ok(v, t)
    ensures PairItems(s, 0, 1) == if k.Array? || k.Map? then Failed(BadMapKey) else Done([(k, v)], t)
  {
    assert PairItems(t, 0, 0) == Done([], t);
    assert [(k, v)] + [] == [(k, v)];
  }

  /** A map of one pair is accepted exactly when its key is no list and no map. */
  lemma KeysAreScalars(k: Wire, v: Wire, t: bytes)
    requires Legal(k) && Legal(v) && Reach(k) < MAX_DEPTH && Reach(v) < MAX_DEPTH
    ensures Decode([0xA1] + (Enc(k) + (Enc(v) + t)), 0, false) ==
            if Meaning(k).Array? || Meaning(k).Map? then Err(BadMapKey) else Ok(Map([(Meaning(k), Meaning(v))]), t)
  {
    var s := Enc(k) + (Enc(v) + t);
    DecodesLegal(k, Enc(v) + t, 1, false);
    DecodesLegal(v, t, 1, false);
    OnePair(s, Meaning(k), Enc(v) + t, Meaning(v), t);
    DecodeHead(5, Head(0, 1), s, 0, false);
    assert HeadBytes(5, Head(0, 1)) == [0xA1];
  }
}
