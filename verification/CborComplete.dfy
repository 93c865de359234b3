/** Every legal encoding that fits the depth limit is decoded to its meaning. */
module CborComplete {
  import opened Maximum
  import opened Sequences
  import opened Bytes
  import opened CborWire
  import opened CborDecode

  // ------------------------------------------------------- recursion depth

  /** How many levels below its own call decoding `w` recurses. A break code is read by a recursive call,
      so an indefinite-length item reaches one level down even when it is empty. */
  function Reach(w: Wire): nat {
    match w
    case WStrIndef(_, _) => 1
    case WArr(_, items) => Reaches(items)
    case WArrIndef(items) => Max(1, Reaches(items))
    case WMap(_, pairs) => PairReaches(pairs)
    case WMapIndef(pairs) => Max(1, PairReaches(pairs))
    case WTag(_, item) => 1 + Reach(item)
    case _ => 0
  }

  function Reaches(ws: Wires): nat {
    match ws
    case WNil => 0
    case WCons(w, rest) => Max(1 + Reach(w), Reaches(rest))
  }

  function PairReaches(ps: Pairs): nat {
    match ps
    case PNil => 0
    case PCons(k, v, rest) => Max(1 + Reach(k), Max(1 + Reach(v), PairReaches(rest)))
  }

  // ----------------------------------------------------------------- heads

  lemma SplitHead(major: int, h: Head, t: bytes)
    requires 0 <= major < 8 && LegalHead(h)
    ensures var s := HeadBytes(major, h) + t;
            s[0] == major * 32 + HeadInfo(h) && s[1..] == (if h.width == 0 then t else BigEndian(h.arg, h.width) + t)
  {
  }

  function HeadInfo(h: Head): (ai: nat)
    requires LegalHead(h)
    ensures ai < 28
  {
    if h.width == 0 then h.arg else Info(h.width)
  }

  /** After a legal head the decoder is left with its argument and the bytes that follow it. */
  lemma ReadHead(major: int, h: Head, t: bytes)
    requires 0 <= major < 8 && LegalHead(h)
    ensures var s := HeadBytes(major, h) + t;
            s[0] / 32 == major && s[0] % 32 == HeadInfo(h) &&
            var r := Argument(s[1..], s[0] % 32);
            r.Arg? && r.val == h.arg && r.rest == t
  {
    SplitHead(major, h, t);
    if h.width > 0 {
      ReadArgument(h, t);
    }
  }

  lemma ReadArgument(h: Head, t: bytes)
    requires LegalHead(h) && h.width > 0
    ensures Argument(BigEndian(h.arg, h.width) + t, Info(h.width)) == Arg(h.arg, BigEndian(h.arg, h.width), t)
  {
    var s := BigEndian(h.arg, h.width) + t;
    assert s[..h.width] == BigEndian(h.arg, h.width) && s[h.width..] == t;
    UnpackPack(h.arg, h.width);
  }

  /** The head that the decoder has just read. */
  function HeadRead(ai: nat, val: nat): Head
    requires ai < 28
  {
    if ai < 24 then Head(0, val) else Head(Width(ai), val)
  }

  lemma FindArgument(s: bytes, ai: nat)
    requires ai < 31 && Argument(s, ai).Arg?
    ensures ai < 28
    ensures var r := Argument(s, ai);
            var h := HeadRead(ai, r.val);
            LegalHead(h) && HeadInfo(h) == ai && h.arg == r.val &&
            s == (if h.width == 0 then r.rest else BigEndian(h.arg, h.width) + r.rest)
  {
    if 24 <= ai < 28 {
      PackUnpack(s[..Width(ai)]);
      assert s == s[..Width(ai)] + s[Width(ai)..];
    }
  }

  lemma FindHead(s: bytes)
    requires s != [] && s[0] % 32 != 31 && Argument(s[1..], s[0] % 32).Arg?
    ensures s[0] % 32 < 28
    ensures var r := Argument(s[1..], s[0] % 32);
            var h := HeadRead(s[0] % 32, r.val);
            LegalHead(h) && h.arg == r.val && s == HeadBytes(s[0] / 32, h) + r.rest
  {
    FindArgument(s[1..], s[0] % 32);
    var r := Argument(s[1..], s[0] % 32);
    var h := HeadRead(s[0] % 32, r.val);
    SplitHead(s[0] / 32, h, r.rest);
    assert s == [s[0]] + s[1..];
    assert HeadBytes(s[0] / 32, h) + r.rest == [s[0]] + s[1..];
  }

  // ------------------------------------------- every legal encoding is decoded

  lemma DecodeHead(major: int, h: Head, t: bytes, depth: int, allowBreak: bool)
    requires 0 <= major < 7 && LegalHead(h) && depth <= MAX_DEPTH
    ensures Decode(HeadBytes(major, h) + t, depth, allowBreak) == Definite(t, depth, major, 0, h.arg, [])
  {
    ReadHead(major, h, t);
  }

  lemma HeadedItem(major: int, h: Head, body: bytes, t: bytes, depth: int, allowBreak: bool)
    requires 0 <= major < 7 && LegalHead(h) && depth <= MAX_DEPTH
    ensures Decode(HeadBytes(major, h) + body + t, depth, allowBreak) == Definite(body + t, depth, major, 0, h.arg, [])
  {
    Assoc(HeadBytes(major, h), body, t);
    DecodeHead(major, h, body + t, depth, allowBreak);
  }

  lemma OpenItem(major: int, body: bytes, t: bytes, depth: int, allowBreak: bool)
    requires 0 <= major < 8 && depth <= MAX_DEPTH
    ensures Decode([major * 32 + 31] + body + t, depth, allowBreak) == Indefinite(body + t, depth, major, allowBreak)
  {
    Assoc([major * 32 + 31], body, t);
    DecodeOpen(major, body + t, depth, allowBreak);
  }

  lemma DecodesSimple(info: nat, t: bytes, depth: int, allowBreak: bool)
    requires 20 <= info <= 23 && depth <= MAX_DEPTH
    ensures Decode([7 * 32 + info] + t, depth, allowBreak) == Ok(Meaning(WSimple(info)), t)
  {
  }

  lemma DecodeOpen(major: int, t: bytes, depth: int, allowBreak: bool)
    requires 0 <= major < 8 && depth <= MAX_DEPTH
    ensures Decode([major * 32 + 31] + t, depth, allowBreak) == Indefinite(t, depth, major, allowBreak)
  {
  }

  lemma {:induction false} DecodesLegal(w: Wire, t: bytes, depth: int, allowBreak: bool)
    requires Legal(w) && depth + Reach(w) <= MAX_DEPTH
    ensures Decode(Enc(w) + t, depth, allowBreak) == Ok(Meaning(w), t)
    decreases w, 4
  {
    match w
    case WArr(h, items) =>
      DecodesItems(items, t, depth);
      HeadedItem(4, h, EncAll(items), t, depth, allowBreak);
    case WMap(h, pairs) =>
      DecodesPairs(pairs, t, depth);
      HeadedItem(5, h, EncPairs(pairs), t, depth, allowBreak);
    case WTag(h, item) =>
      DecodesLegal(item, t, depth + 1, false);
      HeadedItem(6, h, Enc(item), t, depth, allowBreak);
    case WStrIndef(_, _) => DecodesIndefinite(w, t, depth, allowBreak);
    case WArrIndef(_) => DecodesIndefinite(w, t, depth, allowBreak);
    case WMapIndef(_) => DecodesIndefinite(w, t, depth, allowBreak);
    case _ => DecodesAtom(w, t, depth, allowBreak);
  }

  lemma {:induction false} DecodesIndefinite(w: Wire, t: bytes, depth: int, allowBreak: bool)
    requires Legal(w) && depth + Reach(w) <= MAX_DEPTH && (w.WStrIndef? || w.WArrIndef? || w.WMapIndef?)
    ensures Decode(Enc(w) + t, depth, allowBreak) == Ok(Meaning(w), t)
    decreases w, 3
  {
    DecodeOpen(7, t, depth + 1, true);
    match w
    case WStrIndef(major, chunks) =>
      DecodesChunks(major, chunks, t, depth);
      OpenItem(major, EncChunks(major, chunks), t, depth, allowBreak);
    case WArrIndef(items) =>
      DecodesItemsToBreak(items, [BREAK] + t, t, depth);
      Assoc(EncAll(items), [BREAK], t);
      OpenItem(4, EncAll(items) + [BREAK], t, depth, allowBreak);
    case WMapIndef(pairs) =>
      DecodesPairsToBreak(pairs, [BREAK] + t, t, depth);
      Assoc(EncPairs(pairs), [BREAK], t);
      OpenItem(5, EncPairs(pairs) + [BREAK], t, depth, allowBreak);
  }

  lemma DecodesAtom(w: Wire, t: bytes, depth: int, allowBreak: bool)
    requires Legal(w) && depth <= MAX_DEPTH && (w.WUInt? || w.WNInt? || w.WStr? || w.WSimple? || w.WFloat?)
    ensures Decode(Enc(w) + t, depth, allowBreak) == Ok(Meaning(w), t)
  {
    match w
    case WUInt(h) => DecodeHead(0, h, t, depth, allowBreak);
    case WNInt(h) => DecodeHead(1, h, t, depth, allowBreak);
    case WStr(major, h, content) => DecodesString(major, h, content, t, depth, allowBreak);
    case WSimple(info) => DecodesSimple(info, t, depth, allowBreak);
    case WFloat(ieee) => DecodesFloat(ieee, t, depth, allowBreak);
  }

  lemma DecodesFloat(ieee: bytes, t: bytes, depth: int, allowBreak: bool)
    requires |ieee| in {2, 4, 8} && depth <= MAX_DEPTH
    ensures Decode([7 * 32 + Info(|ieee|)] + ieee + t, depth, allowBreak) == Ok(Float(ieee), t)
  {
    var s := [7 * 32 + Info(|ieee|)] + ieee + t;
    assert s[1..] == ieee + t;
    assert (ieee + t)[..|ieee|] == ieee && (ieee + t)[|ieee|..] == t;
  }

  lemma DecodesString(major: int, h: Head, content: bytes, t: bytes, depth: int, allowBreak: bool)
    requires LegalString(major, h, content) && depth <= MAX_DEPTH
    ensures Decode(HeadBytes(major, h) + content + t, depth, allowBreak) == Ok(StringValue(major, content), t)
  {
    Assoc(HeadBytes(major, h), content, t);
    DecodeHead(major, h, content + t, depth, allowBreak);
    assert (content + t)[..|content|] == content && (content + t)[|content|..] == t;
  }

  lemma {:induction false} DecodesItems(ws: Wires, t: bytes, depth: int)
    requires LegalAll(ws) && depth + Reaches(ws) <= MAX_DEPTH
    ensures Items(EncAll(ws) + t, depth, Count(ws)) == Done(Meanings(ws), t)
    decreases ws, 0
  {
    match ws
    case WNil => assert [] + t == t;
    case WCons(w, rest) =>
      DecodesLegal(w, EncAll(rest) + t, depth + 1, false);
      DecodesItems(rest, t, depth);
      Assoc(Enc(w), EncAll(rest), t);
      ItemStep(Enc(w) + (EncAll(rest) + t), EncAll(rest) + t, depth, Count(rest));
  }

  lemma ItemStep(s: bytes, mid: bytes, depth: int, n: nat)
    requires Decode(s, depth + 1, false).Ok? && Decode(s, depth + 1, false).rest == mid
    ensures Items(s, depth, n + 1) == Prepend([Decode(s, depth + 1, false).value], Items(mid, depth, n))
  {
  }

  lemma {:induction false} DecodesItemsToBreak(ws: Wires, end: bytes, t: bytes, depth: int)
    requires LegalAll(ws) && depth + Reaches(ws) <= MAX_DEPTH && Decode(end, depth + 1, true) == Stop(t)
    ensures ItemsToBreak(EncAll(ws) + end, depth) == Done(Meanings(ws), t)
    decreases ws, 0
  {
    match ws
    case WNil => assert [] + end == end;
    case WCons(w, rest) =>
      DecodesLegal(w, EncAll(rest) + end, depth + 1, true);
      DecodesItemsToBreak(rest, end, t, depth);
      Assoc(Enc(w), EncAll(rest), end);
  }

  lemma {:induction false} DecodesFirstPair(ps: Pairs, s: bytes, depth: int)
    requires ps.PCons? && LegalPairs(ps) && depth + PairReaches(ps) <= MAX_DEPTH
    ensures PairItems(Enc(ps.key) + (Enc(ps.value) + s), depth, CountPairs(ps)) ==
            Prepend([(Meaning(ps.key), Meaning(ps.value))], PairItems(s, depth, CountPairs(ps.rest)))
    decreases ps, 0
  {
    DecodesLegal(ps.key, Enc(ps.value) + s, depth + 1, false);
    DecodesLegal(ps.value, s, depth + 1, false);
    PairStep(Enc(ps.key) + (Enc(ps.value) + s), Enc(ps.value) + s, s, depth, CountPairs(ps.rest));
  }

  lemma PairStep(s: bytes, mid: bytes, end: bytes, depth: int, n: nat)
    requires Decode(s, depth + 1, false).Ok? && Decode(s, depth + 1, false).rest == mid
    requires Decode(mid, depth + 1, false).Ok? && Decode(mid, depth + 1, false).rest == end
    requires Hashable(Decode(s, depth + 1, false).value)
    ensures PairItems(s, depth, n + 1) ==
            Prepend([(Decode(s, depth + 1, false).value, Decode(mid, depth + 1, false).value)],
                    PairItems(end, depth, n))
  {
  }

  lemma {:induction false} DecodesFirstPairToBreak(ps: Pairs, s: bytes, depth: int)
    requires ps.PCons? && LegalPairs(ps) && depth + PairReaches(ps) <= MAX_DEPTH
    ensures PairsToBreak(Enc(ps.key) + (Enc(ps.value) + s), depth) ==
            Prepend([(Meaning(ps.key), Meaning(ps.value))], PairsToBreak(s, depth))
    decreases ps, 0
  {
    DecodesLegal(ps.key, Enc(ps.value) + s, depth + 1, true);
    DecodesLegal(ps.value, s, depth + 1, false);
    PairToBreakStep(Enc(ps.key) + (Enc(ps.value) + s), Enc(ps.value) + s, s, depth);
  }

  lemma PairToBreakStep(s: bytes, mid: bytes, end: bytes, depth: int)
    requires Decode(s, depth + 1, true).Ok? && Decode(s, depth + 1, true).rest == mid
    requires Decode(mid, depth + 1, false).Ok? && Decode(mid, depth + 1, false).rest == end
    requires Hashable(Decode(s, depth + 1, true).value)
    ensures PairsToBreak(s, depth) ==
            Prepend([(Decode(s, depth + 1, true).value, Decode(mid, depth + 1, false).value)], PairsToBreak(end, depth))
  {
  }

  lemma {:induction false} DecodesPairs(ps: Pairs, t: bytes, depth: int)
    requires LegalPairs(ps) && depth + PairReaches(ps) <= MAX_DEPTH
    ensures PairItems(EncPairs(ps) + t, depth, CountPairs(ps)) == Done(PairMeanings(ps), t)
    decreases ps, 1
  {
    match ps
    case PNil => assert [] + t == t;
    case PCons(k, v, rest) =>
      DecodesFirstPair(ps, EncPairs(rest) + t, depth);
      DecodesPairs(rest, t, depth);
      Assoc3(Enc(k), Enc(v), EncPairs(rest), t);
  }

  lemma {:induction false} DecodesPairsToBreak(ps: Pairs, end: bytes, t: bytes, depth: int)
    requires LegalPairs(ps) && depth + PairReaches(ps) <= MAX_DEPTH && Decode(end, depth + 1, true) == Stop(t)
    ensures PairsToBreak(EncPairs(ps) + end, depth) == Done(PairMeanings(ps), t)
    decreases ps, 1
  {
    match ps
    case PNil => assert [] + end == end;
    case PCons(k, v, rest) =>
      DecodesFirstPairToBreak(ps, EncPairs(rest) + end, depth);
      DecodesPairsToBreak(rest, end, t, depth);
      Assoc3(Enc(k), Enc(v), EncPairs(rest), end);
  }

  lemma ChunkStep(major: int, c: Chunk, t: bytes, depth: int)
    requires LegalString(major, c.h, c.content) && depth + 1 <= MAX_DEPTH
    ensures Chunks(HeadBytes(major, c.h) + (c.content + t), depth, major) == Prepend(c.content, Chunks(t, depth, major))
  {
    var s := HeadBytes(major, c.h) + (c.content + t);
    ReadHead(major, c.h, c.content + t);
    Assoc(HeadBytes(major, c.h), c.content, t);
    DecodesString(major, c.h, c.content, t, depth + 1, true);
    assert ChunkStart(s, major);
    assert Decode(s, depth + 1, true) == Ok(StringValue(major, c.content), t);
  }

  lemma {:induction false} DecodesChunks(major: int, chunks: seq<Chunk>, t: bytes, depth: int)
    requires LegalChunks(major, chunks) && depth + 1 <= MAX_DEPTH
    ensures major in {2, 3}
    ensures Chunks(EncChunks(major, chunks) + t, depth, major) == Done(Joined(chunks), t)
    decreases chunks, 0
  {
    if chunks == [] {
      assert [BREAK] + t == [7 * 32 + 31] + t;
      DecodeOpen(7, t, depth + 1, true);
    } else {
      var c, rest := chunks[0], EncChunks(major, chunks[1..]);
      ChunkStep(major, c, rest + t, depth);
      DecodesChunks(major, chunks[1..], t, depth);
      Assoc3(HeadBytes(major, c.h), c.content, rest, t);
    }
  }
}
