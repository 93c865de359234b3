/** The grammar is unambiguous: no legal item is a prefix of another, and the bytes determine the tree. */
module CborUnambiguous {
  import opened Sequences
  import opened Bytes
  import opened CborWire
  import opened CborComplete

  function WireMajor(w: Wire): int {
    match w
    case WUInt(_) => 0
    case WNInt(_) => 1
    case WStr(major, _, _) => major
    case WStrIndef(major, _) => major
    case WArr(_, _) => 4
    case WArrIndef(_) => 4
    case WMap(_, _) => 5
    case WMapIndef(_) => 5
    case WTag(_, _) => 6
    case WSimple(_) => 7
    case WFloat(_) => 7
  }

  predicate Open(w: Wire) {
    w.WStrIndef? || w.WArrIndef? || w.WMapIndef?
  }

  /** The initial byte of an item: its major type, and 31 exactly when its length is indefinite. */
  lemma Initial(w: Wire)
    requires Legal(w)
    ensures 0 <= WireMajor(w) < 8 && Enc(w)[0] / 32 == WireMajor(w)
    ensures Enc(w)[0] % 32 == 31 <==> Open(w)
    ensures Enc(w)[0] != BREAK
  {
  }

  lemma HeadsDiffer(major: int, h: Head, s: bytes, major': int, h': Head, t: bytes)
    requires 0 <= major < 8 && LegalHead(h) && 0 <= major' < 8 && LegalHead(h')
    requires HeadBytes(major, h) + s == HeadBytes(major', h') + t
    ensures major == major' && h == h' && s == t
  {
    ReadHead(major, h, s);
    ReadHead(major', h', t);
    assert |HeadBytes(major, h)| == |HeadBytes(major', h')|;
  }

  lemma {:induction false} Unambiguous(w: Wire, s: bytes, w': Wire, t: bytes)
    requires Legal(w) && Legal(w') && Enc(w) + s == Enc(w') + t
    ensures w == w' && s == t
    decreases w, 2
  {
    assert Enc(w)[0] == (Enc(w) + s)[0] == Enc(w')[0];
    Initial(w);
    Initial(w');
    if Open(w) {
      UnambiguousOpen(w, s, w', t);
    } else if WireMajor(w) == 7 {
      UnambiguousSimple(w, s, w', t);
    } else {
      UnambiguousHeaded(w, s, w', t);
    }
  }

  lemma UnambiguousSimple(w: Wire, s: bytes, w': Wire, t: bytes)
    requires Legal(w) && Legal(w') && Enc(w) + s == Enc(w') + t
    requires (w.WSimple? || w.WFloat?) && (w'.WSimple? || w'.WFloat?)
    ensures w == w' && s == t
  {
    assert Enc(w)[0] == (Enc(w) + s)[0] == Enc(w')[0];
    Split(Enc(w), s, Enc(w'), t);
    if w.WFloat? {
      assert w.ieee == Enc(w)[1..] && w'.ieee == Enc(w')[1..];
    }
  }

  lemma {:induction false} UnambiguousHeaded(w: Wire, s: bytes, w': Wire, t: bytes)
    requires Legal(w) && Legal(w') && Enc(w) + s == Enc(w') + t
    requires !Open(w) && !Open(w') && WireMajor(w) == WireMajor(w') < 7
    ensures w == w' && s == t
    decreases w, 1
  {
    match w
    case WUInt(h) => HeadsDiffer(0, h, s, 0, w'.h, t);
    case WNInt(h) => HeadsDiffer(1, h, s, 1, w'.h, t);
    case WStr(major, h, content) =>
      Assoc(HeadBytes(major, h), content, s);
      Assoc(HeadBytes(major, w'.h), w'.content, t);
      HeadsDiffer(major, h, content + s, major, w'.h, w'.content + t);
      Split(content, s, w'.content, t);
    case WArr(h, items) =>
      Assoc(HeadBytes(4, h), EncAll(items), s);
      Assoc(HeadBytes(4, w'.h), EncAll(w'.items), t);
      HeadsDiffer(4, h, EncAll(items) + s, 4, w'.h, EncAll(w'.items) + t);
      UnambiguousItems(items, s, w'.items, t);
    case WMap(h, pairs) =>
      Assoc(HeadBytes(5, h), EncPairs(pairs), s);
      Assoc(HeadBytes(5, w'.h), EncPairs(w'.pairs), t);
      HeadsDiffer(5, h, EncPairs(pairs) + s, 5, w'.h, EncPairs(w'.pairs) + t);
      UnambiguousPairs(pairs, s, w'.pairs, t);
    case WTag(h, item) =>
      Assoc(HeadBytes(6, h), Enc(item), s);
      Assoc(HeadBytes(6, w'.h), Enc(w'.item), t);
      HeadsDiffer(6, h, Enc(item) + s, 6, w'.h, Enc(w'.item) + t);
      Unambiguous(item, s, w'.item, t);
  }

  lemma {:induction false} UnambiguousOpen(w: Wire, s: bytes, w': Wire, t: bytes)
    requires Legal(w) && Legal(w') && Enc(w) + s == Enc(w') + t
    requires Open(w) && Open(w') && WireMajor(w) == WireMajor(w')
    ensures w == w' && s == t
    decreases w, 1
  {
    match w
    case WStrIndef(major, chunks) =>
      Assoc([major * 32 + 31], EncChunks(major, chunks), s);
      Assoc([major * 32 + 31], EncChunks(major, w'.chunks), t);
      Split([major * 32 + 31], EncChunks(major, chunks) + s, [major * 32 + 31], EncChunks(major, w'.chunks) + t);
      UnambiguousChunks(major, chunks, s, w'.chunks, t);
    case WArrIndef(items) =>
      Assoc3([4 * 32 + 31], EncAll(items), [BREAK], s);
      Assoc3([4 * 32 + 31], EncAll(w'.items), [BREAK], t);
      Split([4 * 32 + 31], EncAll(items) + ([BREAK] + s), [4 * 32 + 31], EncAll(w'.items) + ([BREAK] + t));
      UnambiguousItems(items, [BREAK] + s, w'.items, [BREAK] + t);
      Split([BREAK], s, [BREAK], t);
    case WMapIndef(pairs) =>
      Assoc3([5 * 32 + 31], EncPairs(pairs), [BREAK], s);
      Assoc3([5 * 32 + 31], EncPairs(w'.pairs), [BREAK], t);
      Split([5 * 32 + 31], EncPairs(pairs) + ([BREAK] + s), [5 * 32 + 31], EncPairs(w'.pairs) + ([BREAK] + t));
      UnambiguousPairs(pairs, [BREAK] + s, w'.pairs, [BREAK] + t);
      Split([BREAK], s, [BREAK], t);
  }

  /** Either the count was announced, or the break code says where the items end. */
  lemma {:induction false} UnambiguousItems(ws: Wires, s: bytes, ws': Wires, t: bytes)
    requires LegalAll(ws) && LegalAll(ws') && EncAll(ws) + s == EncAll(ws') + t
    requires Count(ws) == Count(ws') || ([BREAK] <= s && [BREAK] <= t)
    ensures ws == ws' && s == t
    decreases ws, 0
  {
    if ws.WNil? && ws'.WNil? {
      assert [] + s == s && [] + t == t;
    } else if ws.WCons? && ws'.WCons? {
      Assoc(Enc(ws.first), EncAll(ws.rest), s);
      Assoc(Enc(ws'.first), EncAll(ws'.rest), t);
      Unambiguous(ws.first, EncAll(ws.rest) + s, ws'.first, EncAll(ws'.rest) + t);
      UnambiguousItems(ws.rest, s, ws'.rest, t);
    } else if ws.WCons? {
      assert [] + t == t;
      ItemsAreNotBreak(ws, s, t);
    } else {
      assert [] + s == s;
      ItemsAreNotBreak(ws', t, s);
    }
  }

  lemma ItemsAreNotBreak(ws: Wires, s: bytes, t: bytes)
    requires ws.WCons? && LegalAll(ws) && [BREAK] <= t
    ensures EncAll(ws) + s != t
  {
    Initial(ws.first);
    assert (EncAll(ws) + s)[0] == Enc(ws.first)[0];
  }

  lemma {:induction false} UnambiguousPairs(ps: Pairs, s: bytes, ps': Pairs, t: bytes)
    requires LegalPairs(ps) && LegalPairs(ps') && EncPairs(ps) + s == EncPairs(ps') + t
    requires CountPairs(ps) == CountPairs(ps') || ([BREAK] <= s && [BREAK] <= t)
    ensures ps == ps' && s == t
    decreases ps, 0
  {
    if ps.PNil? && ps'.PNil? {
      assert [] + s == s && [] + t == t;
    } else if ps.PCons? && ps'.PCons? {
      var end, end' := EncPairs(ps.rest) + s, EncPairs(ps'.rest) + t;
      Assoc3(Enc(ps.key), Enc(ps.value), EncPairs(ps.rest), s);
      Assoc3(Enc(ps'.key), Enc(ps'.value), EncPairs(ps'.rest), t);
      Unambiguous(ps.key, Enc(ps.value) + end, ps'.key, Enc(ps'.value) + end');
      Unambiguous(ps.value, end, ps'.value, end');
      UnambiguousPairs(ps.rest, s, ps'.rest, t);
    } else if ps.PCons? {
      assert [] + t == t;
      PairsAreNotBreak(ps, s, t);
    } else {
      assert [] + s == s;
      PairsAreNotBreak(ps', t, s);
    }
  }

  lemma PairsAreNotBreak(ps: Pairs, s: bytes, t: bytes)
    requires ps.PCons? && LegalPairs(ps) && [BREAK] <= t
    ensures EncPairs(ps) + s != t
  {
    Initial(ps.key);
    assert (EncPairs(ps) + s)[0] == Enc(ps.key)[0];
  }

  lemma {:induction false} UnambiguousChunks(major: int, cs: seq<Chunk>, s: bytes, cs': seq<Chunk>, t: bytes)
    requires LegalChunks(major, cs) && LegalChunks(major, cs')
    requires EncChunks(major, cs) + s == EncChunks(major, cs') + t
    ensures cs == cs' && s == t
    decreases cs, 0
  {
    if cs == [] && cs' == [] {
      Split([BREAK], s, [BREAK], t);
    } else if cs != [] && cs' != [] {
      var c, c' := cs[0], cs'[0];
      var rest, rest' := EncChunks(major, cs[1..]) + s, EncChunks(major, cs'[1..]) + t;
      Assoc3(HeadBytes(major, c.h), c.content, EncChunks(major, cs[1..]), s);
      Assoc3(HeadBytes(major, c'.h), c'.content, EncChunks(major, cs'[1..]), t);
      FirstChunk(major, c, rest, c', rest');
      UnambiguousChunks(major, cs[1..], s, cs'[1..], t);
      assert cs == [c] + cs[1..] && cs' == [c'] + cs'[1..];
    } else if cs == [] {
      ChunkIsNotBreak(major, cs', t, s);
    } else {
      ChunkIsNotBreak(major, cs, s, t);
    }
  }

  lemma FirstChunk(major: int, c: Chunk, rest: bytes, c': Chunk, rest': bytes)
    requires LegalString(major, c.h, c.content) && LegalString(major, c'.h, c'.content)
    requires HeadBytes(major, c.h) + (c.content + rest) == HeadBytes(major, c'.h) + (c'.content + rest')
    ensures c == c' && rest == rest'
  {
    HeadsDiffer(major, c.h, c.content + rest, major, c'.h, c'.content + rest');
    Split(c.content, rest, c'.content, rest');
  }

  lemma ChunkIsNotBreak(major: int, cs: seq<Chunk>, s: bytes, t: bytes)
    requires LegalChunks(major, cs) && cs != []
    ensures EncChunks(major, cs) + s != [BREAK] + t
  {
    assert (EncChunks(major, cs) + s)[0] == HeadBytes(major, cs[0].h)[0];
  }
}
