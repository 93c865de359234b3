/** Whatever the decoder accepts is a legal encoding of the value it returns, within the depth limit. */
module CborSound {
  import opened Sequences
  import opened Bytes
  import opened Options
  import opened CborWire
  import opened CborDecode
  import opened CborComplete

  /** `w` is what was read from `s` by a call at `depth` that left `rest`. */
  ghost predicate Reads(s: bytes, depth: int, w: Wire, value: Value, rest: bytes) {
    Reading(depth, w, rest) == Some((value, s))
  }

  /** The value and the bytes of a legal item that fits below `depth`, with `rest` after it. */
  function Reading(depth: int, w: Wire, rest: bytes): Option<(Value, bytes)> {
    if Legal(w) && depth + Reach(w) <= MAX_DEPTH then Some((Meaning(w), Enc(w) + rest)) else None
  }

  ghost predicate ReadsAll(s: bytes, depth: int, ws: Wires, values: seq<Value>, rest: bytes) {
    ReadingAll(depth, ws, rest) == Some((values, s))
  }

  function ReadingAll(depth: int, ws: Wires, rest: bytes): Option<(seq<Value>, bytes)> {
    if LegalAll(ws) && depth + Reaches(ws) <= MAX_DEPTH then Some((Meanings(ws), EncAll(ws) + rest)) else None
  }

  ghost predicate ReadsPairs(s: bytes, depth: int, ps: Pairs, updates: seq<(Value, Value)>, rest: bytes) {
    ReadingPairs(depth, ps, rest) == Some((updates, s))
  }

  function ReadingPairs(depth: int, ps: Pairs, rest: bytes): Option<(seq<(Value, Value)>, bytes)> {
    if LegalPairs(ps) && depth + PairReaches(ps) <= MAX_DEPTH then Some((PairMeanings(ps), EncPairs(ps) + rest))
    else None
  }

  ghost predicate ReadsChunks(s: bytes, depth: int, major: int, chunks: seq<Chunk>, content: bytes, rest: bytes) {
    ReadingChunks(depth, major, chunks, rest) == Some((content, s))
  }

  function ReadingChunks(depth: int, major: int, chunks: seq<Chunk>, rest: bytes): Option<(bytes, bytes)> {
    if LegalChunks(major, chunks) && depth < MAX_DEPTH then Some((Joined(chunks), EncChunks(major, chunks) + rest))
    else None
  }

  ghost predicate ReadsChunk(s: bytes, major: int, c: Chunk, content: bytes, rest: bytes) {
    ReadingChunk(major, c, rest) == Some((content, s))
  }

  function ReadingChunk(major: int, c: Chunk, rest: bytes): Option<(bytes, bytes)> {
    if LegalString(major, c.h, c.content) then Some((c.content, HeadBytes(major, c.h) + c.content + rest)) else None
  }

  lemma {:induction false} WireOf(s: bytes, depth: int, allowBreak: bool) returns (w: Wire)
    requires Decode(s, depth, allowBreak).Ok?
    ensures var r := Decode(s, depth, allowBreak); Reads(s, depth, w, r.value, r.rest)
    decreases |s|, 0
  {
    var major, ai := s[0] / 32, s[0] % 32;
    if ai == 31 {
      assert s == [s[0]] + s[1..];
      w := WireOfIndefinite(s[1..], depth, major, allowBreak);
    } else if major == 7 {
      w := WireOfSimple(s, depth, allowBreak);
    } else {
      var a := Argument(s[1..], ai);
      FindHead(s);
      w := WireOfDefinite(a.rest, depth, major, ai, HeadRead(ai, a.val), a.raw);
    }
  }

  lemma WireOfSimple(s: bytes, depth: int, allowBreak: bool) returns (w: Wire)
    requires Decode(s, depth, allowBreak).Ok? && s[0] / 32 == 7 && s[0] % 32 != 31
    ensures var r := Decode(s, depth, allowBreak); Reads(s, depth, w, r.value, r.rest)
  {
    var ai := s[0] % 32;
    assert s == [s[0]] + s[1..];
    if ai in {25, 26, 27} {
      var t := s[1..];
      var raw := t[..Width(ai)];
      assert t == raw + t[Width(ai)..];
      Assoc([s[0]], raw, t[Width(ai)..]);
      w := WFloat(raw);
    } else {
      w := WSimple(ai);
    }
  }

  lemma {:induction false} WireOfDefinite(s: bytes, depth: int, major: nat, ai: nat, h: Head, raw: bytes)
    returns (w: Wire)
    requires major < 7 && LegalHead(h) && depth <= MAX_DEPTH && Definite(s, depth, major, ai, h.arg, raw).Ok?
    ensures var r := Definite(s, depth, major, ai, h.arg, raw);
            Reads(HeadBytes(major, h) + s, depth, w, r.value, r.rest)
    decreases |s|, 3
  {
    var rest := Definite(s, depth, major, ai, h.arg, raw).rest;
    match major
    case 0 => w := WUInt(h);
    case 1 => w := WNInt(h);
    case 4 =>
      var items := ItemsOf(s, depth, h.arg);
      w := HeadItems(h, s, depth, items, Items(s, depth, h.arg).items, rest);
    case 5 =>
      var pairs := PairsOf(s, depth, h.arg);
      w := HeadPairs(h, s, depth, pairs, PairItems(s, depth, h.arg).items, rest);
    case 6 =>
      var item := WireOf(s, depth + 1, false);
      w := HeadTag(h, s, depth, item, rest);
    case _ => w := WireOfString(s, depth, major, ai, h, raw);
  }

  lemma HeadTag(h: Head, s: bytes, depth: int, item: Wire, rest: bytes) returns (w: Wire)
    requires LegalHead(h) && Reads(s, depth + 1, item, Meaning(item), rest)
    ensures Reads(HeadBytes(6, h) + s, depth, w, Meaning(item), rest)
  {
    Assoc(HeadBytes(6, h), Enc(item), rest);
    w := WTag(h, item);
  }

  lemma HeadItems(h: Head, s: bytes, depth: int, ws: Wires, values: seq<Value>, rest: bytes) returns (w: Wire)
    requires LegalHead(h) && h.arg == Count(ws) && ReadsAll(s, depth, ws, values, rest)
    ensures Reads(HeadBytes(4, h) + s, depth, w, Array(values), rest)
  {
    Assoc(HeadBytes(4, h), EncAll(ws), rest);
    w := WArr(h, ws);
  }

  lemma HeadPairs(h: Head, s: bytes, depth: int, ps: Pairs, updates: seq<(Value, Value)>, rest: bytes) returns (w: Wire)
    requires LegalHead(h) && h.arg == CountPairs(ps) && ReadsPairs(s, depth, ps, updates, rest)
    ensures Reads(HeadBytes(5, h) + s, depth, w, Map(updates), rest)
  {
    Assoc(HeadBytes(5, h), EncPairs(ps), rest);
    w := WMap(h, ps);
  }

  lemma WireOfString(s: bytes, depth: int, major: nat, ai: nat, h: Head, raw: bytes) returns (w: Wire)
    requires major in {2, 3} && LegalHead(h) && depth <= MAX_DEPTH && Definite(s, depth, major, ai, h.arg, raw).Ok?
    ensures var r := Definite(s, depth, major, ai, h.arg, raw);
            Reads(HeadBytes(major, h) + s, depth, w, r.value, r.rest)
  {
    var content := s[..h.arg];
    assert s == content + s[h.arg..];
    Assoc(HeadBytes(major, h), content, s[h.arg..]);
    w := WStr(major, h, content);
  }

  lemma {:induction false} WireOfIndefinite(s: bytes, depth: int, major: nat, allowBreak: bool) returns (w: Wire)
    requires depth <= MAX_DEPTH && major < 8 && Indefinite(s, depth, major, allowBreak).Ok?
    ensures var r := Indefinite(s, depth, major, allowBreak);
            Reads([major * 32 + 31] + s, depth, w, r.value, r.rest)
    decreases |s|, 3
  {
    var rest := Indefinite(s, depth, major, allowBreak).rest;
    if major in {2, 3} {
      var chunks := ChunksOf(s, depth, major);
      w := CloseChunks(s, depth, major, chunks, Chunks(s, depth, major).items, rest);
    } else if major == 4 {
      var items := ItemsToBreakOf(s, depth);
      w := CloseItems(s, depth, items, ItemsToBreak(s, depth).items, rest);
    } else {
      var pairs := PairsToBreakOf(s, depth);
      w := ClosePairs(s, depth, pairs, PairsToBreak(s, depth).items, rest);
    }
  }

  lemma CloseChunks(s: bytes, depth: int, major: nat, chunks: seq<Chunk>, content: bytes, rest: bytes) returns (w: Wire)
    requires ReadsChunks(s, depth, major, chunks, content, rest)
    ensures Reads([major * 32 + 31] + s, depth, w, StringValue(major, content), rest)
  {
    Assoc([major * 32 + 31], EncChunks(major, chunks), rest);
    w := WStrIndef(major, chunks);
  }

  lemma CloseItems(s: bytes, depth: int, ws: Wires, values: seq<Value>, rest: bytes) returns (w: Wire)
    requires ReadsAll(s, depth, ws, values, [BREAK] + rest) && depth + 1 <= MAX_DEPTH
    ensures Reads([4 * 32 + 31] + s, depth, w, Array(values), rest)
  {
    Assoc3([4 * 32 + 31], EncAll(ws), [BREAK], rest);
    w := WArrIndef(ws);
  }

  lemma ClosePairs(s: bytes, depth: int, ps: Pairs, updates: seq<(Value, Value)>, rest: bytes) returns (w: Wire)
    requires ReadsPairs(s, depth, ps, updates, [BREAK] + rest) && depth + 1 <= MAX_DEPTH
    ensures Reads([5 * 32 + 31] + s, depth, w, Map(updates), rest)
  {
    Assoc3([5 * 32 + 31], EncPairs(ps), [BREAK], rest);
    w := WMapIndef(ps);
  }

  // ----------------------------------------------------------------- loops

  lemma ConsItem(s: bytes, mid: bytes, depth: int, w: Wire, tail: Wires, values: seq<Value>, rest: bytes)
    returns (ws: Wires)
    requires Reads(s, depth + 1, w, Meaning(w), mid) && ReadsAll(mid, depth, tail, values, rest)
    ensures ws == WCons(w, tail)
    ensures ReadsAll(s, depth, ws, [Meaning(w)] + values, rest)
  {
    Assoc(Enc(w), EncAll(tail), rest);
    ws := WCons(w, tail);
  }

  lemma {:induction false} FirstItem(s: bytes, depth: int, n: nat) returns (w: Wire, mid: bytes)
    requires n > 0 && Items(s, depth, n).Done?
    ensures Reads(s, depth + 1, w, Meaning(w), mid) && |mid| < |s|
    ensures Items(s, depth, n) == Prepend([Meaning(w)], Items(mid, depth, n - 1))
    decreases |s|, 1
  {
    w := WireOf(s, depth + 1, false);
    mid := Decode(s, depth + 1, false).rest;
  }

  lemma {:induction false} ItemsOf(s: bytes, depth: int, n: nat) returns (ws: Wires)
    requires depth <= MAX_DEPTH && Items(s, depth, n).Done?
    ensures var r := Items(s, depth, n); ReadsAll(s, depth, ws, r.items, r.rest)
    ensures Count(ws) == n
    decreases |s|, 2
  {
    if n == 0 {
      ws := WNil;
      assert s == [] + s;
    } else {
      var w, mid := FirstItem(s, depth, n);
      var tail := ItemsOf(mid, depth, n - 1);
      ws := ConsItem(s, mid, depth, w, tail, Items(mid, depth, n - 1).items, Items(s, depth, n).rest);
    }
  }

  lemma ConsPair(s: bytes, mid: bytes, end: bytes, depth: int, k: Wire, v: Wire, tail: Pairs,
                 updates: seq<(Value, Value)>, rest: bytes) returns (ps: Pairs)
    requires Reads(s, depth + 1, k, Meaning(k), mid) && Hashable(Meaning(k))
    requires Reads(mid, depth + 1, v, Meaning(v), end)
    requires ReadsPairs(end, depth, tail, updates, rest)
    ensures ps == PCons(k, v, tail)
    ensures ReadsPairs(s, depth, ps, [(Meaning(k), Meaning(v))] + updates, rest)
  {
    Assoc3(Enc(k), Enc(v), EncPairs(tail), rest);
    ps := PCons(k, v, tail);
  }

  lemma {:induction false} FirstPair(s: bytes, depth: int, n: nat) returns (k: Wire, v: Wire, mid: bytes, end: bytes)
    requires n > 0 && PairItems(s, depth, n).Done?
    ensures Reads(s, depth + 1, k, Meaning(k), mid) && Hashable(Meaning(k))
    ensures Reads(mid, depth + 1, v, Meaning(v), end) && |end| < |s|
    ensures PairItems(s, depth, n) == Prepend([(Meaning(k), Meaning(v))], PairItems(end, depth, n - 1))
    decreases |s|, 1
  {
    k := WireOf(s, depth + 1, false);
    mid := Decode(s, depth + 1, false).rest;
    v := WireOf(mid, depth + 1, false);
    end := Decode(mid, depth + 1, false).rest;
  }

  lemma {:induction false} PairsOf(s: bytes, depth: int, n: nat) returns (ps: Pairs)
    requires depth <= MAX_DEPTH && PairItems(s, depth, n).Done?
    ensures var r := PairItems(s, depth, n); ReadsPairs(s, depth, ps, r.items, r.rest)
    ensures CountPairs(ps) == n
    decreases |s|, 2
  {
    if n == 0 {
      ps := PNil;
      assert s == [] + s;
    } else {
      var k, v, mid, end := FirstPair(s, depth, n);
      var tail := PairsOf(end, depth, n - 1);
      ps := ConsPair(s, mid, end, depth, k, v, tail, PairItems(end, depth, n - 1).items, PairItems(s, depth, n).rest);
    }
  }

  lemma StopIsBreak(s: bytes, depth: int)
    requires Decode(s, depth, true).Stop?
    ensures s == [BREAK] + Decode(s, depth, true).rest && depth <= MAX_DEPTH
  {
  }

  lemma {:induction false} FirstItemToBreak(s: bytes, depth: int) returns (w: Wire, mid: bytes)
    requires !Decode(s, depth + 1, true).Stop? && ItemsToBreak(s, depth).Done?
    ensures Reads(s, depth + 1, w, Meaning(w), mid) && |mid| < |s|
    ensures ItemsToBreak(s, depth) == Prepend([Meaning(w)], ItemsToBreak(mid, depth))
    decreases |s|, 1
  {
    w := WireOf(s, depth + 1, true);
    mid := Decode(s, depth + 1, true).rest;
  }

  lemma {:induction false} ItemsToBreakOf(s: bytes, depth: int) returns (ws: Wires)
    requires ItemsToBreak(s, depth).Done?
    ensures var r := ItemsToBreak(s, depth); ReadsAll(s, depth, ws, r.items, [BREAK] + r.rest)
    ensures depth + 1 <= MAX_DEPTH
    decreases |s|, 2
  {
    if Decode(s, depth + 1, true).Stop? {
      ws := WNil;
      StopIsBreak(s, depth + 1);
      assert s == [] + s;
    } else {
      var w, mid := FirstItemToBreak(s, depth);
      var tail := ItemsToBreakOf(mid, depth);
      var r := ItemsToBreak(mid, depth);
      ws := ConsItem(s, mid, depth, w, tail, r.items, [BREAK] + r.rest);
    }
  }

  lemma {:induction false} FirstPairToBreak(s: bytes, depth: int) returns (k: Wire, v: Wire, mid: bytes, end: bytes)
    requires !Decode(s, depth + 1, true).Stop? && PairsToBreak(s, depth).Done?
    ensures Reads(s, depth + 1, k, Meaning(k), mid) && Hashable(Meaning(k))
    ensures Reads(mid, depth + 1, v, Meaning(v), end) && |end| < |s|
    ensures PairsToBreak(s, depth) == Prepend([(Meaning(k), Meaning(v))], PairsToBreak(end, depth))
    decreases |s|, 1
  {
    k := WireOf(s, depth + 1, true);
    mid := Decode(s, depth + 1, true).rest;
    v := WireOf(mid, depth + 1, false);
    end := Decode(mid, depth + 1, false).rest;
  }

  lemma {:induction false} PairsToBreakOf(s: bytes, depth: int) returns (ps: Pairs)
    requires PairsToBreak(s, depth).Done?
    ensures var r := PairsToBreak(s, depth); ReadsPairs(s, depth, ps, r.items, [BREAK] + r.rest)
    ensures depth + 1 <= MAX_DEPTH
    decreases |s|, 2
  {
    if Decode(s, depth + 1, true).Stop? {
      ps := PNil;
      StopIsBreak(s, depth + 1);
      assert s == [] + s;
    } else {
      var k, v, mid, end := FirstPairToBreak(s, depth);
      var tail := PairsToBreakOf(end, depth);
      var r := PairsToBreak(end, depth);
      ps := ConsPair(s, mid, end, depth, k, v, tail, r.items, [BREAK] + r.rest);
    }
  }

  lemma {:induction false} ChunksOf(s: bytes, depth: int, major: nat) returns (chunks: seq<Chunk>)
    requires major in {2, 3} && Chunks(s, depth, major).Done?
    ensures ReadsChunks(s, depth, major, chunks, Chunks(s, depth, major).items, Chunks(s, depth, major).rest)
    decreases |s|, 1
  {
    var d := Decode(s, depth + 1, true);
    if d.Stop? {
      chunks := [];
      StopIsBreak(s, depth + 1);
    } else {
      var c := ChunkOf(s, depth, major);
      var tail := ChunksOf(d.rest, depth, major);
      Assoc3(HeadBytes(major, c.h), c.content, EncChunks(major, tail), Chunks(s, depth, major).rest);
      Assoc(HeadBytes(major, c.h), c.content, d.rest);
      chunks := [c] + tail;
      assert chunks[1..] == tail;
    }
  }

  /** What reading a chunk takes: its argument, and as many bytes as that says. */
  lemma ChunkTakes(s: bytes, depth: int, major: nat) returns (h: Head, content: bytes, rest: bytes)
    requires major in {2, 3} && ChunkStart(s, major) && Decode(s, depth + 1, true).Ok?
    ensures LegalString(major, h, content) && s == HeadBytes(major, h) + (content + rest)
    ensures Decode(s, depth + 1, true) == Ok(StringValue(major, content), rest)
  {
    var a := Argument(s[1..], s[0] % 32);
    FindHead(s);
    h, content, rest := HeadRead(s[0] % 32, a.val), a.rest[..a.val], a.rest[a.val..];
    assert a.rest == content + rest;
  }

  lemma ChunkOf(s: bytes, depth: int, major: nat) returns (c: Chunk)
    requires major in {2, 3} && ChunkStart(s, major) && Decode(s, depth + 1, true).Ok?
    ensures ReadsChunk(s, major, c, ContentOf(Decode(s, depth + 1, true).value), Decode(s, depth + 1, true).rest)
  {
    var h, content, rest := ChunkTakes(s, depth, major);
    Assoc(HeadBytes(major, h), content, rest);
    c := Chunk(h, content);
  }
}
