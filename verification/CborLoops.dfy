/** `_cbor_decode` as written: an index advanced through the buffer, lists filled in loops. */
module CborLoops {
  import opened Bytes
  import opened CborWire
  import opened CborDecode
  import opened CborSound
  import opened CborExact
  import opened Options

  /** `(value, next_index)`, `(_BREAK, next_index)` or a raised error. */
  datatype Outcome = Item(value: Value, next: nat) | BreakCode(next: nat) | Raised(error: Error)

  /** The outcome at index `next` says what the function says about the bytes left over. */
  ghost predicate Same(buf: bytes, r: Outcome, d: Result) {
    match r
    case Item(v, next) => next <= |buf| && d == Ok(v, buf[next..])
    case BreakCode(next) => next <= |buf| && d == Stop(buf[next..])
    case Raised(e) => d == Err(e)
  }

  method DecodeAt(buf: bytes, start: nat, depth: int, allowBreak: bool) returns (r: Outcome)
    requires start <= |buf|
    ensures Same(buf, r, Decode(buf[start..], depth, allowBreak))
    ensures !r.Raised? ==> start < r.next
    decreases |buf| - start, 0
  {
    var i := start;
    ghost var s := buf[start..];
    if depth > MAX_DEPTH { return Raised(TooDeep); }
    if i >= |buf| { return Raised(Truncated); }
    var ib := buf[i];
    var major, ai := ib / 32, ib % 32;
    i := i + 1;
    assert s[0] == ib && s[1..] == buf[i..];
    if ai == 31 {
      r := IndefiniteLength(buf, i, depth, major, allowBreak);
      return;
    }
    if 24 <= ai <= 27 && i + Width(ai) > |buf| { return Raised(TruncatedArgument); }
    var val: nat;
    ghost var raw: bytes := [];
    if ai < 24 {
      val := ai;
    } else if ai <= 27 {
      val := FromBigEndian(buf[i..i + Width(ai)]);
      raw := buf[i..i + Width(ai)];
      assert buf[i..][..Width(ai)] == raw && buf[i..][Width(ai)..] == buf[i + Width(ai)..];
      i := i + Width(ai);
    } else {
      return Raised(ReservedInfo);
    }
    assert Argument(s[1..], ai) == Arg(val, raw, buf[i..]);
    r := DefiniteLength(buf, i, depth, major, ai, val, raw);
  }

  method IndefiniteLength(buf: bytes, i: nat, depth: int, major: nat, allowBreak: bool) returns (r: Outcome)
    requires i <= |buf|
    ensures Same(buf, r, Indefinite(buf[i..], depth, major, allowBreak))
    ensures !r.Raised? ==> i <= r.next
    decreases |buf| - i, 2
  {
    if major == 7 {
      r := if allowBreak then BreakCode(i) else Raised(UnexpectedBreak);
    } else if major in {2, 3} {
      var content, next, e := ReadChunks(buf, i, depth, major);
      r := if e.Some? then Raised(e.value) else Item(StringValue(major, content), next);
    } else if major == 4 {
      var items, next, e := ReadItemsToBreak(buf, i, depth);
      r := if e.Some? then Raised(e.value) else Item(Array(items), next);
    } else if major == 5 {
      var updates, next, e := ReadPairsToBreak(buf, i, depth);
      r := if e.Some? then Raised(e.value) else Item(Map(updates), next);
    } else {
      r := Raised(IndefiniteNotAllowed);
    }
  }

  method DefiniteLength(buf: bytes, i: nat, depth: int, major: nat, ai: nat, val: nat, ghost raw: bytes)
    returns (r: Outcome)
    requires i <= |buf|
    requires ai in {25, 26, 27} ==> Width(ai) <= i && buf[i - Width(ai)..i] == raw
    ensures Same(buf, r, Definite(buf[i..], depth, major, ai, val, raw))
    ensures !r.Raised? ==> r.Item? && i <= r.next
    decreases |buf| - i, 2
  {
    if major == 0 { return Item(Int(val), i); }
    if major == 1 { return Item(Int(-1 - val), i); }
    if major in {2, 3} {
      r := TakeString(buf, i, depth, major, ai, val, raw);
      return;
    }
    if major == 4 {
      var items, next, e := ReadItems(buf, i, depth, val);
      return if e.Some? then Raised(e.value) else Item(Array(items), next);
    }
    if major == 5 {
      var updates, next, e := ReadPairs(buf, i, depth, val);
      return if e.Some? then Raised(e.value) else Item(Map(updates), next);
    }
    if major == 6 {
      r := DecodeAt(buf, i, depth + 1, false);
      return;
    }
    if ai == 20 { return Item(Bool(false), i); }
    if ai == 21 { return Item(Bool(true), i); }
    if ai == 22 || ai == 23 { return Item(Null, i); }
    if ai in {25, 26, 27} { return Item(Float(buf[i - Width(ai)..i]), i); }
    return Raised(UnsupportedSimple);
  }

  method TakeString(buf: bytes, i: nat, depth: int, major: nat, ai: nat, val: nat, ghost raw: bytes)
    returns (r: Outcome)
    requires i <= |buf| && major in {2, 3}
    ensures Same(buf, r, Definite(buf[i..], depth, major, ai, val, raw))
    ensures !r.Raised? ==> r.Item? && i <= r.next
  {
    if i + val > |buf| { return Raised(TruncatedString); }
    assert buf[i..][..val] == buf[i..i + val] && buf[i..][val..] == buf[i + val..];
    if major == 2 { return Item(Bytes(buf[i..i + val]), i + val); }
    if !ValidUtf8(buf[i..i + val]) { return Raised(InvalidUtf8); }
    return Item(Text(buf[i..i + val]), i + val);
  }

  // ----------------------------------------------------------------- loops

  /** The loop collected `xs` up to `next` without an error, or stopped with the error `e`. */
  ghost predicate SameMany<T>(buf: bytes, start: nat, xs: seq<T>, next: nat, e: Option<Error>, d: Many<T>) {
    match e
    case Some(error) => d == Failed(error)
    case None => start <= next <= |buf| && d == Done(xs, buf[next..])
  }

  lemma PrependTwice<T>(xs: seq<T>, ys: seq<T>, m: Many<T>)
    ensures Prepend(xs, Prepend(ys, m)) == Prepend(xs + ys, m)
  {
  }

  method ReadChunks(buf: bytes, start: nat, depth: int, major: nat) returns (chunks: bytes, i: nat, e: Option<Error>)
    requires start <= |buf| && major in {2, 3}
    ensures SameMany(buf, start, chunks, i, e, Chunks(buf[start..], depth, major))
    decreases |buf| - start, 1
  {
    chunks, i := [], start;
    while true
      invariant start <= i <= |buf|
      invariant Chunks(buf[start..], depth, major) == Prepend(chunks, Chunks(buf[i..], depth, major))
      decreases |buf| - i
    {
      if i < |buf| && buf[i] != BREAK {
        if buf[i] / 32 != major || buf[i] % 32 == 31 { return chunks, i, Some(BadChunk); }
      }
      assert ChunkStart(buf[i..], major);
      var item := DecodeAt(buf, i, depth + 1, true);
      if item.Raised? { return chunks, i, Some(item.error); }
      if item.BreakCode? { return chunks, item.next, None; }
      PrependTwice(chunks, ContentOf(item.value), Chunks(buf[item.next..], depth, major));
      chunks, i := chunks + ContentOf(item.value), item.next;
    }
  }

  method ReadItemsToBreak(buf: bytes, start: nat, depth: int) returns (out: seq<Value>, i: nat, e: Option<Error>)
    requires start <= |buf|
    ensures SameMany(buf, start, out, i, e, ItemsToBreak(buf[start..], depth))
    decreases |buf| - start, 1
  {
    out, i := [], start;
    while true
      invariant start <= i <= |buf|
      invariant ItemsToBreak(buf[start..], depth) == Prepend(out, ItemsToBreak(buf[i..], depth))
      decreases |buf| - i
    {
      var item := DecodeAt(buf, i, depth + 1, true);
      if item.Raised? { return out, i, Some(item.error); }
      if item.BreakCode? { return out, item.next, None; }
      PrependTwice(out, [item.value], ItemsToBreak(buf[item.next..], depth));
      out, i := out + [item.value], item.next;
    }
  }

  method ReadPairsToBreak(buf: bytes, start: nat, depth: int)
    returns (out: seq<(Value, Value)>, i: nat, e: Option<Error>)
    requires start <= |buf|
    ensures SameMany(buf, start, out, i, e, PairsToBreak(buf[start..], depth))
    decreases |buf| - start, 1
  {
    out, i := [], start;
    while true
      invariant start <= i <= |buf|
      invariant PairsToBreak(buf[start..], depth) == Prepend(out, PairsToBreak(buf[i..], depth))
      decreases |buf| - i
    {
      var k := DecodeAt(buf, i, depth + 1, true);
      if k.Raised? { return out, i, Some(k.error); }
      if k.BreakCode? { return out, k.next, None; }
      var v := DecodeAt(buf, k.next, depth + 1, false);
      if v.Raised? { return out, i, Some(v.error); }
      if !Hashable(k.value) { return out, i, Some(BadMapKey); }
      PrependTwice(out, [(k.value, v.value)], PairsToBreak(buf[v.next..], depth));
      out, i := out + [(k.value, v.value)], v.next;
    }
  }

  method ReadItems(buf: bytes, start: nat, depth: int, n: nat) returns (out: seq<Value>, i: nat, e: Option<Error>)
    requires start <= |buf|
    ensures SameMany(buf, start, out, i, e, Items(buf[start..], depth, n))
    decreases |buf| - start, 1
  {
    out, i := [], start;
    for done := 0 to n
      invariant start <= i <= |buf|
      invariant Items(buf[start..], depth, n) == Prepend(out, Items(buf[i..], depth, n - done))
    {
      var item := DecodeAt(buf, i, depth + 1, false);
      if item.Raised? { return out, i, Some(item.error); }
      PrependTwice(out, [item.value], Items(buf[item.next..], depth, n - done - 1));
      out, i := out + [item.value], item.next;
    }
    e := None;
  }

  method ReadPairs(buf: bytes, start: nat, depth: int, n: nat)
    returns (out: seq<(Value, Value)>, i: nat, e: Option<Error>)
    requires start <= |buf|
    ensures SameMany(buf, start, out, i, e, PairItems(buf[start..], depth, n))
    decreases |buf| - start, 1
  {
    out, i := [], start;
    for done := 0 to n
      invariant start <= i <= |buf|
      invariant PairItems(buf[start..], depth, n) == Prepend(out, PairItems(buf[i..], depth, n - done))
    {
      var k := DecodeAt(buf, i, depth + 1, false);
      if k.Raised? { return out, i, Some(k.error); }
      var v := DecodeAt(buf, k.next, depth + 1, false);
      if v.Raised? { return out, i, Some(v.error); }
      if !Hashable(k.value) { return out, i, Some(BadMapKey); }
      PrependTwice(out, [(k.value, v.value)], PairItems(buf[v.next..], depth, n - done - 1));
      out, i := out + [(k.value, v.value)], v.next;
    }
    e := None;
  }

  /** How `verify_attestation` uses the decoder: one item, and no trailing bytes after it. */
  method DecodeWhole(doc: bytes) returns (ok: bool, value: Value)
    ensures ok <==> exists w :: Legal(w) && Enc(w) == doc && Height(w) <= MAX_DEPTH && !IndefiniteAt(w, MAX_DEPTH)
    ensures ok ==> forall w :: Legal(w) && Enc(w) == doc ==> value == Meaning(w)
  {
    var r := DecodeAt(doc, 0, 0, false);
    assert doc[0..] == doc;
    ok, value := r.Item? && r.next == |doc|, if r.Item? then r.value else Null;
    forall w | Legal(w) && Enc(w) == doc
      ensures ok <==> Height(w) <= MAX_DEPTH && !IndefiniteAt(w, MAX_DEPTH)
      ensures ok ==> value == Meaning(w)
    {
      LegalEncodingDecodes(w, []);
      assert Enc(w) + [] == doc && doc[|doc|..] == [];
    }
    if ok {
      var w := WireOf(doc, 0, false);
      assert Enc(w) + [] == Enc(w);
    }
  }
}
