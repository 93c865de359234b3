/** `_cbor_head` and `_cbor_encode`, the encoder of the signed COSE `Sig_structure`. */
module CborEncode {
  import opened Maximum
  import opened Sequences
  import opened Bytes
  import opened Options
  import opened CborWire
  import opened CborDecode
  import opened CborExact
  import opened CborUnambiguous

  /** What the encoder is given: text (as its UTF-8 bytes), byte strings, lists, or something it refuses. */
  datatype Obj =
    | OText(utf8: bytes)
    | OBytes(b: bytes)
    | OList(items: seq<Obj>)
    | OOther

  /** `_cbor_head`: `None` is the `struct.error` of an argument that needs more than 64 bits. */
  function CborHead(major: int, n: nat): (s: Option<bytes>)
    requires 0 <= major < 8
  {
    if n < 24 then Some([major * 32 + n])
    else if n < 0x100 then Some([major * 32 + 24, n])
    else if n < 0x10000 then Pow256Values(); Some([major * 32 + 25] + BigEndian(n, 2))
    else if n < 0x1_0000_0000 then Pow256Values(); Some([major * 32 + 26] + BigEndian(n, 4))
    else if n < 0x1_0000_0000_0000_0000 then Pow256Values(); Some([major * 32 + 27] + BigEndian(n, 8))
    else None
  }

  lemma Pow256Values()
    ensures Pow256(1) == 0x100 && Pow256(2) == 0x10000 && Pow256(4) == 0x1_0000_0000
    ensures Pow256(8) == 0x1_0000_0000_0000_0000
  {
  }

  /** The head is the shortest legal one for its argument, and exists exactly for 64-bit arguments. */
  lemma HeadIsShortest(major: int, n: nat)
    requires 0 <= major < 8
    ensures CborHead(major, n).Some? <==> exists h :: LegalHead(h) && h.arg == n
    ensures CborHead(major, n).Some? ==>
              LegalHead(ShortestHead(n)) && CborHead(major, n).value == HeadBytes(major, ShortestHead(n)) &&
              forall h :: LegalHead(h) && h.arg == n ==> |HeadBytes(major, ShortestHead(n))| <= |HeadBytes(major, h)|
  {
    Pow256Values();
    if CborHead(major, n).Some? {
      assert LegalHead(ShortestHead(n)) && ShortestHead(n).arg == n;
      if 24 <= n < 0x100 {
        assert BigEndian(n, 1) == BigEndian(0, 0) + [n];
      }
    }
  }

  function ShortestHead(n: nat): (h: Head)
    ensures h.arg == n
  {
    if n < 24 then Head(0, n) else if n < 0x100 then Head(1, n) else if n < 0x10000 then Head(2, n)
    else if n < 0x1_0000_0000 then Head(4, n) else Head(8, n)
  }

  /** `_cbor_encode` as a function; `None` where the source raises. */
  function Encoded(obj: Obj): Option<bytes>
    decreases obj, 1
  {
    match obj
    case OText(utf8) => if ValidUtf8(utf8) then Append(CborHead(3, |utf8|), utf8) else None
    case OBytes(b) => Append(CborHead(2, |b|), b)
    case OList(items) =>
      var head := CborHead(4, |items|);
      if head.None? then None else Extend(head.value, EncodedAll(items))
    case OOther => None
  }

  function EncodedAll(items: seq<Obj>): Option<bytes>
    decreases items, 0
  {
    if items == [] then Some([])
    else
      var first := Encoded(items[0]);
      if first.None? then None
      else
        Extend(first.value, EncodedAll(items[1..]))
  }

  function Append(head: Option<bytes>, body: bytes): Option<bytes> {
    if head.None? then None else Some(head.value + body)
  }

  function Extend(out: bytes, rest: Option<bytes>): Option<bytes> {
    if rest.None? then None else Some(out + rest.value)
  }

  /** `_cbor_encode` as written: a list is its head followed by its items, appended one by one. */
  method Encode(obj: Obj) returns (r: Option<bytes>)
    ensures r == Encoded(obj)
    decreases obj
  {
    match obj
    case OText(utf8) => r := if ValidUtf8(utf8) then Append(CborHead(3, |utf8|), utf8) else None;
    case OBytes(b) => r := Append(CborHead(2, |b|), b);
    case OList(items) =>
      var head := CborHead(4, |items|);
      if head.None? { return None; }
      var out := head.value;
      for i := 0 to |items|
        invariant Extend(head.value, EncodedAll(items)) == Extend(out, EncodedAll(items[i..]))
      {
        assert items[i..][1..] == items[i + 1..];
        var item := Encode(items[i]);
        if item.None? { return None; }
        ghost var rest := EncodedAll(items[i + 1..]);
        if rest.Some? {
          Assoc(out, item.value, rest.value);
        }
        out := out + item.value;
      }
      assert items[|items|..] == [] && out + [] == out;
      return Some(out);
    case OOther => r := None;
  }

  // ------------------------------------------------- what the bytes stand for

  function ValueOf(obj: Obj): Value {
    match obj
    case OText(utf8) => Text(utf8)
    case OBytes(b) => Bytes(b)
    case OList(items) => Array(ValuesOf(items))
    case OOther => Null
  }

  function ValuesOf(items: seq<Obj>): seq<Value> {
    if items == [] then [] else [ValueOf(items[0])] + ValuesOf(items[1..])
  }

  function ListDepth(obj: Obj): nat {
    match obj
    case OList(items) => ListDepths(items)
    case _ => 0
  }

  function ListDepths(items: seq<Obj>): nat {
    if items == [] then 0 else Max(1 + ListDepth(items[0]), ListDepths(items[1..]))
  }

  /** The tree the encoder writes: shortest heads, definite lengths. */
  function ToWire(obj: Obj): Wire {
    match obj
    case OText(utf8) => WStr(3, ShortestHead(|utf8|), utf8)
    case OBytes(b) => WStr(2, ShortestHead(|b|), b)
    case OList(items) => WArr(ShortestHead(|items|), ToWires(items))
    case OOther => WSimple(22)
  }

  function ToWires(items: seq<Obj>): (ws: Wires)
    ensures Count(ws) == |items|
  {
    if items == [] then WNil else WCons(ToWire(items[0]), ToWires(items[1..]))
  }

  lemma {:induction false} EncodesWire(obj: Obj)
    requires Encoded(obj).Some?
    ensures Legal(ToWire(obj)) && Enc(ToWire(obj)) == Encoded(obj).value
    ensures Meaning(ToWire(obj)) == ValueOf(obj) && Height(ToWire(obj)) == ListDepth(obj)
    decreases obj, 1
  {
    match obj
    case OText(utf8) => HeadIsShortest(3, |utf8|);
    case OBytes(b) => HeadIsShortest(2, |b|);
    case OList(items) =>
      HeadIsShortest(4, |items|);
      EncodesWires(items);
  }

  lemma {:induction false} EncodesWires(items: seq<Obj>)
    requires EncodedAll(items).Some?
    ensures LegalAll(ToWires(items)) && EncAll(ToWires(items)) == EncodedAll(items).value
    ensures Meanings(ToWires(items)) == ValuesOf(items) && Heights(ToWires(items)) == ListDepths(items)
    decreases items, 0
  {
    if items != [] {
      EncodesWire(items[0]);
      EncodesWires(items[1..]);
    }
  }

  lemma {:induction false} NoIndefinite(obj: Obj, d: nat)
    ensures !IndefiniteAt(ToWire(obj), d)
    decreases obj, 1
  {
    if obj.OList? && d > 0 {
      NoIndefiniteIn(obj.items, d - 1);
    }
  }

  lemma {:induction false} NoIndefiniteIn(items: seq<Obj>, d: nat)
    ensures !IndefiniteIn(ToWires(items), d)
    decreases items, 0
  {
    if items != [] {
      NoIndefinite(items[0], d);
      NoIndefiniteIn(items[1..], d);
    }
  }

  /** Decoding inverts encoding up to the decoder's depth limit, whatever follows; beyond it the decoder refuses. */
  lemma DecodeEncoded(obj: Obj, t: bytes)
    requires Encoded(obj).Some?
    ensures var r := Decode(Encoded(obj).value + t, 0, false);
            if ListDepth(obj) <= 64 then r == Ok(ValueOf(obj), t) else r.Err?
  {
    EncodesWire(obj);
    NoIndefinite(obj, MAX_DEPTH);
    LegalEncodingDecodes(ToWire(obj), t);
  }

  lemma {:induction false} WireDetermines(a: Obj, b: Obj)
    requires Encoded(a).Some? && Encoded(b).Some? && ToWire(a) == ToWire(b)
    ensures a == b
    decreases a, 1
  {
    if a.OList? {
      WiresDetermine(a.items, b.items);
    }
  }

  lemma {:induction false} WiresDetermine(a: seq<Obj>, b: seq<Obj>)
    requires EncodedAll(a).Some? && EncodedAll(b).Some? && ToWires(a) == ToWires(b)
    ensures a == b
    decreases a, 0
  {
    if a != [] {
      WireDetermines(a[0], b[0]);
      WiresDetermine(a[1..], b[1..]);
      assert a == [a[0]] + a[1..] && b == [b[0]] + b[1..];
    }
  }

  /** The encoder is injective and prefix-free, at any nesting depth. */
  lemma EncodedPrefixFree(a: Obj, s: bytes, b: Obj, t: bytes)
    requires Encoded(a).Some? && Encoded(b).Some? && Encoded(a).value + s == Encoded(b).value + t
    ensures a == b && s == t
  {
    EncodesWire(a);
    EncodesWire(b);
    Unambiguous(ToWire(a), s, ToWire(b), t);
    WireDetermines(a, b);
  }

  // ------------------------------------------------------------ Sig_structure

  /** "Signature1" in ASCII. */
  const SIGNATURE1: bytes := [0x53, 0x69, 0x67, 0x6E, 0x61, 0x74, 0x75, 0x72, 0x65, 0x31]

  function SigStructure(protectedHeader: bytes, payload: bytes): Obj {
    OList([OText(SIGNATURE1), OBytes(protectedHeader), OBytes([]), OBytes(payload)])
  }

  /** The bytes that are signed are those of section 4.4 of RFC 9052, they determine the protected header
      and the payload, and no signed message is a prefix of another. */
  lemma SignedBytesDetermineContent(p: bytes, m: bytes, s: bytes, p': bytes, m': bytes, t: bytes)
    requires Encoded(SigStructure(p, m)).Some? && Encoded(SigStructure(p', m')).Some?
    requires Encoded(SigStructure(p, m)).value + s == Encoded(SigStructure(p', m')).value + t
    ensures p == p' && m == m' && s == t
  {
    EncodedPrefixFree(SigStructure(p, m), s, SigStructure(p', m'), t);
    assert SigStructure(p, m).items[1] == SigStructure(p', m').items[1];
    assert SigStructure(p, m).items[3] == SigStructure(p', m').items[3];
  }

  /** The context string is the ASCII text that RFC 9052 gives. */
  lemma ContextText()
    ensures |SIGNATURE1| == |"Signature1"| && forall i :: 0 <= i < 10 ==> SIGNATURE1[i] == "Signature1"[i] as int
  {
  }

  lemma EncodedCons(obj: Obj, rest: seq<Obj>)
    requires Encoded(obj).Some? && EncodedAll(rest).Some?
    ensures EncodedAll([obj] + rest) == Some(Encoded(obj).value + EncodedAll(rest).value)
  {
  }

  lemma EncodedFour(a: Obj, b: Obj, c: Obj, d: Obj)
    requires Encoded(a).Some? && Encoded(b).Some? && Encoded(c).Some? && Encoded(d).Some?
    ensures EncodedAll([a, b, c, d]) ==
            Some(Encoded(a).value + (Encoded(b).value + (Encoded(c).value + Encoded(d).value)))
  {
    assert [d] + [] == [d] && Encoded(d).value + [] == Encoded(d).value;
    EncodedCons(d, []);
    assert [c] + [d] == [c, d];
    EncodedCons(c, [d]);
    assert [b] + [c, d] == [b, c, d];
    EncodedCons(b, [c, d]);
    assert [a] + [b, c, d] == [a, b, c, d];
    EncodedCons(a, [b, c, d]);
  }

  lemma EncodedBytes(b: bytes)
    requires |b| < 0x1_0000_0000_0000_0000
    ensures CborHead(2, |b|).Some? && Encoded(OBytes(b)) == Some(CborHead(2, |b|).value + b)
    ensures b == [] ==> Encoded(OBytes(b)) == Some([0x40])
  {
    assert [0x40] + [] == [0x40];
  }

  lemma EncodedSignatureText()
    ensures Encoded(OText(SIGNATURE1)) == Some([0x6A] + SIGNATURE1)
  {
  }

  lemma SigStructureLayout(p: bytes, m: bytes)
    requires |p| < 0x1_0000_0000_0000_0000 && |m| < 0x1_0000_0000_0000_0000
    ensures Encoded(SigStructure(p, m)) ==
            Some([0x84] + (([0x6A] + SIGNATURE1) +
                           ((CborHead(2, |p|).value + p) + ([0x40] + (CborHead(2, |m|).value + m)))))
  {
    EncodedBytes(p);
    EncodedBytes(m);
    EncodedBytes([]);
    EncodedSignatureText();
    EncodedFour(OText(SIGNATURE1), OBytes(p), OBytes([]), OBytes(m));
  }
}
