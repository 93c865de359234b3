/** UTF-8 from code points (section 3 of RFC 3629), and that the byte patterns accept exactly that. */
module Utf8 {
  import opened Sequences
  import opened Bytes

  /** A Unicode scalar value: a code point that is no surrogate. */
  type Scalar = x: int | 0 <= x < 0xD800 || 0xE000 <= x <= 0x10FFFF

  /** The low six bits of `x / unit` behind the bits 10. */
  function Tail(x: nat, unit: nat): byte
    requires unit > 0
  {
    0x80 + x / unit % 64
  }

  function EncodeScalar(x: Scalar): bytes {
    if x < 0x80 then [x]
    else if x < 0x800 then [0xC0 + x / 64, Tail(x, 1)]
    else if x < 0x10000 then [0xE0 + x / 4096, Tail(x, 64), Tail(x, 1)]
    else [0xF0 + x / 262144, Tail(x, 4096), Tail(x, 64), Tail(x, 1)]
  }

  function EncodeText(text: seq<Scalar>): bytes {
    if text == [] then [] else EncodeScalar(text[0]) + EncodeText(text[1..])
  }

  /** `x` and six more bits. */
  function Shifted(x: int, b: byte): int {
    64 * x + (b as int - 0x80)
  }

  lemma Head2(a: byte, b: byte, t: bytes)
    requires 0xC2 <= a <= 0xDF && Continuation(b)
    ensures Utf8HeadLength([a, b] + t) == 2
  {
  }

  lemma Head3(a: byte, b: byte, c: byte, t: bytes)
    requires ThreeByteStart(a, b) && Continuation(c)
    ensures Utf8HeadLength([a, b, c] + t) == 3
  {
  }

  lemma Head4(a: byte, b: byte, c: byte, d: byte, t: bytes)
    requires FourByteStart(a, b) && Continuation(c) && Continuation(d)
    ensures Utf8HeadLength([a, b, c, d] + t) == 4
  {
  }

  /** The encoding of a scalar value is recognised, whatever follows. */
  lemma EncodedHead(x: Scalar, t: bytes)
    ensures EncodeScalar(x) != [] && Utf8HeadLength(EncodeScalar(x) + t) == |EncodeScalar(x)|
  {
    if 0x80 <= x < 0x800 {
      Head2(0xC0 + x / 64, Tail(x, 1), t);
    } else if 0x800 <= x < 0x10000 {
      Head3(0xE0 + x / 4096, Tail(x, 64), Tail(x, 1), t);
    } else if x >= 0x10000 {
      Head4(0xF0 + x / 262144, Tail(x, 4096), Tail(x, 64), Tail(x, 1), t);
    }
  }

  lemma ScalarInjective(x: Scalar, y: Scalar)
    requires EncodeScalar(x) == EncodeScalar(y)
    ensures x == y
  {
    var e, f := EncodeScalar(x), EncodeScalar(y);
    Digits64(x);
    Digits64(y);
    assert e[0] == f[0] && e[|e| - 1] == f[|e| - 1];
    assert |e| >= 3 ==> e[1] == f[1] && e[2] == f[2];
  }

  lemma Digits64(x: nat)
    ensures x == x / 64 * 64 + x % 64 && x / 64 == x / 4096 * 64 + x / 64 % 64
    ensures x / 4096 == x / 262144 * 64 + x / 4096 % 64
  {
    assert x / 4096 == x / 64 / 64 && x / 262144 == x / 4096 / 64;
  }

  lemma Unshift(x: nat, b: byte)
    requires Continuation(b)
    ensures Shifted(x, b) / 64 == x && 0x80 + Shifted(x, b) % 64 == b
  {
  }

  lemma TwoBytes(a: byte, b: byte) returns (x: Scalar)
    requires 0xC2 <= a <= 0xDF && Continuation(b)
    ensures EncodeScalar(x) == [a, b]
  {
    x := Shifted(a as int - 0xC0, b);
    Unshift(a as int - 0xC0, b);
  }

  lemma ThreeBytes(a: byte, b: byte, c: byte) returns (x: Scalar)
    requires ThreeByteStart(a, b) && Continuation(c)
    ensures EncodeScalar(x) == [a, b, c]
  {
    x := Shifted(Shifted(a as int - 0xE0, b), c);
    Digits64(x);
    Unshift(a as int - 0xE0, b);
    Unshift(Shifted(a as int - 0xE0, b), c);
  }

  lemma FourBytes(a: byte, b: byte, c: byte, d: byte) returns (x: Scalar)
    requires FourByteStart(a, b) && Continuation(c) && Continuation(d)
    ensures EncodeScalar(x) == [a, b, c, d]
  {
    x := Shifted(Shifted(Shifted(a as int - 0xF0, b), c), d);
    Digits64(x);
    Unshift(a as int - 0xF0, b);
    Unshift(Shifted(a as int - 0xF0, b), c);
    Unshift(Shifted(Shifted(a as int - 0xF0, b), c), d);
  }

  /** A sequence that the patterns accept is the encoding of a scalar value. */
  lemma HeadIsEncoded(s: bytes) returns (x: Scalar)
    requires Utf8HeadLength(s) > 0
    ensures s[..Utf8HeadLength(s)] == EncodeScalar(x)
  {
    var n := Utf8HeadLength(s);
    if n == 1 {
      x := s[0] as int;
    } else if n == 2 {
      x := TwoBytes(s[0], s[1]);
    } else if n == 3 {
      x := ThreeBytes(s[0], s[1], s[2]);
    } else {
      x := FourBytes(s[0], s[1], s[2], s[3]);
    }
  }

  lemma {:induction false} EncodedIsValid(text: seq<Scalar>)
    ensures ValidUtf8(EncodeText(text))
  {
    if text != [] {
      var e, rest := EncodeScalar(text[0]), EncodeText(text[1..]);
      EncodedHead(text[0], rest);
      assert (e + rest)[|e|..] == rest;
      EncodedIsValid(text[1..]);
    }
  }

  /** The text that well-formed bytes encode. */
  lemma {:induction false} TextOf(s: bytes) returns (text: seq<Scalar>)
    requires ValidUtf8(s)
    ensures EncodeText(text) == s
    decreases |s|
  {
    if s == [] {
      text := [];
    } else {
      var n := Utf8HeadLength(s);
      var x := HeadIsEncoded(s);
      var more := TextOf(s[n..]);
      text := [x] + more;
      assert s == s[..n] + s[n..];
    }
  }

  /** What is accepted is exactly what encodes some sequence of scalar values: no overlong form, no surrogate, nothing
      above U+10FFFF. */
  lemma ValidExactly(s: bytes)
    ensures ValidUtf8(s) <==> exists text :: EncodeText(text) == s
  {
    if ValidUtf8(s) {
      var text := TextOf(s);
    }
    if text :| EncodeText(text) == s {
      EncodedIsValid(text);
    }
  }

  /** Different texts have different bytes, so a text may be represented by its bytes. */
  lemma {:induction false} EncodeInjective(a: seq<Scalar>, b: seq<Scalar>)
    requires EncodeText(a) == EncodeText(b)
    ensures a == b
  {
    if a == [] || b == [] {
      if a != [] { EncodedHead(a[0], EncodeText(a[1..])); }
      if b != [] { EncodedHead(b[0], EncodeText(b[1..])); }
    } else {
      EncodedHead(a[0], EncodeText(a[1..]));
      EncodedHead(b[0], EncodeText(b[1..]));
      Split(EncodeScalar(a[0]), EncodeText(a[1..]), EncodeScalar(b[0]), EncodeText(b[1..]));
      ScalarInjective(a[0], b[0]);
      EncodeInjective(a[1..], b[1..]);
      assert a == [a[0]] + a[1..] && b == [b[0]] + b[1..];
    }
  }
}
