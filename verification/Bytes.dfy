/** Bytes, big-endian integers and UTF-8 well-formedness: what `struct` and `bytes.decode` give the CBOR code. */
module Bytes {

  type byte = x: int | 0 <= x < 256

  type bytes = seq<byte>

  // ---------------------------------------------------------------- big-endian

  function Pow256(w: nat): (p: nat)
    ensures p > 0
  {
    if w == 0 then 1 else 256 * Pow256(w - 1)
  }

  /** `struct.pack(">…", n)` for an unsigned integer of `w` bytes. */
  function BigEndian(n: nat, w: nat): (s: bytes)
    requires n < Pow256(w)
    ensures |s| == w
  {
    if w == 0 then [] else BigEndian(n / 256, w - 1) + [n % 256]
  }

  /** `struct.unpack(">…", s)` for an unsigned integer of `|s|` bytes. */
  function FromBigEndian(s: bytes): (n: nat)
    ensures n < Pow256(|s|)
  {
    if s == [] then 0 else FromBigEndian(s[..|s| - 1]) * 256 + s[|s| - 1]
  }

  lemma {:induction false} UnpackPack(n: nat, w: nat)
    requires n < Pow256(w)
    ensures FromBigEndian(BigEndian(n, w)) == n
  {
    if w > 0 {
      UnpackPack(n / 256, w - 1);
      assert BigEndian(n, w)[..w - 1] == BigEndian(n / 256, w - 1);
    }
  }

  lemma {:induction false} PackUnpack(s: bytes)
    ensures BigEndian(FromBigEndian(s), |s|) == s
  {
    if s != [] {
      var head, n := FromBigEndian(s[..|s| - 1]), FromBigEndian(s);
      PackUnpack(s[..|s| - 1]);
      assert n / 256 == head && n % 256 == s[|s| - 1];
      assert s == s[..|s| - 1] + [s[|s| - 1]];
    }
  }

  /** The first byte is the most significant one. */
  lemma {:induction false} MostSignificantFirst(b: byte, t: bytes)
    ensures FromBigEndian([b] + t) == b * Pow256(|t|) + FromBigEndian(t)
  {
    var s, n := [b] + t, |t|;
    if n == 0 {
      assert s[..0] == [];
    } else {
      MostSignificantFirst(b, t[..n - 1]);
      assert s[..n] == [b] + t[..n - 1] && s[n] == t[n - 1];
      assert b * Pow256(n) == b * Pow256(n - 1) * 256;
    }
  }

  // --------------------------------------------------------------------- UTF-8

  predicate Continuation(b: byte) {
    0x80 <= b <= 0xBF
  }

  /** First two bytes of a three-byte sequence: no overlong form, no surrogate. */
  predicate ThreeByteStart(a: byte, b: byte) {
    (a == 0xE0 && 0xA0 <= b <= 0xBF) || (0xE1 <= a <= 0xEF && a != 0xED && Continuation(b)) ||
    (a == 0xED && 0x80 <= b <= 0x9F)
  }

  /** First two bytes of a four-byte sequence: no overlong form, nothing above U+10FFFF. */
  predicate FourByteStart(a: byte, b: byte) {
    (a == 0xF0 && 0x90 <= b <= 0xBF) || (0xF1 <= a <= 0xF3 && Continuation(b)) ||
    (a == 0xF4 && 0x80 <= b <= 0x8F)
  }

  /** Length of the well-formed UTF-8 sequence that `s` starts with; 0 when there is none. */
  function Utf8HeadLength(s: bytes): (n: nat)
    ensures n <= |s|
  {
    if |s| >= 1 && s[0] < 0x80 then 1
    else if |s| >= 2 && 0xC2 <= s[0] <= 0xDF && Continuation(s[1]) then 2
    else if |s| >= 3 && ThreeByteStart(s[0], s[1]) && Continuation(s[2]) then 3
    else if |s| >= 4 && FourByteStart(s[0], s[1]) && Continuation(s[2]) && Continuation(s[3]) then 4
    else 0
  }

  /** What `bytes.decode("utf-8")` accepts (section 4 of RFC 3629). */
  predicate ValidUtf8(s: bytes)
    decreases |s|
  {
    s == [] || (Utf8HeadLength(s) > 0 && ValidUtf8(s[Utf8HeadLength(s)..]))
  }
}
