/** Concatenation: the sequence facts that the codecs and the canonical text share. */
module Sequences {

  lemma Assoc<T>(a: seq<T>, b: seq<T>, c: seq<T>)
    ensures (a + b) + c == a + (b + c)
  {
  }

  lemma Assoc3<T>(a: seq<T>, b: seq<T>, c: seq<T>, d: seq<T>)
    ensures a + (b + c) + d == a + (b + (c + d))
  {
  }

  lemma Split<T>(a: seq<T>, s: seq<T>, b: seq<T>, t: seq<T>)
    requires a + s == b + t && |a| == |b|
    ensures a == b && s == t
  {
    assert a == (a + s)[..|a|] && b == (b + t)[..|b|];
    assert s == (a + s)[|a|..] && t == (b + t)[|b|..];
  }
}
