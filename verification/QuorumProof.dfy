/** What a threshold verdict means. */
module QuorumProof {
  import opened Bytes
  import opened Quorum

  // ------------------------------------------------------------------- soundness

  lemma {:induction false} IndexedKey(c: Crypto, signers: seq<Entry>, fp: string) returns (i: nat)
    requires AllGood(c, signers) && fp in ByFingerprint(c, signers)
    ensures i < |signers| && signers[i].fingerprint == Str(fp) && KeyAt(c, signers, i) == ByFingerprint(c, signers)[fp]
    ensures forall j :: i < j < |signers| ==> signers[j].fingerprint != Str(fp)
  {
    var n := |signers| - 1;
    if signers[n].fingerprint.s == fp {
      i := n;
    } else {
      i := IndexedKey(c, signers[..n], fp);
    }
  }

  lemma {:induction false} ImageSize(fps: set<string>, keys: map<string, bytes>)
    requires fps <= keys.Keys
    requires forall x, y :: x in fps && y in fps && x != y ==> keys[x] != keys[y]
    ensures |set fp | fp in fps :: keys[fp]| == |fps|
  {
    if fps != {} {
      var x :| x in fps;
      var rest := fps - {x};
      ImageSize(rest, keys);
      var image := set fp | fp in rest :: keys[fp];
      assert (set fp | fp in fps :: keys[fp]) == image + {keys[x]};
      assert keys[x] !in image;
    }
  }

  /** This public key is registered in the policy, and one of the entries is its valid signature over these bytes
      for this council. */
  ghost predicate Vouches(c: Crypto, attestation: bytes, a: Artifact, p: Policy, key: bytes)
    requires GoodPolicy(c, p) && a.signatures.Some?
  {
    (exists i :: 0 <= i < |p.signers.value| && KeyAt(c, p.signers.value, i) == key) &&
    exists k :: 0 <= k < |a.signatures.value| &&
                SignedBy(c, p.alg.s, Message(c, attestation, p), a.signatures.value[k], key)
  }

  ghost predicate SignedBy(c: Crypto, alg: string, message: bytes, e: Entry, key: bytes) {
    e.Entry? && Decoded(c, e.blob).Some? && c.verify(alg, message, Decoded(c, e.blob).value, key)
  }

  /** An accepted artifact carries valid signatures, over exactly these bytes and this policy, by at least
      `threshold` distinct registered public keys: even if two keys share a fingerprint. */
  lemma AcceptedMeansDistinctKeys(c: Crypto, attestation: bytes, a: Artifact, p: Policy) returns (keys: set<bytes>)
    requires GoodPolicy(c, p) && a.signatures.Some? && Verifies(c, attestation, a, p)
    ensures |keys| >= p.threshold.n >= 1 && forall key <- keys :: Vouches(c, attestation, a, p, key)
  {
    var s, index, fps := p.signers.value, ByFingerprint(c, p.signers.value), CountedFor(c, attestation, p, a);
    keys := set fp | fp in fps :: index[fp];
    forall x, y | x in fps && y in fps && x != y ensures index[x] != index[y] {
      var i := IndexedKey(c, s, x);
      var j := IndexedKey(c, s, y);
      assert c.fingerprint(KeyAt(c, s, i)) == x && c.fingerprint(KeyAt(c, s, j)) == y;
    }
    ImageSize(fps, index);
    forall key | key in keys ensures Vouches(c, attestation, a, p, key) {
      var fp :| fp in fps && index[fp] == key;
      var i := IndexedKey(c, s, fp);
      assert SomeoneSigns(c, p.alg.s, Message(c, attestation, p), index, a.signatures.value, fp);
      var k :| 0 <= k < |a.signatures.value| && Signs(c, p.alg.s, Message(c, attestation, p), index,
                                                      a.signatures.value[k], fp);
      assert SignedBy(c, p.alg.s, Message(c, attestation, p), a.signatures.value[k], key);
    }
  }

  // ---------------------------------------------------------------- monotonicity

  /** Reordering, repeating or adding entries never loses a signer. */
  lemma MoreEntriesNeverHurt(c: Crypto, alg: string, message: bytes, keys: map<string, bytes>, few: seq<Entry>,
                             many: seq<Entry>)
    requires forall k :: 0 <= k < |few| ==> few[k] in many
    ensures Counted(c, alg, message, keys, few) <= Counted(c, alg, message, keys, many)
    ensures |Counted(c, alg, message, keys, few)| <= |Counted(c, alg, message, keys, many)|
  {
    forall fp | fp in Counted(c, alg, message, keys, few) ensures SomeoneSigns(c, alg, message, keys, many, fp) {
      var k :| 0 <= k < |few| && Signs(c, alg, message, keys, few[k], fp);
      var j :| 0 <= j < |many| && many[j] == few[k];
    }
    SubsetSize(Counted(c, alg, message, keys, few), Counted(c, alg, message, keys, many));
  }

  lemma SubsetSize<T>(a: set<T>, b: set<T>)
    requires a <= b
    ensures |a| <= |b|
  {
    assert b == a + (b - a);
  }
}
