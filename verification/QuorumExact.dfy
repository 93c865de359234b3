/** A threshold verdict, exactly: the header, the council and the signatures in terms of the keys themselves. */
module QuorumExact {
  import opened Bytes
  import opened Options
  import opened Quorum
  import opened QuorumProof
  import opened SigningDomains

  // ------------------------------------------------------------- what a verdict fixes

  /** The header of an artifact for these bytes and this policy, written out. */
  ghost predicate Header(c: Crypto, attestation: bytes, a: Artifact, p: Policy)
    requires p.signers.Some?
  {
    && a.scheme == Str("kry-pqc-threshold/v2") && a.alg == p.alg
    && a.alg in {Str("ML-DSA-44"), Str("ML-DSA-65"), Str("ML-DSA-87")}
    && a.messageSha256 == Some(c.sha256(attestation)) && a.policySha256 == Some(c.sha256(p.canon))
    && a.threshold == p.threshold && a.councilSize == Num(|p.signers.value|)
  }

  lemma HeaderExactly(c: Crypto, attestation: bytes, a: Artifact, p: Policy)
    requires GoodPolicy(c, p)
    ensures HeaderOk(c, attestation, p, a) <==> Header(c, attestation, a, p)
  {
  }

  /** An accepted artifact can be changed in no header field: with the same entries only the same artifact is accepted
      for these bytes and this policy. */
  lemma HeaderIsFixed(c: Crypto, attestation: bytes, a: Artifact, b: Artifact, p: Policy)
    requires GoodPolicy(c, p) && a.signatures.Some? && b.signatures == a.signatures
    requires Verifies(c, attestation, a, p)
    ensures Verifies(c, attestation, b, p) <==> b == a
  {
    HeaderExactly(c, attestation, a, p);
    HeaderExactly(c, attestation, b, p);
  }

  /** One artifact accepted for two attestations or two policies: their digests agree, and so do the thresholds, the
      algorithms and the sizes of the councils. */
  lemma ArtifactFixesSubject(c: Crypto, x: bytes, p: Policy, y: bytes, q: Policy, a: Artifact)
    requires GoodPolicy(c, p) && GoodPolicy(c, q) && a.signatures.Some?
    requires Verifies(c, x, a, p) && Verifies(c, y, a, q)
    ensures c.sha256(x) == c.sha256(y) && c.sha256(p.canon) == c.sha256(q.canon)
    ensures p.threshold == q.threshold && p.alg == q.alg && |p.signers.value| == |q.signers.value|
  {
    HeaderExactly(c, x, a, p);
    HeaderExactly(c, y, a, q);
  }

  /** What the members sign fixes the attestation and the policy's digest, which as hex text has no zero byte: a
      signature that counts for one pair counts for no other. */
  lemma MessageFixesSubject(c: Crypto, x: bytes, p: Policy, y: bytes, q: Policy)
    requires 0 !in c.sha256(p.canon) && 0 !in c.sha256(q.canon) && Message(c, x, p) == Message(c, y, q)
    ensures x == y && c.sha256(p.canon) == c.sha256(q.canon)
  {
    SignedBytesDetermineContext(V2Threshold(c.sha256(p.canon)), x, V2Threshold(c.sha256(q.canon)), y);
  }

  // ------------------------------------------------------------- acceptance, exactly

  /** Member `i`, with this key, is listed under its own fingerprint and has a key of the right length. */
  ghost predicate ProperMember(c: Crypto, p: Policy, i: nat, key: bytes)
    requires p.signers.Some? && i < |p.signers.value| && p.alg.Str?
  {
    var e := p.signers.value[i];
    e.Entry? && e.fingerprint == Str(c.fingerprint(key)) && |key| == c.keyLength(p.alg.s) &&
    e.blob.Str? && c.unb64(e.blob.s) == Some(key)
  }

  /** The council lists each member's key under that key's fingerprint, and no key twice. */
  ghost predicate ProperCouncil(c: Crypto, p: Policy, keys: seq<bytes>)
    requires p.signers.Some? && p.alg.Str? && |keys| == |p.signers.value|
  {
    (forall i :: 0 <= i < |keys| ==> ProperMember(c, p, i, keys[i])) &&
    forall i, j :: 0 <= i < j < |keys| ==> keys[i] != keys[j]
  }

  /** The entry carries the key's fingerprint and its valid signature over these bytes for this policy. */
  ghost predicate SignedEntry(c: Crypto, attestation: bytes, p: Policy, key: bytes, e: Entry)
    requires p.alg.Str?
  {
    e.Entry? && e.fingerprint == Str(c.fingerprint(key)) && e.blob.Str? && c.unb64(e.blob.s).Some? &&
    |c.unb64(e.blob.s).value| == c.signatureLength(p.alg.s) &&
    c.verify(p.alg.s, Message(c, attestation, p), c.unb64(e.blob.s).value, key)
  }

  /** No later member has the fingerprint of member `i`: a fingerprint stands for the last key listed under it. */
  predicate LastOfLabel(c: Crypto, keys: seq<bytes>, i: nat)
    requires i < |keys|
  {
    forall j :: i < j < |keys| ==> c.fingerprint(keys[j]) != c.fingerprint(keys[i])
  }

  /** The members with an entry of their own. */
  ghost function Signed(c: Crypto, attestation: bytes, a: Artifact, p: Policy, keys: seq<bytes>): set<nat>
    requires p.alg.Str? && a.signatures.Some?
  {
    set i: nat | i < |keys| && LastOfLabel(c, keys, i) &&
                 exists e <- a.signatures.value :: SignedEntry(c, attestation, p, keys[i], e)
  }

  function KeysOf(c: Crypto, signers: seq<Entry>): (keys: seq<bytes>)
    requires AllGood(c, signers)
    ensures |keys| == |signers| && forall i :: 0 <= i < |keys| ==> keys[i] == KeyAt(c, signers, i)
  {
    seq(|signers|, i requires 0 <= i < |signers| => KeyAt(c, signers, i))
  }

  lemma {:induction false} IndexOf(c: Crypto, signers: seq<Entry>, i: nat)
    requires AllGood(c, signers) && i < |signers|
    requires forall j :: i < j < |signers| ==> signers[j].fingerprint != signers[i].fingerprint
    ensures signers[i].fingerprint.s in ByFingerprint(c, signers)
    ensures ByFingerprint(c, signers)[signers[i].fingerprint.s] == KeyAt(c, signers, i)
  {
    if i < |signers| - 1 {
      IndexOf(c, signers[..|signers| - 1], i);
    }
  }

  lemma LabelsDiffer(c: Crypto, keys: seq<bytes>, i: nat, j: nat)
    requires i < |keys| && j < |keys| && i != j && LastOfLabel(c, keys, i) && LastOfLabel(c, keys, j)
    ensures c.fingerprint(keys[i]) != c.fingerprint(keys[j])
  {
  }

  lemma {:induction false} LabelSize(c: Crypto, keys: seq<bytes>, who: set<nat>)
    requires forall i <- who :: i < |keys| && LastOfLabel(c, keys, i)
    ensures |set i | i in who :: c.fingerprint(keys[i])| == |who|
  {
    if who != {} {
      var x :| x in who;
      var rest := who - {x};
      LabelSize(c, keys, rest);
      var image := set i | i in rest :: c.fingerprint(keys[i]);
      assert (set i | i in who :: c.fingerprint(keys[i])) == image + {c.fingerprint(keys[x])};
      forall i | i in rest ensures c.fingerprint(keys[i]) != c.fingerprint(keys[x]) {
        LabelsDiffer(c, keys, i, x);
      }
    }
  }

  lemma CouncilExactly(c: Crypto, p: Policy)
    requires GoodPolicy(c, p)
    ensures CouncilOk(c, p) <==> ProperCouncil(c, p, KeysOf(c, p.signers.value))
  {
    var s := p.signers.value;
    var keys := KeysOf(c, s);
    forall i | 0 <= i < |s|
      ensures ProperMember(c, p, i, keys[i]) <==>
              |KeyAt(c, s, i)| == c.keyLength(p.alg.s) && c.fingerprint(KeyAt(c, s, i)) == s[i].fingerprint.s
    {
      assert GoodSigner(c, s[i]);
    }
    if ProperCouncil(c, p, keys) {
      assert forall i, j :: 0 <= i < j < |s| ==> keys[i] == KeyAt(c, s, i) && keys[j] == KeyAt(c, s, j);
    }
  }

  /** For a proper council the counted fingerprints are those of the members who signed. */
  lemma CountedExactly(c: Crypto, attestation: bytes, a: Artifact, p: Policy, keys: seq<bytes>)
    requires GoodPolicy(c, p) && a.signatures.Some? && |keys| == |p.signers.value| && ProperCouncil(c, p, keys)
    ensures CountedFor(c, attestation, p, a) ==
            set i | i in Signed(c, attestation, a, p, keys) :: c.fingerprint(keys[i])
  {
    var s, index, message := p.signers.value, ByFingerprint(c, p.signers.value), Message(c, attestation, p);
    var counted, entries := CountedFor(c, attestation, p, a), a.signatures.value;
    forall i | 0 <= i < |keys| ensures s[i].fingerprint == Str(c.fingerprint(keys[i])) && KeyAt(c, s, i) == keys[i] {
      assert ProperMember(c, p, i, keys[i]);
    }
    forall fp | fp in counted ensures exists i <- Signed(c, attestation, a, p, keys) :: c.fingerprint(keys[i]) == fp {
      var i := IndexedKey(c, s, fp);
      assert SomeoneSigns(c, p.alg.s, message, index, entries, fp);
      var k :| 0 <= k < |entries| && Signs(c, p.alg.s, message, index, entries[k], fp);
      assert SignedEntry(c, attestation, p, keys[i], entries[k]);
      assert i in Signed(c, attestation, a, p, keys);
    }
    forall i | i in Signed(c, attestation, a, p, keys) ensures c.fingerprint(keys[i]) in counted {
      IndexOf(c, s, i);
      var e :| e in entries && SignedEntry(c, attestation, p, keys[i], e);
      var k :| 0 <= k < |entries| && entries[k] == e;
      assert Signs(c, p.alg.s, message, index, entries[k], c.fingerprint(keys[i]));
    }
  }

  /** An artifact is accepted if and only if its header is that of these bytes and this policy, the council is proper,
      and at least `threshold` members have signed, where of members with one fingerprint only the last can count. */
  lemma VerifiesExactly(c: Crypto, attestation: bytes, a: Artifact, p: Policy)
    requires GoodPolicy(c, p) && a.signatures.Some?
    ensures var keys := KeysOf(c, p.signers.value);
            Verifies(c, attestation, a, p) <==>
            Header(c, attestation, a, p) && ProperCouncil(c, p, keys) &&
            |Signed(c, attestation, a, p, keys)| >= p.threshold.n
  {
    var keys := KeysOf(c, p.signers.value);
    HeaderExactly(c, attestation, a, p);
    CouncilExactly(c, p);
    if ProperCouncil(c, p, keys) {
      CountedExactly(c, attestation, a, p, keys);
      LabelSize(c, keys, Signed(c, attestation, a, p, keys));
    }
  }
}
