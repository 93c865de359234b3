/** A chain re-minted from genesis is internally consistent: the limit of checking without an anchor. */
module ActionRemint {
  import opened Options
  import opened Json
  import opened ActionChain

  /** `link[key] = value` */
  function Put(link: Members, key: Str, value: Value): Members {
    if link == [] then [(key, value)]
    else if link[0].0 == key then [(key, value)] + link[1..]
    else [link[0]] + Put(link[1..], key, value)
  }

  lemma {:induction false} GetPut(link: Members, key: Str, value: Value, other: Str)
    ensures Get(Put(link, key, value), other) == if other == key then Some(value) else Get(link, other)
  {
    if link != [] && link[0].0 != key {
      GetPut(link[1..], key, value, other);
      assert Put(link, key, value)[1..] == Put(link[1..], key, value);
    }
  }

  /** The forger's loop: recompute both hashes of a link on top of the chain so far. */
  function Reseal(env: Env, link: Value, prev: string): Value {
    if !link.Object? then link
    else
      var receipt := Text(ReceiptHash(env)(link.members));
      var chain := Text(env.hash(ChainText(ReceiptHash(env), prev, link.members)));
      Object(Put(Put(link.members, Units("receipt_hash"), receipt), Units("chain_hash"), chain))
  }

  function Remint(env: Env, links: seq<Value>): seq<Value> {
    RemintFrom(env, ReceiptHash(env), (link, prev) => Reseal(env, link, prev), links, 0)
  }

  /** The loop from link `i` on, for any way of resealing a link on top of a chain hash. */
  function RemintFrom(env: Env, receipt: Receipt, reseal: (Value, string) -> Value, links: seq<Value>, i: nat)
    : (r: seq<Value>)
    requires i <= |links|
    ensures |r| == |links| - i
    decreases |links| - i
  {
    if i == |links| then []
    else [reseal(links[i], ChainAt(env, receipt, links, i))] + RemintFrom(env, receipt, reseal, links, i + 1)
  }

  lemma OtherKeys(key: string)
    requires |key| !in {10, 12} || key == "receipt_id"
    ensures Units(key) != Units("receipt_hash") && Units(key) != Units("chain_hash")
  {
    assert |Units("receipt_hash")| == 12 && |Units("chain_hash")| == 10;
    if key == "receipt_id" {
      assert Units(key)[0] == 'r' as int && Units("chain_hash")[0] == 'c' as int;
    }
  }

  lemma ResealKeeps(env: Env, link: Value, prev: string, key: string)
    requires link.Object? && (|key| !in {10, 12} || key == "receipt_id")
    ensures Get(Fields(Reseal(env, link, prev)), Units(key)) == Get(link.members, Units(key))
  {
    var receipt := Text(ReceiptHash(env)(link.members));
    OtherKeys(key);
    GetPut(link.members, Units("receipt_hash"), receipt, Units(key));
    GetPut(Put(link.members, Units("receipt_hash"), receipt), Units("chain_hash"),
           Text(env.hash(ChainText(ReceiptHash(env), prev, link.members))), Units(key));
  }

  lemma ResealKeepsPayload(env: Env, link: Value, prev: string)
    ensures Payload(env, Fields(Reseal(env, link, prev))) == Payload(env, Fields(link))
  {
    if link.Object? {
      ResealKeeps(env, link, prev, "agent_id");
      ResealKeeps(env, link, prev, "args_commit");
      ResealKeeps(env, link, prev, "evidence_tier");
      ResealKeeps(env, link, prev, "result_commit");
      ResealKeeps(env, link, prev, "server_evidence_commit");
      ResealKeeps(env, link, prev, "status");
      ResealKeeps(env, link, prev, "tool");
      ResealKeeps(env, link, prev, "ts");
    }
  }

  /** The receipt hash of a resealed link is that of the link. */
  lemma ResealKeepsReceipt(env: Env, link: Value, prev: string)
    ensures ReceiptHash(env)(Fields(Reseal(env, link, prev))) == ReceiptHash(env)(Fields(link))
  {
    ResealKeepsPayload(env, link, prev);
  }

  lemma {:induction false} RemintedTail(env: Env, receipt: Receipt, reseal: (Value, string) -> Value,
                                        links: seq<Value>, i: nat, k: nat)
    requires i <= k < |links|
    ensures RemintFrom(env, receipt, reseal, links, i)[k - i] == reseal(links[k], ChainAt(env, receipt, links, k))
    decreases k - i
  {
    if i < k {
      RemintedTail(env, receipt, reseal, links, i + 1, k);
    }
  }

  /** Resealing that keeps receipt hashes keeps the chain. */
  lemma {:induction false} ChainKept(env: Env, receipt: Receipt, reseal: (Value, string) -> Value, links: seq<Value>,
                                     n: nat)
    requires n <= |links| && forall link, prev :: receipt(Fields(reseal(link, prev))) == receipt(Fields(link))
    ensures ChainAt(env, receipt, RemintFrom(env, receipt, reseal, links, 0), n) == ChainAt(env, receipt, links, n)
  {
    if n > 0 {
      ChainKept(env, receipt, reseal, links, n - 1);
      RemintedTail(env, receipt, reseal, links, 0, n - 1);
    }
  }

  lemma RemintedLink(env: Env, links: seq<Value>, i: nat)
    requires i < |links|
    ensures Remint(env, links)[i] == Reseal(env, links[i], ChainAt(env, ReceiptHash(env), links, i))
    ensures ChainAt(env, ReceiptHash(env), Remint(env, links), i) == ChainAt(env, ReceiptHash(env), links, i)
  {
    var reseal := (link, prev) => Reseal(env, link, prev);
    RemintedTail(env, ReceiptHash(env), reseal, links, 0, i);
    forall link, prev ensures ReceiptHash(env)(Fields(reseal(link, prev))) == ReceiptHash(env)(Fields(link)) {
      ResealKeepsReceipt(env, link, prev);
    }
    ChainKept(env, ReceiptHash(env), reseal, links, i);
  }

  /** What re-minting cannot repair. */
  predicate Mintable(env: Env, links: seq<Value>, i: nat)
    requires i < |links|
  {
    && links[i].Object? && IdOf(links[i]).Some? && IdOf(links[i]).value.String? && !SeenBefore(links, i)
    && match Get(links[i].members, Units("ts"))
       case None => true
       case Some(ts) => (ts.Int? || ts.Float?) && env.f64(ts) != "ffffffffffffffff"
  }

  lemma ResealKeepsId(env: Env, link: Value, prev: string)
    ensures IdOf(Reseal(env, link, prev)) == IdOf(link)
  {
    if link.Object? {
      ResealKeeps(env, link, prev, "receipt_id");
    }
  }

  lemma SeenKept(env: Env, links: seq<Value>, i: nat)
    requires i < |links|
    ensures SeenBefore(Remint(env, links), i) <==> SeenBefore(links, i)
  {
    var r := Remint(env, links);
    forall j | 0 <= j <= i ensures IdOf(r[j]) == IdOf(links[j]) {
      RemintedLink(env, links, j);
      ResealKeepsId(env, links[j], ChainAt(env, ReceiptHash(env), links, j));
    }
  }

  lemma ResealedHashes(env: Env, link: Value, prev: string)
    requires link.Object?
    ensures var r := Reseal(env, link, prev);
            Get(r.members, Units("receipt_hash")) == Some(Text(ReceiptHash(env)(link.members))) &&
            Get(r.members, Units("chain_hash")) == Some(Text(env.hash(ChainText(ReceiptHash(env), prev, link.members))))
  {
    var receipt := Text(ReceiptHash(env)(link.members));
    var chain := Text(env.hash(ChainText(ReceiptHash(env), prev, link.members)));
    assert |Units("receipt_hash")| == 12 && |Units("chain_hash")| == 10;
    GetPut(link.members, Units("receipt_hash"), receipt, Units("receipt_hash"));
    GetPut(Put(link.members, Units("receipt_hash"), receipt), Units("chain_hash"), chain, Units("receipt_hash"));
    GetPut(Put(link.members, Units("receipt_hash"), receipt), Units("chain_hash"), chain, Units("chain_hash"));
  }

  lemma RemintedFault(env: Env, links: seq<Value>, i: nat)
    requires i < |links|
    ensures FaultAt(env, ReceiptHash(env), Remint(env, links), i).None? <==> Mintable(env, links, i)
  {
    var prev := ChainAt(env, ReceiptHash(env), links, i);
    RemintedLink(env, links, i);
    SeenKept(env, links, i);
    ResealKeepsId(env, links[i], prev);
    ResealKeepsReceipt(env, links[i], prev);
    if links[i].Object? {
      ResealedHashes(env, links[i], prev);
      ResealKeeps(env, links[i], prev, "ts");
    }
  }

  /** A log re-hashed from genesis passes the integrity loop exactly when its links are objects with distinct
      string ids and with timestamps that are absent or numbers with a finite double (which 10^400 has not). */
  lemma RemintPassesIntegrity(env: Env, links: seq<Value>)
    ensures Intact(env, ReceiptHash(env), Remint(env, links)) <==>
            forall i :: 0 <= i < |links| ==> Mintable(env, links, i)
  {
    forall i | 0 <= i < |links|
      ensures FaultAt(env, ReceiptHash(env), Remint(env, links), i).None? <==> Mintable(env, links, i)
    {
      RemintedFault(env, links, i);
    }
  }

  /** Distinct string ids are not enough: a link with a text for a timestamp cannot be re-minted. */
  lemma UniqueIdsAreNotEnough(env: Env)
    ensures var links := [Object([(Units("receipt_id"), Text("a")), (Units("ts"), Text("now"))])];
            && IdOf(links[0]) == Some(Text("a")) && !SeenBefore(links, 0)
            && !Intact(env, ReceiptHash(env), Remint(env, links))
  {
    var members: Members := [(Units("receipt_id"), Text("a")), (Units("ts"), Text("now"))];
    var links := [Object(members)];
    assert |Units("receipt_id")| == 10 && |Units("ts")| == 2;
    assert Get(members[1..], Units("ts")) == Some(Text("now"));
    assert BadTime(env, members);
    assert !Mintable(env, links, 0);
    RemintPassesIntegrity(env, links);
  }
}
