/** Stopping early keeps the verdict and the first reports, and overshoots the limit only a little. */
module PrivacyVerdict {
  import opened Maximum
  import opened Json
  import opened PrivacyScan

  /** Objects on the path with the most objects. */
  function Objects(v: Value): nat {
    match v
    case Object(members) => 1 + MembersObjects(members)
    case Array(items) => ItemsObjects(items)
    case _ => 0
  }

  function ItemsObjects(items: seq<Value>): nat {
    if items == [] then 0 else Max(Objects(items[0]), ItemsObjects(items[1..]))
  }

  function MemberObjects(m: (Str, Value)): nat {
    Objects(m.1)
  }

  function MembersObjects(members: seq<(Str, Value)>): nat {
    if members == [] then 0 else Max(MemberObjects(members[0]), MembersObjects(members[1..]))
  }

  /** The first `limit` reports, or all of them. */
  function Cut(limit: nat, full: seq<Error>): seq<Error> {
    if |full| < limit then full else full[..limit]
  }

  /** `r` is what is left of `errors` followed by `rest` when the scan stops at the limit, with up to `extra`
      reports more. */
  predicate Meets(limit: nat, errors: seq<Error>, rest: seq<Error>, r: seq<Error>, extra: nat) {
    Cut(limit, r) == Cut(limit, errors + rest) && |r| <= limit + extra
  }

  lemma MeetsThen(limit: nat, errors: seq<Error>, first: seq<Error>, mid: seq<Error>, rest: seq<Error>, r: seq<Error>,
                  k: nat, extra: nat)
    requires |errors| < limit && k <= extra && Meets(limit, errors, first, mid, k)
    requires if |mid| < limit then Meets(limit, mid, rest, r, extra) else mid <= r && |r| <= limit + extra
    ensures Meets(limit, errors, first + rest, r, extra)
  {
    assert (errors + first) + rest == errors + (first + rest);
    if |mid| >= limit {
      assert r[..limit] == mid[..limit];
      assert (errors + (first + rest))[..limit] == (errors + first)[..limit];
    }
  }

  /** Once the limit is reached a dict's loop adds at most one more report before it returns. */
  lemma {:induction false} FullMembers(cfg: Config, limit: nat, errors: seq<Error>, members: seq<(Str, Value)>,
                                       path: seq<PathStep>, depth: nat)
    requires |errors| >= limit
    ensures var r := VisitMembers(cfg, limit, errors, members, path, depth);
            errors <= r && |r| <= |errors| + 1
  {
    if members != [] {
      var own := Own(cfg, members[0], path);
      if own == [] {
        assert errors + own == errors;
        assert Visit(cfg, limit, errors, members[0].1, path + [Key(members[0].0)], depth + 1) == errors;
        FullMembers(cfg, limit, errors, members[1..], path, depth);
      }
    }
  }

  lemma {:induction false} VisitMeets(cfg: Config, limit: nat, errors: seq<Error>, v: Value, path: seq<PathStep>,
                                      depth: nat)
    requires |errors| < limit
    ensures Meets(limit, errors, All(cfg, v, path, depth), Visit(cfg, limit, errors, v, path, depth), Objects(v))
    decreases v, 1
  {
    if depth <= MAX_DEPTH {
      match v
      case Object(members) => MembersMeet(cfg, limit, errors, members, path, depth);
      case Array(items) => ItemsMeet(cfg, limit, errors, items, path, depth, 0);
      case _ => assert errors + [] == errors;
    }
  }

  lemma {:induction false} ItemsMeet(cfg: Config, limit: nat, errors: seq<Error>, items: seq<Value>,
                                     path: seq<PathStep>,
                                     depth: nat, idx: nat)
    requires |errors| < limit
    ensures Meets(limit, errors, AllItems(cfg, items, path, depth, idx),
                  VisitItems(cfg, limit, errors, items, path, depth, idx), ItemsObjects(items))
    decreases items, 0
  {
    if items == [] {
      assert errors + [] == errors;
    } else {
      var here := path + [Index(idx)];
      var mid := Visit(cfg, limit, errors, items[0], here, depth + 1);
      VisitMeets(cfg, limit, errors, items[0], here, depth + 1);
      var r := VisitItems(cfg, limit, errors, items, path, depth, idx);
      if |mid| < limit {
        ItemsMeet(cfg, limit, mid, items[1..], path, depth, idx + 1);
      }
      MeetsThen(limit, errors, All(cfg, items[0], here, depth + 1), mid,
                AllItems(cfg, items[1..], path, depth, idx + 1), r,
                Objects(items[0]), ItemsObjects(items));
    }
  }

  /** One member: its own report, then what is below it. A round that returns has reached the limit exactly. */
  lemma {:induction false} MemberMeets(cfg: Config, limit: nat, errors: seq<Error>, m: (Str, Value),
                                       path: seq<PathStep>, depth: nat)
    requires |errors| < limit
    ensures var (after, returned) := VisitMember(cfg, limit, errors, m, path, depth);
            Meets(limit, errors, AllMember(cfg, m, path, depth), after, MemberObjects(m)) &&
                (returned ==> |after| == limit)
    decreases m, 2
  {
    var own := Own(cfg, m, path);
    var reported := errors + own;
    var below := if Treat(cfg, m).Counter? then [] else All(cfg, m.1, path + [Key(m.0)], depth + 1);
    if |reported| >= limit {
      assert (errors + (own + below))[..limit] == reported;
    } else if Treat(cfg, m).Counter? {
      assert own + [] == own;
    } else {
      VisitMeets(cfg, limit, reported, m.1, path + [Key(m.0)], depth + 1);
      MeetsThen(limit, errors, own, reported, below, VisitMember(cfg, limit, errors, m, path, depth).0, 0,
                MemberObjects(m));
    }
  }

  lemma {:induction false} MembersMeet(cfg: Config, limit: nat, errors: seq<Error>, members: seq<(Str, Value)>,
                                       path: seq<PathStep>, depth: nat)
    requires |errors| < limit
    ensures Meets(limit, errors, AllMembers(cfg, members, path, depth),
                  VisitMembers(cfg, limit, errors, members, path, depth), 1 + MembersObjects(members))
    decreases members, 0
  {
    if members == [] {
      assert errors + [] == errors;
    } else {
      var (mid, returned) := VisitMember(cfg, limit, errors, members[0], path, depth);
      MemberMeets(cfg, limit, errors, members[0], path, depth);
      var rest := AllMembers(cfg, members[1..], path, depth);
      var r := VisitMembers(cfg, limit, errors, members, path, depth);
      if !returned {
        if |mid| < limit {
          MembersMeet(cfg, limit, mid, members[1..], path, depth);
        } else {
          FullMembers(cfg, limit, mid, members[1..], path, depth);
        }
      }
      MeetsThen(limit, errors, AllMember(cfg, members[0], path, depth), mid, rest, r,
                MemberObjects(members[0]), 1 + MembersObjects(members));
    }
  }

  /** The early-exit scan reports nothing exactly when the full traversal does; its first reports are those of the
      full traversal, in order; and it exceeds the limit by at most one report per enclosing object. */
  lemma EarlyExitKeepsVerdict(cfg: Config, limit: nat, v: Value)
    requires limit > 0
    ensures var full, r := All(cfg, v, [], 0), Visit(cfg, limit, [], v, [], 0);
            && (r == [] <==> full == [])
            && (if |full| < limit then r == full
                else limit <= |r| <= limit + Objects(v) && r[..limit] == full[..limit])
  {
    VisitMeets(cfg, limit, [], v, [], 0);
    assert [] + All(cfg, v, [], 0) == All(cfg, v, [], 0);
  }
}
