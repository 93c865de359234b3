/** `_private_key_errors`: a traversal of a JSON document that stops early once it has enough to report. */
module PrivacyScan {
  import opened Options
  import opened Json

  const MAX_DEPTH := 64

  /** What the scan is configured with. `keyLabel` is the normal form of a key, `privateLabel` the test on its words
      and fragments, `privateText` the search for quoted or assigned private fields inside a string value. */
  datatype Config = Config(
    keyLabel: Str -> string,
    privateLabel: string -> bool,
    privateText: Str -> bool,
    counters: map<string, set<Str>>,
    allowedTokenKeys: set<string>,
    allowedKeys: Option<set<string>>,
    priceValues: map<string, set<Str>>)

  datatype Kind = TooDeep | BadCounter | PrivateField | UndocumentedValue | UnrecognizedField | PrivateText

  datatype PathStep = Key(k: Str) | Index(i: nat)

  datatype Error = Error(kind: Kind, path: seq<PathStep>)

  /** How a member is treated: a token counter object (checked, never entered), reported and entered, or entered. */
  datatype Treatment = Counter(valid: bool) | Reported(kind: Kind) | Clean

  predicate CounterObject(cfg: Config, name: string, item: Value)
    requires name in cfg.counters
  {
    item.Object? && forall i :: 0 <= i < |item.members| ==>
      item.members[i].0 in cfg.counters[name] &&
      ((name == "prompt_tokens_details" && item.members[i].1.Null?) ||
       (item.members[i].1.Int? && item.members[i].1.n >= 0))
  }

  function Treat(cfg: Config, m: (Str, Value)): Treatment {
    var name := cfg.keyLabel(m.0);
    if name in cfg.counters then Counter(CounterObject(cfg, name, m.1))
    else if name !in cfg.allowedTokenKeys && cfg.privateLabel(name) then Reported(PrivateField)
    else if cfg.allowedKeys.Some? && name in cfg.priceValues && !m.1.Null? &&
            !(m.1.String? && m.1.s in cfg.priceValues[name]) then Reported(UndocumentedValue)
    else if cfg.allowedKeys.Some? && name !in cfg.allowedKeys.value && name !in cfg.allowedTokenKeys &&
            (m.1.String? || m.1.Object? || m.1.Array?) then Reported(UnrecognizedField)
    else Clean
  }

  // ----------------------------------------------------- the traversal without a limit

  function All(cfg: Config, v: Value, path: seq<PathStep>, depth: nat): seq<Error>
    decreases v, 1
  {
    if depth > MAX_DEPTH then [Error(TooDeep, [])]
    else
      match v
      case Object(members) => AllMembers(cfg, members, path, depth)
      case Array(items) => AllItems(cfg, items, path, depth, 0)
      case String(s) => if cfg.privateText(s) then [Error(PrivateText, path)] else []
      case _ => []
  }

  /** What a member reports by itself. */
  function Own(cfg: Config, m: (Str, Value), path: seq<PathStep>): seq<Error> {
    match Treat(cfg, m)
    case Counter(valid) => if valid then [] else [Error(BadCounter, path + [Key(m.0)])]
    case Reported(kind) => [Error(kind, path + [Key(m.0)])]
    case Clean => []
  }

  function AllMember(cfg: Config, m: (Str, Value), path: seq<PathStep>, depth: nat): seq<Error>
    decreases m, 2
  {
    Own(cfg, m, path) + if Treat(cfg, m).Counter? then [] else All(cfg, m.1, path + [Key(m.0)], depth + 1)
  }

  function AllMembers(cfg: Config, members: seq<(Str, Value)>, path: seq<PathStep>, depth: nat): seq<Error>
    decreases members, 0
  {
    if members == [] then [] else AllMember(cfg, members[0], path, depth) + AllMembers(cfg, members[1..], path, depth)
  }

  function AllItems(cfg: Config, items: seq<Value>, path: seq<PathStep>, depth: nat, idx: nat): seq<Error>
    decreases items, 0
  {
    if items == [] then []
    else All(cfg, items[0], path + [Index(idx)], depth + 1) + AllItems(cfg, items[1..], path, depth, idx + 1)
  }

  // -------------------------------------------------------- the traversal as written

  /** The shared error list after `visit(v, path, depth)`. */
  function Visit(cfg: Config, limit: nat, errors: seq<Error>, v: Value, path: seq<PathStep>, depth: nat): seq<Error>
    decreases v, 1
  {
    if |errors| >= limit then errors
    else if depth > MAX_DEPTH then errors + [Error(TooDeep, [])]
    else
      match v
      case Object(members) => VisitMembers(cfg, limit, errors, members, path, depth)
      case Array(items) => VisitItems(cfg, limit, errors, items, path, depth, 0)
      case String(s) => if cfg.privateText(s) then errors + [Error(PrivateText, path)] else errors
      case _ => errors
  }

  /** One round of the loop over a dict; the flag says that the round returned. */
  function VisitMember(cfg: Config, limit: nat, errors: seq<Error>, m: (Str, Value), path: seq<PathStep>, depth: nat)
    : (seq<Error>, bool)
    decreases m, 2
  {
    var reported := errors + Own(cfg, m, path);
    if Own(cfg, m, path) != [] && |reported| >= limit then (reported, true)
    else if Treat(cfg, m).Counter? then (reported, false)
    else (Visit(cfg, limit, reported, m.1, path + [Key(m.0)], depth + 1), false)
  }

  function VisitMembers(cfg: Config, limit: nat, errors: seq<Error>, members: seq<(Str, Value)>, path: seq<PathStep>,
                        depth: nat)
    : seq<Error>
    decreases members, 0
  {
    if members == [] then errors
    else
      var (after, returned) := VisitMember(cfg, limit, errors, members[0], path, depth);
      if returned then after else VisitMembers(cfg, limit, after, members[1..], path, depth)
  }

  function VisitItems(cfg: Config, limit: nat, errors: seq<Error>, items: seq<Value>, path: seq<PathStep>, depth: nat,
                      idx: nat)
    : seq<Error>
    decreases items, 0
  {
    if items == [] then errors
    else
      var after := Visit(cfg, limit, errors, items[0], path + [Index(idx)], depth + 1);
      if |after| >= limit then after else VisitItems(cfg, limit, after, items[1..], path, depth, idx + 1)
  }

  /** The closure `visit` and the list it appends to. */
  class Scan {
    const cfg: Config
    const limit: nat
    var errors: seq<Error>

    constructor (cfg: Config, limit: nat)
      ensures this.cfg == cfg && this.limit == limit && errors == []
    {
      this.cfg, this.limit, errors := cfg, limit, [];
    }

    method VisitValue(current: Value, path: seq<PathStep>, depth: nat)
      modifies this`errors
      ensures errors == Visit(cfg, limit, old(errors), current, path, depth)
      decreases current
    {
      if |errors| >= limit { return; }
      if depth > MAX_DEPTH {
        errors := errors + [Error(TooDeep, [])];
        return;
      }
      match current
      case Object(members) =>
        for i := 0 to |members|
          invariant VisitMembers(cfg, limit, old(errors), members, path, depth) ==
                    VisitMembers(cfg, limit, errors, members[i..], path, depth)
        {
          var m := members[i];
          assert members[i..][0] == m && members[i..][1..] == members[i + 1..] && errors + [] == errors;
          var treatment := Treat(cfg, m);
          match treatment {
            case Counter(valid) =>
              if !valid {
                errors := errors + [Error(BadCounter, path + [Key(m.0)])];
                if |errors| >= limit { return; }
              }
              continue;
            case Reported(kind) =>
              errors := errors + [Error(kind, path + [Key(m.0)])];
              if |errors| >= limit { return; }
            case Clean =>
          }
          VisitValue(m.1, path + [Key(m.0)], depth + 1);
        }
      case Array(items) =>
        for i := 0 to |items|
          invariant VisitItems(cfg, limit, old(errors), items, path, depth, 0) ==
                    VisitItems(cfg, limit, errors, items[i..], path, depth, i)
        {
          assert items[i..][0] == items[i] && items[i..][1..] == items[i + 1..];
          VisitValue(items[i], path + [Index(i)], depth + 1);
          if |errors| >= limit { return; }
        }
      case String(s) =>
        if cfg.privateText(s) {
          errors := errors + [Error(PrivateText, path)];
        }
      case _ =>
    }
  }

  method PrivateKeyErrors(cfg: Config, value: Value, limit: nat) returns (errors: seq<Error>)
    ensures errors == Visit(cfg, limit, [], value, [], 0)
  {
    var scan := new Scan(cfg, limit);
    scan.VisitValue(value, [], 0);
    errors := scan.errors;
  }
}
