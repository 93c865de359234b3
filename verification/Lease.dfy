/** The lease authority: any number of processes run `lease` over one shared directory, holding an O_EXCL
    lock file around a read-check-write of `leased.json`. A state machine over the steps of the script. */
module Lease {
  import opened Options

  datatype Request = Request(key: string, amount: real, ceiling: real)

  type Ledger = map<string, real>

  /** `leased.json`: not there, opened for writing but not complete (no proper prefix of an object's text
      parses as JSON), or holding a dictionary. */
  datatype File = Absent | Torn | Stored(ledger: Ledger)

  /** Where a process stands in `lease`. `Unwinding` is the `finally` block entered by an exception. */
  datatype Pc =
    | Spinning
    | Holding
    | Opening
    | Loaded(data: Ledger)
    | Writing(data: Ledger)
    | Unlocking(granted: bool)
    | Unwinding
    | Returned(granted: bool)
    | Raised
    | TimedOut
    | Crashed(at: Pc)

  /** `acquired` is the history of lock acquisitions: the processes whose O_EXCL create succeeded, in order. */
  datatype State = State(lockFile: bool, file: File, pcs: seq<Pc>, acquired: seq<nat>)

  /** `Fail` is an exception before the file is opened for writing (the existence test, the read, the parsing, or the
      opening itself), `FailWrite` one after that, when the file is already truncated. */
  datatype Action = TryLock | TimeOut | TestExists | Read | Decide | Fail | FinishWrite | FailWrite | Unlock | Crash

  datatype Event = Event(node: nat, action: Action)

  const SLACK := 0.000000001

  function Leased(ledger: Ledger, key: string): real {
    if key in ledger then ledger[key] else 0.0
  }

  /** `cur + amount <= ceiling + 1e-9` */
  predicate Grants(ledger: Ledger, r: Request) {
    Leased(ledger, r.key) + r.amount <= r.ceiling + SLACK
  }

  /** The ledger after the request has run alone. */
  function Settle(ledger: Ledger, r: Request): Ledger {
    if Grants(ledger, r) then ledger[r.key := Leased(ledger, r.key) + r.amount] else ledger
  }

  /** What a reader of the file gets; a missing file counts as the empty dictionary. */
  function Contents(f: File): Ledger
    requires !f.Torn?
  {
    if f.Stored? then f.ledger else map[]
  }

  predicate Finished(pc: Pc) {
    pc.Returned? || pc.Raised? || pc.TimedOut? || pc.Crashed?
  }

  /** The steps that a process takes by itself once the lock file is its own, and its death at any moment. */
  function Local(r: Request, file: File, pc: Pc, action: Action): Option<(File, Pc)> {
    match action
    case TestExists =>
      if pc.Holding? then Some((file, if file.Absent? then Loaded(map[]) else Opening)) else None
    case Read =>
      if pc.Opening? then Some((file, if file.Stored? then Loaded(file.ledger) else Unwinding)) else None
    case Decide =>
      if !pc.Loaded? then None
      else if Grants(pc.data, r) then Some((Torn, Writing(pc.data[r.key := Leased(pc.data, r.key) + r.amount])))
      else Some((file, Unlocking(false)))
    case Fail => if pc.Holding? || pc.Opening? || pc.Loaded? then Some((file, Unwinding)) else None
    case FinishWrite => if pc.Writing? then Some((Stored(pc.data), Unlocking(true))) else None
    case FailWrite => if pc.Writing? then Some((file, Unwinding)) else None
    case Unlock =>
      if pc.Unlocking? then Some((file, Returned(pc.granted)))
      else if pc.Unwinding? then Some((file, Raised))
      else None
    case Crash => if Finished(pc) then None else Some((file, Crashed(pc)))
    case _ => None
  }

  /** One step of process `e.node`; `None` when the process is not at that point of the script. */
  function Step(reqs: seq<Request>, s: State, e: Event): Option<State>
    requires |s.pcs| == |reqs|
  {
    if e.node >= |reqs| then None
    else
      match e.action
      case TryLock =>
        if !s.pcs[e.node].Spinning? then None
        else if s.lockFile then Some(s)
        else Some(s.(lockFile := true, pcs := s.pcs[e.node := Holding], acquired := s.acquired + [e.node]))
      case TimeOut =>
        if s.pcs[e.node].Spinning? && s.lockFile then Some(s.(pcs := s.pcs[e.node := TimedOut])) else None
      case _ =>
        match Local(reqs[e.node], s.file, s.pcs[e.node], e.action)
        case None => None
        case Some((file, pc)) =>
          Some(s.(lockFile := s.lockFile && !e.action.Unlock?, file := file, pcs := s.pcs[e.node := pc]))
  }

  /** All processes start outside the lock; the file may already hold leases, or be missing. */
  predicate Start(reqs: seq<Request>, s: State) {
    !s.lockFile && !s.file.Torn? && |s.pcs| == |reqs| && s.acquired == [] &&
    forall i :: 0 <= i < |s.pcs| ==> s.pcs[i].Spinning?
  }

  function Run(reqs: seq<Request>, s: State, events: seq<Event>): (r: Option<State>)
    requires |s.pcs| == |reqs|
    ensures r.Some? ==> |r.value.pcs| == |reqs|
  {
    if events == [] then Some(s)
    else
      var before := Run(reqs, s, events[..|events| - 1]);
      if before.None? then None else Step(reqs, before.value, events[|events| - 1])
  }

  // ------------------------------------------- one request at a time, in order

  predicate InRange(n: nat, order: seq<nat>) {
    forall k :: 0 <= k < |order| ==> order[k] < n
  }

  /** The ledger after the requests of `order` have run one after the other. */
  function After(reqs: seq<Request>, order: seq<nat>, ledger: Ledger): Ledger
    requires InRange(|reqs|, order)
  {
    if order == [] then ledger
    else Settle(After(reqs, order[..|order| - 1], ledger), reqs[order[|order| - 1]])
  }

  /** What the `j`-th request of `order` is told in that run. */
  predicate Verdict(reqs: seq<Request>, order: seq<nat>, ledger: Ledger, j: nat)
    requires j < |order| && InRange(|reqs|, order)
  {
    Grants(After(reqs, order[..j], ledger), reqs[order[j]])
  }
}
