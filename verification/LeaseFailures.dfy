/** What a failed write does to the lease authority, exactly, and that nothing else breaks it. */
module LeaseFailures {
  import opened Options
  import opened Lease
  import opened LeaseProof
  import opened LeaseLimits

  /** The file is incomplete and its writer has given up. */
  predicate Broken(s: State)
    requires InRange(|s.pcs|, s.acquired)
  {
    s.file.Torn? && !(Owner(s).Some? && Owner(s).value.Writing?)
  }

  predicate FailsWrite(events: seq<Event>) {
    exists k :: 0 <= k < |events| && events[k].action.FailWrite?
  }

  /** The process has its verdict, or had it when it stopped. */
  predicate Decided(pc: Pc) {
    Committed(pc) || Denied(pc)
  }

  /** The owner's view of the file: complete before it decides, truncated while it writes. */
  ghost predicate SeenByOwner(file: File, pc: Pc) {
    (pc.Loaded? ==> !file.Torn?) && (pc.Writing? ==> file.Torn?)
  }

  lemma OwnerSees(reqs: seq<Request>, init: Ledger, s: State)
    requires OrderInv(reqs, init, s)
    ensures Owner(s).Some? ==> SeenByOwner(s.file, Owner(s).value)
  {
  }

  lemma BrokenMove(r: Request, file: File, pc: Pc, action: Action)
    requires Inside(pc) && SeenByOwner(file, pc) && Local(r, file, pc, action).Some?
    ensures var (file', pc') := Local(r, file, pc, action).value;
            && (file'.Torn? && !Base(pc').Writing? <==> (file.Torn? && !pc.Writing?) || action.FailWrite?)
            && (action.Unlock? ==> !Base(pc').Writing?)
            && (file.Torn? && !pc.Writing? && Decided(pc') ==> Decided(pc))
  {
  }

  /** One step: what breaks the authority, and that a broken one decides nothing. */
  lemma BrokenStep(reqs: seq<Request>, s: State, e: Event)
    requires LockInv(reqs, s) && (Owner(s).Some? ==> SeenByOwner(s.file, Owner(s).value)) && Step(reqs, s, e).Some?
    ensures LockInv(reqs, Step(reqs, s, e).value)
    ensures Broken(Step(reqs, s, e).value) <==> Broken(s) || e.action.FailWrite?
    ensures Broken(s) && Decided(Step(reqs, s, e).value.pcs[e.node]) ==> Decided(s.pcs[e.node])
  {
    LockStep(reqs, s, e);
    if Owns(s.pcs[e.node]) {
      var file, pc := OwnerView(reqs, s, e);
      BrokenMove(reqs[e.node], s.file, s.pcs[e.node], e.action);
    } else {
      OutsideView(reqs, s, e);
      BrokenOutside(reqs, s, Step(reqs, s, e).value, e.node);
    }
  }

  lemma BrokenOutside(reqs: seq<Request>, s: State, s': State, node: nat)
    requires LockInv(reqs, s) && LockInv(reqs, s') && node < |reqs| && Outside(s.pcs[node])
    requires s'.file == s.file && s'.pcs == s.pcs[node := s'.pcs[node]]
    requires (!s.lockFile && s'.pcs[node] == Holding && s'.lockFile && s'.acquired == s.acquired + [node]) ||
             (s' == s.(pcs := s'.pcs) && Outside(s'.pcs[node]))
    ensures Broken(s') <==> Broken(s)
    ensures !Decided(s'.pcs[node])
  {
  }

  lemma FailsWriteLast(events: seq<Event>)
    requires events != []
    ensures FailsWrite(events) <==> FailsWrite(events[..|events| - 1]) || events[|events| - 1].action.FailWrite?
  {
    assert forall k :: 0 <= k < |events| - 1 ==> events[..|events| - 1][k] == events[k];
  }

  /** Over every run the authority is broken if and only if some write has failed. */
  lemma {:induction false} BrokenExactly(reqs: seq<Request>, start: State, events: seq<Event>)
    requires Start(reqs, start) && Run(reqs, start, events).Some?
    ensures LockInv(reqs, Run(reqs, start, events).value)
    ensures Broken(Run(reqs, start, events).value) <==> FailsWrite(events)
  {
    if events != [] {
      var before := events[..|events| - 1];
      BrokenExactly(reqs, start, before);
      RunKeepsOrder(reqs, start, before);
      OwnerSees(reqs, Contents(start.file), Run(reqs, start, before).value);
      BrokenStep(reqs, Run(reqs, start, before).value, events[|events| - 1]);
      FailsWriteLast(events);
    }
  }

  /** While no write has failed, whoever is about to read the file finds it complete: it is incomplete only in the
      hands of its writer. */
  lemma NoTornRead(reqs: seq<Request>, start: State, events: seq<Event>, s: State)
    requires Start(reqs, start) && Run(reqs, start, events) == Some(s) && !FailsWrite(events)
    ensures |s.pcs| == |reqs| && InRange(|reqs|, s.acquired)
    ensures s.file.Torn? ==> Owner(s).Some? && Owner(s).value.Writing?
    ensures forall i :: 0 <= i < |reqs| && s.pcs[i].Opening? ==> !s.file.Torn?
  {
    BrokenExactly(reqs, start, events);
    RunKeepsOrder(reqs, start, events);
  }

  // -------------------------------------------------------- after the failure

  lemma OnlyOneMoves(reqs: seq<Request>, s: State, e: Event)
    requires |s.pcs| == |reqs| && Step(reqs, s, e).Some?
    ensures var pcs := Step(reqs, s, e).value.pcs;
            |pcs| == |reqs| && forall i :: 0 <= i < |reqs| && i != e.node ==> pcs[i] == s.pcs[i]
  {
  }

  /** After a failed write the authority fails closed, whatever happens next: the file stays unreadable and nobody who
      had no verdict before the failure ever gets one. */
  lemma {:induction false} BrokenForever(reqs: seq<Request>, start: State, events: seq<Event>, k: nat)
    requires Start(reqs, start) && Run(reqs, start, events).Some? && k < |events| && events[k].action.FailWrite?
    ensures Run(reqs, start, events).value.file.Torn?
    ensures Run(reqs, start, events[..k + 1]).Some?
    ensures forall i :: 0 <= i < |reqs| && Decided(Run(reqs, start, events).value.pcs[i]) ==>
              Decided(Run(reqs, start, events[..k + 1]).value.pcs[i])
    decreases |events|
  {
    BrokenExactly(reqs, start, events);
    if k + 1 == |events| {
      assert events[..k + 1] == events;
    } else {
      var before, e := events[..|events| - 1], events[|events| - 1];
      assert before[..k + 1] == events[..k + 1];
      BrokenForever(reqs, start, before, k);
      BrokenExactly(reqs, start, before);
      RunKeepsOrder(reqs, start, before);
      OwnerSees(reqs, Contents(start.file), Run(reqs, start, before).value);
      BrokenStep(reqs, Run(reqs, start, before).value, e);
      OnlyOneMoves(reqs, Run(reqs, start, before).value, e);
    }
  }

  lemma RunMore(reqs: seq<Request>, s: State, events: seq<Event>, e: Event)
    requires |s.pcs| == |reqs| && Run(reqs, s, events).Some?
    ensures Run(reqs, s, events + [e]) == Step(reqs, Run(reqs, s, events).value, e)
  {
  }

  lemma SetPc(pcs: seq<Pc>, i: nat, pcs': seq<Pc>)
    requires i < |pcs| == |pcs'| && forall k :: 0 <= k < |pcs| && k != i ==> pcs[k] == pcs'[k]
    ensures pcs[i := pcs'[i]] == pcs'
  {
  }

  /** A write that fails after truncating the file leaves it broken with the lock free: the next reader sees it. */
  lemma FailedWriteIsSeen(r: Request, q: Request) returns (events: seq<Event>)
    requires Grants(map[], r)
    ensures var start := State(false, Absent, [Spinning, Spinning], []);
            Run([r, q], start, events) == Some(State(true, Torn, [Raised, Unwinding], [0, 1]))
  {
    var reqs, start := [r, q], State(false, Absent, [Spinning, Spinning], []);
    events := [];
    var script := [Event(0, TryLock), Event(0, TestExists), Event(0, Decide), Event(0, FailWrite), Event(0, Unlock),
                   Event(1, TryLock), Event(1, TestExists), Event(1, Read)];
    var w: Ledger := map[r.key := Leased(map[], r.key) + r.amount];
    var states := [start, State(true, Absent, [Holding, Spinning], [0]),
                   State(true, Absent, [Loaded(map[]), Spinning], [0]),
                   State(true, Torn, [Writing(w), Spinning], [0]), State(true, Torn, [Unwinding, Spinning], [0]),
                   State(false, Torn, [Raised, Spinning], [0]), State(true, Torn, [Raised, Holding], [0, 1]),
                   State(true, Torn, [Raised, Opening], [0, 1]), State(true, Torn, [Raised, Unwinding], [0, 1])];
    forall k | 0 <= k < 8 ensures Step(reqs, states[k], script[k]) == Some(states[k + 1]) {
      var none: seq<nat> := [];
      assert none + [0] == [0] && [0] + [1] == [0, 1];
      SetPc(states[k].pcs, script[k].node, states[k + 1].pcs);
    }
    for k := 0 to 8
      invariant Run(reqs, start, events) == Some(states[k])
    {
      RunMore(reqs, start, events, script[k]);
      events := events + [script[k]];
    }
  }
}
