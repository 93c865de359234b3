/** Every interleaving of the lease processes behaves like the requests run one at a time in lock order. */
module LeaseProof {
  import opened Options
  import opened Lease

  /** Where a process stood when it stopped, or stands now. */
  function Base(pc: Pc): Pc {
    if pc.Crashed? then pc.at else pc
  }

  predicate Inside(pc: Pc) {
    pc.Holding? || pc.Opening? || pc.Loaded? || pc.Writing? || pc.Unlocking? || pc.Unwinding?
  }

  /** The process created the lock file and has not removed it. */
  predicate Owns(pc: Pc) {
    Inside(Base(pc))
  }

  ghost predicate LockInv(reqs: seq<Request>, s: State) {
    && |s.pcs| == |reqs| && InRange(|reqs|, s.acquired)
    && (forall i :: 0 <= i < |s.pcs| ==> !Base(s.pcs[i]).Crashed?)
    && (s.lockFile <==> s.acquired != [] && Owns(s.pcs[s.acquired[|s.acquired| - 1]]))
    && (forall i :: 0 <= i < |s.pcs| && Owns(s.pcs[i]) ==> s.acquired != [] && i == s.acquired[|s.acquired| - 1])
    && (forall j, k :: 0 <= j < k < |s.acquired| ==> s.acquired[j] != s.acquired[k])
    && (forall i :: 0 <= i < |s.pcs| ==> (i in s.acquired <==> !Outside(s.pcs[i])))
  }

  /** The process has not got past the lock. */
  predicate Outside(pc: Pc) {
    Base(pc).Spinning? || Base(pc).TimedOut?
  }

  lemma LockMove(reqs: seq<Request>, s: State, node: nat, pc: Pc, lockFile: bool, file: File)
    requires LockInv(reqs, s) && node < |reqs| && !Base(pc).Crashed?
    requires (Outside(pc) <==> Outside(s.pcs[node])) && (Owns(pc) ==> Owns(s.pcs[node]))
    requires lockFile <==> if Owns(s.pcs[node]) then Owns(pc) else s.lockFile
    ensures LockInv(reqs, s.(lockFile := lockFile, pcs := s.pcs[node := pc], file := file))
  {
  }

  lemma LockStep(reqs: seq<Request>, s: State, e: Event)
    requires LockInv(reqs, s) && Step(reqs, s, e).Some?
    ensures LockInv(reqs, Step(reqs, s, e).value)
  {
    var s' := Step(reqs, s, e).value;
    if !e.action.TryLock? {
      LockMove(reqs, s, e.node, s'.pcs[e.node], s'.lockFile, s'.file);
      assert s' == s.(lockFile := s'.lockFile, pcs := s.pcs[e.node := s'.pcs[e.node]], file := s'.file);
    }
  }

  // ------------------------------------------------ the run in lock order

  /** The process left its critical section by an exception, or is leaving it. */
  predicate GaveUp(pc: Pc) {
    Base(pc).Unwinding? || Base(pc).Raised?
  }

  /** The processes that got the lock and did not give up, in the order in which they got it. */
  function Served(acquired: seq<nat>, pcs: seq<Pc>): (served: seq<nat>)
    requires InRange(|pcs|, acquired)
    ensures InRange(|pcs|, served) && forall i :: i in served <==> i in acquired && !GaveUp(pcs[i])
  {
    if acquired == [] then []
    else
      var n := |acquired| - 1;
      Served(acquired[..n], pcs) + if GaveUp(pcs[acquired[n]]) then [] else [acquired[n]]
  }

  lemma {:induction false} ServedWithout(acquired: seq<nat>, pcs: seq<Pc>, node: nat, pc: Pc)
    requires InRange(|pcs|, acquired) && node < |pcs| && node !in acquired
    ensures Served(acquired, pcs[node := pc]) == Served(acquired, pcs)
  {
    if acquired != [] {
      ServedWithout(acquired[..|acquired| - 1], pcs, node, pc);
    }
  }

  /** Those served before the process that got the lock last. */
  function Ahead(s: State): (ahead: seq<nat>)
    requires InRange(|s.pcs|, s.acquired) && s.acquired != []
    ensures InRange(|s.pcs|, ahead) && forall i <- ahead :: i in s.acquired[..|s.acquired| - 1]
  {
    Served(s.acquired[..|s.acquired| - 1], s.pcs)
  }

  /** The served processes, with the one that got the lock last, which stands at `pc`. */
  function WithLast(ahead: seq<nat>, node: nat, pc: Pc): seq<nat> {
    if GaveUp(pc) then ahead else ahead + [node]
  }

  /** A step of the process that got the lock last decides only whether it is served itself. */
  lemma ServedMove(reqs: seq<Request>, s: State, node: nat, pc: Pc)
    requires LockInv(reqs, s) && s.acquired != [] && node == s.acquired[|s.acquired| - 1]
    ensures Served(s.acquired, s.pcs[node := pc]) == WithLast(Ahead(s), node, pc)
    ensures Served(s.acquired, s.pcs) == WithLast(Ahead(s), node, s.pcs[node])
    ensures node !in Ahead(s)
  {
    ServedWithout(s.acquired[..|s.acquired| - 1], s.pcs, node, pc);
  }

  /** The file and the lock owner's view of it, against the requests of `order` run one at a time: everybody before
      the owner is in the file, the owner itself once its write is complete. An owner that has given up is not in
      `order`. */
  ghost predicate FileInv(reqs: seq<Request>, init: Ledger, order: seq<nat>, file: File, owner: Option<Pc>)
    requires InRange(|reqs|, order)
  {
    if owner.None? || owner.value.Unwinding? then !file.Torn? ==> Contents(file) == After(reqs, order, init)
    else order != [] && HolderInv(reqs, init, order, file, owner.value)
  }

  ghost predicate HolderInv(reqs: seq<Request>, init: Ledger, order: seq<nat>, file: File, pc: Pc)
    requires InRange(|reqs|, order) && order != []
  {
    var before := After(reqs, order[..|order| - 1], init);
    match pc
    case Writing(data) =>
      file.Torn? && Verdict(reqs, order, init, |order| - 1) && data == After(reqs, order, init)
    case Unlocking(_) => !file.Torn? && Contents(file) == After(reqs, order, init)
    case Loaded(data) => !file.Torn? && Contents(file) == before == data
    case Opening => !file.Absent? && (!file.Torn? ==> Contents(file) == before)
    case _ => !file.Torn? ==> Contents(file) == before
  }

  /** What the process holding the lock is, or was when it died, about to do. */
  function Owner(s: State): Option<Pc>
    requires InRange(|s.pcs|, s.acquired)
  {
    if s.lockFile && s.acquired != [] then Some(Base(s.pcs[s.acquired[|s.acquired| - 1]])) else None
  }

  /** Processes that hold or held a verdict have the one of the sequential run. */
  ghost predicate VerdictInv(reqs: seq<Request>, init: Ledger, order: seq<nat>, pcs: seq<Pc>)
    requires |reqs| == |pcs| && InRange(|reqs|, order)
  {
    forall j :: 0 <= j < |order| ==> VerdictAt(reqs, init, order, j, Base(pcs[order[j]]))
  }

  ghost predicate VerdictAt(reqs: seq<Request>, init: Ledger, order: seq<nat>, j: nat, pc: Pc)
    requires InRange(|reqs|, order) && j < |order|
  {
    pc.Unlocking? || pc.Returned? ==> pc.granted == Verdict(reqs, order, init, j)
  }

  /** Everything that ties a state to the run of `order`. */
  ghost predicate RunInv(reqs: seq<Request>, init: Ledger, order: seq<nat>, file: File, owner: Option<Pc>,
                         pcs: seq<Pc>)
  {
    && |reqs| == |pcs| && InRange(|reqs|, order)
    && FileInv(reqs, init, order, file, owner) && VerdictInv(reqs, init, order, pcs)
  }

  ghost predicate OrderInv(reqs: seq<Request>, init: Ledger, s: State) {
    LockInv(reqs, s) && RunInv(reqs, init, Served(s.acquired, s.pcs), s.file, Owner(s), s.pcs)
  }

  /** The verdicts of `order` do not depend on what comes after it. */
  lemma VerdictsKept(reqs: seq<Request>, init: Ledger, order: seq<nat>, order': seq<nat>, pcs: seq<Pc>, pcs': seq<Pc>)
    requires |reqs| == |pcs| == |pcs'| && InRange(|reqs|, order) && InRange(|reqs|, order')
    requires VerdictInv(reqs, init, order, pcs) && order <= order'
    requires forall i <- order :: pcs'[i] == pcs[i]
    ensures forall j :: 0 <= j < |order| ==> VerdictAt(reqs, init, order', j, Base(pcs'[order'[j]]))
  {
    forall j | 0 <= j < |order| ensures VerdictAt(reqs, init, order', j, Base(pcs'[order'[j]])) {
      assert order'[..j] == order[..j] && order'[j] == order[j] && order[j] in order;
      assert VerdictAt(reqs, init, order, j, Base(pcs[order[j]]));
    }
  }

  lemma RunAcquire(reqs: seq<Request>, init: Ledger, order: seq<nat>, file: File, pcs: seq<Pc>, node: nat)
    requires RunInv(reqs, init, order, file, None, pcs) && node < |reqs| && node !in order
    ensures RunInv(reqs, init, order + [node], file, Some(Holding), pcs[node := Holding])
  {
    var order' := order + [node];
    assert order'[..|order|] == order;
    VerdictsKept(reqs, init, order, order', pcs, pcs[node := Holding]);
  }

  lemma RunOutside(reqs: seq<Request>, init: Ledger, order: seq<nat>, file: File, owner: Option<Pc>, pcs: seq<Pc>,
                   pcs': seq<Pc>)
    requires RunInv(reqs, init, order, file, owner, pcs) && |pcs'| == |pcs| && forall i <- order :: pcs'[i] == pcs[i]
    ensures RunInv(reqs, init, order, file, owner, pcs')
  {
    VerdictsKept(reqs, init, order, order, pcs, pcs');
  }

  /** The owner's verdict and file, and what it leaves behind when it gives up. */
  lemma RunOwner(reqs: seq<Request>, init: Ledger, ahead: seq<nat>, node: nat, file: File, pcs: seq<Pc>, action: Action)
    requires InRange(|reqs|, ahead) && node < |reqs| == |pcs| && node !in ahead
    requires RunInv(reqs, init, ahead + [node], file, Some(pcs[node]), pcs)
    requires Inside(pcs[node]) && !pcs[node].Unwinding? && Local(reqs[node], file, pcs[node], action).Some?
    ensures var (file', pc') := Local(reqs[node], file, pcs[node], action).value;
            if GaveUp(pc') then
              !action.Unlock? && Base(pc').Unwinding? &&
                  RunInv(reqs, init, ahead, file', Some(Base(pc')), pcs[node := pc'])
            else
              RunInv(reqs, init, ahead + [node], file',
                     if action.Unlock? then None else Some(Base(pc')), pcs[node := pc'])
  {
    var order := ahead + [node];
    var (file', pc') := Local(reqs[node], file, pcs[node], action).value;
    assert order[..|ahead|] == ahead && order[|ahead|] == node;
    assert VerdictAt(reqs, init, order, |ahead|, Base(pcs[node]));
    FileMove(reqs, init, order, file, pcs[node], action);
    VerdictsDropped(reqs, init, ahead, node, pcs);
    RunVerdicts(reqs, init, ahead, node, pcs, pc');
  }

  lemma VerdictsDropped(reqs: seq<Request>, init: Ledger, ahead: seq<nat>, node: nat, pcs: seq<Pc>)
    requires |reqs| == |pcs| && InRange(|reqs|, ahead + [node]) && InRange(|reqs|, ahead)
    requires VerdictInv(reqs, init, ahead + [node], pcs)
    ensures VerdictInv(reqs, init, ahead, pcs)
  {
    var order := ahead + [node];
    forall j | 0 <= j < |ahead| ensures VerdictAt(reqs, init, ahead, j, Base(pcs[ahead[j]])) {
      assert order[..j] == ahead[..j] && order[j] == ahead[j];
      assert VerdictAt(reqs, init, order, j, Base(pcs[order[j]]));
    }
  }

  lemma RunVerdicts(reqs: seq<Request>, init: Ledger, ahead: seq<nat>, node: nat, pcs: seq<Pc>, pc: Pc)
    requires |reqs| == |pcs| && InRange(|reqs|, ahead) && node < |reqs| && node !in ahead
    requires VerdictInv(reqs, init, ahead, pcs)
    ensures VerdictInv(reqs, init, ahead, pcs[node := pc])
    ensures InRange(|reqs|, ahead + [node])
    ensures VerdictAt(reqs, init, ahead + [node], |ahead|, Base(pc)) ==>
              VerdictInv(reqs, init, ahead + [node], pcs[node := pc])
  {
    var order := ahead + [node];
    VerdictsKept(reqs, init, ahead, ahead, pcs, pcs[node := pc]);
    assert order[..|ahead|] == ahead;
    VerdictsKept(reqs, init, ahead, order, pcs, pcs[node := pc]);
  }

  lemma FileMove(reqs: seq<Request>, init: Ledger, order: seq<nat>, file: File, pc: Pc, action: Action)
    requires InRange(|reqs|, order) && order != [] && Inside(pc) && !pc.Unwinding?
    requires HolderInv(reqs, init, order, file, pc) && VerdictAt(reqs, init, order, |order| - 1, pc)
    requires Local(reqs[order[|order| - 1]], file, pc, action).Some?
    ensures var (file', pc') := Local(reqs[order[|order| - 1]], file, pc, action).value;
            if GaveUp(pc') then
              !action.Unlock? && Base(pc').Unwinding? &&
              FileInv(reqs, init, order[..|order| - 1], file', Some(Base(pc')))
            else
              FileInv(reqs, init, order, file', if action.Unlock? then None else Some(Base(pc'))) &&
              VerdictAt(reqs, init, order, |order| - 1, Base(pc'))
  {
  }

  // -------------------------------------------------------------- the steps

  lemma OrderStep(reqs: seq<Request>, init: Ledger, s: State, e: Event)
    requires OrderInv(reqs, init, s) && Step(reqs, s, e).Some?
    ensures OrderInv(reqs, init, Step(reqs, s, e).value)
  {
    LockStep(reqs, s, e);
    if Owns(s.pcs[e.node]) {
      OwnerMove(reqs, init, s, e);
    } else {
      OutsideView(reqs, s, e);
      var s' := Step(reqs, s, e).value;
      ServedWithout(s.acquired, s.pcs, e.node, s'.pcs[e.node]);
      if e.action.TryLock? && !s.lockFile {
        assert s'.acquired[..|s.acquired|] == s.acquired;
        RunAcquire(reqs, init, Served(s.acquired, s.pcs), s.file, s.pcs, e.node);
      } else {
        RunOutside(reqs, init, Served(s.acquired, s.pcs), s.file, Owner(s), s.pcs, s'.pcs);
      }
    }
  }

  /** A step of a process that does not own the lock: it acquires it, or nothing that matters changes. */
  lemma OutsideView(reqs: seq<Request>, s: State, e: Event)
    requires LockInv(reqs, s) && Step(reqs, s, e).Some? && !Owns(s.pcs[e.node])
    ensures var s' := Step(reqs, s, e).value;
            && Outside(s.pcs[e.node]) && |s'.pcs| == |s.pcs| && s'.file == s.file
            && s'.pcs == s.pcs[e.node := s'.pcs[e.node]]
            && if e.action.TryLock? && !s.lockFile
               then s'.pcs[e.node] == Holding && s'.lockFile && s'.acquired == s.acquired + [e.node]
               else s' == s.(pcs := s'.pcs) && Outside(s'.pcs[e.node])
  {
  }

  /** A step of the process that owns the lock, seen from the lock file. */
  lemma OwnerView(reqs: seq<Request>, s: State, e: Event) returns (file: File, pc: Pc)
    requires LockInv(reqs, s) && Step(reqs, s, e).Some? && Owns(s.pcs[e.node])
    requires LockInv(reqs, Step(reqs, s, e).value)
    ensures !e.action.TryLock? && !e.action.TimeOut? && Inside(s.pcs[e.node])
    ensures s.lockFile && s.acquired != [] && e.node == s.acquired[|s.acquired| - 1]
    ensures Local(reqs[e.node], s.file, s.pcs[e.node], e.action) == Some((file, pc))
    ensures Owner(s) == Some(s.pcs[e.node])
    ensures var s' := Step(reqs, s, e).value;
            && s' == State(!e.action.Unlock?, file, s.pcs[e.node := pc], s.acquired)
            && Owner(s') == if e.action.Unlock? then None else Some(Base(pc))
  {
    file, pc := Step(reqs, s, e).value.file, Step(reqs, s, e).value.pcs[e.node];
    assert s.acquired[|s.acquired| - 1] == e.node;
  }

  lemma OwnerRuns(reqs: seq<Request>, init: Ledger, ahead: seq<nat>, node: nat, file: File, pcs: seq<Pc>,
                  action: Action, file': File, pc': Pc)
    requires InRange(|reqs|, ahead) && node < |reqs| == |pcs| && node !in ahead && Inside(pcs[node])
    requires RunInv(reqs, init, WithLast(ahead, node, pcs[node]), file, Some(pcs[node]), pcs)
    requires Local(reqs[node], file, pcs[node], action) == Some((file', pc'))
    ensures RunInv(reqs, init, WithLast(ahead, node, pc'), file', if action.Unlock? then None else Some(Base(pc')),
                   pcs[node := pc'])
  {
    if pcs[node].Unwinding? {
      RunOutside(reqs, init, ahead, file, Some(pcs[node]), pcs, pcs[node := pc']);
    } else {
      RunOwner(reqs, init, ahead, node, file, pcs, action);
    }
  }

  lemma OwnerMove(reqs: seq<Request>, init: Ledger, s: State, e: Event)
    requires OrderInv(reqs, init, s) && Step(reqs, s, e).Some? && Owns(s.pcs[e.node])
    requires LockInv(reqs, Step(reqs, s, e).value)
    ensures OrderInv(reqs, init, Step(reqs, s, e).value)
  {
    var file, pc := OwnerView(reqs, s, e);
    ServedMove(reqs, s, e.node, pc);
    OwnerRuns(reqs, init, Ahead(s), e.node, s.file, s.pcs, e.action, file, pc);
  }

  lemma {:induction false} RunKeepsOrder(reqs: seq<Request>, s: State, events: seq<Event>)
    requires Start(reqs, s) && Run(reqs, s, events).Some?
    ensures OrderInv(reqs, Contents(s.file), Run(reqs, s, events).value)
  {
    if events != [] {
      RunKeepsOrder(reqs, s, events[..|events| - 1]);
      OrderStep(reqs, Contents(s.file), Run(reqs, s, events[..|events| - 1]).value, events[|events| - 1]);
    }
  }

  /** Whatever the schedule, with time-outs, exceptions, failed writes and crashes anywhere: at most one process is past
      the lock, nobody acquires it twice, every verdict is the one that the requests, run one at a time in the order
      of lock acquisition, would have got, and when the lock is free the file holds the ledger of that run. A request
      whose process left by an exception has no part in that run. */
  lemma SequentialEquivalence(reqs: seq<Request>, start: State, events: seq<Event>, s: State)
    requires Start(reqs, start) && Run(reqs, start, events) == Some(s)
    ensures |s.pcs| == |reqs| && InRange(|reqs|, s.acquired)
    ensures forall i, k :: 0 <= i < k < |reqs| ==> !(Owns(s.pcs[i]) && Owns(s.pcs[k]))
    ensures forall i, k :: 0 <= i < k < |s.acquired| ==> s.acquired[i] != s.acquired[k]
    ensures var served := Served(s.acquired, s.pcs);
            && (forall i :: 0 <= i < |reqs| && s.pcs[i].Returned? ==> i in served)
            && (forall j :: 0 <= j < |served| && s.pcs[served[j]].Returned? ==>
                  s.pcs[served[j]].granted == Verdict(reqs, served, Contents(start.file), j))
            && (!s.lockFile && !s.file.Torn? ==> Contents(s.file) == After(reqs, served, Contents(start.file)))
  {
    RunKeepsOrder(reqs, start, events);
    var served := Served(s.acquired, s.pcs);
    forall j | 0 <= j < |served| && s.pcs[served[j]].Returned?
      ensures s.pcs[served[j]].granted == Verdict(reqs, served, Contents(start.file), j)
    {
      assert VerdictAt(reqs, Contents(start.file), served, j, Base(s.pcs[served[j]]));
    }
  }

  /** The lock file is removed only by the process that created it: never by one that timed out, never twice. */
  lemma OnlyHolderUnlocks(reqs: seq<Request>, start: State, events: seq<Event>, s: State, e: Event)
    requires Start(reqs, start) && Run(reqs, start, events) == Some(s)
    requires Step(reqs, s, e).Some? && s.lockFile && !Step(reqs, s, e).value.lockFile
    ensures s.acquired != [] && e.node == s.acquired[|s.acquired| - 1]
    ensures s.pcs[e.node].Unlocking? || s.pcs[e.node].Unwinding?
  {
    RunKeepsOrder(reqs, start, events);
    UnlockedByOwner(reqs, s, e);
  }

  lemma UnlockedByOwner(reqs: seq<Request>, s: State, e: Event)
    requires LockInv(reqs, s) && Step(reqs, s, e).Some? && s.lockFile && !Step(reqs, s, e).value.lockFile
    ensures s.acquired != [] && e.node == s.acquired[|s.acquired| - 1]
    ensures s.pcs[e.node].Unlocking? || s.pcs[e.node].Unwinding?
  {
    LockStep(reqs, s, e);
    if Owns(s.pcs[e.node]) {
      var file, pc := OwnerView(reqs, s, e);
    } else {
      OutsideView(reqs, s, e);
    }
  }
}
