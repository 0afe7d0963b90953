/** The halt protocol of a node (include/crisp/comms/bits/BasicNode.tcc): any number of calls of `halt`,
    on worker threads or not, interleaved in any way. Each step touches one shared variable. */
module Halting {
  datatype Pc =
    | Called        // before the test-and-set of the halting flag
    | Claimed       // the flag was clear and is now set; waiting for the mutex
    | Locked        // holds the mutex
    | Stopping      // has set `stopped`; about to test whether this thread may halt the workers
    | BackingOff    // may not: about to reset `stopped`
    | Releasing     // about to clear the halting flag
    | Polling       // runs pending handlers, then returns false
    | Passed        // may halt: wakes the queue, closes the socket, then signals
    | Signalled     // past the disconnect signal: cancels actions, joins the workers
    | Returned(value: bool)

  /** A call knows whether its thread is a worker and whether it was forced. */
  datatype Call = Call(worker: bool, force: bool, pc: Pc)

  datatype Mutex = Free | Held(holder: nat)

  datatype State = State(calls: map<nat, Call>, halting: bool, stopped: bool, emitted: bool, emissions: nat, mutex: Mutex)

  const START := State(map[], false, false, false, 0, Free)

  datatype Step = Begin(id: nat, worker: bool, force: bool) | Advance(id: nat)

  predicate Enabled(s: State, step: Step) {
    match step
    case Begin(id, _, _) => id !in s.calls
    case Advance(id) =>
      && id in s.calls && !s.calls[id].pc.Returned?
      && (s.calls[id].pc == Claimed ==> s.mutex == Free)
  }

  function At(s: State, id: nat, pc: Pc): State
    requires id in s.calls
  {
    s.(calls := s.calls[id := s.calls[id].(pc := pc)])
  }

  /** Where a call goes on: the two decisions are the test-and-set and the can-halt test. */
  function NextPc(c: Call, halting: bool): Pc
    requires !c.pc.Returned?
  {
    match c.pc
    case Called => if halting then Returned(false) else Claimed
    case Claimed => Locked
    case Locked => Stopping
    case Stopping => if c.worker && !c.force then BackingOff else Passed
    case BackingOff => Releasing
    case Releasing => Polling
    case Polling => Returned(false)
    case Passed => Signalled
    case Signalled => Returned(true)
  }

  /** One step: the call moves on, and the one shared variable of that step changes. */
  function Do(s: State, step: Step): State
    requires Enabled(s, step)
  {
    match step
    case Begin(id, worker, force) => s.(calls := s.calls[id := Call(worker, force, Called)])
    case Advance(id) =>
      var moved := At(s, id, NextPc(s.calls[id], s.halting));
      match s.calls[id].pc
      case Called => moved.(halting := true)
      case Claimed => moved.(mutex := Held(id))
      case Locked => moved.(stopped := true)
      case Stopping => moved
      case BackingOff => moved.(stopped := false)
      case Releasing => moved.(halting := false)
      case Polling => moved.(mutex := Free)
      case Passed => moved.(emitted := true, emissions := s.emissions + if s.emitted then 0 else 1)
      case Signalled => moved.(mutex := Free)
  }

  predicate Possible(s: State, steps: seq<Step>)
    decreases steps
  {
    steps == [] || (Enabled(s, steps[0]) && Possible(Do(s, steps[0]), steps[1..]))
  }

  function Run(s: State, steps: seq<Step>): State
    requires Possible(s, steps)
    decreases steps
  {
    if steps == [] then s else Run(Do(s, steps[0]), steps[1..])
  }

  // ----- The invariant -----

  /** Past the test: this call halts the node. */
  predicate Committed(pc: Pc) { pc == Passed || pc == Signalled || pc == Returned(true) }

  /** The call whose test-and-set still holds the halting flag. */
  predicate Claims(pc: Pc) { pc == Claimed || pc == Locked || pc == Stopping || pc == BackingOff || pc == Releasing || Committed(pc) }

  predicate HoldsMutex(pc: Pc) {
    pc == Locked || pc == Stopping || pc == BackingOff || pc == Releasing || pc == Polling || pc == Passed || pc == Signalled
  }

  predicate SaysStopped(pc: Pc) { pc == Stopping || pc == BackingOff || Committed(pc) }

  predicate Announced(pc: Pc) { pc == Signalled || pc == Returned(true) }

  ghost predicate Any(s: State, k: Pc -> bool) { exists i :: i in s.calls && k(s.calls[i].pc) }

  ghost predicate OneClaim(s: State) {
    forall i, j :: i in s.calls && j in s.calls && Claims(s.calls[i].pc) && Claims(s.calls[j].pc) ==> i == j
  }

  ghost predicate MutexFits(s: State) {
    && (s.mutex.Held? ==> s.mutex.holder in s.calls)
    && forall i :: i in s.calls ==> (HoldsMutex(s.calls[i].pc) <==> s.mutex == Held(i))
  }

  ghost predicate MayHalt(s: State) {
    forall i :: i in s.calls && Committed(s.calls[i].pc) ==> !s.calls[i].worker || s.calls[i].force
  }

  ghost predicate Inv(s: State) {
    && OneClaim(s) && MutexFits(s) && MayHalt(s)
    && (s.halting <==> Any(s, Claims))
    && (s.stopped <==> Any(s, SaysStopped))
    && (s.emitted <==> Any(s, Announced))
    && s.emissions == (if s.emitted then 1 else 0)
  }

  lemma StartInv()
    ensures Inv(START)
  {}

  /** While a call moves, the others stay: when it is the only one with a property, it alone decides. */
  lemma AnyAfter(s: State, id: nat, pc: Pc, k: Pc -> bool)
    requires id in s.calls
    requires forall p :: k(p) ==> Claims(p)
    requires OneClaim(s)
    ensures Any(At(s, id, pc), k) <==> k(pc) || (Any(s, k) && !k(s.calls[id].pc))
  {
    hide Claims;
    var s' := At(s, id, pc);
    if k(pc) { assert s'.calls[id].pc == pc; }
    if Any(s, k) && !k(s.calls[id].pc) {
      var i :| i in s.calls && k(s.calls[i].pc);
      assert s'.calls[i] == s.calls[i];
    }
    if Any(s', k) && !k(pc) {
      var i :| i in s'.calls && k(s'.calls[i].pc);
      assert i != id && s.calls[i] == s'.calls[i];
    }
  }

  lemma AnyAfterBegin(s: State, id: nat, c: Call, k: Pc -> bool)
    requires id !in s.calls && !k(c.pc)
    ensures Any(s.(calls := s.calls[id := c]), k) <==> Any(s, k)
  {
    var s' := s.(calls := s.calls[id := c]);
    if Any(s, k) {
      var i :| i in s.calls && k(s.calls[i].pc);
      assert s'.calls[i] == s.calls[i];
    }
    if Any(s', k) {
      var i :| i in s'.calls && k(s'.calls[i].pc);
      assert s.calls[i] == s'.calls[i];
    }
  }

  lemma BeginKeepsInv(s: State, id: nat, worker: bool, force: bool)
    requires Inv(s) && Enabled(s, Begin(id, worker, force))
    ensures Inv(Do(s, Begin(id, worker, force)))
  {
    var c := Call(worker, force, Called);
    AnyAfterBegin(s, id, c, Claims);
    AnyAfterBegin(s, id, c, SaysStopped);
    AnyAfterBegin(s, id, c, Announced);
    NobodyHolds(s, id);
    BeginKeepsShared(s, id, c);
    hide Any, HoldsMutex, OneClaim, MutexFits, MayHalt;
  }

  lemma BeginKeepsShared(s: State, id: nat, c: Call)
    requires OneClaim(s) && MutexFits(s) && MayHalt(s) && id !in s.calls && c.pc == Called && s.mutex != Held(id)
    ensures var t := s.(calls := s.calls[id := c]); OneClaim(t) && MutexFits(t) && MayHalt(t)
  {}

  lemma NobodyHolds(s: State, id: nat)
    requires Inv(s) && id !in s.calls
    ensures s.mutex != Held(id) && !HoldsMutex(Called)
  {
    hide Any, OneClaim;
  }

  /** One step of one call: the other calls stay. */
  lemma Moved(s: State, id: nat)
    requires Enabled(s, Advance(id))
    ensures var s' := Do(s, Advance(id)); id in s'.calls && s'.calls == At(s, id, NextPc(s.calls[id], s.halting)).calls
  {
    hide NextPc;
  }

  lemma ClaimMoves(c: Call, halting: bool)
    requires !c.pc.Returned?
    ensures var pc' := NextPc(c, halting);
      && (Claims(pc') ==> Claims(c.pc) || !halting)
      && (Committed(pc') ==> Committed(c.pc) || !c.worker || c.force)
  {}

  /** The mutex changes hands properly. */
  lemma MutexMoves(s: State, id: nat)
    requires Enabled(s, Advance(id))
    requires HoldsMutex(s.calls[id].pc) <==> s.mutex == Held(id)
    ensures var s' := Do(s, Advance(id));
      && (HoldsMutex(NextPc(s.calls[id], s.halting)) <==> s'.mutex == Held(id))
      && (s'.mutex == s.mutex || (s.mutex == Free && s'.mutex == Held(id)) || (s.mutex == Held(id) && s'.mutex == Free))
  {}

  lemma MutexAfter(s: State, id: nat)
    requires MutexFits(s) && Enabled(s, Advance(id))
    ensures MutexFits(Do(s, Advance(id)))
  {
    Moved(s, id);
    MutexMoves(s, id);
    hide Do, HoldsMutex, NextPc, Enabled;
  }

  lemma ClaimAfter(s: State, id: nat)
    requires OneClaim(s) && MayHalt(s) && (s.halting <==> Any(s, Claims)) && Enabled(s, Advance(id))
    ensures var s' := Do(s, Advance(id)); OneClaim(s') && MayHalt(s')
  {
    Moved(s, id);
    ClaimMoves(s.calls[id], s.halting);
    hide Do, Claims, Committed, NextPc, Enabled;
  }

  /** Each flag follows the calls that stand for it. */
  lemma FlagsFollow(s: State, id: nat)
    requires Enabled(s, Advance(id)) && s.emissions == (if s.emitted then 1 else 0)
    requires Claims(s.calls[id].pc) ==> s.halting
    requires SaysStopped(s.calls[id].pc) ==> s.stopped
    requires Announced(s.calls[id].pc) ==> s.emitted
    ensures var s' := Do(s, Advance(id)); var pc, pc' := s.calls[id].pc, NextPc(s.calls[id], s.halting);
      && s'.halting == (Claims(pc') || (s.halting && !Claims(pc)))
      && s'.stopped == (SaysStopped(pc') || (s.stopped && !SaysStopped(pc)))
      && s'.emitted == (Announced(pc') || (s.emitted && !Announced(pc)))
      && s'.emissions == (if s'.emitted then 1 else 0)
  {}

  lemma Counted(s: State, id: nat, k: Pc -> bool)
    requires id in s.calls && k(s.calls[id].pc)
    ensures Any(s, k)
  {}

  lemma FlagsAfter(s: State, id: nat)
    requires Inv(s) && Enabled(s, Advance(id))
    ensures var s' := Do(s, Advance(id));
      && (s'.halting <==> Any(s', Claims)) && (s'.stopped <==> Any(s', SaysStopped))
      && (s'.emitted <==> Any(s', Announced)) && s'.emissions == (if s'.emitted then 1 else 0)
  {
    var s' := Do(s, Advance(id));
    var pc := NextPc(s.calls[id], s.halting);
    if Claims(s.calls[id].pc) { Counted(s, id, Claims); }
    if SaysStopped(s.calls[id].pc) { Counted(s, id, SaysStopped); }
    if Announced(s.calls[id].pc) { Counted(s, id, Announced); }
    FlagsFollow(s, id);
    AnyAfter(s, id, pc, Claims);
    AnyAfter(s, id, pc, SaysStopped);
    AnyAfter(s, id, pc, Announced);
    Moved(s, id);
    SameCalls(s', At(s, id, pc), Claims);
    SameCalls(s', At(s, id, pc), SaysStopped);
    SameCalls(s', At(s, id, pc), Announced);
    hide MutexFits, MayHalt, OneClaim, Do, Any, Claims, SaysStopped, Announced, At, Enabled, NextPc;
  }

  lemma SameCalls(s: State, t: State, k: Pc -> bool)
    requires s.calls == t.calls
    ensures Any(s, k) <==> Any(t, k)
  {}

  lemma StepKeepsInv(s: State, step: Step)
    requires Inv(s) && Enabled(s, step)
    ensures Inv(Do(s, step))
  {
    match step
    case Begin(id, worker, force) => BeginKeepsInv(s, id, worker, force);
    case Advance(id) =>
      MutexAfter(s, id);
      ClaimAfter(s, id);
      FlagsAfter(s, id);
      hide Do, Any, OneClaim, MutexFits, MayHalt;
  }

  lemma {:induction false} RunKeepsInv(s: State, steps: seq<Step>)
    requires Inv(s) && Possible(s, steps)
    ensures Inv(Run(s, steps))
    decreases steps
  {
    hide Inv, Do, Enabled;
    if steps != [] {
      StepKeepsInv(s, steps[0]);
      RunKeepsInv(Do(s, steps[0]), steps[1..]);
    }
  }

  // ----- What every interleaving keeps -----

  /** In every reachable state: at most one call has returned true, the disconnect signal was emitted at
      most once, and `stopped` is set only while the halting flag is. */
  lemma HaltSafety(steps: seq<Step>, i: nat, j: nat)
    requires Possible(START, steps)
    ensures var s := Run(START, steps);
      && (i in s.calls && j in s.calls && s.calls[i].pc == s.calls[j].pc == Returned(true) ==> i == j)
      && s.emissions <= 1
      && (s.stopped ==> s.halting)
      && (i in s.calls && s.calls[i].pc == Returned(true) ==> s.emissions == 1 && (!s.calls[i].worker || s.calls[i].force))
  {
    StartInv();
    RunKeepsInv(START, steps);
    var s := Run(START, steps);
    hide Run, MutexFits, Possible;
    if i in s.calls && s.calls[i].pc == Returned(true) { Counted(s, i, Announced); }
    if s.stopped {
      var k :| k in s.calls && SaysStopped(s.calls[k].pc);
      Counted(s, k, Claims);
    }
  }

  ghost predicate HasCommitted(s: State) { exists i :: i in s.calls && Committed(s.calls[i].pc) }

  lemma CommitmentStays(s: State, step: Step)
    requires Inv(s) && Enabled(s, step) && HasCommitted(s)
    ensures HasCommitted(Do(s, step))
  {
    var i :| i in s.calls && Committed(s.calls[i].pc);
    assert i in Do(s, step).calls && Committed(Do(s, step).calls[i].pc);
  }

  lemma CommittedIsStopped(s: State)
    requires Inv(s) && HasCommitted(s)
    ensures s.stopped && s.halting
  {
    hide MutexFits, MayHalt, OneClaim;
    var i :| i in s.calls && Committed(s.calls[i].pc);
    Counted(s, i, SaysStopped);
    Counted(s, i, Claims);
  }

  /** Once a call has passed the can-halt test, `stopped` stays set for good. */
  lemma {:induction false} StoppedForGood(s: State, steps: seq<Step>)
    requires Inv(s) && HasCommitted(s) && Possible(s, steps)
    ensures Run(s, steps).stopped && HasCommitted(Run(s, steps))
    decreases steps
  {
    hide Inv, Do, Enabled, HasCommitted;
    if steps == [] {
      CommittedIsStopped(s);
    } else {
      StepKeepsInv(s, steps[0]);
      CommitmentStays(s, steps[0]);
      StoppedForGood(Do(s, steps[0]), steps[1..]);
    }
  }

  /** ... and every call begun after that returns false without touching anything. */
  lemma LateCallsReturnFalse(s: State, id: nat)
    requires Inv(s) && HasCommitted(s) && id in s.calls && s.calls[id].pc == Called
    ensures Do(s, Advance(id)) == s.(calls := s.calls[id := s.calls[id].(pc := Returned(false))])
  {
    CommittedIsStopped(s);
  }

  /** Before that, `stopped` can be taken back, by exactly one kind of step: a worker's unforced call
      backing off. */
  lemma StoppedTakenBack(s: State, step: Step)
    requires Inv(s) && Enabled(s, step) && s.stopped
    ensures !Do(s, step).stopped <==> step.Advance? && s.calls[step.id].pc == BackingOff
  {
    hide Any, OneClaim, MutexFits, MayHalt;
  }

  lemma OnlyClaim(s: State, id: nat, k: Pc -> bool)
    requires OneClaim(s) && id in s.calls && Claims(s.calls[id].pc) && forall pc :: k(pc) ==> Claims(pc)
    ensures Any(s, k) ==> k(s.calls[id].pc)
  {
    hide Claims;
    if Any(s, k) {
      var i :| i in s.calls && k(s.calls[i].pc);
      assert Claims(s.calls[i].pc);
    }
  }

  /** A call about to send the signal is the first to do so. */
  lemma SignalledOnce(s: State, id: nat)
    requires Inv(s) && id in s.calls && s.calls[id].pc == Passed
    ensures !s.emitted && s.emissions == 0
  {
    OnlyClaim(s, id, Announced);
    hide MutexFits, MayHalt, Any, OneClaim;
  }

  // ----- A call on its own -----

  /** How far a call is from its end. */
  function ToGo(pc: Pc): nat {
    match pc
    case Called => 8
    case Claimed => 7
    case Locked => 6
    case Stopping => 5
    case BackingOff => 4
    case Releasing => 3
    case Polling => 2
    case Passed => 2
    case Signalled => 1
    case Returned(_) => 0
  }

  /** A call goes on alone until it returns or has to wait for the mutex. */
  function Alone(s: State, id: nat): State
    decreases if id in s.calls then ToGo(s.calls[id].pc) else 0
  {
    if !Enabled(s, Advance(id)) then s
    else
      Nearer(s, id);
      Alone(Do(s, Advance(id)), id)
  }

  lemma Nearer(s: State, id: nat)
    requires Enabled(s, Advance(id))
    ensures var s' := Do(s, Advance(id)); id in s'.calls && ToGo(s'.calls[id].pc) < ToGo(s.calls[id].pc)
  {}

  /** A call that finds the flag clear and the mutex free and is not disturbed halts the node, returns true and
      has the signal sent, exactly when its thread is no worker or it is forced; otherwise it returns false and
      leaves the flags, the signal and the mutex as it found them. */
  lemma UndisturbedCall(steps: seq<Step>, id: nat, worker: bool, force: bool)
    requires Possible(START, steps) && id !in Run(START, steps).calls
    requires !Run(START, steps).halting && Run(START, steps).mutex == Free
    ensures var s := Run(START, steps); var s' := Alone(Do(s, Begin(id, worker, force)), id); var halts := !worker || force;
      s' == State(s.calls[id := Call(worker, force, Returned(halts))], halts, halts, halts, if halts then 1 else 0, Free)
  {
    StartInv();
    RunKeepsInv(START, steps);
    var s := Run(START, steps);
    QuietState(s);
    hide Run, Possible, Inv;
    if worker && !force { BackingOffAlone(s, id); } else { HaltingAlone(s, id, worker, force); }
  }

  /** With the flag clear nothing has been stopped or signalled. */
  lemma QuietState(s: State)
    requires Inv(s) && !s.halting
    ensures !s.stopped && !s.emitted && s.emissions == 0
  {
    AnyImplies(s, SaysStopped, Claims);
    AnyImplies(s, Announced, Claims);
    hide OneClaim, MutexFits, MayHalt, Any;
  }

  lemma AnyImplies(s: State, k: Pc -> bool, l: Pc -> bool)
    requires forall pc :: k(pc) ==> l(pc)
    ensures Any(s, k) ==> Any(s, l)
  {
    if Any(s, k) {
      var i :| i in s.calls && k(s.calls[i].pc);
      assert l(s.calls[i].pc);
    }
  }

  /** The state of a call on its own: where it is, and the shared variables; the other calls stay. */
  function With(s: State, id: nat, c: Call, halting: bool, stopped: bool, emitted: bool, mutex: Mutex): State {
    State(s.calls[id := c], halting, stopped, emitted, if emitted then 1 else 0, mutex)
  }

  lemma OneMove(s: State, id: nat, c: Call, halting: bool, stopped: bool, emitted: bool, mutex: Mutex)
    requires c.pc.Returned? || (c.pc == Claimed ==> mutex == Free)
    requires c.pc == Called ==> !halting
    requires c.pc == Passed ==> !emitted
    ensures var s' := With(s, id, c, halting, stopped, emitted, mutex); var worker, force := c.worker, c.force;
      Alone(s', id) == match c.pc
        case Called => Alone(With(s, id, Call(worker, force, Claimed), true, stopped, emitted, mutex), id)
        case Claimed => Alone(With(s, id, Call(worker, force, Locked), halting, stopped, emitted, Held(id)), id)
        case Locked => Alone(With(s, id, Call(worker, force, Stopping), halting, true, emitted, mutex), id)
        case Stopping =>
          Alone(With(s, id, Call(worker, force, if worker && !force then BackingOff else Passed), halting, stopped, emitted, mutex), id)
        case BackingOff => Alone(With(s, id, Call(worker, force, Releasing), halting, false, emitted, mutex), id)
        case Releasing => Alone(With(s, id, Call(worker, force, Polling), false, stopped, emitted, mutex), id)
        case Polling => Alone(With(s, id, Call(worker, force, Returned(false)), halting, stopped, emitted, Free), id)
        case Passed => Alone(With(s, id, Call(worker, force, Signalled), halting, stopped, true, mutex), id)
        case Signalled => Alone(With(s, id, Call(worker, force, Returned(true)), halting, stopped, emitted, Free), id)
        case Returned(_) => s'
  {
    if !c.pc.Returned? { Overwritten(s.calls, id, c, c.(pc := NextPc(c, halting))); }
  }

  lemma Overwritten(m: map<nat, Call>, id: nat, c: Call, c': Call)
    ensures m[id := c][id := c'] == m[id := c']
  {}

  lemma HaltingAlone(s: State, id: nat, worker: bool, force: bool)
    requires id !in s.calls && !s.halting && s.mutex == Free && !s.stopped && !s.emitted && s.emissions == 0 && (!worker || force)
    ensures Alone(Do(s, Begin(id, worker, force)), id)
      == State(s.calls[id := Call(worker, force, Returned(true))], true, true, true, 1, Free)
  {
    assert Do(s, Begin(id, worker, force)) == With(s, id, Call(worker, force, Called), false, false, false, Free);
    assert With(s, id, Call(worker, force, Returned(true)), true, true, true, Free)
      == State(s.calls[id := Call(worker, force, Returned(true))], true, true, true, 1, Free);
    hide Alone, Do, Enabled, With;
    OneMove(s, id, Call(worker, force, Called), false, false, false, Free);
    OneMove(s, id, Call(worker, force, Claimed), true, false, false, Free);
    OneMove(s, id, Call(worker, force, Locked), true, false, false, Held(id));
    OneMove(s, id, Call(worker, force, Stopping), true, true, false, Held(id));
    OneMove(s, id, Call(worker, force, Passed), true, true, false, Held(id));
    OneMove(s, id, Call(worker, force, Signalled), true, true, true, Held(id));
    OneMove(s, id, Call(worker, force, Returned(true)), true, true, true, Free);
  }

  lemma BackingOffAlone(s: State, id: nat)
    requires id !in s.calls && !s.halting && s.mutex == Free && !s.stopped && !s.emitted && s.emissions == 0
    ensures Alone(Do(s, Begin(id, true, false)), id)
      == State(s.calls[id := Call(true, false, Returned(false))], false, false, false, 0, Free)
  {
    assert Do(s, Begin(id, true, false)) == With(s, id, Call(true, false, Called), false, false, false, Free);
    assert With(s, id, Call(true, false, Returned(false)), false, false, false, Free)
      == State(s.calls[id := Call(true, false, Returned(false))], false, false, false, 0, Free);
    hide Alone, Do, Enabled, With;
    OneMove(s, id, Call(true, false, Called), false, false, false, Free);
    OneMove(s, id, Call(true, false, Claimed), true, false, false, Free);
    OneMove(s, id, Call(true, false, Locked), true, false, false, Held(id));
    OneMove(s, id, Call(true, false, Stopping), true, true, false, Held(id));
    OneMove(s, id, Call(true, false, BackingOff), true, true, false, Held(id));
    OneMove(s, id, Call(true, false, Releasing), true, false, false, Held(id));
    OneMove(s, id, Call(true, false, Polling), false, false, false, Held(id));
    OneMove(s, id, Call(true, false, Returned(false)), false, false, false, Free);
  }

  lemma {:induction false} Extend(s: State, steps: seq<Step>, step: Step)
    requires Possible(s, steps) && Enabled(Run(s, steps), step)
    ensures Possible(s, steps + [step]) && Run(s, steps + [step]) == Do(Run(s, steps), step)
    decreases steps
  {
    hide Do, Enabled;
    if steps == [] {
      assert [step][1..] == [];
    } else {
      assert (steps + [step])[1..] == steps[1..] + [step];
      Extend(Do(s, steps[0]), steps[1..], step);
    }
  }

  /** And that happens: any single unforced call on a worker thread sets `stopped` and takes it back,
      so that whoever looked in between has seen a node that stops and then does not. */
  lemma StoppedFlickers(id: nat) returns (steps: seq<Step>)
    ensures Possible(START, steps) && Run(START, steps).stopped && !Run(START, steps).emitted
    ensures Enabled(Run(START, steps), Advance(id)) && !Do(Run(START, steps), Advance(id)).stopped
  {
    assert Run(START, []) == START;
    hide Run, Possible;
    steps := [];
    var call := Call(true, false, Called);
    var step := Begin(id, true, false);
    Extend(START, steps, step);
    steps := steps + [step];
    var i := 0;
    ghost var pcs := [Called, Claimed, Locked, Stopping, BackingOff];
    while i < 4
      invariant i <= 4 && Possible(START, steps)
      invariant Run(START, steps) == State(map[id := call.(pc := pcs[i])], i > 0, i > 2, false, 0, if i > 1 then Held(id) else Free)
    {
      Extend(START, steps, Advance(id));
      steps := steps + [Advance(id)];
      i := i + 1;
    }
  }
}
