/** The send loop as the only consumer of the outgoing queue (include/crisp/comms/bits/BasicNode.tcc),
    with senders pushing and the node halting at any moment. */
module SendLoops {
  import opened SharedQueues

  /** The thread that runs the loop. */
  const LOOP := 0

  /** `Crashed` when dispatching a message just sent has thrown or failed an assertion. */
  datatype Pc = Testing | Fetching | Writing(item: Item) | Exited | Crashed

  datatype Node = Node(
    s: State,
    pc: Pc,
    stopped: bool,
    submitted: seq<Item>,   // sent by the program, in order
    sent: seq<Item>,        // written to the socket
    dropped: seq<Item>,     // given up: unencodable, a write error, or taken when the node had stopped
    requeued: seq<Item>,    // pushed again after a write that would have blocked
    unencodable: nat,
    failing: set<Item>)     // messages that the sender's own dispatcher fails on; any at all

  function Idle(failing: set<Item>): Node { Node(START, Testing, false, [], [], [], [], 0, failing) }

  datatype Move =
    | Submit(item: Item, notified: Notified)
    | SetStopped(value: bool)
    | Test                        // `while (!m_stopped)`, and into `next`
    | Inside(step: Step)          // one step of the loop's thread in `next`, or an abort
    | Fetched                     // `next` has returned
    | EncodeFails
    | WriteSucceeds
    | WriteWouldBlock(notified: Notified)
    | WriteFails

  predicate Inner(step: Step) {
    step == WakeAll || step == Lock(LOOP) || step == Spurious(LOOP) || step == Resume(LOOP)
  }

  predicate CanMove(n: Node, move: Move) {
    match move
    case Submit(item, notified) => Enabled(n.s, Push(item, notified))
    case SetStopped(_) => true
    case Test => n.pc == Testing && Enabled(n.s, Enter(LOOP, true))
    case Inside(step) => Inner(step) && Enabled(n.s, step)
    case Fetched => n.pc == Fetching && LOOP in n.s.returned
    case EncodeFails => n.pc.Writing?
    case WriteSucceeds => n.pc.Writing?
    case WriteWouldBlock(notified) => n.pc.Writing? && Enabled(n.s, Push(n.pc.item, notified))
    case WriteFails => n.pc.Writing?
  }

  function After(n: Node, move: Move): Node
    requires CanMove(n, move)
  {
    match move
    case Submit(item, notified) => n.(s := Do(n.s, Push(item, notified)), submitted := n.submitted + [item])
    case SetStopped(value) => n.(stopped := value)
    case Test => if n.stopped then n.(pc := Exited) else n.(s := Do(n.s, Enter(LOOP, true)), pc := Fetching)
    case Inside(step) => n.(s := Do(n.s, step))
    case Fetched =>
      var rest := n.(s := Do(n.s, Collect(LOOP)));
      (match n.s.returned[LOOP]
       case Aborted => rest.(pc := Exited)
       case Got(item) =>
         if n.stopped then rest.(pc := Exited, dropped := n.dropped + [item]) else rest.(pc := Writing(item)))
    case EncodeFails => n.(pc := Testing, dropped := n.dropped + [n.pc.item], unencodable := n.unencodable + 1)
    case WriteSucceeds => n.(pc := if n.pc.item in n.failing then Crashed else Testing, sent := n.sent + [n.pc.item])
    case WriteWouldBlock(notified) =>
      n.(s := Do(n.s, Push(n.pc.item, notified)), pc := Testing, requeued := n.requeued + [n.pc.item])
    case WriteFails => n.(pc := Exited, dropped := n.dropped + [n.pc.item])
  }

  predicate CanMoveAll(n: Node, moves: seq<Move>)
    decreases moves
  {
    moves == [] || (CanMove(n, moves[0]) && CanMoveAll(After(n, moves[0]), moves[1..]))
  }

  function AfterAll(n: Node, moves: seq<Move>): Node
    requires CanMoveAll(n, moves)
    decreases moves
  {
    if moves == [] then n else AfterAll(After(n, moves[0]), moves[1..])
  }

  /** The message taken from the queue whose fate is still open. */
  function InFlight(n: Node): seq<Item> {
    if n.pc.Writing? then [n.pc.item]
    else if LOOP in n.s.returned && n.s.returned[LOOP].Got? then [n.s.returned[LOOP].item]
    else []
  }

  function Count(xs: seq<Item>, item: Item): nat { multiset(xs)[item] }

  /** The histories of a node: what went into and out of the queue, and what became of it. */
  datatype Ledger = Ledger(
    pushed: seq<Item>, removed: seq<Item>, submitted: seq<Item>, sent: seq<Item>, dropped: seq<Item>, requeued: seq<Item>,
    flight: seq<Item>, unencodable: nat, over: bool)

  function LedgerOf(n: Node): Ledger {
    Ledger(n.s.pushed, n.s.removed, n.submitted, n.sent, n.dropped, n.requeued, InFlight(n), n.unencodable, n.pc == Exited)
  }

  /** Where the copies of one message are. */
  predicate Conserved(l: Ledger, item: Item) {
    && Count(l.pushed, item) == Count(l.submitted, item) + Count(l.requeued, item)
    && Count(l.removed, item)
       == Count(l.sent, item) + Count(l.dropped, item) + Count(l.requeued, item) + Count(l.flight, item)
  }

  /** In order as far as nothing was requeued or skipped. */
  predicate InOrder(l: Ledger) {
    && (l.requeued == [] ==> l.pushed == l.submitted)
    && (l.requeued == [] && l.unencodable == 0 ==> l.removed == l.sent + l.dropped + l.flight)
    && (l.requeued == [] && l.unencodable == 0 && l.dropped != [] ==> l.over)
  }

  predicate LoopFits(n: Node) {
    && n.s.entering <= {LOOP} && n.s.sleeping <= {LOOP} && n.s.woken <= {LOOP} && n.s.returned.Keys <= {LOOP}
    && (n.pc != Fetching ==> Outside(n.s, LOOP))
  }

  /** Sending a message that the dispatcher fails on is the last thing the loop does. */
  predicate CrashFits(n: Node) {
    && (forall i :: 0 <= i < |n.sent| && n.sent[i] in n.failing ==> i == |n.sent| - 1 && n.pc == Crashed)
    && (n.pc == Crashed ==> n.sent != [] && n.sent[|n.sent| - 1] in n.failing)
  }

  ghost predicate NodeInv(n: Node) {
    Inv(n.s) && LoopFits(n) && CrashFits(n) && InOrder(LedgerOf(n)) && forall item :: Conserved(LedgerOf(n), item)
  }

  lemma IdleInv(failing: set<Item>)
    ensures NodeInv(Idle(failing))
  {}

  lemma MoveKeepsCrash(n: Node, move: Move)
    requires CrashFits(n) && CanMove(n, move)
    ensures CrashFits(After(n, move)) && After(n, move).failing == n.failing
  {
    hide Do, Enabled, Inner;
  }

  lemma MoveKeepsQueue(n: Node, move: Move)
    requires Inv(n.s) && CanMove(n, move)
    ensures Inv(After(n, move).s)
  {
    hide Inv, Do;
    match move
    case Submit(item, notified) => StepKeepsInv(n.s, Push(item, notified));
    case Test => if !n.stopped { StepKeepsInv(n.s, Enter(LOOP, true)); }
    case Inside(step) => StepKeepsInv(n.s, step);
    case Fetched => StepKeepsInv(n.s, Collect(LOOP));
    case WriteWouldBlock(notified) => StepKeepsInv(n.s, Push(n.pc.item, notified));
    case _ =>
  }

  lemma InnerKeepsLoop(n: Node, step: Step)
    requires LoopFits(n) && Inner(step) && Enabled(n.s, step)
    ensures LoopFits(After(n, Inside(step)))
  {}

  lemma PushKeepsLoop(s: State, item: Item, notified: Notified)
    requires Enabled(s, Push(item, notified))
    ensures var s' := Do(s, Push(item, notified));
      && s'.entering == s.entering && s'.returned == s.returned && s'.sleeping + s'.woken == s.sleeping + s.woken
      && s'.pushed == s.pushed + [item] && s'.removed == s.removed
      && (s.sleeping <= {LOOP} && s.woken <= {LOOP} ==> s'.sleeping <= {LOOP} && s'.woken <= {LOOP})
  {}

  lemma MoveKeepsLoop(n: Node, move: Move)
    requires Inv(n.s) && LoopFits(n) && CanMove(n, move)
    ensures LoopFits(After(n, move))
  {
    match move
    case Submit(item, notified) => PushKeepsLoop(n.s, item, notified); hide Do;
    case Inside(step) => InnerKeepsLoop(n, step); hide Do;
    case WriteWouldBlock(notified) => PushKeepsLoop(n.s, n.pc.item, notified); hide Do;
    case _ => hide Take;
  }

  lemma Append(xs: seq<Item>, x: Item, item: Item)
    ensures Count(xs + [x], item) == Count(xs, item) + Count([x], item)
  {}

  // ----- What a move does to the ledger -----

  /** The entries that can be made: a submission, a message taken from the queue, and its fate. */
  datatype Entry =
    | NoEntry
    | Submitted(item: Item)
    | Taken(item: Item)
    | Sent(item: Item)
    | Requeued(item: Item)
    | Skipped(item: Item)
    | Dropped(item: Item)
    | Over

  function Entered(l: Ledger, e: Entry): Ledger {
    match e
    case NoEntry => l
    case Submitted(x) => l.(pushed := l.pushed + [x], submitted := l.submitted + [x])
    case Taken(x) => l.(removed := l.removed + [x], flight := [x])
    case Sent(x) => l.(sent := l.sent + [x], flight := [])
    case Requeued(x) => l.(pushed := l.pushed + [x], requeued := l.requeued + [x], flight := [])
    case Skipped(x) => l.(dropped := l.dropped + [x], flight := [], unencodable := l.unencodable + 1)
    case Dropped(x) => l.(dropped := l.dropped + [x], flight := [], over := true)
    case Over => l.(over := true)
  }

  /** An entry fits when it takes up a message only with none in flight, and disposes only of that in flight. */
  predicate Fits(l: Ledger, e: Entry) {
    match e
    case NoEntry => true
    case Submitted(_) => true
    case Taken(_) => l.flight == []
    case Over => true
    case _ => l.flight == [e.item] && !l.over
  }

  lemma EntryConserves(l: Ledger, e: Entry, item: Item)
    requires Conserved(l, item) && Fits(l, e)
    ensures Conserved(Entered(l, e), item)
  {
    if !e.NoEntry? && !e.Over? {
      Append(l.pushed, e.item, item);
      Append(l.removed, e.item, item);
      Append(l.submitted, e.item, item);
      Append(l.sent, e.item, item);
      Append(l.dropped, e.item, item);
      Append(l.requeued, e.item, item);
    }
    assert Count([], item) == 0;
    hide Count;
  }

  lemma EntryInOrder(l: Ledger, e: Entry)
    requires InOrder(l) && Fits(l, e)
    ensures InOrder(Entered(l, e))
  {
    match e
    case Taken(x) => assert l.sent + l.dropped + [] == l.sent + l.dropped;
    case Sent(x) => assert l.dropped == [] ==> l.sent + l.dropped + [x] == l.sent + [x] + l.dropped + [];
    case Skipped(x) =>
    case Dropped(x) => assert l.sent + l.dropped + [x] == l.sent + (l.dropped + [x]) + [];
    case _ =>
  }

  function EntryOf(n: Node, move: Move): Entry
    requires CanMove(n, move)
  {
    match move
    case Submit(item, _) => Submitted(item)
    case Inside(step) =>
      var n' := After(n, move);
      if InFlight(n) == [] && InFlight(n') != [] then Taken(InFlight(n')[0]) else NoEntry
    case Fetched =>
      if n.s.returned[LOOP].Aborted? then Over else if n.stopped then Dropped(n.s.returned[LOOP].item) else NoEntry
    case Test => if n.stopped then Over else NoEntry
    case EncodeFails => Skipped(n.pc.item)
    case WriteSucceeds => Sent(n.pc.item)
    case WriteWouldBlock(_) => Requeued(n.pc.item)
    case WriteFails => Dropped(n.pc.item)
    case SetStopped(_) => NoEntry
  }

  lemma AbortWhileWriting(n: Node, step: Step)
    requires LoopFits(n) && n.pc.Writing? && Inner(step) && Enabled(n.s, step)
    ensures step == WakeAll
  {}

  /** A step inside `next` moves at most one message, from the queue into flight. */
  lemma InsideEnters(n: Node, step: Step)
    requires Inv(n.s) && LoopFits(n) && Inner(step) && Enabled(n.s, step)
    ensures var e := EntryOf(n, Inside(step));
      Fits(LedgerOf(n), e) && LedgerOf(After(n, Inside(step))) == Entered(LedgerOf(n), e)
  {
    if n.pc.Writing? { AbortWhileWriting(n, step); }
  }

  lemma PushEnters(n: Node, move: Move)
    requires LoopFits(n) && CanMove(n, move) && (move.Submit? || move.WriteWouldBlock?)
    ensures var e := EntryOf(n, move); Fits(LedgerOf(n), e) && LedgerOf(After(n, move)) == Entered(LedgerOf(n), e)
  {
    PushKeepsLoop(n.s, if move.Submit? then move.item else n.pc.item, move.notified);
    hide Do, Enabled;
  }

  lemma OuterEnters(n: Node, move: Move)
    requires LoopFits(n) && CanMove(n, move) && !move.Submit? && !move.WriteWouldBlock? && !move.Inside?
    ensures var e := EntryOf(n, move); Fits(LedgerOf(n), e) && LedgerOf(After(n, move)) == Entered(LedgerOf(n), e)
  {
    hide Take;
  }

  lemma MoveEnters(n: Node, move: Move)
    requires Inv(n.s) && LoopFits(n) && CanMove(n, move)
    ensures var e := EntryOf(n, move); Fits(LedgerOf(n), e) && LedgerOf(After(n, move)) == Entered(LedgerOf(n), e)
  {
    match move
    case Inside(step) => InsideEnters(n, step);
    case Submit(_, _) => PushEnters(n, move);
    case WriteWouldBlock(_) => PushEnters(n, move);
    case _ => OuterEnters(n, move);
    hide Do, Enabled, After, Entered, Fits, Inv, LoopFits, InFlight;
  }

  lemma MoveKeepsInv(n: Node, move: Move)
    requires NodeInv(n) && CanMove(n, move)
    ensures NodeInv(After(n, move))
  {
    MoveKeepsQueue(n, move);
    MoveKeepsLoop(n, move);
    MoveKeepsCrash(n, move);
    MoveEnters(n, move);
    hide After, Conserved, InOrder, LoopFits, Inv, CrashFits, LedgerOf, EntryOf, Entered, Fits, CanMove;
    EntryInOrder(LedgerOf(n), EntryOf(n, move));
    forall item ensures Conserved(LedgerOf(After(n, move)), item) {
      EntryConserves(LedgerOf(n), EntryOf(n, move), item);
    }
  }

  lemma {:induction false} MovesKeepInv(n: Node, moves: seq<Move>)
    requires NodeInv(n) && CanMoveAll(n, moves)
    ensures NodeInv(AfterAll(n, moves))
    decreases moves
  {
    hide NodeInv, After, CanMove;
    if moves != [] {
      MoveKeepsInv(n, moves[0]);
      MovesKeepInv(After(n, moves[0]), moves[1..]);
    }
  }

  /** Every copy of every message is in exactly one place: queued, in flight, sent or dropped. */
  lemma NothingLostOrMade(failing: set<Item>, moves: seq<Move>, item: Item)
    requires CanMoveAll(Idle(failing), moves)
    ensures var n := AfterAll(Idle(failing), moves);
      Count(n.submitted, item)
      == Count(n.s.q, item) + Count(InFlight(n), item) + Count(n.sent, item) + Count(n.dropped, item)
  {
    IdleInv(failing);
    MovesKeepInv(Idle(failing), moves);
    var n := AfterAll(Idle(failing), moves);
    hide AfterAll, CanMoveAll, InFlight, InOrder, LoopFits;
    assert Conserved(LedgerOf(n), item);
    assert n.s.pushed == n.s.removed + n.s.q;
  }

  /** As long as no write was put off and no message failed to encode, what was sent is a prefix of what
      was submitted, and nothing is dropped before the loop has ended. */
  lemma SentInOrder(failing: set<Item>, moves: seq<Move>)
    requires CanMoveAll(Idle(failing), moves)
    ensures var n := AfterAll(Idle(failing), moves);
      n.requeued == [] && n.unencodable == 0 ==>
        n.sent <= n.submitted && (n.dropped != [] ==> n.pc == Exited)
        && n.submitted == n.sent + n.dropped + InFlight(n) + n.s.q
  {
    IdleInv(failing);
    MovesKeepInv(Idle(failing), moves);
    var n := AfterAll(Idle(failing), moves);
    hide AfterAll, CanMoveAll, LoopFits, InFlight, Conserved;
    assert InOrder(LedgerOf(n));
    if n.requeued == [] && n.unencodable == 0 {
      assert n.submitted == n.sent + (n.dropped + InFlight(n) + n.s.q);
    }
  }

  /** The loop ends when it finds the node stopped, before it takes a message or with one in hand, when the queue is
      aborted, and when a write fails; and it goes on after everything else. */
  lemma LoopEndsWhen(n: Node, move: Move)
    requires CanMove(n, move)
    ensures var n' := After(n, move);
      && (n'.pc == Exited <==> n.pc == Exited || (move.Test? && n.stopped) || move.WriteFails?
                               || (move.Fetched? && (n.stopped || n.s.returned[LOOP].Aborted?)))
      && (n'.pc == Crashed <==> n.pc == Crashed || (move.WriteSucceeds? && n.pc.item in n.failing))
      && (n'.pc == Testing <==> (n.pc == Testing && !move.Test?) || move.EncodeFails? || move.WriteWouldBlock?
                                || (move.WriteSucceeds? && n.pc.item !in n.failing))
      && (n'.pc.Writing? && !n.pc.Writing? ==> move.Fetched? && n.s.returned[LOOP] == Got(n'.pc.item))
      && (n'.pc == Fetching && n.pc != Fetching ==> move.Test?)
      && (n'.stopped == if move.SetStopped? then move.value else n.stopped)
  {
    hide Do;
  }

  /** What a move does to the queue: the loop enters `next` asking for the abort flag and leaves it with its result,
      pushes again what would have blocked, and otherwise only submissions and the loop's own way through `next`
      touch it. */
  lemma QueueMoves(n: Node, move: Move)
    requires Inv(n.s) && CanMove(n, move)
    ensures var s, s' := n.s, After(n, move).s;
      && PlaceOf(s', LOOP) == (match move
           case Test => if n.stopped then PlaceOf(s, LOOP) else if s.aborted then Back(Aborted) else Entering
           case Fetched => Out
           case Inside(step) => PlaceOf(Do(s, step), LOOP)
           case Submit(_, notified) => if notified == One(LOOP) && LOOP in s.sleeping then Woken else PlaceOf(s, LOOP)
           case WriteWouldBlock(notified) => if notified == One(LOOP) && LOOP in s.sleeping then Woken else PlaceOf(s, LOOP)
           case _ => PlaceOf(s, LOOP))
      && (!move.Inside? ==> s'.q == s.q + (match move case Submit(item, _) => [item] case WriteWouldBlock(_) => [n.pc.item] case _ => []))
      && (move.Inside? ==> s' == Do(s, move.step))
  {
    assert n.s.q + [] == n.s.q;
    match move
    case Submit(item, notified) => PlaceAfter(n.s, Push(item, notified), LOOP); QueueAfter(n.s, Push(item, notified));
    case WriteWouldBlock(notified) => PlaceAfter(n.s, Push(n.pc.item, notified), LOOP); QueueAfter(n.s, Push(n.pc.item, notified));
    case Test => if !n.stopped { PlaceAfter(n.s, Enter(LOOP, true), LOOP); QueueAfter(n.s, Enter(LOOP, true)); }
    case Fetched => PlaceAfter(n.s, Collect(LOOP), LOOP); QueueAfter(n.s, Collect(LOOP));
    case _ =>
    hide Do, Inv, PlaceOf, Takes;
  }

  /** No message is sent behind one that the sender's dispatcher fails on. */
  lemma NothingSentBehindFailure(failing: set<Item>, moves: seq<Move>, i: nat)
    requires CanMoveAll(Idle(failing), moves)
    ensures var n := AfterAll(Idle(failing), moves);
      i < |n.sent| && n.sent[i] in failing ==> i == |n.sent| - 1 && n.pc == Crashed
  {
    IdleInv(failing);
    MovesKeepInv(Idle(failing), moves);
    FailingStays(Idle(failing), moves);
    hide AfterAll, CanMoveAll, LoopFits, InFlight, InOrder, Conserved;
  }

  lemma {:induction false} FailingStays(n: Node, moves: seq<Move>)
    requires CanMoveAll(n, moves) && CrashFits(n)
    ensures AfterAll(n, moves).failing == n.failing
    decreases moves
  {
    hide After, CanMove, CrashFits;
    if moves != [] {
      MoveKeepsCrash(n, moves[0]);
      FailingStays(After(n, moves[0]), moves[1..]);
    }
  }
}
