/** A node shutting down: the halt protocol and the send loop together
    (include/crisp/comms/bits/BasicNode.tcc). The loop reads the flag that the calls of `halt` write, and
    the call that goes through wakes the queue. */
module Shutdowns {
  import opened SharedQueues
  import opened SendLoops
  import H = Halting

  datatype Whole = Whole(h: H.State, n: Node)

  datatype Turn = Halt(step: H.Step) | Loop(move: Move)

  function Fresh(failing: set<Item>): Whole { Whole(H.START, Idle(failing)) }

  predicate CanTurn(w: Whole, turn: Turn) {
    match turn
    case Halt(step) => H.Enabled(w.h, step)
    case Loop(move) => !move.SetStopped? && move != Inside(WakeAll) && CanMove(w.n, move)
  }

  /** This step of `halt` wakes the queue. */
  predicate Wakes(h: H.State, step: H.Step) { step.Advance? && step.id in h.calls && h.calls[step.id].pc == H.Passed }

  function After(w: Whole, turn: Turn): Whole
    requires CanTurn(w, turn)
  {
    match turn
    case Halt(step) =>
      var h := H.Do(w.h, step);
      var n := if Wakes(w.h, step) then w.n.(s := HaltQueue(w.n.s)) else w.n;
      Whole(h, n.(stopped := h.stopped))
    case Loop(move) => w.(n := SendLoops.After(w.n, move))
  }

  predicate CanTurnAll(w: Whole, turns: seq<Turn>)
    decreases turns
  {
    turns == [] || (CanTurn(w, turns[0]) && CanTurnAll(After(w, turns[0]), turns[1..]))
  }

  function AfterAll(w: Whole, turns: seq<Turn>): Whole
    requires CanTurnAll(w, turns)
    decreases turns
  {
    if turns == [] then w else AfterAll(After(w, turns[0]), turns[1..])
  }

  ghost predicate WholeInv(w: Whole) { H.Inv(w.h) && NodeInv(w.n) && w.n.stopped == w.h.stopped }

  lemma FreshInv(failing: set<Item>)
    ensures WholeInv(Fresh(failing))
  {
    H.StartInv();
    IdleInv(failing);
  }

  lemma HaltQueueKeepsInv(n: Node)
    requires NodeInv(n)
    ensures NodeInv(n.(s := HaltQueue(n.s)))
  {
    hide NodeInv, Do;
    if n.s.numWaiters > 0 { MoveKeepsInv(n, Inside(WakeAll)); }
  }

  lemma TurnKeepsInv(w: Whole, turn: Turn)
    requires WholeInv(w) && CanTurn(w, turn)
    ensures WholeInv(After(w, turn))
  {
    hide H.Inv, NodeInv, H.Do, HaltQueue;
    match turn
    case Halt(step) =>
      H.StepKeepsInv(w.h, step);
      HaltQueueKeepsInv(w.n);
      var n := if Wakes(w.h, step) then w.n.(s := HaltQueue(w.n.s)) else w.n;
      MoveKeepsInv(n, SetStopped(H.Do(w.h, step).stopped));
    case Loop(move) =>
      MoveKeepsInv(w.n, move);
      hide Do, Enabled;
  }

  lemma {:induction false} TurnsKeepInv(w: Whole, turns: seq<Turn>)
    requires WholeInv(w) && CanTurnAll(w, turns)
    ensures WholeInv(AfterAll(w, turns))
    decreases turns
  {
    hide WholeInv, After, CanTurn;
    if turns != [] {
      TurnKeepsInv(w, turns[0]);
      TurnsKeepInv(After(w, turns[0]), turns[1..]);
    }
  }

  /** The step of `halt` that sends the disconnect signal also wakes every sleeper, and the queue is aborted for
      good if there was any; no other step of a call does anything to the queue. */
  lemma HaltWakesSleepers(w: Whole, step: H.Step)
    requires WholeInv(w) && CanTurn(w, Halt(step))
    ensures var w' := After(w, Halt(step));
      if w'.h.emissions > w.h.emissions then w'.n.s.sleeping == {} && (w'.n.s.aborted <==> w.n.s.aborted || w.n.s.numWaiters > 0)
      else w'.n.s == w.n.s
    ensures w.h.stopped == w.n.stopped && After(w, Halt(step)).h.stopped == After(w, Halt(step)).n.stopped
  {
    hide H.Any, H.OneClaim, H.MutexFits, H.MayHalt, Conserved, InOrder, LoopFits, CrashFits;
    if Wakes(w.h, step) { H.SignalledOnce(w.h, step.id); }
  }

  /** What the loop can still send: the message being written. */
  function Unsent(n: Node): seq<Item> { if n.pc.Writing? then [n.pc.item] else [] }

  /** The loop is inside `next` and has nothing yet. */
  predicate Taking(n: Node) { n.pc == Fetching && LOOP !in n.s.returned }

  /** From n to n' no more was sent than the message being written, and no more taken than one by a loop
      inside `next`. */
  predicate Spent(n: Node, n': Node) {
    && (if n'.sent == n.sent then Unsent(n') == Unsent(n) || Unsent(n') == []
        else n'.sent == n.sent + Unsent(n) && Unsent(n') == [])
    && (Taking(n') ==> Taking(n))
    && (|n'.s.removed| == |n.s.removed| || (Taking(n) && !Taking(n') && |n'.s.removed| == |n.s.removed| + 1))
  }

  lemma SpentOn(a: Node, b: Node, c: Node)
    requires Spent(a, b) && Spent(b, c)
    ensures Spent(a, c)
  {}

  lemma LoopAfterStop(n: Node, move: Move)
    requires NodeInv(n) && n.stopped && CanMove(n, move) && !move.SetStopped?
    ensures Spent(n, SendLoops.After(n, move))
  {
    hide Conserved, InOrder, CrashFits;
  }

  lemma HaltAfterStop(w: Whole, step: H.Step)
    requires CanTurn(w, Halt(step))
    ensures Spent(w.n, After(w, Halt(step)).n)
  {
    hide H.Do;
  }

  lemma {:induction false} SpentAfterHalt(w: Whole, turns: seq<Turn>)
    requires WholeInv(w) && H.HasCommitted(w.h) && CanTurnAll(w, turns)
    ensures Spent(w.n, AfterAll(w, turns).n)
    decreases turns
  {
    if turns != [] {
      var next := After(w, turns[0]);
      CommitmentStays(w, turns[0]);
      TurnKeepsInv(w, turns[0]);
      H.CommittedIsStopped(w.h);
      match turns[0] {
        case Halt(step) => HaltAfterStop(w, step);
        case Loop(move) => LoopAfterStop(w.n, move);
      }
      hide WholeInv, H.HasCommitted, After, CanTurn, Spent;
      SpentAfterHalt(next, turns[1..]);
      SpentOn(w.n, next.n, AfterAll(w, turns).n);
    }
  }

  lemma CommitmentStays(w: Whole, turn: Turn)
    requires WholeInv(w) && CanTurn(w, turn) && H.HasCommitted(w.h)
    ensures H.HasCommitted(After(w, turn).h)
  {
    hide H.Inv, NodeInv, H.Do, H.HasCommitted, SendLoops.After;
    if turn.Halt? { H.CommitmentStays(w.h, turn.step); }
  }

  /** Once a call of `halt` has passed its test, the send loop sends nothing more, in any continuation, than
      the message it is writing, and takes at most one more message out of the queue, if it is in `next`. */
  lemma NothingSentAfterHalt(failing: set<Item>, turns: seq<Turn>, more: seq<Turn>)
    requires CanTurnAll(Fresh(failing), turns) && H.HasCommitted(AfterAll(Fresh(failing), turns).h)
    requires CanTurnAll(AfterAll(Fresh(failing), turns), more)
    ensures var w := AfterAll(Fresh(failing), turns); var n, n' := w.n, AfterAll(w, more).n;
      && (n'.sent == n.sent || n'.sent == n.sent + Unsent(n))
      && |n.s.removed| <= |n'.s.removed| <= |n.s.removed| + (if Taking(n) then 1 else 0)
  {
    hide WholeInv, H.HasCommitted, AfterAll, CanTurnAll;
    FreshInv(failing);
    TurnsKeepInv(Fresh(failing), turns);
    SpentAfterHalt(AfterAll(Fresh(failing), turns), more);
  }

  // ----- The calls on their own -----

  function HaltSteps(turns: seq<Turn>): seq<H.Step> {
    if turns == [] then [] else (if turns[0].Halt? then [turns[0].step] else []) + HaltSteps(turns[1..])
  }

  /** The calls of `halt` go through their steps as if there were no send loop: whatever is proved of them alone
      holds here. */
  lemma {:induction false} CallsAreUndisturbed(w: Whole, turns: seq<Turn>)
    requires CanTurnAll(w, turns)
    ensures H.Possible(w.h, HaltSteps(turns)) && AfterAll(w, turns).h == H.Run(w.h, HaltSteps(turns))
    decreases turns
  {
    hide H.Do, H.Enabled, SendLoops.After, CanMove, HaltQueue;
    if turns != [] {
      CallsAreUndisturbed(After(w, turns[0]), turns[1..]);
      if turns[0].Halt? {
        assert HaltSteps(turns)[1..] == HaltSteps(turns[1..]);
      } else {
        assert HaltSteps(turns) == HaltSteps(turns[1..]);
      }
    }
  }

  // ----- A node's life -----

  lemma Follows(w: Whole, turn: Turn, w': Whole, rest: seq<Turn>, last: Whole)
    requires CanTurn(w, turn) && After(w, turn) == w' && CanTurnAll(w', rest) && AfterAll(w', rest) == last
    ensures CanTurnAll(w, [turn] + rest) && AfterAll(w, [turn] + rest) == last
  {
    hide After, CanTurn;
    assert ([turn] + rest)[1..] == rest;
  }

  /** The loop's way with one message: it takes it, writes it, and tests again. */
  function Taken(x: Item): State { State([], false, 0, {}, {}, {}, map[LOOP := Got(x)], [x], [x]) }

  function AtTest(x: Item, sent: seq<Item>, stopped: bool): Node {
    Node(if sent == [] then State([x], false, 0, {}, {}, {}, map[], [x], []) else State([], false, 0, {}, {}, {}, map[], [x], [x]),
         Testing, stopped, [x], sent, [], [], 0, {})
  }

  function Inside1(x: Item): Node {
    AtTest(x, [], false).(s := State([x], false, 0, {LOOP}, {}, {}, map[], [x], []), pc := Fetching)
  }

  function Inside2(x: Item): Node { AtTest(x, [], false).(s := Taken(x), pc := Fetching) }

  function Written(x: Item): Node { AtTest(x, [], false).(s := Taken(x).(returned := map[]), pc := Writing(x)) }

  lemma TestMove(x: Item)
    ensures var n := AtTest(x, [], false); CanMove(n, Test) && SendLoops.After(n, Test) == Inside1(x)
  {}

  lemma LockMove(x: Item)
    ensures CanMove(Inside1(x), Inside(Lock(LOOP))) && SendLoops.After(Inside1(x), Inside(Lock(LOOP))) == Inside2(x)
  {
    var s := Inside1(x).s;
    assert s.entering - {LOOP} == {} && s.q[1..] == [] && [] + [x] == [x];
    assert s.returned[LOOP := Got(x)] == map[LOOP := Got(x)];
  }

  lemma FetchedMove(x: Item)
    ensures CanMove(Inside2(x), Fetched) && SendLoops.After(Inside2(x), Fetched) == Written(x)
  {
    assert Taken(x).returned - {LOOP} == map[];
  }

  lemma WriteMove(x: Item)
    ensures CanMove(Written(x), WriteSucceeds) && SendLoops.After(Written(x), WriteSucceeds) == AtTest(x, [x], false)
  {
    assert [] + [x] == [x];
  }

  lemma SendingOne(x: Item, h: H.State)
    ensures var w, last := Whole(h, AtTest(x, [], false)), Whole(h, AtTest(x, [x], false));
      var turns := [Loop(Test)] + ([Loop(Inside(Lock(LOOP)))] + ([Loop(Fetched)] + ([Loop(WriteSucceeds)] + [])));
      CanTurnAll(w, turns) && AfterAll(w, turns) == last
  {
    TestMove(x);
    LockMove(x);
    FetchedMove(x);
    WriteMove(x);
    hide Do, SendLoops.After, CanMove, AtTest, Inside1, Inside2, Written;
    var last := Whole(h, AtTest(x, [x], false));
    assert CanTurnAll(last, []) && AfterAll(last, []) == last;
    Follows(Whole(h, Written(x)), Loop(WriteSucceeds), last, [], last);
    Follows(Whole(h, Inside2(x)), Loop(Fetched), Whole(h, Written(x)), [Loop(WriteSucceeds)] + [], last);
    Follows(Whole(h, Inside1(x)), Loop(Inside(Lock(LOOP))), Whole(h, Inside2(x)), [Loop(Fetched)] + ([Loop(WriteSucceeds)] + []), last);
    Follows(Whole(h, AtTest(x, [], false)), Loop(Test), Whole(h, Inside1(x)),
      [Loop(Inside(Lock(LOOP)))] + ([Loop(Fetched)] + ([Loop(WriteSucceeds)] + [])), last);
  }

  /** From the start: a message is submitted, which the loop can take and send; and from any state in which the node
      is stopped, the loop ends at its next test. */
  lemma SubmitAndStop(x: Item, w: Whole)
    ensures CanTurn(Fresh({}), Loop(Submit(x, NoOne)))
    ensures After(Fresh({}), Loop(Submit(x, NoOne))) == Whole(H.START, AtTest(x, [], false))
    ensures w.n.stopped && w.n.pc == Testing && Outside(w.n.s, LOOP) ==>
      CanTurn(w, Loop(Test)) && After(w, Loop(Test)) == w.(n := w.n.(pc := Exited))
  {
    assert [] + [x] == [x];
  }
}
