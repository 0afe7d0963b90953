/** The condition-variable queue between the senders and the send loop (include/crisp/util/SharedQueue.hh).
    Every critical section is one step; the lock-free test at the head of `next` is a step of its own.
    Sleeping and waking threads are kept apart, so wake-ups may be spurious and arriving threads may
    barge in between a notification and the thread it wakes. */
module SharedQueues {
  /** Queued messages, told apart by number. */
  type Item = nat

  /** What a call of `next` brings back. */
  datatype Result = Got(item: Item) | Aborted

  datatype State = State(
    q: seq<Item>,
    aborted: bool,
    numWaiters: int,
    entering: set<nat>,         // past the lock-free test, waiting for the mutex
    sleeping: set<nat>,         // in the condition variable
    woken: set<nat>,            // notified or woken spuriously, not yet run
    returned: map<nat, Result>, // out of `next`, result not yet collected
    pushed: seq<Item>,          // everything ever pushed, in order
    removed: seq<Item>)         // everything ever taken out, in order

  const START := State([], false, 0, {}, {}, {}, map[], [], [])

  datatype Notified = NoOne | One(t: nat)

  datatype Step =
    | Push(item: Item, notified: Notified)
    | Pop
    | WakeAll
    | Enter(t: nat, wantsFlag: bool)
    | Lock(t: nat)
    | Spurious(t: nat)
    | Resume(t: nat)
    | Collect(t: nat)

  predicate Outside(s: State, t: nat) {
    t !in s.entering && t !in s.sleeping && t !in s.woken && t !in s.returned
  }

  predicate Enabled(s: State, step: Step) {
    match step
    case Push(_, notified) => if notified == NoOne then s.sleeping == {} else notified.t in s.sleeping
    case Pop => s.q != []
    case WakeAll => true
    case Enter(t, _) => Outside(s, t)
    case Lock(t) => t in s.entering
    case Spurious(t) => t in s.sleeping
    case Resume(t) => t in s.woken
    case Collect(t) => t in s.returned
  }

  /** The end of `next`, with the mutex held and, unless aborted, something in the queue. */
  function Take(s: State, t: nat): State
    requires s.aborted || s.q != []
  {
    if s.aborted then s.(returned := s.returned[t := Aborted])
    else s.(returned := s.returned[t := Got(s.q[0])], q := s.q[1..], removed := s.removed + [s.q[0]])
  }

  function Do(s: State, step: Step): State
    requires Enabled(s, step)
  {
    match step
    case Push(item, notified) =>
      var pushed := s.(q := s.q + [item], pushed := s.pushed + [item]);
      if notified == NoOne then pushed
      else pushed.(sleeping := s.sleeping - {notified.t}, woken := s.woken + {notified.t})
    case Pop => s.(q := s.q[1..], removed := s.removed + [s.q[0]])
    case WakeAll => s.(aborted := true, woken := s.woken + s.sleeping, sleeping := {})
    case Enter(t, wantsFlag) =>
      if s.aborted && wantsFlag then s.(returned := s.returned[t := Aborted]) else s.(entering := s.entering + {t})
    case Lock(t) =>
      var inside := s.(entering := s.entering - {t});
      if s.q == [] && !s.aborted then inside.(numWaiters := s.numWaiters + 1, sleeping := s.sleeping + {t})
      else Take(inside, t)
    case Spurious(t) => s.(sleeping := s.sleeping - {t}, woken := s.woken + {t})
    case Resume(t) =>
      var up := s.(woken := s.woken - {t});
      if s.q == [] && !s.aborted then up.(sleeping := s.sleeping + {t})
      else Take(up.(numWaiters := s.numWaiters - 1), t)
    case Collect(t) => s.(returned := s.returned - {t})
  }

  predicate Possible(s: State, steps: seq<Step>)
    decreases steps
  {
    steps == [] || (Enabled(s, steps[0]) && Possible(Do(s, steps[0]), steps[1..]))
  }

  function Run(s: State, steps: seq<Step>): State
    requires Possible(s, steps)
    decreases steps
  {
    if steps == [] then s else Run(Do(s, steps[0]), steps[1..])
  }

  // ----- The invariant -----

  predicate Inv(s: State) {
    && s.sleeping !! s.woken && s.entering !! s.sleeping && s.entering !! s.woken
    && s.returned.Keys !! s.entering && s.returned.Keys !! s.sleeping && s.returned.Keys !! s.woken
    && s.numWaiters == |s.sleeping| + |s.woken|
    && (s.sleeping != {} ==> |s.woken| >= |s.q|)
    && (s.aborted ==> s.sleeping == {})
    && s.pushed == s.removed + s.q
  }

  lemma StartInv()
    ensures Inv(START)
  {}

  lemma LockKeepsInv(s: State, t: nat)
    requires Inv(s) && Enabled(s, Lock(t))
    ensures Inv(Do(s, Lock(t)))
  {}

  lemma ResumeKeepsInv(s: State, t: nat)
    requires Inv(s) && Enabled(s, Resume(t))
    ensures Inv(Do(s, Resume(t)))
  {}

  lemma PushKeepsInv(s: State, item: Item, notified: Notified)
    requires Inv(s) && Enabled(s, Push(item, notified))
    ensures Inv(Do(s, Push(item, notified)))
  {}

  lemma WakingKeepsInv(s: State, step: Step)
    requires Inv(s) && Enabled(s, step) && (step.WakeAll? || step.Spurious?)
    ensures Inv(Do(s, step))
  {}

  lemma StepKeepsInv(s: State, step: Step)
    requires Inv(s) && Enabled(s, step)
    ensures Inv(Do(s, step))
  {
    match step
    case Lock(t) => hide Do, Inv; LockKeepsInv(s, t);
    case Resume(t) => hide Do, Inv; ResumeKeepsInv(s, t);
    case Push(item, notified) => hide Do, Inv; PushKeepsInv(s, item, notified);
    case WakeAll => hide Do, Inv; WakingKeepsInv(s, step);
    case Spurious(_) => hide Do, Inv; WakingKeepsInv(s, step);
    case _ => hide Take;
  }

  lemma {:induction false} RunKeepsInv(s: State, steps: seq<Step>)
    requires Inv(s) && Possible(s, steps)
    ensures Inv(Run(s, steps))
    decreases steps
  {
    hide Inv, Do, Enabled;
    if steps != [] {
      StepKeepsInv(s, steps[0]);
      RunKeepsInv(Do(s, steps[0]), steps[1..]);
    }
  }

  // ----- Where a thread is, and what is queued -----

  datatype Place = Out | Entering | Sleeping | Woken | Back(result: Result)

  function PlaceOf(s: State, t: nat): Place {
    if t in s.returned then Back(s.returned[t]) else if t in s.entering then Entering
    else if t in s.sleeping then Sleeping else if t in s.woken then Woken else Out
  }

  /** With the mutex, a thread brings back that the queue is aborted, or goes to sleep, or takes the front. */
  function Inside(s: State): Place {
    if s.aborted then Back(Aborted) else if s.q == [] then Sleeping else Back(Got(s.q[0]))
  }

  /** The way of a thread through `next`; no step moves any thread but as said here. */
  lemma PlaceAfter(s: State, step: Step, t: nat)
    requires Inv(s) && Enabled(s, step)
    ensures PlaceOf(Do(s, step), t)
      == if step == Enter(t, true) then (if s.aborted then Back(Aborted) else Entering)
         else if step == Enter(t, false) then Entering
         else if step == Lock(t) || step == Resume(t) then Inside(s)
         else if step == Collect(t) then Out
         else if Rouses(step, t) && t in s.sleeping then Woken
         else PlaceOf(s, t)
  {
    ThreadInOnePlace(s, t);
    hide Inv;
    match step
    case Lock(u) => LockPlaces(s, u, t); hide Do, Take, PlaceOf, Enabled, OnePlace;
    case Resume(u) => ResumePlaces(s, u, t); hide Do, Take, PlaceOf, Enabled, OnePlace;
    case Push(_, _) => RousingPlaces(s, step, t); hide Do, Take, PlaceOf, Enabled, OnePlace;
    case WakeAll => RousingPlaces(s, step, t); hide Do, Take, PlaceOf, Enabled, OnePlace;
    case Spurious(_) => RousingPlaces(s, step, t); hide Do, Take, PlaceOf, Enabled, OnePlace;
    case _ => hide Take;
  }

  predicate OnePlace(s: State, t: nat) {
    && (t in s.returned ==> t !in s.entering && t !in s.sleeping && t !in s.woken)
    && (t in s.entering ==> t !in s.sleeping && t !in s.woken) && (t in s.sleeping ==> t !in s.woken)
  }

  lemma ThreadInOnePlace(s: State, t: nat)
    requires Inv(s)
    ensures OnePlace(s, t)
  {}

  lemma LockPlaces(s: State, u: nat, t: nat)
    requires OnePlace(s, t) && Enabled(s, Lock(u))
    ensures PlaceOf(Do(s, Lock(u)), t) == if t == u then Inside(s) else PlaceOf(s, t)
  {}

  lemma ResumePlaces(s: State, u: nat, t: nat)
    requires OnePlace(s, t) && Enabled(s, Resume(u))
    ensures PlaceOf(Do(s, Resume(u)), t) == if t == u then Inside(s) else PlaceOf(s, t)
  {}

  lemma RousingPlaces(s: State, step: Step, t: nat)
    requires OnePlace(s, t) && Enabled(s, step) && (step.Push? || step.WakeAll? || step.Spurious?)
    ensures PlaceOf(Do(s, step), t) == if Rouses(step, t) && t in s.sleeping then Woken else PlaceOf(s, t)
  {}

  /** A step takes the front out: `pop`, and a thread in `next` that finds something and no abort. */
  predicate Takes(s: State, step: Step) { step.Pop? || ((step.Lock? || step.Resume?) && !s.aborted && s.q != []) }

  /** Pushed at the back, taken from the front, aborted for good. */
  lemma QueueAfter(s: State, step: Step)
    requires Enabled(s, step)
    ensures var s' := Do(s, step);
      && (s'.aborted <==> s.aborted || step.WakeAll?)
      && (Takes(s, step) ==> s.q != [])
      && s'.q == (if step.Push? then s.q + [step.item] else if Takes(s, step) then s.q[1..] else s.q)
      && s'.pushed == (if step.Push? then s.pushed + [step.item] else s.pushed)
      && s'.removed == (if Takes(s, step) then s.removed + [s.q[0]] else s.removed)
  {}

  /** A thread's whole way through an empty queue: it sleeps, is woken for nothing and sleeps again, is woken by
      a push, and brings the item back. */
  lemma WayThroughNext(t: nat, item: Item) returns (steps: seq<Step>)
    ensures steps == [Enter(t, true), Lock(t), Spurious(t), Resume(t), Push(item, One(t)), Resume(t)]
    ensures Possible(START, steps) && PlaceOf(Run(START, steps), t) == Back(Got(item)) && Run(START, steps).q == []
    ensures Enabled(Run(START, steps), Collect(t)) && PlaceOf(Do(Run(START, steps), Collect(t)), t) == Out
  {
    var s1 := START.(entering := {t});
    var s2 := START.(numWaiters := 1, sleeping := {t});
    var s3 := START.(numWaiters := 1, woken := {t});
    var s4 := State([item], false, 1, {}, {}, {t}, map[], [item], []);
    var s5 := State([], false, 0, {}, {}, {}, map[t := Got(item)], [item], [item]);
    EmptyMoves(t);
    WokenMoves(t, item);
    hide Do, Enabled, PlaceOf;
    var a5 := [Resume(t)];
    var a4 := [Push(item, One(t))] + a5;
    var a3 := [Resume(t)] + a4;
    var a2 := [Spurious(t)] + a3;
    var a1 := [Lock(t)] + a2;
    steps := [Enter(t, true)] + a1;
    assert a5 == [Resume(t)] + [] && Possible(s5, []) && Run(s5, []) == s5;
    Follows(s4, Resume(t), s5, [], s5);
    Follows(s2, Push(item, One(t)), s4, a5, s5);
    Follows(s3, Resume(t), s2, a4, s5);
    Follows(s2, Spurious(t), s3, a3, s5);
    Follows(s1, Lock(t), s2, a2, s5);
    Follows(START, Enter(t, true), s1, a1, s5);
  }

  lemma Follows(s: State, step: Step, s': State, rest: seq<Step>, last: State)
    requires Enabled(s, step) && Do(s, step) == s' && Possible(s', rest) && Run(s', rest) == last
    ensures Possible(s, [step] + rest) && Run(s, [step] + rest) == last
  {
    hide Do, Enabled;
    assert ([step] + rest)[1..] == rest;
  }

  lemma EmptyMoves(t: nat)
    ensures Enabled(START, Enter(t, true)) && Do(START, Enter(t, true)) == START.(entering := {t})
    ensures var s1, s2 := START.(entering := {t}), START.(numWaiters := 1, sleeping := {t}); Enabled(s1, Lock(t)) && Do(s1, Lock(t)) == s2
    ensures var s2, s3 := START.(numWaiters := 1, sleeping := {t}), START.(numWaiters := 1, woken := {t});
      Enabled(s2, Spurious(t)) && Do(s2, Spurious(t)) == s3 && Enabled(s3, Resume(t)) && Do(s3, Resume(t)) == s2
  {}

  lemma WokenMoves(t: nat, item: Item)
    ensures var s2, s4 := START.(numWaiters := 1, sleeping := {t}), State([item], false, 1, {}, {}, {t}, map[], [item], []);
      Enabled(s2, Push(item, One(t))) && Do(s2, Push(item, One(t))) == s4
    ensures var s4, s5 := State([item], false, 1, {}, {}, {t}, map[], [item], []), State([], false, 0, {}, {}, {}, map[t := Got(item)], [item], [item]);
      && Enabled(s4, Resume(t)) && Do(s4, Resume(t)) == s5
      && Enabled(s5, Collect(t)) && PlaceOf(s5, t) == Back(Got(item)) && PlaceOf(Do(s5, Collect(t)), t) == Out
  {}

  // ----- What every interleaving keeps -----

  /** No lost wake-ups: whenever a thread sleeps, as many threads are on their way as there are items,
      so an item never waits with everyone asleep; once aborted nobody sleeps; the waiter count is exact. */
  lemma NoLostWakeups(steps: seq<Step>)
    requires Possible(START, steps)
    ensures var s := Run(START, steps);
      && (s.sleeping != {} ==> |s.woken| >= |s.q|)
      && (s.sleeping != {} && s.q != [] ==> exists t :: t in s.woken && Enabled(s, Resume(t)))
      && (s.aborted ==> s.sleeping == {})
      && s.numWaiters == |s.sleeping| + |s.woken|
  {
    StartInv();
    RunKeepsInv(START, steps);
    var s := Run(START, steps);
    hide Run, Possible;
    if s.sleeping != {} && s.q != [] {
      assert |s.woken| > 0;
      var t :| t in s.woken;
      assert Enabled(s, Resume(t));
    }
  }

  /** First in, first out: what has been taken out is a prefix of what was pushed, the rest is queued. */
  lemma FirstInFirstOut(steps: seq<Step>)
    requires Possible(START, steps)
    ensures var s := Run(START, steps); s.removed <= s.pushed && s.pushed[|s.removed|..] == s.q
  {
    StartInv();
    RunKeepsInv(START, steps);
    hide Run, Possible;
  }

  /** One step of `next` hands out exactly the item it takes from the front. */
  lemma NextTakesFront(s: State, step: Step, t: nat)
    requires Inv(s) && Enabled(s, step) && t !in s.returned
    requires t in Do(s, step).returned && Do(s, step).returned[t].Got?
    ensures var s' := Do(s, step);
      && (step == Lock(t) || step == Resume(t)) && !s.aborted
      && s.q == [s'.returned[t].item] + s'.q && s'.removed == s.removed + [s'.returned[t].item]
  {}

  lemma AbortedStep(s: State, step: Step)
    requires s.aborted && Enabled(s, step) && !step.Pop?
    ensures var s' := Do(s, step); s'.aborted && s'.removed == s.removed
    ensures forall t :: t in Do(s, step).returned && t !in s.returned ==> Do(s, step).returned[t] == Aborted
  {}

  /** After an abort, `next` takes nothing out any more. */
  lemma {:induction false} NothingTakenAfterAbort(s: State, steps: seq<Step>)
    requires s.aborted && Possible(s, steps) && forall k :: 0 <= k < |steps| ==> !steps[k].Pop?
    ensures Run(s, steps).removed == s.removed && Run(s, steps).aborted
    decreases steps
  {
    hide Do, Enabled;
    if steps != [] {
      AbortedStep(s, steps[0]);
      NothingTakenAfterAbort(Do(s, steps[0]), steps[1..]);
    }
  }

  // ----- Halting -----

  /** What `halt` does to the queue: it wakes everyone only when someone is counted as waiting. */
  function HaltQueue(s: State): State { if s.numWaiters > 0 then Do(s, WakeAll) else s }

  /** In some continuation without another abort the thread sleeps. */
  ghost predicate MaySleep(s: State, t: nat) {
    exists more :: Possible(s, more) && WakeAll !in more && t in Run(s, more).sleeping
  }

  /** The count misses a thread between the lock-free test and the mutex. Such a thread may go to sleep after
      `halt` exactly when nobody was counted as waiting, however much was queued, for others may take that
      first; when someone was counted, nobody ever sleeps again. */
  lemma HaltMayMissConsumer(s: State, t: nat)
    requires Inv(s) && !s.aborted && t in s.entering
    ensures MaySleep(HaltQueue(s), t) <==> s.numWaiters == 0
    ensures s.numWaiters > 0 ==> forall more :: Possible(HaltQueue(s), more) ==> Run(HaltQueue(s), more).sleeping == {}
  {
    if s.numWaiters > 0 {
      var h := HaltQueue(s);
      StepKeepsInv(s, WakeAll);
      assert h.aborted;
      hide HaltQueue, Inv, Run, Possible;
      forall more | Possible(h, more) ensures Run(h, more).sleeping == {} { NobodySleepsAfterAbort(h, more); }
    } else {
      var more := DrainThenSleep(s, t);
    }
  }

  lemma AbortStays(s: State, step: Step)
    requires s.aborted && Enabled(s, step)
    ensures Do(s, step).aborted
  {}

  lemma {:induction false} NobodySleepsAfterAbort(s: State, steps: seq<Step>)
    requires Inv(s) && s.aborted && Possible(s, steps)
    ensures Run(s, steps).sleeping == {}
    decreases steps
  {
    hide Do, Enabled;
    if steps != [] {
      hide Inv;
      StepKeepsInv(s, steps[0]);
      AbortStays(s, steps[0]);
      NobodySleepsAfterAbort(Do(s, steps[0]), steps[1..]);
    }
  }

  /** Taking out everything that is queued, and then the mutex. */
  lemma {:induction false} DrainThenSleep(s: State, t: nat) returns (more: seq<Step>)
    requires !s.aborted && t in s.entering
    ensures Possible(s, more) && WakeAll !in more && t in Run(s, more).sleeping
    decreases |s.q|
  {
    var step := if s.q == [] then Lock(t) else Pop;
    var s' := Do(s, step);
    var rest := [];
    if s.q == [] {
      assert Possible(s', rest) && Run(s', rest) == s';
    } else {
      rest := DrainThenSleep(s', t);
    }
    more := [step] + rest;
    assert more[1..] == rest;
  }

  /** Taking the mutex straight after `halt`, the thread goes to sleep exactly when also nothing is queued. */
  lemma HaltMissesAtOnce(s: State, t: nat)
    requires Inv(s) && !s.aborted && t in s.entering
    ensures var h := HaltQueue(s); t in Do(h, Lock(t)).sleeping <==> s.numWaiters == 0 && s.q == []
  {}

  /** The steps that get a sleeping thread going. */
  predicate Rouses(step: Step, t: nat) { step == WakeAll || step == Spurious(t) || (step.Push? && step.notified == One(t)) }

  lemma SleepsOn(s: State, step: Step, t: nat)
    requires Enabled(s, step) && t in s.sleeping && t !in s.woken && t !in s.entering && t !in s.returned
    ensures var s' := Do(s, step);
      if Rouses(step, t) then t !in s'.sleeping && t in s'.woken
      else t in s'.sleeping && t !in s'.woken && t !in s'.entering && t !in s'.returned
  {}

  /** A thread that sleeps goes on sleeping, whatever the others do, exactly until a push that notifies it,
      an abort or a spurious wake-up. */
  lemma {:induction false} SleepsUntilRoused(s: State, steps: seq<Step>, t: nat)
    requires Possible(s, steps) && t in s.sleeping && t !in s.woken && t !in s.entering && t !in s.returned
    requires forall k :: 0 <= k < |steps| ==> !Rouses(steps[k], t)
    ensures t in Run(s, steps).sleeping && t !in Run(s, steps).returned
    decreases steps
  {
    hide Do, Enabled, Rouses;
    if steps != [] {
      SleepsOn(s, steps[0], t);
      SleepsUntilRoused(Do(s, steps[0]), steps[1..], t);
    }
  }

  /** And that happens: a consumer enters, the node halts, which wakes nobody, and the consumer takes the
      mutex. It then sleeps on a queue that is not aborted, and by the theorem before, only a push to it or
      a spurious wake-up ends that. */
  lemma ConsumerSleepsThroughHalt(t: nat) returns (steps: seq<Step>)
    ensures Possible(START, steps) && Enabled(Run(START, steps), Lock(t))
    ensures var s := Run(START, steps);
      && HaltQueue(s) == s && t in Do(s, Lock(t)).sleeping && !Do(s, Lock(t)).aborted
      && t !in Do(s, Lock(t)).woken && t !in Do(s, Lock(t)).entering && t !in Do(s, Lock(t)).returned
  {
    steps := [Enter(t, true)];
    assert steps[1..] == [];
    assert Run(START.(entering := {t}), []) == START.(entering := {t});
  }
}
