/** A slot of periodic actions on one timer (src/util/PeriodicScheduleSlot.cc, src/util/PeriodicAction.cc).
    Arming cancels every wait still pending and hangs new ones on the timer: one for each active action
    and one for the slot itself. A wait that is cancelled or expires becomes a ready handler; ready
    handlers run in any order, each as one step. */
module Slots {
  import opened Bytes

  datatype Kind = Slot | Action(a: nat)

  /** A wait, and the handler it becomes, belong to the arming that created them. */
  datatype Token = Token(kind: Kind, arm: nat)

  /** A successful expiry calls the function of an action that is active by then. */
  datatype Outcome = Called | Inactive | Cancelled | Rearmed

  datatype State = State(
    actions: seq<nat>,         // most recent first
    known: set<nat>,           // every action ever scheduled
    active: set<nat>,
    pending: set<Token>,       // waits on the timer
    ready: map<Token, bool>,   // handlers to run; true after an expiry, false after a cancellation
    removals: multiset<nat>,   // posted by `cancel`
    arms: nat,
    armed: seq<set<nat>>,      // the actions each arming hung a wait for
    done: map<Token, Outcome>, // what each handler that ran did
    calls: seq<Token>)         // every call of an action's function, in order

  const START := State([], {}, {}, {}, map[], multiset{}, 0, [], map[], [])

  /** `cancel` or `expires_from_now` on the timer. */
  function Abort(s: State): State {
    s.(pending := {}, ready := s.ready + map t | t in s.pending :: false)
  }

  function ToArm(s: State): set<nat> { set a | a in s.actions && a in s.active }

  /** The waits of one arming. */
  function Waits(s: State): set<Token> {
    (set a | a in ToArm(s) :: Token(Action(a), s.arms)) + {Token(Slot, s.arms)}
  }

  /** `reset_timer`. */
  function Arm(s: State): State {
    Abort(s).(pending := Waits(s), arms := s.arms + 1, armed := s.armed + [ToArm(s)])
  }

  function Without(actions: seq<nat>, a: nat): (r: seq<nat>)
    ensures forall x :: x in r <==> x in actions && x != a
  {
    if actions == [] then []
    else if actions[0] == a then Without(actions[1..], a)
    else [actions[0]] + Without(actions[1..], a)
  }

  datatype Step =
    | Schedule(a: nat)             // `emplace`: push to the front; arm if the list was empty
    | Pause(a: nat)
    | Unpause(a: nat)
    | Cancel(a: nat)               // deactivate and post the removal
    | Remove(a: nat, alive: bool)  // a posted removal; does nothing once the action is gone
    | Expire                       // the timer runs out
    | Handle(t: Token)             // a ready handler runs

  predicate Enabled(s: State, step: Step) {
    match step
    case Schedule(a) => a !in s.known
    case Pause(a) => a in s.known
    case Unpause(a) => a in s.known
    case Cancel(a) => a in s.known
    case Remove(a, alive) => a in s.removals && (a in s.actions ==> alive)
    case Expire => s.pending != {}
    case Handle(t) => t in s.ready
  }

  function Do(s: State, step: Step): State
    requires Enabled(s, step)
  {
    match step
    case Schedule(a) =>
      var pushed := s.(actions := [a] + s.actions, known := s.known + {a}, active := s.active + {a});
      if s.actions == [] then Arm(pushed) else pushed
    case Pause(a) => s.(active := s.active - {a})
    case Unpause(a) => s.(active := s.active + {a})
    case Cancel(a) => s.(active := s.active - {a}, removals := s.removals + multiset{a})
    case Remove(a, alive) =>
      var taken := s.(removals := s.removals - multiset{a});
      if !alive then taken
      else
        var left := taken.(actions := Without(s.actions, a));
        if left.actions == [] then Abort(left) else left
    case Expire => s.(pending := {}, ready := s.ready + map t | t in s.pending :: true)
    case Handle(t) =>
      var run := s.(ready := s.ready - {t});
      if !s.ready[t] then run.(done := s.done[t := Cancelled])
      else if t.kind == Slot then Arm(run.(done := s.done[t := Rearmed]))
      else if t.kind.a in s.active then run.(done := s.done[t := Called], calls := s.calls + [t])
      else run.(done := s.done[t := Inactive])
  }

  predicate Possible(s: State, steps: seq<Step>)
    decreases steps
  {
    steps == [] || (Enabled(s, steps[0]) && Possible(Do(s, steps[0]), steps[1..]))
  }

  function Run(s: State, steps: seq<Step>): State
    requires Possible(s, steps)
    decreases steps
  {
    if steps == [] then s else Run(Do(s, steps[0]), steps[1..])
  }

  // ----- Which steps change what -----

  /** The timer is armed when the first action comes in and when a slot wait has expired. */
  predicate Arming(s: State, step: Step) {
    (step.Schedule? && s.actions == []) || (step.Handle? && step.t.kind == Slot && step.t in s.ready && s.ready[step.t])
  }

  /** The last action leaves the list. */
  predicate Emptying(s: State, step: Step) {
    step.Remove? && step.alive && forall a :: a in s.actions ==> a == step.a
  }

  /** Actions are active from when they are scheduled or unpaused until they are paused or cancelled. */
  lemma ActiveAfter(s: State, step: Step, a: nat)
    requires Enabled(s, step)
    ensures a in Do(s, step).active
      <==> step == Schedule(a) || step == Unpause(a) || (a in s.active && step != Pause(a) && step != Cancel(a))
  {
    hide Waits;
  }

  /** The list: scheduled in front, taken out wherever it is, the others in their order. */
  lemma ListAfter(s: State, step: Step)
    requires Enabled(s, step) && Distinct(s.actions)
    ensures var s' := Do(s, step);
      if step.Schedule? then s'.actions == [step.a] + s.actions
      else if step.Remove? && step.alive && step.a in s.actions then TakenOut(s.actions, step.a, s'.actions)
      else s'.actions == s.actions
    ensures forall a :: a in Do(s, step).known <==> a in s.known || step == Schedule(a)
  {
    hide Waits;
    if step.Remove? && step.alive {
      if step.a in s.actions { var i := WithoutOne(s.actions, step.a); } else { WithoutNone(s.actions, step.a); }
    }
    hide Without;
  }

  /** A posted removal of a listed action always takes it out; of another it does nothing, whether or not the action
      still exists. */
  lemma RemovalTakesOut(s: State, a: nat, alive: bool)
    requires a in s.removals
    ensures Enabled(s, Remove(a, alive)) ==> a !in Do(s, Remove(a, alive)).actions
    ensures Enabled(s, Remove(a, alive)) <==> a !in s.actions || alive
  {}

  ghost predicate TakenOut(xs: seq<nat>, a: nat, ys: seq<nat>) {
    a !in ys && exists i :: 0 <= i < |xs| && xs[i] == a && ys == xs[..i] + xs[i + 1..]
  }

  lemma {:induction false} WithoutNone(xs: seq<nat>, a: nat)
    requires a !in xs
    ensures Without(xs, a) == xs
    decreases xs
  {
    if xs != [] { WithoutNone(xs[1..], a); }
  }

  lemma {:induction false} WithoutOne(xs: seq<nat>, a: nat) returns (i: nat)
    requires Distinct(xs) && a in xs
    ensures i < |xs| && xs[i] == a && Without(xs, a) == xs[..i] + xs[i + 1..]
    decreases xs
  {
    if xs[0] == a {
      i := 0;
      WithoutNone(xs[1..], a);
    } else {
      var k := WithoutOne(xs[1..], a);
      i := k + 1;
      assert [xs[0]] + xs[1..][..k] == xs[..i] && xs[1..][k + 1..] == xs[i + 1..];
      Regroup([xs[0]], xs[1..][..k], xs[1..][k + 1..]);
    }
  }

  /** Removals are posted by `cancel`, one each, and used up by running. */
  lemma RemovalsAfter(s: State, step: Step, a: nat)
    requires Enabled(s, step)
    ensures Do(s, step).removals[a] == s.removals[a] + (if step == Cancel(a) then 1 else 0)
      - (if step.Remove? && step.a == a then 1 else 0)
  {
    hide Waits, Without;
  }

  /** What is pending on the timer: after an arming a wait for each listed and active action and one for the
      slot, all new; nothing after an expiry or when the list has been emptied; and else what was pending. */
  lemma PendingAfter(s: State, step: Step, t: Token)
    requires Enabled(s, step)
    ensures var s' := Do(s, step);
      t in s'.pending <==>
        if Arming(s, step) then t.arm == s.arms && (t.kind.Action? ==> t.kind.a in s'.actions && t.kind.a in s'.active)
        else t in s.pending && step != Expire && !Emptying(s, step)
    ensures Do(s, step).arms == s.arms + if Arming(s, step) then 1 else 0
  {
    WaitsOf(Do(s, step), s.arms, t);
    if step.Remove? { EmptiedBy(s.actions, step.a); }
    hide Without;
  }

  lemma WaitsOf(s: State, arm: nat, t: Token)
    ensures t in Waits(s.(arms := arm)) <==> t.arm == arm && (t.kind.Action? ==> t.kind.a in s.actions && t.kind.a in s.active)
  {}

  lemma EmptiedBy(xs: seq<nat>, a: nat)
    ensures Without(xs, a) == [] <==> forall x :: x in xs ==> x == a
  {
    if Without(xs, a) != [] { assert Without(xs, a)[0] in xs; }
  }

  /** What handlers there are to run: those there were, but for the one that ran; and those of the waits that
      have ended, successful after an expiry and not after a cancellation by an arming or an emptied list. */
  lemma ReadyAfter(s: State, step: Step, t: Token)
    requires Enabled(s, step) && (t in s.pending ==> t !in s.ready)
    ensures var s' := Do(s, step);
      && (t in s'.ready <==> (t in s.ready && step != Handle(t))
                             || (t in s.pending && (step == Expire || Arming(s, step) || Emptying(s, step))))
      && (t in s'.ready ==> s'.ready[t] == if t in s.ready then s.ready[t] else step == Expire)
  {
    if step.Remove? { EmptiedBy(s.actions, step.a); }
    hide Without, Waits;
  }

  /** The histories: an arming records the actions it hangs waits for, and a handler what it did. */
  lemma HistoryAfter(s: State, step: Step, a: nat, t: Token)
    requires Enabled(s, step)
    ensures var s' := Do(s, step);
      if Arming(s, step) then |s'.armed| == |s.armed| + 1 && s'.armed[..|s.armed|] == s.armed
                              && (a in s'.armed[|s.armed|] <==> a in s'.actions && a in s'.active)
      else s'.armed == s.armed
    ensures var s' := Do(s, step);
      && (t in s'.done <==> t in s.done || step == Handle(t))
      && (t in s'.done ==> s'.done[t] == if step != Handle(t) then s.done[t] else if !s.ready[t] then Cancelled
                                         else if t.kind == Slot then Rearmed else if t.kind.a in s.active then Called else Inactive)
  {
    hide Waits, Without;
  }

  // ----- Liveness and bookkeeping invariant -----

  predicate SlotWaiting(s: State) { exists t :: t in s.pending && t.kind == Slot }

  predicate SlotReady(s: State) { exists t :: t in s.ready && t.kind == Slot && s.ready[t] }

  /** At most one slot wait is pending, and a slot with actions has one or a successful handler to run. */
  predicate NeverDead(s: State) {
    && (forall t, u :: t in s.pending && u in s.pending && t.kind == Slot && u.kind == Slot ==> t == u)
    && (s.actions != [] ==> SlotWaiting(s) || SlotReady(s))
  }

  predicate Live(s: State, t: Token) { t in s.pending || t in s.ready || t in s.done }

  /** Every wait of every arming is in one place: pending, ready or done; pending waits are of the last
      arming; and the calls are the handlers that were done by calling, each once. */
  ghost predicate TokensFit(s: State) {
    && |s.armed| == s.arms
    && (forall t :: Live(s, t) ==> t.arm < s.arms)
    && (forall t :: t in s.pending ==> t.arm + 1 == s.arms)
    && (forall t :: t in s.ready ==> t !in s.pending)
    && (forall t :: t in s.done ==> t !in s.pending && t !in s.ready)
    && (forall t :: (t in s.done && s.done[t] == Called) <==> t in s.calls)
    && (forall i, j :: 0 <= i < j < |s.calls| ==> s.calls[i] != s.calls[j])
  }

  ghost predicate ArmedFits(s: State) {
    && |s.armed| == s.arms
    && forall t :: Live(s, t) <==> t.arm < s.arms && (t.kind == Slot || t.kind.a in s.armed[t.arm])
  }

  predicate Distinct(xs: seq<nat>) { forall i, j :: 0 <= i < j < |xs| ==> xs[i] != xs[j] }

  ghost predicate Inv(s: State) {
    NeverDead(s) && TokensFit(s) && ArmedFits(s) && ListFits(s)
  }

  lemma StartInv()
    ensures Inv(START)
  {}

  lemma ArmKeepsAlive(s: State)
    ensures NeverDead(Arm(s)) && Token(Slot, s.arms) in Arm(s).pending
  {
    assert Token(Slot, s.arms) in Waits(s);
  }

  lemma ArmKeepsTokens(s: State)
    requires TokensFit(s)
    ensures TokensFit(Arm(s))
  {
    assert forall t :: t in Waits(s) ==> t.arm == s.arms;
    hide Waits;
  }

  lemma ArmKeepsArmed(s: State)
    requires ArmedFits(s)
    ensures ArmedFits(Arm(s))
  {
    var s' := Arm(s);
    forall t ensures Live(s', t) <==> t.arm < s'.arms && (t.kind == Slot || t.kind.a in s'.armed[t.arm]) {
      assert t in Waits(s) <==> t.arm == s.arms && (t.kind == Slot || t.kind.a in ToArm(s));
      assert Live(s', t) <==> Live(s, t) || t in Waits(s);
    }
  }

  lemma AbortKeepsArmed(s: State)
    requires ArmedFits(s)
    ensures ArmedFits(Abort(s))
  {
    assert forall t :: Live(Abort(s), t) <==> Live(s, t);
  }

  lemma SameLive(s: State, s': State)
    requires ArmedFits(s) && s'.arms == s.arms && s'.armed == s.armed
    requires forall t :: Live(s', t) <==> Live(s, t)
    ensures ArmedFits(s')
  {}

  lemma ScheduleKeepsArmed(s: State, a: nat)
    requires ArmedFits(s) && Enabled(s, Schedule(a))
    ensures ArmedFits(Do(s, Schedule(a)))
  {
    var pushed := s.(actions := [a] + s.actions, known := s.known + {a}, active := s.active + {a});
    SameLive(s, pushed);
    if s.actions == [] { ArmKeepsArmed(pushed); }
    hide Arm, Live, ArmedFits;
  }

  lemma HandleKeepsArmed(s: State, t: Token)
    requires ArmedFits(s) && Enabled(s, Handle(t))
    ensures ArmedFits(Do(s, Handle(t)))
  {
    var run := s.(ready := s.ready - {t}, done := s.done[t := Rearmed]);
    SameLive(s, run);
    if s.ready[t] && t.kind == Slot { ArmKeepsArmed(run); } else { SameLive(s, Do(s, Handle(t))); }
    hide Arm, Live, ArmedFits;
  }

  lemma RemoveKeepsArmed(s: State, a: nat, alive: bool)
    requires ArmedFits(s) && Enabled(s, Remove(a, alive))
    ensures ArmedFits(Do(s, Remove(a, alive)))
  {
    var taken := s.(removals := s.removals - multiset{a});
    var left := taken.(actions := Without(s.actions, a));
    SameLive(s, taken);
    SameLive(s, left);
    AbortKeepsArmed(left);
    hide Abort, Live, ArmedFits, Without;
  }

  lemma StepKeepsArmed(s: State, step: Step)
    requires ArmedFits(s) && Enabled(s, step)
    ensures ArmedFits(Do(s, step))
  {
    match step
    case Schedule(a) => hide Do, ArmedFits; ScheduleKeepsArmed(s, a);
    case Handle(t) => hide Do, ArmedFits; HandleKeepsArmed(s, t);
    case Remove(a, alive) => hide Do, ArmedFits; RemoveKeepsArmed(s, a, alive);
    case _ => SameLive(s, Do(s, step)); hide ArmedFits;
  }

  lemma AbortKeepsTokens(s: State)
    requires TokensFit(s)
    ensures TokensFit(Abort(s))
  {}

  /** No step leaves a slot with actions without anything that will arm it again. */
  lemma StepKeepsAlive(s: State, step: Step)
    requires NeverDead(s) && Enabled(s, step)
    ensures NeverDead(Do(s, step))
  {
    hide Waits;
    match step
    case Schedule(a) =>
      if s.actions == [] {
        ArmKeepsAlive(s.(actions := [a] + s.actions, known := s.known + {a}, active := s.active + {a}));
        hide Arm;
      }
    case Expire => ExpireKeepsAlive(s);
    case Handle(t) => HandleKeepsAlive(s, t); hide Do;
    case Remove(a, alive) => RemoveKeepsAlive(s, a, alive); hide Do;
    case _ => hide Arm, Abort;
  }

  lemma ExpireKeepsAlive(s: State)
    requires NeverDead(s)
    ensures NeverDead(s.(pending := {}, ready := s.ready + map t | t in s.pending :: true))
  {
    var s' := s.(pending := {}, ready := s.ready + map t | t in s.pending :: true);
    if SlotWaiting(s) {
      var t :| t in s.pending && t.kind == Slot;
      assert t in s'.ready && s'.ready[t];
    } else if SlotReady(s) {
      var t :| t in s.ready && t.kind == Slot && s.ready[t];
      assert t in s'.ready && s'.ready[t];
    }
  }

  lemma RemoveKeepsAlive(s: State, a: nat, alive: bool)
    requires NeverDead(s) && Enabled(s, Remove(a, alive))
    ensures NeverDead(Do(s, Remove(a, alive)))
  {}

  lemma HandleKeepsAlive(s: State, t: Token)
    requires NeverDead(s) && Enabled(s, Handle(t))
    ensures NeverDead(Do(s, Handle(t)))
  {
    if s.ready[t] && t.kind == Slot {
      ArmKeepsAlive(s.(ready := s.ready - {t}, done := s.done[t := Rearmed]));
      hide Arm;
    } else {
      var s' := Do(s, Handle(t));
      if SlotReady(s) {
        var u :| u in s.ready && u.kind == Slot && s.ready[u];
        assert u in s'.ready && s'.ready[u];
      }
      if SlotWaiting(s) {
        var u :| u in s.pending && u.kind == Slot;
        assert u in s'.pending;
      }
    }
  }

  lemma HandleKeepsTokens(s: State, t: Token)
    requires TokensFit(s) && Enabled(s, Handle(t))
    ensures TokensFit(Do(s, Handle(t)))
  {
    if s.ready[t] && t.kind == Slot { ArmKeepsTokens(s.(ready := s.ready - {t}, done := s.done[t := Rearmed])); }
    hide Arm;
  }

  lemma ScheduleKeepsTokens(s: State, a: nat)
    requires TokensFit(s) && Enabled(s, Schedule(a))
    ensures TokensFit(Do(s, Schedule(a)))
  {
    if s.actions == [] { ArmKeepsTokens(s.(actions := [a] + s.actions, known := s.known + {a}, active := s.active + {a})); }
    hide Arm;
  }

  lemma RemoveKeepsTokens(s: State, a: nat, alive: bool)
    requires TokensFit(s) && Enabled(s, Remove(a, alive))
    ensures TokensFit(Do(s, Remove(a, alive)))
  {
    AbortKeepsTokens(s.(removals := s.removals - multiset{a}, actions := Without(s.actions, a)));
    hide Abort, Without;
  }

  lemma ExpireKeepsTokens(s: State)
    requires TokensFit(s)
    ensures TokensFit(s.(pending := {}, ready := s.ready + map t | t in s.pending :: true))
  {}

  lemma StepKeepsTokens(s: State, step: Step)
    requires TokensFit(s) && Enabled(s, step)
    ensures TokensFit(Do(s, step))
  {
    match step
    case Schedule(a) => hide Do, TokensFit; ScheduleKeepsTokens(s, a);
    case Handle(t) => hide Do, TokensFit; HandleKeepsTokens(s, t);
    case Remove(a, alive) => hide Do, TokensFit; RemoveKeepsTokens(s, a, alive);
    case Expire => hide TokensFit; ExpireKeepsTokens(s);
    case _ =>
  }

  lemma {:induction false} WithoutKeepsDistinct(xs: seq<nat>, a: nat)
    requires Distinct(xs)
    ensures Distinct(Without(xs, a))
    decreases xs
  {
    if xs != [] {
      WithoutKeepsDistinct(xs[1..], a);
      if xs[0] != a {
        var r := Without(xs[1..], a);
        forall j | 0 <= j < |r| ensures r[j] != xs[0] { assert r[j] in xs[1..]; }
      }
    }
  }

  predicate ListFits(s: State) { Distinct(s.actions) && forall a :: a in s.actions ==> a in s.known }

  lemma StepKeepsList(s: State, step: Step)
    requires ListFits(s) && Enabled(s, step)
    ensures ListFits(Do(s, step))
  {
    hide Waits;
    if step.Remove? { WithoutKeepsDistinct(s.actions, step.a); }
    hide Without;
  }

  lemma StepKeepsInv(s: State, step: Step)
    requires Inv(s) && Enabled(s, step)
    ensures Inv(Do(s, step))
  {
    StepKeepsAlive(s, step);
    StepKeepsTokens(s, step);
    StepKeepsList(s, step);
    StepKeepsArmed(s, step);
    hide Do, NeverDead, TokensFit, ArmedFits, ListFits;
  }

  lemma {:induction false} RunKeepsInv(s: State, steps: seq<Step>)
    requires Inv(s) && Possible(s, steps)
    ensures Inv(Run(s, steps))
    decreases steps
  {
    hide Inv, Do, Enabled;
    if steps != [] {
      StepKeepsInv(s, steps[0]);
      RunKeepsInv(Do(s, steps[0]), steps[1..]);
    }
  }

  // ----- What every run keeps -----

  /** A slot never goes dead: at most one slot wait is pending, and while the slot has actions there is
      one, or a successful expiry handler still to run, which will arm the timer again. */
  lemma SlotNeverDies(steps: seq<Step>)
    requires Possible(START, steps)
    ensures var s := Run(START, steps);
      && (forall t, u :: t in s.pending && u in s.pending && t.kind == Slot && u.kind == Slot ==> t == u)
      && (s.actions != [] ==> SlotWaiting(s) || exists t :: t in s.ready && Do(s, Handle(t)).arms == s.arms + 1)
  {
    StartInv();
    RunKeepsInv(START, steps);
    var s := Run(START, steps);
    hide Run, Possible, TokensFit, ArmedFits, ListFits, Waits;
    if s.actions != [] && !SlotWaiting(s) {
      var t :| t in s.ready && t.kind == Slot && s.ready[t];
      assert Do(s, Handle(t)).arms == s.arms + 1;
    }
  }

  /** Per arming: exactly the actions that were listed and active then have a wait; it is pending, ready
      or done, in one of the three; and the function was called for it at most once, namely when that
      handler ran after an expiry on an active action. */
  lemma EveryWaitAccounted(steps: seq<Step>, a: nat, k: nat)
    requires Possible(START, steps) && k < Run(START, steps).arms
    ensures var s := Run(START, steps); var t := Token(Action(a), k);
      && |s.armed| == s.arms
      && (a in s.armed[k] <==> t in s.pending || t in s.ready || t in s.done)
      && !(t in s.pending && t in s.ready) && !(t in s.pending && t in s.done) && !(t in s.ready && t in s.done)
      && multiset(s.calls)[t] == (if t in s.done && s.done[t] == Called then 1 else 0)
  {
    StartInv();
    RunKeepsInv(START, steps);
    var s := Run(START, steps);
    var t := Token(Action(a), k);
    hide Run, Possible, NeverDead, ListFits;
    assert Live(s, t) <==> a in s.armed[k];
    AtMostOnce(s.calls, t);
  }

  lemma {:induction false} AtMostOnce(xs: seq<Token>, t: Token)
    requires forall i, j :: 0 <= i < j < |xs| ==> xs[i] != xs[j]
    ensures multiset(xs)[t] == (if t in xs then 1 else 0)
  {
    if xs != [] {
      var front := xs[..|xs| - 1];
      assert xs == front + [xs[|xs| - 1]];
      AtMostOnce(front, t);
    }
  }

  /** A handler calls its action's function exactly when the expiry succeeded and the action is active;
      no other step calls anything. */
  lemma CallsExactlyWhen(s: State, step: Step)
    requires Enabled(s, step)
    ensures var s' := Do(s, step);
      if step.Handle? && step.t.kind.Action? && s.ready[step.t] && step.t.kind.a in s.active
      then s'.calls == s.calls + [step.t] else s'.calls == s.calls
  {
    hide Waits;
  }

  function CallsOf(calls: seq<Token>, a: nat): nat {
    if calls == [] then 0
    else CallsOf(calls[..|calls| - 1], a) + if calls[|calls| - 1].kind == Action(a) then 1 else 0
  }

  lemma CallsAfter(s: State, step: Step, a: nat)
    requires Enabled(s, step)
    ensures CallsOf(Do(s, step).calls, a) == CallsOf(s.calls, a)
      + if step.Handle? && step.t.kind == Action(a) && s.ready[step.t] && a in s.active then 1 else 0
  {
    CallsExactlyWhen(s, step);
    hide Do;
    if step.Handle? { assert (s.calls + [step.t])[..|s.calls|] == s.calls; }
  }

  lemma StaysInactive(s: State, step: Step, a: nat)
    requires Enabled(s, step) && a in s.known && a !in s.active && step != Unpause(a)
    ensures a in Do(s, step).known && a !in Do(s, step).active
  {
    hide Waits, Without;
  }

  /** Never while paused, and never after `cancel`: an inactive action is not called until it is unpaused. */
  lemma {:induction false} NeverWhileInactive(s: State, steps: seq<Step>, a: nat)
    requires a in s.known && a !in s.active && Possible(s, steps)
    requires forall k :: 0 <= k < |steps| ==> steps[k] != Unpause(a)
    ensures CallsOf(Run(s, steps).calls, a) == CallsOf(s.calls, a)
    decreases steps
  {
    hide Do, Enabled, CallsOf;
    if steps != [] {
      CallsAfter(s, steps[0], a);
      StaysInactive(s, steps[0], a);
      NeverWhileInactive(Do(s, steps[0]), steps[1..], a);
    }
  }

  /** From any reachable state, `pause` and `cancel` silence an action at once, handlers already queued
      included: whatever runs afterwards, its function is not called until it is unpaused. */
  lemma SilencedAtOnce(steps: seq<Step>, step: Step, more: seq<Step>, a: nat)
    requires Possible(START, steps) && (step == Pause(a) || step == Cancel(a)) && Enabled(Run(START, steps), step)
    requires Possible(Do(Run(START, steps), step), more) && Unpause(a) !in more
    ensures CallsOf(Run(Do(Run(START, steps), step), more).calls, a) == CallsOf(Run(START, steps).calls, a)
  {
    var s := Run(START, steps);
    NeverWhileInactive(Do(s, step), more, a);
  }

  lemma Follows(s: State, step: Step, s': State, rest: seq<Step>, last: State)
    requires Enabled(s, step) && Do(s, step) == s' && Possible(s', rest) && Run(s', rest) == last
    ensures Possible(s, [step] + rest) && Run(s, [step] + rest) == last
  {
    hide Do, Enabled;
    assert ([step] + rest)[1..] == rest;
  }

  /** The life of an action on its own: scheduled, paused and unpaused, called when the timer has run out,
      cancelled and removed; then the list is empty and nothing is left on the timer. */
  lemma LifeOfAnAction(a: nat)
    ensures var steps := [Schedule(a)] + ([Pause(a)] + ([Unpause(a)] + ([Expire] + ([Handle(Token(Action(a), 0))]
        + ([Cancel(a)] + ([Remove(a, true)] + []))))));
      && Possible(START, steps) && var s := Run(START, steps);
      s.actions == [] && s.active == {} && s.pending == {} && s.removals == multiset{} && s.calls == [Token(Action(a), 0)]
  {
    var called := Expired(a).(ready := map[Token(Slot, 0) := true], done := map[Token(Action(a), 0) := Called], calls := [Token(Action(a), 0)]);
    var cancelled := called.(active := {}, removals := multiset{a});
    var removed := cancelled.(actions := [], removals := multiset{});
    ArmedFirst(a);
    ExpiredFirst(a);
    assert Do(Armed(a), Pause(a)) == Armed(a).(active := {});
    assert Do(Armed(a).(active := {}), Unpause(a)) == Armed(a);
    CalledNext(a, called);
    assert Do(called, Cancel(a)) == cancelled;
    RemovedLast(a, cancelled, removed);
    assert Enabled(Armed(a), Pause(a)) && Enabled(Armed(a).(active := {}), Unpause(a)) && Enabled(called, Cancel(a));
    hide Do, Enabled, Armed, Expired;
    assert Possible(removed, []) && Run(removed, []) == removed;
    Follows(cancelled, Remove(a, true), removed, [], removed);
    Follows(called, Cancel(a), cancelled, [Remove(a, true)] + [], removed);
    Follows(Expired(a), Handle(Token(Action(a), 0)), called, [Cancel(a)] + ([Remove(a, true)] + []), removed);
    var rest := [Handle(Token(Action(a), 0))] + ([Cancel(a)] + ([Remove(a, true)] + []));
    Follows(Armed(a), Expire, Expired(a), rest, removed);
    Follows(Armed(a).(active := {}), Unpause(a), Armed(a), [Expire] + rest, removed);
    Follows(Armed(a), Pause(a), Armed(a).(active := {}), [Unpause(a)] + ([Expire] + rest), removed);
    Follows(START, Schedule(a), Armed(a), [Pause(a)] + ([Unpause(a)] + ([Expire] + rest)), removed);
  }

  lemma CalledNext(a: nat, called: State)
    requires called == Expired(a).(ready := map[Token(Slot, 0) := true], done := map[Token(Action(a), 0) := Called], calls := [Token(Action(a), 0)])
    ensures var t := Token(Action(a), 0); Enabled(Expired(a), Handle(t)) && Do(Expired(a), Handle(t)) == called
  {
    assert Expired(a).ready - {Token(Action(a), 0)} == map[Token(Slot, 0) := true];
    assert [] + [Token(Action(a), 0)] == [Token(Action(a), 0)];
  }

  lemma RemovedLast(a: nat, s: State, s': State)
    requires s.actions == [a] && s.pending == {} && s.removals == multiset{a} && s' == s.(actions := [], removals := multiset{})
    ensures Enabled(s, Remove(a, true)) && Do(s, Remove(a, true)) == s'
  {
    assert Without([a], a) == [] by { assert [a][1..] == []; }
    assert Abort(s) == s;
  }

  // ----- After removal -----

  lemma ArmLeavesOut(s: State, a: nat)
    requires a !in s.actions && forall t :: t in s.pending ==> t !in s.ready
    ensures Chances(Arm(s), a) <= Chances(s, a) && Chances(Abort(s), a) <= Chances(s, a)
  {}

  lemma RemovedStaysOut(s: State, step: Step, a: nat)
    requires Enabled(s, step) && a in s.known && a !in s.actions && forall t :: t in s.pending ==> t !in s.ready
    ensures a in Do(s, step).known && a !in Do(s, step).actions
  {
    hide Waits;
  }

  lemma RemovedChances(s: State, step: Step, a: nat)
    requires Enabled(s, step) && a in s.known && a !in s.actions && forall t :: t in s.pending ==> t !in s.ready
    ensures Chances(Do(s, step), a) <= Chances(s, a)
  {
    match step
    case Schedule(b) => ArmLeavesOut(s.(actions := [b] + s.actions, known := s.known + {b}, active := s.active + {b}), a); hide Arm;
    case Handle(t) => ArmLeavesOut(s.(ready := s.ready - {t}, done := s.done[t := Rearmed]), a); hide Arm;
    case Remove(b, alive) => ArmLeavesOut(s.(removals := s.removals - multiset{b}, actions := Without(s.actions, b)), a); hide Abort, Without;
    case _ =>
  }

  lemma RemovedChanceUsed(s: State, t: Token, a: nat)
    requires Enabled(s, Handle(t)) && t.kind == Action(a) && s.ready[t] && t !in s.pending
    ensures t in Chances(s, a) && t !in Chances(Do(s, Handle(t)), a)
  {}

  /** Once its removal has run, an action gets no new waits: unpausing it can bring back no more calls
      than it has handlers left, ever. */
  lemma {:induction false} RemovedCallsRunOut(s: State, steps: seq<Step>, a: nat)
    requires Inv(s) && Possible(s, steps) && a in s.known && a !in s.actions
    ensures CallsOf(Run(s, steps).calls, a) <= CallsOf(s.calls, a) + |Chances(s, a)|
    decreases steps
  {
    hide Do, CallsOf, Chances;
    if steps != [] {
      var s' := Do(s, steps[0]);
      StepKeepsInv(s, steps[0]);
      RemovedStaysOut(s, steps[0], a);
      RemovedChances(s, steps[0], a);
      RemovedCallsRunOut(s', steps[1..], a);
      CallsAfter(s, steps[0], a);
      CardMonotone(Chances(s', a), Chances(s, a));
      if steps[0].Handle? && steps[0].t.kind == Action(a) && s.ready[steps[0].t] {
        RemovedChanceUsed(s, steps[0].t, a);
        CardMonotone(Chances(s', a) + {steps[0].t}, Chances(s, a));
      }
    }
  }

  // ----- Between two armings -----

  /** The waits of an action that may still lead to a call without a new arming: the pending one and,
      from earlier armings, late handlers that are ready and successful. */
  function Chances(s: State, a: nat): set<Token> {
    (set t | t in s.pending && t.kind == Action(a)) + (set t | t in s.ready && s.ready[t] && t.kind == Action(a))
  }

  lemma ChancesAfter(s: State, step: Step, a: nat)
    requires Enabled(s, step) && Do(s, step).arms == s.arms
    ensures Chances(Do(s, step), a) <= Chances(s, a)
    ensures step.Handle? && step.t.kind == Action(a) && s.ready[step.t] && step.t !in s.pending ==>
      step.t in Chances(s, a) && step.t !in Chances(Do(s, step), a)
  {
    hide Waits, Without;
  }

  lemma ArmsGrow(s: State, step: Step)
    requires Enabled(s, step)
    ensures s.arms <= Do(s, step).arms
  {
    hide Waits, Without;
  }

  lemma {:induction false} ArmsGrowAll(s: State, steps: seq<Step>)
    requires Possible(s, steps)
    ensures s.arms <= Run(s, steps).arms
    decreases steps
  {
    hide Do, Enabled;
    if steps != [] { ArmsGrow(s, steps[0]); ArmsGrowAll(Do(s, steps[0]), steps[1..]); }
  }

  /** Until the next arming an action is called at most as often as it has chances now: once for the
      pending wait and once for every late handler. */
  lemma {:induction false} CallsBetweenArms(s: State, steps: seq<Step>, a: nat)
    requires Inv(s) && Possible(s, steps) && Run(s, steps).arms == s.arms
    ensures CallsOf(Run(s, steps).calls, a) <= CallsOf(s.calls, a) + |Chances(s, a)|
    decreases steps
  {
    hide Do, CallsOf, Chances;
    if steps != [] {
      var s' := Do(s, steps[0]);
      ArmsGrow(s, steps[0]);
      ArmsGrowAll(s', steps[1..]);
      StepKeepsInv(s, steps[0]);
      CallsBetweenArms(s', steps[1..], a);
      CallsAfter(s, steps[0], a);
      ChancesAfter(s, steps[0], a);
      CardMonotone(Chances(s', a), Chances(s, a));
      if steps[0].Handle? && steps[0].t.kind == Action(a) && s.ready[steps[0].t] && a in s.active {
        ReadyNotPending(s, steps[0].t);
        CardMonotone(Chances(s', a) + {steps[0].t}, Chances(s, a));
      }
    }
  }

  lemma ReadyNotPending(s: State, t: Token)
    requires Inv(s) && t in s.ready
    ensures t !in s.pending
  {}

  lemma CardMonotone(a: set<Token>, b: set<Token>)
    requires a <= b
    ensures |a| <= |b|
  {
    assert b == a + (b - a);
  }

  lemma HandleOneChance(s: State, a: nat, t: Token)
    requires a in s.active && s.pending == {} && t in Chances(s, a)
    ensures Enabled(s, Handle(t))
    ensures var s' := Do(s, Handle(t));
      s'.arms == s.arms && a in s'.active && s'.pending == {} && Chances(s', a) == Chances(s, a) - {t}
    ensures s.ready[t] && t.kind == Action(a)
  {}

  lemma Drain(s: State, a: nat) returns (steps: seq<Step>)
    requires a in s.active && s.pending == {}
    ensures Possible(s, steps) && Run(s, steps).arms == s.arms
    ensures CallsOf(Run(s, steps).calls, a) == CallsOf(s.calls, a) + |Chances(s, a)|
    decreases |Chances(s, a)|
  {
    hide Do, CallsOf, Enabled, Chances;
    if Chances(s, a) == {} {
      steps := [];
    } else {
      var t :| t in Chances(s, a);
      HandleOneChance(s, a, t);
      CallsAfter(s, Handle(t), a);
      var rest := Drain(Do(s, Handle(t)), a);
      steps := [Handle(t)] + rest;
      assert steps[1..] == rest;
    }
  }

  lemma ExpireKeepsChances(s: State, a: nat)
    requires s.pending != {} && forall t :: t in s.pending ==> t !in s.ready
    ensures var s' := Do(s, Expire);
      Chances(s', a) == Chances(s, a) && s'.pending == {} && s'.arms == s.arms && s'.active == s.active && s'.calls == s.calls
  {}

  lemma DrainActive(s: State, a: nat) returns (steps: seq<Step>)
    requires Inv(s) && a in s.active
    ensures Possible(s, steps) && Run(s, steps).arms == s.arms
    ensures CallsOf(Run(s, steps).calls, a) == CallsOf(s.calls, a) + |Chances(s, a)|
  {
    hide Do, CallsOf, Chances;
    if s.pending == {} {
      steps := Drain(s, a);
    } else {
      ExpireKeepsChances(s, a);
      var rest := Drain(Do(s, Expire), a);
      steps := [Expire] + rest;
      assert steps[1..] == rest;
    }
  }

  lemma UnpauseKeepsChances(s: State, a: nat)
    requires Inv(s) && a in s.known
    ensures var s' := Do(s, Unpause(a));
      Chances(s', a) == Chances(s, a) && s'.arms == s.arms && s'.calls == s.calls && a in s'.active
  {}

  /** ... and that bound is reached, by an active action and, once it is unpaused, by a paused one. */
  lemma BoundIsReached(s: State, a: nat) returns (steps: seq<Step>)
    requires Inv(s) && a in s.known
    ensures Possible(s, steps) && Run(s, steps).arms == s.arms
    ensures CallsOf(Run(s, steps).calls, a) == CallsOf(s.calls, a) + |Chances(s, a)|
  {
    hide Do, CallsOf, Chances;
    UnpauseKeepsChances(s, a);
    StepKeepsInv(s, Unpause(a));
    var rest := DrainActive(Do(s, Unpause(a)), a);
    steps := [Unpause(a)] + rest;
    assert steps[1..] == rest;
  }

  /** In no continuation up to the next arming is the action called more than once. */
  ghost predicate AtMostOneCall(s: State, a: nat) {
    forall steps :: Possible(s, steps) && Run(s, steps).arms == s.arms ==>
      CallsOf(Run(s, steps).calls, a) <= CallsOf(s.calls, a) + 1
  }

  /** An action is called at most once before the next arming, whatever runs, if and only if it has at most
      one chance: a late handler left over from an earlier arming makes a second call possible. */
  lemma AtMostOneCallIff(s: State, a: nat)
    requires Inv(s) && a in s.known
    ensures AtMostOneCall(s, a) <==> |Chances(s, a)| <= 1
  {
    hide Inv, Chances, CallsOf, Run, Possible;
    if |Chances(s, a)| <= 1 {
      forall steps | Possible(s, steps) && Run(s, steps).arms == s.arms
        ensures CallsOf(Run(s, steps).calls, a) <= CallsOf(s.calls, a) + 1
      {
        CallsBetweenArms(s, steps, a);
      }
    } else {
      var steps := BoundIsReached(s, a);
    }
  }

  /** The waits of one action on its own in a slot. */
  function Pair(a: nat, arm: nat): set<Token> { {Token(Action(a), arm), Token(Slot, arm)} }

  function Armed(a: nat): State {
    State([a], {a}, {a}, Pair(a, 0), map[], multiset{}, 1, [{a}], map[], [])
  }

  lemma ArmedFirst(a: nat)
    ensures Enabled(START, Schedule(a)) && Do(START, Schedule(a)) == Armed(a)
  {
    var pushed := START.(actions := [a], known := {a}, active := {a});
    assert [a] + [] == [a] && {} + {a} == {a};
    assert ToArm(pushed) == {a};
    assert Waits(pushed) == Pair(a, 0);
    assert [] + [{a}] == [{a}];
  }

  function Expired(a: nat): State {
    Armed(a).(pending := {}, ready := map[Token(Action(a), 0) := true, Token(Slot, 0) := true])
  }

  lemma ExpiredFirst(a: nat)
    ensures Enabled(Armed(a), Expire) && Do(Armed(a), Expire) == Expired(a)
  {
    assert Token(Slot, 0) in Armed(a).pending;
  }

  function Overtaken(a: nat): State {
    State([a], {a}, {a}, Pair(a, 1), map[Token(Action(a), 0) := true], multiset{}, 2, [{a}, {a}], map[Token(Slot, 0) := Rearmed], [])
  }

  lemma OvertakenNext(a: nat)
    ensures Enabled(Expired(a), Handle(Token(Slot, 0))) && Do(Expired(a), Handle(Token(Slot, 0))) == Overtaken(a)
  {
    var run := Expired(a).(ready := Expired(a).ready - {Token(Slot, 0)}, done := map[Token(Slot, 0) := Rearmed]);
    assert run.ready == map[Token(Action(a), 0) := true];
    assert ToArm(run) == {a};
    assert Waits(run) == Pair(a, 1);
    assert [{a}] + [{a}] == [{a}, {a}];
    assert Abort(run).ready == run.ready;
  }

  /** A reachable state in which two calls before the next arming are possible: the first handler of an
      action is overtaken by the slot's, which arms again. */
  lemma LateHandlerCallsTwice(a: nat) returns (steps: seq<Step>)
    ensures Possible(START, steps) && a in Run(START, steps).known && !AtMostOneCall(Run(START, steps), a)
  {
    hide Do, Enabled, Armed, Expired, AtMostOneCall, Chances;
    ArmedFirst(a);
    ExpiredFirst(a);
    OvertakenNext(a);
    var last := [Handle(Token(Slot, 0))];
    assert last[1..] == [] && Possible(Overtaken(a), []) && Run(Overtaken(a), []) == Overtaken(a);
    assert Possible(Expired(a), last) && Run(Expired(a), last) == Overtaken(a);
    assert ([Expire] + last)[1..] == last;
    assert Possible(Armed(a), [Expire] + last) && Run(Armed(a), [Expire] + last) == Overtaken(a);
    steps := [Schedule(a)] + ([Expire] + last);
    assert steps[1..] == [Expire] + last;
    StartInv();
    RunKeepsInv(START, steps);
    TwoChances(a);
    AtMostOneCallIff(Overtaken(a), a);
  }

  lemma TwoChances(a: nat)
    ensures |Chances(Overtaken(a), a)| == 2
  {
    assert Chances(Overtaken(a), a) == {Token(Action(a), 0), Token(Action(a), 1)};
  }
}
