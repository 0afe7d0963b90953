/** Slots and the scheduler as the objects the program updates in place (src/util/PeriodicScheduleSlot.cc,
    src/util/Scheduler.cc). Each method is one step of `Slots`. */
module Scheduling {
  import opened Slots

  class PeriodicScheduleSlot {
    var actions: seq<nat>
    var active: set<nat>
    var pending: set<Token>
    var ready: map<Token, bool>
    var removals: multiset<nat>
    var arms: nat
    ghost var known: set<nat>
    ghost var armed: seq<set<nat>>
    ghost var done: map<Token, Outcome>
    ghost var calls: seq<Token>

    ghost function Val(): State reads this {
      State(actions, known, active, pending, ready, removals, arms, armed, done, calls)
    }

    constructor ()
      ensures Val() == START
    {
      actions, active, pending, ready, removals, arms := [], {}, {}, map[], multiset{}, 0;
      known, armed, done, calls := {}, [], map[], [];
    }

    method CancelTimer()
      modifies this
      ensures Val() == Abort(old(Val()))
    {
      ready := ready + map t | t in pending :: false;
      pending := {};
    }

    /** One wait for each active action, then the slot's own. */
    method ResetTimer()
      modifies this
      ensures Val() == Arm(old(Val()))
    {
      ghost var before := Val();
      CancelTimer();
      var i := 0;
      while i < |actions|
        invariant i <= |actions|
        invariant Val() == Abort(before).(pending := set a | a in actions[..i] && a in active :: Token(Action(a), arms))
      {
        if actions[i] in active { pending := pending + {Token(Action(actions[i]), arms)}; }
        assert actions[..i + 1] == actions[..i] + [actions[i]];
        i := i + 1;
      }
      assert actions[..i] == actions;
      pending := pending + {Token(Slot, arms)};
      assert pending == Waits(before);
      armed := armed + [ToArm(before)];
      arms := arms + 1;
    }

    method Emplace(a: nat)
      requires Enabled(Val(), Schedule(a))
      modifies this
      ensures Val() == Do(old(Val()), Schedule(a))
    {
      var wasEmpty := actions == [];
      actions := [a] + actions;
      known := known + {a};
      active := active + {a};
      if wasEmpty { ResetTimer(); }
    }

    method Pause(a: nat)
      requires Enabled(Val(), Step.Pause(a))
      modifies this
      ensures Val() == Do(old(Val()), Step.Pause(a))
    {
      active := active - {a};
    }

    method Unpause(a: nat)
      requires Enabled(Val(), Step.Unpause(a))
      modifies this
      ensures Val() == Do(old(Val()), Step.Unpause(a))
    {
      active := active + {a};
    }

    method Cancel(a: nat)
      requires Enabled(Val(), Step.Cancel(a))
      modifies this
      ensures Val() == Do(old(Val()), Step.Cancel(a))
    {
      active := active - {a};
      removals := removals + multiset{a};
    }

    /** A posted removal: nothing once the action is gone; otherwise out of the list, and the timer is
        cancelled when the list is empty. */
    method RunRemoval(a: nat, alive: bool)
      requires Enabled(Val(), Remove(a, alive))
      modifies this
      ensures Val() == Do(old(Val()), Remove(a, alive))
    {
      removals := removals - multiset{a};
      if alive {
        actions := Without(actions, a);
        if actions == [] { CancelTimer(); }
      }
    }

    method Expire()
      requires Enabled(Val(), Step.Expire)
      modifies this
      ensures Val() == Do(old(Val()), Step.Expire)
    {
      ready := ready + map t | t in pending :: true;
      pending := {};
    }

    /** A ready handler: the slot's arms the timer again, an action's calls its function. */
    method RunHandler(t: Token) returns (called: bool)
      requires Enabled(Val(), Handle(t))
      modifies this
      ensures Val() == Do(old(Val()), Handle(t))
      ensures called <==> calls == old(calls) + [t]
    {
      var ok := ready[t];
      ready := ready - {t};
      called := false;
      if !ok {
        done := done[t := Cancelled];
      } else if t.kind == Slot {
        done := done[t := Rearmed];
        ResetTimer();
      } else if t.kind.a in active {
        done := done[t := Called];
        calls := calls + [t];
        called := true;
      } else {
        done := done[t := Inactive];
      }
    }
  }

  class Scheduler {
    var slots: map<nat, PeriodicScheduleSlot>

    /** No two intervals share a slot, and every slot keeps the invariant. */
    ghost predicate Valid() reads this, slots.Values {
      && (forall i, j :: i in slots && j in slots && slots[i] == slots[j] ==> i == j)
      && forall i :: i in slots ==> Inv(slots[i].Val())
    }

    constructor ()
      ensures Valid() && slots == map[]
    {
      slots := map[];
    }

    /** The action joins the slot of its interval, made for it when there is none; the others stay. */
    method Schedule(interval: nat, a: nat)
      requires Valid() && (interval in slots ==> a !in slots[interval].known)
      modifies this, slots.Values
      ensures Valid() && slots.Keys == old(slots.Keys) + {interval}
      ensures forall i :: i in old(slots) ==> slots[i] == old(slots[i])
      ensures slots[interval].Val()
        == Do(if interval in old(slots) then old(slots[interval].Val()) else START, Slots.Schedule(a))
      ensures forall i :: i in old(slots) && i != interval ==> slots[i].Val() == old(slots[i].Val())
      ensures slots[interval].actions != []
    {
      hide Inv, Do, Enabled;
      StartInv();
      var slot: PeriodicScheduleSlot;
      if interval in slots {
        slot := slots[interval];
      } else {
        slot := new PeriodicScheduleSlot();
        slots := slots[interval := slot];
      }
      Listed(slot.Val(), a);
      slot.Emplace(a);
    }
  }

  lemma Listed(s: State, a: nat)
    requires Inv(s) && a !in s.known
    ensures Enabled(s, Schedule(a)) && Do(s, Schedule(a)).actions != [] && Inv(Do(s, Schedule(a)))
  {
    hide Inv;
    StepKeepsInv(s, Schedule(a));
  }
}
