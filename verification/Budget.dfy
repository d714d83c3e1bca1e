/**
  The pausable time budget of a download (rust_backend/crates/extensions/src/resolution.rs).

  Times are nanoseconds of a clock that never goes back; it is read under the budget's lock. The budget only
  keeps two counts and settles lazily. The ledger beside it remembers when each guard lived, and says tick
  by tick when the budget should have run.
*/
module Budget {
  import opened Options

  datatype State = State(remaining: nat, started: int, pauses: int, charges: int)

  /** `State::remaining`; both subtractions saturate. */
  function Remaining(s: State, now: int): nat {
    if s.pauses == 0 || s.charges > 0 then Less(s.remaining, Less(now - s.started, 0)) else s.remaining
  }

  function Less(a: int, b: nat): nat { if a >= b then a - b else 0 }

  function Settled(s: State, now: int): State { s.(remaining := Remaining(s, now), started := now) }

  function Counted(s: State, charge: bool, step: int): State {
    if charge then s.(charges := s.charges + step) else s.(pauses := s.pauses + step)
  }

  // ----- the ledger ------------------------------------------------------------------------------

  /** A guard lives from `from` until it is dropped. */
  datatype Guard = Guard(charge: bool, from: int, until: Option<int>)

  predicate Lives(g: Guard, t: int) { g.from <= t && (g.until.None? || t < g.until.value) }

  /** The budget runs in the tick after `t` if nothing pauses it or something charges it. */
  ghost predicate Runs(guards: map<nat, Guard>, t: int) {
    || (forall id | id in guards :: !guards[id].charge ==> !Lives(guards[id], t))
    || (exists id :: id in guards && guards[id].charge && Lives(guards[id], t))
  }

  ghost function Spent(guards: map<nat, Guard>, from: int, end: int): nat
    decreases end - from
  {
    if end <= from then 0 else Spent(guards, from, end - 1) + if Runs(guards, end - 1) then 1 else 0
  }

  function Open(guards: map<nat, Guard>, charge: bool): set<nat> {
    set id | id in guards && guards[id].charge == charge && guards[id].until.None?
  }

  /** A budget of `allowance` made at `began`, with every guard there has been. */
  datatype System = System(allowance: nat, began: int, state: State, guards: map<nat, Guard>)

  function Made(allowance: nat, began: int): System { System(allowance, began, State(allowance, began, 0, 0), map[]) }

  // ----- steps -----------------------------------------------------------------------------------

  datatype Event =
    | Enter(id: nat, charge: bool, now: int)
    | Drop(id: nat, now: int)

  predicate Enabled(s: System, e: Event) {
    && s.state.started <= e.now
    && match e
       case Enter(id, _, _) => id !in s.guards
       case Drop(id, _) => id in s.guards && s.guards[id].until.None?
  }

  function Next(s: System, e: Event): System
    requires Enabled(s, e)
  {
    match e
    case Enter(id, charge, now) =>
      s.(state := Counted(Settled(s.state, now), charge, 1), guards := s.guards[id := Guard(charge, now, None)])
    case Drop(id, now) =>
      s.(state := Counted(Settled(s.state, now), s.guards[id].charge, -1),
         guards := s.guards[id := s.guards[id].(until := Some(now))])
  }

  ghost predicate Run(s: System, events: seq<Event>, s': System)
    decreases |events|
  {
    if events == [] then s == s' else Enabled(s, events[0]) && Run(Next(s, events[0]), events[1..], s')
  }

  // ----- the invariant ---------------------------------------------------------------------------

  /** The counts are the numbers of live guards. */
  ghost predicate CountsLive(s: System) {
    s.state.pauses == |Open(s.guards, false)| && s.state.charges == |Open(s.guards, true)|
  }

  /** Nothing in the ledger lies ahead of the last settling. */
  ghost predicate InThePast(s: System) {
    && s.began <= s.state.started
    && forall id | id in s.guards ::
         && s.guards[id].from <= s.state.started
         && (s.guards[id].until.Some? ==> s.guards[id].until.value <= s.state.started)
  }

  ghost predicate Accurate(s: System) {
    s.state.remaining == Less(s.allowance, Spent(s.guards, s.began, s.state.started))
  }

  ghost predicate Inv(s: System) { CountsLive(s) && InThePast(s) && Accurate(s) }

  /** From the last settling on the budget runs all the time or not at all, as the counts say. */
  lemma {:induction false} RunsByCounts(s: System, t: int)
    requires CountsLive(s) && InThePast(s) && s.state.started <= t
    ensures Runs(s.guards, t) <==> s.state.pauses == 0 || s.state.charges > 0
  {
    assert forall id | id in s.guards :: Lives(s.guards[id], t) <==> s.guards[id].until.None?;
    if s.state.pauses > 0 {
      var id :| id in Open(s.guards, false);
    } else {
      assert Open(s.guards, false) == {};
      assert forall id | id in s.guards && !s.guards[id].charge :: id !in Open(s.guards, false);
    }
    if s.state.charges > 0 {
      var id :| id in Open(s.guards, true);
    } else {
      assert Open(s.guards, true) == {};
      assert forall id | id in s.guards && s.guards[id].charge :: id !in Open(s.guards, true);
    }
  }

  lemma {:induction false} SpentSince(s: System, now: int)
    requires CountsLive(s) && InThePast(s) && s.state.started <= now
    ensures Spent(s.guards, s.began, now) ==
              Spent(s.guards, s.began, s.state.started) +
              if s.state.pauses == 0 || s.state.charges > 0 then now - s.state.started else 0
    decreases now - s.state.started
  {
    if now > s.state.started {
      SpentSince(s, now - 1);
      RunsByCounts(s, now - 1);
      hide Runs, CountsLive, InThePast;
    }
  }

  lemma {:induction false} RemainingIsAccurate(s: System, now: int)
    requires Inv(s) && s.state.started <= now
    ensures Remaining(s.state, now) == Less(s.allowance, Spent(s.guards, s.began, now))
  {
    SpentSince(s, now);
    hide Spent, CountsLive, InThePast;
  }

  /** What is already spent does not depend on guards entered or dropped later. */
  lemma {:induction false} SpentIsSettled(guards: map<nat, Guard>, id: nat, g: Guard, from: int, end: int)
    requires forall t | t < end ::
               Lives(g, t) <==> id in guards && guards[id].charge == g.charge && Lives(guards[id], t)
    requires id in guards ==> guards[id].charge == g.charge
    ensures Spent(guards[id := g], from, end) == Spent(guards, from, end)
    decreases end - from
  {
    if end > from {
      SpentIsSettled(guards, id, g, from, end - 1);
      var after, t := guards[id := g], end - 1;
      assert forall k | k in guards && k != id :: k in after && after[k] == guards[k];
      assert Runs(after, t) <==> Runs(guards, t) by {
        SameRuns(guards, after, id, t);
      }
    }
  }

  lemma {:induction false} SameRuns(guards: map<nat, Guard>, after: map<nat, Guard>, id: nat, t: int)
    requires id in after && after == guards[id := after[id]]
    requires Lives(after[id], t) <==> id in guards && Lives(guards[id], t)
    requires id in guards ==> guards[id].charge == after[id].charge
    ensures Runs(after, t) <==> Runs(guards, t)
  {
    hide Lives;
    forall i | i in after
      ensures i in guards ==> after[i].charge == guards[i].charge && (Lives(after[i], t) <==> Lives(guards[i], t))
      ensures i !in guards ==> !Lives(after[i], t)
    {}
    assert forall i | i in guards :: i in after;
  }

  lemma {:induction false} StepCounts(s: System, e: Event)
    requires CountsLive(s) && Enabled(s, e)
    ensures CountsLive(Next(s, e))
  {
    hide Remaining, Open;
    var s' := Next(s, e);
    OpenAfter(s, e);
    match e
    case Enter(id, charge, now) =>
    case Drop(id, now) =>
  }

  lemma {:induction false} OpenAfter(s: System, e: Event)
    requires Enabled(s, e)
    ensures e.Enter? ==> e.id !in Open(s.guards, e.charge)
    ensures e.Enter? ==> Open(Next(s, e).guards, e.charge) == Open(s.guards, e.charge) + {e.id}
    ensures e.Enter? ==> Open(Next(s, e).guards, !e.charge) == Open(s.guards, !e.charge)
    ensures e.Drop? ==> e.id in Open(s.guards, s.guards[e.id].charge)
    ensures e.Drop? ==>
              Open(Next(s, e).guards, s.guards[e.id].charge) == Open(s.guards, s.guards[e.id].charge) - {e.id}
    ensures e.Drop? ==> Open(Next(s, e).guards, !s.guards[e.id].charge) == Open(s.guards, !s.guards[e.id].charge)
  {
    hide Remaining;
  }

  lemma {:induction false} StepAccurate(s: System, e: Event)
    requires Inv(s) && Enabled(s, e)
    ensures InThePast(Next(s, e)) && Accurate(Next(s, e))
    ensures Next(s, e).state.remaining == Remaining(s.state, e.now)
  {
    RemainingIsAccurate(s, e.now);
    hide Spent, Remaining, CountsLive;
    var s' := Next(s, e);
    SpentIsSettled(s.guards, e.id, s'.guards[e.id], s.began, e.now);
  }

  lemma {:induction false} StepKeepsInv(s: System, e: Event)
    requires Inv(s) && Enabled(s, e)
    ensures Inv(Next(s, e))
    ensures Next(s, e).allowance == s.allowance && Next(s, e).began == s.began
  {
    StepCounts(s, e);
    StepAccurate(s, e);
  }

  // ----- over whole runs -------------------------------------------------------------------------

  lemma {:induction false} RunKeepsInv(s: System, events: seq<Event>, s': System)
    requires Inv(s) && Run(s, events, s')
    ensures Inv(s') && s'.allowance == s.allowance && s'.began == s.began && s.state.started <= s'.state.started
    decreases |events|
  {
    if events != [] {
      StepKeepsInv(s, events[0]);
      var next := Next(s, events[0]);
      assert s.state.started <= next.state.started;
      hide Inv, Next, Enabled;
      RunKeepsInv(next, events[1..], s');
    }
  }

  /** After any run of nested and overlapping guards, the lazily settled budget is the allowance minus, down
      to zero, the time in which nothing paused it or something charged it. */
  lemma {:induction false} BudgetIsExact(allowance: nat, began: int, events: seq<Event>, s: System, now: int)
    requires Run(Made(allowance, began), events, s) && s.state.started <= now
    ensures Remaining(s.state, now) == Less(allowance, Spent(s.guards, began, now))
  {
    assert Open(map[], false) == {} && Open(map[], true) == {};
    assert Inv(Made(allowance, began));
    RunKeepsInv(Made(allowance, began), events, s);
    RemainingIsAccurate(s, now);
  }

  /** The counts never go below zero: every drop finds its own guard counted. */
  lemma {:induction false} CountsNeverUnderflow(allowance: nat, began: int, events: seq<Event>, s: System, id: nat)
    requires Run(Made(allowance, began), events, s)
    requires id in s.guards && s.guards[id].until.None?
    ensures if s.guards[id].charge then s.state.charges > 0 && s.state.pauses >= 0
            else s.state.pauses > 0 && s.state.charges >= 0
  {
    assert Open(map[], false) == {} && Open(map[], true) == {};
    assert Inv(Made(allowance, began));
    RunKeepsInv(Made(allowance, began), events, s);
    assert id in Open(s.guards, s.guards[id].charge);
  }

  /** No guard, of either kind, ever gives time back. */
  lemma {:induction false} NeverIncreases(s: System, now: int, events: seq<Event>, s': System, now': int)
    requires Inv(s) && s.state.started <= now
    requires Run(s, events, s') && now <= now' && s'.state.started <= now'
    requires events != [] ==> now <= events[0].now
    ensures Remaining(s'.state, now') <= Remaining(s.state, now)
    decreases |events|
  {
    if events != [] {
      StepKeepsInv(s, events[0]);
      StepAccurate(s, events[0]);
      var e, next := events[0], Next(s, events[0]);
      assert next.state.started == e.now;
      assert Remaining(next.state, e.now) == Remaining(s.state, e.now) <= Remaining(s.state, now);
      RunKeepsInv(next, events[1..], s');
      hide Inv, Next, Remaining;
      NeverIncreases(next, e.now, events[1..], s', now');
    }
  }

  // ----- the program -----------------------------------------------------------------------------

  /** The shared budget; the ledger is ghost. */
  class ResolutionBudget {
    var remaining: nat
    var started: int
    var pauses: int
    var charges: int
    ghost const allowance: nat
    ghost const began: int
    ghost var guards: map<nat, Guard>

    ghost function Model(): System
      reads this
    {
      System(allowance, began, State(remaining, started, pauses, charges), guards)
    }

    ghost predicate Valid()
      reads this
    {
      Inv(Model())
    }

    constructor (allowance: nat, now: int)
      ensures Valid() && Model() == Made(allowance, now)
    {
      remaining, started, pauses, charges := allowance, now, 0, 0;
      this.allowance, began, guards := allowance, now, map[];
      new;
      assert Open(map[], false) == {} && Open(map[], true) == {};
    }

    method Settle(now: int)
      modifies this`remaining, this`started
      ensures remaining == Remaining(old(Model()).state, now) && started == now
    {
      if pauses == 0 || charges > 0 {
        var elapsed := if now >= started then now - started else 0;
        remaining := if remaining >= elapsed then remaining - elapsed else 0;
      }
      started := now;
    }

    /** What is left, read without settling. */
    method Left(now: int) returns (left: nat)
      requires Valid() && started <= now
      ensures left == Less(allowance, Spent(guards, began, now))
    {
      RemainingIsAccurate(Model(), now);
      hide Spent, Inv;
      left := Remaining(State(remaining, started, pauses, charges), now);
    }

    method Enter(charge: bool, now: int) returns (guard: BudgetGuard)
      requires Valid() && started <= now
      modifies this
      ensures fresh(guard) && guard.budget == this && guard.charge == charge && guard.id !in old(guards)
      ensures Valid() && Model() == Next(old(Model()), Event.Enter(guard.id, charge, now))
    {
      ghost var id := NewId(guards);
      StepKeepsInv(Model(), Event.Enter(id, charge, now));
      hide Inv, Remaining;
      Settle(now);
      if charge {
        charges := charges + 1;
      } else {
        pauses := pauses + 1;
      }
      guards := guards[id := Guard(charge, now, None)];
      guard := new BudgetGuard(this, charge, id);
    }
  }

  ghost function NewId(guards: map<nat, Guard>): (id: nat)
    ensures id !in guards
  {
    Unused(guards.Keys);
    var id: nat :| id !in guards;
    id
  }

  lemma {:induction false} Unused(ids: set<nat>)
    ensures exists id: nat :: id !in ids
  {
    var bound := Above(ids);
    assert bound !in ids;
  }

  lemma {:induction false} Above(ids: set<nat>) returns (bound: nat)
    ensures forall id | id in ids :: id < bound
    decreases ids
  {
    if ids == {} {
      bound := 0;
    } else {
      var id :| id in ids;
      var rest := Above(ids - {id});
      assert forall i | i in ids :: i == id || i in ids - {id};
      bound := if id < rest then rest else id + 1;
    }
  }

  class BudgetGuard {
    const budget: ResolutionBudget
    const charge: bool
    ghost const id: nat

    constructor (budget: ResolutionBudget, charge: bool, ghost id: nat)
      ensures this.budget == budget && this.charge == charge && this.id == id
    {
      this.budget, this.charge, this.id := budget, charge, id;
    }

    /** The guard is dropped. */
    method Drop(now: int)
      requires budget.Valid() && budget.started <= now
      requires id in budget.guards && budget.guards[id].charge == charge && budget.guards[id].until.None?
      modifies budget
      ensures budget.Valid() && budget.Model() == Next(old(budget.Model()), Event.Drop(id, now))
    {
      StepKeepsInv(budget.Model(), Event.Drop(id, now));
      hide Inv, Remaining;
      budget.Settle(now);
      if charge {
        budget.charges := budget.charges - 1;
      } else {
        budget.pauses := budget.pauses - 1;
      }
      budget.guards := budget.guards[id := budget.guards[id].(until := Some(now))];
    }
  }
}
