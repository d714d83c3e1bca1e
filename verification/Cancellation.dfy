/**
  Request cancellation (rust_backend/crates/core/src/cancellation.rs).

  `Registry` is what the state lock guards, with the shared atomic flags in `flags` and every lease ever
  handed out in `leases`; the functions on it are the critical sections. `State` adds the threads: those
  asleep in `wait_cancelled`, those awake again but not yet back under the lock, and those that have
  changed something and still owe the notification, which the original sends after unlocking.
  `CancellationRegistry` at the end runs the critical sections in place.
*/
module Cancellation {

  type Id = string
  type Thread = nat

  /** `cancelled` is an index into `Registry.flags`: the identity of a shared atomic flag. */
  datatype Entry = Entry(cancelled: nat, references: int)
  datatype Lease = Lease(id: Id, cancelled: nat, released: bool)

  datatype Registry = Registry(closed: bool, entries: map<Id, Entry>, flags: seq<bool>, leases: seq<Lease>)

  const EMPTY := Registry(false, map[], [], [])

  // ----- critical sections ---------------------------------------------------------------------

  /** `entries.entry(id).or_default()`. */
  function OrDefault(r: Registry, id: Id): Registry {
    if id in r.entries then r
    else r.(entries := r.entries[id := Entry(|r.flags|, 0)], flags := r.flags + [false])
  }

  function Acquired(r: Registry, id: Id): Registry {
    if r.closed then r
    else if id == "" then r.(flags := r.flags + [false], leases := r.leases + [Lease("", |r.flags|, false)])
    else
      var d := OrDefault(r, id);
      var e := d.entries[id];
      d.(entries := d.entries[id := e.(references := e.references + 1)],
         leases := d.leases + [Lease(id, e.cancelled, false)])
  }

  predicate InFlags(r: Registry) {
    && (forall id | id in r.entries :: r.entries[id].cancelled < |r.flags|)
    && (forall l | 0 <= l < |r.leases| :: r.leases[l].cancelled < |r.flags|)
  }

  function Cancelled(r: Registry, id: Id): Registry
    requires InFlags(r)
  {
    if r.closed || id == "" then r
    else
      var d := OrDefault(r, id);
      d.(flags := d.flags[d.entries[id].cancelled := true])
  }

  predicate Active(r: Registry, flag: nat) {
    exists id | id in r.entries :: r.entries[id].references > 0 && r.entries[id].cancelled == flag
  }

  function ActiveCancelled(r: Registry): Registry {
    if r.closed then r
    else r.(flags := seq(|r.flags|, f requires 0 <= f < |r.flags| => r.flags[f] || Active(r, f)))
  }

  function ResetIfIdle(r: Registry, id: Id): Registry {
    if !r.closed && id in r.entries && r.entries[id].references == 0
    then r.(entries := r.entries - {id}) else r
  }

  function ShutDown(r: Registry): Registry { r.(closed := true, entries := map[]) }

  function Released(r: Registry, l: nat): Registry
    requires l < |r.leases|
  {
    var lease := r.leases[l];
    if lease.released then r
    else
      var r' := r.(leases := r.leases[l := lease.(released := true)]);
      if lease.id !in r.entries then r'
      else
        var e := r.entries[lease.id];
        if e.references - 1 == 0 then r'.(entries := r'.entries - {lease.id})
        else r'.(entries := r'.entries[lease.id := e.(references := e.references - 1)])
  }

  // ----- counts and shared flags -----------------------------------------------------------------

  function LiveLeases(r: Registry, id: Id): set<nat> {
    set l | 0 <= l < |r.leases| && r.leases[l].id == id && !r.leases[l].released
  }

  /** Two entries never share a flag, and a live lease shares its entry's. */
  ghost predicate FlagsAgree(r: Registry) {
    && InFlags(r)
    && (forall i, j | i in r.entries && j in r.entries && i != j ::
          r.entries[i].cancelled != r.entries[j].cancelled)
    && (forall l | 0 <= l < |r.leases| && !r.closed && !r.leases[l].released && r.leases[l].id != "" ::
          r.leases[l].id in r.entries && r.entries[r.leases[l].id].cancelled == r.leases[l].cancelled)
  }

  /** The count is the number of live leases, and an idle entry is a cancelled sentinel. */
  ghost predicate CountsAgree(r: Registry) {
    && InFlags(r)
    && (r.closed ==> r.entries == map[])
    && "" !in r.entries
    && (forall id | id in r.entries :: r.entries[id].references == |LiveLeases(r, id)|)
    && (forall id | id in r.entries && r.entries[id].references == 0 :: r.flags[r.entries[id].cancelled])
  }

  /** Nothing reaches the flag of an untracked lease. */
  ghost predicate UntrackedApart(r: Registry) {
    && InFlags(r)
    && (forall l | 0 <= l < |r.leases| && r.leases[l].id == "" :: !r.flags[r.leases[l].cancelled])
    && (forall l, id | 0 <= l < |r.leases| && r.leases[l].id == "" && id in r.entries ::
          r.entries[id].cancelled != r.leases[l].cancelled)
  }

  ghost predicate Inv(r: Registry) { FlagsAgree(r) && CountsAgree(r) && UntrackedApart(r) }

  lemma {:induction false} LiveAfterAppend(r: Registry, r': Registry, id: Id)
    requires |r'.leases| == |r.leases| + 1 && r'.leases[..|r.leases|] == r.leases
    ensures LiveLeases(r', id) == LiveLeases(r, id)
              + (if r'.leases[|r.leases|].id == id && !r'.leases[|r.leases|].released then {|r.leases|} else {})
  {
    assert forall l | 0 <= l < |r.leases| :: r'.leases[l] == r'.leases[..|r.leases|][l];
  }

  lemma {:induction false} LiveAfterRelease(r: Registry, l: nat, id: Id)
    requires l < |r.leases| && !r.leases[l].released
    ensures var r' := Released(r, l);
            && LiveLeases(r', id) == LiveLeases(r, id) - {l}
            && (id == r.leases[l].id <==> l in LiveLeases(r, id))
  {}

  lemma {:induction false} NoEntryNoLease(r: Registry, id: Id)
    requires FlagsAgree(r) && !r.closed && id != "" && id !in r.entries
    ensures LiveLeases(r, id) == {}
  {}

  lemma {:induction false} LiveAfterAcquired(r: Registry, id: Id, i: Id)
    requires FlagsAgree(r) && !r.closed
    ensures |LiveLeases(Acquired(r, id), i)| == |LiveLeases(r, i)| + (if i == id then 1 else 0)
  {
    LiveAfterAppend(r, Acquired(r, id), i);
    assert |r.leases| !in LiveLeases(r, i);
  }

  lemma {:induction false} AcquiredCounts(r: Registry, id: Id, i: Id)
    requires FlagsAgree(r) && CountsAgree(r) && !r.closed && i in Acquired(r, id).entries
    ensures Acquired(r, id).entries[i].references == |LiveLeases(Acquired(r, id), i)|
  {
    LiveAfterAcquired(r, id, i);
    if i == id && id !in r.entries {
      NoEntryNoLease(r, id);
    }
    hide FlagsAgree, LiveLeases;
  }

  lemma {:induction false} AcquiredKeepsCounts(r: Registry, id: Id)
    requires FlagsAgree(r) && CountsAgree(r) && !r.closed
    ensures CountsAgree(Acquired(r, id))
  {
    var r' := Acquired(r, id);
    forall i | i in r'.entries ensures r'.entries[i].references == |LiveLeases(r', i)| {
      AcquiredCounts(r, id, i);
    }
    hide FlagsAgree, LiveLeases;
    assert forall f | 0 <= f < |r.flags| :: r'.flags[f] == r.flags[f];
  }

  lemma {:induction false} AcquiredKeepsFlags(r: Registry, id: Id)
    requires FlagsAgree(r) && !r.closed
    ensures FlagsAgree(Acquired(r, id))
  {
    var r' := Acquired(r, id);
    assert forall l | 0 <= l < |r.leases| :: r'.leases[l] == r.leases[l];
  }

  lemma {:induction false} AcquiredKeepsUntracked(r: Registry, id: Id)
    requires UntrackedApart(r) && !r.closed
    ensures UntrackedApart(Acquired(r, id))
  {
    var r' := Acquired(r, id);
    assert forall f | 0 <= f < |r.flags| :: r'.flags[f] == r.flags[f];
    assert forall l | 0 <= l < |r.leases| :: r'.leases[l] == r.leases[l];
  }

  lemma {:induction false} AcquiredKeepsInv(r: Registry, id: Id)
    requires Inv(r)
    ensures Inv(Acquired(r, id))
  {
    if !r.closed {
      AcquiredKeepsCounts(r, id);
      AcquiredKeepsFlags(r, id);
      AcquiredKeepsUntracked(r, id);
      hide Acquired, FlagsAgree, CountsAgree, UntrackedApart;
    }
  }

  lemma {:induction false} CancelledKeepsCounts(r: Registry, id: Id)
    requires FlagsAgree(r) && CountsAgree(r)
    ensures CountsAgree(Cancelled(r, id))
  {
    var r' := Cancelled(r, id);
    assert forall i :: LiveLeases(r', i) == LiveLeases(r, i);
    if !r.closed && id != "" && id !in r.entries {
      NoEntryNoLease(r, id);
    }
    hide LiveLeases;
  }

  lemma {:induction false} CancelledKeepsInv(r: Registry, id: Id)
    requires Inv(r)
    ensures Inv(Cancelled(r, id))
  {
    CancelledKeepsCounts(r, id);
    hide CountsAgree, LiveLeases;
  }

  lemma {:induction false} ActiveCancelledKeepsInv(r: Registry)
    requires Inv(r)
    ensures Inv(ActiveCancelled(r))
  {
    assert forall i :: LiveLeases(ActiveCancelled(r), i) == LiveLeases(r, i);
  }

  lemma {:induction false} RemovalsKeepInv(r: Registry, id: Id)
    requires Inv(r)
    ensures Inv(ResetIfIdle(r, id)) && Inv(ShutDown(r))
  {
    assert forall i :: LiveLeases(ResetIfIdle(r, id), i) == LiveLeases(r, i);
    if !r.closed && id in r.entries && r.entries[id].references == 0 {
      assert LiveLeases(r, id) == {};
      assert forall l | 0 <= l < |r.leases| && !r.leases[l].released :: l in LiveLeases(r, r.leases[l].id);
    }
  }

  lemma {:induction false} SingletonOf(s: set<nat>, x: nat)
    requires x in s
    ensures |s| == 1 <==> s == {x}
    ensures |s - {x}| == |s| - 1
  {
    if |s| == 1 {
      assert |s - {x}| == 0;
    }
  }

  lemma {:induction false} ReleasedKeepsCounts(r: Registry, l: nat)
    requires CountsAgree(r) && l < |r.leases| && !r.leases[l].released
    ensures CountsAgree(Released(r, l))
    ensures var id := r.leases[l].id; id in r.entries ==>
              && r.entries[id].references >= 1
              && (id !in Released(r, l).entries ==> LiveLeases(r, id) == {l})
  {
    var id := r.leases[l].id;
    SingletonOf(LiveLeases(r, id), l);
    forall i ensures LiveLeases(Released(r, l), i) == if i == id then LiveLeases(r, id) - {l} else LiveLeases(r, i) {
      LiveAfterRelease(r, l, i);
    }
    hide LiveLeases;
  }

  lemma {:induction false} ReleasedKeepsFlags(r: Registry, l: nat)
    requires FlagsAgree(r) && l < |r.leases| && !r.leases[l].released
    requires var id := r.leases[l].id; id in r.entries && id !in Released(r, l).entries ==> LiveLeases(r, id) == {l}
    ensures FlagsAgree(Released(r, l))
  {
    var id := r.leases[l].id;
    assert forall k | 0 <= k < |r.leases| && r.leases[k].id == id && !r.leases[k].released :: k in LiveLeases(r, id);
    hide LiveLeases;
  }

  /** Release keeps the invariant and never takes a count below zero. */
  lemma {:induction false} ReleasedKeepsInv(r: Registry, l: nat)
    requires Inv(r) && l < |r.leases|
    ensures Inv(Released(r, l))
    ensures !r.leases[l].released && r.leases[l].id in r.entries ==> r.entries[r.leases[l].id].references >= 1
  {
    if !r.leases[l].released {
      ReleasedKeepsCounts(r, l);
      ReleasedKeepsFlags(r, l);
      hide LiveLeases, FlagsAgree, CountsAgree;
    }
  }

  /** Cancelling an ID sets the flag of exactly its live leases. */
  lemma {:induction false} CancelReachesExactly(r: Registry, id: Id, l: nat)
    requires Inv(r) && !r.closed && l < |r.leases| && !r.leases[l].released
    ensures Inv(Cancelled(r, id))
    ensures Cancelled(r, id).flags[r.leases[l].cancelled]
        <==> r.flags[r.leases[l].cancelled] || (id != "" && r.leases[l].id == id)
  {
    CancelledKeepsInv(r, id);
  }

  /** Cancelling the active requests sets the flag of every live tracked lease and of no untracked one,
      and turns no entry into a sentinel. */
  lemma {:induction false} CancelActiveReachesExactly(r: Registry, l: nat)
    requires Inv(r) && !r.closed && l < |r.leases| && !r.leases[l].released
    ensures ActiveCancelled(r).entries == r.entries
    ensures |ActiveCancelled(r).flags| == |r.flags|
    ensures ActiveCancelled(r).flags[r.leases[l].cancelled] <==> r.leases[l].id != ""
  {
    if r.leases[l].id != "" {
      assert l in LiveLeases(r, r.leases[l].id);
      assert Active(r, r.leases[l].cancelled);
    }
  }

  // ----- threads -------------------------------------------------------------------------------

  /** `asleep` and `awake` map a waiting thread to its lease. */
  datatype State = State(reg: Registry, asleep: map<Thread, nat>, awake: map<Thread, nat>, owed: set<Thread>)

  const INITIAL := State(EMPTY, map[], map[], {})

  datatype Event =
    | Acquire(id: Id)
    | Cancel(thread: Thread, id: Id)
    | CancelActive(thread: Thread)
    | Reset(id: Id)
    | Shutdown(thread: Thread)
    | Release(thread: Thread, lease: nat)
    | Notify(thread: Thread)                   // `notify`, after the lock was dropped
    | Wait(thread: Thread, lease: nat, expired: bool) // entering `wait_cancelled`
    | Wake(thread: Thread)                     // a timeout or a spurious wake-up
    | Recheck(thread: Thread, expired: bool)   // back under the lock, once round the loop

  /** What ends a wait: closed, released or cancelled. */
  predicate Due(r: Registry, l: nat)
    requires l < |r.leases| && InFlags(r)
  {
    r.closed || r.leases[l].released || r.flags[r.leases[l].cancelled]
  }

  datatype Verdict = IsClosed | IsReleased | IsCancelled | IsExpired | Sleeps

  /** One look at the lease under the lock: what `wait_cancelled` returns, in the order it asks, or sleep. */
  function Look(r: Registry, l: nat, expired: bool): (v: Verdict)
    requires l < |r.leases| && InFlags(r)
    ensures v == Sleeps <==> !Due(r, l) && !expired
    ensures v == IsExpired ==> !Due(r, l)
  {
    if r.closed then IsClosed
    else if r.leases[l].released then IsReleased
    else if r.flags[r.leases[l].cancelled] then IsCancelled
    else if expired then IsExpired
    else Sleeps
  }

  predicate Idle(s: State, t: Thread) { t !in s.asleep && t !in s.awake && t !in s.owed }

  predicate Enabled(s: State, e: Event) {
    InFlags(s.reg) &&
    match e
    case Acquire(_) => true
    case Cancel(t, _) => Idle(s, t)
    case CancelActive(t) => Idle(s, t)
    case Reset(_) => true
    case Shutdown(t) => Idle(s, t)
    case Release(t, l) => Idle(s, t) && l < |s.reg.leases|
    case Notify(t) => t in s.owed
    case Wait(t, l, _) => Idle(s, t) && l < |s.reg.leases|
    case Wake(t) => t in s.asleep
    case Recheck(t, _) => t in s.awake && s.awake[t] < |s.reg.leases|
  }

  /** The loop body of `wait_cancelled`: return, or sleep. Checking and falling asleep are one step,
      because the condition variable gives up the lock the check was made under. */
  function Loop(s: State, t: Thread, l: nat, expired: bool): State
    requires InFlags(s.reg) && l < |s.reg.leases|
  {
    if Look(s.reg, l, expired) != Sleeps then s.(awake := s.awake - {t})
    else s.(awake := s.awake - {t}, asleep := s.asleep[t := l])
  }

  function Next(s: State, e: Event): State
    requires Enabled(s, e)
  {
    match e
    case Acquire(id) => s.(reg := Acquired(s.reg, id))
    case Cancel(t, id) =>
      if s.reg.closed || id == "" then s else s.(reg := Cancelled(s.reg, id), owed := s.owed + {t})
    case CancelActive(t) =>
      if s.reg.closed then s else s.(reg := ActiveCancelled(s.reg), owed := s.owed + {t})
    case Reset(id) => s.(reg := ResetIfIdle(s.reg, id))
    case Shutdown(t) => s.(reg := ShutDown(s.reg), owed := s.owed + {t})
    case Release(t, l) =>
      if s.reg.leases[l].released then s else s.(reg := Released(s.reg, l), owed := s.owed + {t})
    case Notify(t) => s.(owed := s.owed - {t}, awake := s.awake + s.asleep, asleep := map[])
    case Wait(t, l, expired) => Loop(s, t, l, expired)
    case Wake(t) => s.(asleep := s.asleep - {t}, awake := s.awake[t := s.asleep[t]])
    case Recheck(t, expired) => Loop(s, t, s.awake[t], expired)
  }

  ghost predicate Run(s: State, events: seq<Event>, s': State)
    decreases |events|
  {
    if events == [] then s == s'
    else Enabled(s, events[0]) && Run(Next(s, events[0]), events[1..], s')
  }

  /** No wake-up is lost: whoever sleeps although its wait is over is still owed a notification. */
  ghost predicate NoLostWakeup(s: State) {
    && InFlags(s.reg)
    && (forall t | t in s.asleep :: s.asleep[t] < |s.reg.leases|)
    && (forall t | t in s.awake :: s.awake[t] < |s.reg.leases|)
    && (forall t | t in s.asleep :: Due(s.reg, s.asleep[t]) ==> s.owed != {})
  }

  lemma {:induction false} StepKeepsInv(s: State, e: Event)
    requires Inv(s.reg) && Enabled(s, e)
    ensures Inv(Next(s, e).reg)
  {
    match e
    case Acquire(id) => AcquiredKeepsInv(s.reg, id);
    case Cancel(t, id) => CancelledKeepsInv(s.reg, id);
    case CancelActive(t) => ActiveCancelledKeepsInv(s.reg);
    case Reset(id) => RemovalsKeepInv(s.reg, id);
    case Shutdown(t) => RemovalsKeepInv(s.reg, "");
    case Release(t, l) => ReleasedKeepsInv(s.reg, l);
    case Notify(t) =>
    case Wait(t, l, expired) =>
    case Wake(t) =>
    case Recheck(t, expired) =>
  }

  /** What a step that owes nobody anything leaves of the leases already handed out. */
  lemma {:induction false} SilentStep(r: Registry, e: Event)
    requires Inv(r) && (e.Acquire? || e.Reset?)
    ensures var r' := if e.Acquire? then Acquired(r, e.id) else ResetIfIdle(r, e.id);
            InFlags(r') && |r.leases| <= |r'.leases| &&
            forall l | 0 <= l < |r.leases| :: Due(r', l) == Due(r, l)
  {
    if e.Acquire? {
      AcquiredKeepsInv(r, e.id);
    } else {
      RemovalsKeepInv(r, e.id);
    }
  }

  lemma {:induction false} OwingStep(s: State, e: Event)
    requires Enabled(s, e) && (e.Cancel? || e.CancelActive? || e.Shutdown? || e.Release?)
    ensures var s' := Next(s, e);
            && (s' == s || e.thread in s'.owed)
            && |s'.reg.leases| == |s.reg.leases| && s'.asleep == s.asleep && s'.awake == s.awake
  {}

  lemma {:induction false} SilentKeepsWakeups(s: State, e: Event)
    requires Inv(s.reg) && Enabled(s, e) && NoLostWakeup(s) && (e.Acquire? || e.Reset?)
    ensures NoLostWakeup(Next(s, e))
  {
    SilentStep(s.reg, e);
    hide Inv, Acquired, ResetIfIdle, Due, InFlags;
    var s' := Next(s, e);
    assert forall t | t in s.asleep :: Due(s'.reg, s.asleep[t]) == Due(s.reg, s.asleep[t]);
  }

  lemma {:induction false} OwingKeepsWakeups(s: State, e: Event)
    requires Inv(s.reg) && Enabled(s, e) && NoLostWakeup(s)
    requires e.Cancel? || e.CancelActive? || e.Shutdown? || e.Release?
    ensures NoLostWakeup(Next(s, e))
  {
    StepKeepsInv(s, e);
    OwingStep(s, e);
    InvInFlags(Next(s, e).reg);
    hide Inv, Next, Due, InFlags;
  }

  lemma {:induction false} WaiterKeepsWakeups(s: State, e: Event)
    requires Enabled(s, e) && NoLostWakeup(s) && (e.Notify? || e.Wait? || e.Wake? || e.Recheck?)
    ensures NoLostWakeup(Next(s, e))
  {
    hide Due, InFlags;
  }

  lemma {:induction false} StepKeepsWakeups(s: State, e: Event)
    requires Inv(s.reg) && Enabled(s, e) && NoLostWakeup(s)
    ensures NoLostWakeup(Next(s, e))
  {
    hide Inv, Enabled, Next, NoLostWakeup;
    if e.Acquire? || e.Reset? {
      SilentKeepsWakeups(s, e);
    } else if e.Cancel? || e.CancelActive? || e.Shutdown? || e.Release? {
      OwingKeepsWakeups(s, e);
    } else {
      WaiterKeepsWakeups(s, e);
    }
  }

  lemma {:induction false} InvInFlags(r: Registry)
    requires Inv(r)
    ensures InFlags(r)
  {}

  /** Over every run: the counts and flags agree, and no wake-up is lost. */
  lemma {:induction false} RunKeepsAll(s: State, events: seq<Event>, s': State)
    requires Inv(s.reg) && NoLostWakeup(s) && Run(s, events, s')
    ensures Inv(s'.reg) && NoLostWakeup(s')
    decreases |events|
  {
    if events != [] {
      StepKeepsInv(s, events[0]);
      StepKeepsWakeups(s, events[0]);
      RunKeepsAll(Next(s, events[0]), events[1..], s');
    }
  }

  lemma {:induction false} EveryReachableState(events: seq<Event>, s: State)
    requires Run(INITIAL, events, s)
    ensures Inv(s.reg) && NoLostWakeup(s)
    ensures s.owed == {} ==> forall t | t in s.asleep :: !Due(s.reg, s.asleep[t])
  {
    RunKeepsAll(INITIAL, events, s);
  }

  /** A notification reaches every sleeper, and a woken waiter whose wait is over returns, whatever the
      clock says; only one whose wait is not over can fall asleep again. */
  lemma {:induction false} NotificationDelivers(s: State, t: Thread, waiter: Thread)
    requires NoLostWakeup(s) && t in s.owed && waiter in s.asleep
    ensures var s' := Next(s, Notify(t));
            && waiter !in s'.asleep && waiter in s'.awake
            && Enabled(s', Recheck(waiter, false))
            && (waiter in Next(s', Recheck(waiter, false)).asleep <==> !Due(s.reg, s.asleep[waiter]))
  {}

  // ----- retries ---------------------------------------------------------------------------------

  /** The next acquisition of `id` starts uncancelled. */
  predicate Fresh(r: Registry, id: Id) {
    InFlags(r) && (id in r.entries ==> !r.flags[r.entries[id].cancelled])
  }

  /** `CancelActive` reaches an ID only while it has a live lease. */
  ghost predicate Cancels(s: State, e: Event, id: Id) {
    (e.Cancel? && e.id == id) || (e.CancelActive? && id != "" && LiveLeases(s.reg, id) != {})
  }

  ghost predicate CancelledDuring(s: State, events: seq<Event>, id: Id)
    decreases |events|
  {
    events != [] && Enabled(s, events[0]) &&
    (Cancels(s, events[0], id) || CancelledDuring(Next(s, events[0]), events[1..], id))
  }

  lemma {:induction false} FreshAcquired(r: Registry, other: Id, id: Id)
    requires Fresh(r, id)
    ensures InFlags(Acquired(r, other)) ==> Fresh(Acquired(r, other), id)
  {}

  lemma {:induction false} FreshCancelled(r: Registry, other: Id, id: Id)
    requires FlagsAgree(r) && Fresh(r, id) && other != id
    ensures InFlags(Cancelled(r, other)) ==> Fresh(Cancelled(r, other), id)
  {}

  /** Cancelling the active requests leaves an ID without live leases alone. */
  lemma {:induction false} FreshActiveCancelled(r: Registry, id: Id)
    requires Inv(r) && Fresh(r, id) && (id == "" || LiveLeases(r, id) == {})
    ensures Fresh(ActiveCancelled(r), id)
  {
    assert id !in r.entries;
  }

  lemma {:induction false} StepKeepsFresh(s: State, e: Event, id: Id)
    requires Inv(s.reg) && Enabled(s, e) && Fresh(s.reg, id) && !Cancels(s, e, id)
    ensures Fresh(Next(s, e).reg, id)
  {
    StepKeepsInv(s, e);
    if e.Acquire? {
      FreshAcquired(s.reg, e.id, id);
    } else if e.Cancel? {
      FreshCancelled(s.reg, e.id, id);
    } else if e.CancelActive? {
      FreshActiveCancelled(s.reg, id);
    }
    hide Acquired, Cancelled, ActiveCancelled, CountsAgree, UntrackedApart;
  }

  lemma {:induction false} RunKeepsFresh(s: State, events: seq<Event>, s': State, id: Id)
    requires Inv(s.reg) && Fresh(s.reg, id) && Run(s, events, s') && !CancelledDuring(s, events, id)
    ensures Inv(s'.reg) && Fresh(s'.reg, id)
    decreases |events|
  {
    if events != [] {
      StepKeepsFresh(s, events[0], id);
      StepKeepsInv(s, events[0]);
      hide Next, Enabled, Cancels, Inv, Fresh;
      RunKeepsFresh(Next(s, events[0]), events[1..], s', id);
    }
  }

  /** After the last release of an ID, and until it is cancelled again, a retry starts uncancelled. */
  lemma {:induction false} RetryStartsUncancelled(s: State, l: nat, events: seq<Event>, s': State)
    requires Inv(s.reg) && l < |s.reg.leases| && !s.reg.leases[l].released && !s.reg.closed
    requires LiveLeases(s.reg, s.reg.leases[l].id) == {l}
    requires Run(s.(reg := Released(s.reg, l)), events, s') && !s'.reg.closed
    requires !CancelledDuring(s.(reg := Released(s.reg, l)), events, s.reg.leases[l].id)
    ensures var r := Acquired(s'.reg, s.reg.leases[l].id);
            && |r.leases| == |s'.reg.leases| + 1 && InFlags(r)
            && !r.flags[r.leases[|s'.reg.leases|].cancelled]
  {
    var id := s.reg.leases[l].id;
    ReleasedKeepsInv(s.reg, l);
    assert id != "" ==> s.reg.entries[id].references == 1;
    RunKeepsFresh(s.(reg := Released(s.reg, l)), events, s', id);
    AcquiredKeepsInv(s'.reg, id);
  }

  // ----- cancelling before the request ------------------------------------------------------------

  /** The next acquisition of `id` starts cancelled. */
  predicate Doomed(r: Registry, id: Id) {
    InFlags(r) && id in r.entries && r.flags[r.entries[id].cancelled]
  }

  /** What takes a cancellation back: a reset while idle, the last release, or the end of the registry. */
  predicate Lifts(s: State, e: Event, id: Id) {
    || e.Shutdown?
    || (e.Reset? && e.id == id && LiveLeases(s.reg, id) == {})
    || (e.Release? && LiveLeases(s.reg, id) == {e.lease})
  }

  lemma {:induction false} DoomedByReset(s: State, other: Id, id: Id)
    requires Inv(s.reg)
    ensures Doomed(ResetIfIdle(s.reg, other), id) <==> Doomed(s.reg, id) && !Lifts(s, Reset(other), id)
  {
    hide LiveLeases, FlagsAgree, UntrackedApart;
    if other in s.reg.entries {
      assert s.reg.entries[other].references == 0 <==> LiveLeases(s.reg, other) == {};
    }
  }

  lemma {:induction false} DoomedByRelease(s: State, t: Thread, l: nat, id: Id)
    requires Inv(s.reg) && l < |s.reg.leases|
    ensures Doomed(Released(s.reg, l), id) <==> Doomed(s.reg, id) && !Lifts(s, Release(t, l), id)
  {
    ReleasedKeepsInv(s.reg, l);
    var of := s.reg.leases[l].id;
    assert l in LiveLeases(s.reg, id) <==> id == of && !s.reg.leases[l].released;
    if id in s.reg.entries && l in LiveLeases(s.reg, id) {
      SingletonOf(LiveLeases(s.reg, id), l);
    }
    hide LiveLeases, FlagsAgree, UntrackedApart;
  }

  lemma {:induction false} DoomedByAcquire(r: Registry, other: Id, id: Id)
    requires Inv(r)
    ensures Doomed(Acquired(r, other), id) <==> Doomed(r, id)
  {
    AcquiredKeepsInv(r, other);
    hide LiveLeases, CountsAgree, UntrackedApart;
  }

  lemma {:induction false} DoomedByCancel(r: Registry, other: Id, id: Id)
    requires Inv(r)
    ensures Doomed(Cancelled(r, other), id) <==> Doomed(r, id) || (!r.closed && other == id && id != "")
  {
    CancelledKeepsInv(r, other);
    hide LiveLeases, UntrackedApart;
  }

  lemma {:induction false} DoomedByCancelActive(r: Registry, id: Id)
    requires Inv(r)
    ensures Doomed(ActiveCancelled(r), id) <==>
              Doomed(r, id) || (!r.closed && id != "" && LiveLeases(r, id) != {})
  {
    ActiveCancelledKeepsInv(r);
    if id in r.entries {
      assert r.entries[id].references > 0 <==> LiveLeases(r, id) != {};
      assert Active(r, r.entries[id].cancelled) <==> r.entries[id].references > 0;
    } else if !r.closed && id != "" {
      NoEntryNoLease(r, id);
    }
    hide LiveLeases, UntrackedApart;
  }

  /** Exactly what makes the next acquisition of an ID start cancelled, in one step. */
  lemma {:induction false} DoomedExactly(s: State, e: Event, id: Id)
    requires Inv(s.reg) && Enabled(s, e)
    ensures Doomed(Next(s, e).reg, id) <==>
              || (!s.reg.closed && id != "" && Cancels(s, e, id))
              || (Doomed(s.reg, id) && !Lifts(s, e, id))
  {
    if e.Acquire? {
      DoomedByAcquire(s.reg, e.id, id);
    } else if e.Cancel? {
      DoomedByCancel(s.reg, e.id, id);
    } else if e.CancelActive? {
      DoomedByCancelActive(s.reg, id);
    } else if e.Reset? {
      DoomedByReset(s, e.id, id);
    } else if e.Release? {
      DoomedByRelease(s, e.thread, e.lease, id);
    }
    hide Acquired, Cancelled, ActiveCancelled, ResetIfIdle, Released, LiveLeases, Inv, InFlags;
  }

  ghost predicate LiftedDuring(s: State, events: seq<Event>, id: Id)
    decreases |events|
  {
    events != [] && Enabled(s, events[0]) &&
    (Lifts(s, events[0], id) || LiftedDuring(Next(s, events[0]), events[1..], id))
  }

  lemma {:induction false} RunKeepsDoomed(s: State, events: seq<Event>, s': State, id: Id)
    requires Inv(s.reg) && Doomed(s.reg, id) && Run(s, events, s') && !LiftedDuring(s, events, id)
    ensures Inv(s'.reg) && Doomed(s'.reg, id)
    decreases |events|
  {
    if events != [] {
      DoomedExactly(s, events[0], id);
      StepKeepsInv(s, events[0]);
      hide Next, Enabled, Cancels, Lifts, Inv, Doomed;
      RunKeepsDoomed(Next(s, events[0]), events[1..], s', id);
    }
  }

  /** A cancellation that comes before the request, whether the ID is in use or idle, is not lost: until it is
      reset while idle, released for the last time or the registry ends, the next request starts cancelled
      and does not wait. */
  lemma {:induction false} CancelBeforeAcquire(s: State, t: Thread, id: Id, events: seq<Event>, s': State)
    requires Inv(s.reg) && !s.reg.closed && id != "" && Enabled(s, Cancel(t, id))
    requires Run(Next(s, Cancel(t, id)), events, s') && !LiftedDuring(Next(s, Cancel(t, id)), events, id)
    ensures var r := Acquired(s'.reg, id);
            && !s'.reg.closed && |r.leases| == |s'.reg.leases| + 1 && InFlags(r)
            && r.leases[|s'.reg.leases|].id == id && !r.leases[|s'.reg.leases|].released
            && r.flags[r.leases[|s'.reg.leases|].cancelled]
            && forall expired :: Look(r, |s'.reg.leases|, expired) == IsCancelled
  {
    StepKeepsInv(s, Cancel(t, id));
    DoomedExactly(s, Cancel(t, id), id);
    hide Next, LiftedDuring;
    RunKeepsDoomed(Next(s, Cancel(t, id)), events, s', id);
    AcquiredKeepsInv(s'.reg, id);
    hide LiveLeases, UntrackedApart;
  }

  /** A shutdown is for good: no request is let in any more, and every lease's wait is over. */
  lemma {:induction false} ShutdownIsForGood(s: State, t: Thread, events: seq<Event>, s': State)
    requires Inv(s.reg) && Enabled(s, Shutdown(t)) && Run(Next(s, Shutdown(t)), events, s')
    ensures s'.reg.closed && s'.reg.entries == map[] && |s'.reg.leases| == |s.reg.leases|
    ensures InFlags(s'.reg) && forall l, expired | 0 <= l < |s'.reg.leases| :: Look(s'.reg, l, expired) == IsClosed
  {
    StepKeepsInv(s, Shutdown(t));
    ClosedStaysClosed(Next(s, Shutdown(t)), events, s');
  }

  lemma {:induction false} ClosedStaysClosed(s: State, events: seq<Event>, s': State)
    requires Inv(s.reg) && s.reg.closed && Run(s, events, s')
    ensures Inv(s'.reg) && s'.reg.closed && |s'.reg.leases| == |s.reg.leases|
    decreases |events|
  {
    if events != [] {
      StepKeepsInv(s, events[0]);
      ClosedStep(s, events[0]);
      hide Next, Enabled, Inv;
      ClosedStaysClosed(Next(s, events[0]), events[1..], s');
    }
  }

  lemma {:induction false} ClosedStep(s: State, e: Event)
    requires Enabled(s, e) && s.reg.closed
    ensures Next(s, e).reg.closed && |Next(s, e).reg.leases| == |s.reg.leases|
  {}

  // ----- the program -----------------------------------------------------------------------------

  /** What the state lock guards, updated in place. Each method is one critical section; `notify` says
      whether the caller must notify after unlocking. */
  class CancellationRegistry {
    var closed: bool
    var entries: map<Id, Entry>
    var flags: seq<bool>
    var leases: seq<Lease>

    function Model(): Registry
      reads this
    {
      Registry(closed, entries, flags, leases)
    }

    constructor ()
      ensures Model() == EMPTY
    {
      closed, entries, flags, leases := false, map[], [], [];
    }

    /** `entries.entry(id).or_default()`. */
    method EntryOrDefault(id: Id)
      modifies this`entries, this`flags
      ensures Model() == OrDefault(old(Model()), id)
    {
      if id !in entries {
        entries := entries[id := Entry(|flags|, 0)];
        flags := flags + [false];
      }
    }

    method AcquireLease(id: Id) returns (lease: nat)
      modifies this
      ensures Model() == Acquired(old(Model()), id)
      ensures !closed ==> lease == old(|leases|) && lease < |leases| && leases[lease].id == id
      ensures closed ==> Model() == old(Model())
    {
      lease := |leases|;
      if closed {
        return;
      }
      var cancelled;
      if id == "" {
        cancelled := |flags|;
        flags := flags + [false];
      } else {
        EntryOrDefault(id);
        entries := entries[id := entries[id].(references := entries[id].references + 1)];
        cancelled := entries[id].cancelled;
      }
      leases := leases + [Lease(id, cancelled, false)];
    }

    method CancelId(id: Id) returns (notify: bool)
      requires InFlags(Model())
      modifies this
      ensures Model() == Cancelled(old(Model()), id)
      ensures notify == (!closed && id != "")
      ensures notify ==> id in entries && entries[id].cancelled < |flags| && flags[entries[id].cancelled]
    {
      notify := !closed && id != "";
      if notify {
        EntryOrDefault(id);
        flags := flags[entries[id].cancelled := true];
      }
    }

    /** Collects the IDs it cancels; their order is not modelled. */
    method CancelAllActive() returns (ids: set<Id>, notify: bool)
      requires InFlags(Model())
      modifies this`flags
      ensures Model() == ActiveCancelled(old(Model()))
      ensures notify == !closed
      ensures ids == if closed then {} else set id | id in entries && entries[id].references > 0
    {
      ids, notify := {}, !closed;
      if closed {
        return;
      }
      var rest := entries.Keys;
      ghost var before := Model();
      while rest != {}
        invariant rest <= entries.Keys
        invariant ids == set id | id in entries && id !in rest && entries[id].references > 0
        invariant |flags| == |before.flags|
        invariant forall f | 0 <= f < |flags| ::
                    flags[f] <==> before.flags[f] || exists id | id in ids :: entries[id].cancelled == f
        decreases rest
      {
        var id :| id in rest;
        if entries[id].references > 0 {
          flags := flags[entries[id].cancelled := true];
          ids := ids + {id};
        }
        rest := rest - {id};
      }
      assert flags == ActiveCancelled(before).flags;
    }

    method ResetIdle(id: Id)
      modifies this`entries
      ensures Model() == ResetIfIdle(old(Model()), id)
      ensures !closed && id in entries ==> entries[id].references != 0
      ensures entries == if id in old(entries) && id !in entries then old(entries) - {id} else old(entries)
    {
      if !closed && id in entries && entries[id].references == 0 {
        entries := entries - {id};
      }
    }

    method Close()
      modifies this`closed, this`entries
      ensures Model() == ShutDown(old(Model()))
      ensures closed && entries == map[]
    {
      closed := true;
      entries := map[];
    }

    method ReleaseLease(l: nat) returns (notify: bool)
      requires l < |leases|
      modifies this`leases, this`entries
      ensures Model() == Released(old(Model()), l)
      ensures notify == !old(leases[l].released)
    {
      var id := leases[l].id;
      notify := !leases[l].released;
      if !notify {
        return;
      }
      leases := leases[l := leases[l].(released := true)];
      if id in entries {
        entries := entries[id := entries[id].(references := entries[id].references - 1)];
        if entries[id].references == 0 {
          entries := entries - {id};
        }
      }
    }

    /** One pass of the loop in `wait_cancelled`. */
    method WaitOnce(l: nat, expired: bool) returns (v: Verdict)
      requires InFlags(Model()) && l < |leases|
      ensures v == IsClosed <==> closed
      ensures v == IsReleased <==> !closed && leases[l].released
      ensures v == IsCancelled <==> !closed && !leases[l].released && flags[leases[l].cancelled]
      ensures v == IsExpired <==> !Due(Model(), l) && expired
      ensures v == Look(Model(), l, expired)
    {
      if closed {
        return IsClosed;
      }
      if leases[l].released {
        return IsReleased;
      }
      if flags[leases[l].cancelled] {
        return IsCancelled;
      }
      v := if expired then IsExpired else Sleeps;
    }
  }
}
