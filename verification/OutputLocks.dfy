/**
  Output locks, one per case-folded path (rust_backend/crates/extensions/src/files.rs, `FileRegistry::lock`,
  `OutputLock` and `OutputGuard`).

  A lock object is an index into `owners`. The table `outputs` refers to it weakly: the object lives as
  long as some thread inside `lock` or some guard holds it. The steps are the pieces of code that run
  under one mutex: the lookup under the table's, each turn of the waiting loop under the owner's.
*/
module OutputLocks {
  import opened Options

  type Path = string
  type Thread = nat

  /** A thread inside `lock`, past the lookup. Refused, it gives up the owner's mutex first and its reference
      to the lock object afterwards. */
  datatype Caller = Caller(path: Path, lock: nat, refused: bool)

  /** `live` until the first half of the drop has cleared the owner; the object is held until `Drop`. */
  datatype Guard = Guard(path: Path, lock: nat, thread: Thread, live: bool)

  datatype State = State(outputs: map<Path, nat>, owners: seq<Option<Thread>>,
                         callers: map<Thread, Caller>, guards: map<nat, Guard>, next: nat)

  const INITIAL := State(map[], [], map[], map[], 0)

  /** Somebody holds the lock object: `Weak::upgrade` succeeds. */
  predicate Strong(s: State, lock: nat) {
    || (exists t | t in s.callers :: s.callers[t].lock == lock)
    || (exists g | g in s.guards :: s.guards[g].lock == lock)
  }

  datatype Event =
    | Lookup(thread: Thread, path: Path, kept: set<Path>)
    | Try(thread: Thread, check: bool)
    | Forget(thread: Thread)
    | Unlock(guard: nat)
    | Drop(guard: nat)

  /** `kept` is what `retain` left. A count may fall to zero just after it was read, so dead entries may
      stay; nothing can revive an object meanwhile, so every entry that is alive stays. */
  predicate Enabled(s: State, e: Event) {
    match e
    case Lookup(t, path, kept) =>
      t !in s.callers && forall p | p in s.outputs && Strong(s, s.outputs[p]) :: p in kept
    case Try(t, _) => t in s.callers && !s.callers[t].refused && s.callers[t].lock < |s.owners|
    case Forget(t) => t in s.callers && s.callers[t].refused
    case Unlock(g) => g in s.guards && s.guards[g].live && s.guards[g].lock < |s.owners|
    case Drop(g) => g in s.guards && !s.guards[g].live
  }

  function LookedUp(s: State, t: Thread, path: Path, kept: set<Path>): State {
    var outputs := map p | p in s.outputs && p in kept :: s.outputs[p];
    if path in outputs && Strong(s, outputs[path])
    then s.(outputs := outputs, callers := s.callers[t := Caller(path, outputs[path], false)])
    else s.(outputs := outputs[path := |s.owners|], owners := s.owners + [None],
            callers := s.callers[t := Caller(path, |s.owners|, false)])
  }

  datatype Outcome = Granted | Refused | Waits

  /** One turn of the loop in `lock`. The caller's test comes before the test for self-reentry. */
  function Turn(s: State, t: Thread, check: bool): Outcome
    requires t in s.callers && s.callers[t].lock < |s.owners|
  {
    var owner := s.owners[s.callers[t].lock];
    if !check then Refused
    else if owner == None then Granted
    else if owner == Some(t) then Refused
    else Waits
  }

  function Tried(s: State, t: Thread, check: bool): State
    requires t in s.callers && s.callers[t].lock < |s.owners|
  {
    var c := s.callers[t];
    match Turn(s, t, check)
    case Waits => s
    case Refused => s.(callers := s.callers[t := c.(refused := true)])
    case Granted => s.(owners := s.owners[c.lock := Some(t)], callers := s.callers - {t},
                       guards := s.guards[s.next := Guard(c.path, c.lock, t, true)], next := s.next + 1)
  }

  function Next(s: State, e: Event): State
    requires Enabled(s, e)
  {
    match e
    case Lookup(t, path, kept) => LookedUp(s, t, path, kept)
    case Try(t, check) => Tried(s, t, check)
    case Forget(t) => s.(callers := s.callers - {t})
    case Unlock(g) => s.(owners := s.owners[s.guards[g].lock := None],
                         guards := s.guards[g := s.guards[g].(live := false)])
    case Drop(g) => s.(guards := s.guards - {g})
  }

  ghost predicate Run(s: State, events: seq<Event>, s': State)
    decreases |events|
  {
    if events == [] then s == s'
    else Enabled(s, events[0]) && Run(Next(s, events[0]), events[1..], s')
  }

  // ----- the invariant -------------------------------------------------------------------------

  /** Two paths never lead to one lock object. */
  ghost predicate TableDistinct(s: State) {
    && (forall p | p in s.outputs :: s.outputs[p] < |s.owners|)
    && (forall p, q | p in s.outputs && q in s.outputs && s.outputs[p] == s.outputs[q] :: p == q)
  }

  /** Everyone who holds a lock object can find it in the table under its path. */
  ghost predicate Listed(s: State) {
    && (forall t | t in s.callers ::
          s.callers[t].path in s.outputs && s.outputs[s.callers[t].path] == s.callers[t].lock)
    && (forall g | g in s.guards ::
          s.guards[g].path in s.outputs && s.outputs[s.guards[g].path] == s.guards[g].lock)
  }

  ghost predicate Found(s: State) { TableDistinct(s) && Listed(s) }

  ghost predicate LocksExist(s: State) {
    && (forall t | t in s.callers :: s.callers[t].lock < |s.owners|)
    && (forall g | g in s.guards :: s.guards[g].lock < |s.owners| && g < s.next)
  }

  /** A live guard is what the owner field says, and is alone. */
  ghost predicate Owned(s: State) {
    && LocksExist(s)
    && (forall g | g in s.guards && s.guards[g].live :: s.owners[s.guards[g].lock] == Some(s.guards[g].thread))
    && (forall g, h | g in s.guards && h in s.guards && s.guards[g].live && s.guards[h].live
                      && s.guards[g].lock == s.guards[h].lock :: g == h)
    && (forall k | 0 <= k < |s.owners| && s.owners[k].Some? ::
          exists g | g in s.guards :: s.guards[g].live && s.guards[g].lock == k)
  }

  ghost predicate Inv(s: State) { Found(s) && Owned(s) }

  lemma {:induction false} LookupKeepsTable(s: State, t: Thread, path: Path, kept: set<Path>)
    requires TableDistinct(s)
    ensures TableDistinct(LookedUp(s, t, path, kept))
  {
    hide Strong;
    var s' := LookedUp(s, t, path, kept);
    assert forall p | p in s'.outputs && p != path :: p in s.outputs && s'.outputs[p] == s.outputs[p];
  }

  lemma {:induction false} LookupKeepsListed(s: State, t: Thread, path: Path, kept: set<Path>)
    requires Listed(s) && Enabled(s, Lookup(t, path, kept))
    ensures Listed(LookedUp(s, t, path, kept))
  {
    forall u | u in s.callers
      ensures s.callers[u].path in kept && Strong(s, s.outputs[s.callers[u].path])
    {
      assert Strong(s, s.callers[u].lock);
    }
    forall g | g in s.guards
      ensures s.guards[g].path in kept && Strong(s, s.outputs[s.guards[g].path])
    {
      assert Strong(s, s.guards[g].lock);
    }
    hide Strong;
  }

  lemma {:induction false} LookupKeepsOwned(s: State, t: Thread, path: Path, kept: set<Path>)
    requires Found(s) && Owned(s) && Enabled(s, Lookup(t, path, kept))
    ensures Owned(LookedUp(s, t, path, kept))
  {
    hide Strong;
    var s' := LookedUp(s, t, path, kept);
    assert forall k | 0 <= k < |s.owners| :: s'.owners[k] == s.owners[k];
  }

  lemma {:induction false} TryKeepsOwned(s: State, t: Thread, check: bool)
    requires Owned(s) && Enabled(s, Try(t, check))
    ensures Owned(Tried(s, t, check))
  {
    var s' := Tried(s, t, check);
    if Turn(s, t, check).Granted? {
      assert s.next in s'.guards && s'.guards[s.next].live;
      assert forall g | g in s.guards :: g in s'.guards && s'.guards[g] == s.guards[g];
    }
  }

  lemma {:induction false} TryKeepsInv(s: State, t: Thread, check: bool)
    requires Inv(s) && Enabled(s, Try(t, check))
    ensures Inv(Tried(s, t, check))
  {
    TryKeepsOwned(s, t, check);
    hide Owned;
  }

  lemma {:induction false} ForgetKeepsInv(s: State, t: Thread)
    requires Inv(s) && Enabled(s, Forget(t))
    ensures Inv(Next(s, Forget(t)))
  {}

  lemma {:induction false} UnlockKeepsOwned(s: State, g: nat)
    requires Owned(s) && Enabled(s, Unlock(g))
    ensures Owned(Next(s, Unlock(g)))
  {
    var s' := Next(s, Unlock(g));
    forall k | 0 <= k < |s'.owners| && s'.owners[k].Some?
      ensures exists h | h in s'.guards :: s'.guards[h].live && s'.guards[h].lock == k
    {
      var h :| h in s.guards && s.guards[h].live && s.guards[h].lock == k;
      assert h != g && s'.guards[h] == s.guards[h];
    }
  }

  lemma {:induction false} UnlockKeepsInv(s: State, g: nat)
    requires Inv(s) && Enabled(s, Unlock(g))
    ensures Inv(Next(s, Unlock(g)))
  {
    UnlockKeepsOwned(s, g);
    hide Owned;
  }

  lemma {:induction false} DropKeepsInv(s: State, g: nat)
    requires Inv(s) && Enabled(s, Drop(g))
    ensures Inv(Next(s, Drop(g)))
  {
    var s' := Next(s, Drop(g));
    forall k | 0 <= k < |s'.owners| && s'.owners[k].Some?
      ensures exists h | h in s'.guards :: s'.guards[h].live && s'.guards[h].lock == k
    {
      var h :| h in s.guards && s.guards[h].live && s.guards[h].lock == k;
      assert h != g && s'.guards[h] == s.guards[h];
    }
  }

  lemma {:induction false} RunKeepsInv(s: State, events: seq<Event>, s': State)
    requires Inv(s) && Run(s, events, s')
    ensures Inv(s')
    decreases |events|
  {
    if events != [] {
      match events[0] {
        case Lookup(t, path, kept) =>
          LookupKeepsTable(s, t, path, kept);
          LookupKeepsListed(s, t, path, kept);
          LookupKeepsOwned(s, t, path, kept);
        case Try(t, check) => TryKeepsInv(s, t, check);
        case Forget(t) => ForgetKeepsInv(s, t);
        case Unlock(g) => UnlockKeepsInv(s, g);
        case Drop(g) => DropKeepsInv(s, g);
      }
      hide TableDistinct, Listed, Owned, LookedUp, Tried;
      RunKeepsInv(Next(s, events[0]), events[1..], s');
    }
  }

  // ----- what it is for --------------------------------------------------------------------------

  /** In every interleaving: at most one live guard per path, and holders and waiters of one path share
      one lock object, which no other path uses. */
  lemma {:induction false} OneGuardPerPath(events: seq<Event>, s: State)
    requires Run(INITIAL, events, s)
    ensures forall g, h | g in s.guards && h in s.guards && s.guards[g].live && s.guards[h].live
              && s.guards[g].path == s.guards[h].path :: g == h
    ensures forall t, g | t in s.callers && g in s.guards ::
              s.callers[t].lock == s.guards[g].lock <==> s.callers[t].path == s.guards[g].path
    ensures forall t, u | t in s.callers && u in s.callers ::
              s.callers[t].lock == s.callers[u].lock <==> s.callers[t].path == s.callers[u].path
    ensures forall g, h | g in s.guards && h in s.guards ::
              s.guards[g].lock == s.guards[h].lock <==> s.guards[g].path == s.guards[h].path
  {
    RunKeepsInv(INITIAL, events, s);
  }

  ghost predicate Holds(s: State, t: Thread, path: Path) {
    exists g | g in s.guards :: s.guards[g].live && s.guards[g].path == path && s.guards[g].thread == t
  }

  /** A turn of the loop, told from the paths alone: granted exactly when nobody holds the path, refused
      exactly when the caller's test fails or the caller holds the path itself, else it waits. */
  lemma {:induction false} TurnByPath(events: seq<Event>, s: State, t: Thread, check: bool)
    requires Run(INITIAL, events, s) && t in s.callers && !s.callers[t].refused
    ensures Enabled(s, Try(t, check))
    ensures Turn(s, t, check) == Granted <==> check && forall u :: !Holds(s, u, s.callers[t].path)
    ensures Turn(s, t, check) == Refused <==> !check || Holds(s, t, s.callers[t].path)
  {
    RunKeepsInv(INITIAL, events, s);
    var c := s.callers[t];
    forall u: Thread ensures Holds(s, u, c.path) <==> s.owners[c.lock] == Some(u) {
      HolderIsOwner(s, t, u);
    }
    if s.owners[c.lock].Some? {
      assert Holds(s, s.owners[c.lock].value, c.path);
    }
  }

  lemma {:induction false} HolderIsOwner(s: State, t: Thread, u: Thread)
    requires Inv(s) && t in s.callers
    ensures s.callers[t].lock < |s.owners|
    ensures Holds(s, u, s.callers[t].path) <==> s.owners[s.callers[t].lock] == Some(u)
  {
    var c := s.callers[t];
    if s.owners[c.lock] == Some(u) {
      var g :| g in s.guards && s.guards[g].live && s.guards[g].lock == c.lock;
      assert s.guards[g].path == c.path;
    }
  }

  // ----- the program -----------------------------------------------------------------------------

  /** The table and the lock objects, updated in place; one method for each step of `lock` and of the
      guard's drop. */
  class FileRegistry {
    var outputs: map<Path, nat>
    var owners: seq<Option<Thread>>
    var callers: map<Thread, Caller>
    var guards: map<nat, Guard>
    var next: nat

    function Model(): State
      reads this
    {
      State(outputs, owners, callers, guards, next)
    }

    constructor ()
      ensures Model() == INITIAL
    {
      outputs, owners, callers, guards, next := map[], [], map[], map[], 0;
    }

    /** The first block of `lock`: prune, upgrade or create, insert. */
    method LookUp(t: Thread, path: Path, kept: set<Path>)
      requires Enabled(Model(), Lookup(t, path, kept))
      modifies this`outputs, this`owners, this`callers
      ensures Model() == Next(old(Model()), Lookup(t, path, kept))
    {
      outputs := map p | p in outputs && p in kept :: outputs[p];
      var lock;
      if path in outputs && Strong(Model(), outputs[path]) {
        lock := outputs[path];
      } else {
        lock := |owners|;
        owners := owners + [None];
      }
      outputs := outputs[path := lock];
      callers := callers[t := Caller(path, lock, false)];
      assert outputs == Next(old(Model()), Lookup(t, path, kept)).outputs;
    }

    /** One turn of the waiting loop. */
    method TryLock(t: Thread, check: bool) returns (outcome: Outcome)
      requires Enabled(Model(), Try(t, check))
      modifies this`owners, this`callers, this`guards, this`next
      ensures Model() == Next(old(Model()), Try(t, check))
      ensures outcome == Turn(old(Model()), t, check)
    {
      var c := callers[t];
      if owners[c.lock].Some? {
        if check && owners[c.lock].value != t {
          return Waits;
        }
        callers := callers[t := c.(refused := true)];
        return Refused;
      }
      if !check {
        callers := callers[t := c.(refused := true)];
        return Refused;
      }
      callers := callers - {t};
      owners := owners[c.lock := Some(t)];
      guards := guards[next := Guard(c.path, c.lock, t, true)];
      next := next + 1;
      outcome := Granted;
    }

    /** A refused caller's reference goes. */
    method DropCaller(t: Thread)
      requires Enabled(Model(), Forget(t))
      modifies this`callers
      ensures Model() == Next(old(Model()), Forget(t))
    {
      callers := callers - {t};
    }

    /** The body of the guard's drop. */
    method UnlockGuard(g: nat)
      requires Enabled(Model(), Unlock(g))
      modifies this`owners, this`guards
      ensures Model() == Next(old(Model()), Unlock(g))
    {
      owners := owners[guards[g].lock := None];
      guards := guards[g := guards[g].(live := false)];
    }

    /** The guard's reference to the lock object goes. */
    method DropGuard(g: nat)
      requires Enabled(Model(), Drop(g))
      modifies this`guards
      ensures Model() == Next(old(Model()), Drop(g))
    {
      guards := guards - {g};
    }
  }
}
