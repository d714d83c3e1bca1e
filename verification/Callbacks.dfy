/**
  One-time ownership of OAuth callbacks (rust_backend/crates/extensions/src/auth.rs). Requests wait under
  their extension's ID; `owners` says which of the requests with one nonce a callback belongs to.

  Times are nanoseconds of a clock that never goes back. When an owner leaves, one of the other unexpired
  requests with its nonce inherits; which of them is left open.
*/
module Callbacks {
  import opened Options

  type Id = string
  type Nonce = string

  datatype Request = Request(id: Id, authUrl: string, callbackUrl: string, nonce: Nonce, created: int)

  datatype State = State(closed: bool, pending: map<Id, Request>, owners: map<Nonce, Id>)

  const PENDING_TTL := 180_000_000_000

  const EMPTY := State(false, map[], map[])

  predicate Unexpired(r: Request, now: int) { now - r.created < PENDING_TTL }

  predicate Candidate(s: State, nonce: Nonce, id: Id, now: int) {
    id in s.pending && s.pending[id].nonce == nonce && Unexpired(s.pending[id], now)
  }

  /** `heir` is some candidate, or nobody if there is none. */
  predicate Inherits(s: State, nonce: Nonce, heir: Option<Id>, now: int) {
    if heir.Some? then Candidate(s, nonce, heir.value, now)
    else forall id | id in s.pending :: !Candidate(s, nonce, id, now)
  }

  function Without(s: State, id: Id): State { s.(pending := s.pending - {id}) }

  /** `remove_pending`. */
  function Removed(s: State, id: Id, heir: Option<Id>): State {
    if id !in s.pending then s
    else
      var nonce := s.pending[id].nonce;
      if nonce !in s.owners || s.owners[nonce] != id then Without(s, id)
      else if heir.Some? then Without(s, id).(owners := s.owners[nonce := heir.value])
      else Without(s, id).(owners := s.owners - {nonce})
  }

  predicate MayInherit(s: State, id: Id, heir: Option<Id>, now: int) {
    id in s.pending ==> Inherits(Without(s, id), s.pending[id].nonce, heir, now)
  }

  // ----- registering -----------------------------------------------------------------------------

  /** Another extension already owns the nonce, and not for the very same request. */
  predicate Taken(s: State, r: Request) {
    && r.nonce in s.owners && s.owners[r.nonce] != r.id
    && !(s.owners[r.nonce] in s.pending &&
         var p := s.pending[s.owners[r.nonce]];
         p.nonce == r.nonce && p.authUrl == r.authUrl && p.callbackUrl == r.callbackUrl && p.created == r.created)
  }

  predicate Accepted(s: State, r: Request, blank: bool) { !blank && !s.closed && !Taken(s, r) }

  predicate Supersedes(s: State, r: Request) { r.id in s.pending && s.pending[r.id].nonce != r.nonce }

  function Registered(s: State, r: Request, blank: bool, heir: Option<Id>): State {
    if !Accepted(s, r, blank) then s
    else
      Entered(if Supersedes(s, r) then Removed(s, r.id, heir) else s, r)
  }

  /** The request is stored and owns its nonce unless somebody already does. */
  function Entered(s: State, r: Request): State {
    s.(owners := if r.nonce in s.owners then s.owners else s.owners[r.nonce := r.id],
       pending := s.pending[r.id := r])
  }

  // ----- resolving -------------------------------------------------------------------------------

  predicate Resolves(s: State, nonce: Nonce, now: int) {
    && nonce != "" && nonce in s.owners && s.owners[nonce] in s.pending
    && s.pending[s.owners[nonce]].nonce == nonce && Unexpired(s.pending[s.owners[nonce]], now)
  }

  function Forgotten(s: State, nonce: Nonce): State {
    s.(owners := s.owners - {nonce},
       pending := map id | id in s.pending && s.pending[id].nonce != nonce :: s.pending[id])
  }

  /** `resolve_callback`, for a trimmed nonce. */
  function Resolved(s: State, nonce: Nonce, consume: bool, now: int): State {
    if nonce != "" && (!Resolves(s, nonce, now) || consume) then Forgotten(s, nonce) else s
  }

  // ----- runs ------------------------------------------------------------------------------------

  /** Each event reads the clock under the lock. */
  datatype Event =
    | Register(request: Request, blank: bool, heir: Option<Id>, now: int)
    | ClearPending(id: Id, heir: Option<Id>, now: int)
    | Pending(id: Id, heir: Option<Id>, now: int)
    | Resolve(nonce: Nonce, consume: bool, now: int)
    | Shutdown(now: int)

  predicate Enabled(s: State, e: Event, clock: int) {
    clock <= e.now &&
    match e
    case Register(r, _, heir, now) => MayInherit(s, r.id, heir, now)
    case ClearPending(id, heir, now) => MayInherit(s, id, heir, now)
    case Pending(id, heir, now) => MayInherit(s, id, heir, now)
    case _ => true
  }

  function Next(s: State, e: Event): State {
    match e
    case Register(r, blank, heir, now) => Registered(s, r, blank, heir)
    case ClearPending(id, heir, now) => Removed(s, id, heir)
    case Pending(id, heir, now) =>
      if id in s.pending && !Unexpired(s.pending[id], now) then Removed(s, id, heir) else s
    case Resolve(nonce, consume, now) => Resolved(s, nonce, consume, now)
    case Shutdown(_) => State(true, map[], map[])
  }

  ghost predicate Run(s: State, clock: int, events: seq<Event>, s': State, clock': int)
    decreases |events|
  {
    if events == [] then s == s' && clock == clock'
    else Enabled(s, events[0], clock) && Run(Next(s, events[0]), events[0].now, events[1..], s', clock')
  }

  // ----- the invariant ---------------------------------------------------------------------------

  /** An owner always names a pending request that carries the nonce. */
  ghost predicate OwnersPending(s: State) {
    forall n | n in s.owners :: s.owners[n] in s.pending && s.pending[s.owners[n]].nonce == n
  }

  /** The nonce of an unexpired request always has an owner. */
  ghost predicate UnexpiredOwned(s: State, now: int) {
    forall id | id in s.pending && Unexpired(s.pending[id], now) :: s.pending[id].nonce in s.owners
  }

  ghost predicate KeyedById(s: State) { forall id | id in s.pending :: s.pending[id].id == id }

  ghost predicate Inv(s: State, now: int) { OwnersPending(s) && UnexpiredOwned(s, now) && KeyedById(s) }

  lemma {:induction false} RemovedKeepsInv(s: State, id: Id, heir: Option<Id>, now: int)
    requires Inv(s, now) && MayInherit(s, id, heir, now)
    ensures Inv(Removed(s, id, heir), now)
  {
    var s' := Removed(s, id, heir);
    if id in s.pending && heir.None? {
      var nonce := s.pending[id].nonce;
      assert forall i | i in s'.pending && s'.pending[i].nonce == nonce :: !Candidate(Without(s, id), nonce, i, now);
    }
  }

  lemma {:induction false} EnteredKeepsInv(s: State, r: Request, now: int)
    requires Inv(s, now)
    requires r.id in s.pending ==> s.pending[r.id].nonce == r.nonce
    ensures Inv(Entered(s, r), now)
  {
    var s' := Entered(s, r);
    assert OwnersPending(s') by {
      hide UnexpiredOwned, KeyedById;
      forall n | n in s'.owners ensures s'.owners[n] in s'.pending && s'.pending[s'.owners[n]].nonce == n {
        if n in s.owners && s.owners[n] == r.id {
          assert s.pending[r.id].nonce == n;
        }
      }
    }
    assert UnexpiredOwned(s', now) by { hide OwnersPending, KeyedById; }
    assert KeyedById(s') by { hide OwnersPending, UnexpiredOwned; }
  }

  lemma {:induction false} RegisteredKeepsInv(s: State, r: Request, blank: bool, heir: Option<Id>, now: int)
    requires Inv(s, now) && MayInherit(s, r.id, heir, now)
    ensures Inv(Registered(s, r, blank, heir), now)
  {
    if Accepted(s, r, blank) {
      RemovedKeepsInv(s, r.id, heir, now);
      var s1 := if Supersedes(s, r) then Removed(s, r.id, heir) else s;
      hide Taken, Inv;
      EnteredKeepsInv(s1, r, now);
    }
  }

  lemma {:induction false} StepKeepsInv(s: State, e: Event, clock: int)
    requires Inv(s, clock) && Enabled(s, e, clock)
    ensures Inv(Next(s, e), e.now)
  {
    assert Inv(s, e.now);
    match e
    case Register(r, blank, heir, now) => RegisteredKeepsInv(s, r, blank, heir, now);
    case ClearPending(id, heir, now) => RemovedKeepsInv(s, id, heir, now);
    case Pending(id, heir, now) => RemovedKeepsInv(s, id, heir, now);
    case Resolve(nonce, consume, now) =>
    case Shutdown(_) =>
  }

  lemma {:induction false} RunKeepsInv(s: State, clock: int, events: seq<Event>, s': State, clock': int)
    requires Inv(s, clock) && Run(s, clock, events, s', clock')
    ensures Inv(s', clock') && clock <= clock'
    decreases |events|
  {
    if events != [] {
      StepKeepsInv(s, events[0], clock);
      hide Next, Inv;
      RunKeepsInv(Next(s, events[0]), events[0].now, events[1..], s', clock');
    }
  }

  /** Over every run: owners name pending requests that carry their nonce, and no unexpired request is
      without an owner; so a callback resolves exactly when its owner has not expired. */
  lemma {:induction false} EveryReachableState(events: seq<Event>, s: State, start: int, now: int)
    requires Run(EMPTY, start, events, s, now)
    ensures forall n | n in s.owners :: s.owners[n] in s.pending && s.pending[s.owners[n]].nonce == n
    ensures forall id | id in s.pending && Unexpired(s.pending[id], now) :: s.pending[id].nonce in s.owners
    ensures forall n | n in s.owners && n != "" ::
              Resolves(s, n, now) <==> now - s.pending[s.owners[n]].created < 180 * 1_000_000_000
  {
    RunKeepsInv(EMPTY, start, events, s, now);
  }

  /** In every reachable state, a request is refused exactly if it is blank, the registry is closed, or its nonce
      belongs to another extension whose own request is not the very same one. */
  lemma {:induction false} RefusedExactly(events: seq<Event>, s: State, start: int, now: int, r: Request, blank: bool,
                                          heir: Option<Id>)
    requires Run(EMPTY, start, events, s, now)
    ensures r.nonce in s.owners ==> s.owners[r.nonce] in s.pending
    ensures !Accepted(s, r, blank) <==>
              || blank || s.closed
              || (r.nonce in s.owners && s.owners[r.nonce] != r.id &&
                  s.pending[s.owners[r.nonce]].(id := r.id) != r)
    ensures !Accepted(s, r, blank) ==> Registered(s, r, blank, heir) == s
    ensures Accepted(s, r, blank) ==> var s' := Registered(s, r, blank, heir);
              r.id in s'.pending && s'.pending[r.id] == r && r.nonce in s'.owners
  {
    RunKeepsInv(EMPTY, start, events, s, now);
  }

  /** An unexpired request keeps its nonce until it is resolved, cleared or superseded by its own extension. */
  lemma {:induction false} OwnerKeepsNonce(s: State, e: Event, clock: int, nonce: Nonce)
    requires Inv(s, clock) && Enabled(s, e, clock) && nonce in s.owners && Unexpired(s.pending[s.owners[nonce]], e.now)
    requires e.Register? ==> e.request.id != s.owners[nonce] || e.request.nonce == nonce
    requires e.ClearPending? ==> e.id != s.owners[nonce]
    requires e.Resolve? ==> e.nonce != nonce || (!e.consume && nonce != "")
    requires !e.Shutdown?
    ensures nonce in Next(s, e).owners && Next(s, e).owners[nonce] == s.owners[nonce]
  {
    hide Taken, MayInherit;
  }

  // ----- once only -------------------------------------------------------------------------------

  /** Nothing in the registry carries the nonce. */
  predicate Absent(s: State, nonce: Nonce) {
    nonce !in s.owners && forall id | id in s.pending :: s.pending[id].nonce != nonce
  }

  /** Some accepted registration of the nonce happens during the run. */
  ghost predicate RegisteredDuring(s: State, events: seq<Event>, nonce: Nonce)
    decreases |events|
  {
    events != [] &&
    var e := events[0];
    || (e.Register? && e.request.nonce == nonce && Accepted(s, e.request, e.blank))
    || RegisteredDuring(Next(s, e), events[1..], nonce)
  }

  lemma {:induction false} StepKeepsAbsent(s: State, e: Event, clock: int, nonce: Nonce)
    requires Enabled(s, e, clock) && Absent(s, nonce)
    requires e.Register? ==> e.request.nonce != nonce || !Accepted(s, e.request, e.blank)
    ensures Absent(Next(s, e), nonce)
  {
    hide Taken;
  }

  lemma {:induction false} AbsentUntilRegistered(s: State, clock: int, events: seq<Event>, s': State, clock': int,
                                                 nonce: Nonce)
    requires Absent(s, nonce) && Run(s, clock, events, s', clock')
    ensures Absent(s', nonce) || RegisteredDuring(s, events, nonce)
    decreases |events|
  {
    if events != [] && !RegisteredDuring(s, events, nonce) {
      StepKeepsAbsent(s, events[0], clock, nonce);
      AbsentUntilRegistered(Next(s, events[0]), events[0].now, events[1..], s', clock', nonce);
    }
  }

  /** Two callbacks that succeed, the first consuming, are separated by a new registration of the nonce. */
  lemma {:induction false} ConsumedOnce(s: State, nonce: Nonce, first: int, events: seq<Event>, s': State, last: int,
                                        second: int)
    requires Resolves(s, nonce, first)
    requires Run(Resolved(s, nonce, true, first), first, events, s', last)
    requires Resolves(s', nonce, second)
    ensures RegisteredDuring(Resolved(s, nonce, true, first), events, nonce)
  {
    assert Absent(Resolved(s, nonce, true, first), nonce);
    AbsentUntilRegistered(Resolved(s, nonce, true, first), first, events, s', last, nonce);
  }

  /** A failed callback, too, leaves nothing that carries its nonce. */
  lemma {:induction false} FailedCallbackForgets(s: State, nonce: Nonce, consume: bool, now: int)
    requires nonce != ""
    ensures Absent(Resolved(s, nonce, consume, now), nonce) <==>
              !Resolves(s, nonce, now) || consume
  {}

  // ----- the program -----------------------------------------------------------------------------

  /** The registry's maps, updated in place under its lock. */
  class AuthRegistry {
    var closed: bool
    var pending: map<Id, Request>
    var owners: map<Nonce, Id>

    function Model(): State
      reads this
    {
      State(closed, pending, owners)
    }

    constructor ()
      ensures Model() == EMPTY
    {
      closed, pending, owners := false, map[], map[];
    }

    /** `pending.iter().find(...)`. */
    method FindHeir(nonce: Nonce, now: int) returns (heir: Option<Id>)
      ensures Inherits(Model(), nonce, heir, now)
    {
      heir := None;
      var rest := pending.Keys;
      while rest != {}
        invariant rest <= pending.Keys
        invariant forall id | id in pending && id !in rest :: !Candidate(Model(), nonce, id, now)
        decreases rest
      {
        var id :| id in rest;
        if pending[id].nonce == nonce && Unexpired(pending[id], now) {
          return Some(id);
        }
        rest := rest - {id};
      }
    }

    method RemovePending(id: Id, now: int) returns (ghost heir: Option<Id>)
      modifies this`pending, this`owners
      ensures MayInherit(old(Model()), id, heir, now)
      ensures Model() == Removed(old(Model()), id, heir)
    {
      var found := None;
      heir := None;
      if id !in pending {
        return;
      }
      var request := pending[id];
      pending := pending - {id};
      if request.nonce !in owners || owners[request.nonce] != id {
        heir := FindHeirGhost(request.nonce, now);
        return;
      }
      owners := owners - {request.nonce};
      found := FindHeir(request.nonce, now);
      heir := found;
      if found.Some? {
        owners := owners[request.nonce := found.value];
        assert owners == old(owners)[request.nonce := found.value];
      }
    }

    /** Who would have inherited. */
    ghost method FindHeirGhost(nonce: Nonce, now: int) returns (heir: Option<Id>)
      ensures Inherits(Model(), nonce, heir, now)
    {
      if id :| id in pending && Candidate(Model(), nonce, id, now) {
        heir := Some(id);
      } else {
        heir := None;
      }
    }

    method RegisterPending(r: Request, blank: bool, now: int) returns (ok: bool, ghost heir: Option<Id>)
      modifies this
      ensures MayInherit(old(Model()), r.id, heir, now)
      ensures ok == Accepted(old(Model()), r, blank)
      ensures Model() == Registered(old(Model()), r, blank, heir)
    {
      heir := HeirOf(r.id, now);
      if blank || closed {
        return false, heir;
      }
      if r.nonce in owners && owners[r.nonce] != r.id {
        var owner := owners[r.nonce];
        var same := owner in pending && pending[owner].nonce == r.nonce && pending[owner].authUrl == r.authUrl
                    && pending[owner].callbackUrl == r.callbackUrl && pending[owner].created == r.created;
        if !same {
          return false, heir;
        }
      }
      if r.id in pending && pending[r.id].nonce != r.nonce {
        heir := RemovePending(r.id, now);
      }
      if r.nonce !in owners {
        owners := owners[r.nonce := r.id];
      }
      pending := pending[r.id := r];
      ok := true;
    }

    ghost method HeirOf(id: Id, now: int) returns (heir: Option<Id>)
      ensures MayInherit(Model(), id, heir, now)
    {
      heir := None;
      if id in pending {
        var s := Without(Model(), id);
        if i :| i in s.pending && Candidate(s, pending[id].nonce, i, now) {
          heir := Some(i);
        }
      }
    }

    /** The request waiting under an ID, dropped first if it has expired. */
    method Lookup(id: Id, now: int) returns (request: Option<Request>, ghost heir: Option<Id>)
      modifies this`pending, this`owners
      ensures MayInherit(old(Model()), id, heir, now)
      ensures Model() == Next(old(Model()), Pending(id, heir, now))
      ensures request == if id in pending then Some(pending[id]) else None
      ensures if id in old(pending) && now - old(pending)[id].created < 180 * 1_000_000_000
              then request == Some(old(pending)[id]) else request == None
    {
      heir := HeirOf(id, now);
      if id in pending && !Unexpired(pending[id], now) {
        heir := RemovePending(id, now);
      }
      request := if id in pending then Some(pending[id]) else None;
    }

    /** `resolve_callback`, for a trimmed nonce. */
    method ResolveCallback(nonce: Nonce, consume: bool, now: int) returns (owner: Option<Id>)
      modifies this`pending, this`owners
      ensures Model() == Resolved(old(Model()), nonce, consume, now)
      ensures owner == if Resolves(old(Model()), nonce, now) then Some(old(owners)[nonce]) else None
    {
      owner := None;
      if nonce == "" {
        return;
      }
      if nonce in owners && owners[nonce] in pending && pending[owners[nonce]].nonce == nonce
         && Unexpired(pending[owners[nonce]], now) {
        owner := Some(owners[nonce]);
      }
      if owner.None? || consume {
        owners := owners - {nonce};
        pending := map id | id in pending && pending[id].nonce != nonce :: pending[id];
      }
    }
  }
}
