/**
  The queue of FFmpeg commands (rust_backend/crates/extensions/src/ffmpeg.rs). Executors put commands in and
  wait; pumps claim them and hand results back, perhaps late, twice, or for a command that is gone.

  Every section under the registry's lock is one step. A thread that leaves its waiting loop lets go of the
  lock before its `Pending` guard takes its command out, so other steps may come between.
*/
module Commands {
  import opened Options

  type Id = string

  datatype Command = Command(id: Id, extension: string, arguments: seq<string>, input: string, output: string)

  datatype CommandResult = CommandResult(success: bool, output: string, error: string)

  datatype Entry = Entry(command: Command, claimed: bool, result: Option<CommandResult>)

  datatype State = State(commands: map<Id, Entry>, closed: bool)

  const EMPTY := State(map[], false)

  // ----- command IDs -----------------------------------------------------------------------------

  function DigitChar(d: nat): char
    requires d < 10
  {
    '0' + d as char
  }

  function Decimal(n: nat): (s: string)
    ensures s != [] && '_' !in s
  {
    if n < 10 then [DigitChar(n)] else Decimal(n / 10) + [DigitChar(n % 10)]
  }

  function IdOf(extension: string, sequence: nat): Id { extension + "_" + Decimal(sequence) }

  lemma {:induction false} DigitInjective(a: nat, b: nat)
    requires a < 10 && b < 10 && DigitChar(a) == DigitChar(b)
    ensures a == b
  {
    assert (DigitChar(a) as int) - ('0' as int) == a;
    assert (DigitChar(b) as int) - ('0' as int) == b;
  }

  lemma {:induction false} DecimalInjective(a: nat, b: nat)
    requires Decimal(a) == Decimal(b)
    ensures a == b
  {
    var s, t := Decimal(a), Decimal(b);
    assert s[|s| - 1] == DigitChar(a % 10) && t[|t| - 1] == DigitChar(b % 10);
    DigitInjective(a % 10, b % 10);
    if a >= 10 && b >= 10 {
      assert s[..|s| - 1] == Decimal(a / 10) && t[..|t| - 1] == Decimal(b / 10);
      DecimalInjective(a / 10, b / 10);
    } else if a >= 10 || b >= 10 {
      assert |s| == |t|;
    }
  }

  /** Underscores and digits in an extension's own name cannot make two IDs meet. */
  lemma {:induction false} IdInjective(e: string, n: nat, f: string, m: nat)
    requires IdOf(e, n) == IdOf(f, m)
    ensures e == f && n == m
  {
    var s, d, g := IdOf(e, n), Decimal(n), Decimal(m);
    assert s[|e|] == '_' && s[|f|] == '_';
    assert forall k | |e| < k < |s| :: s[k] == d[k - |e| - 1] != '_';
    assert forall k | |f| < k < |s| :: s[k] == g[k - |f| - 1] != '_';
    assert |e| == |f|;
    assert e == s[..|e|] && f == s[..|f|];
    assert d == s[|e| + 1..] && g == s[|f| + 1..];
    DecimalInjective(n, m);
  }

  // ----- steps under the lock --------------------------------------------------------------------

  /** `pending` lists these. */
  predicate Listed(e: Entry) { !e.claimed && e.result.None? }

  function ListedIds(s: State): set<Id> { set id | id in s.commands && Listed(s.commands[id]) }

  function Claimed(s: State): State {
    s.(commands := map id | id in s.commands ::
         if Listed(s.commands[id]) then s.commands[id].(claimed := true) else s.commands[id])
  }

  predicate Completes(s: State, id: Id) { !s.closed && id in s.commands && s.commands[id].result.None? }

  function Completed(s: State, id: Id, r: CommandResult): State {
    if Completes(s, id) then s.(commands := s.commands[id := s.commands[id].(result := Some(r))]) else s
  }

  function Inserted(s: State, id: Id, c: Command): State {
    if s.closed then s else s.(commands := s.commands[id := Entry(c, false, None)])
  }

  function Without(s: State, id: Id): State { s.(commands := s.commands - {id}) }

  const SHUT := State(map[], true)

  /** `get`: nothing if the registry is closed, else the command if it is there. */
  function Found(s: State, id: Id): Option<Option<Command>> {
    if s.closed then None else Some(if id in s.commands then Some(s.commands[id].command) else None)
  }

  datatype Outcome = Finished(result: CommandResult) | Cancelled | Closed | TimedOut

  /** One pass of the waiting loop: `None` waits on. */
  function Polled(s: State, id: Id, cancelled: bool, late: bool): (State, Option<Outcome>) {
    if cancelled then (s, Some(Cancelled))
    else if s.closed then (s, Some(Closed))
    else if id in s.commands && s.commands[id].result.Some? then
      (Without(s, id), Some(Finished(s.commands[id].result.value)))
    else if late then (s, Some(TimedOut))
    else (s, None)
  }

  // ----- all threads -----------------------------------------------------------------------------

  datatype Phase = Begun | Waiting | Leaving(outcome: Outcome) | Done(outcome: Outcome)

  datatype Executor = Executor(extension: string, phase: Phase)

  /** Executors go by their sequence number, drawn from a counter that all registries share. What is logged:
      every ID ever put in, each claim, and each result that was accepted. */
  datatype System = System(counter: nat, state: State, executors: map<nat, Executor>,
                           inserted: set<Id>, claims: seq<set<Id>>, accepted: seq<(Id, CommandResult)>)

  const START := System(0, EMPTY, map[], {}, [], [])

  datatype Event =
    | Begin(extension: string)                                // execute: draws the next number
    | Elsewhere                                               // another registry draws it
    | Insert(n: nat, command: Command)
    | Poll(n: nat, cancelled: bool, late: bool)
    | Leave(n: nat)                                           // `Pending` is dropped
    | Claim                                                   // one pass of a pump's wait
    | Complete(id: Id, result: CommandResult)
    | Shutdown

  predicate InPhase(y: System, n: nat, p: Phase) { n in y.executors && y.executors[n].phase == p }

  predicate Enabled(y: System, e: Event) {
    match e
    case Insert(n, c) => InPhase(y, n, Begun) && c.id == IdOf(y.executors[n].extension, n)
    case Poll(n, _, _) => InPhase(y, n, Waiting)
    case Leave(n) => n in y.executors && y.executors[n].phase.Leaving?
    case _ => true
  }

  function Moved(y: System, n: nat, p: Phase): map<nat, Executor>
    requires n in y.executors
  {
    y.executors[n := y.executors[n].(phase := p)]
  }

  function Next(y: System, e: Event): System
    requires Enabled(y, e)
  {
    match e
    case Begin(extension) =>
      y.(counter := y.counter + 1, executors := y.executors[y.counter + 1 := Executor(extension, Begun)])
    case Elsewhere => y.(counter := y.counter + 1)
    case Insert(n, c) =>
      if y.state.closed then y.(executors := Moved(y, n, Done(Closed)))
      else y.(state := Inserted(y.state, c.id, c), executors := Moved(y, n, Waiting), inserted := y.inserted + {c.id})
    case Poll(n, cancelled, late) =>
      var (state, out) := Polled(y.state, IdOf(y.executors[n].extension, n), cancelled, late);
      y.(state := state, executors := if out.Some? then Moved(y, n, Leaving(out.value)) else y.executors)
    case Leave(n) =>
      y.(state := Without(y.state, IdOf(y.executors[n].extension, n)),
         executors := Moved(y, n, Done(y.executors[n].phase.outcome)))
    case Claim =>
      if y.state.closed then y else y.(state := Claimed(y.state), claims := y.claims + [ListedIds(y.state)])
    case Complete(id, r) =>
      y.(state := Completed(y.state, id, r),
         accepted := if Completes(y.state, id) then y.accepted + [(id, r)] else y.accepted)
    case Shutdown => y.(state := SHUT)
  }

  ghost predicate Run(y: System, events: seq<Event>, y': System)
    decreases |events|
  {
    if events == [] then y == y' else Enabled(y, events[0]) && Run(Next(y, events[0]), events[1..], y')
  }

  // ----- the invariant ---------------------------------------------------------------------------

  /** Numbers are drawn once; nobody has put in a command of an executor that has only begun. */
  ghost predicate Numbered(y: System) {
    && (forall n | n in y.executors :: n <= y.counter)
    && (forall n | n in y.executors && y.executors[n].phase == Begun ::
          IdOf(y.executors[n].extension, n) !in y.inserted)
  }

  /** Every ID ever put in is some executor's, and commands are never put in twice. */
  ghost predicate Known(y: System) {
    && y.state.commands.Keys <= y.inserted
    && (forall id | id in y.inserted :: exists n :: n in y.executors && id == IdOf(y.executors[n].extension, n))
    && (forall id | id in y.state.commands :: y.state.commands[id].command.id == id)
  }

  /** What was claimed is marked, or gone; and no two claims share a command. */
  ghost predicate ClaimedOnce(y: System) {
    && (forall k, id | 0 <= k < |y.claims| && id in y.claims[k] ::
          id in y.inserted && (id in y.state.commands ==> y.state.commands[id].claimed))
    && (forall j, k, id | 0 <= j < k < |y.claims| && id in y.claims[j] :: id !in y.claims[k])
  }

  /** What is marked was claimed. */
  ghost predicate MarkedWasClaimed(y: System) {
    forall id | id in y.state.commands && y.state.commands[id].claimed ::
      exists k :: 0 <= k < |y.claims| && id in y.claims[k]
  }

  /** Results in the queue are those accepted, and none is accepted twice for one ID. */
  ghost predicate AcceptedOnce(y: System) {
    && (forall k | 0 <= k < |y.accepted| :: y.accepted[k].0 in y.inserted)
    && (forall k | 0 <= k < |y.accepted| :: y.accepted[k].0 in y.state.commands ==>
          y.state.commands[y.accepted[k].0].result == Some(y.accepted[k].1))
    && (forall j, k | 0 <= j < k < |y.accepted| :: y.accepted[j].0 != y.accepted[k].0)
    && (forall id | id in y.state.commands && y.state.commands[id].result.Some? ::
          (id, y.state.commands[id].result.value) in y.accepted)
  }

  predicate Got(p: Phase, r: CommandResult) { p == Leaving(Finished(r)) || p == Done(Finished(r)) }

  /** What an executor came back with was accepted for its own command. */
  ghost predicate OwnResults(y: System) {
    forall n, r | n in y.executors && Got(y.executors[n].phase, r) ::
      (IdOf(y.executors[n].extension, n), r) in y.accepted
  }

  /** The command of an executor that has returned is gone. */
  ghost predicate DoneGone(y: System) {
    forall n | n in y.executors && y.executors[n].phase.Done? :: IdOf(y.executors[n].extension, n) !in y.state.commands
  }

  /** The command of an executor that waits is there, unless the registry is closed. */
  ghost predicate WaitersThere(y: System) {
    !y.state.closed ==>
      forall n | n in y.executors && y.executors[n].phase == Waiting ::
        IdOf(y.executors[n].extension, n) in y.state.commands
  }

  ghost predicate Inv(y: System) {
    && Numbered(y) && Known(y) && ClaimedOnce(y) && MarkedWasClaimed(y) && AcceptedOnce(y) && OwnResults(y)
    && DoneGone(y) && WaitersThere(y)
  }

  lemma {:induction false} StepMarkedWasClaimed(y: System, e: Event)
    requires MarkedWasClaimed(y) && Enabled(y, e)
    ensures MarkedWasClaimed(Next(y, e))
  {
    hide IdOf;
    var y' := Next(y, e);
    assert |y.claims| <= |y'.claims| && forall k | 0 <= k < |y.claims| :: y'.claims[k] == y.claims[k];
    forall id | id in y'.state.commands && y'.state.commands[id].claimed
      ensures exists k :: 0 <= k < |y'.claims| && id in y'.claims[k]
    {
      if id in y.state.commands && y.state.commands[id].claimed {
        var k :| 0 <= k < |y.claims| && id in y.claims[k];
        assert id in y'.claims[k];
      } else {
        assert e.Claim? && id in y'.claims[|y.claims|];
      }
    }
  }

  lemma {:induction false} StepNumbered(y: System, e: Event)
    requires Numbered(y) && Known(y) && Enabled(y, e)
    ensures Numbered(Next(y, e))
  {
    hide IdOf, Claimed, Completed, Polled;
    var y' := Next(y, e);
    forall n | n in y'.executors && y'.executors[n].phase == Begun
      ensures IdOf(y'.executors[n].extension, n) !in y'.inserted
    {
      if IdOf(y'.executors[n].extension, n) in y'.inserted {
        var id := IdOf(y'.executors[n].extension, n);
        if id in y.inserted {
          var m :| m in y.executors && id == IdOf(y.executors[m].extension, m);
          IdInjective(y'.executors[n].extension, n, y.executors[m].extension, m);
        } else {
          IdInjective(y'.executors[n].extension, n, y.executors[e.n].extension, e.n);
        }
      }
    }
  }

  lemma {:induction false} StepKnown(y: System, e: Event)
    requires Numbered(y) && Known(y) && Enabled(y, e)
    ensures Known(Next(y, e))
  {
    hide IdOf, Listed;
    var y' := Next(y, e);
    assert forall n | n in y.executors :: n in y'.executors && y'.executors[n].extension == y.executors[n].extension;
    forall id | id in y'.inserted ensures exists n :: n in y'.executors && id == IdOf(y'.executors[n].extension, n) {
      if id in y.inserted {
        var n :| n in y.executors && id == IdOf(y.executors[n].extension, n);
        assert n in y'.executors && id == IdOf(y'.executors[n].extension, n);
      } else {
        assert id == IdOf(y'.executors[e.n].extension, e.n);
      }
    }
  }

  lemma {:induction false} StepClaimedOnce(y: System, e: Event)
    requires Numbered(y) && Known(y) && ClaimedOnce(y) && Enabled(y, e)
    ensures ClaimedOnce(Next(y, e))
  {
    hide IdOf;
  }

  lemma {:induction false} StepAcceptedOnce(y: System, e: Event)
    requires Numbered(y) && Known(y) && AcceptedOnce(y) && Enabled(y, e)
    ensures AcceptedOnce(Next(y, e))
  {
    hide IdOf;
  }

  lemma {:induction false} StepOwnResults(y: System, e: Event)
    requires AcceptedOnce(y) && OwnResults(y) && Enabled(y, e) && Numbered(y)
    ensures OwnResults(Next(y, e))
  {
    hide IdOf;
  }

  lemma {:induction false} StepDoneGone(y: System, e: Event)
    requires Numbered(y) && Known(y) && DoneGone(y) && Enabled(y, e)
    ensures DoneGone(Next(y, e))
  {
    var y' := Next(y, e);
    hide IdOf, Listed;
    forall n | n in y'.executors && y'.executors[n].phase.Done?
      ensures IdOf(y'.executors[n].extension, n) !in y'.state.commands
    {
      if e.Insert? && n != e.n && IdOf(y'.executors[n].extension, n) == e.command.id {
        IdInjective(y'.executors[n].extension, n, y.executors[e.n].extension, e.n);
      }
    }
  }

  lemma {:induction false} StepWaitersThere(y: System, e: Event)
    requires Numbered(y) && WaitersThere(y) && Enabled(y, e)
    ensures WaitersThere(Next(y, e))
  {
    var y' := Next(y, e);
    hide IdOf, Listed;
    forall n | !y'.state.closed && n in y'.executors && y'.executors[n].phase == Waiting
      ensures IdOf(y'.executors[n].extension, n) in y'.state.commands
    {
      if (e.Poll? || e.Leave?) && IdOf(y'.executors[n].extension, n) == IdOf(y.executors[e.n].extension, e.n) {
        IdInjective(y'.executors[n].extension, n, y.executors[e.n].extension, e.n);
      }
    }
  }

  lemma {:induction false} StepKeepsInv(y: System, e: Event)
    requires Inv(y) && Enabled(y, e)
    ensures Inv(Next(y, e))
  {
    StepNumbered(y, e);
    StepKnown(y, e);
    StepClaimedOnce(y, e);
    StepMarkedWasClaimed(y, e);
    StepAcceptedOnce(y, e);
    StepOwnResults(y, e);
    StepDoneGone(y, e);
    StepWaitersThere(y, e);
    hide Next, Enabled, Numbered, Known, ClaimedOnce, MarkedWasClaimed, AcceptedOnce, OwnResults, DoneGone;
    hide WaitersThere;
  }

  lemma {:induction false} RunKeepsInv(y: System, events: seq<Event>, y': System)
    requires Inv(y) && Run(y, events, y')
    ensures Inv(y')
    decreases |events|
  {
    if events != [] {
      StepKeepsInv(y, events[0]);
      hide Inv, Next, Enabled;
      RunKeepsInv(Next(y, events[0]), events[1..], y');
    }
  }

  // ----- over every run --------------------------------------------------------------------------

  lemma {:induction false} EveryReachableState(events: seq<Event>, y: System)
    requires Run(START, events, y)
    ensures Inv(y)
  {
    RunKeepsInv(START, events, y);
  }

  /** No two executors, whatever their extensions are called, wait under one ID. */
  lemma {:induction false} IdsAreUnique(y: System, n: nat, m: nat)
    requires n in y.executors && m in y.executors
    ensures IdOf(y.executors[n].extension, n) == IdOf(y.executors[m].extension, m) <==> n == m
  {
    if IdOf(y.executors[n].extension, n) == IdOf(y.executors[m].extension, m) {
      IdInjective(y.executors[n].extension, n, y.executors[m].extension, m);
    }
  }

  /** However many pumps claim, a command is in at most one claim. */
  lemma {:induction false} ClaimedAtMostOnce(events: seq<Event>, y: System, j: nat, k: nat, id: Id)
    requires Run(START, events, y)
    requires j < |y.claims| && k < |y.claims| && id in y.claims[j] && id in y.claims[k]
    ensures j == k
  {
    EveryReachableState(events, y);
  }

  /** An executor that comes back with a result has the one result that was accepted for its own command. */
  lemma {:induction false} ExecutorsGetTheirOwn(events: seq<Event>, y: System, n: nat, r: CommandResult)
    requires Run(START, events, y) && n in y.executors && Got(y.executors[n].phase, r)
    ensures exists k :: 0 <= k < |y.accepted| && y.accepted[k] == (IdOf(y.executors[n].extension, n), r)
    ensures forall k | 0 <= k < |y.accepted| && y.accepted[k].0 == IdOf(y.executors[n].extension, n) ::
              y.accepted[k].1 == r
  {
    EveryReachableState(events, y);
    var id := IdOf(y.executors[n].extension, n);
    hide IdOf;
    assert (id, r) in y.accepted;
    var k :| 0 <= k < |y.accepted| && y.accepted[k] == (id, r);
    forall j | 0 <= j < |y.accepted| && y.accepted[j].0 == id ensures y.accepted[j].1 == r {
      assert j == k;
    }
  }

  lemma {:induction false} StepKeepsGone(y: System, e: Event, id: Id)
    requires Inv(y) && Enabled(y, e) && id in y.inserted && id !in y.state.commands
    ensures id in Next(y, e).inserted && id !in Next(y, e).state.commands
    ensures y.accepted <= Next(y, e).accepted
    ensures forall k | |y.accepted| <= k < |Next(y, e).accepted| :: Next(y, e).accepted[k].0 != id
  {
    hide IdOf, Listed, ClaimedOnce, AcceptedOnce, OwnResults;
  }

  /** A command that was put in and is gone, by its result, by cancellation, by timeout or by shutdown, never
      comes back, and no result completes it. */
  lemma {:induction false} GoneForGood(y: System, events: seq<Event>, y': System, id: Id)
    requires Inv(y) && Run(y, events, y') && id in y.inserted && id !in y.state.commands
    ensures id in y'.inserted && id !in y'.state.commands && !Completes(y'.state, id)
    ensures y.accepted <= y'.accepted
    ensures forall k | |y.accepted| <= k < |y'.accepted| :: y'.accepted[k].0 != id
    decreases |events|
  {
    if events != [] {
      StepKeepsInv(y, events[0]);
      StepKeepsGone(y, events[0], id);
      hide Inv, Next, Enabled;
      GoneForGood(Next(y, events[0]), events[1..], y', id);
    }
  }

  /** In every reachable state the command of an executor that has returned is gone, so nothing claims or
      completes it any more. */
  lemma {:induction false} DoneIsGone(events: seq<Event>, y: System, n: nat)
    requires Run(START, events, y) && n in y.executors && y.executors[n].phase.Done?
    ensures var id := IdOf(y.executors[n].extension, n);
            id !in y.state.commands && id !in ListedIds(y.state) && !Completes(y.state, id)
  {
    EveryReachableState(events, y);
  }

  /** What a pump learns from `get` in every reachable state of an open registry: the command is there while
      its executor waits, and not before it was put in nor after the executor returned. */
  lemma {:induction false} GetTellsThePump(events: seq<Event>, y: System, n: nat)
    requires Run(START, events, y) && n in y.executors && !y.state.closed
    ensures var found := Found(y.state, IdOf(y.executors[n].extension, n));
            && found.Some?
            && (y.executors[n].phase == Waiting ==> found.value.Some?)
            && (found.value.Some? ==> y.executors[n].phase == Waiting || y.executors[n].phase.Leaving?)
            && (found.value.Some? ==> found.value.value.id == IdOf(y.executors[n].extension, n))
  {
    EveryReachableState(events, y);
    hide IdOf;
  }

  lemma {:induction false} StepKeepsAccepted(y: System, e: Event)
    requires Enabled(y, e)
    ensures y.accepted <= Next(y, e).accepted
  {
    hide IdOf, Listed;
  }

  lemma {:induction false} RunKeepsAccepted(y: System, events: seq<Event>, y': System)
    requires Run(y, events, y')
    ensures y.accepted <= y'.accepted
    decreases |events|
  {
    if events != [] {
      StepKeepsAccepted(y, events[0]);
      hide Next, Enabled;
      RunKeepsAccepted(Next(y, events[0]), events[1..], y');
    }
  }

  /** Over every run, the first result for a waiting command is accepted, every later one for it is refused,
      and it is the only one its executor can come back with. */
  lemma {:induction false} FirstResultWins(events: seq<Event>, y: System, id: Id, first: CommandResult,
                                           more: seq<Event>, y': System)
    requires Run(START, events, y) && Completes(y.state, id)
    requires Run(Next(y, Complete(id, first)), more, y')
    ensures !Completes(y'.state, id)
    ensures forall k | 0 <= k < |y'.accepted| && y'.accepted[k].0 == id :: y'.accepted[k].1 == first
    ensures forall n, r | n in y'.executors && IdOf(y'.executors[n].extension, n) == id
                          && Got(y'.executors[n].phase, r) ::
              r == first
  {
    EveryReachableState(events, y);
    StepKeepsInv(y, Complete(id, first));
    var next, k := Next(y, Complete(id, first)), |y.accepted|;
    assert next.accepted[k] == (id, first);
    hide Next, Numbered, Known, ClaimedOnce, DoneGone, WaitersThere, IdOf;
    RunKeepsInv(next, more, y');
    RunKeepsAccepted(next, more, y');
    assert y'.accepted[k] == (id, first);
    forall j | 0 <= j < |y'.accepted| && y'.accepted[j].0 == id ensures j == k {}
  }

  /** A command stays as it was put in. */
  lemma {:induction false} StepKeepsCommand(y: System, e: Event, id: Id)
    requires Numbered(y) && Known(y) && Enabled(y, e) && id in y.inserted && id in Next(y, e).state.commands
    ensures id in y.state.commands && Next(y, e).state.commands[id].command == y.state.commands[id].command
    ensures id in Next(y, e).inserted
  {
    hide IdOf, Listed;
  }

  lemma {:induction false} CommandStays(y: System, events: seq<Event>, y': System, id: Id)
    requires Inv(y) && Run(y, events, y') && id in y.inserted && id in y'.state.commands
    ensures id in y.state.commands && y'.state.commands[id].command == y.state.commands[id].command
    decreases |events|
  {
    if events != [] {
      var next := Next(y, events[0]);
      StepKeepsInv(y, events[0]);
      InsertedGrows(y, events[0]);
      hide Inv, Next, Enabled;
      CommandStays(next, events[1..], y', id);
      assert Numbered(y) && Known(y) by { InvParts(y); }
      StepKeepsCommand(y, events[0], id);
    }
  }

  lemma {:induction false} InsertedGrows(y: System, e: Event)
    requires Enabled(y, e)
    ensures y.inserted <= Next(y, e).inserted
  {
    hide IdOf, Listed;
  }

  lemma {:induction false} InvParts(y: System)
    requires Inv(y)
    ensures Numbered(y) && Known(y) && WaitersThere(y) && MarkedWasClaimed(y) && AcceptedOnce(y)
  {}

  /** Over every run: as long as its executor waits in an open registry, a command that no pump has claimed and
      no result was accepted for is in the next claim, just as it was put in. */
  lemma {:induction false} WaitingIsHandedOut(events: seq<Event>, y: System, n: nat, c: Command, more: seq<Event>,
                                              y': System)
    requires Run(START, events, y) && Enabled(y, Insert(n, c)) && !y.state.closed
    requires Run(Next(y, Insert(n, c)), more, y') && !y'.state.closed && InPhase(y', n, Waiting)
    requires c.id == IdOf(y'.executors[n].extension, n)
    requires forall k | 0 <= k < |y'.claims| :: c.id !in y'.claims[k]
    requires forall k | 0 <= k < |y'.accepted| :: y'.accepted[k].0 != c.id
    ensures c.id in ListedIds(y'.state) && y'.state.commands[c.id].command == c
    ensures var z := Next(y', Claim); |z.claims| == |y'.claims| + 1 && c.id in z.claims[|y'.claims|]
    ensures Completes(y'.state, c.id)
  {
    EveryReachableState(events, y);
    var start := Next(y, Insert(n, c));
    StepKeepsInv(y, Insert(n, c));
    assert start.state.commands[c.id].command == c && c.id in start.inserted;
    hide Next, IdOf;
    RunKeepsInv(start, more, y');
    assert c.id in y'.state.commands;
    CommandStays(start, more, y', c.id);
    ListedExactly(y', c.id);
    ClaimTakesListed(y');
  }

  /** Pumps are shown exactly what nobody has claimed and no result was accepted for. */
  lemma {:induction false} ListedExactly(y: System, id: Id)
    requires Inv(y) && !y.state.closed && id in y.state.commands
    ensures id in ListedIds(y.state) <==>
              && (forall k | 0 <= k < |y.claims| :: id !in y.claims[k])
              && (forall k | 0 <= k < |y.accepted| :: y.accepted[k].0 != id)
    ensures Completes(y.state, id) <==> forall k | 0 <= k < |y.accepted| :: y.accepted[k].0 != id
  {
    hide IdOf, Numbered, Known, OwnResults, DoneGone, WaitersThere;
    var e := y.state.commands[id];
    if e.result.Some? {
      assert (id, e.result.value) in y.accepted;
      var k :| 0 <= k < |y.accepted| && y.accepted[k] == (id, e.result.value);
      assert y.accepted[k].0 == id;
    }
  }

  lemma {:induction false} ClaimTakesListed(y: System)
    requires !y.state.closed
    ensures Next(y, Claim).claims == y.claims + [ListedIds(y.state)]
  {}

  /** Nothing but a shutdown stands between an executor and the result accepted for its command: whatever
      happens before its next look, unless it is cancelled then, it leaves with it. */
  lemma {:induction false} AcceptedIsDelivered(y: System, n: nat, r: CommandResult, more: seq<Event>, y': System,
                                               late: bool)
    requires Inv(y) && InPhase(y, n, Waiting) && Completes(y.state, IdOf(y.executors[n].extension, n))
    requires var id := IdOf(y.executors[n].extension, n);
             && Run(Next(y, Complete(id, r)), more, y') && !y'.state.closed && InPhase(y', n, Waiting)
             && y'.executors[n].extension == y.executors[n].extension
    ensures InPhase(Next(y', Poll(n, false, late)), n, Leaving(Finished(r)))
  {
    var id := IdOf(y.executors[n].extension, n);
    var start, k := Next(y, Complete(id, r)), |y.accepted|;
    StepKeepsInv(y, Complete(id, r));
    assert start.accepted[k] == (id, r);
    hide Next, IdOf;
    RunKeepsInv(start, more, y');
    RunKeepsAccepted(start, more, y');
    assert y'.accepted[k] == (id, r);
    assert y'.state.commands[id].result == Some(r) by {
      InvParts(y');
      hide Inv;
    }
    PollFinishes(y', n, late, r);
  }

  lemma {:induction false} PollFinishes(y: System, n: nat, late: bool, r: CommandResult)
    requires InPhase(y, n, Waiting) && !y.state.closed
    requires var id := IdOf(y.executors[n].extension, n);
             id in y.state.commands && y.state.commands[id].result == Some(r)
    ensures InPhase(Next(y, Poll(n, false, late)), n, Leaving(Finished(r)))
  {
    hide IdOf;
  }

  // ----- the program -----------------------------------------------------------------------------

  class CommandRegistry {
    var commands: map<Id, Entry>
    var closed: bool

    function Model(): State
      reads this
    {
      State(commands, closed)
    }

    constructor ()
      ensures Model() == EMPTY
    {
      commands, closed := map[], false;
    }

    method Get(id: Id) returns (r: Option<Option<Command>>)
      ensures r == Found(Model(), id)
    {
      if closed {
        return None;
      }
      r := if id in commands then Some(Some(commands[id].command)) else Some(None);
    }

    /** `State::pending`: lists the commands nobody has claimed, and claims them if asked to. */
    method Pending(claim: bool) returns (listed: map<Id, Command>)
      modifies this`commands
      ensures listed == map id | id in ListedIds(old(Model())) :: old(commands)[id].command
      ensures Model() == if claim then Claimed(old(Model())) else old(Model())
    {
      listed := map[];
      var rest := commands.Keys;
      while rest != {}
        invariant rest <= commands.Keys == old(commands).Keys
        invariant forall id | id in rest :: commands[id] == old(commands)[id]
        invariant forall id | id in commands && id !in rest ::
                    commands[id] == if claim then Claimed(old(Model())).commands[id] else old(commands)[id]
        invariant listed == map id | id in ListedIds(old(Model())) - rest :: old(commands)[id].command
        decreases rest
      {
        var id :| id in rest;
        if !commands[id].claimed && commands[id].result.None? {
          listed := listed[id := commands[id].command];
          if claim {
            commands := commands[id := commands[id].(claimed := true)];
          }
        }
        rest := rest - {id};
      }
      assert ListedIds(old(Model())) - {} == ListedIds(old(Model()));
    }

    /** One pass of `wait_pending_json`. */
    method ClaimPending() returns (listed: Option<map<Id, Command>>)
      modifies this`commands
      ensures if old(closed) then listed == None && Model() == old(Model())
              else listed == Some(map id | id in ListedIds(old(Model())) :: old(commands)[id].command) &&
                   Model() == Claimed(old(Model()))
    {
      if closed {
        return None;
      }
      var found := Pending(true);
      listed := Some(found);
    }

    method Complete(id: Id, result: CommandResult) returns (r: Option<bool>)
      modifies this`commands
      ensures Model() == Completed(old(Model()), id, result)
      ensures r == if old(closed) then None else Some(Completes(old(Model()), id))
    {
      if closed {
        return None;
      }
      if id !in commands {
        return Some(false);
      }
      if commands[id].result.Some? {
        return Some(false);
      }
      commands := commands[id := commands[id].(result := Some(result))];
      r := Some(true);
    }

    method Shutdown()
      modifies this
      ensures Model() == SHUT
    {
      closed := true;
      commands := map[];
    }

    /** The start of `execute`. */
    method Insert(command: Command) returns (ok: bool)
      modifies this`commands
      ensures ok == !old(closed) && Model() == Inserted(old(Model()), command.id, command)
      ensures ok ==> commands == old(commands)[command.id := Entry(command, false, None)]
    {
      if closed {
        return false;
      }
      commands := commands[command.id := Entry(command, false, None)];
      ok := true;
    }

    /** One pass of the loop in `execute`. */
    method Poll(id: Id, cancelled: bool, late: bool) returns (out: Option<Outcome>)
      modifies this`commands
      ensures (Model(), out) == Polled(old(Model()), id, cancelled, late)
      ensures cancelled ==> out == Some(Cancelled)
      ensures !cancelled && closed ==> out == Some(Closed)
      ensures !cancelled && !closed && id in old(commands) && old(commands)[id].result.Some? ==>
                out == Some(Finished(old(commands)[id].result.value)) && commands == old(commands) - {id}
      ensures out.Some? && out.value.TimedOut? ==> late && (id !in commands || commands[id].result.None?)
      ensures out.None? ==> !late && (id !in commands || commands[id].result.None?)
      ensures !(out.Some? && out.value.Finished?) ==> commands == old(commands)
    {
      if cancelled {
        return Some(Cancelled);
      }
      if closed {
        return Some(Closed);
      }
      if id in commands && commands[id].result.Some? {
        var result := commands[id].result.value;
        commands := commands - {id};
        return Some(Finished(result));
      }
      if late {
        return Some(TimedOut);
      }
      out := None;
    }

    /** `Pending` is dropped. */
    method Remove(id: Id)
      modifies this`commands
      ensures Model() == Without(old(Model()), id)
    {
      commands := commands - {id};
    }
  }
}
