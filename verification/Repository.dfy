/**
  The extension registry cache (rust_backend/crates/extensions/src/repository.rs): one refresh at a time
  for each generation, and a generation for each change of the URL.

  `Registry.origin` is the URL a registry was downloaded from. `urls`, `flightOf` and `done` are history:
  the URL of each generation, the generation of each flight object, and what the finished fetches
  returned. Every step is a piece of code run under one lock.
*/
module Repository {
  import opened Options

  type Url = string
  type Thread = nat

  datatype Registry = Registry(origin: Url, body: nat)
  datatype Cache = Cache(url: Url, registry: Registry, time: int)
  datatype Answer = Ok(registry: Registry) | Err

  /** What the network gave: an answer with a status and, for a 200, the parsed body; or an error. */
  datatype Response = Status(code: nat, parsed: Option<nat>) | ReadFailed | RequestFailed

  /** A running `fetch`. The first four belong to the leader, the other two to a follower. */
  datatype Phase =
    | Requesting(generation: nat, flight: nat, url: Url, cached: Option<Cache>)
    | Responded(generation: nat, flight: nat, url: Url, cached: Option<Cache>, response: Response)
    | Publishing(generation: nat, flight: nat, answer: Answer)
    | Removing(generation: nat, flight: nat, answer: Answer)
    | Following(generation: nat, flight: nat)
    | Checked(generation: nat, flight: nat)
  {
    predicate Leads() { !Following? && !Checked? }
  }

  /** What a fetch returned, and the flight it led or followed to get it. */
  datatype Done = Done(generation: nat, flight: Option<nat>, answer: Answer)

  datatype State = State(
    closed: bool, url: Url, generation: nat, cache: Option<Cache>, inFlight: map<nat, nat>,
    flights: seq<Option<Answer>>, disk: Option<Cache>, fetches: map<Thread, Phase>,
    urls: seq<Url>, flightOf: seq<nat>, done: seq<Done>)

  const CACHE_TTL := 30 * 60

  /** `with_network`: the cache file, if it can be read, brings its URL. */
  function Opened(disk: Option<Cache>): State {
    var url := if disk.Some? then disk.value.url else "";
    State(false, url, 0, disk, map[], [], disk, map[], [url], [], [])
  }

  datatype Event =
    | Start(thread: Thread, force: bool, now: int)
    | Respond(thread: Thread, response: Response)
    | Decide(thread: Thread, now: int, saved: bool)
    | Publish(thread: Thread)
    | Remove(thread: Thread)
    | Poll(thread: Thread)
    | Take(thread: Thread)
    | SetUrl(url: Url, removed: bool)
    | ClearUrl(removed: bool)
    | ClearCache(removed: bool)
    | Shutdown

  predicate Enabled(s: State, e: Event) {
    match e
    case Start(t, _, _) => t !in s.fetches
    case Respond(t, _) => t in s.fetches && s.fetches[t].Requesting?
    case Decide(t, _, _) => t in s.fetches && s.fetches[t].Responded?
    case Publish(t) => t in s.fetches && s.fetches[t].Publishing? && s.fetches[t].flight < |s.flights|
    case Remove(t) => t in s.fetches && s.fetches[t].Removing?
    case Poll(t) => t in s.fetches && s.fetches[t].Following?
    case Take(t) => t in s.fetches && s.fetches[t].Checked? && s.fetches[t].flight < |s.flights|
    case _ => true
  }

  /** `clear_locked`; the cache file may survive, its removal is allowed to fail. */
  function Cleared(s: State, removed: bool): State {
    s.(generation := s.generation + 1, cache := None, inFlight := map[],
       disk := if removed then None else s.disk, urls := s.urls + [s.url])
  }

  /** The first block of `fetch`. Whether the repository is closed was asked before, under another lock. */
  function Started(s: State, t: Thread, force: bool, now: int): State {
    if s.url == "" then s
    else if !force && s.cache.Some? && now - s.cache.value.time < CACHE_TTL then
      s.(done := s.done + [Done(s.generation, None, Ok(s.cache.value.registry))])
    else if s.generation in s.inFlight then
      s.(fetches := s.fetches[t := Following(s.generation, s.inFlight[s.generation])])
    else
      s.(inFlight := s.inFlight[s.generation := |s.flights|], flights := s.flights + [None],
         flightOf := s.flightOf + [s.generation],
         fetches := s.fetches[t := Requesting(s.generation, |s.flights|, s.url, s.cache)])
  }

  /** What `refresh` makes of a response: an answer at once, or a cache to commit. */
  datatype Verdict = Return(answer: Answer) | Commit(cache: Cache)

  function Fallback(cached: Option<Cache>): Answer {
    if cached.Some? then Ok(cached.value.registry) else Err
  }

  function Judge(url: Url, cached: Option<Cache>, response: Response, now: int): Verdict {
    match response
    case ReadFailed => Return(Err)
    case RequestFailed => Return(Fallback(cached))
    case Status(code, parsed) =>
      if code != 200 && !(code == 304 && cached.Some?) then Return(Fallback(cached))
      else if code == 304 then Commit(cached.value.(time := now))
      else if parsed.None? then Return(Fallback(cached))
      else Commit(Cache(url, Registry(url, parsed.value), now))
  }

  function Decided(s: State, t: Thread, now: int, saved: bool): State
    requires t in s.fetches && s.fetches[t].Responded?
  {
    var p := s.fetches[t];
    match Judge(p.url, p.cached, p.response, now)
    case Return(answer) => s.(fetches := s.fetches[t := Publishing(p.generation, p.flight, answer)])
    case Commit(cache) =>
      if s.closed || s.generation != p.generation then
        s.(fetches := s.fetches[t := Publishing(p.generation, p.flight, Err)])
      else
        s.(cache := Some(cache), disk := if saved then Some(cache) else s.disk,
           fetches := s.fetches[t := Publishing(p.generation, p.flight, Ok(cache.registry))])
  }

  function Next(s: State, e: Event): State
    requires Enabled(s, e)
  {
    match e
    case Start(t, force, now) => Started(s, t, force, now)
    case Respond(t, response) =>
      var p := s.fetches[t];
      if s.closed || s.generation != p.generation
      then s.(fetches := s.fetches[t := Publishing(p.generation, p.flight, Err)])
      else s.(fetches := s.fetches[t := Responded(p.generation, p.flight, p.url, p.cached, response)])
    case Decide(t, now, saved) => Decided(s, t, now, saved)
    case Publish(t) =>
      var p := s.fetches[t];
      s.(flights := s.flights[p.flight := Some(p.answer)],
         fetches := s.fetches[t := Removing(p.generation, p.flight, p.answer)])
    case Remove(t) =>
      var p := s.fetches[t];
      s.(inFlight := s.inFlight - {p.generation}, fetches := s.fetches - {t},
         done := s.done + [Done(p.generation, Some(p.flight), p.answer)])
    case Poll(t) =>
      var p := s.fetches[t];
      if s.closed || s.generation != p.generation
      then s.(fetches := s.fetches - {t}, done := s.done + [Done(p.generation, None, Err)])
      else s.(fetches := s.fetches[t := Checked(p.generation, p.flight)])
    case Take(t) =>
      var p := s.fetches[t];
      if s.flights[p.flight].Some?
      then s.(fetches := s.fetches - {t},
              done := s.done + [Done(p.generation, Some(p.flight), s.flights[p.flight].value)])
      else s.(fetches := s.fetches[t := Following(p.generation, p.flight)])
    case SetUrl(url, removed) =>
      if s.closed || s.url == url then s else Cleared(s.(url := url), removed)
    // these two, too, were let in before they took the state lock, and a shutdown may have come between
    case ClearUrl(removed) => Cleared(s.(url := ""), removed)
    case ClearCache(removed) => Cleared(s, removed)
    case Shutdown => s.(closed := true)
  }

  ghost predicate Run(s: State, events: seq<Event>, s': State)
    decreases |events|
  {
    if events == [] then s == s'
    else Enabled(s, events[0]) && Run(Next(s, events[0]), events[1..], s')
  }

  // ----- the invariant -------------------------------------------------------------------------

  predicate CacheFor(cache: Option<Cache>, url: Url) {
    cache.Some? ==> cache.value.url == url && cache.value.registry.origin == url
  }

  predicate AnswerFor(answer: Answer, url: Url) { answer.Ok? ==> answer.registry.origin == url }

  ghost predicate CacheBelongs(s: State) {
    && |s.urls| == s.generation + 1 && s.urls[s.generation] == s.url
    && CacheFor(s.cache, s.url)
    && (s.disk.Some? ==> CacheFor(s.disk, s.disk.value.url))
  }

  ghost predicate FlightAnswersBelong(s: State) {
    && |s.flightOf| == |s.flights|
    && (forall f | 0 <= f < |s.flights| :: s.flightOf[f] < |s.urls|)
    && (forall f | 0 <= f < |s.flights| :: s.flights[f].Some? ==> AnswerFor(s.flights[f].value, s.urls[s.flightOf[f]]))
  }

  ghost predicate DoneBelong(s: State) {
    forall d | 0 <= d < |s.done| ::
      s.done[d].generation < |s.urls| && AnswerFor(s.done[d].answer, s.urls[s.done[d].generation])
  }

  ghost predicate TableCurrent(s: State) {
    && |s.flightOf| == |s.flights|
    && (forall g | g in s.inFlight ::
          g == s.generation && s.inFlight[g] < |s.flights| && s.flightOf[s.inFlight[g]] == g)
  }

  ghost predicate FlightsBelong(s: State) { FlightAnswersBelong(s) && DoneBelong(s) && TableCurrent(s) }

  predicate PhaseBelongs(p: Phase, urls: seq<Url>, flightOf: seq<nat>) {
    && p.generation < |urls| && p.flight < |flightOf| && flightOf[p.flight] == p.generation
    && (p.Requesting? || p.Responded? ==> p.url == urls[p.generation] && CacheFor(p.cached, p.url))
    && (p.Publishing? || p.Removing? ==> AnswerFor(p.answer, urls[p.generation]))
  }

  ghost predicate FetchesBelong(s: State) {
    forall t | t in s.fetches :: PhaseBelongs(s.fetches[t], s.urls, s.flightOf)
  }

  ghost predicate GenerationsPast(s: State) {
    forall t | t in s.fetches :: s.fetches[t].generation <= s.generation
  }

  /** The leader of the current generation is the one in the table. */
  ghost predicate LeadersListed(s: State) {
    forall t | t in s.fetches && s.fetches[t].Leads() && s.fetches[t].generation == s.generation ::
      s.generation in s.inFlight && s.inFlight[s.generation] == s.fetches[t].flight
  }

  ghost predicate LeadersAlone(s: State) {
    forall t, u | t in s.fetches && u in s.fetches && s.fetches[t].Leads() && s.fetches[u].Leads()
                  && s.fetches[t].generation == s.fetches[u].generation :: t == u
  }

  ghost predicate OneLeader(s: State) { GenerationsPast(s) && LeadersListed(s) && LeadersAlone(s) }

  ghost predicate Inv(s: State) { CacheBelongs(s) && FlightsBelong(s) && FetchesBelong(s) && OneLeader(s) }

  /** What a committed or returned verdict is about. */
  lemma {:induction false} JudgeBelongs(url: Url, cached: Option<Cache>, response: Response, now: int)
    requires CacheFor(cached, url)
    ensures var v := Judge(url, cached, response, now);
            if v.Return? then AnswerFor(v.answer, url) else CacheFor(Some(v.cache), url)
  {}

  lemma {:induction false} DecisionKeepsCache(s: State, t: Thread, now: int, saved: bool)
    requires CacheBelongs(s) && t in s.fetches && s.fetches[t].Responded?
    requires PhaseBelongs(s.fetches[t], s.urls, s.flightOf)
    ensures CacheBelongs(Decided(s, t, now, saved))
  {
    var p := s.fetches[t];
    JudgeBelongs(p.url, p.cached, p.response, now);
    hide Judge;
  }

  lemma {:induction false} CacheUntouched(s: State, e: Event)
    requires Enabled(s, e) && !e.Decide? && !e.SetUrl? && !e.ClearUrl? && !e.ClearCache?
    ensures var s' := Next(s, e);
            && s'.cache == s.cache && s'.disk == s.disk
            && s'.url == s.url && s'.urls == s.urls && s'.generation == s.generation
  {
    hide Judge;
  }

  lemma {:induction false} StepKeepsCache(s: State, e: Event)
    requires CacheBelongs(s) && FetchesBelong(s) && Enabled(s, e)
    ensures CacheBelongs(Next(s, e))
  {
    if e.Decide? {
      hide CacheBelongs, Decided, PhaseBelongs;
      DecisionKeepsCache(s, e.thread, e.now, e.saved);
    } else if e.SetUrl? || e.ClearUrl? || e.ClearCache? {
      hide FetchesBelong;
    } else {
      CacheUntouched(s, e);
      hide Next, Enabled, FetchesBelong, CacheFor;
    }
  }

  /** Histories only grow. */
  lemma {:induction false} StepGrows(s: State, e: Event)
    requires Enabled(s, e)
    ensures |s.urls| <= |Next(s, e).urls| && forall g | 0 <= g < |s.urls| :: Next(s, e).urls[g] == s.urls[g]
    ensures |s.flightOf| <= |Next(s, e).flightOf|
    ensures forall f | 0 <= f < |s.flightOf| :: Next(s, e).flightOf[f] == s.flightOf[f]
  {
    hide Judge;
  }

  predicate Acts(e: Event, t: Thread) {
    match e
    case Start(u, _, _) => u == t
    case Respond(u, _) => u == t
    case Decide(u, _, _) => u == t
    case Publish(u) => u == t
    case Remove(u) => u == t
    case Poll(u) => u == t
    case Take(u) => u == t
    case _ => false
  }

  lemma {:induction false} OthersKeepPhase(s: State, e: Event, t: Thread)
    requires Enabled(s, e) && t in Next(s, e).fetches && !Acts(e, t)
    ensures t in s.fetches && Next(s, e).fetches[t] == s.fetches[t]
  {
    hide Judge;
  }

  lemma {:induction false} StarterPhaseBelongs(s: State, t: Thread, force: bool, now: int)
    requires CacheBelongs(s) && TableCurrent(s) && t in Started(s, t, force, now).fetches
    requires t in s.fetches ==> PhaseBelongs(s.fetches[t], s.urls, s.flightOf)
    ensures var s' := Started(s, t, force, now); PhaseBelongs(s'.fetches[t], s'.urls, s'.flightOf)
  {
    hide AnswerFor;
  }

  lemma {:induction false} DeciderPhaseBelongs(s: State, t: Thread, now: int, saved: bool)
    requires t in s.fetches && s.fetches[t].Responded? && PhaseBelongs(s.fetches[t], s.urls, s.flightOf)
    ensures var s' := Decided(s, t, now, saved); t in s'.fetches && PhaseBelongs(s'.fetches[t], s'.urls, s'.flightOf)
  {
    var p := s.fetches[t];
    JudgeBelongs(p.url, p.cached, p.response, now);
    hide Judge;
  }

  lemma {:induction false} ActorPhaseBelongs(s: State, e: Event, t: Thread)
    requires CacheBelongs(s) && TableCurrent(s) && Enabled(s, e) && t in Next(s, e).fetches && Acts(e, t)
    requires t in s.fetches ==> PhaseBelongs(s.fetches[t], s.urls, s.flightOf)
    ensures PhaseBelongs(Next(s, e).fetches[t], Next(s, e).urls, Next(s, e).flightOf)
  {
    if e.Start? {
      hide PhaseBelongs, CacheBelongs, TableCurrent, Started;
      StarterPhaseBelongs(s, t, e.force, e.now);
    } else if e.Decide? {
      hide PhaseBelongs, Decided;
      DeciderPhaseBelongs(s, t, e.now, e.saved);
    } else {
      hide CacheBelongs, TableCurrent, CacheFor, AnswerFor;
    }
  }

  lemma {:induction false} StepKeepsFetches(s: State, e: Event)
    requires CacheBelongs(s) && TableCurrent(s) && FetchesBelong(s) && Enabled(s, e)
    ensures FetchesBelong(Next(s, e))
  {
    StepGrows(s, e);
    forall t | t in Next(s, e).fetches
      ensures PhaseBelongs(Next(s, e).fetches[t], Next(s, e).urls, Next(s, e).flightOf)
    {
      hide Next, CacheBelongs, TableCurrent;
      if Acts(e, t) {
        ActorPhaseBelongs(s, e, t);
      } else {
        OthersKeepPhase(s, e, t);
      }
    }
  }

  lemma {:induction false} StepKeepsTable(s: State, e: Event)
    requires TableCurrent(s) && Enabled(s, e)
    ensures TableCurrent(Next(s, e))
  {
    hide Judge;
  }

  lemma {:induction false} StepKeepsDone(s: State, e: Event)
    requires CacheBelongs(s) && FlightAnswersBelong(s) && FetchesBelong(s) && DoneBelong(s) && Enabled(s, e)
    ensures DoneBelong(Next(s, e))
  {
    hide Next, Enabled, CacheBelongs, FlightAnswersBelong, FetchesBelong, AnswerFor;
    StepGrows(s, e);
    DoneGrows(s, e);
    var s' := Next(s, e);
    if |s'.done| > |s.done| {
      NextDoneBelongs(s, e);
    }
    assert forall d | 0 <= d < |s.done| :: s'.done[d] == s.done[d];
  }

  lemma {:induction false} DoneGrows(s: State, e: Event)
    requires Enabled(s, e)
    ensures s.done <= Next(s, e).done && |Next(s, e).done| <= |s.done| + 1
  {
    hide Judge;
  }

  lemma {:induction false} NextDoneBelongs(s: State, e: Event)
    requires CacheBelongs(s) && FlightAnswersBelong(s) && FetchesBelong(s) && Enabled(s, e)
    requires |Next(s, e).done| > |s.done|
    ensures var last := Next(s, e).done[|s.done|];
            last.generation < |s.urls| && AnswerFor(last.answer, s.urls[last.generation])
  {
    hide Judge;
  }

  lemma {:induction false} StepKeepsAnswers(s: State, e: Event)
    requires CacheBelongs(s) && FlightAnswersBelong(s) && FetchesBelong(s) && Enabled(s, e)
    ensures FlightAnswersBelong(Next(s, e))
  {
    StepGrows(s, e);
    if e.Start? {
      hide Judge, CacheFor, AnswerFor, PhaseBelongs;
    } else if e.Publish? {
      hide Judge, CacheFor, AnswerFor;
    } else {
      FlightsUntouched(s, e);
      hide Next, AnswerFor, Enabled;
    }
  }

  lemma {:induction false} FlightsUntouched(s: State, e: Event)
    requires Enabled(s, e) && !e.Start? && !e.Publish?
    ensures Next(s, e).flights == s.flights && Next(s, e).flightOf == s.flightOf
  {
    hide Judge;
  }

  lemma {:induction false} StepKeepsListed(s: State, e: Event)
    requires GenerationsPast(s) && LeadersListed(s) && LeadersAlone(s) && Enabled(s, e)
    ensures LeadersListed(Next(s, e))
  {
    hide Judge, CacheFor;
  }

  lemma {:induction false} StepKeepsPast(s: State, e: Event)
    requires GenerationsPast(s) && Enabled(s, e)
    ensures GenerationsPast(Next(s, e))
  {
    hide Judge, CacheFor;
  }

  lemma {:induction false} StepKeepsAlone(s: State, e: Event)
    requires GenerationsPast(s) && LeadersListed(s) && LeadersAlone(s) && Enabled(s, e)
    ensures LeadersAlone(Next(s, e))
  {
    hide Judge, CacheFor;
  }

  lemma {:induction false} StepKeepsLeader(s: State, e: Event)
    requires OneLeader(s) && Enabled(s, e)
    ensures OneLeader(Next(s, e))
  {
    hide Next, Enabled, GenerationsPast, LeadersListed, LeadersAlone;
    StepKeepsPast(s, e);
    StepKeepsListed(s, e);
    StepKeepsAlone(s, e);
  }

  lemma {:induction false} RunKeepsInv(s: State, events: seq<Event>, s': State)
    requires Inv(s) && Run(s, events, s')
    ensures Inv(s')
    decreases |events|
  {
    if events != [] {
      StepKeepsCache(s, events[0]);
      StepKeepsTable(s, events[0]);
      StepKeepsDone(s, events[0]);
      StepKeepsAnswers(s, events[0]);
      StepKeepsFetches(s, events[0]);
      StepKeepsLeader(s, events[0]);
      hide CacheBelongs, FlightAnswersBelong, DoneBelong, TableCurrent, FetchesBelong, OneLeader, Next;
      RunKeepsInv(Next(s, events[0]), events[1..], s');
    }
  }

  /** Over every interleaving, from any cache file that names the URL its registry came from: the cached
      registry belongs to the configured URL, each generation has at most one refresh in flight, a fetch
      that succeeds returns a registry of the URL its generation stood for; and the cache file again
      names the URL its registry came from. */
  lemma {:induction false} EveryFetchGetsItsOwnUrl(disk: Option<Cache>, events: seq<Event>, s: State)
    requires disk.Some? ==> CacheFor(disk, disk.value.url)
    requires Run(Opened(disk), events, s)
    ensures CacheFor(s.cache, s.url)
    ensures s.disk.Some? ==> CacheFor(s.disk, s.disk.value.url)
    ensures forall t, u | t in s.fetches && u in s.fetches && s.fetches[t].Leads() && s.fetches[u].Leads()
              && s.fetches[t].generation == s.fetches[u].generation :: t == u
    ensures |s.urls| == s.generation + 1 && s.urls[s.generation] == s.url
    ensures forall d | 0 <= d < |s.done| :: s.done[d].generation < |s.urls| &&
              (s.done[d].answer.Ok? ==> s.done[d].answer.registry.origin == s.urls[s.done[d].generation])
  {
    RunKeepsInv(Opened(disk), events, s);
  }

  /** The history is one: a step never rewrites the URL a generation stood for, and a generation keeps
      one URL. */
  lemma {:induction false} GenerationsKeepTheirUrl(s: State, e: Event, g: nat)
    requires Inv(s) && Enabled(s, e) && g <= s.generation
    ensures Next(s, e).generation >= s.generation && s.urls <= Next(s, e).urls
    ensures Next(s, e).url != s.url ==> Next(s, e).generation > s.generation && Next(s, e).cache == None
  {
    hide Judge, CacheFor, AnswerFor, PhaseBelongs;
    hide OneLeader, FlightAnswersBelong, DoneBelong, TableCurrent, FetchesBelong;
  }

  // ----- which registry ---------------------------------------------------------------------------

  /** A response that brings something to commit: a registry, or the news that the cached one is current. */
  predicate Brings(p: Phase)
    requires p.Responded?
  {
    p.response.Status? &&
    ((p.response.code == 200 && p.response.parsed.Some?) || (p.response.code == 304 && p.cached.Some?))
  }

  /** A refresh that outlived its generation or the repository commits nothing. */
  predicate Current(s: State, p: Phase) { !s.closed && s.generation == p.generation }

  /** A new body becomes the cache of its URL from now on; an unchanged one is only renewed. What was committed
      is what is returned, and what the file gets, if it can be written. */
  lemma {:induction false} DecisionCommits(s: State, t: Thread, now: int, saved: bool)
    requires t in s.fetches && s.fetches[t].Responded? && Brings(s.fetches[t]) && Current(s, s.fetches[t])
    ensures var p, s' := s.fetches[t], Next(s, Decide(t, now, saved));
            && s'.cache.Some? && s'.cache.value.time == now
            && (p.response.code == 200 ==>
                  s'.cache.value.url == p.url && s'.cache.value.registry == Registry(p.url, p.response.parsed.value))
            && (p.response.code == 304 ==>
                  s'.cache.value.url == p.cached.value.url && s'.cache.value.registry == p.cached.value.registry)
            && s'.disk == (if saved then s'.cache else s.disk)
            && s'.fetches == s.fetches[t := Publishing(p.generation, p.flight, Ok(s'.cache.value.registry))]
  {}

  /** Otherwise nothing is committed, and the answer is an error or the cached registry: the cached one only
      for a response that brings nothing, or when there was none, and always when there is one to return. */
  lemma {:induction false} DecisionFallsBack(s: State, t: Thread, now: int, saved: bool)
    requires t in s.fetches && s.fetches[t].Responded? && !(Brings(s.fetches[t]) && Current(s, s.fetches[t]))
    ensures var p, s' := s.fetches[t], Next(s, Decide(t, now, saved));
            && s'.cache == s.cache && s'.disk == s.disk
            && t in s'.fetches && s'.fetches[t].Publishing?
            && s'.fetches == s.fetches[t := Publishing(p.generation, p.flight, s'.fetches[t].answer)]
            && (Brings(p) || p.response.ReadFailed? || p.cached.None? ==> s'.fetches[t].answer == Err)
            && (!Brings(p) && !p.response.ReadFailed? && p.cached.Some? ==>
                  s'.fetches[t].answer == Ok(p.cached.value.registry))
  {}

  /** A response reaches its leader as it came, unless the repository was closed or cleared meanwhile: then the
      leader gives up with an error, whatever it had in its cache. */
  lemma {:induction false} ResponseArrives(s: State, t: Thread, response: Response)
    requires Enabled(s, Respond(t, response))
    ensures var p, s' := s.fetches[t], Next(s, Respond(t, response));
            && s'.cache == s.cache && t in s'.fetches
            && s'.fetches[t] == if Current(s, p) then Responded(p.generation, p.flight, p.url, p.cached, response)
                                else Publishing(p.generation, p.flight, Err)
  {}

  /** After a shutdown no registry is committed any more, to the cache or to its file. */
  lemma {:induction false} ShutdownIsForGood(s: State, events: seq<Event>, s': State)
    requires Run(Next(s, Shutdown), events, s')
    ensures s'.closed && (s'.cache == s.cache || s'.cache == None) && (s'.disk == s.disk || s'.disk == None)
  {
    ClosedStaysClosed(Next(s, Shutdown), events, s');
  }

  lemma {:induction false} ClosedStaysClosed(s: State, events: seq<Event>, s': State)
    requires s.closed && Run(s, events, s')
    ensures s'.closed && (s'.cache == s.cache || s'.cache == None) && (s'.disk == s.disk || s'.disk == None)
    decreases |events|
  {
    if events != [] {
      ClosedStep(s, events[0]);
      hide Next;
      ClosedStaysClosed(Next(s, events[0]), events[1..], s');
    }
  }

  lemma {:induction false} ClosedStep(s: State, e: Event)
    requires s.closed && Enabled(s, e)
    ensures var s' := Next(s, e);
            s'.closed && (s'.cache == s.cache || s'.cache == None) && (s'.disk == s.disk || s'.disk == None)
  {
    hide Judge;
  }

  /** A flight is decided once: its leader is alone, and nobody has an answer from it before it is published. */
  ghost predicate FlightsOpen(s: State) { LeadersOpen(s) && DoneClosed(s) }

  ghost predicate LeadersOpen(s: State) {
    forall t | t in s.fetches && s.fetches[t].Leads() ::
      s.fetches[t].flight < |s.flights| && (s.flights[s.fetches[t].flight].Some? <==> s.fetches[t].Removing?)
  }

  ghost predicate DoneClosed(s: State) {
    forall d | 0 <= d < |s.done| && s.done[d].flight.Some? ::
      s.done[d].flight.value < |s.flights| && s.flights[s.done[d].flight.value].Some?
  }

  /** Whoever has an answer from flight `f`, or is about to give one, has `a`. */
  ghost predicate Answered(s: State, f: nat, a: Answer) {
    && f < |s.flights| && (s.flights[f].Some? ==> s.flights[f].value == a)
    && (forall t | t in s.fetches && s.fetches[t].Leads() && s.fetches[t].flight == f ::
          (s.fetches[t].Publishing? || s.fetches[t].Removing?) && s.fetches[t].answer == a)
    && (forall d | 0 <= d < |s.done| && s.done[d].flight == Some(f) :: s.done[d].answer == a)
  }

  /** Two leaders never share a flight. */
  lemma {:induction false} OneLeaderPerFlight(s: State, t: Thread, u: Thread)
    requires FetchesBelong(s) && LeadersAlone(s) && t in s.fetches && u in s.fetches
    requires s.fetches[t].Leads() && s.fetches[u].Leads() && s.fetches[t].flight == s.fetches[u].flight
    ensures t == u
  {
    assert PhaseBelongs(s.fetches[t], s.urls, s.flightOf) && PhaseBelongs(s.fetches[u], s.urls, s.flightOf);
  }

  lemma {:induction false} StepKeepsOpen(s: State, e: Event)
    requires FetchesBelong(s) && LeadersAlone(s) && FlightsOpen(s) && Enabled(s, e)
    ensures FlightsOpen(Next(s, e))
  {
    if e.Publish? {
      PublishKeepsLeadersOpen(s, e);
    } else {
      LeadersStayOpen(s, e);
    }
    DoneStaysClosed(s, e);
    hide Next, Enabled, FetchesBelong, LeadersAlone, LeadersOpen, DoneClosed;
  }

  lemma {:induction false} PublishKeepsLeadersOpen(s: State, e: Event)
    requires FetchesBelong(s) && LeadersAlone(s) && LeadersOpen(s) && Enabled(s, e) && e.Publish?
    ensures LeadersOpen(Next(s, e))
  {
    forall u | u in s.fetches && s.fetches[u].Leads() && s.fetches[u].flight == s.fetches[e.thread].flight
      ensures u == e.thread
    {
      OneLeaderPerFlight(s, e.thread, u);
    }
    hide FetchesBelong, LeadersAlone;
  }

  lemma {:induction false} LeadersStayOpen(s: State, e: Event)
    requires LeadersOpen(s) && Enabled(s, e) && !e.Publish?
    ensures LeadersOpen(Next(s, e))
  {
    hide Judge;
  }

  lemma {:induction false} DoneStaysClosed(s: State, e: Event)
    requires LeadersOpen(s) && DoneClosed(s) && Enabled(s, e)
    ensures DoneClosed(Next(s, e))
  {
    hide Judge;
  }

  lemma {:induction false} StepKeepsAnswered(s: State, e: Event, f: nat, a: Answer)
    requires Answered(s, f, a) && Enabled(s, e)
    ensures Answered(Next(s, e), f, a)
  {
    hide Judge;
  }

  lemma {:induction false} RunKeepsAnswered(s: State, events: seq<Event>, s': State, f: nat, a: Answer)
    requires Answered(s, f, a) && Run(s, events, s')
    ensures Answered(s', f, a)
    decreases |events|
  {
    if events != [] {
      StepKeepsAnswered(s, events[0], f, a);
      hide Next, Answered;
      RunKeepsAnswered(Next(s, events[0]), events[1..], s', f, a);
    }
  }

  lemma {:induction false} RunKeepsOpen(s: State, events: seq<Event>, s': State)
    requires Inv(s) && FlightsOpen(s) && Run(s, events, s')
    ensures Inv(s') && FlightsOpen(s')
    decreases |events|
  {
    if events != [] {
      StepKeepsOpen(s, events[0]);
      assert Run(s, [events[0]], Next(s, events[0]));
      hide Inv, FlightsOpen, Next;
      RunKeepsInv(s, [events[0]], Next(s, events[0]));
      RunKeepsOpen(Next(s, events[0]), events[1..], s');
    }
  }

  lemma {:induction false} FirstDecision(s: State, t: Thread, now: int, saved: bool)
    requires FetchesBelong(s) && LeadersAlone(s) && FlightsOpen(s) && Enabled(s, Decide(t, now, saved))
    ensures var s' := Next(s, Decide(t, now, saved));
            t in s'.fetches && s'.fetches[t].Publishing? && Answered(s', s.fetches[t].flight, s'.fetches[t].answer)
  {
    forall u | u in s.fetches && s.fetches[u].Leads() && s.fetches[u].flight == s.fetches[t].flight ensures u == t {
      OneLeaderPerFlight(s, t, u);
    }
    hide Judge, FetchesBelong, LeadersAlone;
  }

  /** Over every interleaving: what the leader decides on its response is what the flight's leader and all its
      followers return, now or later, unless a follower is turned away because its generation is over. */
  lemma {:induction false} FlightReturnsTheDecision(disk: Option<Cache>, before: seq<Event>, s: State, t: Thread,
                                                    now: int, saved: bool, events: seq<Event>, s': State)
    requires disk.Some? ==> CacheFor(disk, disk.value.url)
    requires Run(Opened(disk), before, s) && Enabled(s, Decide(t, now, saved))
    requires Run(Next(s, Decide(t, now, saved)), events, s')
    ensures var p, s1 := s.fetches[t], Next(s, Decide(t, now, saved));
            && t in s1.fetches && s1.fetches[t].Publishing?
            && var a := s1.fetches[t].answer;
               && p.flight < |s'.flights| && (s'.flights[p.flight].Some? ==> s'.flights[p.flight].value == a)
               && forall d | 0 <= d < |s'.done| && s'.done[d].flight == Some(p.flight) :: s'.done[d].answer == a
  {
    RunKeepsOpen(Opened(disk), before, s);
    FirstDecision(s, t, now, saved);
    var s1 := Next(s, Decide(t, now, saved));
    hide Next, Judge, Inv;
    RunKeepsAnswered(s1, events, s', s.fetches[t].flight, s1.fetches[t].answer);
  }

  /** Nobody follows a flight that has no leader any more. */
  ghost predicate ListedAreLed(s: State) {
    forall g | g in s.inFlight :: exists t :: t in s.fetches && LeadsFlight(s.fetches[t], g, s.inFlight[g])
  }

  predicate LeadsFlight(p: Phase, generation: nat, flight: nat) {
    p.Leads() && p.generation == generation && p.flight == flight
  }

  lemma {:induction false} StepKeepsLed(s: State, e: Event)
    requires ListedAreLed(s) && Enabled(s, e)
    ensures ListedAreLed(Next(s, e))
  {
    var s' := Next(s, e);
    forall g | g in s'.inFlight ensures exists t :: t in s'.fetches && LeadsFlight(s'.fetches[t], g, s'.inFlight[g]) {
      if g in s.inFlight && s'.inFlight[g] == s.inFlight[g] {
        var t :| t in s.fetches && LeadsFlight(s.fetches[t], g, s.inFlight[g]);
        LeadersStay(s, e, t, g);
        hide Next, LeadsFlight;
      } else {
        assert LeadsFlight(s'.fetches[e.thread], g, s'.inFlight[g]);
      }
    }
  }

  lemma {:induction false} LeadersStay(s: State, e: Event, t: Thread, g: nat)
    requires Enabled(s, e) && t in s.fetches && g in s.inFlight && LeadsFlight(s.fetches[t], g, s.inFlight[g])
    requires g in Next(s, e).inFlight
    ensures t in Next(s, e).fetches && LeadsFlight(Next(s, e).fetches[t], g, s.inFlight[g])
  {
    hide Judge;
  }

  lemma {:induction false} RunKeepsLed(s: State, events: seq<Event>, s': State)
    requires ListedAreLed(s) && Run(s, events, s')
    ensures ListedAreLed(s')
    decreases |events|
  {
    if events != [] {
      StepKeepsLed(s, events[0]);
      hide Next, ListedAreLed;
      RunKeepsLed(Next(s, events[0]), events[1..], s');
    }
  }

  /** In every reachable state a fetch that follows joins a flight with a leader. Once the answer is published a
      follower whose generation stands returns it, and one whose generation is over returns an error. */
  lemma {:induction false} FollowersReturn(disk: Option<Cache>, events: seq<Event>, s: State, t: Thread)
    requires Run(Opened(disk), events, s)
    ensures forall g | g in s.inFlight :: exists u :: u in s.fetches && LeadsFlight(s.fetches[u], g, s.inFlight[g])
    ensures t in s.fetches && s.fetches[t].Following? && s.fetches[t].flight < |s.flights|
            && s.flights[s.fetches[t].flight].Some? && !s.closed && s.generation == s.fetches[t].generation ==>
              var p, looked := s.fetches[t], Next(s, Poll(t));
              && Enabled(looked, Take(t)) && t !in Next(looked, Take(t)).fetches
              && Next(looked, Take(t)).done == s.done + [Done(p.generation, Some(p.flight), s.flights[p.flight].value)]
    ensures t in s.fetches && s.fetches[t].Following? && (s.closed || s.generation != s.fetches[t].generation) ==>
              && t !in Next(s, Poll(t)).fetches
              && Next(s, Poll(t)).done == s.done + [Done(s.fetches[t].generation, None, Err)]
  {
    RunKeepsLed(Opened(disk), events, s);
  }

  /** From its start to its decision a leader keeps its generation, flight and URL, and the cache it found. */
  ghost predicate LeadsFor(s: State, t: Thread, start: Phase)
    requires start.Requesting?
  {
    && t in s.fetches && s.fetches[t].Leads()
    && s.fetches[t].generation == start.generation && s.fetches[t].flight == start.flight
    && (s.fetches[t].Requesting? || s.fetches[t].Responded? ==>
          s.fetches[t].url == start.url && s.fetches[t].cached == start.cached)
  }

  lemma {:induction false} LeaderKeepsItsCache(s: State, t: Thread, start: Phase, events: seq<Event>, s': State)
    requires start.Requesting? && LeadsFor(s, t, start) && Run(s, events, s') && Remove(t) !in events
    ensures LeadsFor(s', t, start)
    decreases |events|
  {
    if events != [] {
      LeaderStep(s, t, start, events[0]);
      hide Next, LeadsFor;
      LeaderKeepsItsCache(Next(s, events[0]), t, start, events[1..], s');
    }
  }

  lemma {:induction false} LeaderStep(s: State, t: Thread, start: Phase, e: Event)
    requires start.Requesting? && LeadsFor(s, t, start) && Enabled(s, e) && e != Remove(t)
    ensures LeadsFor(Next(s, e), t, start)
  {
    hide Judge;
  }

  /** What was committed is served, without another request, until it is half an hour old, the repository is
      cleared or another refresh decides. */
  lemma {:induction false} CommittedIsServed(s: State, t: Thread, now: int, saved: bool, events: seq<Event>, s': State,
                                             reader: Thread, later: int)
    requires Enabled(s, Decide(t, now, saved)) && Brings(s.fetches[t]) && Current(s, s.fetches[t]) && s.url != ""
    requires Run(Next(s, Decide(t, now, saved)), events, s')
    requires forall e | e in events :: !e.Decide? && !e.SetUrl? && !e.ClearUrl? && !e.ClearCache?
    requires reader !in s'.fetches
    ensures var s1 := Next(s, Decide(t, now, saved));
            && s1.fetches[t].Publishing? && s1.fetches[t].answer.Ok?
            && (later - now < 30 * 60 <==> Next(s', Start(reader, false, later)).fetches == s'.fetches)
            && (later - now < 30 * 60 ==>
                  Next(s', Start(reader, false, later)) ==
                    s'.(done := s'.done + [Done(s.generation, None, s1.fetches[t].answer)]))
  {
    DecisionCommits(s, t, now, saved);
    var s1 := Next(s, Decide(t, now, saved));
    assert s1.url == s.url && s1.generation == s.generation;
    UntouchedByRun(s1, events, s');
    hide Judge;
  }

  lemma {:induction false} UntouchedByRun(s: State, events: seq<Event>, s': State)
    requires Run(s, events, s')
    requires forall e | e in events :: !e.Decide? && !e.SetUrl? && !e.ClearUrl? && !e.ClearCache?
    ensures s'.cache == s.cache && s'.url == s.url && s'.generation == s.generation
    decreases |events|
  {
    if events != [] {
      CacheUntouched(s, events[0]);
      hide Next;
      UntouchedByRun(Next(s, events[0]), events[1..], s');
    }
  }

  // ----- the program -----------------------------------------------------------------------------

  /** The repository's fields, updated in place; one method for each block under the state lock. */
  class ExtensionRepository {
    var closed: bool
    var url: Url
    var generation: nat
    var cache: Option<Cache>
    var inFlight: map<nat, nat>
    var flights: seq<Option<Answer>>
    var disk: Option<Cache>
    var fetches: map<Thread, Phase>
    ghost var urls: seq<Url>
    ghost var flightOf: seq<nat>
    ghost var done: seq<Done>

    ghost function Model(): State
      reads this
    {
      State(closed, url, generation, cache, inFlight, flights, disk, fetches, urls, flightOf, done)
    }

    constructor (file: Option<Cache>)
      ensures Model() == Opened(file)
    {
      closed, generation, cache, inFlight, flights, disk, fetches := false, 0, file, map[], [], file, map[];
      url := if file.Some? then file.value.url else "";
      urls := [if file.Some? then file.value.url else ""];
      flightOf, done := [], [];
    }

    /** The first block of `fetch`: answer from the cache, follow a flight, or lead a new one. */
    method StartFetch(t: Thread, force: bool, now: int) returns (cached: Option<Registry>)
      requires t !in fetches
      modifies this
      ensures Model() == Next(old(Model()), Start(t, force, now))
      ensures cached.Some? <==> url != "" && !force && cache.Some? && now - cache.value.time < 30 * 60
      ensures cached.Some? ==> cached.value == cache.value.registry
      ensures closed == old(closed) && url == old(url) && generation == old(generation)
      ensures cache == old(cache) && disk == old(disk)
      ensures url == "" || cached.Some? ==> fetches == old(fetches) && flights == old(flights)
      ensures url != "" && cached.None? && generation in old(inFlight) ==>
                && fetches == old(fetches)[t := Following(generation, old(inFlight)[generation])]
                && inFlight == old(inFlight) && flights == old(flights)
      ensures url != "" && cached.None? && generation !in old(inFlight) ==>
                && fetches == old(fetches)[t := Requesting(generation, |old(flights)|, url, cache)]
                && inFlight == old(inFlight)[generation := |old(flights)|] && flights == old(flights) + [None]
    {
      cached := None;
      if url == "" {
        return;
      }
      if !force && cache.Some? && now - cache.value.time < CACHE_TTL {
        done := done + [Done(generation, None, Ok(cache.value.registry))];
        return Some(cache.value.registry);
      }
      var leader := generation !in inFlight;
      if leader {
        inFlight := inFlight[generation := |flights|];
        flights := flights + [None];
        flightOf := flightOf + [generation];
      }
      var flight := inFlight[generation];
      fetches := fetches[t := if leader then Requesting(generation, flight, url, cache)
                              else Following(generation, flight)];
    }

    /** The rest of `refresh`, from the response to the commit under the lock. */
    method FinishRefresh(t: Thread, now: int, saved: bool)
      requires t in fetches && fetches[t].Responded?
      modifies this`cache, this`disk, this`fetches
      ensures Model() == Next(old(Model()), Decide(t, now, saved))
      ensures t in fetches && fetches[t].Publishing?
      ensures var p, answer := old(fetches)[t], fetches[t].answer;
              && (Brings(p) && Current(Model(), p) && p.response.code == 200 ==>
                    cache == Some(Cache(p.url, Registry(p.url, p.response.parsed.value), now)))
              && (Brings(p) && Current(Model(), p) && p.response.code == 304 ==>
                    cache == Some(p.cached.value.(time := now)))
              && (Brings(p) && Current(Model(), p) ==> answer == Ok(cache.value.registry) && (saved ==> disk == cache))
              && (!(Brings(p) && Current(Model(), p)) ==> cache == old(cache) && disk == old(disk))
              && (!Brings(p) && !p.response.ReadFailed? && p.cached.Some? ==> answer == Ok(p.cached.value.registry))
              && (!Brings(p) && (p.response.ReadFailed? || p.cached.None?) ==> answer == Err)
              && (Brings(p) && !Current(Model(), p) ==> answer == Err)
    {
      var p := fetches[t];
      var answer;
      match Judge(p.url, p.cached, p.response, now) {
        case Return(a) =>
          answer := a;
        case Commit(renewed) =>
          if closed || generation != p.generation {
            answer := Err;
          } else {
            if saved {
              disk := Some(renewed);
            }
            cache := Some(renewed);
            answer := Ok(renewed.registry);
          }
      }
      fetches := fetches[t := Publishing(p.generation, p.flight, answer)];
    }

    /** The end of a leader's `fetch`: the flight goes, and the answer is returned. */
    method EndFlight(t: Thread) returns (answer: Answer)
      requires t in fetches && fetches[t].Removing?
      modifies this`inFlight, this`fetches, this`done
      ensures Model() == Next(old(Model()), Remove(t))
      ensures answer == old(fetches)[t].answer && t !in fetches && old(fetches)[t].generation !in inFlight
    {
      var p := fetches[t];
      answer := p.answer;
      inFlight := inFlight - {p.generation};
      fetches := fetches - {t};
      done := done + [Done(p.generation, Some(p.flight), answer)];
    }

    /** `clear_locked`. */
    method Clear(removed: bool)
      modifies this`generation, this`cache, this`inFlight, this`disk, this`urls
      ensures Model() == Cleared(old(Model()), removed)
      ensures generation == old(generation) + 1 && cache == None && inFlight == map[] && (removed ==> disk == None)
    {
      generation := generation + 1;
      cache := None;
      inFlight := map[];
      if removed {
        disk := None;
      }
      urls := urls + [url];
    }

    method SetRegistryUrl(next: Url, removed: bool)
      modifies this
      ensures Model() == Next(old(Model()), SetUrl(next, removed))
      ensures if old(closed) then Model() == old(Model()) else url == next && !closed
      ensures url != old(url) ==> generation == old(generation) + 1 && cache == None && inFlight == map[]
      ensures url == old(url) ==> Model() == old(Model())
    {
      if !closed && url != next {
        url := next;
        Clear(removed);
      }
    }

    method ClearRegistryUrl(removed: bool)
      modifies this
      ensures Model() == Next(old(Model()), ClearUrl(removed))
      ensures url == "" && generation == old(generation) + 1 && cache == None && inFlight == map[]
    {
      url := "";
      Clear(removed);
    }
  }
}
