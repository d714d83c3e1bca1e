/**
  The session cookie jar (rust_backend/crates/network/src/cookies.rs).

  Header text is parsed elsewhere: a `Set-Cookie` header is either unreadable or the attributes below. Host
  names arrive in canonical form. `World` holds what the platform decides: which names are IP addresses and
  the latest representable instant. Instants are nanoseconds.
*/
module Cookies {
  import opened Bytes
  import opened Options

  datatype World = World(ip: string -> bool, latest: int)

  datatype Url = Url(https: bool, host: string, path: seq<Byte>)

  /** The partition, domain, path and name. */
  datatype Key = Key(jar: string, domain: string, path: seq<Byte>, name: string)

  datatype Entry = Entry(value: string, hostOnly: bool, secure: bool, expires: Option<int>, sequence: nat)

  datatype Jar = Jar(entries: map<Key, Entry>, sequence: nat)

  /** One readable `Set-Cookie` header; `maxAge` is in seconds and `domain` is empty if it was absent. */
  datatype SetCookie = SetCookie(name: string, value: string, quoted: bool, domain: string,
                                 path: Option<seq<Byte>>, maxAge: Option<int>, expires: Option<int>, secure: bool)

  const EMPTY := Jar(map[], 0)

  const SLASH: Byte := 47

  const MAX_HEADERS := 3000

  const SECOND := 1_000_000_000

  // ----- names and paths -------------------------------------------------------------------------

  function LastIndex<T(==)>(s: seq<T>, x: T): (k: int)
    ensures -1 <= k < |s|
    ensures k >= 0 ==> s[k] == x
    ensures forall i :: k < i < |s| ==> s[i] != x
  {
    if s == [] then -1 else if s[|s| - 1] == x then |s| - 1 else LastIndex(s[..|s| - 1], x)
  }

  predicate EndsWith(s: string, t: string) { |t| <= |s| && s[|s| - |t|..] == t }

  /** The domain test: the host is the domain or lies below it. */
  predicate Covers(domain: string, host: string) { host == domain || EndsWith(host, "." + domain) }

  predicate Address(world: World, host: string) { world.ip(host) || ':' in host }

  /** The final two labels, or the whole name if it has at most two. */
  function LastTwo(host: string): string {
    var last := LastIndex(host, '.');
    if last < 0 then host else host[LastIndex(host[..last], '.') + 1..]
  }

  /** `jar_key`. */
  function JarKey(world: World, host: string): string {
    if Address(world, host) then host else LastTwo(host)
  }

  /** `default_path`. */
  function DefaultPath(path: seq<Byte>): seq<Byte> {
    var end := LastIndex(path, SLASH);
    if !([SLASH] <= path) || end <= 0 then [SLASH] else path[..end]
  }

  /** Section 5.1.4 of RFC 6265. */
  predicate PathMatches(request: seq<Byte>, path: seq<Byte>) {
    request == path ||
    (path <= request && ((path != [] && path[|path| - 1] == SLASH) || (|path| < |request| && request[|path|] == SLASH)))
  }

  /** A path matches what is below it, at a slash. */
  lemma {:induction false} PathMatchesBelow(request: seq<Byte>, path: seq<Byte>)
    ensures PathMatches(request, path) <==>
              || request == path
              || (exists rest :: request == path + [SLASH] + rest)
              || (exists front, rest :: path == front + [SLASH] && request == path + rest)
  {
    if path <= request {
      var rest := request[|path|..];
      assert request == path + rest;
      if rest != [] && rest[0] == SLASH {
        assert request == path + [SLASH] + rest[1..];
      }
      if path != [] && path[|path| - 1] == SLASH {
        assert path == path[..|path| - 1] + [SLASH];
      }
    }
  }

  /** The default path is the directory of the request path. */
  lemma {:induction false} DefaultPathIsDirectory(front: seq<Byte>, file: seq<Byte>)
    requires SLASH !in file
    ensures DefaultPath(front + [SLASH] + file) == if [SLASH] <= front then front else [SLASH]
    ensures DefaultPath(file) == [SLASH]
  {
    var path := front + [SLASH] + file;
    assert path[|front|] == SLASH;
    assert forall i | |front| < i < |path| :: path[i] == file[i - |front| - 1];
    assert LastIndex(path, SLASH) == |front|;
    assert path[..|front|] == front;
    assert front != [] ==> front[0] == path[0];
  }

  /** A cookie without a path goes back to the URL that set it, exactly when that URL's path is absolute. */
  lemma {:induction false} DefaultPathMatches(path: seq<Byte>)
    ensures PathMatches(path, DefaultPath(path)) <==> [SLASH] <= path
  {
    var end := LastIndex(path, SLASH);
    if [SLASH] <= path {
      assert path[0] == SLASH;
      assert end >= 0;
    }
  }

  // ----- the partition ---------------------------------------------------------------------------

  /** `d` with something in front: the last `x` is where it was. */
  lemma {:induction false} LastIndexBehind<T>(a: seq<T>, d: seq<T>, x: T)
    ensures LastIndex(a + d, x) == if x in d then |a| + LastIndex(d, x) else LastIndex(a, x)
  {
    var s := a + d;
    var k := LastIndex(s, x);
    if x in d {
      var i := LastIndex(d, x);
      assert i >= 0;
      assert s[|a| + i] == d[i] == x;
      assert forall j :: |a| + i < j < |s| ==> s[j] == d[j - |a|];
    } else {
      var i := LastIndex(a, x);
      assert forall j :: |a| <= j < |s| ==> s[j] == d[j - |a|];
      assert forall j :: 0 <= j < |a| ==> s[j] == a[j];
    }
  }

  lemma {:induction false} LastTwoIs(host: string, last: nat, second: int)
    requires LastIndex(host, '.') == last && LastIndex(host[..last], '.') == second
    ensures LastTwo(host) == host[second + 1..]
  {}

  lemma {:induction false} DotAtEnd(front: string)
    ensures LastIndex(front + ".", '.') == |front|
  {
    assert (front + ".")[|front|] == '.';
  }

  lemma {:induction false} CutBehind(a: string, d: string, n: nat)
    requires n <= |d|
    ensures (a + d)[..|a| + n] == a + d[..n] && (a + d)[|a| + n..] == d[n..]
  {}

  lemma {:induction false} DottedBelow(front: string, d: string)
    requires '.' in d
    ensures LastTwo(front + "." + d) == LastTwo(d)
  {
    hide LastIndex, LastTwo;
    HasIndex(d, '.');
    var i := LastIndex(d, '.');
    SecondIndex(front, d, i);
    var k := LastIndex(d[..i], '.');
    CutBehind(front + ".", d, k + 1);
    SameLabels(front + "." + d, d, |front| + 1, i, k);
  }

  lemma {:induction false} SameLabels(host: string, d: string, n: nat, i: nat, k: int)
    requires LastIndex(d, '.') == i && LastIndex(d[..i], '.') == k
    requires LastIndex(host, '.') == n + i && LastIndex(host[..n + i], '.') == n + k
    requires n + k + 1 <= |host| && host[n + k + 1..] == d[k + 1..]
    ensures LastTwo(host) == LastTwo(d)
  {
    hide LastIndex, LastTwo;
    LastTwoIs(d, i, k);
    LastTwoIs(host, n + i, n + k);
  }

  lemma {:induction false} SecondIndex(front: string, d: string, i: nat)
    requires LastIndex(d, '.') == i
    ensures LastIndex(front + "." + d, '.') == |front| + 1 + i
    ensures LastIndex((front + "." + d)[..|front| + 1 + i], '.') == |front| + 1 + LastIndex(d[..i], '.')
  {
    hide LastIndex;
    DotInFront(front, d);
    DotInFront(front, d[..i]);
    CutBehind(front + ".", d, i);
  }

  lemma {:induction false} DotInFront(front: string, d: string)
    ensures LastIndex(front + "." + d, '.') == |front| + 1 + LastIndex(d, '.')
  {
    DotAtEnd(front);
    LastIndexBehind(front + ".", d, '.');
    HasIndex(d, '.');
    hide LastIndex;
  }

  lemma {:induction false} HasIndex<T>(s: seq<T>, x: T)
    ensures x in s <==> LastIndex(s, x) >= 0
    ensures x !in s <==> LastIndex(s, x) == -1
  {}

  lemma {:induction false} UndottedBelow(front: string, d: string)
    requires '.' !in d
    ensures LastTwo(front + "." + d) != LastTwo(d)
  {
    var a := front + ".";
    LastIndexBehind(a, d, '.');
    DotAtEnd(front);
    hide LastIndex;
    assert |LastTwo(a + d)| > |d|;
  }

  /** Below a domain `d`, the partition is that of `d` exactly when `d` has a dot. */
  lemma {:induction false} PartitionBelow(front: string, d: string)
    ensures LastTwo(front + "." + d) == LastTwo(d) <==> '.' in d
  {
    hide LastTwo;
    if '.' in d {
      DottedBelow(front, d);
    } else {
      UndottedBelow(front, d);
    }
  }

  /** A host that passes the domain test is in the domain's own partition, unless it lies below a domain
      without a dot. */
  lemma {:induction false} PartitionOf(d: string, host: string)
    requires Covers(d, host)
    ensures LastTwo(host) == LastTwo(d) <==> '.' in d || host == d
  {
    if host != d {
      var front := host[..|host| - |d| - 1];
      assert host == front + ("." + d) == front + "." + d;
      PartitionBelow(front, d);
    }
  }

  /** Two labels never separate hosts that share a domain, if and only if the domain has a dot. */
  lemma {:induction false} PartitionSafe(d: string)
    ensures (forall host | Covers(d, host) :: LastTwo(host) == LastTwo(d)) <==> '.' in d
  {
    if '.' in d {
      forall host | Covers(d, host) ensures LastTwo(host) == LastTwo(d) {
        PartitionOf(d, host);
      }
    } else {
      var host := "a." + d;
      assert host[1..] == "." + d;
      assert EndsWith(host, "." + d);
      PartitionOf(d, host);
    }
  }

  lemma {:induction false} LastTwoTwice(host: string)
    ensures LastTwo(LastTwo(host)) == LastTwo(host)
  {
    var last := LastIndex(host, '.');
    if last >= 0 {
      var second := LastIndex(host[..last], '.');
      if second >= 0 {
        var front := host[..second];
        var d := host[second + 1..];
        assert host == front + "." + d;
        assert d[last - second - 1] == '.';
        PartitionBelow(front, d);
      }
    }
  }

  lemma {:induction false} TwoLabels(a: string, b: string)
    requires '.' !in a && '.' !in b
    ensures LastTwo(a + "." + b) == a + "." + b
  {
    var host := a + "." + b;
    assert host[|a|] == '.';
    assert forall i :: |a| < i < |host| ==> host[i] == b[i - |a| - 1];
    assert LastIndex(host, '.') == |a|;
    assert host[..|a|] == a;
  }

  /** An address has a colon or more than two labels. */
  ghost predicate Lawful(world: World) {
    forall host | world.ip(host) :: ':' in host || LastTwo(host) != host
  }

  // ----- storing ---------------------------------------------------------------------------------

  predicate Ascii(s: string) { forall i :: 0 <= i < |s| ==> s[i] as int < 128 }

  function LowerChar(c: char): char {
    if 'A' <= c <= 'Z' then c + ' ' else c
  }

  function Lower(s: string): (t: string)
    ensures |t| == |s|
    ensures forall i :: 0 <= i < |s| ==> !('A' <= t[i] <= 'Z')
    ensures forall i :: 0 <= i < |s| ==>
              if 'A' <= s[i] <= 'Z' then t[i] as int == s[i] as int + 32 else t[i] == s[i]
  {
    seq(|s|, i requires 0 <= i < |s| => LowerChar(s[i]))
  }

  function StripDot(s: string): string { if "." <= s then s[1..] else s }

  predicate GoodDomain(host: string, d: string) {
    d != "" && Ascii(d) && d[0] != '.' && d[|d| - 1] != '.' && Covers(d, host)
  }

  /** The domain a cookie is kept under and whether only that very host gets it back; `None` rejects it. */
  function DomainOf(world: World, host: string, raw: string): Option<(string, bool)> {
    if raw == "" then Some((host, true))
    else if Address(world, host) then (if raw == host then Some((host, true)) else None)
    else
      var d := Lower(StripDot(raw));
      if GoodDomain(host, d) then Some((d, false)) else None
  }

  predicate GoodValue(value: string) {
    forall i :: 0 <= i < |value| ==> 32 <= value[i] as int < 127 && value[i] !in "\";\\"
  }

  function Shown(c: SetCookie): string {
    if c.quoted || ' ' in c.value || ',' in c.value then "\"" + c.value + "\"" else c.value
  }

  /** A sum past the latest instant means no expiry. */
  function ExpiryOf(world: World, c: SetCookie, now: int): Option<int> {
    if c.maxAge.Some? then
      if c.maxAge.value <= 0 then Some(now)
      else if now + c.maxAge.value * SECOND > world.latest then None
      else Some(now + c.maxAge.value * SECOND)
    else c.expires
  }

  predicate Expired(expires: Option<int>, now: int) { expires.Some? && expires.value <= now }

  function PathOf(url: Url, c: SetCookie): seq<Byte> {
    if c.path.Some? && [SLASH] <= c.path.value then c.path.value else DefaultPath(url.path)
  }

  predicate Acceptable(world: World, url: Url, c: SetCookie) {
    GoodValue(c.value) && DomainOf(world, url.host, c.domain).Some?
  }

  function KeyOf(world: World, url: Url, c: SetCookie): Key
    requires Acceptable(world, url, c)
  {
    Key(JarKey(world, url.host), DomainOf(world, url.host, c.domain).value.0, PathOf(url, c), c.name)
  }

  /** A key that is already there keeps its sequence number. */
  function Put(jar: Jar, key: Key, entry: Entry): Jar {
    if key in jar.entries then jar.(entries := jar.entries[key := entry.(sequence := jar.entries[key].sequence)])
    else Jar(jar.entries[key := entry.(sequence := jar.sequence)], jar.sequence + 1)
  }

  /** One `Set-Cookie` header. */
  function StoredOne(world: World, jar: Jar, url: Url, header: Option<SetCookie>, now: int): Jar {
    if header.None? || !Acceptable(world, url, header.value) then jar
    else
      var c := header.value;
      var key, expires := KeyOf(world, url, c), ExpiryOf(world, c, now);
      if Expired(expires, now) then jar.(entries := jar.entries - {key})
      else Put(jar, key, Entry(Shown(c), DomainOf(world, url.host, c.domain).value.1, c.secure, expires, 0))
  }

  function StoredAll(world: World, jar: Jar, url: Url, headers: seq<Option<SetCookie>>, now: int): Jar
    decreases |headers|
  {
    if headers == [] then jar
    else
      var n := |headers| - 1;
      StoredOne(world, StoredAll(world, jar, url, headers[..n], now), url, headers[n], now)
  }

  /** A batch over the limit is dropped whole. */
  function Stored(world: World, jar: Jar, url: Url, headers: seq<Option<SetCookie>>, now: int): Jar {
    if |headers| > MAX_HEADERS then jar else StoredAll(world, jar, url, headers, now)
  }

  function Fresh(jar: Jar, now: int): Jar {
    jar.(entries := map k | k in jar.entries && !Expired(jar.entries[k].expires, now) :: jar.entries[k])
  }

  // ----- sending ---------------------------------------------------------------------------------

  predicate Selected(world: World, url: Url, k: Key, e: Entry) {
    && k.jar == JarKey(world, url.host)
    && (e.secure ==> url.https)
    && (url.host == k.domain || (!e.hostOnly && EndsWith(url.host, "." + k.domain)))
    && PathMatches(url.path, k.path)
  }

  /** Section 5.1.3 of RFC 6265: only a name can lie below a domain. */
  predicate DomainMatches(world: World, domain: string, host: string) {
    host == domain || (Covers(domain, host) && !Address(world, host))
  }

  /** Section 5.4 of RFC 6265: what a request for `url` must carry, of what has not expired. */
  predicate RfcSends(world: World, url: Url, k: Key, e: Entry) {
    && (e.secure ==> url.https)
    && (if e.hostOnly then url.host == k.domain else DomainMatches(world, k.domain, url.host))
    && PathMatches(url.path, k.path)
  }

  /** Strictly before in byte order. */
  predicate Below(a: seq<Byte>, b: seq<Byte>) {
    b != [] && (a == [] || a[0] < b[0] || (a[0] == b[0] && Below(a[1..], b[1..])))
  }

  /** The order the program sorts by. */
  predicate SortsBefore(jar: Jar, a: Key, b: Key)
    requires a in jar.entries && b in jar.entries
  {
    Below(b.path, a.path) || (a.path == b.path && jar.entries[a].sequence < jar.entries[b].sequence)
  }

  /** The order of section 5.4 of RFC 6265. */
  predicate RfcBefore(jar: Jar, a: Key, b: Key)
    requires a in jar.entries && b in jar.entries
  {
    |a.path| > |b.path| || (|a.path| == |b.path| && jar.entries[a].sequence < jar.entries[b].sequence)
  }

  lemma {:induction false} PrefixesByLength(p: seq<Byte>, q: seq<Byte>, whole: seq<Byte>)
    requires p <= whole && q <= whole
    ensures Below(p, q) <==> |p| < |q|
    ensures p == q <==> |p| == |q|
    decreases |p|
  {
    if p != [] && q != [] {
      PrefixesByLength(p[1..], q[1..], whole[1..]);
      assert p == [p[0]] + p[1..] && q == [q[0]] + q[1..];
    }
  }

  /** Among the cookies of one request, byte order is the order the RFC asks for. */
  lemma {:induction false} SortOrderIsRfcOrder(world: World, jar: Jar, url: Url, a: Key, b: Key)
    requires a in jar.entries && b in jar.entries
    requires Selected(world, url, a, jar.entries[a]) && Selected(world, url, b, jar.entries[b])
    ensures SortsBefore(jar, a, b) <==> RfcBefore(jar, a, b)
  {
    hide JarKey, Below;
    PrefixesByLength(b.path, a.path, url.path);
  }

  // ----- what the partition hides ----------------------------------------------------------------

  /** Where a stored cookie may sit. */
  predicate EntryFits(world: World, k: Key, e: Entry) {
    if e.hostOnly then k.jar == JarKey(world, k.domain)
    else
      && ':' !in k.jar && ':' !in k.domain
      && LastTwo(k.jar) == k.jar && ('.' in k.domain ==> k.jar == LastTwo(k.domain))
  }

  lemma {:induction false} StoredFits(world: World, url: Url, c: SetCookie, e: Entry)
    requires Acceptable(world, url, c)
    requires e.hostOnly == DomainOf(world, url.host, c.domain).value.1
    ensures EntryFits(world, KeyOf(world, url, c), e)
  {
    hide LastTwo, PathOf, GoodValue;
    if !e.hostOnly {
      var d := KeyOf(world, url, c).domain;
      PartitionOf(d, url.host);
      LastTwoTwice(url.host);
      NoColon(url.host);
      NoColonBelow(d, url.host);
    }
  }

  lemma {:induction false} NoColon(host: string)
    requires ':' !in host
    ensures ':' !in LastTwo(host)
  {}

  lemma {:induction false} NoColonBelow(d: string, host: string)
    requires Covers(d, host) && ':' !in host
    ensures ':' !in d
  {
    if host != d {
      assert forall i | 0 <= i < |d| :: d[i] == ("." + d)[i + 1] == host[|host| - |d| + i];
    }
  }

  /** The program never asks whether the host is an address before it compares suffixes; the partition alone
      keeps domain cookies from addresses. */
  lemma {:induction false} AddressesGetNoDomainCookies(world: World, url: Url, k: Key, e: Entry)
    requires Lawful(world) && EntryFits(world, k, e) && !e.hostOnly && Address(world, url.host)
    ensures !Selected(world, url, k, e)
  {
    hide LastTwo, PathMatches;
  }

  /** Nothing is sent that RFC 6265 forbids, and for a named host everything it demands is sent, except
      cookies of a domain without a dot. */
  lemma {:induction false} SelectsWhatRfcSends(world: World, url: Url, k: Key, e: Entry)
    requires Lawful(world) && EntryFits(world, k, e)
    ensures Selected(world, url, k, e) ==> RfcSends(world, url, k, e)
    ensures e.hostOnly || ('.' in k.domain && !Address(world, url.host)) ==>
              (Selected(world, url, k, e) <==> RfcSends(world, url, k, e))
  {
    if !e.hostOnly && Address(world, url.host) {
      AddressesGetNoDomainCookies(world, url, k, e);
    }
    hide LastTwo, PathMatches, Lawful;
    if !e.hostOnly && Covers(k.domain, url.host) {
      PartitionOf(k.domain, url.host);
    }
  }

  /** A domain without a dot is covered by two names in different partitions. */
  lemma {:induction false} TwoNamesApart(world: World, d: string)
    requires Lawful(world) && '.' !in d && ':' !in d
    ensures !Address(world, d) && LastTwo(d) == d
    ensures !Address(world, "a." + d) && Covers(d, "a." + d) && LastTwo("a." + d) == "a." + d != d
  {
    var below := "a." + d;
    assert below == "a" + "." + d;
    OneLabel(d);
    hide LastTwo;
    TwoLabels("a", d);
    assert below[1..] == "." + d;
    assert ':' !in below;
  }

  lemma {:induction false} OneLabel(d: string)
    requires '.' !in d
    ensures LastTwo(d) == d
  {}

  /** Every named host that the RFC lets see a domain cookie gets it, if and only if the domain has a dot. */
  lemma {:induction false} DottedReachesAll(world: World, k: Key, e: Entry)
    requires Lawful(world) && EntryFits(world, k, e) && !e.hostOnly
    ensures (forall url: Url | !Address(world, url.host) && RfcSends(world, url, k, e) :: Selected(world, url, k, e))
              <==> '.' in k.domain
  {
    if '.' in k.domain {
      forall url: Url | !Address(world, url.host) && RfcSends(world, url, k, e) ensures Selected(world, url, k, e) {
        SelectsWhatRfcSends(world, url, k, e);
      }
    } else {
      TwoNamesApart(world, k.domain);
      hide LastTwo, Lawful;
      var at, below := Url(true, k.domain, k.path), Url(true, "a." + k.domain, k.path);
      assert RfcSends(world, at, k, e) && RfcSends(world, below, k, e);
      assert JarKey(world, at.host) != JarKey(world, below.host);
    }
  }

  // ----- runs ------------------------------------------------------------------------------------

  datatype Event =
    | Header(url: Url, header: Option<SetCookie>, now: int)
    | Sweep(now: int)
    | Clear

  function Next(world: World, jar: Jar, e: Event): Jar {
    match e
    case Header(url, header, now) => StoredOne(world, jar, url, header, now)
    case Sweep(now) => Fresh(jar, now)
    case Clear => jar.(entries := map[])
  }

  function After(world: World, events: seq<Event>): Jar
    decreases |events|
  {
    if events == [] then EMPTY
    else Next(world, After(world, events[..|events| - 1]), events[|events| - 1])
  }

  ghost predicate AllFit(world: World, jar: Jar) {
    forall k | k in jar.entries :: EntryFits(world, k, jar.entries[k])
  }

  /** Sequence numbers are used once. */
  ghost predicate Distinct(jar: Jar) {
    && (forall k | k in jar.entries :: jar.entries[k].sequence < jar.sequence)
    && (forall a, b | a in jar.entries && b in jar.entries ::
          jar.entries[a].sequence == jar.entries[b].sequence ==> a == b)
  }

  /** One step: survivors keep their number and at most one newcomer takes the next one. */
  ghost predicate Renumbers(jar: Jar, jar': Jar) {
    && jar.sequence <= jar'.sequence
    && (forall k | k in jar'.entries && k in jar.entries :: jar'.entries[k].sequence == jar.entries[k].sequence)
    && (forall k | k in jar'.entries && k !in jar.entries :: jar'.entries[k].sequence == jar.sequence < jar'.sequence)
    && (forall a, b | a in jar'.entries && a !in jar.entries && b in jar'.entries && b !in jar.entries :: a == b)
  }

  lemma {:induction false} StepRenumbers(world: World, jar: Jar, e: Event)
    ensures Renumbers(jar, Next(world, jar, e))
  {
    hide Acceptable, KeyOf, DomainOf, Shown, ExpiryOf, Expired;
  }

  lemma {:induction false} StepKeepsDistinct(world: World, jar: Jar, e: Event)
    requires Distinct(jar)
    ensures Distinct(Next(world, jar, e))
  {
    StepRenumbers(world, jar, e);
    hide Next;
  }

  lemma {:induction false} StepKeepsFit(world: World, jar: Jar, e: Event)
    requires AllFit(world, jar)
    ensures AllFit(world, Next(world, jar, e))
  {
    if e.Header? && e.header.Some? && Acceptable(world, e.url, e.header.value) {
      var c := e.header.value;
      hide KeyOf, DomainOf, Shown, ExpiryOf, Expired, EntryFits;
      forall entry: Entry | entry.hostOnly == DomainOf(world, e.url.host, c.domain).value.1
        ensures EntryFits(world, KeyOf(world, e.url, c), entry)
      {
        StoredFits(world, e.url, c, entry);
      }
    }
  }

  /** The step of the run that put in an entry which is there at its end. */
  function StoredAt(world: World, events: seq<Event>, k: Key): (n: nat)
    requires k in After(world, events).entries
    ensures n < |events|
    decreases |events|
  {
    assert events != [];
    var init := events[..|events| - 1];
    if k in After(world, init).entries then StoredAt(world, init, k) else |init|
  }

  lemma {:induction false} EveryReachableJar(world: World, events: seq<Event>)
    ensures Distinct(After(world, events)) && AllFit(world, After(world, events))
    decreases |events|
  {
    if events != [] {
      var n := |events| - 1;
      EveryReachableJar(world, events[..n]);
      hide Next, Distinct, AllFit;
      StepKeepsDistinct(world, After(world, events[..n]), events[n]);
      StepKeepsFit(world, After(world, events[..n]), events[n]);
    }
  }

  /** Sequence numbers order entries by the step that put them in, whatever updates, expiries and clears
      happened since. */
  lemma {:induction false} SequenceIsStoringOrder(world: World, events: seq<Event>, a: Key, b: Key)
    requires a in After(world, events).entries && b in After(world, events).entries
    ensures After(world, events).entries[a].sequence < After(world, events).entries[b].sequence <==>
              StoredAt(world, events, a) < StoredAt(world, events, b)
    ensures StoredAt(world, events, a) == StoredAt(world, events, b) ==> a == b
    decreases |events|
  {
    assert events != [];
    var n := |events| - 1;
    var jar := After(world, events[..n]);
    EveryReachableJar(world, events[..n]);
    StepRenumbers(world, jar, events[n]);
    hide Next;
    if a in jar.entries && b in jar.entries {
      SequenceIsStoringOrder(world, events[..n], a, b);
    }
  }

  // ----- creation, as the RFC has it --------------------------------------------------------------

  /** The event stores a cookie under `k`. */
  predicate Sets(world: World, e: Event, k: Key) {
    && e.Header? && e.header.Some? && Acceptable(world, e.url, e.header.value)
    && KeyOf(world, e.url, e.header.value) == k && !Expired(ExpiryOf(world, e.header.value, e.now), e.now)
  }

  /** Step `n` overwrites an entry that had expired but was not swept. */
  predicate Revives(world: World, events: seq<Event>, k: Key, n: nat) {
    && n < |events| && Sets(world, events[n], k)
    && k in After(world, events[..n]).entries && Expired(After(world, events[..n]).entries[k].expires, events[n].now)
  }

  // ----- the jar as its history ---------------------------------------------------------------------

  /** Whether a cookie received at `now` is alive at `later`: Max-Age, in seconds, goes before Expires, and one
      that ends after the latest instant never ends. */
  predicate Lives(world: World, c: SetCookie, now: int, later: int) {
    match c.maxAge
    case Some(seconds) =>
      seconds > 0 && (now + seconds * 1_000_000_000 > world.latest || later < now + seconds * 1_000_000_000)
    case None => c.expires.Some? ==> later < c.expires.value
  }

  lemma {:induction false} LivesUntilExpiry(world: World, c: SetCookie, now: int, later: int)
    requires later >= now || Lives(world, c, now, now)
    ensures Lives(world, c, now, later) <==> !Expired(ExpiryOf(world, c, now), later)
  {}

  /** A header is taken if and only if its value is printable and it names no domain, or its own address, or a
      domain, dot in front and letters of either case allowed, that its host is or lies below. */
  lemma {:induction false} AcceptedExactly(world: World, url: Url, c: SetCookie)
    ensures Acceptable(world, url, c) <==>
              && (forall i | 0 <= i < |c.value| :: ' ' <= c.value[i] <= '~' && c.value[i] !in {'"', ';', '\\'})
              && if c.domain == "" || Address(world, url.host) then c.domain == "" || c.domain == url.host
                 else exists raw | c.domain == raw || c.domain == "." + raw ::
                        BareName(raw) && Covers(Lower(raw), url.host)
  {
    if c.domain != "" && !Address(world, url.host) {
      var stripped := StripDot(c.domain);
      StrippedOnce(c.domain);
      LowerKeeps(stripped);
      forall raw | (c.domain == raw || c.domain == "." + raw) && BareName(raw) ensures raw == stripped {}
    }
    hide Covers, Lower, Address, GoodValue, BareName, StripDot;
  }

  predicate BareName(s: string) { s != "" && Ascii(s) && s[0] != '.' && s[|s| - 1] != '.' }

  lemma {:induction false} StrippedOnce(domain: string)
    ensures domain == StripDot(domain) || domain == "." + StripDot(domain)
  {}

  lemma {:induction false} LowerKeeps(s: string)
    ensures BareName(Lower(s)) <==> BareName(s)
  {}

  /** The last header that set `k`. */
  predicate LastSetAt(world: World, events: seq<Event>, k: Key, n: nat) {
    n < |events| && Sets(world, events[n], k) && forall m | n < m < |events| :: !Sets(world, events[m], k)
  }

  /** The event takes away a cookie kept under `k` that was set by `c` at `now`. */
  predicate Drops(world: World, e: Event, k: Key, c: SetCookie, now: int) {
    match e
    case Clear => true
    case Sweep(later) => !Lives(world, c, now, later)
    case Header(url, header, later) =>
      header.Some? && Acceptable(world, url, header.value) && KeyOf(world, url, header.value) == k
      && !Lives(world, header.value, later, later)
  }

  predicate DropsSince(world: World, events: seq<Event>, k: Key, n: nat)
    requires n < |events| && events[n].Header? && events[n].header.Some?
  {
    exists m | n < m < |events| :: Drops(world, events[m], k, events[n].header.value, events[n].now)
  }

  /** What an entry keeps of the header that set it. */
  predicate MadeBy(world: World, e: Entry, url: Url, c: SetCookie, now: int) {
    && e.value == (if c.quoted || ' ' in c.value || ',' in c.value then "\"" + c.value + "\"" else c.value)
    && e.secure == c.secure && e.expires == ExpiryOf(world, c, now)
    && (e.hostOnly <==> c.domain == "" || Address(world, url.host))
  }

  lemma {:induction false} SetMakes(world: World, jar: Jar, e: Event, k: Key)
    requires Sets(world, e, k)
    ensures k in Next(world, jar, e).entries
    ensures MadeBy(world, Next(world, jar, e).entries[k], e.url, e.header.value, e.now)
  {
    hide KeyOf, ExpiryOf, Expired, GoodValue, Lower, StripDot, GoodDomain, Address;
  }

  lemma {:induction false} OtherStepKeeps(world: World, jar: Jar, e: Event, k: Key, url: Url, c: SetCookie, now: int)
    requires !Sets(world, e, k) && Lives(world, c, now, now)
    requires k in jar.entries ==> MadeBy(world, jar.entries[k], url, c, now)
    ensures k in Next(world, jar, e).entries <==> k in jar.entries && !Drops(world, e, k, c, now)
    ensures k in Next(world, jar, e).entries ==> Next(world, jar, e).entries[k] == jar.entries[k]
  {
    match e
    case Clear =>
    case Sweep(later) =>
      LivesUntilExpiry(world, c, now, later);
      hide Lives, ExpiryOf, Expired, Shown;
    case Header(from, header, later) =>
      if header.Some? {
        LivesUntilExpiry(world, header.value, later, later);
      }
      hide Lives, ExpiryOf, Expired, Shown, Acceptable, KeyOf, DomainOf;
  }

  /** What the jar holds under a key is what the last header that set it said, unless something has dropped it
      since: an expired header for it, a sweep after its end, or a clear. */
  lemma {:induction false} KeptExactly(world: World, events: seq<Event>, k: Key, n: nat)
    requires LastSetAt(world, events, k, n)
    ensures k in After(world, events).entries <==> !DropsSince(world, events, k, n)
    ensures k in After(world, events).entries ==>
              MadeBy(world, After(world, events).entries[k], events[n].url, events[n].header.value, events[n].now)
    decreases |events|
  {
    var last := |events| - 1;
    var init, e := events[..last], events[last];
    var setter := events[n];
    hide Next, Drops, MadeBy, Sets;
    if n == last {
      SetMakes(world, After(world, init), e, k);
    } else {
      assert init[n] == setter && forall m | n < m < last :: init[m] == events[m];
      assert LastSetAt(world, init, k, n);
      KeptExactly(world, init, k, n);
      SetsLives(world, setter, k);
      assert !Sets(world, e, k);
      OtherStepKeeps(world, After(world, init), e, k, setter.url, setter.header.value, setter.now);
      assert DropsSince(world, events, k, n) <==>
               DropsSince(world, init, k, n) || Drops(world, e, k, setter.header.value, setter.now);
    }
  }

  lemma {:induction false} SetsLives(world: World, e: Event, k: Key)
    requires Sets(world, e, k)
    ensures Lives(world, e.header.value, e.now, e.now)
  {
    LivesUntilExpiry(world, e.header.value, e.now, e.now);
    hide Lives, ExpiryOf, Expired, Acceptable, KeyOf;
  }

  /** Nothing is in the jar that no header has set. */
  lemma {:induction false} KeptWasSet(world: World, events: seq<Event>, k: Key) returns (n: nat)
    requires k in After(world, events).entries
    ensures LastSetAt(world, events, k, n)
    decreases |events|
  {
    hide Sets, Next;
    assert events != [];
    var last := |events| - 1;
    if Sets(world, events[last], k) {
      n := last;
    } else {
      var init := events[..last];
      if k !in After(world, init).entries {
        NewcomerIsSet(world, After(world, init), events[last], k);
      }
      n := KeptWasSet(world, init, k);
      assert forall m | 0 <= m < last :: init[m] == events[m];
    }
  }

  /** Over every run, told from the last header that set a cookie: a request carries it exactly if nothing has
      dropped it, it is alive, it is not a secure one going over plain HTTP, and partition, host and path
      fit. Without a Domain attribute, or from an address, no host but its own gets it. */
  lemma {:induction false} CarriedExactly(world: World, events: seq<Event>, k: Key, n: nat, url: Url, now: int)
    requires LastSetAt(world, events, k, n)
    ensures var c, from, swept := events[n].header.value, events[n].url, After(world, events + [Sweep(now)]);
            (k in swept.entries && Selected(world, url, k, swept.entries[k])) <==>
              && !DropsSince(world, events, k, n) && Lives(world, c, events[n].now, now)
              && (c.secure ==> url.https)
              && JarKey(world, url.host) == JarKey(world, from.host)
              && (if c.domain == "" || Address(world, from.host) then url.host == from.host
                  else Covers(Lower(StripDot(c.domain)), url.host))
              && PathMatches(url.path,
                             if c.path.Some? && [SLASH] <= c.path.value then c.path.value else DefaultPath(from.path))
  {
    var setter, jar := events[n], After(world, events);
    KeptExactly(world, events, k, n);
    SetsLives(world, setter, k);
    LivesUntilExpiry(world, setter.header.value, setter.now, now);
    AfterOne(world, events, Sweep(now));
    SetsKey(world, setter, k);
    hide After, Sets, Lives, ExpiryOf, Expired, DropsSince, PathMatches, JarKey, DefaultPath, Lower, StripDot, Shown;
    hide Address, EndsWith;
  }

  /** The key a header is kept under, from its own attributes. */
  lemma {:induction false} SetsKey(world: World, e: Event, k: Key)
    requires Sets(world, e, k)
    ensures k.jar == JarKey(world, e.url.host) && k.name == e.header.value.name
    ensures var c := e.header.value;
            && k.path == (if c.path.Some? && [SLASH] <= c.path.value then c.path.value else DefaultPath(e.url.path))
            && k.domain ==
                 if c.domain == "" || Address(world, e.url.host) then e.url.host else Lower(StripDot(c.domain))
  {
    hide Lower, StripDot, Address, DefaultPath, JarKey, GoodValue, GoodDomain, ExpiryOf, Expired;
  }

  /** So a Secure cookie never goes over plain HTTP, and one without a Domain attribute to no other host. */
  lemma {:induction false} SecureAndHostOnlyHold(world: World, events: seq<Event>, url: Url, sent: seq<Key>, k: Key,
                                                 n: nat)
    requires Listed(world, After(world, events), url, sent) && k in sent && LastSetAt(world, events, k, n)
    ensures events[n].header.value.secure ==> url.https
    ensures events[n].header.value.domain == "" ==> url.host == events[n].url.host
  {
    KeptExactly(world, events, k, n);
    SetsKey(world, events[n], k);
    hide After, Sets, DropsSince, PathMatches, JarKey, Lower, StripDot, Shown, ExpiryOf, DefaultPath, Address;
  }

  /** The step that created the cookie by section 5.3 of RFC 6265: an expired cookie is evicted, so to set it
      again creates it, while to set an unexpired one keeps its creation time. */
  function CreatedAt(world: World, events: seq<Event>, k: Key): (n: nat)
    requires k in After(world, events).entries
    ensures n < |events|
    decreases |events|
  {
    assert events != [];
    var last := |events| - 1;
    if k !in After(world, events[..last]).entries || Revives(world, events, k, last) then last
    else CreatedAt(world, events[..last], k)
  }

  lemma {:induction false} NewcomerIsSet(world: World, jar: Jar, e: Event, k: Key)
    requires k !in jar.entries && k in Next(world, jar, e).entries
    ensures Sets(world, e, k)
  {
    hide Acceptable, KeyOf, DomainOf, Shown, ExpiryOf, Expired;
  }

  lemma {:induction false} RevivesInPrefix(world: World, events: seq<Event>, m: nat, k: Key, n: nat)
    requires n < m <= |events|
    ensures Revives(world, events[..m], k, n) <==> Revives(world, events, k, n)
  {
    hide After, Sets, Expired;
    assert events[..m][..n] == events[..n];
  }

  lemma {:induction false} CreatedStep(world: World, events: seq<Event>, k: Key)
    requires k in After(world, events).entries
    ensures events != []
    ensures var last := |events| - 1;
            var old' := k in After(world, events[..last]).entries;
            && (!old' ==> Sets(world, events[last], k))
            && StoredAt(world, events, k) == (if old' then StoredAt(world, events[..last], k) else last)
            && CreatedAt(world, events, k) ==
                 (if old' && !Revives(world, events, k, last) then CreatedAt(world, events[..last], k) else last)
  {
    assert events != [];
    var last := |events| - 1;
    hide Revives, Sets, Next;
    if k !in After(world, events[..last]).entries {
      NewcomerIsSet(world, After(world, events[..last]), events[last], k);
    }
  }

  /** The cookie was created when it was put in or when it was last revived. */
  lemma {:induction false} CreatedWhenLastRevived(world: World, events: seq<Event>, k: Key)
    requires k in After(world, events).entries
    ensures StoredAt(world, events, k) <= CreatedAt(world, events, k)
    ensures Sets(world, events[CreatedAt(world, events, k)], k)
    ensures CreatedAt(world, events, k) == StoredAt(world, events, k) ||
            Revives(world, events, k, CreatedAt(world, events, k))
    ensures forall n | CreatedAt(world, events, k) < n < |events| :: !Revives(world, events, k, n)
    decreases |events|
  {
    hide StoredAt, CreatedAt, Revives, Sets, After;
    CreatedStep(world, events, k);
    var last, init := |events| - 1, events[..|events| - 1];
    if k in After(world, init).entries {
      var m := CreatedAt(world, init, k);
      assert && StoredAt(world, init, k) <= m && Sets(world, events[m], k)
             && (m == StoredAt(world, init, k) || Revives(world, events, k, m))
             && (forall n | m < n < last :: !Revives(world, events, k, n)) by {
        CreatedWhenLastRevived(world, init, k);
        assert events[m] == init[m];
        RevivesInPrefix(world, events, last, k, m);
        forall n | m < n < last ensures !Revives(world, events, k, n) {
          RevivesInPrefix(world, events, last, k, n);
        }
      }
      if Revives(world, events, k, last) {
        RevivesSets(world, events, k, last);
      }
    }
  }

  lemma {:induction false} RevivesSets(world: World, events: seq<Event>, k: Key, n: nat)
    requires Revives(world, events, k, n)
    ensures Sets(world, events[n], k)
  {
    hide Sets, After;
  }

  /** A sweep at the instant of the header leaves nothing to revive. */
  lemma {:induction false} SweepPreventsRevival(world: World, events: seq<Event>, k: Key, n: nat)
    requires 0 < n < |events| && events[n].Header? && events[n - 1] == Sweep(events[n].now)
    ensures !Revives(world, events, k, n)
  {
    assert events[..n][..n - 1] == events[..n - 1];
    assert After(world, events[..n]) == Fresh(After(world, events[..n - 1]), events[n].now);
  }

  /** A batch is its headers one by one. */
  lemma {:induction false} StoredAllIsARun(world: World, events: seq<Event>, url: Url,
                                           headers: seq<Option<SetCookie>>, now: int)
    ensures After(world, events + seq(|headers|, i requires 0 <= i < |headers| => Header(url, headers[i], now))) ==
              StoredAll(world, After(world, events), url, headers, now)
    decreases |headers|
  {
    hide StoredOne;
    var steps := seq(|headers|, i requires 0 <= i < |headers| => Header(url, headers[i], now));
    if headers == [] {
      assert events + steps == events;
    } else {
      var n := |headers| - 1;
      var init := seq(n, i requires 0 <= i < n => Header(url, headers[..n][i], now));
      StoredAllIsARun(world, events, url, headers[..n], now);
      var all := events + steps;
      assert all[..|all| - 1] == events + init;
      assert all[|all| - 1] == Header(url, headers[n], now);
    }
  }

  lemma {:induction false} StoredAllKeeps(world: World, jar: Jar, url: Url, headers: seq<Option<SetCookie>>, now: int)
    requires Distinct(jar) && AllFit(world, jar)
    ensures Distinct(StoredAll(world, jar, url, headers, now))
    ensures AllFit(world, StoredAll(world, jar, url, headers, now))
    decreases |headers|
  {
    if headers != [] {
      var n := |headers| - 1;
      StoredAllKeeps(world, jar, url, headers[..n], now);
      hide StoredOne, Distinct, AllFit;
      StepKeepsDistinct(world, StoredAll(world, jar, url, headers[..n], now), Header(url, headers[n], now));
      StepKeepsFit(world, StoredAll(world, jar, url, headers[..n], now), Header(url, headers[n], now));
    }
  }

  /** An accepted cookie goes back to every later request that the RFC allows from the same host. */
  lemma {:induction false} AcceptedIsSentBack(world: World, jar: Jar, url: Url, c: SetCookie, now: int, again: Url,
                                              later: int)
    requires Acceptable(world, url, c) && !Expired(ExpiryOf(world, c, now), now)
    requires !Expired(ExpiryOf(world, c, now), later)
    requires again.host == url.host && (c.secure ==> again.https) && PathMatches(again.path, PathOf(url, c))
    ensures var key, kept := KeyOf(world, url, c), Fresh(StoredOne(world, jar, url, Some(c), now), later);
            key in kept.entries && Selected(world, again, key, kept.entries[key]) && kept.entries[key].value == Shown(c)
  {
    hide LastTwo, ExpiryOf, Shown, PathMatches, GoodValue;
  }

  // ----- the header ------------------------------------------------------------------------------

  /** Exactly the selected cookies, longest path first and then earliest creation. */
  ghost predicate Listed(world: World, jar: Jar, url: Url, keys: seq<Key>) {
    && (forall k :: k in keys <==> k in jar.entries && Selected(world, url, k, jar.entries[k]))
    && (forall i, j :: 0 <= i < j < |keys| ==> RfcBefore(jar, keys[i], keys[j]))
  }

  ghost predicate Ordered(jar: Jar, keys: seq<Key>) {
    && (forall k | k in keys :: k in jar.entries)
    && (forall i, j :: 0 <= i < j < |keys| ==> RfcBefore(jar, keys[i], keys[j]))
  }

  lemma {:induction false} OrderedUnique(jar: Jar, a: seq<Key>, b: seq<Key>)
    requires Ordered(jar, a) && Ordered(jar, b) && forall k :: k in a <==> k in b
    ensures a == b
    decreases |a|
  {
    assert b != [] ==> b[0] in a;
    if a != [] {
      assert a[0] in b && b[0] in a;
      assert a[0] == b[0];
      forall k ensures k in a[1..] <==> k in b[1..] {
        assert k in a <==> k == a[0] || k in a[1..];
        assert k in b <==> k == b[0] || k in b[1..];
        assert a[0] !in a[1..] && b[0] !in b[1..];
      }
      OrderedUnique(jar, a[1..], b[1..]);
      assert a == [a[0]] + a[1..] && b == [b[0]] + b[1..];
    }
  }

  /** So the jar and the request determine the header. */
  lemma {:induction false} ListedUnique(world: World, jar: Jar, url: Url, a: seq<Key>, b: seq<Key>)
    requires Listed(world, jar, url, a) && Listed(world, jar, url, b)
    ensures a == b
  {
    hide Selected;
    OrderedUnique(jar, a, b);
  }

  /** After any run, what a request gets is unexpired and what section 5.4 of RFC 6265 allows, and all that
      it demands apart from undotted domains and, at an address, domain cookies. Longer paths come first, and
      then what was put in earlier. */
  lemma {:induction false} HeaderFollowsRfc(world: World, events: seq<Event>, url: Url, now: int, sent: seq<Key>)
    requires Lawful(world) && Listed(world, After(world, events + [Sweep(now)]), url, sent)
    ensures var jar := After(world, events);
            && (forall k | k in sent :: k in jar.entries && !Expired(jar.entries[k].expires, now)
                                        && RfcSends(world, url, k, jar.entries[k]))
            && (forall k | k in jar.entries && !Expired(jar.entries[k].expires, now)
                           && RfcSends(world, url, k, jar.entries[k])
                           && (jar.entries[k].hostOnly || ('.' in k.domain && !Address(world, url.host))) :: k in sent)
            && (forall i, j :: 0 <= i < j < |sent| ==>
                  || |sent[i].path| > |sent[j].path|
                  || (|sent[i].path| == |sent[j].path| &&
                      StoredAt(world, events, sent[i]) < StoredAt(world, events, sent[j])))
  {
    var jar, swept := After(world, events), After(world, events + [Sweep(now)]);
    assert (events + [Sweep(now)])[..|events|] == events;
    assert swept == Fresh(jar, now);
    hide Selected, RfcSends, EntryFits, Address, After, StoredAt, Lawful, Expired;
    EveryReachableJar(world, events);
    forall k | k in jar.entries
      ensures Selected(world, url, k, jar.entries[k]) ==> RfcSends(world, url, k, jar.entries[k])
      ensures jar.entries[k].hostOnly || ('.' in k.domain && !Address(world, url.host)) ==>
                (Selected(world, url, k, jar.entries[k]) <==> RfcSends(world, url, k, jar.entries[k]))
    {
      SelectsWhatRfcSends(world, url, k, jar.entries[k]);
    }
    assert forall k | k in swept.entries :: k in jar.entries && swept.entries[k] == jar.entries[k];
    forall i, j | 0 <= i < j < |sent|
      ensures |sent[i].path| > |sent[j].path| ||
              (|sent[i].path| == |sent[j].path| && StoredAt(world, events, sent[i]) < StoredAt(world, events, sent[j]))
    {
      assert RfcBefore(swept, sent[i], sent[j]);
      SequenceIsStoringOrder(world, events, sent[i], sent[j]);
    }
  }

  /** The order that section 5.4 of RFC 6265 asks for, by the creation of section 5.3. */
  predicate RfcEarlier(world: World, events: seq<Event>, a: Key, b: Key)
    requires a in After(world, events).entries && b in After(world, events).entries
  {
    |a.path| > |b.path| || (|a.path| == |b.path| && CreatedAt(world, events, a) < CreatedAt(world, events, b))
  }

  lemma {:induction false} EarlierUnlessRevived(world: World, events: seq<Event>, a: Key, b: Key)
    requires a in After(world, events).entries && b in After(world, events).entries && a != b
    requires StoredAt(world, events, a) < StoredAt(world, events, b)
    ensures CreatedAt(world, events, a) < CreatedAt(world, events, b) <==>
              forall n | CreatedAt(world, events, b) < n < |events| :: !Revives(world, events, a, n)
  {
    CreatedWhenLastRevived(world, events, a);
    CreatedWhenLastRevived(world, events, b);
    hide StoredAt, CreatedAt, Revives, After;
  }

  /** The header is in the order of the RFC, if and only if no cookie in it was set again, expired and not
      yet swept, after one behind it with a path as long had been created. */
  lemma {:induction false} HeaderOrderExactly(world: World, events: seq<Event>, url: Url, now: int, sent: seq<Key>)
    requires Lawful(world) && Listed(world, After(world, events + [Sweep(now)]), url, sent)
    ensures forall k | k in sent :: k in After(world, events).entries
    ensures (forall i, j | 0 <= i < j < |sent| :: RfcEarlier(world, events, sent[i], sent[j])) <==>
            (forall i, j, n | 0 <= i < j < |sent| && |sent[i].path| == |sent[j].path|
                              && CreatedAt(world, events, sent[j]) < n < |events| ::
               !Revives(world, events, sent[i], n))
  {
    HeaderFollowsRfc(world, events, url, now, sent);
    hide RfcSends, Expired, Address, After, Lawful, StoredAt, CreatedAt, Revives;
    forall i, j | 0 <= i < j < |sent|
      ensures RfcEarlier(world, events, sent[i], sent[j]) <==>
                (|sent[i].path| == |sent[j].path| ==>
                   forall n | CreatedAt(world, events, sent[j]) < n < |events| :: !Revives(world, events, sent[i], n))
    {
      if |sent[i].path| == |sent[j].path| {
        EarlierUnlessRevived(world, events, sent[i], sent[j]);
      }
    }
    hide RfcEarlier;
  }

  /** The entries are the cookies of the RFC, which knows no partition, for dotted names. */
  lemma {:induction false} OneEntryPerCookie(world: World, events: seq<Event>, a: Key, b: Key)
    requires a in After(world, events).entries && b in After(world, events).entries
    requires a.domain == b.domain && a.path == b.path && a.name == b.name
    requires '.' in a.domain && !Address(world, a.domain)
    ensures a == b
  {
    EveryReachableJar(world, events);
    assert EntryFits(world, a, After(world, events).entries[a]) && EntryFits(world, b, After(world, events).entries[b]);
    hide After, LastTwo, Distinct;
  }

  /** A domain cookie of any reachable jar reaches every host the RFC sends it to, if and only if its domain
      has a dot and is not an address. */
  lemma {:induction false} HiddenExactly(world: World, events: seq<Event>, k: Key)
    requires Lawful(world) && k in After(world, events).entries && !After(world, events).entries[k].hostOnly
    ensures (forall url: Url | RfcSends(world, url, k, After(world, events).entries[k]) ::
               Selected(world, url, k, After(world, events).entries[k]))
              <==> '.' in k.domain && !Address(world, k.domain)
  {
    EveryReachableJar(world, events);
    var e := After(world, events).entries[k];
    assert EntryFits(world, k, e);
    hide Selected, EntryFits, After, Address, Lawful;
    DottedReachesAll(world, k, e);
    var at := Url(true, k.domain, k.path);
    assert RfcSends(world, at, k, e);
    if Address(world, k.domain) {
      AddressesGetNoDomainCookies(world, at, k, e);
    }
  }

  /** The failing case, from an empty jar: `api.example.test` sets a cookie for `test`; the RFC sends it to
      `other.test`, the program does not. */
  lemma {:induction false} UndottedDomainIsHidden(world: World, now: int)
    requires !Address(world, "api.example.test") && !Address(world, "other.test")
    ensures var c := SetCookie("public", "6", false, "test", Some([SLASH]), None, None, false);
            var api, other := Url(true, "api.example.test", [SLASH]), Url(true, "other.test", [SLASH]);
            && Acceptable(world, api, c)
            && var k, jar := KeyOf(world, api, c), StoredOne(world, EMPTY, api, Some(c), now);
               && k in jar.entries && Selected(world, api, k, jar.entries[k])
               && RfcSends(world, other, k, jar.entries[k]) && !Selected(world, other, k, jar.entries[k])
  {
    var c := SetCookie("public", "6", false, "test", Some([SLASH]), None, None, false);
    var api, other := Url(true, "api.example.test", [SLASH]), Url(true, "other.test", [SLASH]);
    TestHosts();
    hide LastTwo, Lower, GoodDomain;
    assert Acceptable(world, api, c);
    assert KeyOf(world, api, c) == Key(LastTwo(api.host), "test", [SLASH], "public");
    var jar := StoredOne(world, EMPTY, api, Some(c), now);
    assert KeyOf(world, api, c) in jar.entries;
  }

  lemma {:induction false} AfterOne(world: World, events: seq<Event>, e: Event)
    ensures After(world, events + [e]) == Next(world, After(world, events), e)
  {
    assert (events + [e])[..|events|] == events;
  }

  /** The failing case for the order: `a` lives for a second, `b` is set meanwhile, and ten seconds later `a`
      is set again before any request has swept it. It keeps its place, although it was created after `b`. */
  lemma {:induction false} RevivedCookieKeepsItsPlace(world: World, host: string)
    requires world.latest >= SECOND
    ensures var url := Url(true, host, [SLASH]);
            var c := SetCookie("a", "1", false, "", Some([SLASH]), Some(1), None, false);
            var d, again := c.(name := "b", maxAge := None), c.(maxAge := None);
            var events := [Header(url, Some(c), 0), Header(url, Some(d), 1), Header(url, Some(again), 10 * SECOND)];
            var a, b := KeyOf(world, url, c), KeyOf(world, url, d);
            && a in After(world, events).entries && b in After(world, events).entries
            && RfcBefore(After(world, events), a, b)
            && Revives(world, events, a, 2) && RfcEarlier(world, events, b, a)
  {
    var url := Url(true, host, [SLASH]);
    var c := SetCookie("a", "1", false, "", Some([SLASH]), Some(1), None, false);
    var d, again := c.(name := "b", maxAge := None), c.(maxAge := None);
    var e0, e1, e2 := Header(url, Some(c), 0), Header(url, Some(d), 1), Header(url, Some(again), 10 * SECOND);
    var events := [e0, e1, e2];
    var a, b := KeyOf(world, url, c), KeyOf(world, url, d);
    hide LastTwo, Address;
    assert events[..2] == [e0, e1] && events[..2][..1] == [e0] && events[..2][..1][..0] == [];
    var j1, j2, j3 := After(world, [e0]), After(world, [e0, e1]), After(world, events);
    assert [] + [e0] == [e0] && [e0] + [e1] == [e0, e1] && [e0, e1] + [e2] == events;
    AfterOne(world, [], e0);
    AfterOne(world, [e0], e1);
    AfterOne(world, [e0, e1], e2);
    hide After;
    assert j1.sequence == 1 && a in j1.entries && b !in j1.entries && j1.entries[a].expires == Some(SECOND);
    assert j2.sequence == 2 && b in j2.entries && j2.entries[a] == j1.entries[a] && j2.entries[b].sequence == 1;
    assert j3.entries[a].sequence == 0 && j3.entries[b] == j2.entries[b];
    assert Revives(world, events, a, 2);
    assert CreatedAt(world, events, a) == 2;
    assert !Revives(world, events, b, 2);
    assert CreatedAt(world, events, b) == CreatedAt(world, events[..2], b) == 1;
  }

  lemma {:induction false} TestHosts()
    ensures Lower(StripDot("test")) == "test" && GoodDomain("api.example.test", "test")
    ensures Covers("test", "other.test")
    ensures LastTwo("api.example.test") != LastTwo("other.test")
  {
    hide LastTwo;
    var api, example, other := "api.example.test", "example.test", "other.test";
    assert api[|api| - 5..] == "." + "test" && other[|other| - 5..] == "." + "test";
    assert api == "api" + "." + example && example == "example" + "." + "test" && other == "other" + "." + "test";
    assert example[7] == '.';
    PartitionBelow("api", example);
    TwoLabels("example", "test");
    TwoLabels("other", "test");
    assert example[0] == 'e' && other[0] == 'o';
    assert Lower("test") == "test";
  }

  function Rendered(jar: Jar, keys: seq<Key>): string
    requires forall k | k in keys :: k in jar.entries
    decreases |keys|
  {
    if keys == [] then ""
    else
      var n := |keys| - 1;
      var pair := keys[n].name + "=" + jar.entries[keys[n]].value;
      if n == 0 then pair else Rendered(jar, keys[..n]) + "; " + pair
  }

  /** How a server takes a header apart: at every semicolon and the space behind it. */
  function Pairs(header: string): (pairs: seq<string>)
    decreases |header|
  {
    var k := LastIndex(header, ';');
    if k < 0 then [header]
    else Pairs(header[..k]) + [header[if k + 2 < |header| then k + 2 else |header|..]]
  }

  function NameAndValue(jar: Jar, k: Key): string
    requires k in jar.entries
  {
    k.name + "=" + jar.entries[k].value
  }

  /** A server gets back the listed names and values, in their order. */
  lemma {:induction false} RenderedTakenApart(jar: Jar, keys: seq<Key>)
    requires keys != [] && forall k | k in keys :: k in jar.entries && ';' !in k.name && ';' !in jar.entries[k].value
    ensures var pairs := Pairs(Rendered(jar, keys));
            |pairs| == |keys| && forall i :: 0 <= i < |keys| ==> pairs[i] == NameAndValue(jar, keys[i])
    decreases |keys|
  {
    var n := |keys| - 1;
    hide LastIndex, Pairs, Rendered;
    var k, init := keys[n], keys[..n];
    RenderedStep(jar, keys);
    PairWithoutSemicolon(jar, k);
    hide NameAndValue;
    if n == 0 {
      OnePair(NameAndValue(jar, k));
    } else {
      RenderedTakenApart(jar, init);
      LastSemicolon(Rendered(jar, init), NameAndValue(jar, k));
    }
  }

  lemma {:induction false} PairWithoutSemicolon(jar: Jar, k: Key)
    requires k in jar.entries && ';' !in k.name && ';' !in jar.entries[k].value
    ensures ';' !in NameAndValue(jar, k)
  {}

  lemma {:induction false} RenderedStep(jar: Jar, keys: seq<Key>)
    requires keys != [] && forall k | k in keys :: k in jar.entries
    ensures var n := |keys| - 1;
            Rendered(jar, keys) == if n == 0 then NameAndValue(jar, keys[n])
                                   else Rendered(jar, keys[..n]) + "; " + NameAndValue(jar, keys[n])
  {}

  lemma {:induction false} OnePair(pair: string)
    requires ';' !in pair
    ensures Pairs(pair) == [pair]
  {}

  lemma {:induction false} LastSemicolon(front: string, pair: string)
    requires ';' !in pair
    ensures Pairs(front + "; " + pair) == Pairs(front) + [pair]
  {
    var header := front + "; " + pair;
    assert header[|front|] == ';';
    assert forall i | |front| < i < |header| :: header[i] == if i == |front| + 1 then ' ' else pair[i - |front| - 2];
    assert LastIndex(header, ';') == |front|;
    assert header[..|front|] == front && header[|front| + 2..] == pair;
  }

  /** No value holds a semicolon, whatever was stored. */
  lemma {:induction false} ValuesWithoutSemicolon(world: World, events: seq<Event>, k: Key)
    requires k in After(world, events).entries
    ensures ';' !in After(world, events).entries[k].value
  {
    var n := KeptWasSet(world, events, k);
    KeptExactly(world, events, k, n);
    var c := events[n].header.value;
    assert GoodValue(c.value);
    hide After, DropsSince, GoodValue;
    assert ';' !in c.value by {
      ValueWithoutSemicolon(c.value);
    }
  }

  lemma {:induction false} ValueWithoutSemicolon(value: string)
    requires GoodValue(value)
    ensures ';' !in value
  {}

  // ----- the program -----------------------------------------------------------------------------

  class CookieJar {
    const world: World
    var entries: map<Key, Entry>
    var sequence: nat

    function Model(): Jar
      reads this
    {
      Jar(entries, sequence)
    }

    ghost predicate Valid()
      reads this
    {
      Distinct(Model()) && AllFit(world, Model())
    }

    constructor (world: World)
      ensures Valid() && Model() == EMPTY && this.world == world
    {
      this.world := world;
      entries, sequence := map[], 0;
    }

    method Clear()
      requires Valid()
      modifies this`entries
      ensures Valid() && Model() == Next(world, old(Model()), Event.Clear)
    {
      entries := map[];
    }

    /** One pass of the loop. */
    method StoreOne(url: Url, header: Option<SetCookie>, now: int)
      modifies this`entries, this`sequence
      ensures Model() == StoredOne(world, old(Model()), url, header, now)
      ensures forall k | Sets(world, Event.Header(url, header, now), k) ::
                k in entries && MadeBy(world, entries[k], url, header.value, now)
      ensures header.None? || !Acceptable(world, url, header.value) ==> Model() == old(Model())
    {
      forall k | Sets(world, Event.Header(url, header, now), k)
        ensures var jar := StoredOne(world, Model(), url, header, now);
                k in jar.entries && MadeBy(world, jar.entries[k], url, header.value, now)
      {
        SetMakes(world, Model(), Event.Header(url, header, now), k);
      }
      hide JarKey, PathOf, ExpiryOf, Shown, GoodValue, Covers, Ascii, Address, StripDot, Sets, MadeBy;
      if header.None? {
        return;
      }
      var c := header.value;
      if !GoodValue(c.value) {
        return;
      }
      var domain, hostOnly;
      if c.domain == "" {
        domain, hostOnly := url.host, true;
      } else if Address(world, url.host) {
        if c.domain != url.host {
          return;
        }
        domain, hostOnly := url.host, true;
      } else {
        domain, hostOnly := Lower(StripDot(c.domain)), false;
        if domain == "" || !Ascii(domain) || domain[0] == '.' || domain[|domain| - 1] == '.'
           || !Covers(domain, url.host) {
          return;
        }
      }
      var key := Key(JarKey(world, url.host), domain, PathOf(url, c), c.name);
      var expires := ExpiryOf(world, c, now);
      if Expired(expires, now) {
        entries := entries - {key};
        return;
      }
      var number := sequence;
      if key in entries {
        number := entries[key].sequence;
      } else {
        sequence := sequence + 1;
      }
      entries := entries[key := Entry(Shown(c), hostOnly, c.secure, expires, number)];
    }

    method Store(url: Url, headers: seq<Option<SetCookie>>, now: int)
      requires Valid()
      modifies this`entries, this`sequence
      ensures Valid() && Model() == Stored(world, old(Model()), url, headers, now)
      ensures Model() == if |headers| > 3000 then old(Model()) else StoredAll(world, old(Model()), url, headers, now)
    {
      hide StoredOne, Distinct, AllFit;
      if |headers| > MAX_HEADERS {
        return;
      }
      for i := 0 to |headers|
        invariant Model() == StoredAll(world, old(Model()), url, headers[..i], now)
      {
        StoreOne(url, headers[i], now);
        assert headers[..i + 1][..i] == headers[..i];
      }
      assert headers[..|headers|] == headers;
      StoredAllKeeps(world, old(Model()), url, headers, now);
    }

    /** The sorting by bytes and sequence; `chosen` is what the filter let through. */
    method Sorted(url: Url, chosen: set<Key>) returns (keys: seq<Key>)
      requires Distinct(Model())
      requires forall k | k in chosen :: k in entries && Selected(world, url, k, entries[k])
      ensures Ordered(Model(), keys) && forall k :: k in keys <==> k in chosen
    {
      keys := [];
      var rest := chosen;
      while rest != {}
        invariant rest <= chosen
        invariant Ordered(Model(), keys) && forall k :: k in keys <==> k in chosen && k !in rest
        decreases rest
      {
        var key :| key in rest;
        var at := 0;
        while at < |keys| && SortsBefore(Model(), keys[at], key)
          invariant 0 <= at <= |keys|
          invariant forall i :: 0 <= i < at ==> SortsBefore(Model(), keys[i], key)
        {
          at := at + 1;
        }
        forall k | k in keys ensures SortsBefore(Model(), k, key) <==> RfcBefore(Model(), k, key) {
          SortOrderIsRfcOrder(world, Model(), url, k, key);
        }
        InsertOrdered(Model(), keys, at, key);
        keys := keys[..at] + [key] + keys[at..];
        rest := rest - {key};
      }
    }

    method Render(keys: seq<Key>) returns (header: string)
      requires forall k | k in keys :: k in entries
      ensures header == Rendered(Model(), keys)
    {
      header := "";
      for i := 0 to |keys|
        invariant header == Rendered(Model(), keys[..i])
      {
        assert keys[..i + 1][..i] == keys[..i];
        var pair := keys[i].name + "=" + entries[keys[i]].value;
        header := if i == 0 then pair else header + "; " + pair;
      }
      assert keys[..|keys|] == keys;
    }

    method Header(url: Url, now: int) returns (header: string, ghost sent: seq<Key>)
      requires Valid()
      modifies this`entries
      ensures Valid() && Model() == Fresh(old(Model()), now)
      ensures Listed(world, Model(), url, sent) && header == Rendered(Model(), sent)
    {
      hide Selected, EntryFits, Expired;
      entries := map k | k in entries && !Expired(entries[k].expires, now) :: entries[k];
      assert Model() == Next(world, old(Model()), Sweep(now));
      assert Valid() by {
        StepKeepsDistinct(world, old(Model()), Sweep(now));
        StepKeepsFit(world, old(Model()), Sweep(now));
      }
      var chosen := set k | k in entries && Selected(world, url, k, entries[k]);
      var keys := Sorted(url, chosen);
      assert Listed(world, Model(), url, keys);
      sent := keys;
      header := Render(keys);
    }
  }

  lemma {:induction false} InsertOrdered(jar: Jar, keys: seq<Key>, at: nat, key: Key)
    requires Distinct(jar) && Ordered(jar, keys) && at <= |keys| && key in jar.entries && key !in keys
    requires forall i :: 0 <= i < at ==> RfcBefore(jar, keys[i], key)
    requires at < |keys| ==> !RfcBefore(jar, keys[at], key)
    ensures Ordered(jar, keys[..at] + [key] + keys[at..])
    ensures forall k :: k in keys[..at] + [key] + keys[at..] <==> k in keys || k == key
  {
    var all := keys[..at] + [key] + keys[at..];
    assert keys == keys[..at] + keys[at..];
    if at < |keys| {
      assert RfcBefore(jar, key, keys[at]);
    }
    forall i, j | 0 <= i < j < |all| ensures RfcBefore(jar, all[i], all[j]) {
      if j < at || i > at {
      } else if i == at && j > at + 1 {
        assert RfcBefore(jar, keys[at], keys[j - 1]);
      }
    }
  }
}
