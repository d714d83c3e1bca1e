/**
  Log redaction over raw bytes (rust_backend/crates/extensions/src/redact.rs).

  Patterns are matched on the decoded text, in which each malformed byte has become the three bytes
  of U+FFFD; the edits are made to the raw bytes at mapped positions. `SpliceCommutes` says that the
  two views stay in step, and `SanitizeBytes` carries it through the list of patterns.
*/
module Redact {
  import opened Bytes
  import opened Sequences
  import opened Utf8

  /** One match of a pattern in the decoded text and its expanded replacement. */
  datatype Match = Match(start: nat, end: nat, with: seq<Byte>)

  /** A compiled pattern with its replacement template: the matches it finds in a text. */
  type Pattern = seq<Byte> -> seq<Match>

  /** What a regular expression engine promises: ascending disjoint ranges from `at` on, between
      characters; and what the templates promise: a replacement is text and never empty. */
  predicate Matches(text: seq<Byte>, at: nat, ms: seq<Match>)
    decreases |ms|
  {
    at <= |text| &&
    (ms == [] ||
     (&& at <= ms[0].start <= ms[0].end <= |text|
      && CharBoundary(text, ms[0].start) && CharBoundary(text, ms[0].end)
      && ms[0].with != [] && Valid(ms[0].with)
      && Matches(text, ms[0].end, ms[1..])))
  }

  ghost predicate Sound(pattern: Pattern) {
    forall text :: Valid(text) ==> Matches(text, 0, pattern(text))
  }

  predicate InRange(s: seq<Byte>, at: nat, ms: seq<Match>)
    decreases |ms|
  {
    at <= |s| && (ms == [] || (at <= ms[0].start <= ms[0].end <= |s| && InRange(s, ms[0].end, ms[1..])))
  }

  /** `Regex::replace_all` from position `at` on. */
  function Splice(s: seq<Byte>, ms: seq<Match>, at: nat): seq<Byte>
    requires InRange(s, at, ms)
    decreases |ms|
  {
    if ms == [] then s[at..]
    else s[at..ms[0].start] + (ms[0].with + Splice(s, ms[1..], ms[0].end))
  }

  /** The last match: what lies behind it stays, its own range is replaced, and the rest is spliced before it. */
  lemma {:induction false} SpliceLast(s: seq<Byte>, ms: seq<Match>, m: Match, at: nat)
    requires InRange(s, at, ms + [m])
    ensures m.start <= m.end <= |s| && InRange(s[..m.start], at, ms)
    ensures Splice(s, ms + [m], at) == Splice(s[..m.start], ms, at) + m.with + s[m.end..]
    decreases |ms|
  {
    if ms == [] {
      SpliceOne(s, m, at);
      assert [] + [m] == [m];
    } else {
      var rest := ms[1..];
      assert (ms + [m])[0] == ms[0] && (ms + [m])[1..] == rest + [m];
      SpliceLast(s, rest, m, ms[0].end);
      SpliceStep(s, ms + [m], at);
      SpliceStep(s[..m.start], ms, at);
      hide Splice, InRange;
      assert s[..m.start][at..ms[0].start] == s[at..ms[0].start];
      FiveJoined(s[at..ms[0].start], ms[0].with, Splice(s[..m.start], rest, ms[0].end), m.with, s[m.end..]);
    }
  }

  lemma {:induction false} SpliceOne(s: seq<Byte>, m: Match, at: nat)
    requires InRange(s, at, [m])
    ensures at <= m.start <= m.end <= |s|
    ensures Splice(s, [m], at) == Splice(s[..m.start], [], at) + m.with + s[m.end..]
  {
    assert [m][1..] == [] && s[..m.start][at..] == s[at..m.start];
    Assoc(s[at..m.start], m.with, s[m.end..]);
  }

  lemma {:induction false} SpliceStep(s: seq<Byte>, ms: seq<Match>, at: nat)
    requires InRange(s, at, ms) && ms != []
    ensures at <= ms[0].start <= ms[0].end <= |s| && InRange(s, ms[0].end, ms[1..])
    ensures Splice(s, ms, at) == s[at..ms[0].start] + (ms[0].with + Splice(s, ms[1..], ms[0].end))
  {}

  lemma {:induction false} FiveJoined<T>(a: seq<T>, b: seq<T>, c: seq<T>, d: seq<T>, e: seq<T>)
    ensures a + (b + (c + d + e)) == a + (b + c) + d + e
  {}

  lemma {:induction false} MatchesInRange(text: seq<Byte>, at: nat, ms: seq<Match>)
    requires Matches(text, at, ms)
    ensures InRange(text, at, ms)
    decreases |ms|
  {
    if ms != [] {
      MatchesInRange(text, ms[0].end, ms[1..]);
    }
  }

  // ----- positions ----------------------------------------------------------------------------

  /** How many raw bytes the decoder consumes first, and how many bytes of text it gives for them. */
  function Step(raw: seq<Byte>): (n: nat)
    requires raw != []
    ensures 1 <= n <= |raw|
  {
    if CharLength(raw) == 0 then 1 else CharLength(raw)
  }

  function Width(raw: seq<Byte>): (n: nat)
    ensures 1 <= n
  {
    if CharLength(raw) == 0 then 3 else CharLength(raw)
  }

  /** Where the decoder inserted U+FFFD, as positions in the text that starts at `at`. */
  function InvalidStarts(raw: seq<Byte>, at: nat): seq<nat>
    decreases |raw|
  {
    if raw == [] then []
    else if CharLength(raw) == 0 then [at] + InvalidStarts(raw[1..], at + 3)
    else InvalidStarts(raw[CharLength(raw)..], at + CharLength(raw))
  }

  /** `partition_point(|start| *start < index)` on an ascending list. */
  function PartitionPoint(starts: seq<nat>, index: nat): (n: nat)
    ensures n <= |starts|
    decreases |starts|
  {
    if starts == [] || starts[0] >= index then 0 else 1 + PartitionPoint(starts[1..], index)
  }

  /** `position` of the original. */
  function Position(invalid: seq<nat>, index: nat): int {
    index - 2 * PartitionPoint(invalid, index)
  }

  /** `i` lies between two characters of the decoded text of `raw`. */
  predicate Cut(raw: seq<Byte>, i: nat)
    decreases |raw|
  {
    i == 0 || (raw != [] && i >= Width(raw) && Cut(raw[Step(raw)..], i - Width(raw)))
  }

  /** The raw position from which the decoder produced text position `i`. */
  function RawAt(raw: seq<Byte>, i: nat): (p: nat)
    requires Cut(raw, i)
    ensures p <= |raw|
    decreases |raw|
  {
    if i == 0 then 0 else Step(raw) + RawAt(raw[Step(raw)..], i - Width(raw))
  }

  lemma {:induction false} CutStep(raw: seq<Byte>, i: nat)
    requires 0 < i && Cut(raw, i)
    ensures raw != [] && i >= Width(raw) && Cut(raw[Step(raw)..], i - Width(raw))
    ensures RawAt(raw, i) == Step(raw) + RawAt(raw[Step(raw)..], i - Width(raw))
  {}

  lemma {:induction false} CutZero(raw: seq<Byte>)
    ensures Cut(raw, 0) && RawAt(raw, 0) == 0 && raw[0..] == raw && raw[..0] == []
  {}

  lemma {:induction false} BoundaryIsCut(raw: seq<Byte>, i: nat)
    requires i <= |Decode(raw)| && CharBoundary(Decode(raw), i)
    ensures Cut(raw, i)
    decreases |raw|
  {
    hide CharLength;
    if i > 0 {
      var head, rest := DecodedHead(raw), raw[Step(raw)..];
      var text := Decode(raw);
      DecodeHead(raw);
      assert forall k | 1 <= k < |head| :: Tail(text[k]);
      assert i < |text| && i >= |head| ==> text[i] == Decode(rest)[i - |head|];
      BoundaryIsCut(rest, i - |head|);
    }
  }

  /** The map is exact at every boundary. */
  lemma {:induction false} PositionIsRaw(raw: seq<Byte>, at: nat, i: nat)
    requires Cut(raw, i)
    ensures RawAt(raw, i) == i - 2 * PartitionPoint(InvalidStarts(raw, at), at + i)
    decreases |raw|
  {
    hide CharLength, RawAt, Cut, InvalidStarts, PartitionPoint, Step, Width;
    if i == 0 {
      CutZero(raw);
      NoStartsBelow(raw, at);
    } else {
      CutStep(raw, i);
      assert at + Width(raw) + (i - Width(raw)) == at + i;
      PositionIsRaw(raw[Step(raw)..], at + Width(raw), i - Width(raw));
      PositionStep(raw, at, i);
    }
  }

  /** The first character taken off: a malformed byte is one start more and two bytes wider. */
  lemma {:induction false} PositionStep(raw: seq<Byte>, at: nat, i: nat)
    requires Cut(raw, i) && i >= Width(raw) && raw != [] && Cut(raw[Step(raw)..], i - Width(raw))
    ensures var later := InvalidStarts(raw[Step(raw)..], at + Width(raw));
            && RawAt(raw, i) == Step(raw) + RawAt(raw[Step(raw)..], i - Width(raw))
            && Width(raw) - Step(raw) ==
                 2 * (PartitionPoint(InvalidStarts(raw, at), at + i) - PartitionPoint(later, at + i))
  {
    var later := InvalidStarts(raw[Step(raw)..], at + Width(raw));
    CutStep(raw, i);
    WiderByTwo(raw);
    InvalidStartsStep(raw, at);
    hide CharLength, RawAt, Cut, InvalidStarts, PartitionPoint;
    if CharLength(raw) == 0 {
      PartitionPointCons(at, later, at + i);
    }
  }

  lemma {:induction false} WiderByTwo(raw: seq<Byte>)
    requires raw != []
    ensures Width(raw) == if CharLength(raw) == 0 then Step(raw) + 2 else Step(raw)
  {}

  lemma {:induction false} PartitionPointCons(start: nat, later: seq<nat>, index: nat)
    requires start < index
    ensures PartitionPoint([start] + later, index) == 1 + PartitionPoint(later, index)
  {
    assert ([start] + later)[1..] == later;
  }

  lemma {:induction false} NoStartsBelow(raw: seq<Byte>, at: nat)
    ensures PartitionPoint(InvalidStarts(raw, at), at) == 0
    ensures InvalidStarts(raw, at) != [] ==> InvalidStarts(raw, at)[0] >= at
    decreases |raw|
  {
    hide CharLength;
    if raw != [] && CharLength(raw) > 0 {
      NoStartsBelow(raw[CharLength(raw)..], at + CharLength(raw));
    }
  }

  /** Decoding either side of a mapped position gives the text on either side of the boundary. */
  lemma {:induction false} DecodeAtCut(raw: seq<Byte>, i: nat)
    requires Cut(raw, i)
    ensures i <= |Decode(raw)|
    ensures Decode(raw[..RawAt(raw, i)]) == Decode(raw)[..i]
    ensures Decode(raw[RawAt(raw, i)..]) == Decode(raw)[i..]
    decreases |raw|
  {
    hide CharLength, Cut, RawAt, Step, Width, Decode;
    if i == 0 {
      CutZero(raw);
      assert Decode([]) == [] by {
        DecodeValid([]);
      }
    } else {
      CutStep(raw, i);
      var k, j := Step(raw), i - Width(raw);
      var q := RawAt(raw[k..], j);
      DecodeAtCut(raw[k..], j);
      DropDrop(raw, k, q);
      DecodeHead(raw);
      DecodeHeadOfPrefix(raw, k + q);
      ConcatCuts(DecodedHead(raw), Decode(raw[k..]), i);
    }
  }

  lemma {:induction false} ConcatCuts(head: seq<Byte>, rest: seq<Byte>, i: nat)
    requires |head| <= i <= |head| + |rest|
    ensures (head + rest)[..i] == head + rest[..i - |head|]
    ensures (head + rest)[i..] == rest[i - |head|..]
  {}

  /** The text of the first character, or U+FFFD. */
  function DecodedHead(raw: seq<Byte>): (h: seq<Byte>)
    requires raw != []
    ensures |h| == Width(raw)
  {
    if CharLength(raw) == 0 then REPLACEMENT else raw[..CharLength(raw)]
  }

  lemma {:induction false} DecodeHead(raw: seq<Byte>)
    requires raw != []
    ensures Decode(raw) == DecodedHead(raw) + Decode(raw[Step(raw)..])
  {
    hide CharLength;
  }

  lemma {:induction false} DecodeHeadOfPrefix(raw: seq<Byte>, p: nat)
    requires raw != [] && Step(raw) <= p <= |raw|
    ensures Decode(raw[..p]) == DecodedHead(raw) + Decode(raw[Step(raw)..][..p - Step(raw)])
  {
    CharLengthOfPrefix(raw, p);
    hide CharLength, Decode;
    TakeTake(raw, Step(raw), p);
    DecodeHead(raw[..p]);
  }

  lemma {:induction false} CutAfterCut(raw: seq<Byte>, i: nat, j: nat)
    requires i <= j && Cut(raw, i) && Cut(raw, j)
    ensures Cut(raw[RawAt(raw, i)..], j - i)
    ensures RawAt(raw, j) == RawAt(raw, i) + RawAt(raw[RawAt(raw, i)..], j - i)
    decreases |raw|
  {
    hide CharLength, Cut, RawAt, Step, Width;
    if i == 0 {
      CutZero(raw);
    } else {
      CutStep(raw, i);
      CutStep(raw, j);
      var k, w := Step(raw), Width(raw);
      CutAfterCut(raw[k..], i - w, j - w);
      DropDrop(raw, k, RawAt(raw[k..], i - w));
    }
  }

  // ----- splicing commutes with decoding ------------------------------------------------------

  /** The matches, moved to the raw bytes. */
  function Mapped(raw: seq<Byte>, at: nat, ms: seq<Match>): seq<Match>
    requires Matches(Decode(raw), at, ms)
    decreases |ms|
  {
    if ms == [] then []
    else
      BoundaryIsCut(raw, ms[0].start);
      BoundaryIsCut(raw, ms[0].end);
      [Match(RawAt(raw, ms[0].start), RawAt(raw, ms[0].end), ms[0].with)] + Mapped(raw, ms[0].end, ms[1..])
  }

  lemma {:induction false} MappedInRange(raw: seq<Byte>, at: nat, ms: seq<Match>)
    requires Matches(Decode(raw), at, ms) && Cut(raw, at)
    ensures InRange(raw, RawAt(raw, at), Mapped(raw, at, ms))
    decreases |ms|
  {
    if ms != [] {
      BoundaryIsCut(raw, ms[0].start);
      BoundaryIsCut(raw, ms[0].end);
      CutAfterCut(raw, at, ms[0].start);
      CutAfterCut(raw, ms[0].start, ms[0].end);
      MappedInRange(raw, ms[0].end, ms[1..]);
      assert Mapped(raw, at, ms)[1..] == Mapped(raw, ms[0].end, ms[1..]);
    }
  }

  /** An untouched stretch of raw bytes decodes to the same stretch of text. */
  lemma {:induction false} DecodeBetween(raw: seq<Byte>, i: nat, j: nat)
    requires i <= j && Cut(raw, i) && Cut(raw, j)
    ensures RawAt(raw, i) <= RawAt(raw, j) && j <= |Decode(raw)|
    ensures Decode(raw[RawAt(raw, i)..RawAt(raw, j)]) == Decode(raw)[i..j]
  {
    hide CharLength, Decode, Cut, RawAt;
    var p, q := RawAt(raw, i), RawAt(raw, j);
    CutAfterCut(raw, i, j);
    DecodeAtCut(raw, i);
    DecodeAtCut(raw, j);
    DecodeAtCut(raw[p..], j - i);
    SliceIsTake(raw, p, q);
    SliceIsTake(Decode(raw), i, j);
  }

  /** Redacting the raw bytes and then decoding is decoding and then redacting the text. */
  lemma {:induction false} SpliceCommutes(raw: seq<Byte>, at: nat, ms: seq<Match>)
    requires Matches(Decode(raw), at, ms) && Cut(raw, at)
    ensures InRange(Decode(raw), at, ms) && InRange(raw, RawAt(raw, at), Mapped(raw, at, ms))
    ensures Decode(Splice(raw, Mapped(raw, at, ms), RawAt(raw, at))) == Splice(Decode(raw), ms, at)
    decreases |ms|
  {
    MatchesInRange(Decode(raw), at, ms);
    MappedInRange(raw, at, ms);
    if ms == [] {
      DecodeAtCut(raw, at);
    } else {
      var m := ms[0];
      BoundaryIsCut(raw, m.start);
      BoundaryIsCut(raw, m.end);
      SpliceCommutes(raw, m.end, ms[1..]);
      var mapped := Mapped(raw, at, ms);
      assert mapped[1..] == Mapped(raw, m.end, ms[1..]);
      var x := raw[RawAt(raw, at)..RawAt(raw, m.start)];
      var y := Splice(raw, mapped[1..], mapped[0].end);
      DecodeBetween(raw, at, m.start);
      DecodeConcat(x, m.with + y);
      DecodeValidBefore(m.with, y);
    }
  }

  /** The replacement must not be empty: cutting a letter out of E2 'x' 82 AC joins the pieces of
      a euro sign, which the decoded text cannot show. */
  lemma {:induction false} EmptyReplacementDoesNotCommute()
    ensures var raw: seq<Byte> := [0xE2, 0x78, 0x82, 0xAC];
            && Decode(raw) == REPLACEMENT + ([0x78] + (REPLACEMENT + REPLACEMENT))
            && Decode(Splice(raw, [Match(1, 2, [])], 0)) != Splice(Decode(raw), [Match(3, 4, [])], 0)
  {
    var raw: seq<Byte> := [0xE2, 0x78, 0x82, 0xAC];
    assert raw[1..] == [0x78, 0x82, 0xAC] && raw[1..][1..] == [0x82, 0xAC];
    assert raw[1..][1..][1..] == [0xAC] && raw[1..][1..][1..][1..] == [];
    assert Decode([0x82, 0xAC]) == REPLACEMENT + REPLACEMENT by {
      assert Decode([0xAC]) == REPLACEMENT + Decode([]);
    }
    assert [0x78, 0x82, 0xAC][..1] == [0x78];
    var joined := Splice(raw, [Match(1, 2, [])], 0);
    assert joined == [0xE2, 0x82, 0xAC];
    var text := Decode(raw);
    assert Splice(text, [Match(3, 4, [])], 0) == REPLACEMENT + ([] + text[4..]);
    assert Decode(joined)[1] == 0x82;
  }

  // ----- the program --------------------------------------------------------------------------

  /** `decoded_positions`. */
  method DecodedPositions(bytes: seq<Byte>) returns (text: seq<Byte>, invalid: seq<nat>)
    ensures text == Decode(bytes)
    ensures invalid == InvalidStarts(bytes, 0)
  {
    hide CharLength, Decode;
    assert Decode([]) == [] by {
      DecodeValid([]);
    }
    text, invalid := [], [];
    var rest := bytes;
    while rest != []
      invariant text + Decode(rest) == Decode(bytes)
      invariant invalid + InvalidStarts(rest, |text|) == InvalidStarts(bytes, 0)
      decreases |rest|
    {
      var prefix := ValidUpTo(rest);
      DecodeFromInvalid(rest);
      StartsFromInvalid(rest, |text|);
      Assoc(text, rest[..prefix], Decode(rest[prefix..]));
      text := text + rest[..prefix];
      if prefix == |rest| {
        return;
      }
      DropDrop(rest, prefix, 1);
      DecodeStep(rest[prefix..]);
      Assoc(text, REPLACEMENT, Decode(rest[prefix + 1..]));
      Assoc(invalid, [|text|], InvalidStarts(rest[prefix + 1..], |text| + 3));
      invalid := invalid + [|text|];
      text := text + REPLACEMENT;
      rest := rest[prefix + 1..];
    }
  }

  lemma {:induction false} FirstCharacter(raw: seq<Byte>, at: nat)
    requires CharLength(raw) > 0
    ensures ValidUpTo(raw) == CharLength(raw) + ValidUpTo(raw[CharLength(raw)..])
    ensures InvalidStarts(raw, at) == InvalidStarts(raw[CharLength(raw)..], at + CharLength(raw))
  {
    hide CharLength;
  }

  lemma {:induction false} StartsFromInvalid(raw: seq<Byte>, at: nat)
    ensures InvalidStarts(raw, at) == InvalidStarts(raw[ValidUpTo(raw)..], at + ValidUpTo(raw))
    decreases |raw|
  {
    hide CharLength, InvalidStarts, ValidUpTo;
    var n := CharLength(raw);
    ValidUpToStep(raw);
    if n == 0 {
      assert raw[0..] == raw;
    } else {
      FirstCharacter(raw, at);
      StartsFromInvalid(raw[n..], at + n);
      DropDrop(raw, n, ValidUpTo(raw[n..]));
    }
  }

  lemma {:induction false} InvalidStartsStep(raw: seq<Byte>, at: nat)
    requires raw != []
    ensures CharLength(raw) == 0 ==> InvalidStarts(raw, at) == [at] + InvalidStarts(raw[Step(raw)..], at + Width(raw))
    ensures CharLength(raw) > 0 ==> InvalidStarts(raw, at) == InvalidStarts(raw[Step(raw)..], at + Width(raw))
  {}

  /** One pattern over the raw bytes: what `sanitize_bytes` leaves after one round. */
  function RedactRaw(raw: seq<Byte>, pattern: Pattern): seq<Byte>
    requires Matches(Decode(raw), 0, pattern(Decode(raw)))
  {
    MappedInRange(raw, 0, pattern(Decode(raw)));
    Splice(raw, Mapped(raw, 0, pattern(Decode(raw))), 0)
  }

  /** One pattern over text. */
  function RedactText(text: seq<Byte>, pattern: Pattern): seq<Byte>
    requires Matches(text, 0, pattern(text))
  {
    MatchesInRange(text, 0, pattern(text));
    Splice(text, pattern(text), 0)
  }

  /** What is still to be written when the matches `ms` are left and text position `at` is reached. */
  ghost function Remaining(raw: seq<Byte>, at: nat, ms: seq<Match>): seq<Byte>
    requires Matches(Decode(raw), at, ms) && Cut(raw, at)
  {
    MappedInRange(raw, at, ms);
    Splice(raw, Mapped(raw, at, ms), RawAt(raw, at))
  }

  lemma {:induction false} RemainingStep(raw: seq<Byte>, at: nat, ms: seq<Match>)
    requires ms != [] && Matches(Decode(raw), at, ms) && Cut(raw, at)
    ensures Cut(raw, ms[0].start) && Cut(raw, ms[0].end)
    ensures RawAt(raw, at) <= RawAt(raw, ms[0].start)
    ensures Matches(Decode(raw), ms[0].end, ms[1..])
    ensures Remaining(raw, at, ms)
         == raw[RawAt(raw, at)..RawAt(raw, ms[0].start)] + (ms[0].with + Remaining(raw, ms[0].end, ms[1..]))
  {
    hide CharLength, Decode, Cut, RawAt;
    BoundaryIsCut(raw, ms[0].start);
    BoundaryIsCut(raw, ms[0].end);
    MappedInRange(raw, at, ms);
    assert Mapped(raw, at, ms)[1..] == Mapped(raw, ms[0].end, ms[1..]);
  }

  /** The inner loop of `sanitize_bytes`: copy, replace, advance. */
  method RedactOne(raw: seq<Byte>, pattern: Pattern) returns (output: seq<Byte>)
    requires Matches(Decode(raw), 0, pattern(Decode(raw)))
    ensures output == RedactRaw(raw, pattern)
  {
    hide CharLength, Decode, Cut, RawAt, Remaining, PartitionPoint, InvalidStarts;
    var text, invalid := DecodedPositions(raw);
    var ms := pattern(text);
    output := [];
    var copied, k := 0, 0;
    ghost var at := 0;
    CutZero(raw);
    assert ms[0..] == ms;
    RemainingAll(raw, pattern);
    while k < |ms|
      invariant k <= |ms|
      invariant Matches(text, at, ms[k..]) && Cut(raw, at) && copied == RawAt(raw, at)
      invariant output + Remaining(raw, at, ms[k..]) == RedactRaw(raw, pattern)
    {
      var found := ms[k];
      DropDrop(ms, k, 1);
      RemainingStep(raw, at, ms[k..]);
      PositionIsRaw(raw, 0, found.start);
      PositionIsRaw(raw, 0, found.end);
      var start, end := Position(invalid, found.start), Position(invalid, found.end);
      Assoc(output, raw[copied..start], found.with + Remaining(raw, found.end, ms[k + 1..]));
      Assoc(output + raw[copied..start], found.with, Remaining(raw, found.end, ms[k + 1..]));
      output := output + raw[copied..start] + found.with;
      copied, at, k := end, found.end, k + 1;
    }
    RemainingNone(raw, at);
    output := output + raw[copied..];
  }

  lemma {:induction false} RemainingAll(raw: seq<Byte>, pattern: Pattern)
    requires Matches(Decode(raw), 0, pattern(Decode(raw)))
    ensures Remaining(raw, 0, pattern(Decode(raw))) == RedactRaw(raw, pattern)
  {}

  lemma {:induction false} RemainingNone(raw: seq<Byte>, at: nat)
    requires Cut(raw, at) && at <= |Decode(raw)|
    ensures Remaining(raw, at, []) == raw[RawAt(raw, at)..]
  {}

  /** `sanitize_text`. */
  function SanitizedText(text: seq<Byte>, patterns: seq<Pattern>): seq<Byte>
    requires Valid(text) && forall p | p in patterns :: Sound(p)
    decreases |patterns|
  {
    if patterns == [] then text
    else
      RedactKeepsText(text, patterns[0]);
      SanitizedText(RedactText(text, patterns[0]), patterns[1..])
  }

  /** The patterns work one after the other, each on what the ones before it left. */
  lemma {:induction false} SanitizedOneByOne(text: seq<Byte>, patterns: seq<Pattern>, pattern: Pattern)
    requires Valid(text) && Sound(pattern) && forall p | p in patterns :: Sound(p)
    ensures SanitizedText(text, []) == text && Valid(SanitizedText(text, patterns))
    ensures SanitizedText(text, patterns + [pattern]) == RedactText(SanitizedText(text, patterns), pattern)
    decreases |patterns|
  {
    hide RedactText;
    SanitizedIsText(text, patterns);
    var all := patterns + [pattern];
    if patterns == [] {
      assert all[0] == pattern && all[1..] == [];
    } else {
      RedactKeepsText(text, patterns[0]);
      assert all[0] == patterns[0] && all[1..] == patterns[1..] + [pattern];
      SanitizedOneByOne(RedactText(text, patterns[0]), patterns[1..], pattern);
    }
  }

  /** Redacted text is text. */
  lemma {:induction false} RedactKeepsText(text: seq<Byte>, pattern: Pattern)
    requires Valid(text) && Sound(pattern)
    ensures Valid(RedactText(text, pattern))
  {
    DecodeValid(text);
    SpliceCommutes(text, 0, pattern(text));
    DecodeIsValid(Splice(text, Mapped(text, 0, pattern(text)), 0));
  }

  lemma {:induction false} RedactCommutes(raw: seq<Byte>, pattern: Pattern)
    requires Sound(pattern)
    ensures Valid(Decode(raw))
    ensures Decode(RedactRaw(raw, pattern)) == RedactText(Decode(raw), pattern)
  {
    DecodeIsValid(raw);
    SpliceCommutes(raw, 0, pattern(Decode(raw)));
  }

  /** `sanitize_bytes`: decoding the redacted bytes gives the redacted text, for every byte string. */
  method SanitizeBytes(bytes: seq<Byte>, patterns: seq<Pattern>) returns (r: seq<Byte>)
    requires forall p | p in patterns :: Sound(p)
    ensures Valid(Decode(bytes)) && Decode(r) == SanitizedText(Decode(bytes), patterns)
    ensures Valid(bytes) ==> r == SanitizedText(bytes, patterns)
  {
    DecodeIsValid(bytes);
    if Valid(bytes) {
      DecodeValid(bytes);
      SanitizedIsText(bytes, patterns);
      r := SanitizedText(bytes, patterns);
      DecodeValid(r);
      return;
    }
    r := bytes;
    assert patterns[0..] == patterns;
    for k := 0 to |patterns|
      invariant Valid(Decode(r))
      invariant SanitizedText(Decode(r), patterns[k..]) == SanitizedText(Decode(bytes), patterns)
    {
      var pattern := patterns[k];
      assert patterns[k..][0] == pattern && patterns[k..][1..] == patterns[k + 1..];
      RedactCommutes(r, pattern);
      RedactKeepsText(Decode(r), pattern);
      r := RedactOne(r, pattern);
    }
  }

  lemma {:induction false} SanitizedIsText(text: seq<Byte>, patterns: seq<Pattern>)
    requires Valid(text) && forall p | p in patterns :: Sound(p)
    ensures Valid(SanitizedText(text, patterns))
    decreases |patterns|
  {
    if patterns != [] {
      RedactKeepsText(text, patterns[0]);
      SanitizedIsText(RedactText(text, patterns[0]), patterns[1..]);
    }
  }
}
