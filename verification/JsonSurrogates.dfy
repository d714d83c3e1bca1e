/**
  Repair of unpaired UTF-16 escapes in JSON text (rust_backend/crates/core/src/text.rs, `json_surrogates`;
  section 7 of RFC 8259).

  The meaning is given by cutting the text into tokens, one escape at a time: an escape that names a
  surrogate is paired if a high one stands right before a low one. The program instead makes one pass, takes
  pairs twelve bytes at a time and copies what lies between two repairs.
*/
module JsonSurrogates {
  import opened Bytes
  import opened Sequences
  import Utf8

  const QUOTE: Byte := 34
  const BACKSLASH: Byte := 92
  const LETTER_U: Byte := 117

  predicate Hex(b: Byte) { 48 <= b <= 57 || 65 <= b <= 70 || 97 <= b <= 102 }

  function Digit(b: Byte): (v: nat)
    requires Hex(b)
    ensures v < 16
  {
    if b <= 57 then b as int - 48 else if b <= 70 then b as int - 55 else b as int - 87
  }

  predicate FourHex(d: seq<Byte>) { |d| >= 4 && Hex(d[0]) && Hex(d[1]) && Hex(d[2]) && Hex(d[3]) }

  function Unit(d: seq<Byte>): nat
    requires FourHex(d)
  {
    4096 * Digit(d[0]) + 256 * Digit(d[1]) + 16 * Digit(d[2]) + Digit(d[3])
  }

  // ----- tokens ----------------------------------------------------------------------------------

  /** A byte that is not escaped, a backslash with the byte after it, or a whole `\u` escape. */
  datatype Token = Plain(bytes: seq<Byte>) | Short(bytes: seq<Byte>) | Code(bytes: seq<Byte>)

  predicate Escape(b: seq<Byte>) {
    |b| >= 6 && b[0] == BACKSLASH && b[1] == LETTER_U && FourHex(b[2..])
  }

  function First(b: seq<Byte>, quoted: bool): (t: Token)
    requires b != []
    ensures 0 < |t.bytes| <= |b| && t.bytes == b[..|t.bytes|]
  {
    if !quoted || b[0] != BACKSLASH then Plain(b[..1])
    else if Escape(b) then Code(b[..6])
    else Short(if |b| == 1 then b else b[..2])
  }

  predicate QuotedAfter(t: Token, quoted: bool) { if t == Plain([QUOTE]) then !quoted else quoted }

  function Tokens(b: seq<Byte>, quoted: bool): seq<Token>
    decreases |b|
  {
    if b == [] then []
    else
      var t := First(b, quoted);
      [t] + Tokens(b[|t.bytes|..], QuotedAfter(t, quoted))
  }

  function Render(ts: seq<Token>): seq<Byte>
    decreases |ts|
  {
    if ts == [] then [] else ts[0].bytes + Render(ts[1..])
  }

  predicate High(t: Token) { t.Code? && Escape(t.bytes) && 0xD800 <= Unit(t.bytes[2..]) <= 0xDBFF }
  predicate Low(t: Token) { t.Code? && Escape(t.bytes) && 0xDC00 <= Unit(t.bytes[2..]) <= 0xDFFF }

  predicate Unpaired(ts: seq<Token>, i: nat)
    requires i < |ts|
  {
    || (High(ts[i]) && !(i + 1 < |ts| && Low(ts[i + 1])))
    || (Low(ts[i]) && !(i > 0 && High(ts[i - 1])))
  }

  /** The escape of U+FFFD. */
  const REPLACEMENT: seq<Byte> := [BACKSLASH, LETTER_U, 102, 102, 102, 100]

  /** Digits of either case count. */
  lemma {:induction false} ReplacementIsFFFD()
    ensures Escape(REPLACEMENT) && Unit(REPLACEMENT[2..]) == 0xFFFD
    ensures Unit([68, 56, 48, 48]) == Unit([100, 56, 48, 48]) == 0xD800
    ensures Unit([68, 70, 70, 70]) == Unit([100, 102, 102, 102]) == 0xDFFF
  {
    assert REPLACEMENT[2..] == [102, 102, 102, 100];
  }

  function Repair(ts: seq<Token>, i: nat): Token
    requires i < |ts|
  {
    if Unpaired(ts, i) then Code(REPLACEMENT) else ts[i]
  }

  function Repaired(ts: seq<Token>): (r: seq<Token>)
    ensures |r| == |ts|
  {
    seq(|ts|, i requires 0 <= i < |ts| => Repair(ts, i))
  }

  /** What the program computes. */
  function Rewritten(json: seq<Byte>): seq<Byte> { Render(Repaired(Tokens(json, false))) }

  // ----- cutting and rendering -------------------------------------------------------------------

  lemma {:induction false} RenderTokens(b: seq<Byte>, quoted: bool)
    ensures Render(Tokens(b, quoted)) == b
    decreases |b|
  {
    if b != [] {
      var t := First(b, quoted);
      RenderTokens(b[|t.bytes|..], QuotedAfter(t, quoted));
      assert Tokens(b, quoted)[1..] == Tokens(b[|t.bytes|..], QuotedAfter(t, quoted));
      Rejoin(b, |t.bytes|);
    }
  }

  lemma {:induction false} RenderSnoc(ts: seq<Token>, t: Token)
    ensures Render(ts + [t]) == Render(ts) + t.bytes
    decreases |ts|
  {
    if ts == [] {
      assert ts + [t] == [t];
    } else {
      RenderSnoc(ts[1..], t);
      assert (ts + [t])[1..] == ts[1..] + [t];
      Assoc(ts[0].bytes, Render(ts[1..]), t.bytes);
    }
  }

  /** The same tokens, except that escapes may name other units. */
  predicate Recoded(ts: seq<Token>, us: seq<Token>) {
    |ts| == |us| && forall i :: 0 <= i < |ts| ==> ts[i] == us[i] || BothCodes(ts[i], us[i])
  }

  predicate BothCodes(t: Token, u: Token) {
    t.Code? && u.Code? && |t.bytes| == 6 == |u.bytes| && Escape(t.bytes) && Escape(u.bytes)
  }

  lemma {:induction false} RecodedTail(ts: seq<Token>, us: seq<Token>)
    requires Recoded(ts, us) && ts != []
    ensures us != [] && (ts[0] == us[0] || BothCodes(ts[0], us[0]))
    ensures Recoded(ts[1..], us[1..])
  {
    assert forall i :: 0 <= i < |ts| - 1 ==> ts[1..][i] == ts[i + 1] && us[1..][i] == us[i + 1];
  }

  /** Equal lengths, and every byte keeps its part in the grammar. */
  predicate Alike(a: seq<Byte>, b: seq<Byte>) {
    |a| == |b| && forall i :: 0 <= i < |a| ==> a[i] == b[i] || (Hex(a[i]) && Hex(b[i]))
  }

  lemma {:induction false} RecodedAlike(ts: seq<Token>, us: seq<Token>)
    requires Recoded(ts, us)
    ensures Alike(Render(ts), Render(us))
    decreases |ts|
  {
    if ts != [] {
      RecodedTail(ts, us);
      RecodedAlike(ts[1..], us[1..]);
      AlikeToken(ts[0], us[0]);
      AlikeConcat(ts[0].bytes, us[0].bytes, Render(ts[1..]), Render(us[1..]));
    }
  }

  lemma {:induction false} AlikeToken(t: Token, u: Token)
    requires t == u || BothCodes(t, u)
    ensures Alike(t.bytes, u.bytes)
  {
    if t != u {
      var a, b := t.bytes, u.bytes;
      assert a[2..][0] == a[2] && a[2..][1] == a[3] && a[2..][2] == a[4] && a[2..][3] == a[5];
      assert b[2..][0] == b[2] && b[2..][1] == b[3] && b[2..][2] == b[4] && b[2..][3] == b[5];
    }
  }

  lemma {:induction false} AlikeConcat(a: seq<Byte>, b: seq<Byte>, c: seq<Byte>, d: seq<Byte>)
    requires Alike(a, b) && Alike(c, d)
    ensures Alike(a + c, b + d)
  {}

  lemma {:induction false} AlikeEscapes(a: seq<Byte>, b: seq<Byte>)
    requires Alike(a, b)
    ensures Escape(a) <==> Escape(b)
  {
    if |a| >= 6 {
      assert a[2..][0] == a[2] && a[2..][1] == a[3] && a[2..][2] == a[4] && a[2..][3] == a[5];
      assert b[2..][0] == b[2] && b[2..][1] == b[3] && b[2..][2] == b[4] && b[2..][3] == b[5];
    }
  }

  /** Replacing units does not move a token boundary, even where a `\u` without four digits precedes one. */
  lemma {:induction false} FirstOfRecoded(b: seq<Byte>, quoted: bool, u: Token, rest: seq<Byte>)
    requires b != [] && (First(b, quoted) == u || BothCodes(First(b, quoted), u))
    requires Alike(b[|First(b, quoted).bytes|..], rest)
    ensures First(u.bytes + rest, quoted) == u
    ensures QuotedAfter(u, quoted) == QuotedAfter(First(b, quoted), quoted)
  {
    var t := First(b, quoted);
    var c := u.bytes + rest;
    AlikeToken(t, u);
    AlikeConcat(t.bytes, u.bytes, b[|t.bytes|..], rest);
    Rejoin(b, |t.bytes|);
    assert Alike(b, c);
    AlikeEscapes(b, c);
    CutAtSeam(u.bytes, rest);
    assert b[0] == t.bytes[0] && c[0] == u.bytes[0];
  }

  lemma {:induction false} TokensStep(b: seq<Byte>, quoted: bool)
    requires b != []
    ensures var t := First(b, quoted);
            && Tokens(b, quoted) != [] && Tokens(b, quoted)[0] == t
            && Tokens(b, quoted)[1..] == Tokens(b[|t.bytes|..], QuotedAfter(t, quoted))
  {
    hide First, QuotedAfter;
  }

  lemma {:induction false} TokensFrom(b: seq<Byte>, quoted: bool, us: seq<Token>)
    requires b != [] && us != [] && First(b, quoted) == us[0] && b[|us[0].bytes|..] == Render(us[1..])
    requires Tokens(Render(us[1..]), QuotedAfter(us[0], quoted)) == us[1..]
    ensures Tokens(b, quoted) == us
  {
    hide First, QuotedAfter, Render;
    assert us == [us[0]] + us[1..];
  }

  lemma {:induction false} TokensOfRecoded(b: seq<Byte>, quoted: bool, us: seq<Token>)
    requires Recoded(Tokens(b, quoted), us)
    ensures Tokens(Render(us), quoted) == us
    decreases |b|
  {
    if b == [] {
      assert Tokens([], quoted) == [] && us == [] && Render([]) == [];
    } else {
      hide First, QuotedAfter, Alike, BothCodes, Recoded, Tokens;
      var t, ts := First(b, quoted), Tokens(b, quoted);
      var rest := b[|t.bytes|..];
      TokensStep(b, quoted);
      RecodedTail(ts, us);
      TokensOfRecoded(rest, QuotedAfter(t, quoted), us[1..]);
      assert Alike(rest, Render(us[1..])) by {
        RecodedAlike(ts[1..], us[1..]);
        RenderTokens(rest, QuotedAfter(t, quoted));
      }
      FirstOfRecoded(b, quoted, us[0], Render(us[1..]));
      CutAtSeam(us[0].bytes, Render(us[1..]));
      TokensFrom(Render(us), quoted, us);
    }
  }

  lemma {:induction false} CodesAreEscapes(b: seq<Byte>, quoted: bool, i: nat)
    requires i < |Tokens(b, quoted)| && Tokens(b, quoted)[i].Code?
    ensures |Tokens(b, quoted)[i].bytes| == 6 && Escape(Tokens(b, quoted)[i].bytes)
    decreases |b|
  {
    var t := First(b, quoted);
    if i > 0 {
      CodesAreEscapes(b[|t.bytes|..], QuotedAfter(t, quoted), i - 1);
    } else {
      assert b[..6][2..][..4] == b[2..][..4];
    }
  }

  lemma {:induction false} RepairedIsRecoded(b: seq<Byte>, quoted: bool)
    ensures Recoded(Tokens(b, quoted), Repaired(Tokens(b, quoted)))
  {
    var ts := Tokens(b, quoted);
    hide Tokens;
    assert REPLACEMENT[2..] == [102, 102, 102, 100];
    forall i | 0 <= i < |ts| ensures ts[i] == Repaired(ts)[i] || BothCodes(ts[i], Repaired(ts)[i]) {
      if Unpaired(ts, i) {
        CodesAreEscapes(b, quoted, i);
      }
    }
  }

  // ----- what the rewriting does -----------------------------------------------------------------

  /** The rewritten text has the same tokens in the same places, and only the unpaired ones have changed. */
  lemma {:induction false} TokensOfRewritten(json: seq<Byte>)
    ensures Tokens(Rewritten(json), false) == Repaired(Tokens(json, false))
    ensures |Rewritten(json)| == |json|
  {
    hide Tokens, Repaired;
    RepairedIsRecoded(json, false);
    TokensOfRecoded(json, false, Repaired(Tokens(json, false)));
    RecodedAlike(Tokens(json, false), Repaired(Tokens(json, false)));
    RenderTokens(json, false);
  }

  lemma {:induction false} NoneUnpaired(ts: seq<Token>, i: nat)
    requires i < |ts|
    ensures !Unpaired(Repaired(ts), i)
  {
    assert REPLACEMENT[2..] == [102, 102, 102, 100];
    assert Unit(REPLACEMENT[2..]) == 0xFFFD;
  }

  /** Every surrogate escape that is left stands in a pair. */
  lemma {:induction false} RewrittenHasNoUnpaired(json: seq<Byte>)
    ensures forall i | 0 <= i < |Tokens(Rewritten(json), false)| :: !Unpaired(Tokens(Rewritten(json), false), i)
  {
    TokensOfRewritten(json);
    hide Tokens, Rewritten;
    forall i | 0 <= i < |Tokens(json, false)| ensures !Unpaired(Repaired(Tokens(json, false)), i) {
      NoneUnpaired(Tokens(json, false), i);
    }
  }

  /** Text is left alone exactly when nothing in it is unpaired. */
  lemma {:induction false} UnchangedExactly(json: seq<Byte>)
    ensures Rewritten(json) == json <==> forall i | 0 <= i < |Tokens(json, false)| :: !Unpaired(Tokens(json, false), i)
  {
    var ts := Tokens(json, false);
    TokensOfRewritten(json);
    RenderTokens(json, false);
    hide Tokens;
    if Rewritten(json) == json {
      forall i | 0 <= i < |ts| ensures !Unpaired(ts, i) {
        NoneUnpaired(ts, i);
      }
    }
    if forall i | 0 <= i < |ts| :: !Unpaired(ts, i) {
      assert Repaired(ts) == ts;
    }
  }

  lemma {:induction false} Idempotent(json: seq<Byte>)
    ensures Rewritten(Rewritten(json)) == Rewritten(json)
  {
    RewrittenHasNoUnpaired(json);
    UnchangedExactly(Rewritten(json));
  }

  // ----- still text ------------------------------------------------------------------------------

  /** ASCII bytes may differ from each other, others may not. */
  predicate SameText(a: seq<Byte>, b: seq<Byte>) {
    |a| == |b| && forall i :: 0 <= i < |a| ==> a[i] == b[i] || (a[i] < 0x80 && b[i] < 0x80)
  }

  lemma {:induction false} SameTextIsValid(a: seq<Byte>, b: seq<Byte>)
    requires SameText(a, b) && Utf8.Valid(a)
    ensures Utf8.Valid(b)
    decreases |a|
  {
    if a != [] {
      var n := Utf8.CharLength(a);
      assert Utf8.CharLength(b) == n;
      SameTextIsValid(a[n..], b[n..]);
    }
  }

  /** The result of rewriting a string is a string. */
  lemma {:induction false} RewrittenIsValid(json: seq<Byte>)
    requires Utf8.Valid(json)
    ensures Utf8.Valid(Rewritten(json))
  {
    hide Tokens, Repaired;
    RepairedIsRecoded(json, false);
    RecodedAlike(Tokens(json, false), Repaired(Tokens(json, false)));
    RenderTokens(json, false);
    SameTextIsValid(json, Rewritten(json));
  }

  // ----- the program -----------------------------------------------------------------------------

  /** The pass has consumed `i` tokens, `at` bytes; what follows the last repair is still to be copied. */
  ghost predicate Scanned(json: seq<Byte>, ts: seq<Token>, i: nat, at: nat, quoted: bool, output: seq<Byte>,
                          copied: nat) {
    && i <= |ts| && copied <= at <= |json|
    && ts[i..] == Tokens(json[at..], quoted)
    && output + json[copied..at] == Render(Repaired(ts)[..i])
  }

  /** The pass never stands between the two halves of a pair. */
  ghost predicate BetweenPairs(ts: seq<Token>, i: nat) {
    0 < i < |ts| && High(ts[i - 1]) ==> !Low(ts[i])
  }

  lemma {:induction false} NextToken(json: seq<Byte>, ts: seq<Token>, i: nat, at: nat, quoted: bool)
    requires i <= |ts| && at < |json| && ts[i..] == Tokens(json[at..], quoted)
    ensures i < |ts| && ts[i] == First(json[at..], quoted)
    ensures at + |ts[i].bytes| <= |json| && json[at..at + |ts[i].bytes|] == ts[i].bytes
    ensures ts[i + 1..] == Tokens(json[at + |ts[i].bytes|..], QuotedAfter(ts[i], quoted))
  {
    var b := json[at..];
    var t := First(b, quoted);
    assert ts[i..][0] == t;
    assert ts[i + 1..] == ts[i..][1..];
    assert Tokens(b, quoted)[1..] == Tokens(b[|t.bytes|..], QuotedAfter(t, quoted));
    DropDrop(json, at, |t.bytes|);
    SliceIsTake(json, at, at + |t.bytes|);
  }

  lemma {:induction false} RenderNext(ts: seq<Token>, i: nat)
    requires i < |ts|
    ensures Render(Repaired(ts)[..i + 1]) == Render(Repaired(ts)[..i]) + Repair(ts, i).bytes
  {
    TakeNext(Repaired(ts), i);
    RenderSnoc(Repaired(ts)[..i], Repaired(ts)[i]);
  }

  lemma {:induction false} PassOver(json: seq<Byte>, ts: seq<Token>, i: nat, at: nat, quoted: bool, output: seq<Byte>,
                                    copied: nat)
    requires Scanned(json, ts, i, at, quoted, output, copied) && at < |json|
    ensures i < |ts| && ts[i] == First(json[at..], quoted)
    ensures !Unpaired(ts, i) ==>
              Scanned(json, ts, i + 1, at + |ts[i].bytes|, QuotedAfter(ts[i], quoted), output, copied)
  {
    hide Tokens, Unpaired, First, QuotedAfter;
    NextToken(json, ts, i, at, quoted);
    RenderNext(ts, i);
    hide Repaired, Render;
    var n := |ts[i].bytes|;
    assert json[copied..at + n] == json[copied..at] + json[at..at + n];
    Assoc(output, json[copied..at], json[at..at + n]);
  }

  lemma {:induction false} Replace(json: seq<Byte>, ts: seq<Token>, i: nat, at: nat, quoted: bool, output: seq<Byte>,
                                   copied: nat)
    requires Scanned(json, ts, i, at, quoted, output, copied) && at < |json|
    requires i < |ts| && Unpaired(ts, i) && |ts[i].bytes| == 6
    ensures at + 6 <= |json|
    ensures Scanned(json, ts, i + 1, at + 6, quoted, output + json[copied..at] + REPLACEMENT, at + 6)
  {
    NextToken(json, ts, i, at, quoted);
    hide Tokens, First;
    RenderNext(ts, i);
    hide Repaired, Render, Unpaired;
    assert json[at + 6..at + 6] == [];
  }

  /** Four hexadecimal digits at `i`. */
  predicate UnitAt(json: seq<Byte>, i: nat) { i <= |json| && FourHex(json[i..]) }

  predicate PairAt(json: seq<Byte>, i: nat)
    requires UnitAt(json, i + 2)
  {
    && 0xD800 <= Unit(json[i + 2..]) <= 0xDBFF
    && i + 8 <= |json| && json[i + 6..i + 8] == [BACKSLASH, LETTER_U]
    && UnitAt(json, i + 8) && 0xDC00 <= Unit(json[i + 8..]) <= 0xDFFF
  }

  predicate AtUnit(json: seq<Byte>, at: nat) {
    at + 1 < |json| && json[at] == BACKSLASH && json[at + 1] == LETTER_U && UnitAt(json, at + 2)
  }

  lemma {:induction false} UnitHere(json: seq<Byte>, at: nat)
    requires AtUnit(json, at)
    ensures at + 6 <= |json| && First(json[at..], true) == Code(json[at..at + 6])
    ensures Escape(json[at..at + 6]) && Unit(json[at..at + 6][2..]) == Unit(json[at + 2..])
  {
    var b, c, d := json[at..], json[at..at + 6], json[at + 2..];
    assert |d| >= 4;
    assert b[0] == json[at] && b[1] == json[at + 1] && b[2..] == d && b[..6] == c;
    assert c[2..] == d[..4];
  }

  lemma {:induction false} ShortHere(json: seq<Byte>, at: nat)
    requires at < |json| && json[at] == BACKSLASH && !AtUnit(json, at)
    ensures First(json[at..], true) == Short(json[at..if at + 1 < |json| then at + 2 else |json|])
  {
    assert at + 2 <= |json| ==> json[at..][2..] == json[at + 2..];
  }

  /** Whether the program sees a pair is whether the tokens make one. */
  lemma {:induction false} ReadPair(json: seq<Byte>, ts: seq<Token>, i: nat, at: nat)
    requires i <= |ts| && AtUnit(json, at) && ts[i..] == Tokens(json[at..], true)
    ensures i < |ts| && at + 6 <= |json| && ts[i] == Code(json[at..at + 6]) && Escape(ts[i].bytes)
    ensures Unit(ts[i].bytes[2..]) == Unit(json[at + 2..])
    ensures PairAt(json, at) <==> High(ts[i]) && i + 1 < |ts| && Low(ts[i + 1])
  {
    NextToken(json, ts, i, at, true);
    UnitHere(json, at);
    PairHere(json, at);
    hide First, Escape, Unit, FourHex, PairAt, Low;
    if at + 6 < |json| {
      NextToken(json, ts, i + 1, at + 6, true);
    } else {
      assert json[at + 6..] == [];
      assert ts[i + 1..] == [];
    }
  }

  lemma {:induction false} PairHere(json: seq<Byte>, at: nat)
    requires AtUnit(json, at)
    ensures PairAt(json, at) <==>
              0xD800 <= Unit(json[at + 2..]) <= 0xDBFF && at + 6 < |json| && Low(First(json[at + 6..], true))
  {
    hide First, Escape, Unit, FourHex, Low;
    if at + 6 < |json| {
      LowHere(json, at + 6);
      assert at + 8 <= |json| ==> json[at + 6..at + 8] == [json[at + 6], json[at + 7]];
    }
  }

  lemma {:induction false} LowHere(json: seq<Byte>, at: nat)
    requires at < |json|
    ensures Low(First(json[at..], true)) <==> AtUnit(json, at) && 0xDC00 <= Unit(json[at + 2..]) <= 0xDFFF
  {
    if AtUnit(json, at) {
      UnitHere(json, at);
    } else if json[at] == BACKSLASH {
      ShortHere(json, at);
    }
  }

  ghost predicate NoneSoFar(ts: seq<Token>, i: nat) {
    forall k | 0 <= k < i <= |ts| :: !Unpaired(ts, k)
  }

  /** The loop invariant. A backslash at the very end takes `position` one past it. */
  ghost predicate Pass(json: seq<Byte>, ts: seq<Token>, i: nat, position: nat, quoted: bool, output: seq<Byte>,
                       copied: nat) {
    && position <= |json| + 1
    && Scanned(json, ts, i, if position <= |json| then position else |json|, quoted, output, copied)
    && BetweenPairs(ts, i)
    && (copied == 0 ==> output == [])
    && (copied == 0 <==> NoneSoFar(ts, i))
  }

  lemma {:induction false} PairIsPaired(ts: seq<Token>, i: nat)
    requires i + 1 < |ts| && High(ts[i]) && Low(ts[i + 1])
    ensures !Unpaired(ts, i) && !Unpaired(ts, i + 1) && !High(ts[i + 1])
  {}

  lemma {:induction false} PairTokens(json: seq<Byte>, ts: seq<Token>, i: nat, at: nat, output: seq<Byte>, copied: nat)
    requires Scanned(json, ts, i, at, true, output, copied)
    requires AtUnit(json, at) && PairAt(json, at)
    ensures i + 1 < |ts| && !Unpaired(ts, i) && !Unpaired(ts, i + 1) && !High(ts[i + 1])
    ensures at + 12 <= |json| && ts[i] == Code(json[at..at + 6]) && ts[i + 1] == Code(json[at + 6..at + 12])
  {
    ReadPair(json, ts, i, at);
    UnitHere(json, at + 6);
    SecondOfPair(json, ts, i, at);
    hide High, Low, Unpaired, Escape, Unit, FourHex, First, Tokens;
    PairIsPaired(ts, i);
  }

  lemma {:induction false} SecondOfPair(json: seq<Byte>, ts: seq<Token>, i: nat, at: nat)
    requires i < |ts| && at + 6 < |json| && ts[i..] == Tokens(json[at..], true) && ts[i] == Code(json[at..at + 6])
    ensures i + 1 < |ts| && ts[i + 1] == First(json[at + 6..], true)
  {
    hide First;
    NextToken(json, ts, i, at, true);
    NextToken(json, ts, i + 1, at + 6, true);
  }

  lemma {:induction false} NoneInPair(ts: seq<Token>, i: nat)
    requires i + 1 < |ts| && !Unpaired(ts, i) && !Unpaired(ts, i + 1) && !High(ts[i + 1])
    ensures BetweenPairs(ts, i + 2) && (NoneSoFar(ts, i + 2) <==> NoneSoFar(ts, i))
  {
    hide Unpaired, High;
  }

  /** Two escapes that make a pair. */
  lemma {:induction false} PassPair(json: seq<Byte>, ts: seq<Token>, i: nat, at: nat, output: seq<Byte>, copied: nat)
    requires Pass(json, ts, i, at, true, output, copied)
    requires AtUnit(json, at) && PairAt(json, at)
    ensures Pass(json, ts, i + 2, at + 12, true, output, copied)
  {
    hide Scanned, First, Escape, Unit, PairAt;
    assert Scanned(json, ts, i, at, true, output, copied);
    PairTokens(json, ts, i, at, output, copied);
    assert Scanned(json, ts, i + 2, at + 12, true, output, copied) by {
      hide High, Low, Unpaired;
      PassOver(json, ts, i, at, true, output, copied);
      PassOver(json, ts, i + 1, at + 6, true, output, copied);
    }
    hide High, Low, Unpaired;
    NoneInPair(ts, i);
  }

  /** Any other escape with a unit: replaced exactly if it is a surrogate. */
  lemma {:induction false} PassUnit(json: seq<Byte>, ts: seq<Token>, i: nat, at: nat, output: seq<Byte>, copied: nat)
    requires Pass(json, ts, i, at, true, output, copied)
    requires AtUnit(json, at) && !PairAt(json, at)
    ensures copied <= at
    ensures if 0xD800 <= Unit(json[at + 2..]) <= 0xDFFF
            then Pass(json, ts, i + 1, at + 6, true, output + json[copied..at] + REPLACEMENT, at + 6)
            else Pass(json, ts, i + 1, at + 6, true, output, copied)
  {
    ReadPair(json, ts, i, at);
    assert Unpaired(ts, i) <==> 0xD800 <= Unit(json[at + 2..]) <= 0xDFFF;
    assert BetweenPairs(ts, i + 1);
    hide PairAt, High, Low, Escape, First, Unpaired, Unit;
    PassOver(json, ts, i, at, true, output, copied);
    if Unpaired(ts, i) {
      Replace(json, ts, i, at, true, output, copied);
    }
  }

  lemma {:induction false} PassOther(json: seq<Byte>, ts: seq<Token>, i: nat, at: nat, quoted: bool,
                                     output: seq<Byte>, copied: nat)
    requires at < |json| && Pass(json, ts, i, at, quoted, output, copied)
    requires !First(json[at..], quoted).Code?
    ensures var t := First(json[at..], quoted);
            Pass(json, ts, i + 1, at + |t.bytes|, QuotedAfter(t, quoted), output, copied)
  {
    PassOver(json, ts, i, at, quoted, output, copied);
    assert !Unpaired(ts, i) && !High(ts[i]);
    hide First, Scanned, High, Low, Unpaired, QuotedAfter;
  }

  /** Whether `position` stops at the end or one past it makes no difference. */
  lemma {:induction false} PassTheEnd(json: seq<Byte>, ts: seq<Token>, i: nat, output: seq<Byte>, copied: nat)
    requires Pass(json, ts, i, |json|, true, output, copied)
    ensures Pass(json, ts, i, |json| + 1, true, output, copied)
  {}

  /** A backslash and the byte after it. */
  lemma {:induction false} PassShort(json: seq<Byte>, ts: seq<Token>, i: nat, at: nat, output: seq<Byte>, copied: nat)
    requires at < |json| && Pass(json, ts, i, at, true, output, copied)
    requires json[at] == BACKSLASH && !AtUnit(json, at)
    ensures Pass(json, ts, i + 1, at + 2, true, output, copied)
  {
    ShortHere(json, at);
    hide First, Pass;
    PassOther(json, ts, i, at, true, output, copied);
    if at + 1 == |json| {
      PassTheEnd(json, ts, i + 1, output, copied);
    }
  }

  lemma {:induction false} PassPlain(json: seq<Byte>, ts: seq<Token>, i: nat, at: nat, quoted: bool,
                                     output: seq<Byte>, copied: nat)
    requires at < |json| && Pass(json, ts, i, at, quoted, output, copied)
    requires !(quoted && json[at] == BACKSLASH)
    ensures Pass(json, ts, i + 1, at + 1, if json[at] == QUOTE then !quoted else quoted, output, copied)
  {
    assert First(json[at..], quoted) == Plain([json[at]]);
    hide First, Pass;
    PassOther(json, ts, i, at, quoted, output, copied);
  }

  lemma {:induction false} PassBegins(json: seq<Byte>)
    ensures Pass(json, Tokens(json, false), 0, 0, false, [], 0)
  {
    assert Repaired(Tokens(json, false))[..0] == [];
    assert json[0..] == json;
  }

  lemma {:induction false} PassEnds(json: seq<Byte>, i: nat, at: nat, quoted: bool, output: seq<Byte>, copied: nat)
    requires at >= |json| && Pass(json, Tokens(json, false), i, at, quoted, output, copied)
    ensures copied <= |json| && output + json[copied..] == Rewritten(json)
    ensures copied == 0 <==> Rewritten(json) == json
    ensures copied == 0 ==> output == []
  {
    var ts := Tokens(json, false);
    assert json[|json|..] == [];
    assert ts[i..] == [];
    assert Repaired(ts)[..|ts|] == Repaired(ts);
    assert json[copied..|json|] == json[copied..];
    UnchangedExactly(json);
    hide Unpaired, Tokens, Rewritten;
    assert NoneSoFar(ts, i) <==> forall k | 0 <= k < |ts| :: !Unpaired(ts, k);
  }

  /** Slicing a string panics between the bytes of a character. */
  function Slice(json: seq<Byte>, i: nat, j: nat): seq<Byte>
    requires i <= j <= |json|
    requires Utf8.Valid(json) ==> Utf8.CharBoundary(json, i) && Utf8.CharBoundary(json, j)
  {
    json[i..j]
  }

  lemma {:induction false} EndsAreBoundaries(json: seq<Byte>)
    ensures Utf8.CharBoundary(json, 0) && Utf8.CharBoundary(json, |json|)
  {}

  /** The program cuts only before an escape and after its last digit, which never splits a character. */
  lemma {:induction false} CutsAreBoundaries(json: seq<Byte>, at: nat)
    requires Utf8.Valid(json) && AtUnit(json, at)
    ensures at + 6 <= |json| && Utf8.CharBoundary(json, at) && Utf8.CharBoundary(json, at + 6)
  {
    hide Utf8.Valid;
    var digits := json[at + 2..];
    assert |digits| >= 4 && Hex(digits[3]) && digits[3] == json[at + 5];
    Utf8.AfterAscii(json, at + 6);
  }

  /** The one-pass rewriter; `owned` tells a rewritten copy from the text itself. */
  method RewriteSurrogates(json: seq<Byte>) returns (text: seq<Byte>, owned: bool)
    ensures text == Rewritten(json)
    ensures owned <==> text != json
  {
    var position, copied, quoted := 0, 0, false;
    var output: seq<Byte> := [];
    ghost var ts, i := Tokens(json, false), 0;
    PassBegins(json);
    hide Tokens, Rewritten, Pass, PairAt, Unit, First, Utf8.Valid, Utf8.CharBoundary;
    assert Utf8.CharBoundary(json, 0) && Utf8.CharBoundary(json, |json|) by { EndsAreBoundaries(json); }
    while position < |json|
      invariant Pass(json, ts, i, position, quoted, output, copied)
      invariant Utf8.Valid(json) ==> Utf8.CharBoundary(json, copied)
      decreases |json| - position
    {
      if quoted && json[position] == BACKSLASH {
        if position + 1 < |json| && json[position + 1] == LETTER_U && UnitAt(json, position + 2) {
          if PairAt(json, position) {
            PassPair(json, ts, i, position, output, copied);
            position := position + 12;
            i := i + 2;
            continue;
          }
          PassUnit(json, ts, i, position, output, copied);
          if 0xD800 <= Unit(json[position + 2..]) <= 0xDFFF {
            if Utf8.Valid(json) {
              CutsAreBoundaries(json, position);
            }
            output := output + Slice(json, copied, position) + REPLACEMENT;
            copied := position + 6;
          }
          position := position + 6;
          i := i + 1;
          continue;
        }
        PassShort(json, ts, i, position, output, copied);
        position := position + 2;
        i := i + 1;
        continue;
      }
      PassPlain(json, ts, i, position, quoted, output, copied);
      if json[position] == QUOTE {
        quoted := !quoted;
      }
      position := position + 1;
      i := i + 1;
    }
    PassEnds(json, i, position, quoted, output, copied);
    if copied == 0 {
      return json, false;
    }
    assert json[copied..|json|] == json[copied..];
    return output + Slice(json, copied, |json|), true;
  }
}
