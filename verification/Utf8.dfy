/**
  UTF-8 (section 4 of RFC 3629) and the decoder that turns every malformed byte into one U+FFFD
  (rust_backend/crates/core/src/text.rs, `utf8`; the same loop is `decode_go_utf8` in
  rust_backend/crates/extensions/src/host.rs).
*/
module Utf8 {
  import opened Bytes
  import opened Sequences

  predicate Tail(b: Byte) { 0x80 <= b <= 0xBF }

  /** The length of the well-formed character that `s` starts with, or 0 if it starts with none. */
  function CharLength(s: seq<Byte>): (n: nat)
    ensures n <= 4 && n <= |s|
    ensures n > 0 ==> !Tail(s[0]) && forall i | 1 <= i < n :: Tail(s[i])
  {
    if |s| >= 1 && s[0] <= 0x7F then 1
    else if |s| >= 2 && 0xC2 <= s[0] <= 0xDF && Tail(s[1]) then 2
    else if |s| >= 3 && SecondOfThree(s[0], s[1]) && Tail(s[2]) then 3
    else if |s| >= 4 && SecondOfFour(s[0], s[1]) && Tail(s[2]) && Tail(s[3]) then 4
    else 0
  }

  predicate SecondOfThree(a: Byte, b: Byte) {
    || (a == 0xE0 && 0xA0 <= b <= 0xBF)
    || (0xE1 <= a <= 0xEC && Tail(b))
    || (a == 0xED && 0x80 <= b <= 0x9F)
    || (0xEE <= a <= 0xEF && Tail(b))
  }

  predicate SecondOfFour(a: Byte, b: Byte) {
    || (a == 0xF0 && 0x90 <= b <= 0xBF)
    || (0xF1 <= a <= 0xF3 && Tail(b))
    || (a == 0xF4 && 0x80 <= b <= 0x8F)
  }

  /** The characters of section 3 of RFC 3629: every number that is not a surrogate, in the fewest bytes. */
  predicate Scalar(c: nat) { c < 0xD800 || 0xE000 <= c < 0x11_0000 }

  predicate Encodes(c: nat, e: seq<Byte>) {
    if |e| == 1 then c == e[0] as nat < 0x80
    else if |e| == 2 then
      0x80 <= c < 0x800 && Tail(e[1]) && c == (e[0] as int - 0xC0) * 0x40 + (e[1] as int - 0x80)
    else if |e| == 3 then
      && 0x800 <= c < 0x1_0000 && Tail(e[1]) && Tail(e[2])
      && c == (e[0] as int - 0xE0) * 0x1000 + (e[1] as int - 0x80) * 0x40 + (e[2] as int - 0x80)
    else
      && |e| == 4 && 0x1_0000 <= c && Tail(e[1]) && Tail(e[2]) && Tail(e[3])
      && c == (e[0] as int - 0xF0) * 0x4_0000 + (e[1] as int - 0x80) * 0x1000 + (e[2] as int - 0x80) * 0x40
              + (e[3] as int - 0x80)
  }

  /** The number that a character stands for. */
  function NumberOf(e: seq<Byte>): int
    requires 1 <= |e| <= 4
  {
    if |e| == 1 then e[0] as int
    else if |e| == 2 then (e[0] as int - 0xC0) * 0x40 + (e[1] as int - 0x80)
    else if |e| == 3 then (e[0] as int - 0xE0) * 0x1000 + (e[1] as int - 0x80) * 0x40 + (e[2] as int - 0x80)
    else
      (e[0] as int - 0xF0) * 0x4_0000 + (e[1] as int - 0x80) * 0x1000 + (e[2] as int - 0x80) * 0x40
      + (e[3] as int - 0x80)
  }

  lemma {:induction false} EncodedIsCharacter(c: nat, s: seq<Byte>, n: nat)
    requires n <= |s| && Scalar(c) && Encodes(c, s[..n])
    ensures CharLength(s) == n
  {}

  lemma {:induction false} CharacterIsEncoded(s: seq<Byte>)
    requires CharLength(s) > 0
    ensures var e := s[..CharLength(s)]; NumberOf(e) >= 0 && Scalar(NumberOf(e)) && Encodes(NumberOf(e), e)
  {}

  /** A string starts with a character exactly if it starts with the encoding of one. */
  lemma {:induction false} CharLengthExactly(s: seq<Byte>, n: nat)
    requires 0 < n <= |s|
    ensures CharLength(s) == n <==> exists c: nat :: Scalar(c) && Encodes(c, s[..n])
  {
    if CharLength(s) == n {
      CharacterIsEncoded(s);
    }
    hide CharLength, Encodes, Scalar, NumberOf;
    forall c: nat | Scalar(c) && Encodes(c, s[..n]) ensures CharLength(s) == n {
      EncodedIsCharacter(c, s, n);
    }
  }

  /** `std::str::from_utf8(s).is_ok()`. */
  predicate Valid(s: seq<Byte>)
    decreases |s|
  {
    s == [] || (CharLength(s) > 0 && Valid(s[CharLength(s)..]))
  }

  /** `Utf8Error::valid_up_to`: the length of the well-formed prefix. */
  function ValidUpTo(s: seq<Byte>): (n: nat)
    ensures n <= |s|
    decreases |s|
  {
    if CharLength(s) == 0 then 0 else CharLength(s) + ValidUpTo(s[CharLength(s)..])
  }

  const REPLACEMENT: seq<Byte> := [0xEF, 0xBF, 0xBD]

  /** The decoded text, as UTF-8 bytes. */
  function Decode(s: seq<Byte>): seq<Byte>
    decreases |s|
  {
    if s == [] then []
    else if CharLength(s) == 0 then REPLACEMENT + Decode(s[1..])
    else s[..CharLength(s)] + Decode(s[CharLength(s)..])
  }

  /** `str::is_char_boundary`. */
  predicate CharBoundary(text: seq<Byte>, i: nat) {
    i == 0 || i == |text| || (i < |text| && !Tail(text[i]))
  }

  /** In text, an ASCII byte is a whole character. */
  lemma {:induction false} AfterAscii(s: seq<Byte>, i: nat)
    requires Valid(s) && 0 < i <= |s| && s[i - 1] < 0x80
    ensures CharBoundary(s, i)
    decreases |s|
  {
    var n := CharLength(s);
    if i > n {
      AfterAscii(s[n..], i - n);
    } else if i < |s| {
      assert i == 1 && n == 1;
      assert !Tail(s[1..][0]);
    }
  }

  // ----- characters and cuts ------------------------------------------------------------------

  lemma {:induction false} CharLengthOfPrefix(s: seq<Byte>, k: nat)
    requires k <= |s|
    ensures CharLength(s[..k]) == if CharLength(s) <= k then CharLength(s) else 0
  {}

  /** `y` cannot continue a character cut short before it. */
  predicate Starts(y: seq<Byte>) { y == [] || !Tail(y[0]) }

  lemma {:induction false} CharLengthBefore(x: seq<Byte>, y: seq<Byte>)
    requires x != [] && Starts(y)
    ensures CharLength(x + y) == CharLength(x)
  {
    var n := CharLength(x + y);
    assert (x + y)[..|x|] == x;
    CharLengthOfPrefix(x + y, |x|);
    assert y != [] ==> (x + y)[|x|] == y[0];
  }

  lemma {:induction false} DecodeStep(s: seq<Byte>)
    requires s != []
    ensures CharLength(s) == 0 ==> Decode(s) == REPLACEMENT + Decode(s[1..])
    ensures CharLength(s) > 0 ==> Decode(s) == s[..CharLength(s)] + Decode(s[CharLength(s)..])
  {}

  lemma {:induction false} DecodeConcat(x: seq<Byte>, y: seq<Byte>)
    requires Starts(y)
    ensures Decode(x + y) == Decode(x) + Decode(y)
    decreases |x|
  {
    if x == [] {
      assert x + y == y;
    } else {
      CharLengthBefore(x, y);
      var n := if CharLength(x) == 0 then 1 else CharLength(x);
      DecodeConcat(x[n..], y);
      CutConcat(x, y, n);
      hide Decode, CharLength;
      DecodeStep(x);
      DecodeStep(x + y);
      Assoc(if CharLength(x) == 0 then REPLACEMENT else x[..n], Decode(x[n..]), Decode(y));
    }
  }

  lemma {:induction false} DecodeValidBefore(r: seq<Byte>, y: seq<Byte>)
    requires Valid(r)
    ensures Decode(r + y) == r + Decode(y)
    decreases |r|
  {
    if r == [] {
      assert r + y == y;
    } else {
      hide Decode, CharLength;
      var n := CharLength(r);
      CharLengthOfPrefix(r + y, |r|);
      CutAtSeam(r, y);
      CutConcat(r, y, n);
      DecodeValidBefore(r[n..], y);
      DecodeStep(r + y);
      Assoc(r[..n], r[n..], Decode(y));
      Rejoin(r, n);
    }
  }

  /** A malformed byte becomes U+FFFD, and decoding goes on right behind it. */
  lemma {:induction false} DecodeMalformed(front: seq<Byte>, b: Byte, rest: seq<Byte>)
    requires Valid(front) && CharLength([b] + rest) == 0
    ensures Decode(front + ([b] + rest)) == front + ([0xEF, 0xBF, 0xBD] + Decode(rest))
  {
    DecodeValidBefore(front, [b] + rest);
    hide CharLength;
    assert ([b] + rest)[1..] == rest;
  }

  /** Text that is already well-formed decodes to itself. */
  lemma {:induction false} DecodeValid(s: seq<Byte>)
    requires Valid(s)
    ensures Decode(s) == s
  {
    DecodeValidBefore(s, []);
    assert s + [] == s;
  }

  /** Decoding always gives well-formed text, and well-formed text only. */
  lemma {:induction false} DecodeIsValid(s: seq<Byte>)
    ensures Valid(Decode(s))
    decreases |s|
  {
    if s != [] {
      var n := CharLength(s);
      var head, rest := if n == 0 then REPLACEMENT else s[..n], Decode(s[if n == 0 then 1 else n..]);
      DecodeIsValid(s[if n == 0 then 1 else n..]);
      CharLengthOfPrefix(s, n);
      CharLengthOfPrefix(head + rest, |head|);
      assert (head + rest)[..|head|] == head;
      assert (head + rest)[|head|..] == rest;
    }
  }

  lemma {:induction false} ValidUpToStep(s: seq<Byte>)
    ensures ValidUpTo(s) == if CharLength(s) == 0 then 0 else CharLength(s) + ValidUpTo(s[CharLength(s)..])
  {
    hide CharLength;
  }

  /** `valid_up_to` is the length of the longest well-formed prefix. */
  lemma {:induction false} ValidUpToIsLongest(s: seq<Byte>, k: nat)
    requires k <= |s|
    ensures Valid(s[..ValidUpTo(s)])
    ensures Valid(s[..k]) ==> k <= ValidUpTo(s)
    decreases |s|
  {
    var n := CharLength(s);
    hide CharLength;
    CharLengthOfPrefix(s, k);
    CharLengthOfPrefix(s, ValidUpTo(s));
    if n > 0 {
      ValidUpToIsLongest(s[n..], if k >= n then k - n else 0);
      ValidUpToStep(s);
      hide ValidUpTo;
      TakeTake(s, n, ValidUpTo(s));
      if k >= n {
        TakeTake(s, n, k);
      }
    }
  }

  lemma {:induction false} DecodeFromInvalid(s: seq<Byte>)
    ensures Decode(s) == s[..ValidUpTo(s)] + Decode(s[ValidUpTo(s)..])
    ensures ValidUpTo(s) < |s| ==> CharLength(s[ValidUpTo(s)..]) == 0
    decreases |s|
  {
    hide Decode, CharLength, ValidUpTo;
    ValidUpToStep(s);
    var n := CharLength(s);
    if n == 0 {
      assert s[0..] == s && s[..0] == [];
    } else {
      var v := ValidUpTo(s[n..]);
      DropDrop(s, n, v);
      assert Decode(s[n..]) == s[n..][..v] + Decode(s[n + v..]) && (n + v < |s| ==> CharLength(s[n + v..]) == 0) by {
        DecodeFromInvalid(s[n..]);
      }
      DecodeStep(s);
      TakeBoth(s, n, v, Decode(s), Decode(s[n..]), Decode(s[n + v..]));
    }
  }

  /** `utf8` of the original: consume a well-formed prefix and one malformed byte at a time. */
  method DecodeText(bytes: seq<Byte>) returns (text: seq<Byte>)
    ensures text == Decode(bytes)
  {
    text := [];
    var rest := bytes;
    while rest != []
      invariant text + Decode(rest) == Decode(bytes)
      decreases |rest|
    {
      var valid := ValidUpTo(rest);
      DecodeFromInvalid(rest);
      Assoc(text, rest[..valid], Decode(rest[valid..]));
      text := text + rest[..valid];
      if valid == |rest| {
        return;
      }
      DropDrop(rest, valid, 1);
      Assoc(text, REPLACEMENT, Decode(rest[valid + 1..]));
      text := text + REPLACEMENT;
      rest := rest[valid + 1..];
    }
  }
}
