/** Version order (`compare_versions` in rust_backend/crates/extensions/src/environment.rs). */
module Versions {

  datatype Comparison = Less | Equal | Greater {
    function Reversed(): Comparison {
      match this
      case Less => Greater
      case Equal => Equal
      case Greater => Less
    }
  }

  const MAX := 0x7FFF_FFFF_FFFF_FFFF
  const MIN := -0x8000_0000_0000_0000

  // ----- parsing ---------------------------------------------------------------------------------

  /** The digits of an `isize`, as Rust reads them: a bad character counts as 0, an overflow before it
      as the limit. */
  function Scan(s: string, value: int, negative: bool): (r: int)
    requires MIN <= value <= MAX
    ensures MIN <= r <= MAX
    decreases |s|
  {
    if s == [] then value
    else if !('0' <= s[0] <= '9') then 0
    else
      var digit := s[0] as int - '0' as int;
      var next := 10 * value + if negative then -digit else digit;
      if next > MAX then MAX else if next < MIN then MIN else Scan(s[1..], next, negative)
  }

  function ParsePart(s: string): (r: int)
    ensures MIN <= r <= MAX
  {
    if s == "" || s == "+" || s == "-" then 0
    else if s[0] == '-' then Scan(s[1..], 0, true)
    else if s[0] == '+' then Scan(s[1..], 0, false)
    else Scan(s, 0, false)
  }

  /** `split('.')`: one part more than there are dots. */
  function Split(s: string): (r: seq<string>)
    ensures |r| >= 1
    decreases |s|
  {
    if s == "" then [""]
    else
      var rest := Split(s[1..]);
      if s[0] == '.' then [""] + rest else [[s[0]] + rest[0]] + rest[1..]
  }

  function Parts(version: string): (r: seq<int>)
    ensures |r| >= 1
  {
    var pieces := Split(if version != "" && version[0] == 'v' then version[1..] else version);
    seq(|pieces|, i requires 0 <= i < |pieces| => ParsePart(pieces[i]))
  }

  // ----- what a version says ---------------------------------------------------------------------

  predicate Digits(s: string) { forall i | 0 <= i < |s| :: '0' <= s[i] <= '9' }

  /** The number a string of digits is written for. */
  function Numeral(s: string): (n: nat)
    requires Digits(s)
    decreases |s|
  {
    if s == "" then 0 else 10 * Numeral(s[..|s| - 1]) + (s[|s| - 1] as int - '0' as int)
  }

  function Clamp(n: int): int { if n > MAX then MAX else if n < MIN then MIN else n }

  function Signed(n: nat, negative: bool): int { if negative then 0 - n else n }

  lemma {:induction false} NumeralGrows(s: string, i: nat)
    requires i <= |s| && Digits(s)
    ensures Numeral(s[..i]) <= Numeral(s)
    decreases |s|
  {
    if i < |s| {
      var init := s[..|s| - 1];
      assert init[..i] == s[..i];
      NumeralGrows(init, i);
    } else {
      assert s[..i] == s;
    }
  }

  lemma {:induction false} NumeralStep(s: string, i: nat)
    requires i < |s| && Digits(s[..i + 1])
    ensures Digits(s[..i]) && '0' <= s[i] <= '9'
    ensures Numeral(s[..i + 1]) == 10 * Numeral(s[..i]) + (s[i] as int - '0' as int)
  {
    var t := s[..i + 1];
    assert t[..|t| - 1] == s[..i] && t[i] == s[i];
    assert forall j | 0 <= j < i :: s[..i][j] == t[j];
  }

  /** From position `i` on, having read what is in front of it. */
  lemma {:induction false} ScanFrom(s: string, i: nat, negative: bool)
    requires i <= |s| && Digits(s) && Digits(s[..i]) && MIN <= Signed(Numeral(s[..i]), negative) <= MAX
    ensures Scan(s[i..], Signed(Numeral(s[..i]), negative), negative) == Clamp(Signed(Numeral(s), negative))
    decreases |s| - i
  {
    if i == |s| {
      assert s[..i] == s;
    } else {
      assert s[i..][0] == s[i] && s[i..][1..] == s[i + 1..];
      assert Digits(s[..i + 1]);
      NumeralStep(s, i);
      NumeralGrows(s, i + 1);
      hide Numeral, Digits;
      var next := Signed(Numeral(s[..i + 1]), negative);
      if MIN <= next <= MAX {
        ScanFrom(s, i + 1, negative);
      }
    }
  }

  /** A part is the number it is written for, within the limits of the type. */
  lemma {:induction false} PartIsItsNumber(digits: string)
    requires digits != "" && Digits(digits)
    ensures ParsePart(digits) == Clamp(Numeral(digits))
    ensures ParsePart("+" + digits) == Clamp(Numeral(digits))
    ensures ParsePart("-" + digits) == Clamp(0 - Numeral(digits))
  {
    assert digits[..0] == "" && digits[0..] == digits && ("+" + digits)[1..] == digits && ("-" + digits)[1..] == digits;
    ScanFrom(digits, 0, false);
    ScanFrom(digits, 0, true);
    hide Numeral, Scan;
  }

  lemma {:induction false} ScanStops(s: string, i: nat, k: nat, negative: bool)
    requires i <= k < |s| && Digits(s[..k]) && !('0' <= s[k] <= '9') && Digits(s[..i])
    requires MIN <= Signed(Numeral(s[..k]), negative) <= MAX && MIN <= Signed(Numeral(s[..i]), negative) <= MAX
    ensures Scan(s[i..], Signed(Numeral(s[..i]), negative), negative) == 0
    decreases k - i
  {
    assert s[i..][0] == s[i] && s[i..][1..] == s[i + 1..];
    if i < k {
      DigitsOf(s, i, k);
      NumeralStep(s, i);
      NumeralGrows(s[..k], i + 1);
      hide Numeral, Digits;
      ScanStops(s, i + 1, k, negative);
    }
  }

  lemma {:induction false} DigitsOf(s: string, i: nat, k: nat)
    requires i < k <= |s| && Digits(s[..k])
    ensures s[..k][..i + 1] == s[..i + 1] && Digits(s[..i + 1])
  {
    assert forall j | 0 <= j < k :: s[..k][j] == s[j];
  }

  /** A part that is not a number counts as zero, unless it leaves the type before its first other character. */
  lemma {:induction false} PartWithoutNumber(s: string, k: nat)
    requires k < |s| && Digits(s[..k]) && !('0' <= s[k] <= '9') && (k > 0 || s[0] !in "+-")
    requires Numeral(s[..k]) <= MAX
    ensures ParsePart(s) == 0
  {
    assert s[..0] == "" && s[0..] == s;
    assert k > 0 ==> s[0] == s[..k][0];
    ScanStops(s, 0, k, false);
    hide Numeral, Scan;
  }

  function Dotted(pieces: seq<string>): string
    requires pieces != []
    decreases |pieces|
  {
    if |pieces| == 1 then pieces[0] else pieces[0] + "." + Dotted(pieces[1..])
  }

  lemma {:induction false} SplitDotted(pieces: seq<string>)
    requires pieces != [] && forall p | p in pieces :: '.' !in p
    ensures Split(Dotted(pieces)) == pieces
    decreases |pieces|, |pieces[0]|
  {
    var s, first, rest := Dotted(pieces), pieces[0], pieces[1..];
    if first == "" {
      if |pieces| > 1 {
        assert s == "." + Dotted(rest);
        SplitDotted(rest);
        assert s[1..] == Dotted(rest);
      }
    } else {
      var less := [first[1..]] + rest;
      assert less[1..] == rest;
      assert s[1..] == Dotted(less);
      forall p | p in less ensures '.' !in p {
        assert p == first[1..] || p in pieces;
        assert '.' in first[1..] ==> '.' in first;
        assert first in pieces;
      }
      SplitDotted(less);
      assert s[0] == first[0] && first[0] in first;
      assert [first[0]] + first[1..] == first;
    }
    assert pieces == [first] + rest;
  }

  /** The parts of a version are what stands between its dots, a `v` in front or not. */
  lemma {:induction false} PartsExactly(pieces: seq<string>)
    requires pieces != [] && forall p | p in pieces :: '.' !in p
    ensures var parts := Parts("v" + Dotted(pieces));
            |parts| == |pieces| && forall i | 0 <= i < |pieces| :: parts[i] == ParsePart(pieces[i])
    ensures !("v" <= pieces[0]) ==> Parts(Dotted(pieces)) == Parts("v" + Dotted(pieces))
  {
    SplitDotted(pieces);
    hide Split, ParsePart;
    var s := Dotted(pieces);
    assert ("v" + s)[1..] == s;
    if s != "" && s[0] == 'v' {
      assert pieces[0] != "" ==> s[0] == pieces[0][0];
    }
  }

  // ----- the order -------------------------------------------------------------------------------

  /** Part `i`, where a missing part is zero. */
  function At(a: seq<int>, i: nat): int { if i < |a| then a[i] else 0 }

  /** `a` comes before `b` at the first part in which they differ. */
  ghost predicate Before(a: seq<int>, b: seq<int>) {
    exists k: nat :: At(a, k) < At(b, k) && SameUpTo(a, b, k)
  }

  ghost predicate SameUpTo(a: seq<int>, b: seq<int>, k: nat) { forall i | 0 <= i < k :: At(a, i) == At(b, i) }

  ghost predicate Same(a: seq<int>, b: seq<int>) { forall i: nat :: At(a, i) == At(b, i) }

  ghost function Order(a: seq<int>, b: seq<int>): Comparison {
    if Before(a, b) then Less else if Before(b, a) then Greater else Equal
  }

  lemma {:induction false} BeforeIsStrict(a: seq<int>, b: seq<int>)
    ensures !(Before(a, b) && Before(b, a))
    ensures Same(a, b) ==> !Before(a, b)
  {
    if Before(a, b) {
      var k: nat :| At(a, k) < At(b, k) && SameUpTo(a, b, k);
      forall j: nat | At(b, j) < At(a, j) ensures !SameUpTo(b, a, j) {
        assert j >= k;
        assert At(b, k) != At(a, k);
      }
    }
  }

  lemma {:induction false} BeforeTransitive(a: seq<int>, b: seq<int>, c: seq<int>)
    requires (Before(a, b) || Same(a, b)) && (Before(b, c) || Same(b, c))
    ensures Before(a, c) || Same(a, c)
    ensures Before(a, b) || Before(b, c) ==> Before(a, c)
  {
    if Before(a, b) && Before(b, c) {
      var k: nat :| At(a, k) < At(b, k) && SameUpTo(a, b, k);
      var j: nat :| At(b, j) < At(c, j) && SameUpTo(b, c, j);
      var m := if k < j then k else j;
      assert SameUpTo(a, c, m);
      assert At(a, m) < At(c, m);
    } else if Before(a, b) {
      var k: nat :| At(a, k) < At(b, k) && SameUpTo(a, b, k);
      assert SameUpTo(a, c, k) && At(a, k) < At(c, k);
    } else if Before(b, c) {
      var j: nat :| At(b, j) < At(c, j) && SameUpTo(b, c, j);
      assert SameUpTo(a, c, j) && At(a, j) < At(c, j);
    }
  }

  lemma {:induction false} NeitherBefore(a: seq<int>, b: seq<int>, n: nat)
    requires !Before(a, b) && !Before(b, a)
    ensures SameUpTo(a, b, n) && SameUpTo(b, a, n)
    decreases n
  {
    if n > 0 {
      NeitherBefore(a, b, n - 1);
      assert At(a, n - 1) == At(b, n - 1);
    }
  }

  lemma {:induction false} BeforeIsTotal(a: seq<int>, b: seq<int>)
    ensures Before(a, b) || Before(b, a) || Same(a, b)
  {
    if !Before(a, b) && !Before(b, a) {
      NeitherBefore(a, b, |a| + |b|);
      assert forall i: nat :: At(a, i) == At(b, i);
    }
  }

  /** Comparing versions is a total preorder: equal exactly when all parts are, reversed by exchange, and
      transitive. */
  lemma {:induction false} TotalPreorder(a: seq<int>, b: seq<int>, c: seq<int>)
    ensures Order(a, b).Equal? <==> Same(a, b)
    ensures Order(b, a) == Order(a, b).Reversed()
    ensures !Order(a, b).Less? && !Order(b, c).Less? ==> !Order(a, c).Less?
    ensures !Order(a, b).Less? && !Order(b, c).Less? && (Order(a, b).Greater? || Order(b, c).Greater?) ==>
              Order(a, c).Greater?
  {
    BeforeIsStrict(a, b);
    BeforeIsStrict(b, a);
    BeforeIsStrict(b, c);
    BeforeIsStrict(a, c);
    BeforeIsTotal(a, b);
    BeforeIsTotal(b, c);
    if !Order(a, b).Less? && !Order(b, c).Less? {
      assert Same(a, b) ==> Same(b, a);
      assert Same(b, c) ==> Same(c, b);
      BeforeTransitive(c, b, a);
      assert Same(c, a) ==> Same(a, c);
    }
  }

  /** Zeros at the end do not count; anything else there does. */
  lemma {:induction false} LongerByOne(a: seq<int>, n: int)
    ensures Order(a, a + [n]) == if n > 0 then Less else if n < 0 then Greater else Equal
  {
    var b := a + [n];
    assert SameUpTo(a, b, |a|) && SameUpTo(b, a, |a|);
    assert At(a, |a|) == 0 && At(b, |a|) == n;
    BeforeIsStrict(a, b);
    BeforeIsStrict(b, a);
    if n == 0 {
      assert Same(a, b);
    } else if n > 0 {
      assert Before(a, b);
    } else {
      assert Before(b, a);
    }
  }

  /** The order of two version strings. */
  ghost function Compare(first: string, second: string): Comparison { Order(Parts(first), Parts(second)) }

  /** `compare_versions`: two iterators side by side, the shorter padded with zeros. */
  method CompareVersions(first: string, second: string) returns (r: Comparison)
    ensures r == Compare(first, second)
  {
    var a, b := Parts(first), Parts(second);
    var i := 0;
    while i < |a| || i < |b|
      invariant SameUpTo(a, b, i)
      decreases |a| + |b| - i
    {
      var left, right := At(a, i), At(b, i);
      if left < right {
        BeforeIsStrict(a, b);
        return Less;
      }
      if left > right {
        assert SameUpTo(b, a, i);
        assert Before(b, a);
        BeforeIsStrict(a, b);
        return Greater;
      }
      i := i + 1;
    }
    assert Same(a, b) && Same(b, a);
    BeforeIsStrict(a, b);
    BeforeIsStrict(b, a);
    r := Equal;
  }
}
