/**
  String similarity (rust_backend/crates/core/src/matching.rs).

  `Distance` is the textbook Levenshtein recursion. It is tied to its meaning (the least number of
  single-byte edits) by `ScriptIsNoShorter` and `ShortestScript`, and to the program by
  `CompareStrings`, which strips the common prefix and suffix, swaps the operands and keeps one row.
*/
module Matching {

  import opened Bytes
  import opened Checks
  import Sequences

  type Text = seq<Byte>

  function Min(a: nat, b: nat): nat { if a <= b then a else b }

  function Max(a: nat, b: nat): nat { if a >= b then a else b }

  function Cost(a: Byte, b: Byte): nat { if a == b then 0 else 1 }

  function Init(s: Text): Text requires s != [] { s[..|s| - 1] }

  function Last(s: Text): Byte requires s != [] { s[|s| - 1] }

  /** Textbook recursive edit distance, on the last bytes. */
  function Distance(a: Text, b: Text): nat
    decreases |a| + |b|
  {
    if a == [] then |b|
    else if b == [] then |a|
    else Min(Min(Distance(Init(a), b) + 1, Distance(a, Init(b)) + 1),
             Distance(Init(a), Init(b)) + Cost(Last(a), Last(b)))
  }

  lemma {:induction false} DistanceSymmetric(a: Text, b: Text)
    ensures Distance(a, b) == Distance(b, a)
    decreases |a| + |b|
  {
    if a != [] && b != [] {
      DistanceSymmetric(Init(a), b);
      DistanceSymmetric(a, Init(b));
      DistanceSymmetric(Init(a), Init(b));
    }
  }

  lemma {:induction false} DistanceBounds(a: Text, b: Text)
    ensures Distance(a, b) <= Max(|a|, |b|)
    ensures |a| <= |b| + Distance(a, b) && |b| <= |a| + Distance(a, b)
    decreases |a| + |b|
  {
    if a != [] && b != [] {
      DistanceBounds(Init(a), b);
      DistanceBounds(a, Init(b));
      DistanceBounds(Init(a), Init(b));
    }
  }

  lemma {:induction false} ZeroDistance(a: Text, b: Text)
    ensures Distance(a, b) == 0 <==> a == b
    decreases |a| + |b|
  {
    if a != [] && b != [] {
      ZeroDistance(Init(a), Init(b));
      assert a == Init(a) + [Last(a)];
      assert b == Init(b) + [Last(b)];
    }
  }

  /** Appending one byte moves the distance by at most one. */
  lemma {:induction false} AppendLipschitz(a: Text, c: Byte, b: Text)
    ensures Distance(a, b) <= Distance(a + [c], b) + 1
    ensures Distance(a + [c], b) <= Distance(a, b) + 1
    decreases |b|
  {
    assert Init(a + [c]) == a;
    if b != [] {
      AppendLipschitz(a, c, Init(b));
      DistanceSymmetric(a, b);
      DistanceSymmetric(a, Init(b));
    }
    if a == [] {
      DistanceBounds([c], b);
    }
  }

  // ----- stripping ---------------------------------------------------------------------------

  lemma {:induction false} StripLast(a: Text, b: Text, c: Byte)
    ensures Distance(a + [c], b + [c]) == Distance(a, b)
  {
    assert Init(a + [c]) == a && Init(b + [c]) == b;
    AppendLipschitz(a, c, b);
    AppendLipschitz(b, c, a);
    DistanceSymmetric(a, b);
    DistanceSymmetric(a, b + [c]);
  }

  lemma {:induction false} StripSuffix(a: Text, b: Text, s: Text)
    ensures Distance(a + s, b + s) == Distance(a, b)
    decreases |s|
  {
    if s == [] {
      assert a + s == a && b + s == b;
    } else {
      assert a + s == (a + Init(s)) + [Last(s)] && b + s == (b + Init(s)) + [Last(s)];
      StripLast(a + Init(s), b + Init(s), Last(s));
      StripSuffix(a, b, Init(s));
    }
  }

  lemma {:induction false} StripFirst(c: Byte, a: Text, b: Text)
    ensures Distance([c] + a, [c] + b) == Distance(a, b)
    decreases |a| + |b|
  {
    var a1, b1 := [c] + a, [c] + b;
    assert a != [] ==> Init(a1) == [c] + Init(a);
    assert b != [] ==> Init(b1) == [c] + Init(b);
    if a != [] {
      StripFirst(c, Init(a), b);
    } else {
      assert Init(a1) == [] && a1 == [c];
    }
    if b != [] {
      StripFirst(c, a, Init(b));
    } else {
      assert Init(b1) == [] && b1 == [c];
    }
    if a != [] && b != [] {
      StripFirst(c, Init(a), Init(b));
    }
  }

  lemma {:induction false} StripPrefix(p: Text, a: Text, b: Text)
    ensures Distance(p + a, p + b) == Distance(a, b)
    decreases |p|
  {
    if p == [] {
      assert p + a == a && p + b == b;
    } else {
      assert p + a == [p[0]] + (p[1..] + a) && p + b == [p[0]] + (p[1..] + b);
      StripFirst(p[0], p[1..] + a, p[1..] + b);
      StripPrefix(p[1..], a, b);
    }
  }

  // ----- what the distance means --------------------------------------------------------------

  datatype Edit = Insert(at: nat, byte: Byte) | Delete(at: nat) | Replace(at: nat, byte: Byte) {
    predicate Fits(s: Text) { if Insert? then at <= |s| else at < |s| }

    function Apply(s: Text): Text
      requires Fits(s)
    {
      match this
      case Insert(i, c) => s[..i] + [c] + s[i..]
      case Delete(i) => s[..i] + s[i + 1..]
      case Replace(i, c) => s[..i] + [c] + s[i + 1..]
    }
  }

  /** The edits turn `a` into `b`, one after the other. */
  ghost predicate Transforms(a: Text, edits: seq<Edit>, b: Text)
    decreases |edits|
  {
    if edits == [] then a == b
    else edits[0].Fits(a) && Transforms(edits[0].Apply(a), edits[1..], b)
  }

  lemma {:induction false} ExtendNear(a: Text, p: Text, q: Text, v: Text)
    requires forall x :: Distance(x, p) <= Distance(x, q) + 1
    ensures Distance(a, p + v) <= Distance(a, q + v) + 1
    decreases |v|, |a|
  {
    if v == [] {
      assert p + v == p && q + v == q;
    } else if a == [] {
      assert Distance([], p) == |p| && Distance([], q) == |q|;
    } else {
      assert Init(p + v) == p + Init(v) && Init(q + v) == q + Init(v);
      ExtendNear(a, p, q, Init(v));
      ExtendNear(Init(a), p, q, Init(v));
      ExtendNear(Init(a), p, q, v);
    }
  }

  lemma {:induction false} ReplaceLastNear(a: Text, u: Text, c: Byte, d: Byte)
    ensures Distance(a, u + [c]) <= Distance(a, u + [d]) + 1
    decreases |a|
  {
    if a != [] {
      assert Init(u + [c]) == u && Init(u + [d]) == u;
      ReplaceLastNear(Init(a), u, c, d);
    }
  }

  lemma {:induction false} InsertNear(a: Text, u: Text, c: Byte, v: Text)
    ensures Distance(a, u + [c] + v) <= Distance(a, u + v) + 1
    ensures Distance(a, u + v) <= Distance(a, u + [c] + v) + 1
  {
    forall x
      ensures Distance(x, u + [c]) <= Distance(x, u) + 1
      ensures Distance(x, u) <= Distance(x, u + [c]) + 1
    {
      AppendLipschitz(u, c, x);
      DistanceSymmetric(x, u);
      DistanceSymmetric(x, u + [c]);
    }
    ExtendNear(a, u + [c], u, v);
    ExtendNear(a, u, u + [c], v);
  }

  lemma {:induction false} ReplaceNear(a: Text, u: Text, c: Byte, d: Byte, v: Text)
    ensures Distance(a, u + [c] + v) <= Distance(a, u + [d] + v) + 1
  {
    forall x ensures Distance(x, u + [c]) <= Distance(x, u + [d]) + 1 {
      ReplaceLastNear(x, u, c, d);
    }
    ExtendNear(a, u + [c], u + [d], v);
  }

  lemma {:induction false} SplitAt(s: Text, i: nat)
    requires i <= |s|
    ensures s[..i] + s[i..] == s
    ensures i < |s| ==> s[..i] + [s[i]] + s[i + 1..] == s
  {}

  /** One edit moves the distance from any third text by at most one. */
  lemma {:induction false} OneEdit(a: Text, e: Edit, b: Text)
    requires e.Fits(b)
    ensures Distance(a, e.Apply(b)) <= Distance(a, b) + 1
  {
    SplitAt(b, e.at);
    match e
    case Insert(i, c) => InsertNear(a, b[..i], c, b[i..]);
    case Delete(i) => InsertNear(a, b[..i], b[i], b[i + 1..]);
    case Replace(i, c) => ReplaceNear(a, b[..i], c, b[i], b[i + 1..]);
  }

  /** No script of edits is shorter than the distance. */
  lemma {:induction false} ScriptIsNoShorter(a: Text, edits: seq<Edit>, b: Text)
    requires Transforms(a, edits, b)
    ensures Distance(a, b) <= |edits|
    decreases |edits|
  {
    if edits == [] {
      ZeroDistance(a, b);
    } else {
      var next := edits[0].Apply(a);
      ScriptIsNoShorter(next, edits[1..], b);
      // walk back from `next` to `a` with the inverse edit, seen from b
      InverseUndoes(edits[0], a);
      OneEdit(b, Inverse(edits[0], a), next);
      DistanceSymmetric(a, b);
      DistanceSymmetric(next, b);
    }
  }

  function Inverse(e: Edit, s: Text): Edit
    requires e.Fits(s)
  {
    match e
    case Insert(i, _) => Delete(i)
    case Delete(i) => Insert(i, s[i])
    case Replace(i, _) => Replace(i, s[i])
  }

  lemma {:induction false} InverseUndoes(e: Edit, s: Text)
    requires e.Fits(s)
    ensures Inverse(e, s).Fits(e.Apply(s)) && Inverse(e, s).Apply(e.Apply(s)) == s
  {
    SplitAt(s, e.at);
    var next := e.Apply(s);
    assert next[..e.at] == s[..e.at];
    if e.Insert? {
      assert next[e.at + 1..] == s[e.at..];
    } else if e.Delete? {
      assert next[e.at..] == s[e.at + 1..];
    } else {
      assert next[e.at + 1..] == s[e.at + 1..];
    }
  }

  lemma {:induction false} TransformsAppend(a: Text, edits: seq<Edit>, b: Text, e: Edit)
    requires Transforms(a, edits, b) && e.Fits(b)
    ensures Transforms(a, edits + [e], e.Apply(b))
    decreases |edits|
  {
    if edits == [] {
      assert edits + [e] == [e] && [e][1..] == [];
    } else {
      TransformsAppend(edits[0].Apply(a), edits[1..], b, e);
      assert (edits + [e])[1..] == edits[1..] + [e];
    }
  }

  lemma {:induction false} ApplyBefore(e: Edit, s: Text, c: Byte)
    requires e.Fits(s)
    ensures e.Fits(s + [c]) && e.Apply(s + [c]) == e.Apply(s) + [c]
  {
    Sequences.CutConcat(s, [c], e.at);
    match e
    case Insert(i, x) => Sequences.Assoc(s[..i] + [x], s[i..], [c]);
    case Delete(i) =>
      Sequences.CutConcat(s, [c], i + 1);
      Sequences.Assoc(s[..i], s[i + 1..], [c]);
    case Replace(i, x) =>
      Sequences.CutConcat(s, [c], i + 1);
      Sequences.Assoc(s[..i] + [x], s[i + 1..], [c]);
  }

  lemma {:induction false} TransformsBefore(a: Text, edits: seq<Edit>, b: Text, c: Byte)
    requires Transforms(a, edits, b)
    ensures Transforms(a + [c], edits, b + [c])
    decreases |edits|
  {
    if edits != [] {
      TransformsBefore(edits[0].Apply(a), edits[1..], b, c);
      ApplyBefore(edits[0], a, c);
    }
  }

  lemma {:induction false} TransformsTail(a: Text, edits: seq<Edit>, b: Text, c: Byte, d: Byte) returns (r: seq<Edit>)
    requires Transforms(a, edits, b)
    ensures Transforms(a + [c], r, b + [d]) && |r| == |edits| + Cost(c, d)
  {
    TransformsBefore(a, edits, b, c);
    if c == d {
      return edits;
    }
    var e := Replace(|b|, d);
    TransformsAppend(a + [c], edits, b + [c], e);
    assert e.Apply(b + [c]) == b + [d];
    r := edits + [e];
  }

  lemma {:induction false} TransformsDrop(a: Text, edits: seq<Edit>, b: Text, c: Byte) returns (r: seq<Edit>)
    requires Transforms(a, edits, b)
    ensures Transforms(a + [c], r, b) && |r| == |edits| + 1
  {
    var e := Delete(|a|);
    r := [e] + edits;
    assert e.Apply(a + [c]) == a;
    assert r[1..] == edits;
  }

  lemma {:induction false} TransformsAdd(a: Text, edits: seq<Edit>, b: Text, c: Byte) returns (r: seq<Edit>)
    requires Transforms(a, edits, b)
    ensures Transforms(a, r, b + [c]) && |r| == |edits| + 1
  {
    var e := Insert(|b|, c);
    TransformsAppend(a, edits, b, e);
    assert e.Apply(b) == b + [c];
    r := edits + [e];
  }

  lemma {:induction false} InitLast(s: Text)
    requires s != []
    ensures Init(s) + [Last(s)] == s
  {}

  /** Some script has exactly the distance's length. */
  lemma {:induction false} ShortestScript(a: Text, b: Text) returns (edits: seq<Edit>)
    ensures Transforms(a, edits, b) && |edits| == Distance(a, b)
    decreases |a| + |b|
  {
    if a == [] && b == [] {
      edits := [];
    } else if a != [] && (b == [] || Distance(a, b) == Distance(Init(a), b) + 1) {
      var rest := ShortestScript(Init(a), b);
      InitLast(a);
      edits := TransformsDrop(Init(a), rest, b, Last(a));
    } else if a == [] || Distance(a, b) == Distance(a, Init(b)) + 1 {
      var rest := ShortestScript(a, Init(b));
      InitLast(b);
      edits := TransformsAdd(a, rest, Init(b), Last(b));
    } else {
      var rest := ShortestScript(Init(a), Init(b));
      InitLast(a);
      InitLast(b);
      edits := TransformsTail(Init(a), rest, Init(b), Last(a), Last(b));
    }
  }

  // ----- the score --------------------------------------------------------------------------

  /** One minus the distance over the longer length; equal texts (also two empty ones) score one. */
  function Similarity(a: Text, b: Text): (r: real)
  {
    if a == b then 1.0 else 1.0 - Distance(a, b) as real / Max(|a|, |b|) as real
  }

  lemma {:induction false} SimilarityIsAScore(a: Text, b: Text)
    ensures 0.0 <= Similarity(a, b) <= 1.0
    ensures Similarity(a, b) == Similarity(b, a)
    ensures Similarity(a, b) == 1.0 <==> a == b
    ensures a != b && (a == [] || b == []) ==> Similarity(a, b) == 0.0
  {
    DistanceSymmetric(a, b);
    DistanceBounds(a, b);
    ZeroDistance(a, b);
    if a != b {
      RatioBounds(Distance(a, b), Max(|a|, |b|));
    }
  }

  /** What is missing from a full score is the distance, in lengths of the longer text. */
  lemma {:induction false} SimilarityCountsEdits(a: Text, b: Text)
    ensures (1.0 - Similarity(a, b)) * (if |a| < |b| then |b| else |a|) as real == Distance(a, b) as real
  {
    ZeroDistance(a, b);
    hide Distance;
    if a != b {
      RatioOf(Distance(a, b), Max(|a|, |b|));
    }
  }

  lemma {:induction false} RatioOf(d: nat, m: nat)
    requires m > 0
    ensures d as real / m as real * m as real == d as real
  {}

  lemma {:induction false} RatioBounds(d: nat, m: nat)
    requires 0 < d <= m
    ensures 0.0 < d as real / m as real <= 1.0
    ensures d == m ==> d as real / m as real == 1.0
  {}

  // ----- the program --------------------------------------------------------------------------

  datatype Result<T> = Ok(value: T) | Cancelled

  /** The length of the longest common prefix. */
  method CommonPrefix(a: Text, b: Text) returns (n: nat)
    ensures n <= |a| && n <= |b| && a[..n] == b[..n]
    ensures n < |a| && n < |b| ==> a[n] != b[n]
  {
    n := 0;
    while n < |a| && n < |b| && a[n] == b[n]
      invariant n <= |a| && n <= |b| && a[..n] == b[..n]
    {
      n := n + 1;
    }
  }

  /** The length of the longest common suffix. */
  method CommonSuffix(a: Text, b: Text) returns (n: nat)
    ensures n <= |a| && n <= |b| && a[|a| - n..] == b[|b| - n..]
    ensures n < |a| && n < |b| ==> a[|a| - n - 1] != b[|b| - n - 1]
  {
    n := 0;
    while n < |a| && n < |b| && a[|a| - 1 - n] == b[|b| - 1 - n]
      invariant n <= |a| && n <= |b| && a[|a| - n..] == b[|b| - n..]
    {
      n := n + 1;
    }
  }

  /** A failure is reported exactly when the last call made is the first that fails. */
  ghost predicate Outcome<T>(r: Result<T>, check: nat -> bool, calls: nat)
  {
    if r.Cancelled? then FailedAt(check, calls) else 0 < calls && Passed(check, calls)
  }

  /** The distances from `a` to every prefix of `b`. */
  function Row(a: Text, b: Text): (r: seq<nat>)
    ensures |r| == |b| + 1
    ensures forall j | 0 <= j <= |b| :: r[j] == Distance(a, b[..j])
  {
    seq(|b| + 1, j requires 0 <= j <= |b| => Distance(a, b[..j]))
  }

  /** What the inner loop computes from the row before it. */
  ghost predicate Follows(before: seq<nat>, after: seq<nat>, c: Byte, b: Text)
  {
    && |before| == |after| == |b| + 1
    && after[0] == before[0] + 1
    && forall j | 0 <= j < |b| ::
         after[j + 1] == Min(Min(before[j + 1] + 1, after[j] + 1), before[j] + Cost(c, b[j]))
  }

  lemma {:induction false} RowFollows(a: Text, c: Byte, b: Text)
    ensures Row(a, b)[0] == |a|
    ensures Follows(Row(a, b), Row(a + [c], b), c, b)
  {
    hide Distance;
    FirstColumn(a, b);
    FirstColumn(a + [c], b);
    var before, after := Row(a, b), Row(a + [c], b);
    forall j | 0 <= j < |b|
      ensures after[j + 1] == Min(Min(before[j + 1] + 1, after[j] + 1), before[j] + Cost(c, b[j]))
    {
      Column(a, c, b, j);
    }
  }

  lemma {:induction false} FirstColumn(a: Text, b: Text)
    ensures Distance(a, b[..0]) == |a|
  {
    DistanceSymmetric(a, []);
  }

  lemma {:induction false} Unfold(a: Text, b: Text)
    requires a != [] && b != []
    ensures Distance(a, b) == Min(Min(Distance(Init(a), b) + 1, Distance(a, Init(b)) + 1),
                                  Distance(Init(a), Init(b)) + Cost(Last(a), Last(b)))
  {}

  lemma {:induction false} Step(x: Text, c: Byte, y: Text, d: Byte)
    ensures Distance(x + [c], y + [d]) ==
              Min(Min(Distance(x, y + [d]) + 1, Distance(x + [c], y) + 1), Distance(x, y) + Cost(c, d))
  {
    hide Distance;
    assert Init(x + [c]) == x && Last(x + [c]) == c;
    assert Init(y + [d]) == y && Last(y + [d]) == d;
    Unfold(x + [c], y + [d]);
  }

  lemma {:induction false} Column(a: Text, c: Byte, b: Text, j: nat)
    requires j < |b|
    ensures Distance(a + [c], b[..j + 1])
         == Min(Min(Distance(a, b[..j + 1]) + 1, Distance(a + [c], b[..j]) + 1), Distance(a, b[..j]) + Cost(c, b[j]))
  {
    hide Distance;
    Sequences.TakeNext(b, j);
    Step(a, c, b[..j], b[j]);
  }

  /** One row of the dynamic programme, overwritten in place by the row after it. */
  method NextRow(row: array<nat>, first: nat, c: Byte, b: Text, ghost after: seq<nat>,
                 check: nat -> bool, before: nat)
    returns (ok: bool, calls: nat)
    requires Follows(row[..], after, c, b) && after[0] == first && Passed(check, before)
    modifies row
    ensures before <= calls
    ensures if ok then row[..] == after && Passed(check, calls) else FailedAt(check, calls)
  {
    hide Passed, FailedAt;
    calls := before;
    var diagonal := row[0];
    row[0] := first;
    for j := 0 to |b|
      invariant before <= calls && Passed(check, calls)
      invariant diagonal == old(row[j])
      invariant forall i | 0 <= i <= j :: row[i] == after[i]
      invariant forall i | j < i <= |b| :: row[i] == old(row[i])
    {
      if j % 4096 == 0 {
        ok, calls := Check(check, calls);
        if !ok {
          return;
        }
      }
      var previous := row[j + 1];
      row[j + 1] := Min(Min(previous + 1, row[j] + 1), diagonal + Cost(c, b[j]));
      diagonal := previous;
    }
    ok := true;
  }

  lemma {:induction false} EmptyRow(b: Text)
    ensures Row([], b) == seq(|b| + 1, j requires 0 <= j <= |b| => j)
  {}

  /** `row[second.len()]` of the original, for operands already stripped and ordered. */
  method RowDistance(a: Text, b: Text, check: nat -> bool, before: nat) returns (r: Result<nat>, calls: nat)
    requires 0 < before && Passed(check, before)
    ensures Outcome(r, check, calls)
    ensures r.Ok? ==> r.value == Distance(a, b)
  {
    hide Passed, FailedAt;
    calls := before;
    var row := new nat[|b| + 1](j => j);
    EmptyRow(b);
    assert row[..] == Row([], b);
    assert a[..0] == [];
    for i := 0 to |a|
      invariant 0 < calls && Passed(check, calls)
      invariant row[..] == Row(a[..i], b)
    {
      var ok;
      ok, calls := Check(check, calls);
      if !ok {
        return Cancelled, calls;
      }
      RowFollows(a[..i], a[i], b);
      assert a[..i] + [a[i]] == a[..i + 1];
      FirstColumn(a[..i + 1], b);
      ok, calls := NextRow(row, i + 1, a[i], b, Row(a[..i + 1], b), check, calls);
      if !ok {
        return Cancelled, calls;
      }
    }
    assert a[..|a|] == a && b[..|b|] == b;
    assert row[|b|] == Row(a, b)[|b|];
    r := Ok(row[|b|]);
  }

  lemma {:induction false} StripBoth(prefix: Text, a: Text, b: Text, suffix: Text)
    ensures Distance(prefix + a + suffix, prefix + b + suffix) == Distance(a, b)
  {
    StripSuffix(prefix + a, prefix + b, suffix);
    StripPrefix(prefix, a, b);
  }

  /** The lengths of the common prefix and of the common suffix of what it leaves. */
  method Strip(first: Text, second: Text) returns (n: nat, m: nat)
    ensures n + m <= |first| && n + m <= |second|
    ensures first[..n] == second[..n] && first[|first| - m..] == second[|second| - m..]
    ensures n < |first| && n < |second| ==> first[n] != second[n]
    ensures n + m < |first| && n + m < |second| ==> first[|first| - m - 1] != second[|second| - m - 1]
  {
    n := CommonPrefix(first, second);
    m := CommonSuffix(first[n..], second[n..]);
    SuffixOfRest(first, n, first[n..], m);
    SuffixOfRest(second, n, second[n..], m);
  }

  lemma {:induction false} SuffixOfRest(s: Text, n: nat, rest: Text, m: nat)
    requires n <= |s| && rest == s[n..] && m <= |rest|
    ensures s[|s| - m..] == rest[|rest| - m..]
    ensures m < |rest| ==> s[|s| - m - 1] == rest[|rest| - m - 1]
  {
    var left := rest[|rest| - m..];
    forall i | 0 <= i < m ensures s[|s| - m..][i] == left[i] {}
  }

  lemma {:induction false} StripBothAt(first: Text, second: Text, n: nat, m: nat)
    requires n + m <= |first| && n + m <= |second|
    requires first[..n] == second[..n] && first[|first| - m..] == second[|second| - m..]
    ensures Distance(first[n..|first| - m], second[n..|second| - m]) == Distance(first, second)
  {
    Sequences.SplitThree(first, n, |first| - m);
    Sequences.SplitThree(second, n, |second| - m);
    StripBoth(first[..n], first[n..|first| - m], second[n..|second| - m], first[|first| - m..]);
  }

  /** `compare_strings`, on the two trimmed and case-folded byte strings. */
  method CompareStrings(first: Text, second: Text, check: nat -> bool) returns (r: Result<real>, calls: nat)
    ensures Outcome(r, check, calls)
    ensures r.Ok? ==> r.value == Similarity(first, second)
  {
    var ok;
    ok, calls := Check(check, 0);
    if !ok {
      return Cancelled, calls;
    }
    if first == second {
      return Ok(1.0), calls;
    }
    var maximum := Max(|first|, |second|);
    if first == [] || second == [] {
      SimilarityIsAScore(first, second);
      return Ok(0.0), calls;
    }
    var n, m := Strip(first, second);
    var a, b := first[n..|first| - m], second[n..|second| - m];
    StripBothAt(first, second, n, m);
    if |a| < |b| {
      DistanceSymmetric(a, b);
      a, b := b, a;
    }
    var distance;
    distance, calls := RowDistance(a, b, check, calls);
    if distance.Cancelled? {
      return Cancelled, calls;
    }
    r := Ok(1.0 - distance.value as real / maximum as real);
  }
}
