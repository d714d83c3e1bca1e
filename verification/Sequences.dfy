/** Cutting and joining sequences. */
module Sequences {

  lemma {:induction false} Assoc<T>(a: seq<T>, b: seq<T>, c: seq<T>)
    ensures a + b + c == a + (b + c)
  {}

  lemma {:induction false} Rejoin<T>(s: seq<T>, n: nat)
    requires n <= |s|
    ensures s[..n] + s[n..] == s
  {}

  lemma {:induction false} CutConcat<T>(x: seq<T>, y: seq<T>, n: nat)
    requires n <= |x|
    ensures (x + y)[..n] == x[..n] && (x + y)[n..] == x[n..] + y
  {}

  lemma {:induction false} CutAtSeam<T>(x: seq<T>, y: seq<T>)
    ensures (x + y)[..|x|] == x && (x + y)[|x|..] == y
  {}

  lemma {:induction false} DropDrop<T>(s: seq<T>, n: nat, m: nat)
    requires n + m <= |s|
    ensures s[n..][m..] == s[n + m..]
  {}

  lemma {:induction false} TakeTake<T>(s: seq<T>, n: nat, m: nat)
    requires n <= m <= |s|
    ensures s[..m][..n] == s[..n]
    ensures s[..m][n..] == s[n..][..m - n]
    ensures s[..n] + s[n..m] == s[..m]
  {}

  lemma {:induction false} TakeSum<T>(s: seq<T>, n: nat, v: nat)
    requires n + v <= |s|
    ensures s[..n] + s[n..][..v] == s[..n + v]
  {}

  lemma {:induction false} TakeBoth<T>(s: seq<T>, n: nat, v: nat, all: seq<T>, some: seq<T>, rest: seq<T>)
    requires n + v <= |s| && all == s[..n] + some && some == s[n..][..v] + rest
    ensures all == s[..n + v] + rest
  {
    TakeSum(s, n, v);
    Assoc(s[..n], s[n..][..v], rest);
  }

  lemma {:induction false} SliceIsTake<T>(s: seq<T>, i: nat, j: nat)
    requires i <= j <= |s|
    ensures s[i..][..j - i] == s[i..j]
  {}

  lemma {:induction false} SplitThree<T>(s: seq<T>, i: nat, j: nat)
    requires i <= j <= |s|
    ensures s[..i] + s[i..j] + s[j..] == s
  {}

  lemma {:induction false} CutThree<T>(a: seq<T>, b: seq<T>, c: seq<T>)
    ensures (a + b + c)[..|a|] == a
    ensures (a + b + c)[|a|..|a| + |b|] == b
    ensures (a + b + c)[|a| + |b|..] == c
  {}

  lemma {:induction false} Without<T>(s: seq<T>, k: nat)
    requires k < |s|
    ensures multiset(s[..k] + s[k + 1..]) == multiset(s) - multiset{s[k]}
  {
    assert s == s[..k] + [s[k]] + s[k + 1..];
    assert multiset(s) == multiset(s[..k]) + multiset{s[k]} + multiset(s[k + 1..]);
  }

  lemma {:induction false} TakeNext<T>(s: seq<T>, j: nat)
    requires j < |s|
    ensures s[..j] + [s[j]] == s[..j + 1]
  {}
}
