/**
  The patterned file transform (rust_backend/crates/extensions/src/file_transform.rs): the file is cut
  into segments, every so-many-th of them is encrypted or decrypted on its own, and the work is done in
  a buffer that holds a whole number of segments and is filled by reads of any length.
*/
module FileTransform {
  import opened Checks
  import opened Division
  import opened Sequences
  import opened BlockModes

  const MAX_READ := 0x100_0000
  const READ_SIZE := 0x1_0000

  /** Which segments are selected, and what is done to them. */
  datatype Plan = Plan(cipher: Cipher, mode: Mode, iv: Octets, segment: nat, every: nat, offset: nat, partial: bool) {
    /** What the option checks leave. */
    ghost predicate Valid() {
      && cipher.Lawful() && |iv| == cipher.size
      && 1 <= segment <= MAX_READ && offset < every
      && (mode != Ctr ==> segment % cipher.size == 0)
    }

    predicate Selects(index: nat, length: nat)
      requires every > 0
    {
      index % every == offset && (length == segment || partial)
    }

    /** A selected tail that is not aligned makes a CBC transform fail. */
    predicate Fails(index: nat, s: Octets)
      requires every > 0 && cipher.size > 0
    {
      Selects(index, |s|) && !Fits(cipher, mode, s)
    }

    function Piece(index: nat, s: Octets): (r: Octets)
      requires Valid() && !Fails(index, s)
      ensures |r| == |s|
    {
      if Selects(index, |s|) then Transformed(cipher, mode, iv, s) else s
    }

    /** The same options with the other operation. */
    function Inverse(): Plan {
      this.(mode := match mode case Ctr => Ctr case CbcEncrypt => CbcDecrypt case CbcDecrypt => CbcEncrypt)
    }
  }

  /** The whole file at once: segment by segment, from segment `index` on. */
  function Whole(p: Plan, index: nat, s: Octets): (r: Result<Octets>)
    requires p.Valid()
    ensures r.Ok? ==> |r.value| == |s|
    ensures !r.Cancelled?
    decreases |s|
  {
    if s == [] then Ok([])
    else
      var k := Min(p.segment, |s|);
      if p.Fails(index, s[..k]) then Invalid
      else
        var rest := Whole(p, index + 1, s[k..]);
        if rest.Ok? then Ok(p.Piece(index, s[..k]) + rest.value) else Invalid
  }

  lemma {:induction false} WholeStep(p: Plan, index: nat, s: Octets)
    requires p.Valid() && s != []
    ensures var k := Min(p.segment, |s|);
            Whole(p, index, s) == if p.Fails(index, s[..k]) then Invalid
                                  else Glue(p.Piece(index, s[..k]), Whole(p, index + 1, s[k..]))
  {}

  /** The segment that starts at `at`. */
  function Segment(p: Plan, s: Octets, at: nat): Octets
    requires at <= |s|
  {
    s[at..Min(at + p.segment, |s|)]
  }

  /** What the j-th segment of the result is, when `i` is the j-th segment's number. */
  ghost predicate MadeFromItsOwn(p: Plan, i: nat, s: Octets, r: Octets, at: nat)
    requires p.Valid()
  {
    && at <= |s| == |r|
    && !p.Fails(i, Segment(p, s, at))
    && Segment(p, r, at) == p.Piece(i, Segment(p, s, at))
  }

  lemma {:induction false} FirstSegment(p: Plan, index: nat, s: Octets)
    requires p.Valid() && Whole(p, index, s).Ok?
    ensures MadeFromItsOwn(p, index, s, Whole(p, index, s).value, 0)
  {
    SegmentFirst(p, s);
    SegmentFirst(p, Whole(p, index, s).value);
    if s == [] {
      FitsNothing(p);
    } else {
      WholeStep(p, index, s);
      hide Transformed, Fits, Plan.Piece, Whole, Plan.Fails;
      var k := Min(p.segment, |s|);
      CutAtSeam(p.Piece(index, s[..k]), Whole(p, index + 1, s[k..]).value);
    }
  }

  /** Something of the same length in front of both moves the segment. */
  lemma {:induction false} OwnSegmentBehind(p: Plan, i: nat, front: Octets, s: Octets, head: Octets, r: Octets, at: nat)
    requires p.Valid() && |front| == |head| <= at
    requires MadeFromItsOwn(p, i, s, r, at - |front|)
    ensures MadeFromItsOwn(p, i, front + s, head + r, at)
  {
    hide Transformed, Fits, Plan.Piece, Plan.Fails, Plan.Valid, Segment;
    SegmentAfter(p, front, s, at);
    SegmentAfter(p, head, r, at);
  }

  /** Every segment of the result is made from the same segment of the file, and from nothing else. */
  lemma {:induction false} SegmentsAreIndependent(p: Plan, index: nat, s: Octets, j: nat, at: nat)
    requires p.Valid() && Whole(p, index, s).Ok? && at == j * p.segment <= |s|
    ensures MadeFromItsOwn(p, index + j, s, Whole(p, index, s).value, at)
    decreases j
  {
    hide Whole, MadeFromItsOwn;
    if j == 0 {
      FirstSegment(p, index, s);
    } else {
      StepBack(j, p.segment);
      var k := p.segment;
      assert k >= 1;
      hide Transformed, Fits, Plan.Valid, Plan.Piece, Plan.Fails;
      WholeStep(p, index, s);
      SegmentsAreIndependent(p, index + 1, s[k..], j - 1, at - k);
      Rejoin(s, k);
      OwnSegmentBehind(p, index + j, s[..k], s[k..], p.Piece(index, s[..k]), Whole(p, index + 1, s[k..]).value, at);
    }
  }

  lemma {:induction false} StepBack(j: nat, segment: nat)
    requires j > 0
    ensures (j - 1) * segment == j * segment - segment && j * segment >= segment
  {
    Gap(j, 0, segment);
  }

  lemma {:induction false} SegmentFirst(p: Plan, s: Octets)
    ensures Segment(p, s, 0) == s[..Min(p.segment, |s|)]
  {}

  lemma {:induction false} SegmentAfter(p: Plan, head: Octets, rest: Octets, at: nat)
    requires |head| <= at <= |head| + |rest|
    ensures Segment(p, head + rest, at) == Segment(p, rest, at - |head|)
  {}

  lemma {:induction false} FitsNothing(p: Plan)
    requires p.Valid()
    ensures Fits(p.cipher, p.mode, []) && Transformed(p.cipher, p.mode, p.iv, []) == []
  {
    Small(0, p.cipher.size);
  }

  /** Encrypting and then decrypting with the same options restores the file; in counter mode either
      operation is its own inverse. */
  lemma {:induction false} InverseRestores(p: Plan, index: nat, s: Octets)
    requires p.Valid() && Whole(p, index, s).Ok? && p.mode != CbcDecrypt
    ensures p.Inverse().Valid() && Whole(p.Inverse(), index, Whole(p, index, s).value) == Ok(s)
    decreases |s|
  {
    if s != [] {
      var k := Min(p.segment, |s|);
      var head, rest := p.Piece(index, s[..k]), Whole(p, index + 1, s[k..]).value;
      InverseRestores(p, index + 1, s[k..]);
      PieceRestores(p, index, s[..k]);
      hide Transformed, Fits, Plan.Piece;
      CutAtSeam(head, rest);
      Rejoin(s, k);
    }
  }

  lemma {:induction false} PieceRestores(p: Plan, index: nat, s: Octets)
    requires p.Valid() && !p.Fails(index, s) && p.mode != CbcDecrypt
    ensures !p.Inverse().Fails(index, p.Piece(index, s))
    ensures p.Inverse().Piece(index, p.Piece(index, s)) == s
  {
    if p.Selects(index, |s|) {
      if p.mode == Ctr {
        CtrInvolution(p.cipher, p.iv, s);
      } else {
        CbcRoundTrip(p.cipher, p.iv, s);
      }
    }
  }

  function Glue(done: Octets, rest: Result<Octets>): Result<Octets> {
    if rest.Ok? then Ok(done + rest.value) else rest
  }

  ghost predicate CutsAt(p: Plan, index: nat, later: nat, x: Octets, y: Octets)
    requires p.Valid()
  {
    Whole(p, index, x + y) ==
      if Whole(p, index, x).Ok? then Glue(Whole(p, index, x).value, Whole(p, later, y)) else Invalid
  }

  lemma {:induction false} CutsAtStart(p: Plan, index: nat, y: Octets)
    requires p.Valid()
    ensures CutsAt(p, index, index, [], y)
  {
    assert [] + y == y;
    if Whole(p, index, y).Ok? {
      assert [] + Whole(p, index, y).value == Whole(p, index, y).value;
    }
  }

  lemma {:induction false} CutsOneLater(p: Plan, index: nat, later: nat, x: Octets, y: Octets)
    requires p.Valid() && |x| >= p.segment && CutsAt(p, index + 1, later, x[p.segment..], y)
    ensures CutsAt(p, index, later, x, y)
  {
    hide Transformed, Fits, Plan.Piece, Plan.Fails, Whole;
    var k := p.segment;
    CutConcat(x, y, k);
    WholeStep(p, index, x);
    WholeStep(p, index, x + y);
    if Whole(p, index + 1, x[k..]).Ok? && Whole(p, later, y).Ok? && !p.Fails(index, x[..k]) {
      Assoc(p.Piece(index, x[..k]), Whole(p, index + 1, x[k..]).value, Whole(p, later, y).value);
    }
  }

  lemma {:induction false} OneLess(x: Octets, n: nat, segment: nat)
    requires n > 0 && |x| == n * segment
    ensures |x| >= segment && |x[segment..]| == (n - 1) * segment
  {
    StepBack(n, segment);
  }

  /** A file may be cut after any whole number of segments. */
  lemma {:induction false} WholeConcat(p: Plan, index: nat, n: nat, x: Octets, y: Octets)
    requires p.Valid() && |x| == n * p.segment
    ensures CutsAt(p, index, index + n, x, y)
    decreases n
  {
    assert p.segment >= 1;
    hide CutsAt, Whole, Plan.Valid;
    if n == 0 {
      assert x == [];
      CutsAtStart(p, index, y);
    } else {
      OneLess(x, n, p.segment);
      WholeConcat(p, index + 1, n - 1, x[p.segment..], y);
      CutsOneLater(p, index, index + n, x, y);
    }
  }

  /** How many segments of a stretch of this length are selected. */
  function SelectedCount(p: Plan, index: nat, length: nat): nat
    requires p.every > 0 && p.segment > 0
    decreases length
  {
    if length == 0 then 0
    else
      var k := Min(p.segment, length);
      (if p.Selects(index, k) then 1 else 0) + SelectedCount(p, index + 1, length - k)
  }

  lemma {:induction false} SelectedStep(p: Plan, index: nat, length: nat)
    requires p.every > 0 && p.segment > 0
    ensures length == 0 ==> SelectedCount(p, index, length) == 0
    ensures length > 0 ==>
              var k := Min(p.segment, length);
              SelectedCount(p, index, length) ==
              (if p.Selects(index, k) then 1 else 0) + SelectedCount(p, index + 1, length - k)
  {}

  lemma {:induction false} SelectedConcat(p: Plan, index: nat, n: nat, whole: nat, length: nat)
    requires p.every > 0 && p.segment > 0 && whole == n * p.segment
    ensures SelectedCount(p, index, whole + length) ==
              SelectedCount(p, index, whole) + SelectedCount(p, index + n, length)
    decreases n
  {
    if n > 0 {
      StepBack(n, p.segment);
      SelectedConcat(p, index + 1, n - 1, whole - p.segment, length);
    }
  }

  // ----- which segments -------------------------------------------------------------------------

  /** The number of the m-th segment whose turn it is, counted from the start of the file. */
  function Turn(p: Plan, m: nat): nat { p.offset + m * p.every }

  /** Where a segment starts. */
  function Start(p: Plan, number: nat): nat { number * p.segment }

  /** A segment of a file this long is transformed if it is whole or tails are wanted. */
  predicate Takes(p: Plan, length: nat, at: nat) { at < length && (at + p.segment <= length || p.partial) }

  /** The j-th segment of the result: transformed on its own, if its number is `offset` or so many times
      `every` more and it is taken; otherwise it is the file's. */
  ghost predicate SegmentDone(p: Plan, number: nat, s: Octets, r: Octets, at: nat)
    requires p.Valid() && at <= |s| == |r|
  {
    if InTurn(p, number) && Takes(p, |s|, at) then
      && Fits(p.cipher, p.mode, Segment(p, s, at))
      && Segment(p, r, at) == Transformed(p.cipher, p.mode, p.iv, Segment(p, s, at))
    else Segment(p, r, at) == Segment(p, s, at)
  }

  /** `s` begins at segment number `first`. */
  ghost predicate Patterned(p: Plan, first: nat, s: Octets, r: Octets)
    requires p.Valid()
  {
    |r| == |s| && forall j: nat | Start(p, j) <= |s| :: SegmentDone(p, first + j, s, r, Start(p, j))
  }

  ghost predicate InTurn(p: Plan, number: nat) { exists m: nat :: Turn(p, m) == number }

  lemma {:induction false} TurnExactly(p: Plan, number: nat)
    requires p.every > p.offset
    ensures number % p.every == p.offset <==> InTurn(p, number)
    ensures number % p.every == p.offset ==> Turn(p, number / p.every) == number
  {
    if number % p.every == p.offset {
      assert Turn(p, number / p.every) == number;
    }
    forall m: nat | Turn(p, m) == number ensures number % p.every == p.offset {
      DivisionIs(number, m, p.offset, p.every);
    }
  }

  lemma {:induction false} SelectsExactly(p: Plan, s: Octets, number: nat, at: nat)
    requires p.Valid() && at <= |s|
    ensures p.Selects(number, |Segment(p, s, at)|) && at < |s| <==> InTurn(p, number) && Takes(p, |s|, at)
  {
    TurnExactly(p, number);
    hide InTurn;
  }

  lemma {:induction false} MadeIsDone(p: Plan, number: nat, s: Octets, r: Octets, at: nat)
    requires p.Valid() && MadeFromItsOwn(p, number, s, r, at)
    ensures SegmentDone(p, number, s, r, at)
  {
    SelectsExactly(p, s, number, at);
    hide InTurn, Takes, Plan.Selects, Transformed, Fits, Plan.Valid;
    if at == |s| {
      assert Segment(p, s, |s|) == [] && Segment(p, r, |s|) == [];
    }
  }

  /** The transform of a file, or of a part that begins at segment `first`, told from numbers and places alone. */
  lemma {:induction false} WholeIsPatterned(p: Plan, first: nat, s: Octets)
    requires p.Valid() && Whole(p, first, s).Ok?
    ensures Patterned(p, first, s, Whole(p, first, s).value)
  {
    hide SegmentDone, MadeFromItsOwn, Whole, Plan.Valid;
    var r := Whole(p, first, s).value;
    forall j: nat | Start(p, j) <= |s| ensures SegmentDone(p, first + j, s, r, Start(p, j)) {
      SegmentsAreIndependent(p, first, s, j, Start(p, j));
      MadeIsDone(p, first + j, s, r, Start(p, j));
    }
  }

  /** `count` of the first `n` segments are in turn. */
  ghost predicate InTurnBelow(p: Plan, n: nat, count: nat) { forall m: nat :: m < count <==> Turn(p, m) < n }

  lemma {:induction false} TurnsGrow(p: Plan, a: nat, b: nat)
    requires p.every > 0
    ensures Turn(p, a) < Turn(p, b) <==> a < b
  {
    if a < b {
      Gap(b, a, p.every);
    } else if b < a {
      Gap(a, b, p.every);
    }
  }

  lemma {:induction false} OneMoreInTurn(p: Plan, n: nat, count: nat)
    requires p.every > p.offset && InTurnBelow(p, n, count)
    ensures InTurnBelow(p, n + 1, count + if n % p.every == p.offset then 1 else 0)
  {
    TurnExactly(p, n);
    if n % p.every == p.offset {
      var q := n / p.every;
      forall m: nat ensures Turn(p, m) < n <==> m < q {
        TurnsGrow(p, m, q);
      }
      forall m: nat ensures Turn(p, m) == n <==> m == q {
        TurnsGrow(p, m, q);
        TurnsGrow(p, q, m);
      }
      hide Turn;
      assert count == q by {
        assert Turn(p, q) < n <==> q < q;
        assert Turn(p, count) < n <==> count < q;
      }
    } else {
      hide Turn;
    }
  }

  /** How many of `n` whole segments are selected. */
  lemma {:induction false} SelectedOfWhole(p: Plan, n: nat)
    requires p.every > p.offset && p.segment > 0
    ensures InTurnBelow(p, n, SelectedCount(p, 0, n * p.segment))
    decreases n
  {
    if n > 0 {
      SelectedOfWhole(p, n - 1);
      hide InTurnBelow, SelectedCount;
      OneMoreInTurn(p, n - 1, SelectedCount(p, 0, (n - 1) * p.segment));
      StepBack(n, p.segment);
      SelectedConcat(p, 0, n - 1, (n - 1) * p.segment, p.segment);
      SelectedStep(p, n - 1, p.segment);
      SelectedStep(p, n, 0);
    }
  }

  /** `n` is how many segments of a stretch of this length, which begins at segment `first`, are in turn and
      taken: with `below` of them in front, these are the turns from `below` on. */
  ghost predicate Counts(p: Plan, first: nat, length: nat, n: nat) {
    exists below: nat :: InTurnBelow(p, first, below) && TurnsTo(p, first, length, below + n)
  }

  ghost predicate TurnsTo(p: Plan, first: nat, length: nat, n: nat) {
    forall m: nat :: m < n <==> Turn(p, m) < first || Takes(p, length, Start(p, Turn(p, m) - first))
  }

  lemma {:induction false} TakesNext(p: Plan, first: nat, length: nat, t: nat)
    requires p.segment > 0
    ensures var n, k := first + length / p.segment, length % p.segment;
            t < first || Takes(p, length, Start(p, t - first)) <==> t < n || (t == n && k > 0 && p.partial)
  {
    var n, k := length / p.segment, length % p.segment;
    assert length == n * p.segment + k;
    if t >= first {
      StartAgainst(p, t - first, n);
    }
  }

  /** What the counter adds up to. */
  lemma {:induction false} SelectedParts(p: Plan, first: nat, length: nat)
    requires p.every > p.offset && p.segment > 0
    ensures var n, k := first + length / p.segment, length % p.segment;
            SelectedCount(p, 0, first * p.segment) + SelectedCount(p, first, length) ==
              SelectedCount(p, 0, n * p.segment) + if k > 0 && p.partial && n % p.every == p.offset then 1 else 0
  {
    var n, k := length / p.segment, length % p.segment;
    hide SelectedCount;
    assert length == n * p.segment + k;
    assert (first + n) * p.segment == first * p.segment + n * p.segment;
    SelectedConcat(p, 0, first, first * p.segment, n * p.segment);
    SelectedConcat(p, first, n, n * p.segment, k);
    SelectedTail(p, first + n, k);
  }

  lemma {:induction false} SelectedTail(p: Plan, index: nat, k: nat)
    requires p.every > 0 && k < p.segment
    ensures SelectedCount(p, index, k) == if k > 0 && p.partial && index % p.every == p.offset then 1 else 0
  {
    SelectedStep(p, index, k);
    SelectedStep(p, index + 1, 0);
    hide SelectedCount;
  }

  lemma {:induction false} TurnsToTold(p: Plan, first: nat, length: nat, n: nat, all: nat)
    requires p.every > p.offset && p.segment > 0 && n == first + length / p.segment && InTurnBelow(p, n, all)
    ensures TurnsTo(p, first, length,
                    all + if length % p.segment > 0 && p.partial && n % p.every == p.offset then 1 else 0)
  {
    OneMoreInTurn(p, n, all);
    hide Turn, Takes, Start;
    forall m: nat
      ensures Turn(p, m) < first || Takes(p, length, Start(p, Turn(p, m) - first)) <==>
                Turn(p, m) < n || (Turn(p, m) == n && length % p.segment > 0 && p.partial)
    {
      TakesNext(p, first, length, Turn(p, m));
    }
  }

  /** The counter is exact. */
  lemma {:induction false} SelectedExactly(p: Plan, first: nat, length: nat)
    requires p.every > p.offset && p.segment > 0
    ensures Counts(p, first, length, SelectedCount(p, first, length))
  {
    var n := first + length / p.segment;
    SelectedOfWhole(p, first);
    SelectedOfWhole(p, n);
    SelectedParts(p, first, length);
    var below, all := SelectedCount(p, 0, first * p.segment), SelectedCount(p, 0, n * p.segment);
    TurnsToTold(p, first, length, n, all);
    hide SelectedCount, TurnsTo, InTurnBelow;
    assert InTurnBelow(p, first, below) && TurnsTo(p, first, length, below + SelectedCount(p, first, length));
  }

  lemma {:induction false} SelectedFromStart(p: Plan, length: nat)
    requires p.every > p.offset && p.segment > 0
    ensures forall m: nat :: m < SelectedCount(p, 0, length) <==> Takes(p, length, Start(p, Turn(p, m)))
  {
    SelectedExactly(p, 0, length);
    hide SelectedCount, Turn, Takes, Start;
    var n := SelectedCount(p, 0, length);
    var below: nat :| InTurnBelow(p, 0, below) && TurnsTo(p, 0, length, below + n);
    assert below == 0 by {
      assert 0 < below <==> Turn(p, 0) < 0;
    }
    forall m: nat ensures m < n <==> Takes(p, length, Start(p, Turn(p, m))) {
      assert Turn(p, m) - 0 == Turn(p, m);
    }
  }

  lemma {:induction false} StartAgainst(p: Plan, number: nat, n: nat)
    requires p.segment > 0
    ensures number < n ==> Start(p, number) + p.segment <= n * p.segment
    ensures number == n ==> Start(p, number) == n * p.segment
    ensures number > n ==> Start(p, number) >= n * p.segment + p.segment
  {
    if number < n {
      Gap(n, number, p.segment);
    } else if number > n {
      Gap(number, n, p.segment);
    }
  }

  /** The transform fails exactly on a segment in turn, taken and not made of whole blocks. */
  lemma {:induction false} FailsExactly(p: Plan, file: Octets)
    requires p.Valid()
    ensures Whole(p, 0, file).Invalid? <==> exists m: nat :: Misfit(p, file, m)
  {
    hide Whole, Plan.Valid;
    if Whole(p, 0, file).Ok? {
      WholeIsPatterned(p, 0, file);
      forall m: nat ensures !Misfit(p, file, m) {
        NoMisfit(p, file, Whole(p, 0, file).value, m);
      }
    } else {
      var j := FailingSegment(p, 0, file);
      MisfitIs(p, file, j);
    }
  }

  lemma {:induction false} NoMisfit(p: Plan, file: Octets, output: Octets, m: nat)
    requires p.Valid() && Patterned(p, 0, file, output)
    ensures !Misfit(p, file, m)
  {
    hide Fits, Transformed, Plan.Valid, Takes, Segment, Start, Turn;
    if Takes(p, |file|, Start(p, Turn(p, m))) {
      TakesWithin(p, |file|, Start(p, Turn(p, m)));
      var j := Turn(p, m);
      assert InTurn(p, j) && SegmentDone(p, 0 + j, file, output, Start(p, j));
    }
  }

  lemma {:induction false} TakesWithin(p: Plan, length: nat, at: nat)
    requires Takes(p, length, at)
    ensures at < length
  {}

  lemma {:induction false} MisfitIs(p: Plan, file: Octets, j: nat)
    requires p.Valid() && Start(p, j) < |file| && p.Fails(j, Segment(p, file, Start(p, j)))
    ensures exists m: nat :: Misfit(p, file, m)
  {
    SelectsExactly(p, file, j, Start(p, j));
    TurnExactly(p, j);
    hide Fits, Start, Segment, Takes, Turn;
    assert Misfit(p, file, j / p.every);
  }

  ghost predicate Misfit(p: Plan, file: Octets, m: nat) {
    && Takes(p, |file|, Start(p, Turn(p, m)))
    && !Fits(p.cipher, p.mode, Segment(p, file, Start(p, Turn(p, m))))
  }

  lemma {:induction false} FailingSegment(p: Plan, index: nat, s: Octets) returns (j: nat)
    requires p.Valid() && Whole(p, index, s).Invalid?
    ensures Start(p, j) < |s| && p.Fails(index + j, Segment(p, s, Start(p, j)))
    decreases |s|
  {
    WholeStep(p, index, s);
    hide Plan.Fails, Fits, Plan.Piece;
    var k := Min(p.segment, |s|);
    SegmentFirst(p, s);
    if p.Fails(index, s[..k]) {
      return 0;
    }
    var i := FailingSegment(p, index + 1, s[k..]);
    j := i + 1;
    hide Whole, Plan.Valid;
    StepBack(j, p.segment);
    Rejoin(s, k);
    SegmentAfter(p, s[..k], s[k..], Start(p, j));
  }

  // ----- options ---------------------------------------------------------------------------------

  /** The buffer: as large as asked for, within limits, and a whole number of segments. */
  function BufferSize(requested: int, segment: nat): (n: nat)
    requires 1 <= segment <= MAX_READ
    ensures segment <= n <= MAX_READ && n % segment == 0
    ensures n == segment || n <= requested
    ensures n > requested - segment || n > MAX_READ - segment
  {
    var clamped := if requested < segment then segment else if requested > MAX_READ then MAX_READ else requested;
    WholeSegments(clamped, segment);
    clamped - clamped % segment
  }

  lemma {:induction false} WholeSegments(n: nat, segment: nat)
    requires 1 <= segment <= n
    ensures segment <= n - n % segment && (n - n % segment) % segment == 0
  {
    var q := n / segment;
    assert n == q * segment + n % segment;
    DivisionIs(q * segment, q, 0, segment);
    if q > 0 {
      Gap(q, 0, segment);
    }
  }

  // ----- the program -----------------------------------------------------------------------------

  datatype ReadResult = Count(n: nat) | Interrupted | Failed

  /** The input file. A read gives at least one byte unless it is at the end; it may also fail, or be
      interrupted, though not for ever. */
  class Reader {
    const file: Octets
    var position: nat
    var interruptions: nat

    ghost predicate Valid()
      reads this
    {
      position <= |file|
    }

    constructor (file: Octets, interruptions: nat)
      ensures this.file == file && position == 0 && Valid()
    {
      this.file, position, this.interruptions := file, 0, interruptions;
    }

    method Read(buffer: array<bv8>, at: nat, limit: nat) returns (r: ReadResult)
      requires Valid() && at + limit <= buffer.Length
      modifies this, buffer
      ensures Valid() && old(position) <= position && interruptions <= old(interruptions)
      ensures r.Interrupted? ==> interruptions < old(interruptions)
      ensures !r.Count? ==> position == old(position) && buffer[..] == old(buffer[..])
      ensures r.Count? ==> r.n <= limit && position == old(position) + r.n
      ensures r.Count? ==> buffer[..] == old(buffer[..at]) + file[old(position)..position] + old(buffer[at + r.n..])
      ensures r.Count? && r.n == 0 ==> limit == 0 || position == |file|
    {
      var outcome := *;
      if outcome == 0 && interruptions > 0 {
        interruptions := interruptions - 1;
        return Interrupted;
      }
      if outcome == 1 {
        return Failed;
      }
      var most := Min(limit, |file| - position);
      assert 0 <= most <= most && (most > 0 ==> most > 0);
      var n: int :| 0 <= n <= most && (most > 0 ==> n > 0);
      Write(buffer, at, file[position..position + n]);
      position := position + n;
      r := Count(n);
    }
  }

  lemma {:induction false} FilledMore(all: Octets, next: Octets, file: Octets, from: nat, total: nat, n: nat)
    requires from + total + n <= |file| && total + n <= |all| && all[..total] == file[from..from + total]
    requires next == all[..total] + file[from + total..from + total + n] + all[total + n..]
    ensures |next| == |all| && next[..total + n] == file[from..from + total + n]
  {}

  /** `read_chunk`: fills the buffer, unless the file ends first. */
  method ReadChunk(input: Reader, buffer: array<bv8>, check: nat -> bool, before: nat)
    returns (r: Result<nat>, calls: nat)
    requires input.Valid() && Passed(check, before)
    modifies input, buffer
    ensures input.Valid() && old(input.position) <= input.position && before <= calls
    ensures r.Ok? ==> Passed(check, calls)
    ensures r.Ok? ==> r.value == Min(buffer.Length, |input.file| - old(input.position))
    ensures r.Ok? ==> input.position == old(input.position) + r.value
    ensures r.Ok? ==> r.value <= buffer.Length && buffer[..r.value] == input.file[old(input.position)..input.position]
    ensures r.Cancelled? ==> FailedAt(check, calls)
  {
    hide Passed, FailedAt;
    calls := before;
    var total := 0;
    ghost var from := input.position;
    while total < buffer.Length
      invariant input.Valid() && total <= buffer.Length && before <= calls && Passed(check, calls)
      invariant input.position == from + total && buffer[..total] == input.file[from..input.position]
      decreases |input.file| - input.position, input.interruptions
    {
      var ok;
      ok, calls := Check(check, calls);
      if !ok {
        return Cancelled, calls;
      }
      var end := Min(buffer.Length, total + READ_SIZE);
      ghost var all := buffer[..];
      assert all[..total] == buffer[..total];
      var got := input.Read(buffer, total, end - total);
      match got {
        case Failed => return Invalid, calls;
        case Interrupted =>
          assert buffer[..total] == all[..total];
        case Count(n) =>
          FilledMore(all, buffer[..], input.file, from, total, n);
          assert buffer[..][..total + n] == buffer[..total + n];
          if n == 0 {
            break;
          }
          total := total + n;
      }
    }
    r := Ok(total);
  }

  /** `whole` is being transformed into `now`: `done` is finished, up to `at`. */
  ghost predicate Progress(p: Plan, first: nat, index: nat, whole: Octets, at: nat, now: Octets, done: Octets) {
    && p.Valid() && at <= |whole| && |done| == at && now == done + whole[at..]
    && Whole(p, first, whole) == Glue(done, Whole(p, index, whole[at..]))
  }

  lemma {:induction false} ProgressFrom(p: Plan, first: nat, whole: Octets)
    requires p.Valid()
    ensures Progress(p, first, first, whole, 0, whole, [])
  {
    assert whole[0..] == whole;
    if Whole(p, first, whole).Ok? {
      assert [] + Whole(p, first, whole).value == Whole(p, first, whole).value;
    }
  }

  lemma {:induction false} ProgressTo(p: Plan, first: nat, index: nat, whole: Octets, now: Octets, done: Octets)
    requires Progress(p, first, index, whole, |whole|, now, done)
    ensures Whole(p, first, whole) == Ok(now)
  {
    assert whole[|whole|..] == [] && done + [] == done;
  }

  lemma {:induction false} ProgressBy(p: Plan, first: nat, index: nat, whole: Octets, at: nat, now: Octets,
                                      done: Octets, k: nat)
    requires Progress(p, first, index, whole, at, now, done) && at < |whole| && k == Min(p.segment, |whole| - at)
    ensures |now| == |whole|
    ensures p.Fails(index, now[at..at + k]) ==> Whole(p, first, whole) == Invalid
    ensures !p.Fails(index, now[at..at + k]) ==>
              var piece := p.Piece(index, now[at..at + k]);
              Progress(p, first, index + 1, whole, at + k, now[..at] + piece + now[at + k..], done + piece)
  {
    var left := whole[at..];
    assert now[at..at + k] == left[..k] && now[..at] == done && now[at + k..] == left[k..];
    DropDrop(whole, at, k);
    hide Transformed, Fits, Plan.Piece;
    if !p.Fails(index, left[..k]) && Whole(p, index + 1, left[k..]).Ok? {
      Assoc(done, p.Piece(index, left[..k]), Whole(p, index + 1, left[k..]).value);
    }
  }

  /** One segment of the buffer, in place. */
  method TransformSegment(p: Plan, buffer: array<bv8>, at: nat, k: nat, index: nat, check: nat -> bool, before: nat)
    returns (r: Result<bool>, calls: nat)
    requires p.Valid() && at + k <= buffer.Length && Passed(check, before)
    modifies buffer
    ensures before <= calls
    ensures r.Invalid? <==>
              InTurn(p, index) && (k == p.segment || p.partial) && !Fits(p.cipher, p.mode, old(buffer[at..at + k]))
    ensures r.Ok? ==> Passed(check, calls)
    ensures r.Ok? ==> (r.value <==> InTurn(p, index) && (k == p.segment || p.partial))
    ensures r.Ok? && r.value ==>
              var s := old(buffer[at..at + k]);
              Fits(p.cipher, p.mode, s) &&
              buffer[..] == old(buffer[..at]) + Transformed(p.cipher, p.mode, p.iv, s) + old(buffer[at + k..])
    ensures r.Ok? && !r.value ==> buffer[..] == old(buffer[..])
    ensures r.Cancelled? ==> FailedAt(check, calls)
  {
    assert p.every > p.offset;
    TurnExactly(p, index);
    hide Transformed, Passed, FailedAt, InTurn, Fits, Plan.Valid;
    if index % p.every == p.offset && (k == p.segment || p.partial) {
      r, calls := TransformChosen(p, buffer, at, k, check, before);
    } else {
      r, calls := Ok(false), before;
    }
  }

  /** A segment that was selected; its initialization vector starts afresh. */
  method TransformChosen(p: Plan, buffer: array<bv8>, at: nat, k: nat, check: nat -> bool, before: nat)
    returns (r: Result<bool>, calls: nat)
    requires p.Valid() && at + k <= buffer.Length && Passed(check, before)
    modifies buffer
    ensures before <= calls
    ensures r.Invalid? <==> !Fits(p.cipher, p.mode, old(buffer[at..at + k]))
    ensures r.Ok? ==> Passed(check, calls) && r.value
    ensures r.Ok? ==>
              var s := old(buffer[at..at + k]);
              Fits(p.cipher, p.mode, s) &&
              buffer[..] == old(buffer[..at]) + Transformed(p.cipher, p.mode, p.iv, s) + old(buffer[at + k..])
    ensures r.Cancelled? ==> FailedAt(check, calls)
  {
    hide Transformed, Passed, FailedAt;
    calls := before;
    if p.mode != Ctr && k % p.cipher.size != 0 {
      return Invalid, calls;
    }
    var ok;
    ok, calls := TransformSlice(p.cipher, p.mode, buffer, at, at + k, p.iv, check, calls);
    r := if ok then Ok(true) else Cancelled;
  }

  lemma {:induction false} PieceTold(p: Plan, index: nat, s: Octets)
    requires p.Valid()
    ensures p.Selects(index, |s|) <==> InTurn(p, index) && (|s| == p.segment || p.partial)
    ensures p.Fails(index, s) <==> p.Selects(index, |s|) && !Fits(p.cipher, p.mode, s)
    ensures !p.Fails(index, s) ==>
              p.Piece(index, s) == if p.Selects(index, |s|) then Transformed(p.cipher, p.mode, p.iv, s) else s
  {
    TurnExactly(p, index);
    hide Transformed, Fits, InTurn;
  }

  /** The loop invariant of one buffer, with the two counters. */
  ghost predicate Counted(p: Plan, first: nat, index: nat, whole: Octets, at: nat, now: Octets, done: Octets,
                          transformed: nat)
  {
    && Progress(p, first, index, whole, at, now, done)
    && SegmentCount(|whole| - at, p.segment) + index == first + SegmentCount(|whole|, p.segment)
    && transformed + SelectedCount(p, index, |whole| - at) == SelectedCount(p, first, |whole|)
  }

  lemma {:induction false} CountedFrom(p: Plan, first: nat, whole: Octets)
    requires p.Valid()
    ensures Counted(p, first, first, whole, 0, whole, [], 0)
  {
    hide Progress, SegmentCount, SelectedCount;
    ProgressFrom(p, first, whole);
  }

  lemma {:induction false} CountedBy(p: Plan, first: nat, index: nat, whole: Octets, at: nat, now: Octets, done: Octets,
                                     transformed: nat, k: nat)
    requires p.Valid() && Counted(p, first, index, whole, at, now, done, transformed)
    requires at < |whole| && k == Min(p.segment, |whole| - at)
    ensures |now| == |whole|
    ensures p.Fails(index, now[at..at + k]) ==> Whole(p, first, whole) == Invalid
    ensures !p.Fails(index, now[at..at + k]) ==>
              var piece := p.Piece(index, now[at..at + k]);
              Counted(p, first, index + 1, whole, at + k, now[..at] + piece + now[at + k..], done + piece,
                      transformed + if p.Selects(index, k) then 1 else 0)
  {
    hide Progress, SegmentCount, SelectedCount, Whole, Plan.Piece, Plan.Fails, Plan.Selects;
    ProgressBy(p, first, index, whole, at, now, done, k);
    OneSegmentLess(|whole| - at, k, p.segment);
    SelectedStep(p, index, |whole| - at);
  }

  lemma {:induction false} CountedTo(p: Plan, first: nat, index: nat, whole: Octets, now: Octets, done: Octets,
                                     transformed: nat)
    requires p.Valid() && Counted(p, first, index, whole, |whole|, now, done, transformed)
    ensures Whole(p, first, whole) == Ok(now)
    ensures index == first + SegmentCount(|whole|, p.segment) && transformed == SelectedCount(p, first, |whole|)
  {
    hide Progress, SegmentCount, SelectedCount, Whole;
    ProgressTo(p, first, index, whole, now, done);
    NoSegments(p.segment);
    SelectedStep(p, index, 0);
  }

  /** The same, seen in the part of the buffer that was read. */
  method TransformSegmentOf(p: Plan, buffer: array<bv8>, count: nat, at: nat, k: nat, index: nat,
                            check: nat -> bool, before: nat)
    returns (r: Result<bool>, calls: nat)
    requires p.Valid() && at + k <= count <= buffer.Length && Passed(check, before)
    modifies buffer
    ensures before <= calls
    ensures r.Invalid? <==> p.Fails(index, old(buffer[..count])[at..at + k])
    ensures r.Ok? ==> Passed(check, calls) && r.value == p.Selects(index, k)
    ensures r.Ok? ==> var now := old(buffer[..count]);
                      buffer[..count] == now[..at] + p.Piece(index, now[at..at + k]) + now[at + k..]
    ensures r.Cancelled? ==> FailedAt(check, calls)
  {
    hide Plan.Piece, Plan.Fails, Plan.Selects, Plan.Valid, Passed, FailedAt, Fits, Transformed, InTurn;
    ghost var all := buffer[..];
    SliceOfPrefix(all, at, k, count);
    assert all[at..at + k] == buffer[at..at + k];
    PieceTold(p, index, all[at..at + k]);
    assert all[..at] == buffer[..at] && all[at + k..] == buffer[at + k..];
    SplitThree(all, at, at + k);
    r, calls := TransformSegment(p, buffer, at, k, index, check, before);
    if r.Ok? {
      ReplacedInPrefix(all, buffer[..], at, k, p.Piece(index, all[at..at + k]), count);
    }
  }

  /** One pass of the loop over the segments of a buffer; `k` is how far it went. */
  method NextSegment(p: Plan, buffer: array<bv8>, count: nat, at: nat, index: nat, transformed: nat,
                     ghost first: nat, ghost whole: Octets, ghost done: Octets, check: nat -> bool, before: nat)
    returns (r: Result<bool>, k: nat, calls: nat, ghost done': Octets)
    requires p.Valid() && at < count <= buffer.Length && Passed(check, before) && |whole| == count
    requires Counted(p, first, index, whole, at, buffer[..count], done, transformed)
    modifies buffer
    ensures before <= calls && 0 < k <= count - at
    ensures r.Ok? ==> Passed(check, calls)
    ensures r.Ok? ==> Counted(p, first, index + 1, whole, at + k, buffer[..count], done',
                              transformed + if r.value then 1 else 0)
    ensures r.Invalid? ==> Whole(p, first, whole) == Invalid
    ensures r.Cancelled? ==> FailedAt(check, calls)
  {
    assert p.segment >= 1;
    hide Passed, FailedAt, Counted, Whole, Plan.Valid, Plan.Piece, Plan.Fails, Plan.Selects;
    k, done' := Min(p.segment, count - at), done;
    var ok;
    ok, calls := Check(check, before);
    if !ok {
      return Cancelled, k, calls, done';
    }
    ghost var now := buffer[..count];
    CountedBy(p, first, index, whole, at, now, done, transformed, k);
    r, calls := TransformSegmentOf(p, buffer, count, at, k, index, check, calls);
    if r.Ok? {
      done' := done + p.Piece(index, now[at..at + k]);
    }
  }

  /** The segments of one buffer, in place. */
  method TransformBuffer(p: Plan, buffer: array<bv8>, count: nat, first: nat, check: nat -> bool, before: nat)
    returns (r: Result<nat>, transformed: nat, calls: nat)
    requires p.Valid() && count <= buffer.Length && Passed(check, before)
    modifies buffer
    ensures before <= calls
    ensures r.Ok? ==> Passed(check, calls) && Whole(p, first, old(buffer[..count])) == Ok(buffer[..count])
    ensures r.Ok? ==> r.value == first + SegmentCount(count, p.segment) && transformed == SelectedCount(p, first, count)
    ensures r.Ok? ==> Patterned(p, first, old(buffer[..count]), buffer[..count]) && Counts(p, first, count, transformed)
    ensures r.Invalid? ==> Whole(p, first, old(buffer[..count])) == Invalid
    ensures r.Cancelled? ==> FailedAt(check, calls)
  {
    assert p.segment >= 1 && p.every > 0;
    hide Transformed, Passed, FailedAt, Fits, Progress, Counted, Whole, SegmentCount, SelectedCount, Patterned, Counts;
    hide Plan.Valid, Plan.Piece, Plan.Fails, Plan.Selects;
    calls, transformed := before, 0;
    var at, index := 0, first;
    ghost var whole, done := buffer[..count], [];
    CountedFrom(p, first, whole);
    while at < count
      invariant at <= count && before <= calls && Passed(check, calls)
      invariant Counted(p, first, index, whole, at, buffer[..count], done, transformed)
      decreases count - at
    {
      var status, k;
      status, k, calls, done := NextSegment(p, buffer, count, at, index, transformed, first, whole, done, check, calls);
      if !status.Ok? {
        return if status.Invalid? then Invalid else Cancelled, transformed, calls;
      }
      transformed := if status.value then transformed + 1 else transformed;
      at, index := at + k, index + 1;
    }
    CountedTo(p, first, index, whole, buffer[..count], done, transformed);
    WholeIsPatterned(p, first, whole);
    SelectedExactly(p, first, count);
    r := Ok(index);
  }

  lemma {:induction false} SliceOfPrefix(all: Octets, at: nat, k: nat, count: nat)
    requires at + k <= count <= |all|
    ensures all[..count][at..at + k] == all[at..at + k]
  {}

  lemma {:induction false} ReplacedInPrefix(all: Octets, next: Octets, at: nat, k: nat, piece: Octets, count: nat)
    requires at + k <= count <= |all| && |piece| == k && next == all[..at] + piece + all[at + k..]
    ensures |next| == |all| && next[..count] == all[..count][..at] + piece + all[..count][at + k..]
  {}

  /** How many segments a length makes, a short one at the end included. */
  function SegmentCount(length: nat, segment: nat): (n: nat)
    requires segment > 0
  {
    (length + segment - 1) / segment
  }

  lemma {:induction false} OneSegmentLess(left: nat, k: nat, segment: nat)
    requires 0 < left && 0 < segment && k == Min(segment, left)
    ensures SegmentCount(left, segment) == SegmentCount(left - k, segment) + 1
  {
    if k == segment {
      MinusOne(left + segment - 1, segment);
    } else {
      DivisionIs(left + segment - 1, 1, left - 1, segment);
      NoSegments(segment);
    }
  }

  lemma {:induction false} NoSegments(segment: nat)
    requires segment > 0
    ensures SegmentCount(0, segment) == 0
  {
    Small(segment - 1, segment);
  }

  datatype Answer =
    | Published(output: Octets, processed: nat, segments: nat, transformed: nat)
    | Unaligned | ReadFailed | Stopped

  predicate BetweenSegments(at: nat, index: nat, total: nat, segment: nat) { at == index * segment || at == total }

  /** `output` is the transform of the first `at` bytes, which are `index` whole segments unless the file
      ends there. */
  ghost predicate Written(p: Plan, file: Octets, at: nat, index: nat, transformed: nat, output: Octets) {
    && p.Valid() && at <= |file| && BetweenSegments(at, index, |file|, p.segment)
    && index == SegmentCount(at, p.segment)
    && transformed == SelectedCount(p, 0, at)
    && Whole(p, 0, file[..at]) == Ok(output)
  }

  lemma {:induction false} WrittenNothing(p: Plan, file: Octets)
    requires p.Valid()
    ensures Written(p, file, 0, 0, 0, [])
  {
    NoSegments(p.segment);
  }

  lemma {:induction false} FullBuffer(index: nat, count: nat, segment: nat)
    requires segment > 0 && count % segment == 0
    ensures SegmentCount(count, segment) == count / segment
    ensures (index + count / segment) * segment == index * segment + count
  {
    var n := count / segment;
    assert count == n * segment;
    DivisionIs(count + segment - 1, n, segment - 1, segment);
    assert (index + n) * segment == index * segment + n * segment;
  }

  lemma {:induction false} CountAfter(index: nat, count: nat, segment: nat)
    requires segment > 0
    ensures SegmentCount(index * segment + count, segment) == index + SegmentCount(count, segment)
  {
    PlusMultiple(count + segment - 1, index, segment);
  }

  /** A full buffer ends between segments. */
  lemma {:induction false} NextStart(index: nat, at: nat, count: nat, size: nat, total: nat, segment: nat)
    requires segment > 0 && at < total && BetweenSegments(at, index, total, segment)
    requires count == Min(size, total - at) && size % segment == 0
    ensures SegmentCount(at + count, segment) == index + SegmentCount(count, segment)
    ensures BetweenSegments(at + count, index + SegmentCount(count, segment), total, segment)
  {
    CountAfter(index, count, segment);
    hide SegmentCount;
    if count == size {
      FullBuffer(index, count, segment);
    }
  }

  lemma {:induction false} WholeMore(p: Plan, file: Octets, at: nat, index: nat, output: Octets, count: nat)
    requires p.Valid() && at < at + count <= |file| && BetweenSegments(at, index, |file|, p.segment)
    requires Whole(p, 0, file[..at]) == Ok(output)
    ensures Whole(p, 0, file[..at + count]) == Glue(output, Whole(p, index, file[at..at + count]))
  {
    hide Whole, Plan.Valid;
    TakeTake(file, at, at + count);
    WholeConcat(p, 0, index, file[..at], file[at..at + count]);
  }

  lemma {:induction false} PastInvalid(p: Plan, file: Octets, at: nat, index: nat)
    requires p.Valid() && at <= |file| && BetweenSegments(at, index, |file|, p.segment)
    requires Whole(p, 0, file[..at]).Invalid?
    ensures Whole(p, 0, file) == Invalid
  {
    hide Whole, Plan.Valid;
    if at < |file| {
      WholeConcat(p, 0, index, file[..at], file[at..]);
      Rejoin(file, at);
    } else {
      assert file[..at] == file;
    }
  }

  /** One buffer more: full, so that it ends between segments, or the last one. */
  lemma {:induction false} WrittenMore(p: Plan, file: Octets, at: nat, index: nat, transformed: nat, output: Octets,
                                       count: nat, size: nat)
    requires Written(p, file, at, index, transformed, output) && 0 < count && at + count <= |file|
    requires count == Min(size, |file| - at) && size % p.segment == 0
    requires Whole(p, index, file[at..at + count]).Ok?
    ensures Written(p, file, at + count, index + SegmentCount(count, p.segment),
                    transformed + SelectedCount(p, index, count), output + Whole(p, index, file[at..at + count]).value)
  {
    assert p.segment >= 1 && p.every > 0;
    hide Whole, SegmentCount, SelectedCount, Plan.Valid, BetweenSegments;
    WholeMore(p, file, at, index, output, count);
    NextStart(index, at, count, size, |file|, p.segment);
    SelectedMore(p, index, at, |file|, count);
  }

  lemma {:induction false} SelectedMore(p: Plan, index: nat, at: nat, total: nat, count: nat)
    requires p.every > 0 && p.segment > 0 && at < total && BetweenSegments(at, index, total, p.segment)
    ensures SelectedCount(p, 0, at + count) == SelectedCount(p, 0, at) + SelectedCount(p, index, count)
  {
    SelectedConcat(p, 0, index, at, count);
  }

  lemma {:induction false} InvalidMore(p: Plan, file: Octets, at: nat, index: nat, transformed: nat, output: Octets,
                                       count: nat, size: nat)
    requires Written(p, file, at, index, transformed, output) && 0 < count && at + count <= |file|
    requires count == Min(size, |file| - at) && size % p.segment == 0
    requires Whole(p, index, file[at..at + count]).Invalid?
    ensures Whole(p, 0, file) == Invalid
  {
    hide Whole, SegmentCount, SelectedCount, BetweenSegments;
    WholeMore(p, file, at, index, output, count);
    NextStart(index, at, count, size, |file|, p.segment);
    PastInvalid(p, file, at + count, index + SegmentCount(count, p.segment));
  }

  /** The loop of `transform`: whatever the buffer size and however the reads fall, the output is the
      transform of the whole file at once. */
  method TransformFile(p: Plan, input: Reader, requested: int, check: nat -> bool) returns (r: Answer)
    requires p.Valid() && input.Valid() && input.position == 0
    modifies input
    ensures r.Published? ==> Whole(p, 0, input.file) == Ok(r.output)
    ensures r.Published? ==> r.processed == |input.file| && r.segments == SegmentCount(|input.file|, p.segment)
    ensures r.Published? ==> r.transformed == SelectedCount(p, 0, |input.file|)
    ensures r.Published? ==> Patterned(p, 0, input.file, r.output)
    ensures r.Published? ==>
              forall m: nat :: m < r.transformed <==> Takes(p, |input.file|, Start(p, Turn(p, m)))
    ensures r.Unaligned? ==> Whole(p, 0, input.file) == Invalid
    ensures r.Unaligned? ==> exists m: nat :: Misfit(p, input.file, m)
    ensures r.Stopped? ==> exists k: nat :: !check(k)
  {
    hide Transformed, Fits, Whole, Plan.Piece, Plan.Fails, SegmentCount, SelectedCount, Patterned, Takes, Start, Turn;
    hide Misfit;
    WrittenNothing(p, input.file);
    var buffer := new bv8[BufferSize(requested, p.segment)];
    var processed, index, transformed, calls := 0, 0, 0, 0;
    var output := [];
    hide Written;
    while true
      invariant input.Valid() && input.position == processed && Passed(check, calls)
      invariant Written(p, input.file, processed, index, transformed, output)
      decreases |input.file| - processed
    {
      var got;
      got, calls := ReadChunk(input, buffer, check, calls);
      if !got.Ok? {
        return if got.Invalid? then ReadFailed else Stopped;
      }
      var count := got.value;
      if count == 0 {
        break;
      }
      assert buffer[..count] == input.file[processed..processed + count];
      var next, some;
      next, some, calls := TransformBuffer(p, buffer, count, index, check, calls);
      if !next.Ok? {
        if next.Invalid? {
          InvalidMore(p, input.file, processed, index, transformed, output, count, buffer.Length);
          FailsExactly(p, input.file);
        }
        return if next.Invalid? then Unaligned else Stopped;
      }
      WrittenMore(p, input.file, processed, index, transformed, output, count, buffer.Length);
      output := output + buffer[..count];
      processed, index, transformed := processed + count, next.value, transformed + some;
      var ok;
      ok, calls := Check(check, calls);
      if !ok {
        return Stopped;
      }
    }
    AllWritten(p, input.file, index, transformed, output);
    WholeIsPatterned(p, 0, input.file);
    SelectedFromStart(p, |input.file|);
    r := Published(output, processed, index, transformed);
  }

  lemma {:induction false} AllWritten(p: Plan, file: Octets, index: nat, transformed: nat, output: Octets)
    requires Written(p, file, |file|, index, transformed, output)
    ensures Whole(p, 0, file) == Ok(output) && index == SegmentCount(|file|, p.segment)
    ensures transformed == SelectedCount(p, 0, |file|)
  {
    assert file[..|file|] == file;
  }
}
