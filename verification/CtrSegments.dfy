/**
  Counter-mode segments (`segments` in rust_backend/crates/extensions/src/crypto_host.rs): a list of byte
  ranges, each with its own counter start, transformed in place one after the other. Ranges may overlap.
*/
module CtrSegments {
  import opened Checks
  import opened Sequences
  import opened BlockModes

  datatype Segment = Segment(offset: int, size: int, iv: Octets)

  /** An empty segment is skipped before its range or counter is looked at. */
  predicate Acceptable(c: Cipher, total: nat, g: Segment) {
    && g.offset >= 0 && g.size >= 0
    && (g.size > 0 ==> g.offset + g.size <= total && |g.iv| <= c.size)
  }

  /** `iv.resize(size, 0)`. */
  function Resized(c: Cipher, iv: Octets): (r: Octets)
    requires |iv| <= c.size
    ensures |r| == c.size
  {
    iv + Repeat(0, c.size - |iv|)
  }

  lemma {:induction false} ResizedPadsZeros(c: Cipher, iv: Octets, i: nat)
    requires |iv| <= c.size && i < c.size
    ensures Resized(c, iv)[i] == if i < |iv| then iv[i] else 0
  {}

  function Applied(c: Cipher, s: Octets, g: Segment): (r: Octets)
    requires c.Lawful() && Acceptable(c, |s|, g)
    ensures |r| == |s|
  {
    if g.size == 0 then s
    else s[..g.offset] + Transformed(c, Ctr, Resized(c, g.iv), s[g.offset..g.offset + g.size]) + s[g.offset + g.size..]
  }

  /** The whole list, in order; refused at the first segment that is not acceptable. */
  function AppliedAll(c: Cipher, s: Octets, gs: seq<Segment>): Result<Octets>
    requires c.Lawful()
    decreases |gs|
  {
    if gs == [] then Ok(s)
    else if !Acceptable(c, |s|, gs[0]) then Invalid
    else AppliedAll(c, Applied(c, s, gs[0]), gs[1..])
  }

  // ----- masks -----------------------------------------------------------------------------------

  /** What one segment does to byte `i`. */
  function Mask(c: Cipher, total: nat, g: Segment, i: nat): bv8
    requires c.Lawful()
  {
    if Acceptable(c, total, g) && g.size > 0 && g.offset <= i < g.offset + g.size
    then Stream(c, Resized(c, g.iv), i - g.offset) else 0
  }

  function MaskAll(c: Cipher, total: nat, gs: seq<Segment>, i: nat): bv8
    requires c.Lawful()
    decreases |gs|
  {
    if gs == [] then 0 else Mask(c, total, gs[0], i) ^ MaskAll(c, total, gs[1..], i)
  }

  lemma {:induction false} AppliedMasks(c: Cipher, s: Octets, g: Segment, i: nat)
    requires c.Lawful() && Acceptable(c, |s|, g) && i < |s|
    ensures Applied(c, s, g)[i] == s[i] ^ Mask(c, |s|, g, i)
  {
    hide Transformed;
    if g.size > 0 && g.offset <= i < g.offset + g.size {
      CtrIsStream(c, Resized(c, g.iv), s[g.offset..g.offset + g.size], i - g.offset);
    }
  }

  lemma {:induction false} AllMask(c: Cipher, s: Octets, gs: seq<Segment>)
    requires c.Lawful()
    ensures AppliedAll(c, s, gs).Ok? <==> forall g | g in gs :: Acceptable(c, |s|, g)
    ensures AppliedAll(c, s, gs).Ok? <==>
              forall g | g in gs ::
                0 <= g.offset && 0 <= g.size && (g.size == 0 || (g.offset + g.size <= |s| && |g.iv| <= c.size))
    ensures AppliedAll(c, s, gs).Ok? || AppliedAll(c, s, gs).Invalid?
    ensures AppliedAll(c, s, gs).Ok? ==> |AppliedAll(c, s, gs).value| == |s|
    ensures AppliedAll(c, s, gs).Ok? ==>
              forall i | 0 <= i < |s| :: AppliedAll(c, s, gs).value[i] == s[i] ^ MaskAll(c, |s|, gs, i)
    decreases |gs|
  {
    if gs != [] {
      if Acceptable(c, |s|, gs[0]) {
        var next := Applied(c, s, gs[0]);
        AllMask(c, next, gs[1..]);
        hide Mask, Applied;
        forall i | 0 <= i < |s|
          ensures AppliedAll(c, next, gs[1..]).Ok? ==>
                    AppliedAll(c, next, gs[1..]).value[i] == s[i] ^ MaskAll(c, |s|, gs, i)
        {
          AppliedMasks(c, s, gs[0], i);
          XorAssoc(s[i], Mask(c, |s|, gs[0], i), MaskAll(c, |s|, gs[1..], i));
        }
      }
      assert forall g :: g in gs <==> g == gs[0] || g in gs[1..];
    }
  }

  lemma {:induction false} XorAssoc(a: bv8, b: bv8, d: bv8)
    ensures (a ^ b) ^ d == a ^ (b ^ d)
    ensures a ^ (b ^ d) == b ^ (a ^ d)
  {}

  /** A segment's mask can be taken out of the middle. */
  lemma {:induction false} MaskOut(c: Cipher, total: nat, gs: seq<Segment>, k: nat, i: nat)
    requires c.Lawful() && k < |gs|
    ensures MaskAll(c, total, gs, i) == Mask(c, total, gs[k], i) ^ MaskAll(c, total, gs[..k] + gs[k + 1..], i)
    decreases k
  {
    var without := gs[..k] + gs[k + 1..];
    if k == 0 {
      assert without == gs[1..];
    } else {
      MaskOut(c, total, gs[1..], k - 1, i);
      assert gs[1..][..k - 1] + gs[1..][k..] == without[1..];
      hide Mask;
      XorAssoc(Mask(c, total, gs[0], i), Mask(c, total, gs[k], i), MaskAll(c, total, without[1..], i));
    }
  }

  lemma {:induction false} MaskFirst(c: Cipher, total: nat, gs: seq<Segment>, i: nat)
    requires c.Lawful() && gs != []
    ensures MaskAll(c, total, gs, i) == Mask(c, total, gs[0], i) ^ MaskAll(c, total, gs[1..], i)
  {}

  lemma {:induction false} SameWithout(gs: seq<Segment>, hs: seq<Segment>, k: nat)
    requires multiset(gs) == multiset(hs) && gs != [] && k < |hs| && hs[k] == gs[0]
    ensures multiset(gs[1..]) == multiset(hs[..k] + hs[k + 1..])
  {
    Without(hs, k);
    assert gs == [gs[0]] + gs[1..];
    assert multiset(gs) == multiset{gs[0]} + multiset(gs[1..]);
  }

  lemma {:induction false} MaskOrder(c: Cipher, total: nat, gs: seq<Segment>, hs: seq<Segment>, i: nat)
    requires c.Lawful() && multiset(gs) == multiset(hs)
    ensures MaskAll(c, total, gs, i) == MaskAll(c, total, hs, i)
    decreases |gs|
  {
    if gs == [] {
      assert |multiset(hs)| == 0;
    } else {
      assert gs[0] in multiset(hs);
      var k :| 0 <= k < |hs| && hs[k] == gs[0];
      var without := hs[..k] + hs[k + 1..];
      SameWithout(gs, hs, k);
      hide Mask, MaskAll;
      MaskFirst(c, total, gs, i);
      MaskOut(c, total, hs, k, i);
      MaskOrder(c, total, gs[1..], without, i);
    }
  }

  /** Overlapping or not, any order of the same segments gives the same bytes, or is refused alike. */
  lemma {:induction false} AnyOrder(c: Cipher, s: Octets, gs: seq<Segment>, hs: seq<Segment>)
    requires c.Lawful() && multiset(gs) == multiset(hs)
    ensures AppliedAll(c, s, gs) == AppliedAll(c, s, hs)
  {
    AllMask(c, s, gs);
    AllMask(c, s, hs);
    assert forall g :: g in gs <==> g in multiset(gs);
    assert forall g :: g in hs <==> g in multiset(hs);
    hide AppliedAll, MaskAll;
    forall i | 0 <= i < |s| ensures MaskAll(c, |s|, gs, i) == MaskAll(c, |s|, hs, i) {
      MaskOrder(c, |s|, gs, hs, i);
    }
    var r, q := AppliedAll(c, s, gs), AppliedAll(c, s, hs);
    if r.Ok? {
      assert r.value == q.value;
    }
  }

  /** Applying the list twice restores the bytes. */
  lemma {:induction false} TwiceRestores(c: Cipher, s: Octets, gs: seq<Segment>)
    requires c.Lawful() && AppliedAll(c, s, gs).Ok?
    ensures AppliedAll(c, AppliedAll(c, s, gs).value, gs) == Ok(s)
  {
    var once := AppliedAll(c, s, gs).value;
    AllMask(c, s, gs);
    AllMask(c, once, gs);
    hide AppliedAll, MaskAll;
    var twice := AppliedAll(c, once, gs).value;
    forall i | 0 <= i < |s| ensures twice[i] == s[i] {
      var m := MaskAll(c, |s|, gs, i);
      assert (s[i] ^ m) ^ m == s[i];
    }
    assert twice == s;
  }

  // ----- the program -----------------------------------------------------------------------------

  /** The segments that are not empty. */
  function Filled(gs: seq<Segment>): seq<Segment>
    decreases |gs|
  {
    if gs == [] then [] else (if gs[0].size > 0 then [gs[0]] else []) + Filled(gs[1..])
  }

  lemma {:induction false} FilledExactly(gs: seq<Segment>, g: Segment)
    ensures multiset(Filled(gs))[g] == if g.size > 0 then multiset(gs)[g] else 0
    decreases |gs|
  {
    if gs != [] {
      FilledExactly(gs[1..], g);
      assert gs == [gs[0]] + gs[1..];
    }
  }

  lemma {:induction false} SegmentStep(c: Cipher, s: Octets, gs: seq<Segment>, k: nat)
    requires c.Lawful() && k < |gs|
    ensures !Acceptable(c, |s|, gs[k]) ==> AppliedAll(c, s, gs[k..]) == Invalid
    ensures Acceptable(c, |s|, gs[k]) ==> AppliedAll(c, s, gs[k..]) == AppliedAll(c, Applied(c, s, gs[k]), gs[k + 1..])
    ensures |Filled(gs[k..])| == (if gs[k].size > 0 then 1 else 0) + |Filled(gs[k + 1..])|
  {
    assert gs[k..][0] == gs[k] && gs[k..][1..] == gs[k + 1..];
    hide Applied, Acceptable;
  }

  lemma {:induction false} AllApplied(c: Cipher, s: Octets, gs: seq<Segment>)
    requires c.Lawful()
    ensures AppliedAll(c, s, gs[|gs|..]) == Ok(s) && Filled(gs[|gs|..]) == []
  {}

  /** The loop of `segments`: on success the bytes are the whole list's work, `count` of them not empty. */
  method ApplySegments(c: Cipher, data: array<bv8>, gs: seq<Segment>, check: nat -> bool, before: nat)
    returns (r: Result<nat>, calls: nat)
    requires c.Lawful() && Passed(check, before)
    modifies data
    ensures r.Ok? ==> AppliedAll(c, old(data[..]), gs) == Ok(data[..])
    ensures r.Ok? ==> r.value == |Filled(gs)| && Passed(check, calls)
    ensures r.Invalid? ==> AppliedAll(c, old(data[..]), gs) == Invalid
    ensures r.Cancelled? ==> FailedAt(check, calls)
  {
    hide Transformed, Passed, FailedAt, AppliedAll, Filled, Resized;
    calls := before;
    var count := 0;
    ghost var whole := data[..];
    assert gs[0..] == gs;
    for k := 0 to |gs|
      invariant Passed(check, calls)
      invariant AppliedAll(c, data[..], gs[k..]) == AppliedAll(c, whole, gs)
      invariant count + |Filled(gs[k..])| == |Filled(gs)|
    {
      var ok;
      ok, calls := Check(check, calls);
      if !ok {
        return Cancelled, calls;
      }
      var g := gs[k];
      SegmentStep(c, data[..], gs, k);
      if g.offset < 0 || g.size < 0 {
        return Invalid, calls;
      }
      if g.size > 0 {
        if g.offset + g.size > data.Length || |g.iv| > c.size {
          return Invalid, calls;
        }
        var status;
        status, calls := Transform(c, data, g.offset, g.offset + g.size, Resized(c, g.iv), "ctr", true, check, calls);
        if !status.Ok? {
          return Cancelled, calls;
        }
        count := count + 1;
      }
    }
    AllApplied(c, data[..], gs);
    r := Ok(count);
  }
}
