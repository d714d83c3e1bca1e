/**
  The line scanner of the CUE reader (rust_backend/crates/core/src/cue.rs, `Lines`): lines are cut from a
  fixed buffer that the reader fills a piece at a time.
*/
module CueLines {
  import opened Bytes
  import opened Checks
  import opened Options
  import opened Sequences

  const MAX_SCANNER_BUFFER := 64 * 1024
  const READ_BUFFER_SIZE := 8 * 1024

  const NEWLINE: Byte := 10
  const RETURN: Byte := 13

  /** `strip_carriage_return`. */
  function Strip(line: seq<Byte>): seq<Byte> {
    if line != [] && line[|line| - 1] == RETURN then line[..|line| - 1] else line
  }

  // ----- splitting the whole input ---------------------------------------------------------------

  function Joined(fields: seq<seq<Byte>>): seq<Byte>
    decreases |fields|
  {
    if fields == [] then [] else if |fields| == 1 then fields[0] else fields[0] + [NEWLINE] + Joined(fields[1..])
  }

  /** `fields` is what stands between the newlines of `data`. */
  ghost predicate Splits(data: seq<Byte>, fields: seq<seq<Byte>>) {
    fields != [] && Joined(fields) == data && forall f | f in fields :: NEWLINE !in f
  }

  /** Nothing follows a final newline. */
  function Records(fields: seq<seq<Byte>>): seq<seq<Byte>> {
    if fields != [] && fields[|fields| - 1] == [] then fields[..|fields| - 1] else fields
  }

  /** The lines before the first one that is too long, and whether there is one. */
  function LinesOf(records: seq<seq<Byte>>): (seq<seq<Byte>>, bool)
    decreases |records|
  {
    if records == [] then ([], false)
    else if |records[0]| >= MAX_SCANNER_BUFFER then ([], true)
    else
      var (lines, long) := LinesOf(records[1..]);
      ([Strip(records[0])] + lines, long)
  }

  /** `record` is the line itself, or the line and the carriage return before its newline. */
  predicate Ends(line: seq<Byte>, record: seq<Byte>) {
    && (line != [] ==> line[|line| - 1] != RETURN)
    && (record == line || record == line + [RETURN]) && |record| < 64 * 1024
  }

  lemma {:induction false} EndsStripped(line: seq<Byte>, record: seq<Byte>)
    requires Ends(line, record)
    ensures Strip(record) == line && |record| < MAX_SCANNER_BUFFER
  {}

  /** Lines that end with a carriage return and a newline, or with a newline alone, are the same lines. */
  lemma {:induction false} LineEndingsAlike(lines: seq<seq<Byte>>, records: seq<seq<Byte>>)
    requires |lines| == |records| && forall i | 0 <= i < |lines| :: Ends(lines[i], records[i])
    ensures LinesOf(records) == (lines, false)
    decreases |lines|
  {
    hide Ends, Strip;
    if lines == [] {
      assert records == [];
    } else {
      EndsStripped(lines[0], records[0]);
      LineEndingsAlike(lines[1..], records[1..]);
      assert lines == [lines[0]] + lines[1..];
    }
  }

  /** What stops the reading is the first field of 65,536 bytes or more; all before it are lines. */
  lemma {:induction false} TooLongExactly(records: seq<seq<Byte>>)
    ensures LinesOf(records).1 <==> exists i :: 0 <= i < |records| && |records[i]| >= 65_536
    ensures var n := |LinesOf(records).0|;
            && n <= |records| && (n < |records| ==> |records[n]| >= 65_536)
            && forall i | 0 <= i < n :: |records[i]| < 65_536 && LinesOf(records).0[i] == Strip(records[i])
    decreases |records|
  {
    hide Strip;
    if records != [] && |records[0]| < MAX_SCANNER_BUFFER {
      TooLongExactly(records[1..]);
      if LinesOf(records).1 {
        var i :| 0 <= i < |records[1..]| && |records[1..][i]| >= 65_536;
        assert |records[i + 1]| >= 65_536;
      }
      assert forall i | 1 <= i < |records| :: records[i] == records[1..][i - 1];
    }
  }

  // ----- one line at a time ----------------------------------------------------------------------

  datatype Result = Line(line: seq<Byte>) | End | TooLong | ReadFailed | Cancelled

  /** How far the first newline is, or the end. */
  function Reach(rest: seq<Byte>): (k: nat)
    ensures k <= |rest|
    ensures k < |rest| ==> rest[k] == NEWLINE
    ensures NEWLINE !in rest[..k]
    decreases |rest|
  {
    if rest == [] || rest[0] == NEWLINE then 0
    else
      var k := 1 + Reach(rest[1..]);
      assert rest[..k] == [rest[0]] + rest[1..][..k - 1];
      k
  }

  /** What `next` returns when `rest` is unread, and what is unread then. */
  function NextLine(rest: seq<Byte>): (Result, seq<Byte>) {
    var k := Reach(rest);
    if k >= MAX_SCANNER_BUFFER then (TooLong, rest)
    else if k < |rest| then (Line(Strip(rest[..k])), rest[k + 1..])
    else if rest == [] then (End, rest)
    else (Line(Strip(rest)), [])
  }

  function Scan(rest: seq<Byte>): (seq<seq<Byte>>, bool)
    decreases |rest|
  {
    var (r, after) := NextLine(rest);
    match r
    case Line(line) => var (lines, long) := Scan(after); ([line] + lines, long)
    case TooLong => ([], true)
    case _ => ([], false)
  }

  lemma {:induction false} ReachIs(rest: seq<Byte>, k: nat)
    requires k <= |rest| && NEWLINE !in rest[..k] && (k < |rest| ==> rest[k] == NEWLINE)
    ensures Reach(rest) == k
  {
    var j := Reach(rest);
    assert forall i | 0 <= i < k :: rest[i] == rest[..k][i];
    assert forall i | 0 <= i < j :: rest[i] == rest[..j][i];
  }

  lemma {:induction false} FirstField(data: seq<Byte>, fields: seq<seq<Byte>>)
    requires Splits(data, fields)
    ensures |fields[0]| == Reach(data) && fields[0] == data[..Reach(data)]
    ensures |fields| == 1 <==> Reach(data) == |data|
    ensures |fields| > 1 ==> Splits(data[|fields[0]| + 1..], fields[1..])
  {
    var first := fields[0];
    if |fields| == 1 {
      assert data == first == data[..|data|];
      ReachIs(data, |data|);
    } else {
      var tail := Joined(fields[1..]);
      assert data == first + ([NEWLINE] + tail);
      CutAtSeam(first, [NEWLINE] + tail);
      ReachIs(data, |first|);
      CutAtSeam(first + [NEWLINE], tail);
      assert data[|first| + 1..] == tail;
    }
  }

  /** Line by line gives the same as splitting the whole input at its newlines, dropping the empty field
      after a last newline, and stopping at the first field of 65,536 bytes or more. */
  lemma {:induction false} ScanIsSplitting(data: seq<Byte>, fields: seq<seq<Byte>>)
    requires Splits(data, fields)
    ensures Scan(data) == LinesOf(Records(fields))
    decreases |fields|
  {
    FirstField(data, fields);
    hide Splits, Joined, Reach, Strip;
    if |fields| == 1 {
      OnlyField(data, fields);
    } else {
      ScanIsSplitting(data[|fields[0]| + 1..], fields[1..]);
      assert Records(fields) == [fields[0]] + Records(fields[1..]);
      assert Records(fields)[1..] == Records(fields[1..]);
    }
  }

  lemma {:induction false} OnlyField(data: seq<Byte>, fields: seq<seq<Byte>>)
    requires |fields| == 1 && fields[0] == data && Reach(data) == |data|
    ensures Scan(data) == LinesOf(Records(fields))
  {
    hide Reach, Strip;
    assert fields[..0] == [] && fields[1..] == [];
    assert Scan([]) == ([], false);
    assert LinesOf([]) == ([], false);
  }

  /** Every input is split in exactly one way. */
  lemma {:induction false} SplitExists(data: seq<Byte>) returns (fields: seq<seq<Byte>>)
    ensures Splits(data, fields)
    decreases |data|
  {
    var k := Reach(data);
    if k == |data| {
      fields := [data];
      assert data[..k] == data;
    } else {
      var rest := SplitExists(data[k + 1..]);
      fields := [data[..k]] + rest;
      assert fields[1..] == rest;
      assert data == data[..k] + [NEWLINE] + data[k + 1..];
    }
  }

  lemma {:induction false} SplitUnique(data: seq<Byte>, a: seq<seq<Byte>>, b: seq<seq<Byte>>)
    requires Splits(data, a) && Splits(data, b)
    ensures a == b
    decreases |a|
  {
    FirstField(data, a);
    FirstField(data, b);
    assert a[0] == b[0];
    if |a| > 1 {
      SplitUnique(data[|a[0]| + 1..], a[1..], b[1..]);
    }
    assert a == [a[0]] + a[1..] && b == [b[0]] + b[1..];
  }

  // ----- the program -----------------------------------------------------------------------------

  datatype ReadResult = Count(n: nat) | Failed

  /** The input. A read gives any number of bytes that fit, none only at the end; or it fails. */
  class Reader {
    const data: seq<Byte>
    var position: nat

    ghost predicate Valid()
      reads this
    {
      position <= |data|
    }

    function Rest(): seq<Byte>
      requires Valid()
      reads this
    {
      data[position..]
    }

    constructor (data: seq<Byte>)
      ensures Valid() && Rest() == data
    {
      this.data, position := data, 0;
    }

    method Read(buffer: array<Byte>) returns (r: ReadResult)
      requires Valid() && buffer.Length > 0
      modifies this, buffer
      ensures Valid()
      ensures r.Failed? ==> Rest() == old(Rest())
      ensures r.Count? ==> r.n <= buffer.Length && buffer[..r.n] + Rest() == old(Rest())
      ensures r.Count? && r.n == 0 ==> Rest() == []
    {
      var failed := *;
      if failed {
        return Failed;
      }
      var most := if buffer.Length <= |data| - position then buffer.Length else |data| - position;
      var n :| 0 <= n <= most && (most > 0 ==> n > 0);
      for i := 0 to n
        invariant position == old(position) && buffer[..i] == data[position..position + i]
      {
        buffer[i] := data[position + i];
      }
      CutAgain(data, position, n);
      position := position + n;
      r := Count(n);
    }
  }

  lemma {:induction false} CutAgain(s: seq<Byte>, i: nat, n: nat)
    requires i + n <= |s|
    ensures s[i..i + n] + s[i + n..] == s[i..]
  {}

  /** The buffer holds the end of the line. */
  lemma {:induction false} NewlineFound(line: seq<Byte>, held: seq<Byte>, rest: seq<Byte>)
    requires NEWLINE !in line && Reach(held) < |held|
    ensures var k := Reach(held);
            NextLine(line + (held + rest)) ==
              if |line| + k >= MAX_SCANNER_BUFFER then (TooLong, line + (held + rest))
              else (Line(Strip(line + held[..k])), held[k + 1..] + rest)
  {
    var offset := Reach(held);
    var k, whole := |line| + offset, line + (held + rest);
    assert whole[..k] == line + held[..offset];
    assert whole[k] == held[offset];
    assert whole[k + 1..] == held[offset + 1..] + rest;
    ReachIs(whole, k);
  }

  /** The line goes on beyond the buffer. */
  lemma {:induction false} NoNewlineYet(line: seq<Byte>, held: seq<Byte>, rest: seq<Byte>)
    requires NEWLINE !in line && Reach(held) == |held|
    ensures NEWLINE !in line + held && line + (held + rest) == line + held + rest
    ensures |line| + |held| >= MAX_SCANNER_BUFFER ==> NextLine(line + (held + rest)).0 == TooLong
  {
    var whole := line + (held + rest);
    assert held[..|held|] == held;
    assert whole[..|line| + |held|] == line + held;
    assert forall i | 0 <= i < |line| + |held| :: whole[i] == (line + held)[i];
  }

  lemma {:induction false} LastLine(line: seq<Byte>)
    requires NEWLINE !in line && |line| < MAX_SCANNER_BUFFER
    ensures NextLine(line) == (if line == [] then End else Line(Strip(line)), [])
  {
    assert line[..|line|] == line;
    ReachIs(line, |line|);
  }

  class Lines {
    const reader: Reader
    const buffer: array<Byte>
    var start: nat
    var end: nat
    var eof: bool

    ghost predicate Valid()
      reads this, reader, buffer
    {
      && reader.Valid() && buffer.Length == READ_BUFFER_SIZE && start <= end <= buffer.Length
      && (eof ==> start == end && reader.Rest() == [])
    }

    /** The bytes that no line has taken yet. */
    ghost function Unread(): seq<Byte>
      requires Valid()
      reads this, reader, buffer
    {
      buffer[start..end] + reader.Rest()
    }

    constructor (reader: Reader)
      requires reader.Valid()
      ensures Valid() && this.reader == reader && fresh(buffer) && Unread() == reader.Rest()
    {
      this.reader, buffer := reader, new Byte[READ_BUFFER_SIZE];
      start, end, eof := 0, 0, false;
    }

    /** Reads into the empty buffer. */
    method Fill() returns (failed: bool)
      requires Valid() && start == end && !eof
      modifies this`start, this`end, this`eof, reader, buffer
      ensures Valid() && Unread() == old(Unread())
      ensures !failed ==> if eof then Unread() == [] else start < end
    {
      assert Unread() == reader.Rest();
      var count := reader.Read(buffer);
      if count.Failed? {
        return true;
      }
      if count.n == 0 {
        eof := true;
      } else {
        start, end := 0, count.n;
        assert buffer[start..end] == buffer[..count.n];
      }
      failed := false;
    }

    /** Takes the rest of the line from the buffer, or all of the buffer. The length of the line so far is
        what the program counts in `raw_length`. */
    method Take(line: seq<Byte>, ghost whole: seq<Byte>) returns (r: Option<Result>, longer: seq<Byte>)
      requires Valid() && start < end && whole == line + Unread() && NEWLINE !in line && |line| < MAX_SCANNER_BUFFER
      modifies this`start
      ensures Valid() && (r.None? ==> |Unread()| < old(|Unread()|))
      ensures r.Some? ==> r.value == NextLine(whole).0 && (r.value.Line? || r.value.TooLong?)
      ensures r.Some? && r.value.Line? ==> Unread() == NextLine(whole).1
      ensures r.None? ==> whole == longer + Unread() && NEWLINE !in longer && |longer| < MAX_SCANNER_BUFFER
    {
      hide NextLine, Strip, Reach;
      ghost var rest := reader.Rest();
      var remaining := buffer[start..end];
      longer := line;
      assert whole == line + (remaining + rest);
      var offset := Reach(remaining);
      if offset < |remaining| {
        NewlineFound(line, remaining, rest);
        if |line| + offset + 1 > MAX_SCANNER_BUFFER {
          return Some(TooLong), longer;
        }
        start := start + offset + 1;
        assert buffer[start..end] == remaining[offset + 1..];
        return Some(Line(Strip(line + remaining[..offset]))), longer;
      }
      NoNewlineYet(line, remaining, rest);
      if |line| + |remaining| >= MAX_SCANNER_BUFFER {
        return Some(TooLong), longer;
      }
      start := end;
      assert buffer[start..end] == [];
      longer := line + remaining;
      r := None;
    }

    /** `next`. */
    method Next(check: nat -> bool, before: nat) returns (r: Result, calls: nat)
      requires Valid() && Passed(check, before)
      modifies this`start, this`end, this`eof, reader, buffer
      ensures Valid() && before <= calls
      ensures r.Cancelled? ==> FailedAt(check, calls)
      ensures !r.Cancelled? ==> Passed(check, calls)
      ensures !r.Cancelled? && !r.ReadFailed? ==> r == NextLine(old(Unread())).0
      ensures r.Line? ==> Unread() == NextLine(old(Unread())).1
    {
      hide Passed, FailedAt, NextLine, Strip, Reach;
      calls := before;
      var line: seq<Byte> := [];
      ghost var whole := Unread();
      while true
        invariant Valid() && before <= calls && Passed(check, calls)
        invariant whole == line + Unread() && NEWLINE !in line
        invariant |line| < MAX_SCANNER_BUFFER
        decreases |Unread()|, !eof, start == end
      {
        var ok;
        ok, calls := Check(check, calls);
        if !ok {
          return Cancelled, calls;
        }
        if start == end {
          if eof {
            assert whole == line && Unread() == [];
            LastLine(line);
            if line == [] {
              return End, calls;
            }
            return Line(Strip(line)), calls;
          }
          var failed := Fill();
          if failed {
            return ReadFailed, calls;
          }
          if eof {
            continue;
          }
        }
        var taken;
        taken, line := Take(line, whole);
        if taken.Some? {
          return taken.value, calls;
        }
      }
    }
  }

  /** The loop of `parse`: every line up to the end, or up to what stopped it. */
  method ReadLines(reader: Reader, check: nat -> bool) returns (found: seq<seq<Byte>>, stop: Result, calls: nat)
    requires reader.Valid()
    modifies reader
    ensures !stop.Line?
    ensures stop.End? || stop.TooLong? ==> Scan(old(reader.Rest())) == (found, stop.TooLong?)
    ensures found <= Scan(old(reader.Rest())).0
    ensures if stop.Cancelled? then FailedAt(check, calls) else Passed(check, calls)
  {
    hide Passed, FailedAt, NextLine;
    var ok;
    found := [];
    NothingFailed(check);
    ok, calls := Check(check, 0);
    if !ok {
      return [], Cancelled, calls;
    }
    var lines := new Lines(reader);
    ghost var whole := lines.Unread();
    assert found + Scan(whole).0 == Scan(whole).0;
    while true
      invariant lines.Valid() && fresh(lines) && fresh(lines.buffer) && lines.reader == reader
      invariant Passed(check, calls)
      invariant Scan(whole) == (found + Scan(lines.Unread()).0, Scan(lines.Unread()).1)
      decreases |lines.Unread()|
    {
      ghost var rest := lines.Unread();
      stop, calls := lines.Next(check, calls);
      if !stop.Line? {
        ScanStops(rest, found);
        return found, stop, calls;
      }
      ScanStep(rest, found);
      found := found + [stop.line];
    }
  }

  lemma {:induction false} ScanStops(rest: seq<Byte>, found: seq<seq<Byte>>)
    ensures !NextLine(rest).0.Line? ==> Scan(rest) == ([], NextLine(rest).0.TooLong?) && found + Scan(rest).0 == found
  {}

  lemma {:induction false} NothingFailed(check: nat -> bool)
    ensures Passed(check, 0)
  {}

  lemma {:induction false} ScanStep(rest: seq<Byte>, found: seq<seq<Byte>>)
    requires NextLine(rest).0.Line?
    ensures |NextLine(rest).1| < |rest|
    ensures found + Scan(rest).0 == found + [NextLine(rest).0.line] + Scan(NextLine(rest).1).0
    ensures Scan(rest).1 == Scan(NextLine(rest).1).1
  {}
}
