/**
 Lines of a file: conversion between offsets and line numbers, the index of line starts and
 the extraction of one line (`getOffsetFromLineNumber`, `getLineNumberFromOffset`,
 `getLineNumbersInFile`, `readLineInFile` without a pattern).

 The specification half counts newlines in prefixes of the whole file.
 */
module LineSpec {
  import opened Pattern

  const NL: byte := 10
  const CR: byte := 13

  function Newlines(s: bytes): nat {
    if s == [] then 0 else Newlines(s[..|s| - 1]) + if s[|s| - 1] == NL then 1 else 0
  }

  lemma NewlinesStep(s: bytes, k: nat)
    requires k < |s|
    ensures Newlines(s[..k + 1]) == Newlines(s[..k]) + if s[k] == NL then 1 else 0
  {
    assert s[..k + 1][..k] == s[..k];
  }

  lemma {:induction false} NewlinesAppend(a: bytes, b: bytes)
    ensures Newlines(a + b) == Newlines(a) + Newlines(b)
  {
    if b == [] {
      assert a + b == a;
    } else {
      NewlinesAppend(a, b[..|b| - 1]);
      assert (a + b)[..|a + b| - 1] == a + b[..|b| - 1];
    }
  }

  lemma {:induction false} NewlinesMonotone(s: bytes, j: nat, k: nat)
    requires j <= k <= |s|
    ensures Newlines(s[..j]) <= Newlines(s[..k])
    decreases k
  {
    if j < k {
      NewlinesStep(s, k - 1);
      NewlinesMonotone(s, j, k - 1);
    }
  }

  /** The first position at or after `from` with `n` newlines before it, or the end. */
  function Seek(s: bytes, n: nat, from: nat): (k: nat)
    requires from <= |s|
    ensures from <= k <= |s|
    decreases |s| - from
  {
    if from == |s| || Newlines(s[..from]) >= n then from else Seek(s, n, from + 1)
  }

  /** Where line `n` (from 0) starts; the end of the file when there are too few newlines. */
  function LineStart(s: bytes, n: nat): (k: nat)
    ensures k <= |s| && (n == 0 ==> k == 0)
  {
    Seek(s, n, 0)
  }

  /** The line an offset lies on. */
  function LineOf(s: bytes, o: nat): nat {
    Newlines(s[..if o <= |s| then o else |s|])
  }

  /** Lines, counting an unterminated last one. */
  function LineCount(s: bytes): nat {
    Newlines(s) + if s != [] && s[|s| - 1] != NL then 1 else 0
  }

  lemma {:induction false} SeekBefore(s: bytes, n: nat, from: nat, j: nat)
    requires from <= |s| && from <= j < Seek(s, n, from)
    ensures Newlines(s[..j]) < n
    decreases |s| - from
  {
    if j > from {
      SeekBefore(s, n, from + 1, j);
    }
  }

  lemma {:induction false} SeekHit(s: bytes, n: nat, from: nat)
    requires from <= |s|
    ensures Seek(s, n, from) == |s| || Newlines(s[..Seek(s, n, from)]) >= n
    decreases |s| - from
  {
    if from < |s| && Newlines(s[..from]) < n {
      SeekHit(s, n, from + 1);
    }
  }

  /** The n-th line starts right after the n-th newline, and nowhere else. */
  lemma LineStartUnique(s: bytes, n: nat, k: nat)
    requires 1 <= k <= |s| && s[k - 1] == NL && Newlines(s[..k]) == n
    ensures LineStart(s, n) == k
  {
    var l := LineStart(s, n);
    SeekHit(s, n, 0);
    NewlinesStep(s, k - 1);
    if l < k {
      NewlinesMonotone(s, l, k - 1);
    } else if k < l {
      SeekBefore(s, n, 0, k);
    }
  }

  /** Exactly `n` newlines precede the start of an existing line `n`, the last of them right before it. */
  lemma LineStartCount(s: bytes, n: nat)
    requires n <= Newlines(s)
    ensures Newlines(s[..LineStart(s, n)]) == n
    ensures n > 0 ==> LineStart(s, n) > 0 && s[LineStart(s, n) - 1] == NL
  {
    var k := LineStart(s, n);
    SeekHit(s, n, 0);
    assert s[..|s|] == s;
    if k > 0 {
      SeekBefore(s, n, 0, k - 1);
      NewlinesStep(s, k - 1);
    }
  }

  /** Offset and line number are adjoint: a line starts at or before an offset iff the offset is on it or later. */
  lemma LineAdjoint(s: bytes, n: nat, o: nat)
    requires n <= Newlines(s) && o <= |s|
    ensures LineStart(s, n) <= o <==> n <= LineOf(s, o)
  {
    LineStartCount(s, n);
    if LineStart(s, n) <= o {
      NewlinesMonotone(s, LineStart(s, n), o);
    } else {
      SeekBefore(s, n, 0, o);
    }
  }

  /** line(offset(n)) = n for every n up to the newline count. */
  lemma LineOfLineStart(s: bytes, n: nat)
    requires n <= Newlines(s)
    ensures LineOf(s, LineStart(s, n)) == n
  {
    LineStartCount(s, n);
  }

  lemma {:induction false} NoNewlineBetween(s: bytes, j: nat, k: nat)
    requires j <= k <= |s| && Newlines(s[..j]) == Newlines(s[..k])
    ensures NL !in s[j..k]
    decreases k
  {
    if j < k {
      NewlinesMonotone(s, j, k - 1);
      NewlinesStep(s, k - 1);
      NoNewlineBetween(s, j, k - 1);
      assert s[j..k] == s[j..k - 1] + [s[k - 1]];
    }
  }

  /** offset(line(o)) is the start of the line that contains o. */
  lemma StartOfLineAt(s: bytes, o: nat)
    requires o <= |s|
    ensures var start := LineStart(s, LineOf(s, o));
            start <= o && (start == 0 || s[start - 1] == NL) && NL !in s[start..o]
  {
    var n := LineOf(s, o);
    assert s[..|s|] == s;
    NewlinesMonotone(s, o, |s|);
    LineAdjoint(s, n, o);
    LineStartCount(s, n);
    NoNewlineBetween(s, LineStart(s, n), o);
  }

  /** A prefix that already holds `n` newlines, or the whole, determines where line `n` starts. */
  lemma LineStartPrefix(s: bytes, m: nat, n: nat)
    requires m <= |s| && (Newlines(s[..m]) >= n || m == |s|)
    ensures LineStart(s[..m], n) == LineStart(s, n)
  {
    var p := s[..m];
    assert p[..m] == p;
    if m == |s| {
      assert p == s;
    } else if n == 0 {
    } else {
      LineStartCount(p, n);
      var k := LineStart(p, n);
      assert s[..k] == p[..k];
      LineStartUnique(s, n, k);
    }
  }

  /** The end of the line that starts at `from`: its newline, or the end of the file. */
  function LineEnd(s: bytes, from: nat): (k: nat)
    requires from <= |s|
    ensures from <= k <= |s| && NL !in s[from..k] && (k < |s| ==> s[k] == NL)
    decreases |s| - from
  {
    if from == |s| || s[from] == NL then from
    else
      var k := LineEnd(s, from + 1);
      assert s[from..k] == [s[from]] + s[from + 1..k];
      k
  }

  /** The file split on newlines; a final newline ends a line and starts none. */
  function Split(s: bytes): seq<bytes> {
    if s == [] then []
    else
      var k := LineEnd(s, 0);
      [s[..k]] + if k < |s| then Split(s[k + 1..]) else []
  }

  lemma {:induction false} NoNewlines(a: bytes)
    requires NL !in a
    ensures Newlines(a) == 0
  {
    if a != [] {
      NoNewlines(a[..|a| - 1]);
    }
  }

  lemma {:induction false} LineEndShift(s: bytes, k: nat, from: nat)
    requires k <= |s| && from <= |s| - k
    ensures LineEnd(s, k + from) == k + LineEnd(s[k..], from)
    decreases |s| - from
  {
    if k + from < |s| && s[k + from] != NL {
      LineEndShift(s, k, from + 1);
    }
  }

  /** Past a first line of length `k`, lines start where they do in the rest. */
  lemma LineStartShift(s: bytes, k: nat, n: nat)
    requires k < |s| && s[k] == NL && NL !in s[..k] && n <= Newlines(s[k + 1..])
    ensures LineStart(s, n + 1) == k + 1 + LineStart(s[k + 1..], n)
  {
    var rest := s[k + 1..];
    var j := LineStart(rest, n);
    LineStartCount(rest, n);
    NoNewlines(s[..k]);
    NewlinesStep(s, k);
    assert s[..k + 1 + j] == s[..k + 1] + rest[..j];
    NewlinesAppend(s[..k + 1], rest[..j]);
    LineStartUnique(s, n + 1, k + 1 + j);
  }

  /** The newline counts of a file and of what follows its first line. */
  lemma FirstLineCounts(s: bytes, k: nat)
    requires k < |s| && s[k] == NL && NL !in s[..k]
    ensures Newlines(s) == 1 + Newlines(s[k + 1..]) && LineCount(s) == 1 + LineCount(s[k + 1..])
  {
    hide Newlines;
    NoNewlines(s[..k]);
    NewlinesStep(s, k);
    assert s == s[..k + 1] + s[k + 1..];
    NewlinesAppend(s[..k + 1], s[k + 1..]);
    SameEnd(s, k);
  }

  lemma SameEnd(s: bytes, k: nat)
    requires k < |s| && s[k] == NL
    ensures s[|s| - 1] != NL <==> s[k + 1..] != [] && s[k + 1..][|s| - k - 2] != NL
  {
  }

  /** Line `n` without its newline. */
  function LineText(s: bytes, n: nat): bytes {
    s[LineStart(s, n)..LineEnd(s, LineStart(s, n))]
  }

  lemma SplitNothing()
    ensures Split([]) == [] && LineCount([]) == 0
  {
  }

  /** The first piece is the first line, and the rest is split like a file. */
  lemma SplitFirst(s: bytes)
    requires s != []
    ensures var k := LineEnd(s, 0);
            NL !in s[..k] && Split(s) == [s[..k]] + if k < |s| then Split(s[k + 1..]) else []
  {
    hide LineEnd;
    var k := LineEnd(s, 0);
    assert s[0..k] == s[..k];
  }

  lemma OneLine(s: bytes)
    requires s != [] && NL !in s
    ensures LineCount(s) == 1
  {
    NoNewlines(s);
    hide Newlines;
  }

  lemma {:induction false} SplitCount(s: bytes)
    ensures |Split(s)| == LineCount(s)
  {
    hide Newlines, LineCount, Split, LineEnd;
    if s == [] {
      SplitNothing();
    } else {
      var k := LineEnd(s, 0);
      SplitFirst(s);
      if k == |s| {
        assert s[..k] == s;
        OneLine(s);
      } else {
        FirstLineCounts(s, k);
        SplitCount(s[k + 1..]);
      }
    }
  }

  /** Lines put together again, a newline behind each. */
  function Joined(lines: seq<bytes>): bytes {
    if lines == [] then [] else lines[0] + [10] + Joined(lines[1..])
  }

  predicate Unterminated(s: bytes) { s != [] && s[|s| - 1] != 10 }

  /** The pieces are the lines: put together they are the file, but for a newline it may lack at its end, and none has one inside. */
  lemma {:induction false} SplitJoin(s: bytes)
    ensures Joined(Split(s)) == s + if Unterminated(s) then [10] else []
    ensures forall i :: 0 <= i < |Split(s)| ==> 10 !in Split(s)[i]
    decreases |s|
  {
    hide Split, LineEnd;
    if s == [] {
      SplitNothing();
    } else {
      var k := LineEnd(s, 0);
      SplitFirst(s);
      var tail := if k < |s| then Split(s[k + 1..]) else [];
      assert Split(s)[1..] == tail;
      if k < |s| {
        SplitJoin(s[k + 1..]);
        JoinRest(s, k, tail);
      } else {
        assert s[..k] == s && s[|s| - 1] != NL;
        assert Joined(Split(s)) == s + [10] + [];
      }
    }
  }

  lemma JoinRest(s: bytes, k: nat, tail: seq<bytes>)
    requires k < |s| && s[k] == 10
    requires Joined(tail) == s[k + 1..] + if Unterminated(s[k + 1..]) then [10] else []
    ensures s[..k] + [10] + Joined(tail) == s + if Unterminated(s) then [10] else []
  {
    hide Joined;
    var rest := s[k + 1..];
    assert s == s[..k] + [10] + rest;
    assert Unterminated(rest) <==> Unterminated(s);
  }

  /** Splitting on newlines and slicing at line starts are the same. */
  lemma {:induction false} SplitIsLines(s: bytes, n: nat)
    requires n < LineCount(s)
    ensures n < |Split(s)| && Split(s)[n] == LineText(s, n)
  {
    hide Newlines, Split, LineEnd, LineStart, LineText;
    SplitCount(s);
    SplitNothing();
    SplitFirst(s);
    var k := LineEnd(s, 0);
    if n == 0 {
      FirstLine(s);
    } else {
      FirstLineCounts(s, k);
      SplitIsLines(s[k + 1..], n - 1);
      SplitTail(s, k, n - 1);
      assert Split(s)[n] == Split(s[k + 1..])[n - 1];
    }
  }

  lemma FirstLine(s: bytes)
    ensures LineText(s, 0) == s[..LineEnd(s, 0)]
  {
    hide LineEnd, LineStart;
  }

  lemma SplitTail(s: bytes, k: nat, n: nat)
    requires k < |s| && s[k] == NL && NL !in s[..k] && n <= Newlines(s[k + 1..])
    ensures LineText(s, n + 1) == LineText(s[k + 1..], n)
  {
    hide Seek, LineStart, LineEnd, Newlines;
    var rest := s[k + 1..];
    LineStartShift(s, k, n);
    var a := LineStart(rest, n);
    LineEndShift(s, k + 1, a);
    assert s[k + 1 + a..k + 1 + LineEnd(rest, a)] == rest[a..LineEnd(rest, a)];
  }

  /** A line's existence, by number: `LineCount` lines, the first at offset 0. */
  lemma LineExists(s: bytes, n: nat)
    ensures LineStart(s, n) < |s| <==> n < LineCount(s)
  {
    assert s[..|s|] == s;
    SeekHit(s, n, 0);
    if n <= Newlines(s) {
      LineStartCount(s, n);
      if s != [] {
        NewlinesStep(s, |s| - 1);
      }
      if LineStart(s, n) < |s| && n == Newlines(s) {
        NoNewlineBetween(s, LineStart(s, n), |s|);
        assert s[|s| - 1] in s[LineStart(s, n)..|s|];
      }
    } else if LineStart(s, n) < |s| {
      NewlinesMonotone(s, LineStart(s, n), |s|);
    }
  }
}

module FileLines {
  import opened Pattern
  import opened FileReader
  import opened FileSearch
  import opened LineSpec
  import opened Words

  /** Newlines of one chunk, as the readback functions count them. */
  method CountChunk(chunk: bytes) returns (n: nat)
    ensures n == Newlines(chunk)
  {
    n := 0;
    assert chunk[..0] == [];
    for i := 0 to |chunk|
      invariant n == Newlines(chunk[..i])
    {
      NewlinesStep(chunk, i);
      if chunk[i] == NL {
        n := n + 1;
      }
    }
    assert chunk[..|chunk|] == chunk;
  }

  lemma FlattenStep(chunks: seq<bytes>, k: nat)
    requires k < |chunks|
    ensures Flatten(chunks[..k + 1]) == Flatten(chunks[..k]) + chunks[k]
    ensures Newlines(Flatten(chunks[..k + 1])) == Newlines(Flatten(chunks[..k])) + Newlines(chunks[k])
  {
    assert chunks[..k + 1][..k] == chunks[..k];
    NewlinesAppend(Flatten(chunks[..k]), chunks[k]);
  }

  /** Newlines of all the chunks a read has handed over. */
  method CountDelivered(chunks: seq<bytes>) returns (n: nat)
    ensures n == Newlines(Flatten(chunks))
  {
    n := 0;
    for k := 0 to |chunks|
      invariant n == Newlines(Flatten(chunks[..k]))
    {
      var c := CountChunk(chunks[k]);
      FlattenStep(chunks, k);
      n := n + c;
    }
    assert chunks[..|chunks|] == chunks;
  }

  /** The readback of the line seek: stops inside the chunk that completes `n` newlines. */
  method SeekChunk(chunk: bytes, n: nat, offset: nat, found: nat) returns (go: bool, offset': nat, found': nat)
    requires found < n
    ensures go <==> found + Newlines(chunk) < n
    ensures go ==> offset' == offset + |chunk| && found' == found + Newlines(chunk)
    ensures !go ==> offset' == offset + LineStart(chunk, n - found)
  {
    found' := found;
    assert chunk[..0] == [] && chunk[..|chunk|] == chunk;
    for i := 0 to |chunk|
      invariant found' == found + Newlines(chunk[..i]) && found' < n
    {
      NewlinesStep(chunk, i);
      if chunk[i] == NL {
        found' := found' + 1;
        if found' >= n {
          LineStartUnique(chunk, n - found, i + 1);
          NewlinesMonotone(chunk, i + 1, |chunk|);
          return false, offset + i + 1, found';
        }
      }
    }
    return true, offset + |chunk|, found';
  }

  /** Whether the line seek asks for more after these chunks. */
  predicate SeeksOn(n: nat, chunks: seq<bytes>) { Newlines(Flatten(chunks)) < n }

  /** A position found in a later chunk, counted from the first. */
  lemma LineStartInNext(a: bytes, b: bytes, n: nat)
    requires Newlines(a) < n <= Newlines(a) + Newlines(b)
    ensures LineStart(a + b, n) == |a| + LineStart(b, n - Newlines(a))
  {
    hide Newlines, LineStart;
    var m := n - Newlines(a);
    var k := LineStart(b, m);
    LineStartCount(b, m);
    assert (a + b)[..|a| + k] == a + b[..k];
    NewlinesAppend(a, b[..k]);
    LineStartUnique(a + b, n, |a| + k);
  }

  lemma LineStartPastEnd(s: bytes, n: nat)
    requires Newlines(s) < n
    ensures LineStart(s, n) == |s|
  {
    SeekHit(s, n, 0);
    assert s[..|s|] == s;
    NewlinesMonotone(s, LineStart(s, n), |s|);
  }

  /**
   The line seek's readback run on the chunks a read handed over. Its verdict on each chunk is
   what `SeeksOn` says, and its offset ends at the start of line `n`.
   */
  method SeekDelivered(chunks: seq<bytes>, n: nat) returns (offset: nat)
    requires n > 0 && (chunks == [] || Continued((c: seq<bytes>) => SeeksOn(n, c), chunks, |chunks| - 1))
    ensures offset == LineStart(Flatten(chunks), n)
  {
    var found, go := 0, true;
    offset := 0;
    for k := 0 to |chunks|
      invariant go ==> found == Newlines(Flatten(chunks[..k])) < n && offset == |Flatten(chunks[..k])|
      invariant !go ==> k == |chunks| && offset == LineStart(Flatten(chunks), n)
    {
      ghost var before := Flatten(chunks[..k]);
      go, offset, found := SeekChunk(chunks[k], n, offset, found);
      FlattenStep(chunks, k);
      assert go <==> SeeksOn(n, chunks[..k + 1]);
      if !go {
        LineStartInNext(before, chunks[k], n);
        assert k + 1 == |chunks|;
      }
      assert chunks[..|chunks|] == chunks;
    }
    assert chunks[..|chunks|] == chunks;
    if go {
      LineStartPastEnd(Flatten(chunks), n);
    }
  }

  /** The device reads of a pass over a whole file in chunks of 250 bytes. */
  function Reads(size: nat): nat { (size + 249) / 250 }

  lemma {:induction false} ChunkCount(chunks: seq<bytes>)
    requires forall k :: 0 <= k < |chunks| ==> 0 < |chunks[k]| <= 250
    requires forall k :: 0 <= k < |chunks| - 1 ==> |chunks[k]| == 250
    ensures |chunks| == Reads(|Flatten(chunks)|)
    ensures (forall k :: 0 <= k < |chunks| ==> |chunks[k]| == 250) ==> |Flatten(chunks)| == 250 * |chunks|
  {
    if chunks != [] {
      ChunkCount(chunks[..|chunks| - 1]);
    }
  }

  /** The read of the last byte, which follows a pass over the whole file, fails. */
  predicate LastByteFails(s: bytes, faults: Faults, t: nat) { s != [] && faults(t + Reads(|s|)) < 0 }

  /** What the lines of a file are counted to be. */
  function Counted(s: bytes, faults: Faults, t: nat): nat {
    if LastByteFails(s, faults, t) then Newlines(s) else LineCount(s)
  }

  /**
   The number of lines, for a line number counted from the end. The status of the read of the
   last byte is not checked: when it fails, an unterminated last line is not counted.
   */
  method TotalLines(e: Entry, faults: Faults, t: nat) returns (status: int, total: nat, t': nat)
    ensures t <= t' && (e.Absent? ==> status == e.code)
    ensures e.Present? && status < 0 ==> ErrorAt(faults, t, t', status) && t' <= t + Reads(|e.data|)
    ensures e.Present? && status >= 0 ==> t' == t + Reads(|e.data|) + if e.data == [] then 0 else 1
    ensures e.Present? && status >= 0 ==> total == Counted(e.data, faults, t)
    ensures e.Present? && status >= 0 ==> (NoFault(faults, t, t') <==> !LastByteFails(e.data, faults, t))
  {
    status, total, t' := CountPass(e, faults, t);
    if status < 0 {
      return;
    }
    if |e.data| > 0 {
      hide NoFault;
      var last, t1 := ReadLastByte(e, faults, t');
      NoFaultJoin(faults, t, t', t1);
      t' := t1;
      if last != NL {
        total := total + 1;
      }
    }
  }

  /** The pass that counts the newlines. */
  method CountPass(e: Entry, faults: Faults, t: nat) returns (status: int, total: nat, t': nat)
    ensures t <= t' && (e.Absent? ==> status == e.code)
    ensures e.Present? && status < 0 ==> ErrorAt(faults, t, t', status) && t' <= t + Reads(|e.data|)
    ensures e.Present? && status >= 0 ==> NoFault(faults, t, t') && t' == t + Reads(|e.data|) && total == Newlines(e.data)
  {
    var delivered, matched;
    status, delivered, matched, t' := ReadFile(e, 250, _ => true, 0, [], faults, t);
    if e.Absent? {
      return status, 0, t';
    }
    assert Rest(e.data, 0) == e.data;
    PassReads(e.data, status, delivered);
    if status < 0 {
      return status, 0, t';
    }
    hide *;
    total := CountDelivered(delivered);
  }

  /** The device reads of a pass over a file, complete or cut off by an error. */
  lemma PassReads(s: bytes, status: int, delivered: seq<bytes>)
    requires ReadOutcome(s, 250, _ => true, [], status, delivered, false)
    ensures status >= 0 ==> Flatten(delivered) == s && |delivered| == Reads(|s|)
    ensures status < 0 ==> |delivered| < Reads(|s|)
  {
    ChunkCount(delivered);
    assert s[..|s|] == s;
    if status < 0 {
      assert |delivered| == Reads(250 * |delivered|);
    }
  }

  /** The last byte, or a newline when it cannot be read. */
  method ReadLastByte(e: Entry, faults: Faults, t: nat) returns (last: byte, t': nat)
    requires e.Present? && e.data != []
    ensures t' == t + 1 && (NoFault(faults, t, t') <==> faults(t) >= 0)
    ensures last == if faults(t) < 0 then NL else e.data[|e.data| - 1]
  {
    last := NL;
    var ret, chunks, matched;
    ret, chunks, matched, t' := ReadFile(e, 1, _ => true, |e.data| - 1, [], faults, t);
    LastByte(e.data, ret, chunks);
    OneRead(faults, t, ret, chunks, t');
    if chunks != [] {
      last := chunks[0][0];
    }
  }

  lemma OneRead(faults: Faults, t: nat, ret: int, chunks: seq<bytes>, t': nat)
    requires if ret < 0 then ErrorAt(faults, t, t', ret) && chunks == [] else NoFault(faults, t, t') && |chunks| == 1 && t' == t + 1
    requires ret < 0 ==> t' == t + 1
    ensures NoFault(faults, t, t') <==> faults(t) >= 0
    ensures ret < 0 <==> faults(t) < 0
  {
  }

  /** A one-byte read at the last offset hands over the last byte, if it hands over anything. */
  lemma LastByte(s: bytes, ret: int, chunks: seq<bytes>)
    requires s != [] && ReadOutcome(s[|s| - 1..], 1, _ => true, [], ret, chunks, false)
    ensures chunks != [] ==> chunks == [[s[|s| - 1]]]
    ensures ret >= 0 ==> chunks != []
    ensures ret < 0 ==> chunks == []
  {
    FlattenLength(chunks);
    if |chunks| == 1 {
      assert Flatten(chunks) == Flatten([]) + chunks[0] == chunks[0];
      assert s[|s| - 1..][..1] == [s[|s| - 1]];
      assert chunks == [chunks[0]] == [Flatten(chunks)];
    }
  }

  lemma {:induction false} FlattenLength(chunks: seq<bytes>)
    requires forall k :: 0 <= k < |chunks| ==> chunks[k] != []
    ensures |Flatten(chunks)| >= |chunks|
  {
    if chunks != [] {
      FlattenLength(chunks[..|chunks| - 1]);
    }
  }

  /** Where a line counted from the end starts, among `total` lines. */
  function LineOffset(s: bytes, total: nat, lineNumber: int): int {
    if total + lineNumber < 0 then -1 else LineStart(s, total + lineNumber)
  }

  /** A file whose last line needs no counting, or a line that is not there anyway. */
  predicate Unaffected(s: bytes, lineNumber: int) {
    s == [] || s[|s| - 1] == NL || LineCount(s) + lineNumber < 0
  }

  /** Counting newlines instead of lines gives the same answer exactly for these files and lines. */
  lemma CountMatters(s: bytes, lineNumber: int)
    requires lineNumber < 0
    ensures LineOffset(s, Newlines(s), lineNumber) == LineOffset(s, LineCount(s), lineNumber) <==> Unaffected(s, lineNumber)
  {
    var n := LineCount(s) + lineNumber;
    if !Unaffected(s, lineNumber) {
      LineOfLineStart(s, n);
      if n > 0 {
        LineOfLineStart(s, n - 1);
      }
    }
  }

  /** No read fails whose status is looked at: none of a first pass, none after the read of the last byte. */
  ghost predicate NoneNoticed(s: bytes, faults: Faults, t: nat, t': nat) {
    NoFault(faults, t, t + Reads(|s|)) && NoFault(faults, t + Reads(|s|) + 1, t')
  }

  /**
   `getOffsetFromLineNumber`. A number counted from the end is answered as if the file had `Counted`
   lines, unless a noticed read fails; that is right exactly if the last-byte read succeeded or the
   file is `Unaffected`.
   */
  method GetOffsetFromLineNumber(e: Entry, lineNumber: int, faults: Faults, t: nat) returns (ret: int, t': nat)
    ensures t <= t'
    ensures lineNumber == 0 ==> ret == 0 && t' == t
    ensures e.Absent? && lineNumber != 0 ==> ret == e.code
    ensures e.Present? && lineNumber > 0 ==>
              if ret < 0 then ErrorAt(faults, t, t', ret) else NoFault(faults, t, t') && ret == LineStart(e.data, lineNumber)
    ensures e.Present? && lineNumber < 0 && (ret >= 0 || NoneNoticed(e.data, faults, t, t')) ==>
              ret == LineOffset(e.data, Counted(e.data, faults, t), lineNumber)
    ensures e.Present? && lineNumber < 0 && NoFault(faults, t, t') ==>
              !LastByteFails(e.data, faults, t) && ret == LineOffset(e.data, LineCount(e.data), lineNumber)
    ensures e.Present? && lineNumber < 0 && ret >= 0 ==> e.data == [] || t' > t + Reads(|e.data|)
    ensures e.Present? && lineNumber < 0 && ret >= 0 ==>
              (ret == LineOffset(e.data, LineCount(e.data), lineNumber)
               <==> !LastByteFails(e.data, faults, t) || Unaffected(e.data, lineNumber))
  {
    if lineNumber < 0 {
      ret, t' := OffsetFromEnd(e, lineNumber, faults, t);
      if e.Present? {
        CountMatters(e.data, lineNumber);
      }
    } else {
      ret, t' := SeekLine(e, lineNumber, faults, t);
    }
  }

  /** The part for numbers counted from the end. */
  method OffsetFromEnd(e: Entry, lineNumber: int, faults: Faults, t: nat) returns (ret: int, t': nat)
    requires lineNumber < 0
    ensures t <= t' && (e.Absent? ==> ret == e.code)
    ensures e.Present? && (ret >= 0 || NoneNoticed(e.data, faults, t, t')) ==>
              ret == LineOffset(e.data, Counted(e.data, faults, t), lineNumber)
    ensures e.Present? && NoFault(faults, t, t') ==> !LastByteFails(e.data, faults, t)
    ensures e.Present? && ret >= 0 ==> e.data == [] || t' > t + Reads(|e.data|)
    ensures e.Present? && NoFault(faults, t, t') ==> ret == LineOffset(e.data, LineCount(e.data), lineNumber)
  {
    var status, total;
    status, total, t' := TotalLines(e, faults, t);
    if status < 0 {
      if e.Present? {
        CountingFailed(e.data, faults, t, t', status);
      }
      return status, t';
    }
    var n := total + lineNumber;
    if n < 0 {
      return -1, t';
    }
    var t1;
    ret, t1 := SeekLine(e, n, faults, t');
    NoFaultJoin(faults, t, t', t1);
    if ret < 0 && e.Present? {
      SeekFailed(e.data, faults, t, t', t1, ret);
    }
    t' := t1;
  }

  lemma SeekFailed(s: bytes, faults: Faults, t: nat, t': nat, t1: nat, code: int)
    requires t' == t + Reads(|s|) + 1 && ErrorAt(faults, t', t1, code)
    ensures !NoneNoticed(s, faults, t, t1) && !NoFault(faults, t, t1)
  {
    assert faults(t1 - 1) < 0;
  }

  /** The first pass is what `NoneNoticed` starts with. */
  lemma CountingFailed(s: bytes, faults: Faults, t: nat, t': nat, status: int)
    requires ErrorAt(faults, t, t', status) && t' <= t + Reads(|s|)
    ensures !NoneNoticed(s, faults, t, t') && !NoFault(faults, t, t')
  {
    assert faults(t' - 1) < 0;
  }

  /** The part that looks for the start of line `n`. */
  method SeekLine(e: Entry, n: nat, faults: Faults, t: nat) returns (ret: int, t': nat)
    ensures t <= t' && (n == 0 ==> ret == 0 && t' == t) && (e.Absent? && n > 0 ==> ret == e.code)
    ensures e.Present? ==> if ret < 0 then ErrorAt(faults, t, t', ret) else NoFault(faults, t, t') && ret == LineStart(e.data, n)
  {
    ret, t' := 0, t;
    if n > 0 {
      var status, delivered, matched;
      status, delivered, matched, t' := ReadFile(e, 250, (c: seq<bytes>) => SeeksOn(n, c), 0, [], faults, t);
      if e.Present? {
        assert Rest(e.data, 0) == e.data;
      }
      var offset := SeekDelivered(delivered, n);
      if status < 0 {
        return status, t';
      }
      ret := offset;
      LineStartPrefix(e.data, status, n);
    }
  }

  /** The readback of the line count: stops at the chunk that reaches the offset. */
  method CountToOffset(chunk: bytes, offset: nat, passed: nat, line: nat) returns (go: bool, line': nat)
    requires chunk != [] && passed <= offset
    ensures go <==> passed + |chunk| <= offset
    ensures line' == line + Newlines(chunk[..Min(|chunk|, offset - passed)])
  {
    line' := line;
    assert chunk[..0] == [];
    for i := 0 to |chunk|
      invariant i <= offset - passed
      invariant line' == line + Newlines(chunk[..i])
    {
      if offset <= passed + i {
        return false, line';
      }
      NewlinesStep(chunk, i);
      if chunk[i] == NL {
        line' := line' + 1;
      }
    }
    return true, line';
  }

  /** Whether the line count asks for more after these chunks. */
  predicate CountsOn(offset: nat, chunks: seq<bytes>) { |Flatten(chunks)| <= offset }

  lemma PrefixCount(before: bytes, c: bytes, offset: nat)
    requires |before| <= offset
    ensures Newlines((before + c)[..Min(|before + c|, offset)])
            == Newlines(before) + Newlines(c[..Min(|c|, offset - |before|)])
    ensures |before + c| <= offset ==>
              Newlines(before + c) == Newlines(before) + Newlines(c[..Min(|c|, offset - |before|)])
  {
    var m := Min(|c|, offset - |before|);
    assert (before + c)[..|before| + m] == before + c[..m];
    NewlinesAppend(before, c[..m]);
    assert m == |c| ==> c[..m] == c;
  }

  lemma FlattenNone(chunks: seq<bytes>)
    ensures Flatten(chunks[..0]) == [] && Newlines(Flatten(chunks[..0])) == 0
  {
  }

  /** The line count's readback run on the chunks a read handed over; its verdict is `CountsOn`. */
  method CountDeliveredTo(chunks: seq<bytes>, offset: nat) returns (line: nat)
    requires forall k :: 0 <= k < |chunks| ==> chunks[k] != []
    requires chunks == [] || Continued((c: seq<bytes>) => CountsOn(offset, c), chunks, |chunks| - 1)
    ensures line == Newlines(Flatten(chunks)[..Min(|Flatten(chunks)|, offset)])
  {
    hide Flatten, Newlines;
    var go, passed := true, 0;
    line := 0;
    FlattenNone(chunks);
    for k := 0 to |chunks|
      invariant go ==> passed == |Flatten(chunks[..k])| <= offset && line == Newlines(Flatten(chunks[..k]))
      invariant !go ==> k == |chunks| && line == Newlines(Flatten(chunks)[..Min(|Flatten(chunks)|, offset)])
    {
      ghost var before := Flatten(chunks[..k]);
      go, line := CountToOffset(chunks[k], offset, passed, line);
      FlattenStep(chunks, k);
      assert go <==> CountsOn(offset, chunks[..k + 1]);
      PrefixCount(before, chunks[k], offset);
      passed := passed + |chunks[k]|;
      assert chunks[..|chunks|] == chunks;
    }
    assert chunks[..|chunks|] == chunks;
    assert Flatten(chunks)[..|Flatten(chunks)|] == Flatten(chunks);
  }

  /** `getLineNumberFromOffset`; a negative offset counts from the end of the file. */
  method GetLineNumberFromOffset(e: Entry, offset: int, faults: Faults, t: nat) returns (ret: int, t': nat)
    ensures t <= t' && (e.Absent? ==> ret == e.code)
    ensures e.Present? ==> (ret < 0 <==> !NoFault(faults, t, t'))
    ensures e.Present? && ret >= 0 ==>
              var o := if offset < 0 then |e.data| + offset else offset;
              ret == LineOf(e.data, if o < 0 then 0 else o)
  {
    if e.Absent? {
      return e.code, t;
    }
    var o := if offset < 0 then |e.data| + offset else offset;
    ret, t' := 0, t;
    assert e.data[..0] == [];
    if o > 0 {
      var status, delivered, matched;
      status, delivered, matched, t' := ReadFile(e, 250, (c: seq<bytes>) => CountsOn(o, c), 0, [], faults, t);
      assert e.data[0..] == e.data;
      var line := CountDeliveredTo(delivered, o);
      if status < 0 {
        return status, t';
      }
      ret := line;
      ghost var m := Min(status, o);
      assert Flatten(delivered)[..m] == e.data[..m];
      assert delivered != [] ==> Flatten(delivered) == e.data[..status];
    }
  }

  /** `off`, then the position after each newline. */
  function AllStarts(off: nat, newlines: seq<nat>): (v: seq<nat>)
    ensures |v| == |newlines| + 1 && v[0] == off
    ensures forall k :: 0 <= k < |newlines| ==> v[k + 1] == newlines[k] + 1
  {
    var n := |newlines|;
    if n == 0 then [off] else AllStarts(off, newlines[..n - 1]) + [newlines[n - 1] + 1]
  }

  /** The list of line starts built from the newline positions found at or after `off`. */
  function Starts(size: nat, off: nat, newlines: seq<nat>): seq<nat> {
    if newlines == [] then []
    else
      var v := AllStarts(off, newlines);
      if v[|newlines|] >= size then v[..|newlines|] else v
  }

  /** `v` is `off` followed by every later line start before the end of the file, in order. */
  ghost predicate ListsLineStarts(s: bytes, off: nat, v: seq<nat>) {
    && Increasing(v)
    && forall p: nat :: p in v <==> IsStart(s, off, p)
  }

  predicate IsStart(s: bytes, off: nat, p: nat) {
    off <= p < |s| && (p == off || s[p - 1] == NL)
  }

  ghost predicate Increasing(v: seq<nat>) {
    forall j, k :: 0 <= j < k < |v| ==> v[j] < v[k]
  }

  /** `g` lists the newlines at or after `off`, in order. */
  ghost predicate NewlineList(s: bytes, off: nat, g: seq<nat>) {
    && Increasing(g)
    && (forall k :: 0 <= k < |g| ==> off <= g[k] < |s| && s[g[k]] == NL)
    && forall p: nat :: off <= p < |s| && s[p] == NL ==> p in g
  }

  lemma NewlineOccurs(s: bytes, p: nat)
    ensures OccursAt(s, [NL], p) <==> p < |s| && s[p] == NL
  {
    if p < |s| {
      assert s[p..p + 1] == [s[p]];
    }
  }

  /** Searching for a newline finds every newline, in order. */
  lemma NewlinePositions(s: bytes, off: nat)
    ensures NewlineList(s, off, Greedy(s, [NL], off, |s|))
  {
    hide Greedy, OccursAt;
    var g := Greedy(s, [NL], off, |s|);
    forall k | 0 <= k < |g| ensures off <= g[k] < |s| && s[g[k]] == NL {
      GreedyOccur(s, [NL], off, |s|, k);
      NewlineOccurs(s, g[k]);
    }
    forall j, k | 0 <= j < k < |g| ensures g[j] < g[k] {
      GreedyDisjoint(s, [NL], off, |s|, j, k);
    }
    forall p: nat | off <= p < |s| && s[p] == NL ensures p in g {
      NewlineOccurs(s, p);
      var k := GreedyComplete(s, [NL], off, |s|, p);
    }
  }

  lemma StartsMember(s: bytes, off: nat, g: seq<nat>, p: nat)
    requires NewlineList(s, off, g) && g != []
    ensures p in Starts(|s|, off, g) <==> IsStart(s, off, p)
  {
    var v, all, n := Starts(|s|, off, g), AllStarts(off, g), |g|;
    assert v[0] == off <= g[0];
    if p in v && p != off {
      var k :| 0 <= k < |v| && v[k] == p;
      assert p == all[k - 1 + 1] == g[k - 1] + 1;
      assert k < n ==> g[k - 1] < g[n - 1];
    }
    if off < p < |s| && s[p - 1] == NL {
      assert p - 1 in g;
      var k :| 0 <= k < n && g[k] == p - 1;
      assert all[k + 1] == p;
      assert v[k + 1] == p;
    }
  }

  lemma StartsIncreasing(s: bytes, off: nat, g: seq<nat>)
    requires NewlineList(s, off, g)
    ensures Increasing(Starts(|s|, off, g))
  {
    var all := AllStarts(off, g);
    forall j, k | 0 <= j < k < |all| ensures all[j] < all[k] {
      assert all[k - 1 + 1] == g[k - 1] + 1;
      if j > 0 {
        assert all[j - 1 + 1] == g[j - 1] + 1;
      }
    }
  }

  /**
   The list holds exactly the line starts from `off` on if and only if a newline follows `off`
   or `off` is the end of the file; otherwise the last, unterminated line is missing from it.
   */
  lemma StartsListed(s: bytes, off: nat, g: seq<nat>)
    requires off <= |s| && NewlineList(s, off, g)
    ensures ListsLineStarts(s, off, Starts(|s|, off, g)) <==> NL in s[off..] || off == |s|
  {
    var v := Starts(|s|, off, g);
    if g == [] {
      assert off < |s| ==> IsStart(s, off, off);
    } else {
      assert s[off..][g[0] - off] == NL;
      StartsIncreasing(s, off, g);
      forall p: nat ensures p in v <==> IsStart(s, off, p) {
        StartsMember(s, off, g, p);
      }
    }
  }

  /** A list cut off after `m` newlines is the beginning of the full one. */
  lemma StartsPrefix(s: bytes, off: nat, g: seq<nat>, m: nat)
    requires NewlineList(s, off, g) && 1 <= m < |g|
    ensures |Starts(|s|, off, g)| >= m + 1 && Starts(|s|, off, g[..m]) == Starts(|s|, off, g)[..m + 1]
  {
    assert g[m - 1] < g[m];
    assert AllStarts(off, g[..m])[m - 1 + 1] == g[m - 1] + 1;
    var a, b := AllStarts(off, g[..m]), AllStarts(off, g);
    forall k | 1 <= k <= m ensures a[k] == b[k] {
      assert a[k - 1 + 1] == g[k - 1] + 1 == b[k - 1 + 1];
    }
    assert a == b[..m + 1];
  }

  /** The offset a list of line numbers starts from: a line number that does not exist counts as the first line. */
  function ListOffset(s: bytes, lineOffset: int): (off: nat)
    ensures off <= |s|
  {
    var n := if lineOffset < 0 then LineCount(s) + lineOffset else lineOffset;
    if n < 0 then 0 else LineStart(s, n)
  }

  /** Adds one to every entry but the first. */
  method ShiftPastNewlines(off: nat, newlines: seq<nat>) returns (v: seq<nat>)
    ensures v == AllStarts(off, newlines)
  {
    v := [off] + newlines;
    for i := 1 to |v|
      invariant |v| == |newlines| + 1 && v[0] == off
      invariant forall k :: 1 <= k < i ==> v[k] == newlines[k - 1] + 1
      invariant forall k :: i <= k < |v| ==> v[k] == newlines[k - 1]
    {
      v := v[i := v[i] + 1];
    }
  }

  /** What a limit leaves of a list: a negative one is no limit, and one entry is always looked for. */
  function Limited(all: seq<nat>, max: int): seq<nat> {
    if max < 0 || |all| <= Max(max, 1) then all else all[..Max(max, 1)]
  }

  /** The newlines at or after `off`, up to the limit. */
  method FindNewlines(e: Entry, maxLines: int, off: nat, faults: Faults, t: nat)
    returns (status: int, newlines: seq<nat>, t': nat)
    ensures t <= t' && (e.Absent? ==> status == e.code)
    ensures e.Present? ==> if status < 0 then ErrorAt(faults, t, t', status) else NoFault(faults, t, t')
    ensures e.Present? && status >= 0 ==> newlines == Limited(Greedy(e.data, [NL], off, |e.data|), maxLines)
  {
    hide Greedy, NoFault, ErrorAt, Searched, EveryStep;
    var counted;
    ghost var tc;
    status, newlines, counted, tc, t' := FindInFile(e, Some([NL]), true, maxLines, 1, off, faults, t);
    assert Findable([NL]) == [NL];
    hide Found;
    if e.Present? && status >= 0 {
      if maxLines < 0 {
        FindEvery(e.data, [NL], maxLines, 1, off, status, newlines);
      } else {
        FindFirst(e.data, [NL], maxLines, off, status, newlines);
      }
    }
  }

  /** The list of line starts from the newlines found, as built in place. */
  method BuildStarts(size: nat, off: nat, newlines: seq<nat>) returns (starts: seq<nat>)
    ensures starts == Starts(size, off, newlines)
  {
    starts := newlines;
    if |newlines| > 0 {
      starts := ShiftPastNewlines(off, newlines);
      if starts[|starts| - 1] + 1 > size {
        starts := starts[..|starts| - 1];
      }
    }
  }

  /**
   `getLineNumbersInFile`. Whatever was read, a list that is returned holds the line starts from `off` on;
   `off` is where the asked line starts, or 0 when its offset could not be found.
   */
  method GetLineNumbersInFile(e: Entry, maxLines: int, lineOffset: int, faults: Faults, t: nat)
    returns (ret: int, starts: seq<nat>, ghost off: nat, t': nat)
    ensures t <= t' && (e.Absent? ==> ret == e.code)
    ensures e.Present? ==> (ret < 0 ==> !NoFault(faults, t, t'))
    ensures e.Present? && ret >= 0 ==>
              ret == |starts| && starts == Starts(|e.data|, off, Limited(Greedy(e.data, [NL], off, |e.data|), maxLines))
    ensures e.Present? && NoFault(faults, t, t') ==> off == ListOffset(e.data, lineOffset)
    ensures e.Present? && off != 0 ==>
              off == if lineOffset >= 0 then LineStart(e.data, lineOffset)
                     else LineOffset(e.data, Counted(e.data, faults, t), lineOffset)
  {
    var offset, t1 := GetOffsetFromLineNumber(e, lineOffset, faults, t);
    var from: nat := if offset < 0 then 0 else offset;
    off := from;
    assert e.Present? && NoFault(faults, t, t1) ==> off == ListOffset(e.data, lineOffset);
    hide Greedy, Starts, NoFault, ListOffset, LineStart, LineCount, LineOffset, Counted, Limited, ErrorAt, NoneNoticed;
    var status, newlines;
    status, newlines, t' := FindNewlines(e, maxLines, from, faults, t1);
    NoFaultJoin(faults, t, t1, t');
    if status < 0 {
      if e.Present? {
        ErrorIsFault(faults, t1, t', status);
      }
      return status, newlines, off, t';
    }
    starts := BuildStarts(|e.data|, from, newlines);
    ret := |starts|;
  }

  /** A limited search for every occurrence returns the first of them. */
  lemma FindFirst(s: bytes, pat: CString, max: nat, off: nat, ret: nat, indices: seq<nat>)
    requires Found(s, pat, true, max, 1, off, 0, ret, indices)
    ensures indices == Limited(Greedy(s, pat, off, |s|), max)
  {
    var all := Greedy(s, pat, off, |s|);
    PickAll(all);
    if max >= 1 {
      ForwardLimit(all, ret, 1, 1, off, max);
    } else {
      assert !GoesOn(all[..Min(1, |all|)], 1, 1, off, max, true);
      PickAll(all[..ret]);
    }
  }

  /** A line ends where a search for the next newline stops. */
  lemma {:induction false} LineEndIsNext(s: bytes, from: nat)
    requires from <= |s|
    ensures LineEnd(s, from) == match NextOccurrence(s, [NL], from) {
                                  case Some(i) => i
                                  case None => |s|
                                }
    decreases |s| - from
  {
    NewlineOccurs(s, from);
    if from < |s| && s[from] != NL {
      LineEndIsNext(s, from + 1);
    }
  }

  /** A read from `off` up to a newline hands over the rest of the line. */
  method ReadRestOfLine(e: Entry, off: nat, faults: Faults, t: nat) returns (ret: int, line: bytes, t': nat)
    requires e.Present? && off <= |e.data|
    ensures t <= t' && (if ret < 0 then ErrorAt(faults, t, t', ret) else NoFault(faults, t, t'))
    ensures ret >= 0 ==> line == e.data[off..LineEnd(e.data, off)] && ret == |line|
  {
    var delivered, matched;
    SmallChunks(Rest(e.data, off), 250, [NL]);
    assert Findable([NL]) == [NL];
    ret, delivered, matched, t' := ReadFile(e, 250, _ => true, off, [NL], faults, t);
    line := Flatten(delivered);
    if ret >= 0 {
      LineEndIsNext(e.data, off);
      ShiftOccurrence(e.data, [NL], off, 0);
      hide NextOccurrence, LineEnd, Flatten;
      assert e.data[off..][..ret] == e.data[off..off + ret];
    }
  }

  /** What reading line `n` returns. */
  ghost predicate ReadsLine(s: bytes, n: int, ret: int, line: bytes) {
    var lines := Split(s);
    if 0 <= n < |lines| then IsLineOf(lines[n], line) && ret == |line|
    else line == [] && ret == if n < 0 then -1 else -99
  }

  /** `line` is the piece of the file without the carriage return at its end, if there is one; others stay. */
  predicate IsLineOf(piece: bytes, line: bytes) {
    if piece != [] && piece[|piece| - 1] == 13 then piece == line + [13] else line == piece
  }

  lemma LineMissing(s: bytes, n: int, ret: int)
    requires ret == (if n < 0 then -1 else -99) && (n >= 0 ==> LineStart(s, n) >= |s|)
    ensures ReadsLine(s, n, ret, [])
  {
    hide Split, LineStart;
    SplitCount(s);
    if n >= 0 {
      LineExists(s, n);
    }
  }

  lemma LineRead(s: bytes, n: nat, piece: bytes, line: bytes)
    requires LineStart(s, n) < |s| && piece == s[LineStart(s, n)..LineEnd(s, LineStart(s, n))] && IsLineOf(piece, line)
    ensures ReadsLine(s, n, |line|, line)
  {
    hide Split, LineStart, LineEnd, LineCount, IsLineOf;
    SplitCount(s);
    LineExists(s, n);
    SplitIsLines(s, n);
  }

  /** The line that a number stands for: counted from the end, as many lines as were counted. */
  function LineAsked(s: bytes, lineNumber: int, faults: Faults, t: nat): int {
    if lineNumber < 0 then Counted(s, faults, t) + lineNumber else lineNumber
  }

  /** No read fails whose status is looked at. */
  ghost predicate ReadsFine(s: bytes, lineNumber: int, faults: Faults, t: nat, t': nat) {
    if lineNumber < 0 then NoneNoticed(s, faults, t, t') else NoFault(faults, t, t')
  }

  /**
   `readLineInFile` without a pattern. Counted from the end it reads the line that `Counted` lines make it;
   with no failed read that is the line of the file split at newlines.
   */
  method ReadLineInFile(e: Entry, lineNumber: int, faults: Faults, t: nat) returns (ret: int, line: bytes, t': nat)
    ensures t <= t' && (e.Absent? ==> ret == e.code && line == [])
    ensures e.Present? && (ret >= 0 || ReadsFine(e.data, lineNumber, faults, t, t')) ==>
              ReadsLine(e.data, LineAsked(e.data, lineNumber, faults, t), ret, line)
    ensures e.Present? && NoFault(faults, t, t') ==>
              ReadsLine(e.data, if lineNumber < 0 then |Split(e.data)| + lineNumber else lineNumber, ret, line)
  {
    hide *;
    if e.Absent? {
      return e.code, [], t;
    }
    ghost var s, n := e.data, LineAsked(e.data, lineNumber, faults, t);
    var offset;
    offset, t' := GetOffsetFromLineNumber(e, lineNumber, faults, t);
    AskedLine(s, lineNumber, faults, t, offset, t');
    ghost var t0 := t';
    ret, line := offset, [];
    if 0 <= offset < |e.data| {
      ret, line, t' := ReadRestOfLine(e, offset, faults, t');
      LineFails(s, lineNumber, faults, t, t0, t', ret);
      ghost var piece := line;
      ret, line := DropReturn(ret, line);
      if ret >= 0 {
        LineRead(s, n, piece, line);
      }
    } else {
      if offset >= |e.data| {
        ret := -99;
      }
      if offset >= 0 || ReadsFine(s, lineNumber, faults, t, t') || NoFault(faults, t, t') {
        LineMissing(s, n, ret);
      }
    }
    NothingFailed(s, lineNumber, faults, t, t0, t');
  }

  /** One carriage return at the end goes, and is not counted. */
  method DropReturn(ret: int, line: bytes) returns (ret': int, line': bytes)
    ensures IsLineOf(line, line') && ret' == ret - (|line| - |line'|)
    ensures ret < 0 ==> ret' < 0
    ensures ret == |line| ==> ret' == |line'|
  {
    ret', line' := ret, line;
    if line != [] && line[|line| - 1] == CR {
      ret', line' := ret - 1, line[..|line| - 1];
    }
  }

  /** What the offset of a line says about the line asked for. */
  lemma AskedLine(s: bytes, lineNumber: int, faults: Faults, t: nat, offset: int, t': nat)
    requires t <= t' && (lineNumber == 0 ==> offset == 0)
    requires lineNumber > 0 ==> if offset < 0 then ErrorAt(faults, t, t', offset) else offset == LineStart(s, lineNumber)
    requires lineNumber < 0 && (offset >= 0 || NoneNoticed(s, faults, t, t')) ==>
               offset == LineOffset(s, Counted(s, faults, t), lineNumber)
    requires lineNumber < 0 && NoFault(faults, t, t') ==>
               !LastByteFails(s, faults, t) && offset == LineOffset(s, LineCount(s), lineNumber)
    ensures var n := LineAsked(s, lineNumber, faults, t);
            && (offset >= 0 ==> n >= 0 && offset == LineStart(s, n))
            && (offset < 0 && (ReadsFine(s, lineNumber, faults, t, t') || NoFault(faults, t, t')) ==> n < 0 && offset == -1)
  {
    if lineNumber > 0 && offset < 0 {
      ErrorIsFault(faults, t, t', offset);
    }
  }

  /** A failed read of the line itself is one that is noticed. */
  lemma LineFails(s: bytes, lineNumber: int, faults: Faults, t: nat, t0: nat, t': nat, ret: int)
    requires t <= t0 <= t' && (lineNumber < 0 ==> t0 > t + Reads(|s|))
    requires ret < 0 ==> ErrorAt(faults, t0, t', ret)
    ensures ret < 0 ==> !ReadsFine(s, lineNumber, faults, t, t') && !NoFault(faults, t, t')
  {
    if ret < 0 {
      assert faults(t' - 1) < 0;
    }
  }

  /** With no failed read, the lines counted are the pieces of the file. */
  lemma NothingFailed(s: bytes, lineNumber: int, faults: Faults, t: nat, t0: nat, t': nat)
    requires t <= t0 <= t' && (lineNumber < 0 && NoFault(faults, t, t0) ==> !LastByteFails(s, faults, t))
    ensures NoFault(faults, t, t') ==>
              LineAsked(s, lineNumber, faults, t) == if lineNumber < 0 then |Split(s)| + lineNumber else lineNumber
  {
    hide Split, Newlines, LineCount;
    SplitCount(s);
  }

  /** Device reads of which only the second fails, with -5. */
  function SecondReadFails(): Faults { (k: nat) => if k == 1 then -5 else 0 }

  /** One line without a newline, the last line wanted, and a last-byte read that fails: the line is not found. */
  method UnnoticedError() returns (ret: int)
    ensures ret == -1 && LineOffset([97], LineCount([97]), -1) == 0
  {
    var s: bytes := [97];
    var t';
    assert Reads(|s|) == 1 && LastByteFails(s, SecondReadFails(), 0);
    assert s[..0] == [] && s[..1] == s && s[0] != NL && Newlines(s) == 0;
    ret, t' := GetOffsetFromLineNumber(Present(s), -1, SecondReadFails(), 0);
    assert NoneNoticed(s, SecondReadFails(), 0, t');
  }
}
