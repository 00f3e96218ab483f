/**
 Chunked reading of a file, optionally up to a match string (`readFile`).

 littlefs is reduced to what a read sees of it: the entry a path names, and a schedule of
 read outcomes in which the t-th device read fails with `faults(t)` when that is negative.
 A caller's readback function is a predicate on the chunks it has been given so far,
 true meaning "continue".
 */
module FileReader {
  import opened Pattern
  import opened Words

  type ErrorCode = c: int | c < 0 witness -1

  datatype Entry = Absent(code: ErrorCode) | Present(data: bytes)

  type Faults = nat -> int

  ghost predicate NoFault(faults: Faults, t: nat, t': nat) {
    forall k: nat :: t <= k < t' ==> faults(k) >= 0
  }

  /** The operation ended with the error of its last device read. */
  ghost predicate ErrorAt(faults: Faults, t: nat, t': nat, code: int) {
    t < t' && code < 0 && faults(t' - 1) == code && NoFault(faults, t, t' - 1)
  }

  lemma ErrorLater(faults: Faults, a: nat, b: nat, c: nat, code: int)
    requires a <= b && NoFault(faults, a, b) && ErrorAt(faults, b, c, code)
    ensures ErrorAt(faults, a, c, code)
  {
  }

  lemma ErrorIsFault(faults: Faults, t: nat, t': nat, code: int)
    requires ErrorAt(faults, t, t', code)
    ensures !NoFault(faults, t, t')
  {
  }

  lemma NoFaultJoin(faults: Faults, a: nat, b: nat, c: nat)
    requires a <= b <= c
    ensures NoFault(faults, a, c) <==> NoFault(faults, a, b) && NoFault(faults, b, c)
  {
  }

  function Flatten(chunks: seq<bytes>): bytes {
    if chunks == [] then [] else Flatten(chunks[..|chunks| - 1]) + chunks[|chunks| - 1]
  }

  lemma FlattenAppend(chunks: seq<bytes>, c: bytes)
    ensures Flatten(chunks + [c]) == Flatten(chunks) + c
  {
    assert (chunks + [c])[..|chunks|] == chunks;
  }

  function Zeros(n: nat): (z: bytes)
    ensures |z| == n && forall i :: 0 <= i < n ==> z[i] == 0
  {
    seq(n, _ => 0)
  }

  /** What a zero-filled sliding window of width `m` holds once `h` has been shifted through it. */
  function Window(h: bytes, m: nat): (w: bytes)
    ensures |w| == m
  {
    if |h| >= m then h[|h| - m..] else Zeros(m - |h|) + h
  }

  lemma WindowShift(h: bytes, b: byte, m: nat)
    requires m > 0
    ensures Window(h + [b], m) == Window(h, m)[1..] + [b]
  {
  }

  /** The zero filling never makes a NUL-free pattern appear too early. */
  lemma WindowIsOccurrence(s: bytes, k: nat, pat: CString)
    requires pat != [] && k <= |s|
    ensures Window(s[..k], |pat|) == pat <==> k >= |pat| && OccursAt(s, pat, k - |pat|)
  {
    if k < |pat| {
      assert Window(s[..k], |pat|)[0] == 0;
      assert pat[0] != 0;
    } else {
      assert s[..k][k - |pat|..] == s[k - |pat|..k];
    }
  }

  /** `memmove` by one and store: the window after one more byte. */
  method ShiftIn(window: array<byte>, m: nat, b: byte)
    requires 0 < m < window.Length
    modifies window
    ensures window[..m] == old(window[..m])[1..] + [b]
    ensures window[m..] == old(window[m..])
  {
    for i := 0 to m - 1
      invariant forall k :: 0 <= k < i ==> window[k] == old(window[k + 1])
      invariant forall k :: i <= k < window.Length ==> window[k] == old(window[k])
    {
      window[i] := window[i + 1];
    }
    window[m - 1] := b;
  }

  /** The match buffer's width: the length of the match string as 16 bits hold it. */
  function Width(pat: CString): nat { ToU16(|pat|) }

  /** What a read can find of a match string: one of 65536 bytes or more is wider than its match buffer. */
  function Findable(pat: CString): CString { if |pat| <= 0xFFFF then pat else [] }

  /** Shifts in a byte and tests the window against the pattern; `h` has been shifted in before. */
  method FeedByte(window: array<byte>, m: nat, pat: CString, b: byte, ghost h: bytes) returns (hit: bool)
    requires m == Width(pat) > 0 && window.Length == m + 1 && window[m] == 0 && window[..m] == Window(h, m)
    modifies window
    ensures window[m] == 0 && window[..m] == Window(h + [b], m)
    ensures hit <==> Window(h + [b], m) == pat
  {
    hide Window, OccursAt, NextOccurrence, CStr;
    WindowShift(h, b, m);
    ghost var tail := window[m..];
    ShiftIn(window, m, b);
    assert window[m] == window[m..][0] == tail[0];
    assert window[..] == window[..m] + [0];
    var pos := StrStr(window[..], pat, m);
    if |pat| == m {
      WindowTest(window[..m], pat, pos);
    }
    hit := pos != -1;
  }

  // ---- the scan of one chunk, whose index is 16 bits wide

  /** A scan can take `n` turns on a chunk: its index has not left the chunk, or never does. */
  predicate InScan(buffer: bytes, n: nat) { n <= |buffer| || |buffer| > 0xFFFF }

  /** The bytes that `n` turns shift in: past 65536 of them the chunk starts over. */
  function Fed(buffer: bytes, n: nat): (f: bytes)
    requires InScan(buffer, n)
    ensures |f| == n
  {
    if n == 0 then [] else Fed(buffer, n - 1) + [buffer[ToU16(n - 1)]]
  }

  lemma {:induction false} FedAt(buffer: bytes, n: nat, i: nat)
    requires InScan(buffer, n) && i < n
    ensures Fed(buffer, n)[i] == buffer[ToU16(i)]
    decreases n
  {
    if i < n - 1 {
      FedAt(buffer, n - 1, i);
    }
  }

  /** Before the index wraps, what is shifted in is the chunk itself. */
  lemma {:induction false} FedPlain(buffer: bytes, n: nat)
    requires n <= |buffer| && n <= 0x1_0000
    ensures Fed(buffer, n) == buffer[..n]
  {
    if n > 0 {
      FedPlain(buffer, n - 1);
      assert buffer[..n] == buffer[..n - 1] + [buffer[n - 1]];
    }
  }

  lemma WrapStep(n: nat)
    ensures ToU16(ToU16(n) + 1) == ToU16(n + 1) && ToU16(n + 0x1_0000) == ToU16(n) && (n <= 0xFFFF ==> ToU16(n) == n)
  {
  }

  /** Turn `n` of the scan sees the pattern in the window. */
  predicate Hit(h: bytes, buffer: bytes, pat: CString, n: nat)
    requires InScan(buffer, n + 1)
  {
    Window(h + Fed(buffer, n + 1), Width(pat)) == pat
  }

  lemma HitStep(h: bytes, buffer: bytes, pat: CString, n: nat)
    requires InScan(buffer, n + 1)
    ensures h + Fed(buffer, n + 1) == h + Fed(buffer, n) + [buffer[ToU16(n)]]
    ensures Hit(h, buffer, pat, n) <==> Window(h + Fed(buffer, n) + [buffer[ToU16(n)]], Width(pat)) == pat
  {
    hide Window;
  }

  ghost predicate NoHit(h: bytes, buffer: bytes, pat: CString, n: nat)
    requires InScan(buffer, n)
  {
    forall k: nat :: k < n ==> !Hit(h, buffer, pat, k)
  }

  /** The scan ends: its index can leave the chunk, or the pattern comes up. */
  ghost predicate ScanEnds(h: bytes, buffer: bytes, pat: CString) {
    |buffer| <= 0xFFFF || exists n: nat :: Hit(h, buffer, pat, n)
  }

  /** The match buffer once `h` has been shifted through it: the window, then the terminator. */
  ghost predicate Shifted(window: array<byte>, m: nat, h: bytes)
    reads window
  {
    window.Length == m + 1 && window[m] == 0 && window[..m] == Window(h, m)
  }

  /** One turn of the scan, at index `j`. */
  method ScanTurn(window: array<byte>, m: nat, buffer: bytes, pat: CString, j: nat, ghost h: bytes, ghost turns: nat) returns (found: bool)
    requires m == Width(pat) > 0 && InScan(buffer, turns + 1) && j == ToU16(turns) && Shifted(window, m, h + Fed(buffer, turns))
    modifies window
    ensures j < |buffer| && Shifted(window, m, h + Fed(buffer, turns + 1))
    ensures found <==> Hit(h, buffer, pat, turns)
  {
    HitStep(h, buffer, pat, turns);
    hide Window, Fed, Hit;
    found := FeedByte(window, m, pat, buffer[j], h + Fed(buffer, turns));
  }

  /** A bound on the turns of a scan that ends: the chunk's length, or a turn with a hit. */
  lemma LastTurn(h: bytes, buffer: bytes, pat: CString) returns (last: nat)
    requires ScanEnds(h, buffer, pat)
    ensures |buffer| <= 0xFFFF ==> last == |buffer|
    ensures |buffer| > 0xFFFF ==> Hit(h, buffer, pat, last)
  {
    hide Hit;
    last := |buffer|;
    if |buffer| > 0xFFFF {
      last :| Hit(h, buffer, pat, last);
    }
  }

  /** A turn without a hit comes before the last one. */
  lemma NoHitStep(h: bytes, buffer: bytes, pat: CString, n: nat, last: nat)
    requires InScan(buffer, n + 1) && NoHit(h, buffer, pat, n) && !Hit(h, buffer, pat, n)
    requires |buffer| > 0xFFFF ==> n <= last && Hit(h, buffer, pat, last)
    ensures NoHit(h, buffer, pat, n + 1) && (|buffer| > 0xFFFF ==> n < last)
  {
    hide Hit;
  }

  lemma BeginScan(h: bytes, buffer: bytes, pat: CString)
    ensures InScan(buffer, 0) && h + Fed(buffer, 0) == h && ToU16(0) == 0 && NoHit(h, buffer, pat, 0)
  {
  }

  lemma FedWhole(buffer: bytes)
    requires |buffer| <= 0xFFFF
    ensures Fed(buffer, |buffer|) == buffer
  {
    FedPlain(buffer, |buffer|);
    assert buffer[..|buffer|] == buffer;
  }

  /** The next index; in a chunk that it can leave it does not wrap. */
  lemma NextIndex(buffer: bytes, turns: nat)
    requires ToU16(turns) < |buffer| && (|buffer| <= 0xFFFF ==> ToU16(turns) == turns)
    ensures InScan(buffer, turns + 1)
    ensures ToU16(ToU16(turns) + 1) == ToU16(turns + 1) && (|buffer| <= 0xFFFF ==> ToU16(turns + 1) == turns + 1)
  {
    WrapStep(turns);
    WrapStep(turns + 1);
  }

  /**
   Feeds one chunk through the window and stops at the first hit, after `turns` turns without one.
   The index is all the caller learns of it.
   */
  method ScanChunk(window: array<byte>, m: nat, buffer: bytes, pat: CString, ghost h: bytes)
    returns (hit: int, ghost turns: nat)
    requires m == Width(pat) > 0 && Shifted(window, m, h) && ScanEnds(h, buffer, pat)
    modifies window
    ensures InScan(buffer, turns) && NoHit(h, buffer, pat, turns)
    ensures hit == -1 ==> turns == |buffer| <= 0xFFFF && Shifted(window, m, h + buffer)
    ensures hit != -1 ==> InScan(buffer, turns + 1) && Hit(h, buffer, pat, turns) && hit == ToU16(turns) < |buffer|
  {
    hide *;
    ghost var last := LastTurn(h, buffer, pat);
    BeginScan(h, buffer, pat);
    var j := 0;
    turns := 0;
    while j < |buffer|
      invariant turns <= last && InScan(buffer, turns) && j == ToU16(turns)
      invariant |buffer| <= 0xFFFF ==> j == turns
      invariant Shifted(window, m, h + Fed(buffer, turns)) && NoHit(h, buffer, pat, turns)
      decreases last - turns
    {
      NextIndex(buffer, turns);
      var found := ScanTurn(window, m, buffer, pat, j, h, turns);
      if found {
        return j, turns;
      }
      NoHitStep(h, buffer, pat, turns, last);
      j, turns := ToU16(j + 1), turns + 1;
    }
    IndexBound(turns);
    FedWhole(buffer);
    return -1, turns;
  }

  lemma IndexBound(n: nat)
    ensures ToU16(n) <= 0xFFFF
  {
  }

  lemma Extends(s: bytes, base: nat, buffer: bytes, n: nat)
    requires base + |buffer| <= |s| && s[base..base + |buffer|] == buffer && n <= |buffer|
    ensures s[..base] + buffer[..n] == s[..base + n]
  {
    assert s[base..base + |buffer|][..n] == s[base..base + n];
  }

  /** A hit before the index wraps is an occurrence that ends with this byte of the chunk. */
  lemma HitIsOccurrence(s: bytes, base: nat, buffer: bytes, pat: CString, n: nat)
    requires base + |buffer| <= |s| && s[base..base + |buffer|] == buffer
    requires 0 < |pat| <= 0xFFFF && n < |buffer| && n < 0x1_0000
    ensures Hit(s[..base], buffer, pat, n) <==> base + n + 1 >= |pat| && OccursAt(s, pat, base + n + 1 - |pat|)
  {
    hide Hit, Window, OccursAt, Fed, ToU16;
    HitWindow(s[..base], buffer, pat, n);
    Extends(s, base, buffer, n + 1);
    WindowIsOccurrence(s, base + n + 1, pat);
  }

  /** Before the index wraps, the window is over the bytes of the chunk so far. */
  lemma HitWindow(h: bytes, buffer: bytes, pat: CString, n: nat)
    requires 0 < |pat| <= 0xFFFF && n < |buffer| && n < 0x1_0000
    ensures Hit(h, buffer, pat, n) <==> Window(h + buffer[..n + 1], |pat|) == pat
  {
    hide Window, Fed, ToU16, Hit;
    FedPlain(buffer, n + 1);
    HitFed(h, buffer, pat, n);
  }

  /** Turns without a hit, before the index wraps, extend the part of the file without a match. */
  lemma {:induction false} NoHitNone(s: bytes, base: nat, buffer: bytes, pat: CString, n: nat)
    requires base + |buffer| <= |s| && s[base..base + |buffer|] == buffer
    requires 0 < |pat| <= 0xFFFF && n <= |buffer| && n <= 0x1_0000
    requires NoneWithin(s, pat, base) && NoHit(s[..base], buffer, pat, n)
    ensures NoneWithin(s, pat, base + n)
  {
    hide Hit, OccursAt, NoneWithin;
    if n > 0 {
      NoHitNone(s, base, buffer, pat, n - 1);
      HitIsOccurrence(s, base, buffer, pat, n - 1);
      ExtendNoneWithin(s, pat, base + n - 1);
    }
  }

  /** What comes up in a scan that has gone round once with the pattern's length to spare came up a round earlier. */
  lemma HitRecurs(h: bytes, buffer: bytes, pat: CString, n: nat)
    requires |buffer| > 0xFFFF && 0 < |pat| <= 0xFFFF && n >= 0x1_0000 + |pat| - 1
    ensures Hit(h, buffer, pat, n) <==> Hit(h, buffer, pat, n - 0x1_0000)
  {
    hide Window, Fed, ToU16, Hit;
    var m, k := |pat|, n - 0x1_0000;
    var a, b := Fed(buffer, n + 1), Fed(buffer, k + 1);
    HitFed(h, buffer, pat, n);
    HitFed(h, buffer, pat, k);
    forall p | 0 <= p < k + 1
      ensures b[p] == a[p + 0x1_0000]
    {
      FedAt(buffer, n + 1, p + 0x1_0000);
      FedAt(buffer, k + 1, p);
      WrapStep(p);
    }
    SameTail(h, a, b, m);
  }

  /** Up to 65535 bytes the window is as wide as the pattern. */
  lemma HitFed(h: bytes, buffer: bytes, pat: CString, n: nat)
    requires InScan(buffer, n + 1) && 0 < |pat| <= 0xFFFF
    ensures Hit(h, buffer, pat, n) <==> Window(h + Fed(buffer, n + 1), |pat|) == pat
  {
    hide Window, Fed, ToU16;
    WrapStep(|pat|);
  }

  lemma SameTail(h: bytes, a: bytes, b: bytes, m: nat)
    requires m <= |b| && |a| == |b| + 0x1_0000 && forall p :: 0 <= p < |b| ==> b[p] == a[p + 0x1_0000]
    ensures Window(h + a, m) == Window(h + b, m)
  {
    assert (h + a)[|h + a| - m..] == a[|a| - m..];
    assert (h + b)[|h + b| - m..] == b[|b| - m..];
  }

  lemma {:induction false} HitEarly(h: bytes, buffer: bytes, pat: CString, n: nat) returns (k: nat)
    requires |buffer| > 0xFFFF && 0 < |pat| <= 0xFFFF && Hit(h, buffer, pat, n)
    ensures k <= n && k < 0x1_0000 + |pat| - 1 && Hit(h, buffer, pat, k)
    decreases n
  {
    k := n;
    if n >= 0x1_0000 + |pat| - 1 {
      HitRecurs(h, buffer, pat, n);
      k := HitEarly(h, buffer, pat, n - 0x1_0000);
    }
  }

  /**
   When the scan of a chunk ends: if the chunk has at most 65535 bytes, or the pattern comes up before
   the index has gone round once and a pattern's length further; otherwise never.
   */
  lemma ScanEndsExactly(h: bytes, buffer: bytes, pat: CString)
    requires 0 < |pat| <= 0xFFFF
    ensures ScanEnds(h, buffer, pat) <==>
            |buffer| <= 0xFFFF || exists n: nat :: n < 0x1_0000 + |pat| - 1 && Hit(h, buffer, pat, n)
  {
    if |buffer| > 0xFFFF && exists n: nat :: Hit(h, buffer, pat, n) {
      var n: nat :| Hit(h, buffer, pat, n);
      var k := HitEarly(h, buffer, pat, n);
    }
  }

  /** When the index of a hit is right: an occurrence ends there if and only if the index had not wrapped. */
  lemma HitIsRight(s: bytes, base: nat, buffer: bytes, pat: CString, turns: nat)
    requires base + |buffer| <= |s| && s[base..base + |buffer|] == buffer && 0 < |pat| <= 0xFFFF
    requires InScan(buffer, turns + 1) && Hit(s[..base], buffer, pat, turns) && NoHit(s[..base], buffer, pat, turns)
    ensures base + ToU16(turns) + 1 >= |pat| && OccursAt(s, pat, base + ToU16(turns) + 1 - |pat|) <==> turns < 0x1_0000
  {
    hide Hit, OccursAt;
    assert InScan(buffer, ToU16(turns) + 1);
    HitIsOccurrence(s, base, buffer, pat, ToU16(turns));
  }

  /** A chunk of 65536 bytes that ends in 1 and begins with 2: the scan for 1, 2 reports a match that is not there. */
  lemma FalseMatch() returns (s: bytes, pat: CString)
    ensures |s| == 0x1_0000 && NextOccurrence(s, pat, 0).None?
    ensures Hit([], s, pat, 0x1_0000) && NoHit([], s, pat, 0x1_0000)
  {
    pat := [1, 2];
    s := [2] + Zeros(0xFFFE) + [1];
    forall i: nat | i + 2 <= |s|
      ensures !OccursAt(s, pat, i)
    {
      assert s[i..i + 2][1] == s[i + 1];
    }
    NoOccurrence(s, pat);
    hide Hit, Zeros;
    assert s[..0] == [] && s[0..0 + |s|] == s;
    forall k: nat | k < 0x1_0000
      ensures !Hit([], s, pat, k)
    {
      HitIsOccurrence(s, 0, s, pat, k);
    }
    WrapAround(s, pat);
  }

  lemma WrapAround(s: bytes, pat: CString)
    requires |s| == 0x1_0000 && s[0xFFFF] == 1 && s[0] == 2 && pat == [1, 2]
    ensures Hit([], s, pat, 0x1_0000)
  {
    var f := Fed(s, 0x1_0001);
    FedAt(s, 0x1_0001, 0xFFFF);
    FedAt(s, 0x1_0001, 0x1_0000);
    hide Fed;
    assert [] + f == f;
    assert f[0xFFFF..] == [1, 2];
  }

  /** The readback function asked to continue after each of the first `n` chunks. */
  ghost predicate Continued(cb: seq<bytes> -> bool, delivered: seq<bytes>, n: nat)
    requires n <= |delivered|
  {
    forall k :: 0 < k <= n ==> cb(delivered[..k])
  }

  lemma ContinuedAppend(cb: seq<bytes> -> bool, delivered: seq<bytes>, c: bytes)
    requires Continued(cb, delivered, |delivered|)
    ensures Continued(cb, delivered + [c], |delivered|)
    ensures cb(delivered + [c]) ==> Continued(cb, delivered + [c], |delivered| + 1)
  {
    forall k | 0 < k <= |delivered| ensures cb((delivered + [c])[..k]) {
      assert (delivered + [c])[..k] == delivered[..k];
    }
    assert (delivered + [c])[..|delivered| + 1] == delivered + [c];
  }

  /** Chunks of at most `size` bytes, none of them empty and the first `full` of them of that size. */
  ghost predicate Shaped(delivered: seq<bytes>, size: nat, full: int) {
    && (forall k :: 0 <= k < |delivered| ==> 0 < |delivered[k]| <= size)
    && (forall k :: 0 <= k < full && k < |delivered| ==> |delivered[k]| == size)
  }

  lemma ShapedAppend(delivered: seq<bytes>, size: nat, c: bytes)
    requires Shaped(delivered, size, |delivered|) && 0 < |c| <= size
    ensures Shaped(delivered + [c], size, |delivered|)
    ensures |c| == size ==> Shaped(delivered + [c], size, |delivered| + 1)
  {
  }

  lemma ShapedLess(delivered: seq<bytes>, size: nat, full: int, less: int)
    requires Shaped(delivered, size, full) && less <= full
    ensures Shaped(delivered, size, less)
  {
  }

  /** What a read of the bytes `s` that follow the offset has delivered and returned. */
  ghost predicate ReadOutcome(s: bytes, size: nat, cb: seq<bytes> -> bool, pat: CString,
                              ret: int, delivered: seq<bytes>, matched: bool)
  {
    // chunks: full-sized but for the last, contiguous from the offset, offered until one is declined
    && Shaped(delivered, size, |delivered| - if ret < 0 then 0 else 1)
    && (delivered == [] || Continued(cb, delivered, |delivered| - 1))
    && |Flatten(delivered)| <= |s| && Flatten(delivered) == s[..|Flatten(delivered)|]
    && NoneWithin(s, pat, |Flatten(delivered)|)
    && (if ret >= 0 then |Flatten(delivered)| == ret else |Flatten(delivered)| < |s|)
    // a match: the return value indexes the last byte of the first occurrence
    && (matched ==> ret >= 0 && pat != [] && ret + 1 >= |pat|
                    && NextOccurrence(s, pat, 0) == Some(ret + 1 - |pat|))
    // no match: everything was delivered, or the readback function stopped the read
    && (ret >= 0 && !matched ==>
          || (ret == |s| && NextOccurrence(s, pat, 0).None?)
          || (delivered != [] && !cb(delivered)))
  }

  /** The state of a read between two chunks, `n` bytes after the offset. */
  ghost predicate Progress(s: bytes, size: nat, cb: seq<bytes> -> bool, pat: CString, delivered: seq<bytes>, n: nat) {
    && n <= |s| && Flatten(delivered) == s[..n] && NoneWithin(s, pat, n)
    && Shaped(delivered, size, |delivered| - if n < |s| then 0 else 1)
    && Continued(cb, delivered, |delivered|)
  }

  /** A chunk without a match is handed over; the read goes on or has been stopped. */
  lemma Deliver(s: bytes, size: nat, cb: seq<bytes> -> bool, pat: CString, delivered: seq<bytes>, n: nat, chunk: bytes)
    requires size > 0 && n < |s| && Progress(s, size, cb, pat, delivered, n)
    requires chunk == ChunkAt(s, size, n) && NoneWithin(s, pat, n + |chunk|)
    ensures cb(delivered + [chunk]) ==> Progress(s, size, cb, pat, delivered + [chunk], n + |chunk|)
    ensures !cb(delivered + [chunk]) ==> ReadOutcome(s, size, cb, pat, n + |chunk|, delivered + [chunk], false)
  {
    FlattenAppend(delivered, chunk);
    ContinuedAppend(cb, delivered, chunk);
    ShapedAppend(delivered, size, chunk);
    hide Shaped, Continued, Flatten;
  }

  /** A match inside a chunk: what precedes the completing byte is handed over, if anything does. */
  lemma DeliverMatch(s: bytes, size: nat, cb: seq<bytes> -> bool, pat: CString, delivered: seq<bytes>, n: nat, chunk: bytes, hit: nat)
    requires n < |s| && Progress(s, size, cb, pat, delivered, n)
    requires chunk == ChunkAt(s, size, n) && hit < |chunk| && pat != []
    requires n + hit + 1 >= |pat| && OccursAt(s, pat, n + hit + 1 - |pat|) && NoneWithin(s, pat, n + hit)
    ensures ReadOutcome(s, size, cb, pat, n + hit,
                        if hit > 0 then delivered + [chunk[..hit]] else delivered, true)
  {
    FirstOccurrence(s, pat, n + hit + 1 - |pat|);
    ShapedLess(delivered, size, |delivered|, |delivered| - 1);
    if hit > 0 {
      FlattenAppend(delivered, chunk[..hit]);
      ContinuedAppend(cb, delivered, chunk[..hit]);
      ShapedAppend(delivered, size, chunk[..hit]);
    }
    hide Shaped, Flatten, OccursAt, NextOccurrence;
  }

  /** Every byte has been handed over. */
  lemma Finish(s: bytes, size: nat, cb: seq<bytes> -> bool, pat: CString, delivered: seq<bytes>)
    requires Progress(s, size, cb, pat, delivered, |s|)
    ensures ReadOutcome(s, size, cb, pat, |s|, delivered, false)
  {
    NoOccurrence(s, pat);
  }

  /** A failed read ends the operation with what has been handed over so far. */
  lemma Fail(s: bytes, size: nat, cb: seq<bytes> -> bool, pat: CString, delivered: seq<bytes>, n: nat, code: int)
    requires code < 0 && n < |s| && Progress(s, size, cb, pat, delivered, n)
    ensures ReadOutcome(s, size, cb, pat, code, delivered, false)
  {
  }

  /** The chunk that starts `n` bytes after the offset. */
  function ChunkAt(s: bytes, size: nat, n: nat): bytes
    requires n <= |s|
  {
    s[n..n + Min(size, |s| - n)]
  }

  /** A read ends: its chunks are not too long for the scan index, or the scan of the first one ends all the same. */
  ghost predicate ReadEnds(s: bytes, size: nat, pat: CString) {
    Width(pat) == 0 || ScanEnds([], ChunkAt(s, size, 0), pat)
  }

  /** A read is right: its chunks are not too long for the scan index, or the first match ends within 65536 bytes. */
  predicate ReadRight(s: bytes, size: nat, pat: CString) {
    || Width(pat) == 0 || Min(size, |s|) <= 0xFFFF
    || (NextOccurrence(s, pat, 0).Some? && NextOccurrence(s, pat, 0).value + |pat| <= 0x1_0000)
  }

  /** A right answer in a long chunk is the scan's own, before its index wraps. */
  lemma RightHit(s: bytes, size: nat, pat: CString) returns (k: nat)
    requires ReadRight(s, size, pat) && 0 < |pat| <= 0xFFFF && |ChunkAt(s, size, 0)| > 0xFFFF
    ensures k < 0x1_0000 && Hit([], ChunkAt(s, size, 0), pat, k)
  {
    var chunk := ChunkAt(s, size, 0);
    var i := NextOccurrence(s, pat, 0).value;
    LeastOccurrence(s, pat, 0, i);
    WrapStep(|pat|);
    assert s[..0] == [];
    hide Hit, OccursAt, NextOccurrence;
    k := i + |pat| - 1;
    HitIsOccurrence(s, 0, chunk, pat, k);
  }

  /** A right answer is always reached. */
  lemma RightEnds(s: bytes, size: nat, pat: CString)
    requires ReadRight(s, size, pat) && |pat| <= 0xFFFF
    ensures ReadEnds(s, size, pat)
  {
    if Width(pat) > 0 && |ChunkAt(s, size, 0)| > 0xFFFF {
      var k := RightHit(s, size, pat);
    }
  }

  lemma HitOutcome(s: bytes, size: nat, cb: seq<bytes> -> bool, pat: CString, delivered: seq<bytes>, n: nat, turns: nat)
    requires size > 0 && n < |s| && Progress(s, size, cb, Findable(pat), delivered, n)
    requires Width(pat) > 0 && (n > 0 ==> Min(size, |s|) <= 0xFFFF)
    requires var chunk := ChunkAt(s, size, n);
             InScan(chunk, turns + 1) && Hit(s[..n], chunk, pat, turns) && NoHit(s[..n], chunk, pat, turns)
    ensures var chunk, hit := ChunkAt(s, size, n), ToU16(turns);
            && hit < |chunk|
            && (ReadRight(s, size, pat) ==>
                  ReadOutcome(s, size, cb, Findable(pat), n + hit, if hit > 0 then delivered + [chunk[..hit]] else delivered, true))
            && (!ReadRight(s, size, pat) ==> n == 0)
  {
    var chunk := ChunkAt(s, size, n);
    assert |pat| == Width(pat);
    assert NoneWithin(s, pat, n);
    assert n == 0 ==> s[..n] == [];
    hide Hit, NoneWithin, OccursAt, ReadOutcome, Progress, NextOccurrence;
    WrapStep(turns);
    IndexBound(turns);
    IndexBound(|pat|);
    if turns < 0x1_0000 {
      HitIsOccurrence(s, n, chunk, pat, turns);
      NoHitNone(s, n, chunk, pat, turns);
      DeliverMatch(s, size, cb, pat, delivered, n, chunk, turns);
    } else if ReadRight(s, size, pat) {
      var k := RightHit(s, size, pat);
      assert false;
    }
  }

  lemma MissOutcome(s: bytes, size: nat, pat: CString, n: nat)
    requires n < |s| && Width(pat) > 0 && NoneWithin(s, Findable(pat), n)
    requires var chunk := ChunkAt(s, size, n); |chunk| <= 0xFFFF && NoHit(s[..n], chunk, pat, |chunk|)
    ensures NoneWithin(s, Findable(pat), n + |ChunkAt(s, size, n)|)
  {
    if |pat| <= 0xFFFF {
      NoHitNone(s, n, ChunkAt(s, size, n), pat, |ChunkAt(s, size, n)|);
    }
  }

  /** The end of a read: a right answer, or a match that is not there. */
  ghost predicate Ended(s: bytes, size: nat, cb: seq<bytes> -> bool, pat: CString,
                        ret: nat, delivered: seq<bytes>, matched: bool)
  {
    if ReadRight(s, size, pat) then ReadOutcome(s, size, cb, Findable(pat), ret, delivered, matched)
    else matched && NextOccurrence(s, pat, 0) != Some(ret + 1 - |pat|)
  }

  /** Only chunks that the scan index can leave are followed by another. */
  predicate GoesFurther(s: bytes, size: nat, pat: CString, n: nat) {
    n > 0 ==> Width(pat) == 0 || Min(size, |s|) <= 0xFFFF
  }

  lemma MatchEnds(s: bytes, size: nat, cb: seq<bytes> -> bool, pat: CString, delivered: seq<bytes>, n: nat, turns: nat)
    requires size > 0 && n < |s| && Progress(s, size, cb, Findable(pat), delivered, n)
    requires Width(pat) > 0 && GoesFurther(s, size, pat, n)
    requires var chunk := ChunkAt(s, size, n);
             InScan(chunk, turns + 1) && Hit(s[..n], chunk, pat, turns) && NoHit(s[..n], chunk, pat, turns)
    ensures var chunk, hit := ChunkAt(s, size, n), ToU16(turns);
            hit < |chunk| && Ended(s, size, cb, pat, n + hit, if hit > 0 then delivered + [chunk[..hit]] else delivered, true)
  {
    hide ReadOutcome, Progress, Hit, NoHit;
    HitOutcome(s, size, cb, pat, delivered, n, turns);
    IndexBound(turns);
  }

  lemma ChunkDone(s: bytes, size: nat, cb: seq<bytes> -> bool, pat: CString, delivered: seq<bytes>, n: nat)
    requires size > 0 && n < |s| && Progress(s, size, cb, Findable(pat), delivered, n) && GoesFurther(s, size, pat, n)
    requires var chunk := ChunkAt(s, size, n);
             NoneWithin(s, Findable(pat), n + |chunk|) && (Width(pat) == 0 || |chunk| <= 0xFFFF)
    ensures var chunk := ChunkAt(s, size, n); var more := delivered + [chunk];
            && n < n + |chunk| <= |s| && GoesFurther(s, size, pat, n + |chunk|)
            && (cb(more) ==> Progress(s, size, cb, Findable(pat), more, n + |chunk|))
            && (!cb(more) ==> Ended(s, size, cb, pat, n + |chunk|, more, false))
  {
    hide ReadOutcome, Progress, NoneWithin;
    Deliver(s, size, cb, Findable(pat), delivered, n, ChunkAt(s, size, n));
  }

  lemma ChunkFacts(s: bytes, size: nat, cb: seq<bytes> -> bool, pat: CString, delivered: seq<bytes>, n: nat)
    requires n < |s| && Progress(s, size, cb, Findable(pat), delivered, n)
    ensures var chunk := ChunkAt(s, size, n);
            && n + |chunk| <= |s| && s[..n] + chunk == s[..n + |chunk|]
            && NoneWithin(s, Findable(pat), n) && (Width(pat) == 0 ==> NoneWithin(s, Findable(pat), n + |chunk|))
  {
  }

  /** One turn of the read loop on the chunk that starts `n` bytes after the offset. */
  method ReadChunk(s: bytes, size: nat, cb: seq<bytes> -> bool, pat: CString, window: array<byte>,
                   delivered: seq<bytes>, n: nat)
    returns (done: bool, ret: nat, delivered': seq<bytes>, matched: bool)
    requires size > 0 && n < |s| && Progress(s, size, cb, Findable(pat), delivered, n) && GoesFurther(s, size, pat, n)
    requires Width(pat) > 0 ==> Shifted(window, Width(pat), s[..n]) && ScanEnds(s[..n], ChunkAt(s, size, n), pat)
    modifies window
    ensures done ==> Ended(s, size, cb, pat, ret, delivered', matched)
    ensures !done ==> n < ret <= |s| && !matched && GoesFurther(s, size, pat, ret)
    ensures !done ==> Progress(s, size, cb, Findable(pat), delivered', ret)
    ensures !done && Width(pat) > 0 ==> Shifted(window, Width(pat), s[..ret])
    ensures Width(pat) == 0 ==> |delivered'| == |delivered| + 1
  {
    hide *;
    var m := Width(pat);
    var chunk := ChunkAt(s, size, n);
    ChunkFacts(s, size, cb, pat, delivered, n);
    if m > 0 {
      var hit, turns := ScanChunk(window, m, chunk, pat, s[..n]);
      if hit >= 0 {
        MatchEnds(s, size, cb, pat, delivered, n, turns);
        return true, n + hit, if hit > 0 then delivered + [chunk[..hit]] else delivered, true;
      }
      MissOutcome(s, size, pat, n);
    }
    ChunkDone(s, size, cb, pat, delivered, n);
    delivered' := delivered + [chunk];
    return !cb(delivered'), n + |chunk|, delivered', false;
  }

  lemma NextScanEnds(s: bytes, size: nat, pat: CString, n: nat)
    requires n <= |s| && GoesFurther(s, size, pat, n) && ReadEnds(s, size, pat) && Width(pat) > 0
    ensures ScanEnds(s[..n], ChunkAt(s, size, n), pat)
  {
    assert s[..0] == [];
    hide Hit;
  }

  /**
   `readFile`, wherever its scans end. The answer is right exactly when the chunks are not too long for
   the scan index or the first match ends within 65536 bytes; any other answer is a match that is not there.
   */
  method ReadFile(e: Entry, size: nat, cb: seq<bytes> -> bool, offset: nat, pat: CString,
                  faults: Faults, t: nat)
    returns (ret: int, delivered: seq<bytes>, matched: bool, t': nat)
    requires size > 0 && (e.Present? ==> ReadEnds(Rest(e.data, offset), size, pat))
    ensures t <= t'
    ensures e.Absent? ==> ret == e.code && delivered == [] && !matched && t' == t
    ensures e.Present? ==>
              var s := Rest(e.data, offset);
              && (s != [] ==> t < t')
              && (ret < 0 || ReadRight(s, size, pat) ==> ReadOutcome(s, size, cb, Findable(pat), ret, delivered, matched))
              && (ret >= 0 && !ReadRight(s, size, pat) ==> matched && NextOccurrence(s, pat, 0) != Some(ret + 1 - |pat|))
    ensures e.Present? && ret >= 0 ==> NoFault(faults, t, t')
    ensures e.Present? && ret < 0 ==> !matched && ErrorAt(faults, t, t', ret)
    ensures e.Present? && Width(pat) == 0 ==> t' == t + |delivered| + if ret < 0 then 1 else 0
  {
    if e.Absent? {
      return e.code, [], false, t;
    }
    var s := Rest(e.data, offset);
    ret, delivered, matched, t' := ReadRest(s, size, cb, pat, faults, t);
    hide *;
  }

  lemma BeginRead(s: bytes, size: nat, cb: seq<bytes> -> bool, pat: CString, faults: Faults, t: nat)
    ensures Progress(s, size, cb, Findable(pat), [], 0) && GoesFurther(s, size, pat, 0) && NoFault(faults, t, t) && s[..0] == []
  {
  }

  /** The read loop, over the bytes that follow the offset. */
  method ReadRest(s: bytes, size: nat, cb: seq<bytes> -> bool, pat: CString, faults: Faults, t: nat)
    returns (ret: int, delivered: seq<bytes>, matched: bool, t': nat)
    requires size > 0 && ReadEnds(s, size, pat)
    ensures t <= t' && (s != [] ==> t < t')
    ensures ret >= 0 ==> NoFault(faults, t, t') && Ended(s, size, cb, pat, ret, delivered, matched)
    ensures ret < 0 ==> ReadOutcome(s, size, cb, Findable(pat), ret, delivered, matched)
    ensures ret < 0 ==> !matched && ErrorAt(faults, t, t', ret)
    ensures Width(pat) == 0 ==> t' == t + |delivered| + if ret < 0 then 1 else 0
  {
    ret, t', delivered, matched := 0, t, [], false;
    var m := Width(pat);
    var window := new byte[m + 1](_ => 0);
    var done := false;
    BeginRead(s, size, cb, pat, faults, t);
    assert Shifted(window, m, []);
    hide *;
    while ret < |s| && !done
      invariant 0 <= ret && t <= t' && NoFault(faults, t, t') && (ret > 0 || done ==> t < t')
      invariant done ==> Ended(s, size, cb, pat, ret, delivered, matched)
      invariant !done ==> ret <= |s| && !matched && GoesFurther(s, size, pat, ret)
      invariant !done ==> Progress(s, size, cb, Findable(pat), delivered, ret)
      invariant !done && m > 0 ==> Shifted(window, m, s[..ret])
      invariant m == 0 ==> t' == t + |delivered|
      decreases !done, |s| - ret
    {
      t' := t' + 1;
      NoFaultStep(faults, t, t');
      if faults(t' - 1) < 0 {
        EndsInError(faults, t, t');
        Fail(s, size, cb, Findable(pat), delivered, ret, faults(t' - 1));
        return faults(t' - 1), delivered, false, t';
      }
      if m > 0 {
        NextScanEnds(s, size, pat, ret);
      }
      done, ret, delivered, matched := ReadChunk(s, size, cb, pat, window, delivered, ret);
    }
    if !done {
      AllRead(s, size, cb, pat, delivered);
    }
  }

  lemma AllRead(s: bytes, size: nat, cb: seq<bytes> -> bool, pat: CString, delivered: seq<bytes>)
    requires Progress(s, size, cb, Findable(pat), delivered, |s|) && GoesFurther(s, size, pat, |s|)
    ensures Ended(s, size, cb, pat, |s|, delivered, false)
  {
    Finish(s, size, cb, Findable(pat), delivered);
    hide ReadOutcome, Progress;
  }

  /** The bytes from an offset on. */
  function Rest(data: bytes, offset: nat): bytes { data[Min(offset, |data|)..] }

  lemma EndsInError(faults: Faults, t: nat, t': nat)
    requires t < t' && NoFault(faults, t, t' - 1) && faults(t' - 1) < 0
    ensures ErrorAt(faults, t, t', faults(t' - 1))
  {
  }

  lemma NoFaultStep(faults: Faults, t: nat, t': nat)
    requires t < t'
    ensures NoFault(faults, t, t') <==> NoFault(faults, t, t' - 1) && faults(t' - 1) >= 0
  {
  }

  /** Chunks of at most 65535 bytes always end and are always right. */
  lemma SmallChunks(s: bytes, size: nat, pat: CString)
    requires size <= 0xFFFF || |s| <= 0xFFFF
    ensures ReadEnds(s, size, pat) && ReadRight(s, size, pat)
  {
  }
}
