/**
 Search for the occurrences of a string in a file (`findInFile`): every one of them or every
 n-th one, from the front or counted from the end.
 */
module FileSearch {
  import opened Pattern
  import opened FileReader
  import opened Words

  /** C's `%`: the result has the sign of the dividend. */
  function CRem(a: int, b: int): int
    requires b > 0
  {
    if a >= 0 then a % b else -((-a) % b)
  }

  /** The index vector after pushing `x`, evicting the oldest entry when `keep` are already held. */
  function Push(v: seq<nat>, x: nat, keep: nat): seq<nat> {
    (if keep > 0 && |v| >= keep then v[1..] else v) + [x]
  }

  /**
   The index vector and the next count to push at, after all of `occ` has been found. The
   first push is at count `first`, then at every `step` counts; `keep == 0` means no eviction.
   */
  function Picked(occ: seq<nat>, first: int, step: int, keep: nat): (seq<nat>, int) {
    if occ == [] then ([], first)
    else
      var n := |occ|;
      var (v, next) := Picked(occ[..n - 1], first, step, keep);
      if n == next then (Push(v, occ[n - 1], keep), next + step) else (v, next)
  }

  function Indices(occ: seq<nat>, first: int, step: int, keep: nat): seq<nat> {
    Picked(occ, first, step, keep).0
  }

  /** The count at which the `m`-th push (from 0) happens. */
  function Slot(first: int, step: int, m: nat): int { first + m * step }

  lemma SlotNext(first: int, step: int, m: nat)
    ensures Slot(first, step, m + 1) == Slot(first, step, m) + step
  {
    assert (m + 1) * step == m * step + step;
  }

  /** `v` holds exactly the occurrences at counts `first`, `first + step`, ..., and `next` is the count due after them. */
  ghost predicate EveryStep(occ: seq<nat>, first: int, step: int, v: seq<nat>, next: int) {
    && next == Slot(first, step, |v|) && |occ| < next
    && (v != [] ==> next - step <= |occ|)
    && forall m :: 0 <= m < |v| ==>
         1 <= Slot(first, step, m) <= |occ| && v[m] == occ[Slot(first, step, m) - 1]
  }

  lemma {:induction false} PickedShape(occ: seq<nat>, first: int, step: int)
    requires first >= 1 && step >= 1
    ensures EveryStep(occ, first, step, Picked(occ, first, step, 0).0, Picked(occ, first, step, 0).1)
  {
    if occ != [] {
      var init := occ[..|occ| - 1];
      PickedShape(init, first, step);
      SlotNext(first, step, |Indices(init, first, step, 0)|);
    }
  }

  /** The last push is one step before the next one due. */
  lemma LastStep(occ: seq<nat>, first: int, step: int, v: seq<nat>, next: int)
    requires step >= 1 && EveryStep(occ, first, step, v, next)
    ensures v == [] ==> next == first
    ensures v != [] ==> 1 <= next - step <= |occ| && v[|v| - 1] == occ[next - step - 1]
  {
    if v != [] {
      SlotNext(first, step, |v| - 1);
    }
  }

  /** Nothing is ever pushed when the first push is due at a count below one. */
  lemma {:induction false} PickedNothing(occ: seq<nat>, first: int, step: int, keep: nat)
    requires first < 1
    ensures Picked(occ, first, step, keep) == ([], first)
  {
    if occ != [] {
      PickedNothing(occ[..|occ| - 1], first, step, keep);
    }
  }

  function Last(v: seq<nat>, keep: nat): seq<nat> {
    if keep > 0 && |v| > keep then v[|v| - keep..] else v
  }

  lemma LastPush(v: seq<nat>, x: nat, keep: nat)
    ensures Push(Last(v, keep), x, keep) == Last(Push(v, x, 0), keep)
  {
  }

  /** Evicting the oldest on every push past `keep` leaves the last `keep` of all pushes. */
  lemma {:induction false} EvictionKeepsLast(occ: seq<nat>, first: int, step: int, keep: nat)
    ensures Picked(occ, first, step, keep) ==
            (Last(Indices(occ, first, step, 0), keep), Picked(occ, first, step, 0).1)
  {
    if occ != [] {
      EvictionKeepsLast(occ[..|occ| - 1], first, step, keep);
      LastPush(Indices(occ[..|occ| - 1], first, step, 0), occ[|occ| - 1], keep);
    }
  }

  lemma MulAtLeast(k: nat, n: nat)
    requires k >= 1
    ensures k * n >= n
  {
    assert k * n == (k - 1) * n + n;
  }

  lemma SameMultiple(a: nat, b: nat, n: nat)
    requires b * n < a * n + n && a * n < b * n + n
    ensures a == b
  {
    if a > b {
      assert a * n == (a - b) * n + b * n;
      MulAtLeast(a - b, n);
    } else if a < b {
      assert b * n == (b - a) * n + a * n;
      MulAtLeast(b - a, n);
    }
  }

  /** The phase makes the push due right after the last occurrence land at the total count plus one. */
  lemma PhaseSlot(total: nat, n: nat, k: nat)
    requires n >= 1
    requires total < Slot(total % n + 1, n, k) <= total + n
    ensures Slot(total % n + 1, n, k) == total + 1
  {
    var q := total / n;
    assert total == q * n + total % n;
    SameMultiple(k, q, n);
  }

  /** The n-th occurrence counted from the end, if there are so many. */
  function NthLast(occ: seq<nat>, n: nat): seq<nat>
    requires n >= 1
  {
    if |occ| >= n then [occ[|occ| - n]] else []
  }

  /**
   Selecting from the end: with the phase computed from the total count, the last push is the
   n-th occurrence counted from the end, and there is none when there are fewer than n.
   */
  lemma NthFromEnd(occ: seq<nat>, n: nat)
    requires n >= 1
    ensures Indices(occ, |occ| % n + 1, n, 1) == NthLast(occ, n)
  {
    var first := |occ| % n + 1;
    var (v, next) := Picked(occ, first, n, 0);
    PickedShape(occ, first, n);
    EvictionKeepsLast(occ, first, n, 1);
    LastStep(occ, first, n, v, next);
    hide Picked;
    if v != [] {
      assert next == Slot(first, n, |v|);
      PhaseSlot(|occ|, n, |v|);
    }
  }

  /** One read of the search loop: a read up to the match string with a readback that never stops it. */
  method NextMatch(e: Entry, chunk: nat, raw: CString, from: nat, faults: Faults, t: nat)
    returns (ret: int, matched: bool, t': nat)
    requires 0 < chunk <= 0xFFFF
    ensures t <= t' && (e.Present? ==> if ret < 0 then ErrorAt(faults, t, t', ret) else NoFault(faults, t, t'))
    ensures e.Present? && from < |e.data| ==> t < t'
    ensures e.Present? && ret >= 0 ==>
              match NextOccurrence(e.data, Findable(raw), from)
              case Some(i) => matched && from + ret + 1 == i + |Findable(raw)|
              case None => !matched && from + ret >= |e.data|
  {
    var delivered;
    if e.Present? {
      SmallChunks(Rest(e.data, from), chunk, raw);
    }
    ret, delivered, matched, t' := ReadFile(e, chunk, _ => true, from, raw, faults, t);
    if e.Present? && from <= |e.data| {
      ShiftOccurrence(e.data, Findable(raw), from, 0);
    }
  }

  /** The occurrences a search from `offset` runs through; a negative offset bounds it from the front. */
  function Searched(s: bytes, pat: CString, offset: int): seq<nat> {
    if offset >= 0 then Greedy(s, pat, offset, |s|) else Greedy(s, pat, 0, -offset)
  }

  /** The index limit as the loop uses it. */
  function EffectiveMax(maxIndices: int, everyNth: int): int {
    if maxIndices > 0 && everyNth > 1 then maxIndices / everyNth else maxIndices
  }

  /** Eviction happens only in a search from the end under a positive limit. */
  function Keep(offset: int, max: int): nat {
    if offset < 0 && max > 0 then max else 0
  }

  /** What the loop compares with the limit: the vector's size, or the count when there is no vector. */
  function Progressed(occ: seq<nat>, first: int, step: int, keep: nat, collect: bool): nat {
    if collect then |Indices(occ, first, step, keep)| else |occ|
  }

  /** The search goes on after `n` occurrences: it has no limit, or the limit is not reached. */
  predicate GoesOn(occ: seq<nat>, first: int, step: int, offset: int, max: int, collect: bool) {
    max < 0 || offset < 0 || Progressed(occ, first, step, Keep(offset, max), collect) < max
  }

  /** `n` occurrences were found: all there are, or as many as it takes to reach the limit. */
  ghost predicate StopsAt(occ: seq<nat>, n: nat, first: int, step: int, offset: int, max: int, collect: bool) {
    && n <= |occ|
    && (n < |occ| ==> n > 0 && !GoesOn(occ[..n], first, step, offset, max, collect))
    && forall k :: 0 < k < n ==> GoesOn(occ[..k], first, step, offset, max, collect)
  }

  /** Where a search stands: `n` of the occurrences are behind, the rest start at `at` or later. */
  ghost predicate Standing(s: bytes, pat: CString, limit: nat, occ: seq<nat>, n: nat, at: nat) {
    n <= |occ| && occ[n..] == Greedy(s, pat, at, limit) && (at <= limit || n == |occ|)
  }

  /** One read of the loop advances past exactly the next occurrence, or finds there is none. */
  lemma Advance(s: bytes, pat: CString, limit: nat, occ: seq<nat>, n: nat, at: nat)
    requires Standing(s, pat, limit, occ, n, at) && (at <= limit || |s| <= limit)
    ensures match NextOccurrence(s, pat, at)
            case Some(i) => n < |occ| && occ[n] == i
                            && occ[n + 1..] == Greedy(s, pat, i + |pat|, limit)
                            && (i + |pat| <= limit ==> Standing(s, pat, limit, occ, n + 1, i + |pat|))
                            && (i + |pat| >= |s| || i + |pat| > limit ==> n + 1 == |occ|)
            case None => n == |occ|
  {
    hide OccursAt;
    var next := NextOccurrence(s, pat, at);
    if next.Some? {
      var i := next.value;
      assert occ[n..] == [i] + Greedy(s, pat, i + |pat|, limit);
      assert occ[n] == occ[n..][0];
      assert occ[n + 1..] == occ[n..][1..];
      assert NextOccurrence(s, pat, |s|).None?;
    }
  }

  /** The vector and the next push count after one more occurrence. */
  lemma PickedStep(occ: seq<nat>, n: nat, first: int, step: int, keep: nat)
    requires n < |occ|
    ensures Picked(occ[..n + 1], first, step, keep) ==
            var (v, next) := Picked(occ[..n], first, step, keep);
            if n + 1 == next then (Push(v, occ[n], keep), next + step) else (v, next)
  {
    assert occ[..n + 1][..n] == occ[..n];
  }

  /** A search request: the search string and the loop's fixed parameters. */
  datatype Request = Request(raw: CString, collect: bool, max: int, step: int, first: int, offset: int) {
    function Pat(): CString { Findable(raw) }
    function Occ(s: bytes): seq<nat> { Searched(s, Pat(), offset) }
    function Limit(s: bytes): nat { if offset >= 0 then |s| else -offset }
    function Kept(): nat { Keep(offset, max) }
    function PickedOf(occ: seq<nat>): (seq<nat>, int) { Picked(occ, first, step, Kept()) }
    predicate Continues(occ: seq<nat>) { GoesOn(occ, first, step, offset, max, collect) }
  }

  /** The loop's variables: position, count, next push, index vector and chunk size. */
  datatype Search = Search(at: nat, found: nat, next: int, indices: seq<nat>, chunk: nat)

  /** The vector, the next push count and the count agree with the occurrences left behind. */
  ghost predicate Tallied(q: Request, occ: seq<nat>, st: Search) {
    && st.found <= |occ|
    && q.PickedOf(occ[..st.found]).1 == st.next
    && st.indices == if q.collect then q.PickedOf(occ[..st.found]).0 else []
  }

  lemma SameTally(q: Request, occ: seq<nat>, st: Search, st': Search)
    requires Tallied(q, occ, st) && st'.(at := st.at, chunk := st.chunk) == st
    ensures Tallied(q, occ, st')
  {
  }

  /** Counts a match that ends at `at`, pushing its start when its turn has come. */
  method Tally(q: Request, st: Search, at: nat, ghost occ: seq<nat>) returns (st': Search)
    requires Tallied(q, occ, st) && st.found < |occ| && |q.Pat()| <= at && occ[st.found] == at - |q.Pat()|
    ensures Tallied(q, occ, st') && st'.found == st.found + 1 && st'.at == at && st'.chunk == st.chunk
  {
    PickedStep(occ, st.found, q.first, q.step, q.Kept());
    hide Picked, Push;
    st' := st.(at := at, found := st.found + 1);
    if st'.found == st'.next {
      if q.collect {
        st' := st'.(indices := Push(st'.indices, at - |q.Pat()|, q.Kept()));
      }
      st' := st'.(next := st'.next + q.step);
    }
  }

  /** The read of one turn, told in terms of the occurrences: it moves past the next one, if any. */
  method MoveOn(e: Entry, q: Request, st: Search, faults: Faults, t: nat)
    returns (error: int, matched: bool, at: nat, t': nat)
    requires e.Present? && 0 < st.chunk <= 250
    requires Standing(e.data, q.Pat(), q.Limit(e.data), q.Occ(e.data), st.found, st.at)
    requires q.offset < 0 ==> st.at <= -q.offset
    ensures t <= t' && (if error < 0 then ErrorAt(faults, t, t', error) else NoFault(faults, t, t')) && st.at < at
    ensures st.at < |e.data| ==> t < t'
    ensures error >= 0 && !matched ==> st.found == |q.Occ(e.data)| && at > |e.data|
    ensures error >= 0 && matched ==>
              && st.found < |q.Occ(e.data)| && |q.Pat()| <= at && q.Occ(e.data)[st.found] == at - |q.Pat()|
              && (at <= q.Limit(e.data) ==> Standing(e.data, q.Pat(), q.Limit(e.data), q.Occ(e.data), st.found + 1, at))
              && (at >= |e.data| || at > q.Limit(e.data) ==> st.found + 1 == |q.Occ(e.data)|)
  {
    Advance(e.data, q.Pat(), q.Limit(e.data), q.Occ(e.data), st.found, st.at);
    hide Greedy, Standing, Searched, OccursAt, NextOccurrence, NoFault, ErrorAt, Findable;
    error, matched, t' := NextMatch(e, st.chunk, q.raw, st.at, faults, t);
    at := if error < 0 then st.at + 1 else st.at + error + 1;
  }

  /** The limit test of the loop. */
  predicate UnderLimit(q: Request, st: Search) {
    q.max < 0 || q.offset < 0 || (if q.collect then |st.indices| else st.found) < q.max
  }

  /** One turn of the search loop; `go` is false when it ends. */
  method Turn(e: Entry, q: Request, st: Search, faults: Faults, t: nat)
    returns (error: int, st': Search, go: bool, t': nat)
    requires e.Present? && 0 < st.chunk <= 250
    requires Standing(e.data, q.Pat(), q.Limit(e.data), q.Occ(e.data), st.found, st.at)
    requires Tallied(q, q.Occ(e.data), st) && (q.offset < 0 ==> st.at <= -q.offset)
    ensures t <= t' && (if error < 0 then ErrorAt(faults, t, t', error) else NoFault(faults, t, t'))
    ensures st.at < |e.data| ==> t < t'
    ensures error >= 0 ==> Tallied(q, q.Occ(e.data), st') && st.found <= st'.found <= st.found + 1
    ensures error >= 0 && go ==>
              && Standing(e.data, q.Pat(), q.Limit(e.data), q.Occ(e.data), st'.found, st'.at)
              && 0 < st'.chunk <= 250 && (q.offset < 0 ==> st'.at <= -q.offset)
              && st.at < st'.at < |e.data| && st'.found == st.found + 1 && UnderLimit(q, st')
    ensures error >= 0 && !go ==>
              st'.found == |q.Occ(e.data)| || (st'.found == st.found + 1 && !UnderLimit(q, st'))
  {
    hide Standing, Searched, Tallied, NoFault, ErrorAt, Findable;
    var matched, at;
    error, matched, at, t' := MoveOn(e, q, st, faults, t);
    if error < 0 {
      return error, st, false, t';
    }
    if !matched {
      return error, st, false, t';
    }
    st' := Tally(q, st, at, q.Occ(e.data));
    if q.offset < 0 {
      if at > -q.offset {
        return error, st', false, t';
      }
      if at + st'.chunk > -q.offset {
        st' := st'.(chunk := -q.offset - at + 1);
        SameTally(q, q.Occ(e.data), st'.(chunk := st.chunk), st');
      }
    }
    go := at < |e.data| && UnderLimit(q, st');
  }

  lemma LimitIsProgress(q: Request, occ: seq<nat>, st: Search)
    requires Tallied(q, occ, st)
    ensures UnderLimit(q, st) <==> q.Continues(occ[..st.found])
  {
  }

  ghost predicate ContinuesTo(q: Request, occ: seq<nat>, n: nat) {
    n <= |occ| && forall k :: 0 < k <= n ==> q.Continues(occ[..k])
  }

  lemma ContinuesStep(q: Request, occ: seq<nat>, n: nat)
    requires ContinuesTo(q, occ, n) && n < |occ| && q.Continues(occ[..n + 1])
    ensures ContinuesTo(q, occ, n + 1)
  {
  }

  /** A search that went on after each of its first turns has stopped where `StopsAt` says. */
  lemma Stopped(q: Request, occ: seq<nat>, n: nat, before: nat)
    requires before <= n <= before + 1 && n <= |occ| && ContinuesTo(q, occ, before)
    requires n == |occ| || (n > 0 && !q.Continues(occ[..n]))
    ensures StopsAt(occ, n, q.first, q.step, q.offset, q.max, q.collect)
  {
    hide GoesOn;
  }

  /** The search loop. */
  method SearchLoop(e: Entry, q: Request, faults: Faults, t: nat) returns (ret: int, indices: seq<nat>, t': nat)
    requires e.Present?
    ensures t <= t' && (if ret < 0 then ErrorAt(faults, t, t', ret) else NoFault(faults, t, t'))
    ensures q.offset < 0 && e.data != [] ==> t < t'
    ensures ret >= 0 ==>
              && StopsAt(q.Occ(e.data), ret, q.first, q.step, q.offset, q.max, q.collect)
              && indices == if q.collect then q.PickedOf(q.Occ(e.data)[..ret]).0 else []
  {
    ghost var occ := q.Occ(e.data);
    var end := -q.offset;
    var st := Search(if q.offset < 0 then 0 else q.offset, 0, q.first, [],
                     if q.offset < 0 && end <= 250 then end else 250);
    assert occ[..0] == [];
    assert Tallied(q, occ, st) && Standing(e.data, q.Pat(), q.Limit(e.data), occ, st.found, st.at);
    assert ContinuesTo(q, occ, 0) && NoFault(faults, t, t);
    hide Greedy, Searched, GoesOn, Standing, Picked, StopsAt, ContinuesTo, NoFault, ErrorAt, UnderLimit, Findable;
    t' := t;
    var go := true;
    while go
      invariant Tallied(q, occ, st) && t <= t' && NoFault(faults, t, t')
      invariant go ==> Standing(e.data, q.Pat(), q.Limit(e.data), occ, st.found, st.at)
      invariant go ==> 0 < st.chunk <= 250 && (q.offset < 0 ==> st.at <= end)
      invariant q.offset < 0 && e.data != [] && t' == t ==> go && st.at == 0
      invariant go ==> ContinuesTo(q, occ, st.found)
      invariant !go ==> StopsAt(occ, st.found, q.first, q.step, q.offset, q.max, q.collect)
      decreases go, |e.data| - st.at
    {
      var error, st1, t1;
      error, st1, go, t1 := Turn(e, q, st, faults, t');
      if error < 0 {
        ErrorLater(faults, t, t', t1, error);
        return error, st1.indices, t1;
      }
      NoFaultJoin(faults, t, t', t1);
      LimitIsProgress(q, occ, st1);
      if go {
        ContinuesStep(q, occ, st.found);
      } else {
        Stopped(q, occ, st1.found, st.found);
      }
      st, t' := st1, t1;
    }
    return st.found, st.indices, t';
  }

  /** The vector only grows, one entry at a time, while nothing is evicted. */
  lemma {:induction false} IndicesPrefix(occ: seq<nat>, n: nat, first: int, step: int)
    requires n <= |occ|
    ensures Indices(occ[..n], first, step, 0) <= Indices(occ, first, step, 0)
    decreases |occ| - n
  {
    if n == |occ| {
      assert occ[..n] == occ;
    } else {
      PickedStep(occ, n, first, step, 0);
      IndicesPrefix(occ, n + 1, first, step);
    }
  }

  /** A forward search under a positive limit stops with the first `max` of the unlimited result. */
  lemma ForwardLimit(occ: seq<nat>, n: nat, first: int, step: int, offset: int, max: int)
    requires offset >= 0 && max >= 1 && StopsAt(occ, n, first, step, offset, max, true)
    ensures var all := Indices(occ, first, step, 0);
            Indices(occ[..n], first, step, 0) == if |all| <= max then all else all[..max]
  {
    IndicesPrefix(occ, n, first, step);
    if n > 0 {
      PickedStep(occ, n - 1, first, step, 0);
      assert n == 1 ==> occ[..0] == [];
      assert n > 1 ==> GoesOn(occ[..n - 1], first, step, offset, max, true);
    }
    if n == |occ| {
      assert occ[..n] == occ;
    }
  }

  /** The count of the first push: a search from the end takes its phase from the counting pass. */
  function FirstPush(everyNth: int, offset: int, counted: int): int {
    if offset < 0 && everyNth > 1 then CRem(counted, everyNth) + 1 else everyNth
  }

  /** What a successful search has returned, for every combination of arguments. */
  ghost predicate Found(s: bytes, pat: CString, collect: bool, maxIndices: int, everyNth: int, offset: int,
                        counted: int, ret: nat, indices: seq<nat>)
  {
    var occ := Searched(s, pat, offset);
    var max := EffectiveMax(maxIndices, everyNth);
    var first := FirstPush(everyNth, offset, counted);
    && StopsAt(occ, ret, first, everyNth, offset, max, collect)
    && indices == if collect then Indices(occ[..ret], first, everyNth, Keep(offset, max)) else []
  }

  /** A search that counts first: from the end, and not for every occurrence. */
  predicate CountsFirst(offset: int, everyNth: int) { offset < 0 && everyNth > 1 }

  /**
   `findInFile`. `counted` is what the counting pass returned (0 when there was none), at tick `tc`; its
   error is not checked, so a search may succeed after a failed count: see `FailedCount`.
   */
  method FindInFile(e: Entry, findStr: Option<CString>, collect: bool, maxIndices: int, everyNth: int, offset: int,
                    faults: Faults, t: nat)
    returns (ret: int, indices: seq<nat>, counted: int, ghost tc: nat, t': nat)
    ensures t <= tc <= t' && (!CountsFirst(offset, everyNth) ==> counted == 0 && tc == t)
    ensures findStr.None? ==> ret == -99 && indices == []
    ensures findStr.Some? && e.Absent? ==> ret == e.code && indices == []
    ensures findStr.Some? && e.Present? ==>
              var pat := Findable(findStr.value);
              && (if counted < 0 then ErrorAt(faults, t, tc, counted) else NoFault(faults, t, tc))
              && (if ret < 0 then ErrorAt(faults, tc, t', ret) else NoFault(faults, tc, t'))
              && (offset < 0 && e.data != [] ==> tc < t' && (CountsFirst(offset, everyNth) ==> t < tc))
              && (CountsFirst(offset, everyNth) && counted >= 0 ==> counted == |Searched(e.data, pat, offset)|)
              && (ret >= 0 ==> Found(e.data, pat, collect, maxIndices, everyNth, offset, counted, ret, indices))
    decreases everyNth
  {
    tc := t;
    if findStr.None? {
      return -99, [], 0, t, t;
    }
    if e.Absent? {
      return e.code, [], 0, t, t;
    }
    var raw := findStr.value;
    var max := EffectiveMax(maxIndices, everyNth);
    counted, t' := 0, t;
    assert NoFault(faults, t, t);
    if CountsFirst(offset, everyNth) {
      var none, zero;
      ghost var tz;
      counted, none, zero, tz, t' := FindInFile(e, findStr, false, -1, 1, offset, faults, t);
      if counted >= 0 {
        CountIsAll(e.data, Findable(raw), offset, counted, none);
      }
    }
    tc := t';
    hide NoFault, ErrorAt, Searched, StopsAt, Picked, Findable;
    var first := FirstPush(everyNth, offset, counted);
    ret, indices, t' := SearchLoop(e, Request(raw, collect, max, everyNth, first, offset), faults, t');
  }

  /** An unlimited search without a vector counts all occurrences. */
  lemma CountIsAll(s: bytes, pat: CString, offset: int, ret: nat, indices: seq<nat>)
    requires Found(s, pat, false, -1, 1, offset, 0, ret, indices)
    ensures ret == |Searched(s, pat, offset)|
  {
    hide Searched, Picked;
  }

  /** A search string of 65536 bytes or more is missed exactly where it occurs. */
  lemma TooLongToFind(s: bytes, raw: CString, from: nat)
    ensures Greedy(s, Findable(raw), from, |s|) == Greedy(s, raw, from, |s|) <==>
            |raw| <= 0xFFFF || NextOccurrence(s, raw, from).None?
  {
    assert NextOccurrence(s, [], from).None?;
    if NextOccurrence(s, raw, from).Some? {
      assert Greedy(s, raw, from, |s|) != [];
    }
  }

  /** An unlimited forward search returns exactly the greedy occurrences, every k-th of them for k > 1. */
  lemma FindEvery(s: bytes, pat: CString, max: int, everyNth: int, offset: nat, ret: nat, indices: seq<nat>)
    requires max < 0 && everyNth >= 1 && Found(s, pat, true, max, everyNth, offset, 0, ret, indices)
    ensures var occ := Greedy(s, pat, offset, |s|);
            && ret == |occ| && (everyNth == 1 ==> indices == occ)
            && EveryStep(occ, everyNth, everyNth, indices, Slot(everyNth, everyNth, |indices|))
  {
    var occ := Greedy(s, pat, offset, |s|);
    assert occ[..ret] == occ;
    hide Greedy, StopsAt;
    PickedShape(occ, everyNth, everyNth);
    PickAll(occ);
  }

  /** How many indices a forward search is limited to: the limit is on occurrences when only every n-th is wanted. */
  function IndexLimit(maxIndices: nat, everyNth: int): nat
    requires everyNth >= 1
  {
    if everyNth == 1 then Max(maxIndices, 1) else maxIndices / everyNth
  }

  /** A limited forward search returns the first of the indices that the unlimited one returns. */
  lemma FindLimited(s: bytes, pat: CString, maxIndices: nat, everyNth: int, offset: nat, ret: nat, indices: seq<nat>)
    requires everyNth >= 1 && Found(s, pat, true, maxIndices, everyNth, offset, 0, ret, indices)
    ensures var all := Indices(Greedy(s, pat, offset, |s|), everyNth, everyNth, 0);
            indices == all[..Min(|all|, IndexLimit(maxIndices, everyNth))]
  {
    hide Greedy, Picked, StopsAt;
    var occ := Greedy(s, pat, offset, |s|);
    var max := EffectiveMax(maxIndices, everyNth);
    LimitIs(maxIndices, everyNth);
    hide EffectiveMax, IndexLimit;
    if max >= 1 {
      ForwardLimit(occ, ret, everyNth, everyNth, offset, max);
    } else {
      OneTurn(occ, ret, everyNth, offset, max);
    }
  }

  lemma LimitIs(maxIndices: nat, everyNth: int)
    requires everyNth >= 1
    ensures var max := EffectiveMax(maxIndices, everyNth);
            max >= 0 && IndexLimit(maxIndices, everyNth) == if max >= 1 then max else if everyNth == 1 then 1 else 0
  {
    if maxIndices == 0 && everyNth > 1 {
      assert 0 / everyNth == 0;
    }
  }

  /** A limit of nothing is noticed after the first occurrence. */
  lemma OneTurn(occ: seq<nat>, n: nat, step: int, offset: int, max: int)
    requires step >= 1 && offset >= 0 && max == 0 && StopsAt(occ, n, step, step, offset, max, true)
    ensures var all := Indices(occ, step, step, 0);
            Indices(occ[..n], step, step, 0) == all[..Min(|all|, if step == 1 then 1 else 0)]
  {
    if occ == [] {
      assert occ[..n] == occ;
    } else {
      assert !GoesOn(occ[..1], step, step, offset, max, true);
      assert n == 1;
      PickedStep(occ, 0, step, step, 0);
      assert occ[..0] == [];
      IndicesPrefix(occ, 1, step, step);
    }
  }

  /** A limited forward count stops at the limit. */
  lemma CountLimited(s: bytes, pat: CString, maxIndices: int, everyNth: int, offset: nat, ret: nat, indices: seq<nat>)
    requires everyNth >= 1 && Found(s, pat, false, maxIndices, everyNth, offset, 0, ret, indices)
    ensures var all := |Greedy(s, pat, offset, |s|)|;
            ret == if maxIndices < 0 then all else Min(all, Max(1, if everyNth == 1 then maxIndices else maxIndices / everyNth))
    ensures indices == []
  {
    var occ := Greedy(s, pat, offset, |s|);
    var max := EffectiveMax(maxIndices, everyNth);
    hide Greedy, Picked;
    assert maxIndices >= 0 ==> max == if everyNth == 1 then maxIndices else maxIndices / everyNth;
    if ret > 1 {
      assert GoesOn(occ[..ret - 1], everyNth, everyNth, offset, max, false);
    }
  }

  lemma {:induction false} PickAll(occ: seq<nat>)
    ensures Picked(occ, 1, 1, 0) == (occ, |occ| + 1)
  {
    if occ != [] {
      PickAll(occ[..|occ| - 1]);
      assert occ == occ[..|occ| - 1] + [occ[|occ| - 1]];
    }
  }

  /** `maxindices = everynthindice = n` and `offset = -filesize`: the n-th occurrence from the end of the file. */
  lemma FindFromEnd(s: bytes, pat: CString, n: nat, counted: int, ret: nat, indices: seq<nat>)
    requires n >= 1 && Found(s, pat, true, n, n, -|s|, counted, ret, indices)
    requires s != [] && n > 1 ==> counted == |Greedy(s, pat, 0, |s|)|
    ensures indices == NthLast(Greedy(s, pat, 0, |s|), n)
  {
    var occ := Greedy(s, pat, 0, |s|);
    assert n / n == 1;
    assert occ[..ret] == occ;
    if s != [] {
      NthFromEnd(occ, n);
    }
  }

  /**
   A counting pass that fails with `code`, followed by a search that succeeds, selects the n-th
   occurrence from the end exactly when: for a code that n divides, n divides the total as well;
   for any other code, there are fewer than n occurrences.
   */
  lemma FailedCount(occ: seq<nat>, n: nat, code: int)
    requires n > 1 && code < 0 && forall j, k :: 0 <= j < k < |occ| ==> occ[j] < occ[k]
    ensures Indices(occ, CRem(code, n) + 1, n, 1) == NthLast(occ, n)
            <==> if (-code) % n == 0 then |occ| % n == 0 else |occ| < n
  {
    if (-code) % n != 0 {
      PickedNothing(occ, CRem(code, n) + 1, n, 1);
    } else if |occ| % n == 0 {
      NthFromEnd(occ, n);
    } else {
      var (v, next) := Picked(occ, 1, n, 0);
      PickedShape(occ, 1, n);
      EvictionKeepsLast(occ, 1, n, 1);
      LastStep(occ, 1, n, v, next);
      if next == |occ| + 1 {
        DivideMultiple(|v|, n);
      }
    }
  }

  lemma DivideMultiple(k: nat, n: nat)
    requires n >= 1
    ensures (k * n) % n == 0
  {
    var q := (k * n) / n;
    assert k * n == q * n + (k * n) % n;
    SameMultiple(k, q, n);
  }

  /** Device reads of which only the first fails, with -5. */
  function FirstReadFails(): Faults { (k: nat) => if k == 0 then -5 else 0 }

  /**
   A run in which the count fails and the search succeeds: two occurrences, the second from the end
   wanted, and nothing is found although it starts the file.
   */
  method FailedCountRun() returns (ret: int, indices: seq<nat>, counted: int)
    ensures ret == 2 && counted == -5 && indices == []
    ensures NthLast(Searched([7, 7], [7], -2), 2) == [0]
  {
    var t';
    ghost var tc;
    ret, indices, counted, tc, t' := FindInFile(Present([7, 7]), Some([7]), true, 2, 2, -2, FirstReadFails(), 0);
    TwoSevens();
    OneFault(tc, counted, t', ret);
    var occ := [0, 1];
    assert Searched([7, 7], Findable([7]), -2) == occ;
    assert occ[..ret] == occ;
    PickedNothing(occ, FirstPush(2, -2, -5), 2, 1);
  }

  lemma OneFault(tc: nat, counted: int, t': nat, ret: int)
    requires 0 < tc <= t'
    requires if counted < 0 then ErrorAt(FirstReadFails(), 0, tc, counted) else NoFault(FirstReadFails(), 0, tc)
    requires if ret < 0 then ErrorAt(FirstReadFails(), tc, t', ret) else NoFault(FirstReadFails(), tc, t')
    ensures counted == -5 && ret >= 0
  {
    assert FirstReadFails()(0) == -5;
  }

  lemma TwoSevens()
    ensures Searched([7, 7], [7], -2) == [0, 1]
  {
    var s: bytes := [7, 7];
    assert s[0..1] == [7] && s[1..2] == [7];
    assert NextOccurrence(s, [7], 0) == Some(0) && NextOccurrence(s, [7], 1) == Some(1) && NextOccurrence(s, [7], 2).None?;
    assert Greedy(s, [7], 2, 2) == [];
    assert Greedy(s, [7], 1, 2) == [1] + Greedy(s, [7], 2, 2);
  }
}
