/**
 Byte strings, C strings and occurrences of a pattern in them.

 `NextOccurrence` and `Greedy` are the whole-file meaning of the streaming search:
 they know nothing of chunks, windows or counters.
 */
module Pattern {

  type byte = b: int | 0 <= b < 256
  type bytes = seq<byte>

  /** The bytes of a C string before its terminator. */
  type CString = s: bytes | 0 !in s

  datatype Option<+T> = None | Some(value: T)

  predicate OccursAt(s: bytes, pat: bytes, i: nat) {
    i + |pat| <= |s| && s[i..i + |pat|] == pat
  }

  /** The least occurrence at or after `from` (see `LeastOccurrence`); an empty pattern is never found. */
  function NextOccurrence(s: bytes, pat: bytes, from: nat): (r: Option<nat>)
    ensures r.Some? ==> pat != [] && from <= r.value <= |s| - |pat|
    decreases |s| - from
  {
    if pat == [] || from + |pat| > |s| then None
    else if OccursAt(s, pat, from) then Some(from)
    else NextOccurrence(s, pat, from + 1)
  }

  /** What `NextOccurrence` means, in both directions. */
  lemma {:induction false} LeastOccurrence(s: bytes, pat: bytes, from: nat, i: nat)
    requires pat != []
    ensures NextOccurrence(s, pat, from) == Some(i) <==>
            from <= i && OccursAt(s, pat, i) && forall j: nat :: from <= j < i ==> !OccursAt(s, pat, j)
    ensures NextOccurrence(s, pat, from).None? ==> from <= i ==> !OccursAt(s, pat, i)
    decreases |s| - from
  {
    if from + |pat| <= |s| && !OccursAt(s, pat, from) {
      LeastOccurrence(s, pat, from + 1, i);
    }
  }

  /** No occurrence of `pat` lies entirely inside `s[..k]` (an empty pattern never occurs). */
  ghost predicate NoneWithin(s: bytes, pat: bytes, k: nat) {
    pat == [] || forall i: nat :: i + |pat| <= k ==> !OccursAt(s, pat, i)
  }

  lemma FirstOccurrence(s: bytes, pat: bytes, i: nat)
    requires pat != [] && OccursAt(s, pat, i)
    requires NoneWithin(s, pat, i + |pat| - 1) || forall j: nat :: j < i ==> !OccursAt(s, pat, j)
    ensures NextOccurrence(s, pat, 0) == Some(i)
  {
    hide OccursAt, NextOccurrence;
    LeastOccurrence(s, pat, 0, i);
  }

  lemma NoOccurrence(s: bytes, pat: bytes)
    requires NoneWithin(s, pat, |s|)
    ensures NextOccurrence(s, pat, 0).None?
  {
    if NextOccurrence(s, pat, 0).Some? {
      LeastOccurrence(s, pat, 0, NextOccurrence(s, pat, 0).value);
    }
  }

  lemma ExtendNoneWithin(s: bytes, pat: bytes, k: nat)
    requires NoneWithin(s, pat, k)
    requires !(k + 1 >= |pat| && OccursAt(s, pat, k + 1 - |pat|))
    ensures NoneWithin(s, pat, k + 1)
  {
    hide OccursAt;
  }

  lemma OccursInSuffix(s: bytes, pat: bytes, k: nat, i: nat)
    requires k <= |s|
    ensures OccursAt(s[k..], pat, i) <==> OccursAt(s, pat, k + i)
  {
    if k + i + |pat| <= |s| {
      assert s[k..][i..i + |pat|] == s[k + i..k + i + |pat|];
    }
  }

  /** Occurrences of a suffix are the occurrences of the whole, shifted. */
  lemma {:induction false} ShiftOccurrence(s: bytes, pat: bytes, k: nat, from: nat)
    requires k <= |s|
    ensures NextOccurrence(s, pat, k + from) ==
            match NextOccurrence(s[k..], pat, from) {
              case None => None
              case Some(i) => Some(k + i)
            }
    decreases |s| - from
  {
    if pat != [] && k + from + |pat| <= |s| {
      OccursInSuffix(s, pat, k, from);
      hide OccursAt;
      if !OccursAt(s, pat, k + from) {
        ShiftOccurrence(s, pat, k, from + 1);
      }
    }
  }

  /**
   The greedy left-to-right non-overlapping occurrences from `from` on, where a further
   search starts only while its start does not exceed `limit`.
   */
  function Greedy(s: bytes, pat: bytes, from: nat, limit: nat): seq<nat>
    decreases |s| - from
  {
    if from > limit then []
    else
      match NextOccurrence(s, pat, from)
      case None => []
      case Some(i) => [i] + Greedy(s, pat, i + |pat|, limit)
  }

  lemma {:induction false} GreedyOccur(s: bytes, pat: bytes, from: nat, limit: nat, k: nat)
    requires k < |Greedy(s, pat, from, limit)|
    ensures from <= Greedy(s, pat, from, limit)[k] && OccursAt(s, pat, Greedy(s, pat, from, limit)[k])
    decreases |s| - from
  {
    LeastOccurrence(s, pat, from, NextOccurrence(s, pat, from).value);
    hide NextOccurrence, OccursAt;
    if k > 0 {
      GreedyOccur(s, pat, NextOccurrence(s, pat, from).value + |pat|, limit, k - 1);
    }
  }

  /** Greedy occurrences are in order and do not overlap. */
  lemma {:induction false} GreedyDisjoint(s: bytes, pat: bytes, from: nat, limit: nat, j: nat, k: nat)
    requires j < k < |Greedy(s, pat, from, limit)|
    ensures Greedy(s, pat, from, limit)[j] + |pat| <= Greedy(s, pat, from, limit)[k]
    decreases |s| - from
  {
    hide NextOccurrence, OccursAt;
    var i := NextOccurrence(s, pat, from).value;
    var rest := Greedy(s, pat, i + |pat|, limit);
    assert Greedy(s, pat, from, limit)[k] == rest[k - 1];
    if j == 0 {
      GreedyOccur(s, pat, i + |pat|, limit, k - 1);
    } else {
      GreedyDisjoint(s, pat, i + |pat|, limit, j - 1, k - 1);
    }
  }

  /** Position `i` lies inside the `k`-th of the width-`m` spans starting at `g`. */
  predicate Inside(g: seq<nat>, m: nat, k: nat, i: nat) {
    k < |g| && g[k] <= i < g[k] + m
  }

  /**
   Greedy occurrences miss nothing: with the limit at the end of the string, every
   occurrence at or after `from` is one of them or starts inside one of them.
   */
  lemma {:induction false} GreedyComplete(s: bytes, pat: bytes, from: nat, limit: nat, i: nat) returns (k: nat)
    requires |s| <= limit && from <= i && pat != [] && OccursAt(s, pat, i)
    ensures Inside(Greedy(s, pat, from, limit), |pat|, k, i)
    decreases |s| - from
  {
    assert i + |pat| <= |s|;
    hide NextOccurrence, OccursAt;
    LeastOccurrence(s, pat, from, i);
    var first := NextOccurrence(s, pat, from).value;
    LeastOccurrence(s, pat, from, first);
    var rest := Greedy(s, pat, first + |pat|, limit);
    assert Greedy(s, pat, from, limit) == [first] + rest;
    hide Greedy;
    k := 0;
    if i >= first + |pat| {
      var k' := GreedyComplete(s, pat, first + |pat|, limit, i);
      k := k' + 1;
    }
  }

  /** The bytes of a NUL-terminated buffer before its first NUL. */
  function CStr(mem: bytes): (s: CString)
    requires 0 in mem
    ensures |s| < |mem| && s == mem[..|s|] && mem[|s|] == 0
  {
    if mem[0] == 0 then [] else [mem[0]] + CStr(mem[1..])
  }

  /** `*(s + i)`: the terminator follows the last byte. */
  function CharAt(s: CString, i: nat): (c: byte)
    requires i <= |s|
    ensures c == 0 <==> i == |s|
  {
    if i < |s| then s[i] else 0
  }

  /** How many bytes of `substr` agree with the buffer from position `n` on. */
  method MatchLength(mem: bytes, n: nat, substr: CString) returns (p: nat)
    requires 0 in mem && n <= |CStr(mem)|
    ensures p <= |substr|
    ensures p == |substr| <==> OccursAt(CStr(mem), substr, n)
  {
    ghost var str := CStr(mem);
    p := 0;
    while mem[n + p] != 0 && CharAt(substr, p) != 0 && mem[n + p] == CharAt(substr, p)
      invariant p <= |substr| && n + p <= |str|
      invariant str[n..n + p] == substr[..p]
      decreases |substr| - p
    {
      p := p + 1;
    }
    if p < |substr| {
      assert n + |substr| <= |str| ==> str[n..n + |substr|][p] == str[n + p];
    } else {
      assert substr[..p] == substr;
    }
  }

  /**
   Substring search in a NUL-terminated buffer, looking at start positions below `len`.
   The result is the first occurrence, and no byte past the terminator is read.
   */
  method StrStr(mem: bytes, substr: CString, len: int) returns (r: int)
    requires 0 in mem
    ensures r == -1 || 0 <= r < len
    ensures r >= 0 ==> substr != [] && NextOccurrence(CStr(mem), substr, 0) == Some(r)
    ensures r == -1 ==> substr == [] || forall j: nat :: j < len ==> !OccursAt(CStr(mem), substr, j)
  {
    ghost var str := CStr(mem);
    if mem[0] == 0 || CharAt(substr, 0) == 0 {
      return -1;
    }
    var n := 0;
    while mem[n] != 0 && n < len
      invariant 0 <= n <= |str|
      invariant forall j: nat :: j < n ==> !OccursAt(str, substr, j)
      decreases |str| - n
    {
      var p := MatchLength(mem, n, substr);
      if CharAt(substr, p) == 0 {
        FirstOccurrence(str, substr, n);
        return n;
      }
      n := n + 1;
    }
    return -1;
  }

  /** On a window of exactly the pattern's length, the search is an equality test. */
  lemma WindowTest(window: bytes, pat: CString, r: int)
    requires pat != [] && |window| == |pat|
    requires r == -1 || 0 <= r < |pat|
    requires r >= 0 ==> NextOccurrence(CStr(window + [0]), pat, 0) == Some(r)
    requires r == -1 ==> forall j: nat :: j < |pat| ==> !OccursAt(CStr(window + [0]), pat, j)
    ensures r == if window == pat then 0 else -1
  {
    var str := CStr(window + [0]);
    assert |str| <= |pat|;
    if r >= 0 {
      LeastOccurrence(str, pat, 0, r);
    }
    if window == pat {
      assert (window + [0])[|str|] == 0;
      assert |str| == |pat|;
      assert str == pat;
      assert str[0..|pat|] == pat;
      assert OccursAt(str, pat, 0);
    }
  }
}
