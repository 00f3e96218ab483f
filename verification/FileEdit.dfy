/**
 Editing a file in place, past its end if need be (`editFile`).

 A littlefs write is given its outcome: it either writes a positive number of bytes, at most
 as many as asked for, or fails, possibly after writing some.
 */
module FileEdit {
  import opened Pattern
  import opened FileReader
  import opened LfsErrors
  import opened Words

  const FILE_MAX := 0x7FFF_FFFF
  const PAD_SIZE := 64

  /** `data` with `d` written over it from `pos` on. */
  function Overlay(data: bytes, pos: nat, d: bytes): (r: bytes)
    requires pos <= |data|
    ensures |r| == if pos + |d| <= |data| then |data| else pos + |d|
  {
    data[..pos] + d + if pos + |d| <= |data| then data[pos + |d|..] else []
  }

  /** `data` filled up with zeros to at least `n` bytes. */
  function ZeroExtend(data: bytes, n: nat): (r: bytes)
    ensures |r| >= n
  {
    if |data| < n then data + Zeros(n - |data|) else data
  }

  /** The outcome of one write: the bytes written if positive, else the error and how much was written before it. */
  datatype WriteOutcome = WriteOutcome(ret: int, torn: nat)

  type Outcomes = nat -> WriteOutcome

  /** An open littlefs file. */
  class OpenFile {
    var data: bytes
    var pos: nat

    ghost predicate Valid()
      reads this
    {
      pos <= |data| <= FILE_MAX
    }

    constructor (content: bytes)
      requires |content| <= FILE_MAX
      ensures Valid() && data == content && pos == 0
    {
      data, pos := content, 0;
    }

    method Write(d: bytes, o: WriteOutcome) returns (r: int, ghost n: nat)
      requires Valid()
      modifies this
      ensures Valid() && n <= |d| && (r > 0 ==> n == r)
      ensures data == Overlay(old(data), old(pos), d[..n]) && pos == old(pos) + n
      ensures r == if old(pos) + |d| > FILE_MAX then ERR_FBIG else if o.ret > 0 then Min(o.ret, |d|) else o.ret
    {
      if pos + |d| > FILE_MAX {
        assert Overlay(data, pos, d[..0]) == data;
        return ERR_FBIG, 0;
      }
      var k := Min(if o.ret > 0 then o.ret else o.torn, |d|);
      data := Overlay(data, pos, d[..k]);
      pos := pos + k;
      return if o.ret > 0 then k else o.ret, k;
    }
  }

  lemma OverlayZeros(data: bytes, z: nat, d: bytes)
    requires forall i :: 0 <= i < |d| ==> d[i] == 0
    ensures Overlay(data + Zeros(z), |data| + z, d) == data + Zeros(z + |d|)
  {
  }

  /** The tick after `gap` zeros have been written, by writes that may be short; nothing when one of them fails. */
  function PadEnd(gap: nat, w: Outcomes, t: nat): Option<nat>
    decreases gap
  {
    if gap == 0 then Some(t)
    else if w(t).ret <= 0 then None
    else PadEnd(gap - Min(w(t).ret, Min(PAD_SIZE, gap)), w, t + 1)
  }

  /** The writes of the padding from tick `t` on, before `t'`, all make progress. */
  ghost predicate Progressing(w: Outcomes, t: nat, t': nat) { forall k: nat :: t <= k < t' ==> w(k).ret > 0 }

  /** The padding gets through with writes that all make progress, or there is one that does not and ends it. */
  lemma {:induction false} PadEndMeans(gap: nat, w: Outcomes, t: nat) returns (end: nat)
    ensures t <= end && end - t <= gap && Progressing(w, t, end)
    ensures PadEnd(gap, w, t).Some? ==> PadEnd(gap, w, t) == Some(end) && PAD_SIZE * (end - t) >= gap
    ensures PadEnd(gap, w, t).None? ==> w(end).ret <= 0 && end - t < gap
    decreases gap
  {
    end := t;
    if gap > 0 && w(t).ret > 0 {
      end := PadEndMeans(gap - Min(w(t).ret, Min(PAD_SIZE, gap)), w, t + 1);
    }
  }

  /** Writes zeros at the end of the file until `gap` of them are written; stops on an error or no progress. */
  method Pad(f: OpenFile, gap: nat, w: Outcomes) returns (error: int, ghost z: nat, t: nat)
    requires f.Valid() && f.pos == |f.data|
    modifies f
    ensures f.Valid() && z <= gap && f.data == old(f.data) + Zeros(z) && f.pos == |f.data|
    ensures error <= 0 && (error == 0 ==> z == gap)
    ensures error == 0 <==> |old(f.data)| + gap <= FILE_MAX && PadEnd(gap, w, 0).Some?
    ensures error == 0 ==> PadEnd(gap, w, 0) == Some(t)
  {
    error, z, t := 0, 0, 0;
    var left := gap;
    assert f.data == f.data + Zeros(0);
    while left > 0
      invariant z <= gap && left == gap - z && f.Valid() && f.data == old(f.data) + Zeros(z) && f.pos == |f.data|
      invariant PadEnd(gap, w, 0) == PadEnd(left, w, t)
      decreases left
    {
      var chunk := Min(PAD_SIZE, left);
      ghost var n;
      error, n := f.Write(Zeros(chunk), w(t));
      OverlayZeros(old(f.data), z, Zeros(chunk)[..n]);
      t, z := t + 1, z + n;
      if error <= 0 {
        return if error == 0 then -3 else error, z, t;
      }
      left := left - error;
    }
    return 0, z, t;
  }

  /**
   What an edit may have done to a file: `z` zeros appended towards the offset, then the first
   `k` bytes of the content written at the offset. Zeros stop short only if nothing else is written.
   */
  ghost predicate Edited(was: bytes, now: bytes, offset: nat, content: bytes, z: nat, k: nat) {
    && k <= |content| && |was| + z <= Max(|was|, offset)
    && (k > 0 ==> |was| + z >= offset)
    && now == if offset <= |was| + z then Overlay(was + Zeros(z), offset, content[..k]) else was + Zeros(z)
  }

  /** The argument of a littlefs seek is a signed 32-bit offset. */
  function ToSoff(offset: nat): int {
    var u := offset % 0x1_0000_0000;
    if u > FILE_MAX then u - 0x1_0000_0000 else u
  }

  /** How many zeros are missing to the offset. */
  function Gap(size: nat, offset: nat): nat { if offset > size then offset - size else 0 }

  /**
   Nothing stands in the way of an edit: the padding gets through, however short its writes, the seek
   works, the write of the content is not short, and the file does not grow too large.
   */
  predicate Unhindered(size: nat, offset: nat, content: bytes, seekOk: bool, w: Outcomes) {
    var padded := PadEnd(Gap(size, offset), w, 0);
    padded.Some? && seekOk && offset + |content| <= FILE_MAX && w(padded.value).ret >= |content|
  }

  /** What is returned when the edit does not succeed: the codes of the source, or the error of the write. */
  predicate Reported(size: nat, offset: nat, content: bytes, seekOk: bool, w: Outcomes, ret: int) {
    var padded := PadEnd(Gap(size, offset), w, 0);
    if padded.None? || Max(size, offset) > FILE_MAX then ret < 0
    else if !seekOk then ret == -1
    else if offset + |content| > FILE_MAX then ret == ERR_FBIG
    else
      var o := w(padded.value).ret;
      if o <= 0 then ret == o else if o < |content| then ret == -2 else ret == |content|
  }

  /** Zeros up to the offset, if the file is shorter. */
  method PadTo(f: OpenFile, offset: nat, w: Outcomes) returns (error: int, ghost z: nat, t: nat)
    requires f.Valid()
    modifies f
    ensures f.Valid() && f.data == old(f.data) + Zeros(z) && |old(f.data)| + z <= Max(|old(f.data)|, offset)
    ensures error <= 0 && (error == 0 ==> offset <= |f.data| == Max(|old(f.data)|, offset))
    ensures error == 0 <==> Max(|old(f.data)|, offset) <= FILE_MAX && PadEnd(Gap(|old(f.data)|, offset), w, 0).Some?
    ensures error == 0 ==> PadEnd(Gap(|old(f.data)|, offset), w, 0) == Some(t)
  {
    error, z, t := 0, 0, 0;
    assert f.data == f.data + Zeros(0);
    if offset > |f.data| {
      f.pos := |f.data|;
      error, z, t := Pad(f, offset - |f.data|, w);
    }
  }

  /** The edit of an open file. */
  method EditOpen(f: OpenFile, offset: nat, content: bytes, seekOk: bool, w: Outcomes)
    returns (ret: int, ghost z: nat, ghost k: nat)
    requires f.Valid() && content != []
    modifies f
    ensures f.Valid() && Edited(old(f.data), f.data, offset, content, z, k)
    ensures ret > 0 ==> ret == |content| == k && |old(f.data)| + z == Max(|old(f.data)|, offset)
    ensures ret > 0 <==> Unhindered(|old(f.data)|, offset, content, seekOk, w)
    ensures Reported(|old(f.data)|, offset, content, seekOk, w, ret)
  {
    ghost var was := f.data;
    var t;
    k := 0;
    ret, z, t := PadTo(f, offset, w);
    if offset <= |f.data| {
      assert Overlay(was + Zeros(z), offset, content[..0]) == was + Zeros(z);
    }
    if ret < 0 {
      return;
    }
    // the seek offset survives the conversion: the file has reached it
    assert ToSoff(offset) == offset;
    if !seekOk {
      return -1, z, 0;
    }
    f.pos := ToSoff(offset);
    hide Overlay;
    ret, k := f.Write(content, w(t));
    if ret > 0 && ret != |content| {
      return -2, z, k;
    }
  }

  class Volume {
    var files: map<string, bytes>

    ghost predicate Valid()
      reads this
    {
      forall p :: p in files ==> |files[p]| <= FILE_MAX
    }

    /**
     `editFile`. `seekOk` is whether the seek to the offset succeeds, `w` the outcomes of the writes.
     `z` and `k` say how far the edit got.
     */
    method EditFile(path: string, offset: nat, content: bytes, seekOk: bool, w: Outcomes)
      returns (ret: int, ghost z: nat, ghost k: nat)
      requires Valid()
      modifies this
      ensures Valid()
      ensures content == [] ==> ret == 0 && files == old(files)
      ensures content != [] && path !in old(files) ==> ret == ERR_NOENT && files == old(files)
      ensures content != [] && path in old(files) ==>
                && path in files && files == old(files)[path := files[path]]
                && Edited(old(files)[path], files[path], offset, content, z, k)
                && (ret > 0 ==> ret == |content|)
                && (ret > 0 ==> files[path] == Overlay(ZeroExtend(old(files)[path], offset), offset, content))
                && (ret > 0 <==> Unhindered(|old(files)[path]|, offset, content, seekOk, w))
                && Reported(|old(files)[path]|, offset, content, seekOk, w, ret)
    {
      z, k := 0, 0;
      if |content| == 0 {
        return 0, 0, 0;
      }
      if path !in files {
        return ERR_NOENT, 0, 0;
      }
      var f := new OpenFile(files[path]);
      ret, z, k := EditOpen(f, offset, content, seekOk, w);
      if ret > 0 {
        EditedWhole(files[path], f.data, offset, content, z);
      }
      hide Edited, Overlay, ZeroExtend, Unhindered, Reported;
      files := files[path := f.data];
    }
  }

  lemma EditedWhole(was: bytes, now: bytes, offset: nat, content: bytes, z: nat)
    requires Edited(was, now, offset, content, z, |content|) && |was| + z == Max(|was|, offset)
    ensures now == Overlay(ZeroExtend(was, offset), offset, content)
  {
    assert content[..|content|] == content;
    assert |was| >= offset ==> was + Zeros(z) == was;
  }

  /** Bytes outside the edited range are the old ones, or zero past the old end; nothing is cut off. */
  lemma OutsideUntouched(was: bytes, now: bytes, offset: nat, content: bytes, z: nat, k: nat, i: nat)
    requires Edited(was, now, offset, content, z, k)
    requires i < |now| && !(offset <= i < offset + |content|)
    ensures |was| <= |now| && now[i] == if i < |was| then was[i] else 0
  {
  }

  /** A later read at the offset, with any chunk size, hands the data back first. */
  lemma ReadBack(was: bytes, offset: nat, content: bytes, size: nat, ret: int, delivered: seq<bytes>)
    requires var now := Overlay(ZeroExtend(was, offset), offset, content);
             ReadOutcome(Rest(now, offset), size, _ => true, [], ret, delivered, false) && ret >= 0
    ensures content <= Flatten(delivered)
  {
    var now := Overlay(ZeroExtend(was, offset), offset, content);
    assert now[offset..][..|content|] == content;
  }
}
