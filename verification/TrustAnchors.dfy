/**
 Trust anchors on the esp8266: which heap blocks the loader owns, block by block, when any
 allocation may fail. The heap is explicit, so that a leak, a double free or a write outside a block
 would show.
 */
module TrustAnchors {
  import opened Pattern
  import opened FileReader
  import opened Words

  type Ptr = Option<nat>

  type Blocks = map<nat, bytes>

  /** `after` is `before` and the blocks `own`, which are new. */
  ghost predicate Adds(before: Blocks, own: set<nat>, after: Blocks) {
    && own !! before.Keys
    && after.Keys == before.Keys + own
    && forall k :: k in before ==> after[k] == before[k]
  }

  /** The C heap: its live blocks, and which of the coming requests it grants. */
  class Heap {
    var blocks: Blocks
    var next: nat
    var calls: nat
    const grants: nat -> bool

    constructor (grants: nat -> bool)
      ensures Valid() && blocks == map[] && this.grants == grants
    {
      this.grants := grants;
      blocks, next, calls := map[], 0, 0;
    }

    ghost predicate Valid()
      reads this
    {
      forall k :: k in blocks ==> k < next
    }

    method Malloc(size: nat) returns (p: Ptr)
      requires Valid()
      modifies this
      ensures Valid() && next >= old(next)
      ensures p.None? ==> blocks == old(blocks)
      ensures p.Some? ==> p.value >= old(next) && Adds(old(blocks), {p.value}, blocks) && |blocks[p.value]| == size
      ensures old(grants(calls)) ==> p.Some?
    {
      calls := calls + 1;
      if !grants(calls - 1) {
        return None;
      }
      blocks := blocks[next := Zeros(size)];
      p := Some(next);
      next := next + 1;
    }

    /** Freeing nothing is allowed, freeing a dead block is not. */
    method Free(p: Ptr)
      requires Valid() && (p.Some? ==> p.value in blocks)
      modifies this`blocks
      ensures Valid() && blocks == if p.Some? then old(blocks) - {p.value} else old(blocks)
    {
      if p.Some? {
        blocks := blocks - {p.value};
      }
    }

    /** A resized block keeps what fits; on failure the old block stays. A size of zero is excluded: its meaning varies. */
    method Realloc(p: Ptr, size: nat) returns (q: Ptr)
      requires Valid() && (p.Some? ==> p.value in blocks) && size > 0
      modifies this
      ensures Valid() && next >= old(next)
      ensures q.None? ==> blocks == old(blocks)
      ensures q.Some? ==>
        && q.value >= old(next)
        && Adds(if p.Some? then old(blocks) - {p.value} else old(blocks), {q.value}, blocks)
        && |blocks[q.value]| == size
      ensures q.Some? && p.Some? ==>
        var kept := Min(size, |old(blocks)[p.value]|); blocks[q.value][..kept] == old(blocks)[p.value][..kept]
      ensures old(grants(calls)) ==> q.Some?
    {
      calls := calls + 1;
      if !grants(calls - 1) {
        return None;
      }
      var was := if p.Some? then blocks[p.value] else [];
      var kept := Min(size, |was|);
      var contents := was[..kept] + Zeros(size - kept);
      var rest := if p.Some? then blocks - {p.value} else blocks;
      blocks := rest[next := contents];
      q := Some(next);
      next := next + 1;
    }

    /** memcpy into a block; copying nothing needs no block. */
    method Store(p: Ptr, at: nat, src: bytes)
      requires Valid() && (src != [] ==> p.Some?)
      requires p.Some? ==> p.value in blocks && at + |src| <= |blocks[p.value]|
      modifies this`blocks
      ensures Valid()
      ensures p.None? ==> blocks == old(blocks)
      ensures p.Some? ==> blocks.Keys == old(blocks).Keys && blocks == old(blocks)[p.value := blocks[p.value]]
      ensures p.Some? ==> blocks[p.value] == Written(old(blocks)[p.value], at, src)
    {
      if p.Some? {
        var was := blocks[p.value];
        blocks := blocks[p.value := was[..at] + src + was[at + |src|..]];
      }
    }

    /** memcpy over a whole block. */
    method Fill(p: Ptr, src: bytes)
      requires Valid() && p.Some? && p.value in blocks && |blocks[p.value]| == |src|
      modifies this`blocks
      ensures Valid() && blocks == old(blocks)[p.value := src]
    {
      Store(p, 0, src);
      assert blocks[p.value] == src;
    }
  }

  function Written(was: bytes, at: nat, src: bytes): bytes
    requires at + |src| <= |was|
  {
    was[..at] + src + was[at + |src|..]
  }

  function Own(p: Ptr): set<nat> { if p.Some? then {p.value} else {} }

  lemma AddsUndo(before: Blocks, own: set<nat>, after: Blocks)
    requires Adds(before, own, after)
    ensures after - own == before
  {
  }

  lemma AddsMore(a: Blocks, own: set<nat>, b: Blocks, own': set<nat>, c: Blocks)
    requires Adds(a, own, b) && Adds(b, own', c)
    ensures Adds(a, own + own', c) && own !! own'
  {
  }

  lemma AddsLess(a: Blocks, own: set<nat>, b: Blocks, gone: set<nat>)
    requires Adds(a, own, b) && gone <= own
    ensures Adds(a, own - gone, b - gone)
  {
  }

  /** The buffer that collects the subject name, piece by piece. */
  class DnCapture {
    var data: Ptr
    var len: nat
    var cap: nat
    var oom: bool

    /** Beside the blocks `base` there is at most the buffer, and it begins with `got`. */
    ghost predicate Holds(heap: Heap, base: Blocks, got: bytes)
      reads this, heap
    {
      && heap.Valid()
      && Adds(base, Own(data), heap.blocks)
      && len == |got| <= cap
      && (data.None? ==> cap == 0)
      && (data.Some? ==> len > 0 && |heap.blocks[data.value]| == cap && heap.blocks[data.value][..len] == got)
    }

    constructor (heap: Heap)
      requires heap.Valid()
      ensures Holds(heap, heap.blocks, []) && !oom
    {
      data, len, cap, oom := None, 0, 0, false;
    }

    /** A capacity that is enough: doubled from the present one, or from 256. */
    static method NewCap(cap: nat, need: nat) returns (newCap: nat)
      requires need > cap
      ensures newCap >= need
      ensures newCap < 2 * need || newCap == if cap > 0 then 2 * cap else 256
    {
      newCap := if cap > 0 then cap * 2 else 256;
      ghost var start := newCap;
      while newCap < need
        invariant newCap > 0 && (newCap < 2 * need || newCap == start)
        decreases need - newCap
      {
        newCap := newCap * 2;
      }
    }

    /** The buffer is there, though perhaps with nothing in it yet. */
    ghost predicate HasRoom(heap: Heap, base: Blocks, got: bytes)
      reads this, heap
    {
      && heap.Valid() && data.Some? && Adds(base, Own(data), heap.blocks)
      && len == |got| <= cap
      && |heap.blocks[data.value]| == cap && heap.blocks[data.value][..len] == got
    }

    method Append(heap: Heap, src: bytes, ghost base: Blocks, ghost got: bytes)
      requires Holds(heap, base, got) || (HasRoom(heap, base, got) && src != [])
      requires len + |src| <= cap
      modifies this`len, heap`blocks
      ensures Holds(heap, base, got + src)
    {
      heap.Store(data, len, src);
      len := len + |src|;
      if data.Some? {
        var b := heap.blocks[data.value];
        assert b[..len] == got + src;
      }
    }

    /** Makes room for `need` bytes, or finds that there is none. */
    method Grow(heap: Heap, need: nat, ghost base: Blocks, ghost got: bytes)
      requires Holds(heap, base, got) && !oom && need > cap
      modifies this, heap
      ensures heap.Valid() && len == old(len)
      ensures oom ==> Holds(heap, base, got)
      ensures !oom ==> cap >= need && HasRoom(heap, base, got)
      ensures old(heap.grants(heap.calls)) ==> !oom
    {
      var newCap := NewCap(cap, need);
      var nb := heap.Realloc(data, newCap);
      if nb.None? {
        oom := true;
        return;
      }
      data := nb;
      cap := newCap;
    }

    /** The decoder's sink: until memory runs out, the buffer is all the pieces put together. */
    method Push(heap: Heap, src: bytes, ghost base: Blocks, ghost got: bytes)
      requires Holds(heap, base, got)
      modifies this, heap
      ensures Holds(heap, base, if oom then got else got + src)
      ensures old(oom) ==> oom
      ensures !old(oom) && old(heap.grants(heap.calls)) ==> !oom
    {
      if oom {
        return;
      }
      hide Adds;
      if len + |src| > cap {
        Grow(heap, len + |src|, base, got);
        if oom {
          return;
        }
      }
      Append(heap, src, base, got);
    }
  }

  /** What the X.509 decoder makes of a certificate: the pieces of its subject name, whether it is a CA, its key. */
  datatype Cert = Cert(name: seq<bytes>, ca: bool, key: PublicKey)
  datatype PublicKey = Undecodable | Unsupported | Rsa(n: bytes, e: bytes) | Ec(curve: int, q: bytes)

  datatype Anchor = Anchor(dn: Ptr, dnLen: nat, ca: bool, key: AnchorKey)
  datatype AnchorKey = NoKey | RsaKey(n: Ptr, nlen: nat, e: Ptr, elen: nat) | EcKey(curve: int, q: Ptr, qlen: nat)

  function KeyOwn(k: AnchorKey): set<nat> {
    match k
    case NoKey => {}
    case RsaKey(n, _, e, _) => Own(n) + Own(e)
    case EcKey(_, q, _) => Own(q)
  }

  /** The blocks an anchor reaches. */
  function Owned(a: Anchor): set<nat> { Own(a.dn) + KeyOwn(a.key) }

  /** No block is reached twice. */
  predicate Distinct(a: Anchor) {
    && Own(a.dn) !! KeyOwn(a.key)
    && (a.key.RsaKey? ==> Own(a.key.n) !! Own(a.key.e))
  }

  ghost predicate IsBlock(blocks: Blocks, p: Ptr, len: nat, contents: bytes) {
    len == |contents| && p.Some? && p.value in blocks && len <= |blocks[p.value]| && blocks[p.value][..len] == contents
  }

  ghost predicate KeyIs(blocks: Blocks, k: AnchorKey, key: PublicKey) {
    match k
    case NoKey => false
    case RsaKey(n, nlen, e, elen) => key.Rsa? && IsBlock(blocks, n, nlen, key.n) && IsBlock(blocks, e, elen, key.e)
    case EcKey(curve, q, qlen) => key.Ec? && curve == key.curve && IsBlock(blocks, q, qlen, key.q)
  }

  /** An anchor says what its certificate says. */
  ghost predicate Represents(blocks: Blocks, a: Anchor, c: Cert) {
    && a.dnLen == |Flatten(c.name)|
    && (a.dnLen > 0 ==> IsBlock(blocks, a.dn, a.dnLen, Flatten(c.name)))
    && a.ca == c.ca
    && KeyIs(blocks, a.key, c.key)
  }

  predicate Supported(c: Cert) { c.key.Rsa? || c.key.Ec? }

  ghost predicate Generous(heap: Heap) { forall i :: heap.grants(i) }

  /** Everything an anchor reaches is freed, each block once. */
  method FreeContents(heap: Heap, a: Anchor)
    requires heap.Valid() && Owned(a) <= heap.blocks.Keys && Distinct(a)
    modifies heap`blocks
    ensures heap.Valid() && heap.blocks == old(heap.blocks) - Owned(a)
  {
    heap.Free(a.dn);
    match a.key
    case NoKey =>
    case RsaKey(n, _, e, _) =>
      heap.Free(n);
      heap.Free(e);
    case EcKey(_, q, _) => heap.Free(q);
  }

  method CaptureName(heap: Heap, name: seq<bytes>) returns (dn: DnCapture, ghost got: bytes)
    requires heap.Valid()
    modifies heap
    ensures fresh(dn) && dn.Holds(heap, old(heap.blocks), got)
    ensures !dn.oom ==> got == Flatten(name)
    ensures Generous(heap) ==> !dn.oom
  {
    ghost var base := heap.blocks;
    dn := new DnCapture(heap);
    got := [];
    var i := 0;
    while i < |name|
      invariant i <= |name| && fresh(dn) && dn.Holds(heap, base, got)
      invariant !dn.oom ==> got == Flatten(name[..i])
      invariant Generous(heap) ==> !dn.oom
    {
      assert name[..i + 1][..i] == name[..i];
      assert Flatten(name[..i + 1]) == Flatten(name[..i]) + name[i];
      dn.Push(heap, name[i], base, got);
      if !dn.oom {
        got := got + name[i];
      }
      i := i + 1;
    }
    assert name[..|name|] == name;
  }

  /** The buffer shrunk to its contents, if the heap agrees; its size is then never zero. */
  method Trim(heap: Heap, dn: DnCapture, ghost base: Blocks, ghost got: bytes) returns (p: Ptr)
    requires dn.Holds(heap, base, got)
    modifies heap
    ensures heap.Valid() && Adds(base, Own(p), heap.blocks)
    ensures got != [] ==> IsBlock(heap.blocks, p, dn.len, got)
  {
    p := dn.data;
    if dn.len < dn.cap {
      var trimmed := heap.Realloc(dn.data, dn.len);
      if trimmed.Some? {
        p := trimmed;
      }
    }
  }

  /** Two blocks filled with the modulus and the exponent. */
  method MakeRsa(heap: Heap, a: Anchor, n: bytes, e: bytes, ghost base: Blocks) returns (ok: bool, r: Anchor)
    requires heap.Valid() && a.key == NoKey && Adds(base, Own(a.dn), heap.blocks)
    modifies heap
    ensures heap.Valid() && (!ok ==> heap.blocks == base)
    ensures ok ==> r == a.(key := r.key) && Distinct(r) && Adds(base, Owned(r), heap.blocks) && KeyIs(heap.blocks, r.key, Rsa(n, e))
    ensures ok ==> forall k :: k in Own(a.dn) ==> heap.blocks[k] == old(heap.blocks)[k]
    ensures Generous(heap) ==> ok
  {
    r := TwoBlocks(heap, a, n, e, base);
    ghost var h := heap.blocks;
    if r.key.n.None? || r.key.e.None? {
      AddsUndo(base, Owned(r), h);
      FreeContents(heap, r);
      return false, r;
    }
    var pn, pe := r.key.n, r.key.e;
    assert pn.value in Owned(r) && pe.value in Owned(r);
    assert pn.value !in Own(a.dn) && pe.value !in Own(a.dn);
    heap.Fill(pn, n);
    heap.Fill(pe, e);
    AddsFilled(base, Owned(r), h, pn.value, n);
    AddsFilled(base, Owned(r), h[pn.value := n], pe.value, e);
    hide Adds;
    ok := true;
  }

  method TwoBlocks(heap: Heap, a: Anchor, n: bytes, e: bytes, ghost base: Blocks) returns (r: Anchor)
    requires heap.Valid() && a.key == NoKey && Adds(base, Own(a.dn), heap.blocks)
    modifies heap
    ensures heap.Valid() && r.key.RsaKey? && r == a.(key := RsaKey(r.key.n, |n|, r.key.e, |e|))
    ensures Adds(base, Owned(r), heap.blocks) && Distinct(r)
    ensures forall k :: k in Own(a.dn) ==> k in heap.blocks && heap.blocks[k] == old(heap.blocks)[k]
    ensures r.key.n.Some? ==> |heap.blocks[r.key.n.value]| == |n|
    ensures r.key.e.Some? ==> |heap.blocks[r.key.e.value]| == |e|
    ensures Generous(heap) ==> r.key.n.Some? && r.key.e.Some?
  {
    ghost var h0 := heap.blocks;
    var pn := heap.Malloc(|n|);
    ghost var h1 := heap.blocks;
    var pe := heap.Malloc(|e|);
    r := a.(key := RsaKey(pn, |n|, pe, |e|));
    assert Adds(h0, Own(pn), h1) && Adds(h1, Own(pe), heap.blocks);
    RsaBlocks(base, h0, h1, heap.blocks, r);
  }

  lemma RsaBlocks(base: Blocks, h0: Blocks, h1: Blocks, h2: Blocks, r: Anchor)
    requires r.key.RsaKey?
    requires Adds(base, Own(r.dn), h0) && Adds(h0, Own(r.key.n), h1) && Adds(h1, Own(r.key.e), h2)
    ensures Adds(base, Owned(r), h2) && Distinct(r)
    ensures forall k :: k in Own(r.dn) ==> k in h2 && h2[k] == h0[k]
  {
    AddsMore(base, Own(r.dn), h0, Own(r.key.n), h1);
    AddsMore(base, Own(r.dn) + Own(r.key.n), h1, Own(r.key.e), h2);
    assert Owned(r) == Own(r.dn) + Own(r.key.n) + Own(r.key.e);
  }

  lemma AddsFilled(a: Blocks, own: set<nat>, b: Blocks, k: nat, v: bytes)
    requires Adds(a, own, b) && k in own
    ensures Adds(a, own, b[k := v])
  {
  }

  method MakeEc(heap: Heap, a: Anchor, curve: int, q: bytes, ghost base: Blocks) returns (ok: bool, r: Anchor)
    requires heap.Valid() && a.key == NoKey && Adds(base, Own(a.dn), heap.blocks)
    modifies heap
    ensures heap.Valid() && (!ok ==> heap.blocks == base)
    ensures ok ==> r == a.(key := r.key) && Distinct(r) && Adds(base, Owned(r), heap.blocks) && KeyIs(heap.blocks, r.key, Ec(curve, q))
    ensures ok ==> forall k :: k in Own(a.dn) ==> heap.blocks[k] == old(heap.blocks)[k]
    ensures Generous(heap) ==> ok
  {
    ghost var h0 := heap.blocks;
    var pq := heap.Malloc(|q|);
    assert Adds(h0, Own(pq), heap.blocks);
    AddsMore(base, Own(a.dn), h0, Own(pq), heap.blocks);
    r := a.(key := EcKey(curve, pq, |q|));
    if pq.None? {
      AddsUndo(base, Owned(r), heap.blocks);
      FreeContents(heap, r);
      return false, r;
    }
    heap.Fill(pq, q);
    ok := true;
  }

  /**
   One certificate. On failure the heap is as it was; on success it has exactly the blocks the anchor
   reaches besides, each reached once, and they say what the certificate says.
   */
  method ToAnchor(heap: Heap, c: Cert) returns (ok: bool, a: Anchor)
    requires heap.Valid()
    modifies heap
    ensures heap.Valid() && (!ok ==> heap.blocks == old(heap.blocks))
    ensures ok ==> Distinct(a) && Adds(old(heap.blocks), Owned(a), heap.blocks) && Represents(heap.blocks, a, c)
    ensures ok ==> Supported(c)
    ensures Generous(heap) ==> (ok <==> Supported(c))
  {
    ghost var base := heap.blocks;
    a := Anchor(None, 0, false, NoKey);
    var dn, got := CaptureName(heap, c.name);
    if dn.oom || c.key.Undecodable? {
      AddsUndo(base, Own(dn.data), heap.blocks);
      heap.Free(dn.data);
      return false, a;
    }
    var p := Trim(heap, dn, base, got);
    a := Anchor(p, dn.len, c.ca, NoKey);
    if c.key.Rsa? {
      ok, a := MakeRsa(heap, a, c.key.n, c.key.e, base);
    } else if c.key.Ec? {
      ok, a := MakeEc(heap, a, c.key.curve, c.key.q, base);
    } else {
      AddsUndo(base, Owned(a), heap.blocks);
      FreeContents(heap, a);
      ok := false;
    }
  }

  function OwnedAll(anchors: seq<Anchor>): set<nat> {
    if anchors == [] then {} else Owned(anchors[0]) + OwnedAll(anchors[1..])
  }

  /** No block is reached twice, neither from one anchor nor from two. */
  ghost predicate Separate(anchors: seq<Anchor>) {
    anchors == [] || (Distinct(anchors[0]) && Owned(anchors[0]) !! OwnedAll(anchors[1..]) && Separate(anchors[1..]))
  }

  lemma {:induction false} SeparateMore(anchors: seq<Anchor>, a: Anchor)
    requires Separate(anchors) && Distinct(a) && OwnedAll(anchors) !! Owned(a)
    ensures Separate(anchors + [a]) && OwnedAll(anchors + [a]) == OwnedAll(anchors) + Owned(a)
    decreases |anchors|
  {
    hide Distinct, Owned;
    if anchors == [] {
      assert anchors + [a] == [a];
    } else {
      assert (anchors + [a])[1..] == anchors[1..] + [a];
      SeparateMore(anchors[1..], a);
    }
  }

  /** The anchors' blocks are freed, each once. */
  method FreeAll(heap: Heap, anchors: seq<Anchor>)
    requires heap.Valid() && Separate(anchors) && OwnedAll(anchors) <= heap.blocks.Keys
    modifies heap`blocks
    ensures heap.Valid() && heap.blocks == old(heap.blocks) - OwnedAll(anchors)
  {
    var j := 0;
    ghost var gone := {};
    while j < |anchors|
      invariant j <= |anchors| && heap.Valid()
      invariant Separate(anchors[j..]) && OwnedAll(anchors[j..]) <= heap.blocks.Keys
      invariant gone + OwnedAll(anchors[j..]) == OwnedAll(anchors)
      invariant heap.blocks == old(heap.blocks) - gone
    {
      assert anchors[j..][1..] == anchors[j + 1..];
      hide Distinct, Owned;
      FreeContents(heap, anchors[j]);
      gone := gone + Owned(anchors[j]);
      j := j + 1;
    }
  }

  /** The heap's side of loading the chain, given how its two passes go: two blocks, or none. */
  method AllocateChain(heap: Heap, total: nat, count: nat, counted: bool, filled: bool) returns (ok: bool, chain: Ptr, backing: Ptr)
    requires heap.Valid()
    modifies heap
    ensures heap.Valid() && (!ok ==> heap.blocks == old(heap.blocks))
    ensures ok ==> chain.Some? && backing.Some? && chain != backing && counted && filled
    ensures ok ==> Adds(old(heap.blocks), {chain.value, backing.value}, heap.blocks)
    ensures Generous(heap) ==> ok == (counted && filled)
  {
    if !counted {
      return false, None, None;
    }
    backing := heap.Malloc(total);
    chain := heap.Malloc(count);
    if backing.None? || chain.None? || !filled {
      heap.Free(backing);
      heap.Free(chain);
      return false, None, None;
    }
    return true, chain, backing;
  }

  method FreeCertChain(heap: Heap, chain: Ptr, backing: Ptr)
    requires heap.Valid() && Own(chain) <= heap.blocks.Keys && Own(backing) <= heap.blocks.Keys && Own(chain) !! Own(backing)
    modifies heap`blocks
    ensures heap.Valid() && heap.blocks == old(heap.blocks) - (Own(chain) + Own(backing))
  {
    heap.Free(chain);
    heap.Free(backing);
  }

  ghost predicate AllRepresent(blocks: Blocks, anchors: seq<Anchor>, certs: seq<Cert>) {
    |anchors| == |certs| && forall i :: 0 <= i < |certs| ==> Represents(blocks, anchors[i], certs[i])
  }

  lemma {:induction false} OwnedIn(anchors: seq<Anchor>, i: nat)
    requires i < |anchors|
    ensures Owned(anchors[i]) <= OwnedAll(anchors)
    decreases |anchors|
  {
    hide Owned;
    if i > 0 {
      OwnedIn(anchors[1..], i - 1);
    }
  }

  /** Anchors go on saying what they said while the blocks they reach stay as they are. */
  lemma StillRepresent(before: Blocks, after: Blocks, anchors: seq<Anchor>, certs: seq<Cert>)
    requires AllRepresent(before, anchors, certs)
    requires forall k :: k in OwnedAll(anchors) ==> k in before && k in after && after[k] == before[k]
    ensures AllRepresent(after, anchors, certs)
  {
    forall i | 0 <= i < |certs|
      ensures Represents(after, anchors[i], certs[i])
    {
      OwnedIn(anchors, i);
    }
  }

  /** One anchor more, or the heap as it was before the first of them. */
  method AddAnchor(heap: Heap, c: Cert, anchors: seq<Anchor>, ghost certs: seq<Cert>, ghost base: Blocks)
    returns (ok: bool, more: seq<Anchor>)
    requires heap.Valid() && Separate(anchors) && Adds(base, OwnedAll(anchors), heap.blocks)
    requires AllRepresent(heap.blocks, anchors, certs)
    modifies heap
    ensures heap.Valid() && (!ok ==> heap.blocks == base)
    ensures ok ==> Separate(more) && Adds(base, OwnedAll(more), heap.blocks) && AllRepresent(heap.blocks, more, certs + [c])
    ensures ok ==> Supported(c)
    ensures Generous(heap) ==> (ok <==> Supported(c))
  {
    ghost var was := heap.blocks;
    var a;
    ok, a := ToAnchor(heap, c);
    if !ok {
      AddsUndo(base, OwnedAll(anchors), was);
      FreeAll(heap, anchors);
      return false, anchors;
    }
    AddsMore(base, OwnedAll(anchors), was, Owned(a), heap.blocks);
    SeparateMore(anchors, a);
    StillRepresent(was, heap.blocks, anchors, certs);
    more := anchors + [a];
  }

  ghost predicate AllSupported(certs: seq<Cert>) {
    forall i :: 0 <= i < |certs| ==> Supported(certs[i])
  }

  /** The anchors for all certificates, or none and the heap as it was. */
  method MakeAnchors(heap: Heap, certs: seq<Cert>) returns (ok: bool, anchors: seq<Anchor>)
    requires heap.Valid()
    modifies heap
    ensures heap.Valid() && (!ok ==> heap.blocks == old(heap.blocks))
    ensures ok ==> Separate(anchors) && Adds(old(heap.blocks), OwnedAll(anchors), heap.blocks) && AllRepresent(heap.blocks, anchors, certs)
    ensures Generous(heap) ==> (ok <==> AllSupported(certs))
  {
    ghost var base := heap.blocks;
    anchors := [];
    var i := 0;
    while i < |certs|
      invariant i <= |certs| && heap.Valid() && Separate(anchors)
      invariant Adds(base, OwnedAll(anchors), heap.blocks) && AllRepresent(heap.blocks, anchors, certs[..i])
      invariant AllSupported(certs[..i])
    {
      hide Adds, AllRepresent, Separate, OwnedAll, Supported;
      assert certs[..i + 1] == certs[..i] + [certs[i]];
      ok, anchors := AddAnchor(heap, certs[i], anchors, certs[..i], base);
      if !ok {
        return;
      }
      i := i + 1;
    }
    assert certs[..|certs|] == certs;
    ok := true;
  }

  /** Anchors handed out: their array's block and the anchors in it. */
  datatype Anchors = Anchors(block: nat, list: seq<Anchor>)

  function Reached(r: Anchors): set<nat> { {r.block} + OwnedAll(r.list) }

  ghost predicate IsAnchors(before: Blocks, r: Anchors, after: Blocks) {
    Separate(r.list) && r.block !in OwnedAll(r.list) && Adds(before, Reached(r), after)
  }

  /**
   The whole load, with allocations failing at any point. A failed load leaves the heap as it found
   it; a successful one adds exactly the blocks that the result reaches.
   */
  method LoadTrustAnchors(heap: Heap, certs: seq<Cert>, total: nat, counted: bool, filled: bool) returns (r: Option<Anchors>)
    requires heap.Valid()
    modifies heap
    ensures heap.Valid() && (r.None? ==> heap.blocks == old(heap.blocks))
    ensures r.Some? ==> IsAnchors(old(heap.blocks), r.value, heap.blocks) && AllRepresent(heap.blocks, r.value.list, certs)
    ensures Generous(heap) ==> (r.Some? <==> counted && filled && AllSupported(certs))
  {
    ghost var h0 := heap.blocks;
    var loaded, chain, backing := AllocateChain(heap, total, |certs|, counted, filled);
    if !loaded {
      return None;
    }
    ghost var h1 := heap.blocks;
    ghost var two := {chain.value, backing.value};
    AddsUndo(h0, two, h1);
    assert Own(chain) + Own(backing) == two;
    var block := heap.Malloc(|certs|);
    ghost var h2 := heap.blocks;
    if block.None? {
      FreeCertChain(heap, chain, backing);
      return None;
    }
    AddsUndo(h1, {block.value}, h2);
    var ok, list := MakeAnchors(heap, certs);
    if !ok {
      heap.Free(block);
      FreeCertChain(heap, chain, backing);
      return None;
    }
    ghost var h3 := heap.blocks;
    Handed(h0, two, h1, block.value, h2, list, h3);
    hide Adds;
    FreeCertChain(heap, chain, backing);
    StillRepresent(h3, heap.blocks, list, certs);
    r := Some(Anchors(block.value, list));
  }

  /** What is left when the chain's two blocks have gone is what the anchors reach. */
  lemma Handed(h0: Blocks, two: set<nat>, h1: Blocks, block: nat, h2: Blocks, list: seq<Anchor>, h3: Blocks)
    requires Adds(h0, two, h1) && Adds(h1, {block}, h2) && Adds(h2, OwnedAll(list), h3) && Separate(list)
    ensures two <= h3.Keys && IsAnchors(h0, Anchors(block, list), h3 - two)
    ensures forall k :: k in OwnedAll(list) ==> k in h3 && k !in two
  {
    AddsMore(h0, two, h1, {block}, h2);
    AddsMore(h0, two + {block}, h2, OwnedAll(list), h3);
    AddsLess(h0, two + {block} + OwnedAll(list), h3, two);
    assert two + {block} + OwnedAll(list) - two == Reached(Anchors(block, list));
  }

  method FreeTrustAnchors(heap: Heap, r: Option<Anchors>, ghost before: Blocks)
    requires heap.Valid() && (r.Some? ==> IsAnchors(before, r.value, heap.blocks))
    modifies heap`blocks
    ensures heap.Valid() && heap.blocks == if r.Some? then before else old(heap.blocks)
  {
    if r.Some? {
      AddsUndo(before, Reached(r.value), heap.blocks);
      FreeAll(heap, r.value.list);
      heap.Free(Some(r.value.block));
    }
  }

  /** Loading and freeing leaves the heap as it was, whatever failed on the way. */
  method LoadAndFree(heap: Heap, certs: seq<Cert>, total: nat, counted: bool, filled: bool)
    requires heap.Valid()
    modifies heap
    ensures heap.Valid() && heap.blocks == old(heap.blocks)
  {
    var r := LoadTrustAnchors(heap, certs, total, counted, filled);
    FreeTrustAnchors(heap, r, old(heap.blocks));
  }
}
