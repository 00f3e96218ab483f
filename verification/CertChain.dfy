/**
 Loading a PEM certificate chain on the esp8266 in two passes over the decoder's events: one
 measures the certificates, one copies them into blocks of exactly the measured sizes.
 */
module CertChain {
  import opened Pattern
  import opened FileReader

  /** "CERTIFICATE" */
  const CERTIFICATE: bytes := [67, 69, 82, 84, 73, 70, 73, 67, 65, 84, 69]

  /** What the PEM decoder produces: the start of a named object, a piece of its contents, its end. */
  datatype Event = Begin(name: bytes) | Data(piece: bytes) | End

  predicate NameIsCertificate(name: bytes) { NextOccurrence(name, CERTIFICATE, 0).Some? }

  /** Objects do not nest, and contents come only inside one; the last object may be cut off. */
  predicate WellFormed(open: bool, events: seq<Event>)
    decreases |events|
  {
    events == [] ||
    match events[0]
    case Begin(_) => !open && WellFormed(true, events[1..])
    case Data(_) => open && WellFormed(true, events[1..])
    case End => open && WellFormed(false, events[1..])
  }

  /** The reference reading: the non-empty certificates that were completed, and the object being read. */
  datatype Scan = Scan(open: bool, cert: bool, acc: bytes, done: seq<bytes>)

  function ScanStep(sc: Scan, e: Event): Scan {
    match e
    case Begin(name) => Scan(true, NameIsCertificate(name), [], sc.done)
    case Data(piece) => sc.(acc := if sc.cert then sc.acc + piece else sc.acc)
    case End => Scan(false, false, [], if sc.acc != [] then sc.done + [sc.acc] else sc.done)
  }

  function ScanFrom(sc: Scan, events: seq<Event>): Scan
    decreases |events|
  {
    if events == [] then sc else ScanFrom(ScanStep(sc, events[0]), events[1..])
  }

  const START := Scan(false, false, [], [])

  function Certificates(events: seq<Event>): seq<bytes> { ScanFrom(START, events).done }

  // ---- what the reference reading is, in terms of the objects of the file

  /** An object of the file: its name and its contents, in the pieces the decoder hands over. */
  datatype Object = Object(name: bytes, pieces: seq<bytes>)

  function Pieces(pieces: seq<bytes>): seq<Event> {
    if pieces == [] then [] else Pieces(pieces[..|pieces| - 1]) + [Data(pieces[|pieces| - 1])]
  }

  function Opened(o: Object): seq<Event> { [Begin(o.name)] + Pieces(o.pieces) }

  /** The events of objects one after the other. */
  function Printed(objects: seq<Object>): seq<Event> {
    if objects == [] then [] else Printed(objects[..|objects| - 1]) + Opened(objects[|objects| - 1]) + [End]
  }

  /** The events of a file: whole objects, and perhaps one that is cut off. */
  function FileOf(objects: seq<Object>, cutOff: Option<Object>): seq<Event> {
    match cutOff
    case Some(o) => Printed(objects) + Opened(o)
    case None => Printed(objects)
  }

  /** "CERTIFICATE" occurs in the name. */
  ghost predicate Named(o: Object) { exists i: nat :: OccursAt(o.name, CERTIFICATE, i) }

  /** The contents of the objects that are certificates and not empty, in order. */
  ghost function Contents(objects: seq<Object>): seq<bytes> {
    if objects == [] then []
    else
      var o := objects[|objects| - 1];
      Contents(objects[..|objects| - 1]) + if Named(o) && Flatten(o.pieces) != [] then [Flatten(o.pieces)] else []
  }

  lemma NameTest(o: Object)
    ensures NameIsCertificate(o.name) <==> Named(o)
  {
    hide NextOccurrence, OccursAt;
    match NextOccurrence(o.name, CERTIFICATE, 0)
    case Some(i) => LeastOccurrence(o.name, CERTIFICATE, 0, i);
    case None =>
      forall i: nat ensures !OccursAt(o.name, CERTIFICATE, i) {
        LeastOccurrence(o.name, CERTIFICATE, 0, i);
      }
  }

  lemma {:induction false} ScanJoin(sc: Scan, a: seq<Event>, b: seq<Event>)
    ensures ScanFrom(sc, a + b) == ScanFrom(ScanFrom(sc, a), b)
    decreases |a|
  {
    hide ScanStep;
    if a == [] {
      assert a + b == b;
    } else {
      assert (a + b)[1..] == a[1..] + b;
      ScanJoin(ScanStep(sc, a[0]), a[1..], b);
    }
  }

  lemma ScanOne(sc: Scan, e: Event)
    ensures ScanFrom(sc, [e]) == ScanStep(sc, e)
  {
    hide ScanStep;
    assert [e][1..] == [];
  }

  /** The pieces of an object are put together, or dropped when it is no certificate. */
  lemma {:induction false} ScanPieces(sc: Scan, pieces: seq<bytes>)
    ensures ScanFrom(sc, Pieces(pieces)) == sc.(acc := if sc.cert then sc.acc + Flatten(pieces) else sc.acc)
    decreases |pieces|
  {
    if pieces == [] {
      assert sc.acc + [] == sc.acc;
    } else {
      var init, last := pieces[..|pieces| - 1], pieces[|pieces| - 1];
      ScanPieces(sc, init);
      ScanJoin(sc, Pieces(init), [Data(last)]);
      ScanOne(ScanFrom(sc, Pieces(init)), Data(last));
      assert (sc.acc + Flatten(init)) + last == sc.acc + (Flatten(init) + last);
    }
  }

  lemma ScanOpened(sc: Scan, o: Object)
    ensures ScanFrom(sc, Opened(o)) == Scan(true, Named(o), if Named(o) then Flatten(o.pieces) else [], sc.done)
  {
    ScanJoin(sc, [Begin(o.name)], Pieces(o.pieces));
    ScanOne(sc, Begin(o.name));
    NameTest(o);
    hide Named, NameIsCertificate, Flatten, ScanFrom;
    ScanPieces(ScanStep(sc, Begin(o.name)), o.pieces);
    assert [] + Flatten(o.pieces) == Flatten(o.pieces);
  }

  lemma ScanObject(sc: Scan, o: Object)
    ensures ScanFrom(sc, Opened(o) + [End]) ==
            Scan(false, false, [], sc.done + if Named(o) && Flatten(o.pieces) != [] then [Flatten(o.pieces)] else [])
  {
    hide Named, Flatten, ScanFrom, Opened;
    ScanJoin(sc, Opened(o), [End]);
    ScanOpened(sc, o);
    ScanOne(ScanFrom(sc, Opened(o)), End);
  }

  lemma {:induction false} ScanPrinted(objects: seq<Object>)
    ensures ScanFrom(START, Printed(objects)) == Scan(false, false, [], Contents(objects))
    decreases |objects|
  {
    if objects == [] {
    } else {
      var init, o := objects[..|objects| - 1], objects[|objects| - 1];
      hide Named, Flatten, ScanFrom, Opened;
      ScanPrinted(init);
      assert Printed(objects) == Printed(init) + (Opened(o) + [End]);
      ScanJoin(START, Printed(init), Opened(o) + [End]);
      ScanObject(ScanFrom(START, Printed(init)), o);
    }
  }

  /**
   The certificates of a file are, in order, the put-together contents of exactly those of its whole objects in
   whose name "CERTIFICATE" occurs and that are not empty.
   */
  lemma CertificatesAre(objects: seq<Object>, cutOff: Option<Object>)
    ensures Certificates(FileOf(objects, cutOff)) == Contents(objects)
  {
    ScanPrinted(objects);
    match cutOff
    case None =>
    case Some(o) =>
      hide Named, Flatten, ScanFrom, Opened, Printed, Contents;
      ScanJoin(START, Printed(objects), Opened(o));
      ScanOpened(ScanFrom(START, Printed(objects)), o);
  }

  /** Whether an object is open behind the events. */
  function EndsOpen(open: bool, events: seq<Event>): bool {
    if events == [] then open else !events[|events| - 1].End?
  }

  lemma {:induction false} LastFits(open: bool, init: seq<Event>, last: Event)
    requires WellFormed(open, init + [last])
    ensures WellFormed(open, init) && (last.Begin? <==> !EndsOpen(open, init))
    decreases |init|
  {
    if init == [] {
      assert init + [last] == [last];
    } else {
      assert (init + [last])[1..] == init[1..] + [last];
      var open1 := !init[0].End?;
      LastFits(open1, init[1..], last);
      assert EndsOpen(open, init) == EndsOpen(open1, init[1..]);
    }
  }

  lemma FileBegins(objects: seq<Object>, name: bytes)
    ensures FileOf(objects, Some(Object(name, []))) == FileOf(objects, None) + [Begin(name)]
  {
    hide Printed;
    assert Opened(Object(name, [])) == [Begin(name)];
  }

  lemma FileGoesOn(objects: seq<Object>, o: Object, piece: bytes)
    ensures FileOf(objects, Some(Object(o.name, o.pieces + [piece]))) == FileOf(objects, Some(o)) + [Data(piece)]
  {
    hide Printed;
    var more := o.pieces + [piece];
    assert more[..|more| - 1] == o.pieces;
    assert Pieces(more) == Pieces(o.pieces) + [Data(piece)];
    hide Pieces;
    assert Opened(Object(o.name, more)) == Opened(o) + [Data(piece)];
    assert Printed(objects) + (Opened(o) + [Data(piece)]) == (Printed(objects) + Opened(o)) + [Data(piece)];
  }

  lemma FileCloses(objects: seq<Object>, o: Object)
    ensures FileOf(objects + [o], None) == FileOf(objects, Some(o)) + [End]
  {
    hide Opened;
    assert (objects + [o])[..|objects|] == objects;
  }

  /** Every well-formed sequence of events is that of such a file. */
  lemma {:induction false} EveryFile(events: seq<Event>) returns (objects: seq<Object>, cutOff: Option<Object>)
    requires WellFormed(false, events)
    ensures events == FileOf(objects, cutOff) && cutOff.Some? == EndsOpen(false, events)
    decreases |events|
  {
    hide FileOf, WellFormed;
    if events == [] {
      objects, cutOff := [], None;
      NoEvents();
    } else {
      var init, last := events[..|events| - 1], events[|events| - 1];
      assert events == init + [last];
      LastFits(false, init, last);
      objects, cutOff := EveryFile(init);
      match last {
        case Begin(name) =>
          FileBegins(objects, name);
          cutOff := Some(Object(name, []));
        case Data(piece) =>
          FileGoesOn(objects, cutOff.value, piece);
          cutOff := Some(Object(cutOff.value.name, cutOff.value.pieces + [piece]));
        case End =>
          FileCloses(objects, cutOff.value);
          objects, cutOff := objects + [cutOff.value], None;
      }
    }
  }

  lemma NoEvents()
    ensures FileOf([], None) == []
  {
  }

  /** Completed certificates stay, and a certificate being read is a beginning of the next completed one. */
  lemma {:induction false} Ahead(sc: Scan, events: seq<Event>)
    requires WellFormed(sc.open, events)
    ensures sc.done <= ScanFrom(sc, events).done
    ensures sc.open && sc.cert && |sc.done| < |ScanFrom(sc, events).done| ==> sc.acc <= ScanFrom(sc, events).done[|sc.done|]
    decreases |events|
  {
    if events == [] {
    } else {
      hide NameIsCertificate;
      Ahead(ScanStep(sc, events[0]), events[1..]);
    }
  }

  lemma {:induction false} FlattenPrefix(a: seq<bytes>, b: seq<bytes>)
    requires a <= b
    ensures Flatten(a) <= Flatten(b)
    decreases |b|
  {
    if |a| == |b| {
      assert a == b;
    } else {
      FlattenPrefix(a, b[..|b| - 1]);
    }
  }

  /** There is room behind the completed certificates for what is known of the next one. */
  lemma Room(done: seq<bytes>, total: seq<bytes>, acc: bytes)
    requires done <= total && |done| < |total| && acc <= total[|done|]
    ensures |Flatten(done)| + |acc| <= |Flatten(total)|
  {
    var next := total[..|done| + 1];
    assert next[..|done|] == done;
    assert Flatten(next) == Flatten(done) + total[|done|];
    hide Flatten;
    FlattenPrefix(next, total);
  }

  /** The counting context. */
  class Counter {
    var certCount: nat
    var totalDerBytes: nat
    var currentObjBytes: nat
    var sinking: bool

    ghost predicate Tracks(sc: Scan)
      reads this
    {
      && certCount == |sc.done|
      && totalDerBytes == |Flatten(sc.done)|
      && currentObjBytes == |sc.acc|
      && (sc.open ==> sinking == sc.cert)
    }

    constructor ()
      ensures Tracks(START)
    {
      certCount, totalDerBytes, currentObjBytes, sinking := 0, 0, 0, false;
    }

    method OnEvent(e: Event, ghost sc: Scan)
      requires Tracks(sc) && WellFormed(sc.open, [e])
      modifies this
      ensures Tracks(ScanStep(sc, e))
    {
      hide NameIsCertificate;
      match e
      case Begin(name) =>
        currentObjBytes := 0;
        sinking := NameIsCertificate(name);
      case Data(piece) =>
        if sinking {
          currentObjBytes := currentObjBytes + |piece|;
        }
      case End =>
        FlattenAppend(sc.done, sc.acc);
        if currentObjBytes > 0 {
          certCount := certCount + 1;
          totalDerBytes := totalDerBytes + currentObjBytes;
          currentObjBytes := 0;
        }
    }
  }

  /** An entry of the chain: where its certificate lies in the backing block. */
  datatype Entry = Entry(start: nat, len: nat)

  /** The entries cut the bytes of the certificates out of the backing block, one after the other. */
  ghost predicate Partitions(entries: seq<Entry>, certs: seq<bytes>) {
    |entries| == |certs| &&
    forall i :: 0 <= i < |certs| ==> entries[i] == Entry(|Flatten(certs[..i])|, |certs[i]|)
  }

  lemma PartitionsMore(entries: seq<Entry>, certs: seq<bytes>, c: bytes)
    requires Partitions(entries, certs)
    ensures Partitions(entries + [Entry(|Flatten(certs)|, |c|)], certs + [c])
  {
    var more := certs + [c];
    forall i | 0 <= i < |more|
      ensures (entries + [Entry(|Flatten(certs)|, |c|)])[i] == Entry(|Flatten(more[..i])|, |more[i]|)
    {
      assert more[..i] == certs[..i];
      assert certs[..|certs|] == certs;
    }
  }

  /** The filling context; `filling` is whether the decoder's destination is the fill sink. */
  class Filler {
    const backing: array<byte>
    const chain: array<Entry>
    var backingPos: nat
    var chainPos: nat
    var currentObjStart: nat
    var filling: bool

    ghost predicate Tracks(sc: Scan, total: seq<bytes>)
      reads this, backing, chain
    {
      && backing.Length == |Flatten(total)| && chain.Length == |total|
      && sc.done <= total && chainPos == |sc.done|
      && currentObjStart == |Flatten(sc.done)|
      && (sc.open ==> filling == (sc.cert && |sc.done| < |total|))
      && (!sc.cert ==> sc.acc == [])
      && Filled(Flatten(sc.done) + if sc.open && filling then sc.acc else [])
      && Partitions(chain[..chainPos], sc.done)
    }

    ghost predicate Filled(s: bytes)
      reads this, backing
    {
      backingPos == |s| <= backing.Length && backing[..backingPos] == s
    }

    constructor (backing: array<byte>, chain: array<Entry>, ghost total: seq<bytes>)
      requires backing.Length == |Flatten(total)| && chain.Length == |total|
      ensures this.backing == backing && this.chain == chain
      ensures Tracks(START, total)
    {
      this.backing, this.chain := backing, chain;
      backingPos, chainPos, currentObjStart, filling := 0, 0, 0, false;
    }

    /** The fill sink. */
    method Copy(src: bytes)
      requires backingPos + |src| <= backing.Length
      modifies this`backingPos, backing
      ensures backingPos == old(backingPos) + |src|
      ensures backing[..backingPos] == old(backing[..backingPos]) + src
    {
      var at := backingPos;
      forall i | 0 <= i < |src| {
        backing[at + i] := src[i];
      }
      backingPos := backingPos + |src|;
    }

    method OnBegin(name: bytes, ghost sc: Scan, ghost total: seq<bytes>)
      requires Tracks(sc, total) && !sc.open && |sc.done| <= |total|
      modifies this
      ensures Tracks(ScanStep(sc, Begin(name)), total)
    {
      hide NameIsCertificate, Partitions;
      if NameIsCertificate(name) && chainPos < chain.Length {
        currentObjStart := backingPos;
        filling := true;
      } else {
        filling := false;
      }
    }

    method OnData(piece: bytes, ghost sc: Scan, ghost total: seq<bytes>)
      requires Tracks(sc, total) && sc.open
      requires filling ==> |Flatten(sc.done)| + |sc.acc + piece| <= |Flatten(total)|
      modifies this, backing
      ensures Tracks(ScanStep(sc, Data(piece)), total)
    {
      hide Partitions;
      if filling {
        Copy(piece);
        assert Flatten(sc.done) + (sc.acc + piece) == (Flatten(sc.done) + sc.acc) + piece;
      }
    }

    /** The entry for what was copied since the object began. */
    method AddEntry()
      requires chainPos < chain.Length && currentObjStart <= backingPos
      modifies this`chainPos, this`currentObjStart, chain
      ensures chainPos == old(chainPos) + 1 && currentObjStart == backingPos
      ensures chain[..chainPos] == old(chain[..chainPos]) + [Entry(old(currentObjStart), backingPos - old(currentObjStart))]
    {
      chain[chainPos] := Entry(currentObjStart, backingPos - currentObjStart);
      chainPos := chainPos + 1;
      currentObjStart := backingPos;
    }

    method OnEnd(ghost sc: Scan, ghost total: seq<bytes>)
      requires Tracks(sc, total) && sc.open
      requires ScanStep(sc, End).done <= total
      modifies this, chain
      ensures Tracks(ScanStep(sc, End), total)
    {
      hide Partitions, Flatten;
      if backingPos > currentObjStart {
        FlattenAppend(sc.done, sc.acc);
        PartitionsMore(chain[..chainPos], sc.done, sc.acc);
        AddEntry();
      } else {
        assert sc.acc == [];
      }
    }
  }

  /** How far a pass over the events got: all the way, or to a read or decoding error. */
  datatype Pass = Pass(seen: nat, ok: bool)

  predicate IsPass(p: Pass, events: seq<Event>) {
    p.seen <= |events| && (p.ok ==> p.seen == |events|)
  }

  /** Reading one more event is reading a longer prefix, and the rest stays well-formed. */
  lemma {:induction false} OneMore(sc: Scan, events: seq<Event>, i: nat)
    requires i <= |events| && WellFormed(sc.open, events)
    ensures WellFormed(ScanFrom(sc, events[..i]).open, events[i..])
    ensures ScanFrom(ScanFrom(sc, events[..i]), events[i..]) == ScanFrom(sc, events)
    ensures i < |events| ==> ScanFrom(sc, events[..i + 1]) == ScanStep(ScanFrom(sc, events[..i]), events[i])
    decreases |events|
  {
    hide NameIsCertificate;
    if i == 0 {
      assert events[..0] == [] && events[0..] == events;
      if events != [] {
        assert events[..1][1..] == [];
      }
    } else {
      assert events[..i][1..] == events[1..][..i - 1];
      assert events[i..] == events[1..][i - 1..];
      if i < |events| {
        assert events[..i + 1][1..] == events[1..][..i];
        assert events[1..][i - 1] == events[i];
      }
      OneMore(ScanStep(sc, events[0]), events[1..], i - 1);
    }
  }

  /** The first pass: it counts the completed, non-empty certificates it has seen and their bytes. */
  method Count(events: seq<Event>, p: Pass) returns (certCount: nat, totalDerBytes: nat)
    requires WellFormed(false, events) && IsPass(p, events)
    ensures certCount == |Certificates(events[..p.seen])|
    ensures totalDerBytes == |Flatten(Certificates(events[..p.seen]))|
  {
    var ctx := new Counter();
    var i := 0;
    while i < p.seen
      invariant i <= p.seen && ctx.Tracks(ScanFrom(START, events[..i]))
    {
      OneMore(START, events, i);
      ctx.OnEvent(events[i], ScanFrom(START, events[..i]));
      i := i + 1;
    }
    return ctx.certCount, ctx.totalDerBytes;
  }

  /**
   The second pass, over any beginning of the same events. Every write is inside the blocks, which are
   as large as the first pass said; a completed pass fills both exactly.
   */
  method Fill(events: seq<Event>, p: Pass, backing: array<byte>, chain: array<Entry>) returns (chainPos: nat)
    requires WellFormed(false, events) && IsPass(p, events)
    requires backing.Length == |Flatten(Certificates(events))| && chain.Length == |Certificates(events)|
    modifies backing, chain
    ensures chainPos == |Certificates(events[..p.seen])| <= chain.Length
    ensures p.ok ==> backing[..] == Flatten(Certificates(events)) && Partitions(chain[..], Certificates(events))
  {
    ghost var total := Certificates(events);
    var ctx := new Filler(backing, chain, total);
    var i := 0;
    while i < p.seen
      invariant i <= p.seen && ctx.backing == backing && ctx.chain == chain && fresh(ctx)
      invariant ctx.Tracks(ScanFrom(START, events[..i]), total)
    {
      ghost var sc := ScanFrom(START, events[..i]);
      OneMore(START, events, i);
      FillStep(ctx, events[i], sc, events[i..], total);
      i := i + 1;
    }
    chainPos := ctx.chainPos;
    if p.ok {
      assert events[..|events|] == events;
      assert chain[..] == chain[..chainPos];
      assert backing[..] == backing[..ctx.backingPos];
    }
  }

  /** One event of the second pass; what is ahead shows that it fits. */
  method FillStep(ctx: Filler, e: Event, ghost sc: Scan, ghost ahead: seq<Event>, ghost total: seq<bytes>)
    requires ahead != [] && ahead[0] == e && WellFormed(sc.open, ahead) && ScanFrom(sc, ahead).done == total
    requires ctx.Tracks(sc, total)
    modifies ctx, ctx.backing, ctx.chain
    ensures ctx.Tracks(ScanStep(sc, e), total)
  {
    Ahead(ScanStep(sc, e), ahead[1..]);
    hide ScanFrom, Flatten, Partitions, NameIsCertificate;
    match e
    case Begin(name) => ctx.OnBegin(name, sc, total);
    case Data(piece) =>
      if ctx.filling {
        Room(sc.done, total, sc.acc + piece);
      }
      ctx.OnData(piece, sc, total);
    case End => ctx.OnEnd(sc, total);
  }

  /** A loaded chain. */
  datatype Chain = Chain(entries: array<Entry>, backing: array<byte>)

  /**
   Both passes. The load succeeds exactly when both passes completed, there is a certificate, and both
   blocks could be allocated; the entries then cut the backing block into the certificates, in order
   and without a gap.
   */
  method LoadCertChain(events: seq<Event>, first: Pass, second: Pass, backingOk: bool, chainOk: bool)
    returns (r: Option<Chain>)
    requires WellFormed(false, events) && IsPass(first, events) && IsPass(second, events)
    ensures r.Some? <==> first.ok && second.ok && backingOk && chainOk && Certificates(events) != []
    ensures r.Some? ==> fresh(r.value.entries) && fresh(r.value.backing)
    ensures r.Some? ==> r.value.backing[..] == Flatten(Certificates(events))
    ensures r.Some? ==> Partitions(r.value.entries[..], Certificates(events))
    ensures forall objects, cutOff :: events == FileOf(objects, cutOff) ==> Certificates(events) == Contents(objects)
  {
    forall objects, cutOff | events == FileOf(objects, cutOff) ensures Certificates(events) == Contents(objects) {
      CertificatesAre(objects, cutOff);
    }
    hide FileOf, Contents;
    assert events[..|events|] == events;
    var certCount, totalDerBytes := Count(events, first);
    NothingEmpty(START, events);
    NonEmptyBytes(Certificates(events));
    if !first.ok || certCount == 0 || totalDerBytes == 0 {
      return None;
    }
    if !backingOk || !chainOk {
      return None;
    }
    var backing := new byte[totalDerBytes];
    var chain := new Entry[certCount];
    var chainPos := Fill(events, second, backing, chain);
    if !second.ok || chainPos != certCount {
      return None;
    }
    return Some(Chain(chain, backing));
  }

  ghost predicate AllNonEmpty(certs: seq<bytes>) {
    forall i :: 0 <= i < |certs| ==> certs[i] != []
  }

  lemma {:induction false} NothingEmpty(sc: Scan, events: seq<Event>)
    requires AllNonEmpty(sc.done)
    ensures AllNonEmpty(ScanFrom(sc, events).done)
    decreases |events|
  {
    if events == [] {
    } else {
      hide NameIsCertificate;
      NothingEmpty(ScanStep(sc, events[0]), events[1..]);
    }
  }

  lemma NonEmptyBytes(certs: seq<bytes>)
    requires AllNonEmpty(certs)
    ensures certs != [] ==> Flatten(certs) != []
  {
  }

  /** A certificate is what its entry says it is. */
  lemma EntryIsCertificate(entries: seq<Entry>, certs: seq<bytes>, i: nat)
    requires Partitions(entries, certs) && i < |certs|
    ensures entries[i].start + entries[i].len <= |Flatten(certs)|
    ensures Flatten(certs)[entries[i].start..entries[i].start + entries[i].len] == certs[i]
  {
    hide Flatten;
    FlattenUpTo(certs, i);
    FlattenPrefix(certs[..i + 1], certs);
  }

  lemma FlattenUpTo(certs: seq<bytes>, i: nat)
    requires i < |certs|
    ensures Flatten(certs[..i + 1]) == Flatten(certs[..i]) + certs[i]
  {
    var next := certs[..i + 1];
    assert next[..i] == certs[..i];
  }

  /** Where a second pass would stand that copies every certificate object it meets. */
  function UnguardedPos(open: bool, cert: bool, events: seq<Event>): nat
    decreases |events|
  {
    if events == [] then 0
    else
      match events[0]
      case Begin(name) => UnguardedPos(true, NameIsCertificate(name), events[1..])
      case Data(piece) => (if cert then |piece| else 0) + UnguardedPos(open, cert, events[1..])
      case End => UnguardedPos(false, false, events[1..])
  }

  lemma {:induction false} UnguardedBytes(sc: Scan, events: seq<Event>)
    requires WellFormed(sc.open, events) && (!sc.cert ==> sc.acc == [])
    requires !sc.open ==> sc.acc == []
    ensures var end := ScanFrom(sc, events);
      |Flatten(sc.done)| + |sc.acc| + UnguardedPos(sc.open, sc.cert, events) == |Flatten(end.done)| + |end.acc|
    decreases |events|
  {
    if events == [] {
    } else {
      hide NameIsCertificate;
      FlattenAppend(sc.done, sc.acc);
      UnguardedBytes(ScanStep(sc, events[0]), events[1..]);
    }
  }

  /**
   Why the second pass looks at `chainPos < chainCap`: without that test it would leave the backing
   block exactly for the files that end inside a certificate of which there is data.
   */
  lemma GuardNeeded(events: seq<Event>)
    requires WellFormed(false, events)
    ensures UnguardedPos(false, false, events) > |Flatten(Certificates(events))| <==> ScanFrom(START, events).acc != []
  {
    UnguardedBytes(START, events);
  }
}
