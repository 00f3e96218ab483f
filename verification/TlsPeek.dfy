/**
 Reading from an established esp32 TLS session. `available` cannot ask mbedTLS whether a record is
 ready without reading from it, so it reads one byte and keeps it for the next `read`. The byte stream
 an application sees is nevertheless the decrypted stream, wherever `available` is called.
 */
module TlsPeek {
  import opened Pattern
  import opened Words

  const WANT_READ := -0x6900
  const WANT_WRITE := -0x6880
  const PEER_CLOSE_NOTIFY := -0x7880

  /** What mbedTLS comes up with when it has no decrypted byte left: a record, or a code that is not positive. */
  datatype Outcome = Record(data: bytes) | Code(rc: int)

  predicate IsOutcome(o: Outcome) {
    match o
    case Record(data) => data != []
    case Code(rc) => rc <= 0
  }

  /**
   The session: the flags, the byte kept by `available`, what mbedTLS holds of the current record, and the
   decrypted bytes that were freed with the session before they were read.
   */
  datatype Reader = Reader(tls: bool, handshakeDone: bool, engineFatal: bool, connected: bool,
                           kept: Option<byte>, record: bytes, freed: bytes)

  /** The guard at the head of `read` and `available`. */
  predicate Live(s: Reader) { s.tls && s.handshakeDone && !s.engineFatal }

  function Kept(s: Reader): bytes {
    match s.kept
    case Some(b) => [b]
    case None => []
  }

  /** The bytes decrypted and not yet given to the application. */
  function Pending(s: Reader): bytes { Kept(s) + s.record }

  /** The decrypted bytes that were not given to the application: pending ones, or ones freed by a close. */
  function Held(s: Reader): bytes { Pending(s) + s.freed }

  /** Bytes are pending in a session and freed with it. */
  predicate Sound(s: Reader) { if s.tls then s.freed == [] else s.kept.None? && s.record == [] }

  /** What a code does to the flags; the benign ones leave them alone. */
  function Settle(s: Reader, rc: int): Reader {
    if rc == 0 || rc == WANT_READ || rc == WANT_WRITE then s
    else if rc == PEER_CLOSE_NOTIFY then s.(connected := false)
    else s.(engineFatal := true, connected := false)
  }

  /** The record mbedTLS reads from. */
  function Current(s: Reader, o: Outcome): bytes {
    if s.record != [] then s.record else if o.Record? then o.data else []
  }

  /** `mbedtls_ssl_read` of at most `len` bytes, and the handling of its result. */
  function SslRead(s: Reader, len: nat, o: Outcome): (Reader, bytes) {
    var cur := Current(s, o);
    var n := Min(len, |cur|);
    if cur != [] then (s.(record := cur[n..]), cur[..n])
    else if o.Code? then (Settle(s, o.rc), [])
    else (s, [])
  }

  function Read(s: Reader, size: nat, o: Outcome): (Reader, bytes) {
    if size == 0 || !Live(s) then (s, [])
    else if |Kept(s)| == size then (s.(kept := None), Kept(s))
    else
      var (s1, more) := SslRead(s.(kept := None), size - |Kept(s)|, o);
      (s1, Kept(s) + more)
  }

  /** `queued` is whether ciphertext is waiting in the receive queue. */
  function Available(s: Reader, queued: bool, o: Outcome): (Reader, nat) {
    if !Live(s) then (s, 0)
    else if s.kept.Some? then (s, 1 + |s.record|)
    else if s.record != [] then (s, |s.record|)
    else if !queued then (s, 0)
    else
      var (s1, got) := SslRead(s, 1, o);
      if got != [] then (s1.(kept := Some(got[0])), 1 + |s1.record|) else (s1, 0)
  }

  /** What else happens to a session: an error reported by lwIP or by a write, and `close`. */
  datatype Event = ReadCall(size: nat, o: Outcome) | AvailableCall(queued: bool, o: Outcome) | Fault | Close

  /** A session after an event, what the application got, and what mbedTLS decrypted. */
  datatype Effect = Effect(s: Reader, out: bytes, decrypted: bytes)

  function Decrypted(s: Reader, asked: bool, o: Outcome): bytes {
    if asked && s.record == [] && o.Record? then o.data else []
  }

  predicate ReadAsks(s: Reader, size: nat) { Live(s) && size > |Kept(s)| }

  predicate AvailableAsks(s: Reader, queued: bool) { Live(s) && s.kept.None? && s.record == [] && queued }

  function Step(s: Reader, e: Event): Effect {
    match e
    case ReadCall(size, o) =>
      var (s1, out) := Read(s, size, o);
      Effect(s1, out, Decrypted(s, ReadAsks(s, size), o))
    case AvailableCall(queued, o) =>
      var (s1, n) := Available(s, queued, o);
      Effect(s1, [], Decrypted(s, AvailableAsks(s, queued), o))
    case Fault => Effect(s.(engineFatal := true, connected := false), [], [])
    case Close => Effect(s.(tls := false, connected := false, kept := None, record := [], freed := Held(s)), [], [])
  }

  lemma SslReadConserves(s: Reader, len: nat, o: Outcome)
    requires IsOutcome(o)
    ensures var (s1, out) := SslRead(s, len, o);
      out + s1.record == s.record + Decrypted(s, true, o) && s1.kept == s.kept
  {
    var cur := Current(s, o);
    var n := Min(len, |cur|);
    assert cur[..n] + cur[n..] == cur;
    assert s.record + [] == s.record && [] + s.record == s.record;
    if s.record == [] {
      assert s.record + Decrypted(s, true, o) == Decrypted(s, true, o);
    }
  }

  predicate GoodEvent(e: Event) {
    match e
    case ReadCall(_, o) => IsOutcome(o)
    case AvailableCall(_, o) => IsOutcome(o)
    case Fault => true
    case Close => true
  }

  /** What a read does when it turns to mbedTLS, in terms of the call it makes. */
  lemma ReadAsked(s: Reader, size: nat, o: Outcome)
    requires IsOutcome(o) && ReadAsks(s, size)
    ensures var (s1, out) := Read(s, size, o);
      var (s2, more) := SslRead(s.(kept := None), size - |Kept(s)|, o);
      out == Kept(s) + more && Pending(s1) == s2.record && more + s2.record == s.record + Decrypted(s, true, o)
  {
    SslReadConserves(s.(kept := None), size - |Kept(s)|, o);
    var (s2, more) := SslRead(s.(kept := None), size - |Kept(s)|, o);
    hide SslRead, Decrypted;
    assert [] + s2.record == s2.record;
  }

  lemma Regroup(k: bytes, m: bytes, r: bytes, t: bytes, d: bytes)
    requires m + r == t + d
    ensures (k + m) + r == (k + t) + d
  {
    assert (k + m) + r == k + (m + r);
    assert k + (t + d) == (k + t) + d;
  }

  lemma ReadConserves(s: Reader, size: nat, o: Outcome)
    requires IsOutcome(o)
    ensures var (s1, out) := Read(s, size, o);
      out + Pending(s1) == Pending(s) + Decrypted(s, ReadAsks(s, size), o)
  {
    if ReadAsks(s, size) {
      ReadAsked(s, size, o);
      var (s2, more) := SslRead(s.(kept := None), size - |Kept(s)|, o);
      assert Pending(s) == Kept(s) + s.record;
      hide *;
      Regroup(Kept(s), more, s2.record, s.record, Decrypted(s, true, o));
    } else {
      ReadUnasked(s, size, o);
    }
  }

  lemma ReadUnasked(s: Reader, size: nat, o: Outcome)
    requires !ReadAsks(s, size)
    ensures var (s1, out) := Read(s, size, o);
      out + Pending(s1) == Pending(s) + Decrypted(s, false, o)
  {
  }

  lemma AvailableConserves(s: Reader, queued: bool, o: Outcome)
    requires IsOutcome(o)
    ensures var (s1, n) := Available(s, queued, o);
      Pending(s1) == Pending(s) + Decrypted(s, AvailableAsks(s, queued), o)
  {
    if AvailableAsks(s, queued) {
      SslReadConserves(s, 1, o);
      var (s1, got) := SslRead(s, 1, o);
      assert s.record + Decrypted(s, true, o) == Pending(s) + Decrypted(s, true, o);
      if got != [] {
        assert got == [got[0]];
      }
    }
  }

  /** No event loses, repeats or reorders a decrypted byte; only a close frees some. */
  lemma StepConserves(s: Reader, e: Event)
    requires GoodEvent(e) && Sound(s)
    ensures Sound(Step(s, e).s) && Step(s, e).out + Held(Step(s, e).s) == Held(s) + Step(s, e).decrypted
  {
    match e
    case ReadCall(size, o) =>
      ReadConserves(s, size, o);
      SameFreed(s, e);
      NoMoreFreed(s, e);
    case AvailableCall(queued, o) =>
      AvailableConserves(s, queued, o);
      SameFreed(s, e);
      NoMoreFreed(s, e);
    case Fault =>
    case Close =>
      assert Pending(Step(s, e).s) == [];
  }

  lemma SameFreed(s: Reader, e: Event)
    requires (e.ReadCall? || e.AvailableCall?) && Sound(s)
    ensures Step(s, e).s.tls == s.tls && Step(s, e).s.freed == s.freed && (!s.tls ==> Step(s, e) == Effect(s, [], []))
  {
  }

  /** In a session nothing has been freed, and without one nothing happens. */
  lemma NoMoreFreed(s: Reader, e: Event)
    requires (e.ReadCall? || e.AvailableCall?) && Sound(s)
    requires Step(s, e).out + Pending(Step(s, e).s) == Pending(s) + Step(s, e).decrypted
    requires Step(s, e).s.tls == s.tls && Step(s, e).s.freed == s.freed && (!s.tls ==> Step(s, e) == Effect(s, [], []))
    ensures Sound(Step(s, e).s) && Step(s, e).out + Held(Step(s, e).s) == Held(s) + Step(s, e).decrypted
  {
    var a := Step(s, e);
    hide Step, Pending;
    if s.tls {
      assert Held(s) == Pending(s) + [] == Pending(s);
      assert Held(a.s) == Pending(a.s) + [] == Pending(a.s);
    }
  }

  function Run(s: Reader, events: seq<Event>): Effect
    decreases |events|
  {
    if events == [] then Effect(s, [], [])
    else
      var a := Step(s, events[0]);
      var b := Run(a.s, events[1..]);
      Effect(b.s, a.out + b.out, a.decrypted + b.decrypted)
  }

  lemma Join(out: bytes, out': bytes, p: bytes, q: bytes, r: bytes, d: bytes, d': bytes)
    requires out + q == p + d && out' + r == q + d'
    ensures (out + out') + r == p + (d + d')
  {
    assert (out + out') + r == out + (out' + r);
    assert out + (q + d') == (out + q) + d';
    assert (p + d) + d' == p + (d + d');
  }

  /**
   Over any run, what the application has read followed by what it has not is what was there followed by
   everything mbedTLS decrypted: `available` and its kept byte cannot be noticed, and only a close
   frees bytes that were not read.
   */
  lemma {:induction false} StreamPreserved(s: Reader, events: seq<Event>)
    requires Sound(s) && forall e :: e in events ==> GoodEvent(e)
    ensures var r := Run(s, events); Sound(r.s) && r.out + Held(r.s) == Held(s) + r.decrypted
    ensures Close !in events && s.tls ==> Run(s, events).s.freed == []
    decreases |events|
  {
    if events == [] {
    } else {
      var a := Step(s, events[0]);
      var b := Run(a.s, events[1..]);
      assert Run(s, events) == Effect(b.s, a.out + b.out, a.decrypted + b.decrypted);
      assert events[0] != Close && s.tls ==> a.s.tls;
      hide *;
      StepConserves(s, events[0]);
      StreamPreserved(a.s, events[1..]);
      Join(a.out, b.out, Held(s), Held(a.s), Held(b.s), a.decrypted, b.decrypted);
    }
  }

  /** `available` is exact: on a live session it says how many bytes are pending when it returns. */
  lemma AvailableIsPending(s: Reader, queued: bool, o: Outcome)
    requires IsOutcome(o)
    ensures var (s1, n) := Available(s, queued, o);
      n == if Live(s) then |Pending(s1)| else 0
  {
  }

  /** A read of a live session gives at least what is pending, up to its size, and gives it first. */
  lemma ReadGivesPending(s: Reader, size: nat, o: Outcome)
    requires IsOutcome(o) && Live(s)
    ensures var out := Read(s, size, o).1; var k := Min(size, |Pending(s)|);
      k <= |out| <= size && out[..k] == Pending(s)[..k]
  {
    if size > |Kept(s)| {
      SslReadConserves(s.(kept := None), size - |Kept(s)|, o);
    }
  }

  // ---- what ends a session

  /** mbedTLS is asked, has nothing left of a record and answers with a code. */
  predicate Answers(s: Reader, asked: bool, o: Outcome) { asked && s.record == [] && o.Code? }

  /**
   The code ends the session: it is none of 0, MBEDTLS_ERR_SSL_WANT_READ, MBEDTLS_ERR_SSL_WANT_WRITE and
   MBEDTLS_ERR_SSL_PEER_CLOSE_NOTIFY.
   */
  predicate Kills(s: Reader, asked: bool, o: Outcome) {
    Answers(s, asked, o) && o.rc != 0 && o.rc != -0x6900 && o.rc != -0x6880 && o.rc != -0x7880
  }

  /** The code says that the peer is gone: it ends the session or is the peer's own farewell. */
  predicate Parts(s: Reader, asked: bool, o: Outcome) { Kills(s, asked, o) || (Answers(s, asked, o) && o.rc == -0x7880) }

  /** Of a code, a session keeps nothing but what its flags say. */
  predicate Marked(s: Reader, s1: Reader, asked: bool, o: Outcome) {
    && (s1.engineFatal <==> s.engineFatal || Kills(s, asked, o))
    && (s1.connected <==> s.connected && !Parts(s, asked, o))
    && s1.tls == s.tls && s1.handshakeDone == s.handshakeDone && s1.freed == s.freed
  }

  lemma SslReadMarks(s: Reader, len: nat, o: Outcome)
    requires IsOutcome(o)
    ensures Marked(s, SslRead(s, len, o).0, true, o)
  {
  }

  /** A read ends the session, and takes the peer for gone, exactly on these codes. */
  lemma ReadMarks(s: Reader, size: nat, o: Outcome)
    requires IsOutcome(o)
    ensures Marked(s, Read(s, size, o).0, ReadAsks(s, size), o)
    ensures Live(Read(s, size, o).0) <==> Live(s) && !Kills(s, ReadAsks(s, size), o)
  {
    if ReadAsks(s, size) {
      SslReadMarks(s.(kept := None), size - |Kept(s)|, o);
      hide SslRead;
    }
  }

  /** So does `available`. */
  lemma AvailableMarks(s: Reader, queued: bool, o: Outcome)
    requires IsOutcome(o)
    ensures Marked(s, Available(s, queued, o).0, AvailableAsks(s, queued), o)
    ensures Live(Available(s, queued, o).0) <==> Live(s) && !Kills(s, AvailableAsks(s, queued), o)
  {
    if AvailableAsks(s, queued) {
      SslReadMarks(s, 1, o);
      hide SslRead;
    }
  }

  /** The event ends the session. */
  predicate Ends(s: Reader, e: Event) {
    match e
    case ReadCall(size, o) => Kills(s, ReadAsks(s, size), o)
    case AvailableCall(queued, o) => Kills(s, AvailableAsks(s, queued), o)
    case Fault => true
    case Close => true
  }

  /** The event takes the peer for gone. */
  predicate Leaves(s: Reader, e: Event) {
    match e
    case ReadCall(size, o) => Parts(s, ReadAsks(s, size), o)
    case AvailableCall(queued, o) => Parts(s, AvailableAsks(s, queued), o)
    case Fault => true
    case Close => true
  }

  predicate EndsIn(s: Reader, events: seq<Event>)
    decreases |events|
  {
    events != [] && (Ends(s, events[0]) || EndsIn(Step(s, events[0]).s, events[1..]))
  }

  predicate LeavesIn(s: Reader, events: seq<Event>)
    decreases |events|
  {
    events != [] && (Leaves(s, events[0]) || LeavesIn(Step(s, events[0]).s, events[1..]))
  }

  lemma StepMarks(s: Reader, e: Event)
    requires GoodEvent(e)
    ensures Live(Step(s, e).s) <==> Live(s) && !Ends(s, e)
    ensures Step(s, e).s.connected <==> s.connected && !Leaves(s, e)
  {
    match e
    case ReadCall(size, o) =>
      ReadMarks(s, size, o);
      hide Read;
    case AvailableCall(queued, o) =>
      AvailableMarks(s, queued, o);
      hide Available;
    case Fault =>
    case Close =>
  }

  /**
   When a session ends: over any run, a live session is dead if and only if one of the events is a fault, a
   close or a call that got such a code; and it counts as connected if and only if it did and none of them, or
   of the peer's farewells, came.
   */
  lemma {:induction false} EndsExactly(s: Reader, events: seq<Event>)
    requires forall e :: e in events ==> GoodEvent(e)
    ensures Live(Run(s, events).s) <==> Live(s) && !EndsIn(s, events)
    ensures Run(s, events).s.connected <==> s.connected && !LeavesIn(s, events)
    decreases |events|
  {
    hide Step, Ends, Leaves, Live;
    if events == [] {
    } else {
      StepMarks(s, events[0]);
      EndsExactly(Step(s, events[0]).s, events[1..]);
    }
  }

  predicate Between(e: Event) { e.AvailableCall? || e.Fault? || e.Close? }

  /** With bytes pending, nothing but a fault or a close disturbs a live session. */
  lemma {:induction false} StaysLive(s: Reader, events: seq<Event>)
    requires Live(s) && Pending(s) != []
    requires forall e :: e in events ==> Between(e)
    ensures Fault !in events && Close !in events ==> Run(s, events).s == s
    ensures Fault in events || Close in events ==> !Live(Run(s, events).s)
    decreases |events|
  {
    if events == [] {
    } else {
      var s1 := Step(s, events[0]).s;
      assert events == [events[0]] + events[1..];
      assert Between(events[0]);
      if events[0].AvailableCall? {
        assert s1 == s;
        StaysLive(s, events[1..]);
      } else {
        DeadStays(s1, events[1..]);
      }
    }
  }

  lemma {:induction false} DeadStays(s: Reader, events: seq<Event>)
    requires !Live(s)
    requires forall e :: e in events ==> Between(e)
    ensures !Live(Run(s, events).s)
    decreases |events|
  {
    if events == [] {
    } else {
      assert Between(events[0]);
      DeadStays(Step(s, events[0]).s, events[1..]);
    }
  }

  /**
   The promise of `available`: after it has said n > 0, a read of any positive size gives at least
   the lesser of the two, if and only if the session was neither failed nor closed in between.
   */
  lemma PromiseKept(s: Reader, queued: bool, o: Outcome, events: seq<Event>, size: nat, o': Outcome)
    requires IsOutcome(o) && IsOutcome(o') && size > 0
    requires Available(s, queued, o).1 > 0
    requires forall e :: e in events ==> Between(e)
    ensures var (s1, n) := Available(s, queued, o);
      |Read(Run(s1, events).s, size, o').1| >= Min(size, n) <==> Fault !in events && Close !in events
  {
    var (s1, n) := Available(s, queued, o);
    AvailableIsPending(s, queued, o);
    assert Live(s1);
    StaysLive(s1, events);
    var s2 := Run(s1, events).s;
    if Live(s2) {
      ReadGivesPending(s2, size, o');
    }
  }

  /** One more byte of `src` in place. */
  lemma Placed(was: bytes, now: bytes, src: bytes, at: nat, i: nat)
    requires |now| == |was| && at + |src| <= |was| && i < |src|
    requires now == was[..at] + src[..i] + was[at + i..]
    ensures now[at + i := src[i]] == was[..at] + src[..i + 1] + was[at + i + 1..]
  {
  }

  /** What a call of mbedTLS puts behind the bytes that are there already. */
  lemma PutBehind(was: bytes, mid: bytes, now: bytes, first: bytes, n: nat)
    requires |first| <= n <= |was| == |mid| == |now|
    requires mid == first + was[|first|..] && now[..|first|] == mid[..|first|] && now[n..] == mid[n..]
    ensures now[..n] == first + now[|first|..n] && now[n..] == was[n..]
  {
    assert mid[..|first|] == first;
    assert mid[n..] == was[n..];
    assert now[..n] == now[..|first|] + now[|first|..n];
  }

  /** The session object, whose methods do what the functions above say. */
  class TlsClient {
    var tls: bool
    var handshakeDone: bool
    var engineFatal: bool
    var connected: bool
    var peekByte: byte
    var peekValid: bool
    var record: bytes

    ghost function View(): Reader
      reads this
    {
      Reader(tls, handshakeDone, engineFatal, connected, if peekValid then Some(peekByte) else None, record, [])
    }

    /** `mbedtls_ssl_read` into `buffer` from `at`. */
    method EngineRead(buffer: array<byte>, at: nat, len: nat, o: Outcome) returns (rc: int)
      requires at + len <= buffer.Length && IsOutcome(o) && len > 0
      modifies this`record, buffer
      ensures var got := Min(len, |old(Current(View(), o))|);
        && rc == (if got > 0 then got else if o.Code? then o.rc else 0)
        && record == old(Current(View(), o))[got..]
        && buffer[..] == old(buffer[..at]) + old(Current(View(), o))[..got] + old(buffer[at + got..])
    {
      if record == [] && o.Record? {
        record := o.data;
      }
      var cur := record;
      var n := Min(len, |cur|);
      CopyTo(buffer, at, cur[..n]);
      record := cur[n..];
      rc := if n > 0 then n else if o.Code? then o.rc else 0;
    }

    static method CopyTo(buffer: array<byte>, at: nat, src: bytes)
      requires at + |src| <= buffer.Length
      modifies buffer
      ensures buffer[..] == old(buffer[..at]) + src + old(buffer[at + |src|..])
    {
      ghost var was := buffer[..];
      for i := 0 to |src|
        invariant buffer[..] == was[..at] + src[..i] + was[at + i..]
      {
        Placed(was, buffer[..], src, at, i);
        ghost var before := buffer[..];
        buffer[at + i] := src[i];
        assert buffer[..] == before[at + i := src[i]];
      }
      assert src[..|src|] == src;
    }

    /** What `read` and `available` do with a code. */
    method Fail(rc: int)
      modifies this`connected, this`engineFatal
      ensures View() == Settle(old(View()), rc)
    {
      if rc == 0 || rc == WANT_READ || rc == WANT_WRITE {
        return;
      }
      connected := false;
      if rc != PEER_CLOSE_NOTIFY {
        engineFatal := true;
      }
    }

    /** A call of mbedTLS with the handling of its result. */
    method ReadMore(buffer: array<byte>, at: nat, len: nat, o: Outcome) returns (n: nat)
      requires at + len <= buffer.Length && IsOutcome(o) && len > 0
      modifies this`record, this`connected, this`engineFatal, buffer
      ensures n <= len && (View(), buffer[at..at + n]) == SslRead(old(View()), len, o)
      ensures buffer[..at] == old(buffer[..at]) && buffer[at + n..] == old(buffer[at + n..])
    {
      ghost var cur := Current(View(), o);
      var rc := EngineRead(buffer, at, len, o);
      if rc > 0 {
        assert buffer[at..at + rc] == cur[..rc];
        return rc;
      }
      Fail(rc);
      return 0;
    }

    /** The kept byte goes first. */
    method TakeKept(buffer: array<byte>) returns (total: nat)
      requires buffer.Length > 0
      modifies this`peekValid, buffer
      ensures View() == old(View()).(kept := None) && total == |Kept(old(View()))| <= 1
      ensures buffer[..] == Kept(old(View())) + old(buffer[..])[total..]
    {
      total := 0;
      if peekValid {
        buffer[total] := peekByte;
        total := total + 1;
        peekValid := false;
      }
    }

    method ReadBytes(buffer: array<byte>, size: nat, o: Outcome) returns (n: nat)
      requires size <= buffer.Length && IsOutcome(o)
      modifies this, buffer
      ensures n <= size
      ensures (View(), buffer[..n]) == Read(old(View()), size, o)
      ensures buffer[n..] == old(buffer[n..])
    {
      hide SslRead, Kept;
      if size == 0 || !tls || engineFatal || !handshakeDone {
        return 0;
      }
      ghost var was, first := buffer[..], Kept(View());
      var total := TakeKept(buffer);
      if total >= size {
        PutBehind(was, buffer[..], buffer[..], first, total);
        return total;
      }
      ghost var mid := buffer[..];
      var more := ReadMore(buffer, total, size - total, o);
      n := total + more;
      PutBehind(was, mid, buffer[..], first, n);
    }

    method BytesAvailable(queued: bool, o: Outcome) returns (n: nat)
      requires IsOutcome(o)
      modifies this
      ensures (View(), n) == Available(old(View()), queued, o)
    {
      if !tls || engineFatal || !handshakeDone {
        return 0;
      }
      if peekValid {
        return 1 + |record|;
      }
      if record != [] {
        return |record|;
      }
      if !queued {
        return 0;
      }
      var p := new byte[1];
      var got := ReadMore(p, 0, 1, o);
      if got == 1 {
        assert p[0..1] == [p[0]];
        peekByte := p[0];
        peekValid := true;
        return 1 + |record|;
      }
      return 0;
    }
  }
}
