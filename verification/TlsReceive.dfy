/**
 The receive path of the esp8266 TLS client: lwIP's callback fills a bounded queue, the TLS task
 drains it into the BearSSL engine and credits the TCP window once per round (section 3.8.6 of
 RFC 9293 describes the window).

 `stream` is what the peer sends. lwIP delivers it in order; a segment that is refused is offered
 again, so the next segment always starts where the last accepted one ended.
 */
module TlsReceive {
  import opened Pattern
  import opened Words

  const TLS_IBUF_SIZE := 2048

  /** Growing the queue needs the old and the new buffer at once; together they stay within 0.9 of the engine's buffer. */
  predicate Fits(queued: nat, n: nat) { 10 * (queued + n + queued) <= 9 * TLS_IBUF_SIZE }

  /**
   The receive state: the queue, how many bytes lwIP handed over, how many went to the engine, how
   many were credited to the window and how many the running round still has to credit, whether
   the client still has its pcb, and whether it was closed.
   */
  datatype Rx = Rx(queue: bytes, received: nat, fed: nat, credited: nat, reclaimed: nat, attached: bool, closed: bool)

  /** lwIP offers the next `n` bytes of the stream; the peer never sends beyond the window. */
  predicate CanOffer(rx: Rx, n: nat, stream: bytes, wnd: nat) {
    rx.attached && n > 0 && rx.received + n <= |stream| && rx.received + n - rx.credited <= wnd
  }

  function Offer(rx: Rx, n: nat, memory: bool, stream: bytes): Rx
    requires rx.received + n <= |stream|
  {
    if Fits(|rx.queue|, n) && memory
    then rx.(queue := rx.queue + stream[rx.received..rx.received + n], received := rx.received + n)
    else rx
  }

  /** lwIP reports an error: the pcb is gone. */
  function Reset(rx: Rx): Rx { rx.(attached := false) }

  /** One turn of a round: as much of the queue as the engine has room for. */
  function Drain(rx: Rx, room: nat): Rx {
    var chunk := Min(|rx.queue|, room);
    rx.(queue := rx.queue[chunk..], fed := rx.fed + chunk, reclaimed := ToU16(rx.reclaimed + chunk))
  }

  /** The end of a round: what was drained is credited, if the pcb is still there. */
  function Settle(rx: Rx): Rx {
    rx.(credited := if rx.attached then rx.credited + rx.reclaimed else rx.credited, reclaimed := 0)
  }

  /** Closing credits what is still queued and drops it. */
  function Close(rx: Rx): Rx {
    rx.(credited := if rx.attached then rx.credited + ToU16(|rx.queue|) else rx.credited, queue := [], attached := false, closed := true)
  }

  /** The queue holds, in order, exactly what was handed over and has not reached the engine, and credit is conserved. */
  predicate Inv(rx: Rx, stream: bytes, wnd: nat) {
    && wnd <= 0xFFFF
    && rx.fed <= rx.received <= |stream| && rx.queue == (if rx.closed then [] else stream[rx.fed..rx.received])
    && (rx.closed ==> !rx.attached)
    && rx.received <= rx.credited + wnd
    && 10 * |rx.queue| <= 9 * TLS_IBUF_SIZE
    && (rx.attached ==> rx.received == rx.credited + rx.reclaimed + |rx.queue|)
    && (!rx.attached ==> rx.credited + rx.reclaimed + |rx.queue| <= rx.received)
  }

  datatype Event = Segment(n: nat, memory: bool) | Error | Feed(room: nat) | EndRound | CloseCall

  predicate Enabled(rx: Rx, e: Event, stream: bytes, wnd: nat) {
    e.Segment? ==> CanOffer(rx, e.n, stream, wnd)
  }

  function Step(rx: Rx, e: Event, stream: bytes): Rx
    requires e.Segment? ==> rx.received + e.n <= |stream|
  {
    match e
    case Segment(n, memory) => Offer(rx, n, memory, stream)
    case Error => Reset(rx)
    case Feed(room) => Drain(rx, room)
    case EndRound => Settle(rx)
    case CloseCall => Close(rx)
  }

  lemma OfferKeeps(rx: Rx, n: nat, memory: bool, stream: bytes, wnd: nat)
    requires Inv(rx, stream, wnd) && CanOffer(rx, n, stream, wnd)
    ensures Inv(Offer(rx, n, memory, stream), stream, wnd)
  {
    assert stream[rx.fed..rx.received + n] == rx.queue + stream[rx.received..rx.received + n];
  }

  /** The 16-bit count of a round never wraps: the bytes of a round are all inside one window. */
  lemma DrainKeeps(rx: Rx, room: nat, stream: bytes, wnd: nat)
    requires Inv(rx, stream, wnd)
    ensures Inv(Drain(rx, room), stream, wnd)
    ensures Drain(rx, room).reclaimed == rx.reclaimed + Min(|rx.queue|, room)
  {
    var chunk := Min(|rx.queue|, room);
    assert !rx.closed ==> rx.queue[chunk..] == stream[rx.fed + chunk..rx.received];
  }

  lemma StepKeeps(rx: Rx, e: Event, stream: bytes, wnd: nat)
    requires Inv(rx, stream, wnd) && Enabled(rx, e, stream, wnd)
    ensures Inv(Step(rx, e, stream), stream, wnd)
  {
    match e
    case Segment(n, memory) => OfferKeeps(rx, n, memory, stream, wnd);
    case Error =>
    case Feed(room) => DrainKeeps(rx, room, stream, wnd);
    case EndRound =>
    case CloseCall =>
  }

  ghost predicate Run(states: seq<Rx>, events: seq<Event>, stream: bytes, wnd: nat) {
    && |states| == |events| + 1 && states[0] == Rx([], 0, 0, 0, 0, true, false) && wnd <= 0xFFFF
    && forall i :: 0 <= i < |events| ==>
         Enabled(states[i], events[i], stream, wnd) && states[i + 1] == Step(states[i], events[i], stream)
  }

  /**
   However segments, errors, turns and ends of rounds interleave: the engine got a prefix of the
   stream and the queue holds what follows it; while the pcb is there, every byte handed over is
   credited, about to be credited or queued.
   */
  lemma {:induction false} CreditConserved(states: seq<Rx>, events: seq<Event>, stream: bytes, wnd: nat, n: nat)
    requires Run(states, events, stream, wnd) && n < |states|
    ensures Inv(states[n], stream, wnd)
  {
    hide Step;
    if n == 0 {
      assert stream[0..0] == [];
    } else {
      hide Inv;
      CreditConserved(states, events, stream, wnd, n - 1);
      assert states[n - 1 + 1] == Step(states[n - 1], events[n - 1], stream);
      StepKeeps(states[n - 1], events[n - 1], stream, wnd);
    }
  }

  /** The next segment is refused although there is memory for it. */
  predicate Refused(rx: Rx, n: nat, stream: bytes)
    requires rx.received + n <= |stream|
  {
    Offer(rx, n, true, stream) == rx
  }

  /**
   A segment that stalls the connection: in every state of every run, the next segment is refused however
   far the queue is drained first if and only if it is above nine tenths of the engine's buffer.
   */
  lemma StallsForever(states: seq<Rx>, events: seq<Event>, stream: bytes, wnd: nat, i: nat, n: nat)
    requires Run(states, events, stream, wnd) && i < |states| && n > 0 && states[i].received + n <= |stream|
    ensures (forall room: nat :: Refused(Drain(states[i], room), n, stream)) <==> 10 * n > 9 * TLS_IBUF_SIZE
  {
    var rx := states[i];
    if 10 * n <= 9 * TLS_IBUF_SIZE {
      assert Drain(rx, |rx.queue|).queue == [];
      assert !Refused(Drain(rx, |rx.queue|), n, stream);
    }
  }

  /**
   Closing gives the whole window back, in every run, if and only if the round under way has drained
   nothing; what it drained is never credited.
   */
  lemma CloseCredits(states: seq<Rx>, events: seq<Event>, stream: bytes, wnd: nat, n: nat)
    requires Run(states, events, stream, wnd) && n < |events| && events[n] == CloseCall && states[n].attached
    ensures states[n + 1].received == states[n + 1].credited + states[n].reclaimed
    ensures states[n + 1].credited == states[n + 1].received <==> states[n].reclaimed == 0
  {
    CreditConserved(states, events, stream, wnd, n);
    assert states[n + 1] == Step(states[n], events[n], stream);
  }

  /** A run in which a byte stays uncredited: it is drained, and the client closes before the round ends. */
  lemma LostCredit() returns (states: seq<Rx>, events: seq<Event>)
    ensures Run(states, events, [7], 100) && |states| == 4 && events[2] == CloseCall
    ensures states[2].attached && states[3].received == 1 && states[3].credited == 0
  {
    var stream: bytes := [7];
    var s0 := Rx([], 0, 0, 0, 0, true, false);
    var s1 := Rx([7], 1, 0, 0, 0, true, false);
    var s2 := Rx([], 1, 1, 0, 1, true, false);
    var s3 := Rx([], 1, 1, 0, 1, false, true);
    events := [Segment(1, true), Feed(1), CloseCall];
    states := [s0, s1, s2, s3];
    hide *;
    OneByteOffered();
    OneByteDrained();
    ClosedMidRound();
  }

  lemma OneByteOffered()
    ensures var rx := Rx([], 0, 0, 0, 0, true, false);
      Enabled(rx, Segment(1, true), [7], 100) && Step(rx, Segment(1, true), [7]) == Rx([7], 1, 0, 0, 0, true, false)
  {
    var stream: bytes := [7];
    assert stream[0..1] == stream && [] + stream == stream;
  }

  lemma OneByteDrained()
    ensures var rx := Rx([7], 1, 0, 0, 0, true, false);
      Enabled(rx, Feed(1), [7], 100) && Step(rx, Feed(1), [7]) == Rx([], 1, 1, 0, 1, true, false)
  {
    var queue: bytes := [7];
    assert Min(|queue|, 1) == 1 && queue[1..] == [];
  }

  lemma ClosedMidRound()
    ensures var rx := Rx([], 1, 1, 0, 1, true, false);
      Enabled(rx, CloseCall, [7], 100) && Step(rx, CloseCall, [7]) == Rx([], 1, 1, 0, 1, false, true)
  {
  }

  /** What happens at a point where the task yields. */
  datatype Net = Quiet | Data(n: nat, memory: bool) | Failure

  type Schedule = nat -> Net

  /** `TlsClientInterface`, its receive side, next to what lwIP knows of the connection. */
  class TlsClient {
    const stream: bytes
    const wnd: nat
    var rxQueue: bytes
    var attached: bool
    var closed: bool
    var engineFatal: bool
    var received: nat
    var fed: nat
    var credited: nat
    var reclaimed: nat
    var tick: nat

    function View(): Rx
      reads this
    {
      Rx(rxQueue, received, fed, credited, reclaimed, attached, closed)
    }

    ghost predicate Valid()
      reads this
    {
      Inv(View(), stream, wnd)
    }

    constructor (peer: bytes, window: nat)
      requires window <= 0xFFFF
      ensures Valid() && stream == peer && wnd == window && View() == Rx([], 0, 0, 0, 0, true, false)
    {
      stream, wnd, rxQueue, attached, closed, engineFatal, tick := peer, window, [], true, false, false, 0;
      received, fed, credited, reclaimed := 0, 0, 0, 0;
    }

    /** `onReceive` with data `p`, the next bytes of the stream. */
    method OnReceive(p: bytes, memory: bool) returns (taken: bool)
      requires Valid() && CanOffer(View(), |p|, stream, wnd) && p == stream[received..received + |p|]
      modifies this
      ensures Valid() && View() == Offer(old(View()), |p|, memory, stream)
      ensures taken <==> memory && 10 * (|old(rxQueue)| + |old(rxQueue) + p|) <= 9 * TLS_IBUF_SIZE
      ensures rxQueue == if taken then old(rxQueue) + p else old(rxQueue)
    {
      OfferKeeps(View(), |p|, memory, stream, wnd);
      var newSize := |rxQueue| + |p|;
      if 10 * (newSize + |rxQueue|) > 9 * TLS_IBUF_SIZE || !memory {
        return false;
      }
      rxQueue, received := rxQueue + p, received + |p|;
      return true;
    }

    method OnError()
      requires Valid()
      modifies this
      ensures Valid() && View() == Reset(old(View())) && engineFatal
    {
      attached, engineFatal := false, true;
    }

    /** `close`, as far as the queue and its credit go. */
    method Shut()
      requires Valid()
      modifies this
      ensures Valid() && View() == Close(old(View()))
    {
      if attached && |rxQueue| > 0 {
        credited := credited + ToU16(|rxQueue|);
      }
      rxQueue := [];
      attached, closed := false, true;
    }

    /** A yield: lwIP may run one callback. */
    method Yield(net: Schedule)
      requires Valid()
      modifies this
      ensures Valid() && fed == old(fed) && credited == old(credited) && reclaimed == old(reclaimed)
      ensures |old(rxQueue)| <= |rxQueue| && (attached ==> old(attached))
    {
      var e := net(tick);
      tick := tick + 1;
      if e.Data? && CanOffer(View(), e.n, stream, wnd) {
        var taken := OnReceive(stream[received..received + e.n], e.memory);
      } else if e.Failure? && attached {
        OnError();
      }
    }

    /** The turn of a round: the engine's buffer takes the front of the queue. */
    method Feed(room: nat)
      requires Valid() && 0 < room && rxQueue != []
      modifies this
      ensures Valid() && View() == Drain(old(View()), room) && old(fed) < fed
      ensures reclaimed == old(reclaimed) + fed - old(fed)
    {
      DrainKeeps(View(), room, stream, wnd);
      var chunk := Min(|rxQueue|, room);
      if chunk < |rxQueue| {
        rxQueue := rxQueue[chunk..];
      } else {
        rxQueue := [];
      }
      fed, reclaimed := fed + chunk, ToU16(reclaimed + chunk);
    }

    /** A turn of a round and the yields in it. */
    method Turn(net: Schedule, room: nat)
      requires Valid() && 0 < room && rxQueue != []
      modifies this
      ensures Valid() && credited == old(credited) && old(fed) < fed && reclaimed == old(reclaimed) + fed - old(fed)
    {
      hide Inv, CanOffer;
      Yield(net);
      Feed(room);
      Yield(net);
      Yield(net);
    }

    /**
     `serviceRx` up to the credit: `room` is the space the engine offers on each turn (0 when it takes
     nothing). Data may arrive at every yield, so the loop ends only because the peer cannot send
     more than one window before the credit at the end.
     */
    method ServiceRx(net: Schedule, room: nat -> nat)
      requires Valid() && reclaimed == 0
      modifies this
      ensures Valid() && reclaimed == 0 && old(fed) <= fed
      ensures attached ==> credited == old(credited) + fed - old(fed)
      ensures old(engineFatal) || old(closed) ==> View() == old(View())
      ensures !old(engineFatal) && old(rxQueue) != [] && room(0) > 0 ==> old(fed) < fed
      ensures !old(engineFatal) && (forall i :: room(i) > 0) ==> rxQueue == []
    {
      if closed || engineFatal {
        return;
      }
      var i := 0;
      while true
        invariant Valid() && credited == old(credited) && reclaimed == fed - old(fed) && old(fed) <= fed
        invariant if i == 0 then rxQueue == old(rxQueue) else old(fed) < fed
        decreases credited + wnd - fed
      {
        if |rxQueue| == 0 {
          break;
        }
        var bufLen := room(i);
        i := i + 1;
        if bufLen == 0 {
          break;
        }
        Turn(net, bufLen);
      }
      if attached {
        credited := credited + reclaimed;
      }
      reclaimed := 0;
    }
  }
}
