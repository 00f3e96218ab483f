/**
 The esp8266 TCP server and client over lwIP as one transition system: a server with a single
 slot for a connection that waits to be accepted, the clients it hands connections to, and
 lwIP, which delivers data, FINs, polls and resets through the callbacks a pcb carries.

 Callbacks run only while the application yields, so every callback and every application
 call is one step. A pcb's `misused` records a call on it after lwIP has let it go, an abort
 that would call back into an error handler, or a window credit lwIP would reject.
 */
module TcpSystem {
  import opened Pattern
  import opened Words

  type Id = nat

  datatype Arg = NoArg | ServerArg | ClientArg
  datatype RecvFn = NoRecv | PendingRecv | ClientRecv
  datatype ErrFn = NoErr | PendingErr | ClientErr
  datatype PollFn = NoPoll | PendingPoll

  /** A pcb is open until it is closed, aborted or freed by lwIP itself. */
  datatype Fate = Open | Closed | Aborted | Freed

  /**
   A pcb with its callbacks, and the receive direction of its connection: the bytes that
   arrived from the peer, how many of them the receive callback took, and how many were
   credited back to the window. `closeFailed` records a `tcp_close` that reported an error.
   */
  datatype Conn = Conn(arg: Arg, recv: RecvFn, err: ErrFn, poll: PollFn, fate: Fate, closeFailed: bool, misused: bool,
                       arrived: bytes, delivered: nat, credited: nat)

  datatype Server = Server(slot: Option<Id>, hasClient: bool, pendingSince: nat, timeout: nat, listening: bool)

  /**
   A client made for a connection. `taken` counts the bytes it took from lwIP, `out` are the
   bytes its reads returned, `flushed` is set once buffered bytes have been dropped.
   */
  datatype Client = Client(tls: bool, attached: bool, connected: bool, rx: bytes, out: bytes, taken: nat, flushed: bool)

  datatype Sys = Sys(server: Server, conns: map<Id, Conn>, clients: map<Id, Client>, wnd: nat)

  datatype Reply = Ok | Mem | Abrt | BadArg

  // ---- lwIP calls on a pcb

  /** `tcp_arg`, `tcp_recv`, `tcp_err` and `tcp_poll`. */
  function Hook(c: Conn, a: Arg, r: RecvFn, e: ErrFn, p: PollFn): Conn {
    if c.fate == Open then c.(arg := a, recv := r, err := e, poll := p) else c.(misused := true)
  }

  function Unhook(c: Conn): Conn { Hook(c, NoArg, NoRecv, NoErr, NoPoll) }

  /** A client gives up the callbacks it took; it never had a poll callback. */
  function Unclaim(c: Conn): Conn { Hook(c, NoArg, NoRecv, NoErr, c.poll) }

  /** `tcp_close`; when it fails the pcb stays with lwIP. */
  function CloseConn(c: Conn, ok: bool): Conn {
    if c.fate != Open then c.(misused := true)
    else if ok then c.(fate := Closed) else c.(closeFailed := true)
  }

  /** `tcp_abort`, which first calls the error callback if one is registered. */
  function AbortConn(c: Conn): Conn {
    if c.fate == Open && c.err == NoErr then c.(fate := Aborted) else c.(misused := true)
  }

  /** The window lwIP still offers: what has arrived and not been credited is missing from it. */
  function Window(c: Conn, wnd: nat): int { wnd - (|c.arrived| - c.credited) }

  /** `tcp_recved`, whose length is 16 bits wide and must not make the window exceed 16 bits. */
  function Credit(c: Conn, n: nat, wnd: nat): Conn {
    var len := ToU16(n);
    if c.fate == Open && len <= 0xFFFF - Window(c, wnd) then c.(credited := c.credited + len) else c.(misused := true)
  }

  function FreshConn(): Conn { Conn(NoArg, NoRecv, NoErr, NoPoll, Open, false, false, [], 0, 0) }

  /** The pcb with this identity; a call on one that never was is a misuse as well. */
  function At(s: Sys, id: Id): Conn {
    if id in s.conns then s.conns[id] else FreshConn().(fate := Freed)
  }

  function Put(s: Sys, id: Id, c: Conn): Sys { s.(conns := s.conns[id := c]) }

  predicate Live(s: Sys, id: Id) { id in s.conns && s.conns[id].fate == Open }

  // ---- the server

  function ClearSlot(sv: Server): Server { sv.(slot := None, hasClient := false, pendingSince := 0) }

  function OnAccept(s: Sys, id: Id, now: nat): Sys {
    var s1 := match s.server.slot {
      case None => s
      case Some(older) => Put(s.(server := ClearSlot(s.server)), older, AbortConn(Unhook(At(s, older))))
    };
    Put(s1.(server := s1.server.(slot := Some(id), hasClient := true, pendingSince := now)),
        id, Hook(At(s1, id), ServerArg, PendingRecv, PendingErr, PendingPoll))
  }

  function OnPendingError(sv: Server, arg: Arg): Server {
    if arg == ServerArg then ClearSlot(sv) else sv
  }

  /** A null buffer is the peer's FIN; data is refused, and lwIP offers it again later. */
  function OnPendingRecv(s: Sys, arg: Arg, id: Id, fin: bool, closeOk: bool): (Sys, Reply) {
    if arg != ServerArg then (s, BadArg)
    else if fin then
      var sv := if s.server.slot == Some(id) then ClearSlot(s.server) else s.server;
      (Put(s.(server := sv), id, CloseConn(Unhook(At(s, id)), closeOk)), Ok)
    else (s, Mem)
  }

  /** Milliseconds on a 32-bit clock. */
  function ElapsedSince(now: nat, since: nat): nat { (now - since) % 0x1_0000_0000 }

  /** A 32-bit clock, `d` milliseconds after it stood at `since`. */
  function Clock(since: nat, d: nat): nat { (since + d) % 0x1_0000_0000 }

  /** Also across the wrap, the clock tells how long it has been. */
  lemma ElapsedIs(since: nat, d: nat)
    requires d < 0x1_0000_0000
    ensures ElapsedSince(Clock(since, d), since) == d
  {
    var m := 0x1_0000_0000;
    var k := (since + d) / m;
    assert Clock(since, d) - since == d - k * m;
    ModMinus(d, k);
  }

  lemma {:induction false} ModMinus(d: nat, k: nat)
    requires d < 0x1_0000_0000
    ensures (d - k * 0x1_0000_0000) % 0x1_0000_0000 == d
  {
    if k > 0 {
      ModMinus(d, k - 1);
    }
  }

  function OnPendingPoll(s: Sys, arg: Arg, id: Id, now: nat): (Sys, Reply) {
    if arg != ServerArg then (s, Abrt)
    else if s.server.slot == Some(id) && s.server.timeout > 0 && ElapsedSince(now, s.server.pendingSince) > s.server.timeout
    then (Put(s.(server := ClearSlot(s.server)), id, AbortConn(Unhook(At(s, id)))), Abrt)
    else (s, Ok)
  }

  function ServerClose(s: Sys, closeOk: bool): Sys {
    var sv := s.server.(slot := None, hasClient := false, listening := false);
    match s.server.slot
    case None => s.(server := sv)
    case Some(id) => Put(s.(server := sv), id, CloseConn(Unhook(At(s, id)), closeOk))
  }

  /** `begin`: `up` is whether creating, binding and listening succeeded. */
  function Begin(s: Sys, closeOk: bool, up: bool): Sys {
    var s1 := ServerClose(s, closeOk);
    s1.(server := s1.server.(listening := up))
  }

  /** How an accept turns out: a plain client, a TLS client, no memory for one, or a TLS set-up failure. */
  datatype Acceptance = Plain | Tls | TlsNoMemory | TlsSetupFails(closeOk: bool)

  function NewClient(tls: bool): Client { Client(tls, true, true, [], [], 0, false) }

  /** A client's constructor takes the pcb's callbacks over. */
  function Attach(c: Conn): Conn { Hook(c, ClientArg, ClientRecv, ClientErr, c.poll) }

  function Accept(s: Sys, how: Acceptance): Sys {
    if !(s.server.hasClient && s.server.slot.Some?) then s
    else
      var id := s.server.slot.value;
      var c := Unhook(At(s, id));
      var s1 := s.(server := ClearSlot(s.server));
      match how
      case Plain => Put(s1, id, Attach(c)).(clients := s.clients[id := NewClient(false)])
      case Tls => Put(s1, id, Attach(c)).(clients := s.clients[id := NewClient(true)])
      case TlsNoMemory => Put(s1, id, AbortConn(c))
      case TlsSetupFails(closeOk) => Put(s1, id, CloseConn(Unclaim(Attach(c)), closeOk))
  }

  // ---- the clients

  function Released(k: Client): Client { k.(attached := false, connected := false) }

  /** `close` of a TLS client: the outcome of `tcp_close` is not looked at. */
  function TlsClose(s: Sys, id: Id, closeOk: bool): Sys
    requires id in s.clients
  {
    var k := s.clients[id];
    var s1 := s.(clients := s.clients[id := Released(k)]);
    if k.attached then Put(s1, id, CloseConn(Unclaim(At(s, id)), closeOk)) else s1
  }

  /** `disconnect`: a close that fails is followed by an abort. */
  function DisconnectConn(c: Conn, closeOk: bool): Conn {
    var c1 := CloseConn(Unclaim(c), closeOk);
    if closeOk then c1 else AbortConn(c1)
  }

  function Disconnect(s: Sys, id: Id, closeOk: bool): Sys
    requires id in s.clients
  {
    var k := s.clients[id];
    var s1 := s.(clients := s.clients[id := Released(k)]);
    if k.attached then Put(s1, id, DisconnectConn(At(s, id), closeOk)) else s1
  }

  function Drop(k: Client): Client { k.(rx := [], flushed := k.flushed || k.rx != []) }

  /** `flush`: buffered bytes are credited, if there still is a pcb, and dropped. */
  function Flush(s: Sys, id: Id): Sys
    requires id in s.clients
  {
    var k := s.clients[id];
    var s1 := s.(clients := s.clients[id := Drop(k)]);
    if k.attached && k.rx != [] then Put(s1, id, Credit(At(s, id), |k.rx|, s.wnd)) else s1
  }

  function CloseClient(s: Sys, id: Id, closeOk: bool): Sys
    requires id in s.clients
  {
    Flush(Disconnect(s, id, closeOk), id)
  }

  /** `onReceive` with data: appended, or refused when there is no memory for the larger buffer. */
  function OnReceive(k: Client, p: bytes, memory: bool): (Client, Reply) {
    if memory then (k.(rx := k.rx + p, taken := k.taken + |p|), Ok) else (k, Mem)
  }

  /** `onReceive` with a null buffer and no error: the peer's FIN. */
  function OnFin(s: Sys, id: Id, closeOk: bool): (Sys, Reply)
    requires id in s.clients
  {
    (Disconnect(s, id, closeOk), Ok)
  }

  function AfterRead(k: Client, size: nat): Client {
    var n := Min(size, |k.rx|);
    k.(rx := k.rx[n..], out := k.out + k.rx[..n])
  }

  /** `read`: the first `size` buffered bytes, credited if there still is a pcb. */
  function Read(s: Sys, id: Id, size: nat): Sys
    requires id in s.clients
  {
    var k := s.clients[id];
    if k.rx == [] then s
    else
      var s1 := s.(clients := s.clients[id := AfterRead(k, size)]);
      if k.attached then Put(s1, id, Credit(At(s, id), Min(size, |k.rx|), s.wnd)) else s1
  }

  /** `onError`: the pcb is forgotten; a plain client also clears its callbacks and drops the buffer. */
  function OnError(s: Sys, id: Id): Sys
    requires id in s.clients
  {
    var k := s.clients[id];
    if k.tls || !k.attached then s.(clients := s.clients[id := Released(k)])
    else Put(s, id, Unclaim(At(s, id))).(clients := s.clients[id := Drop(Released(k))])
  }

  // ---- the steps

  datatype Event =
    | NewConnection(id: Id, now: nat)
    | Arrive(id: Id, data: bytes)
    | Deliver(id: Id, n: nat, memory: bool)
    | Fin(id: Id, closeOk: bool)
    | Poll(id: Id, now: nat)
    | Reset(id: Id, freedFirst: bool)
    | BeginCall(closeOk: bool, up: bool)
    | CloseCall(closeOk: bool)
    | AcceptCall(how: Acceptance)
    | ReadCall(id: Id, size: nat)
    | FlushCall(id: Id)
    | DisconnectCall(id: Id, closeOk: bool)
    | CloseClientCall(id: Id, closeOk: bool)
    | TlsCloseCall(id: Id, closeOk: bool)

  predicate PlainClient(s: Sys, id: Id) { id in s.clients && !s.clients[id].tls }

  predicate Enabled(s: Sys, e: Event) {
    match e
    case NewConnection(id, now) => s.server.listening && id !in s.conns
    case Arrive(id, data) => Live(s, id) && data != [] && |data| <= Window(s.conns[id], s.wnd)
    case Deliver(id, n, memory) => Live(s, id) && 0 < n <= |s.conns[id].arrived| - s.conns[id].delivered
    case Fin(id, closeOk) => Live(s, id)
    case Poll(id, now) => Live(s, id) && s.conns[id].poll == PendingPoll
    case Reset(id, freedFirst) => Live(s, id)
    case BeginCall(closeOk, up) => true
    case CloseCall(closeOk) => true
    case AcceptCall(how) => true
    case ReadCall(id, size) => PlainClient(s, id)
    case FlushCall(id) => PlainClient(s, id)
    case DisconnectCall(id, closeOk) => PlainClient(s, id)
    case CloseClientCall(id, closeOk) => PlainClient(s, id)
    case TlsCloseCall(id, closeOk) => id in s.clients && s.clients[id].tls
  }

  /** Without a receive callback lwIP's own one drops the data and credits it. */
  function DropStep(s: Sys, id: Id, n: nat): Sys
    requires Live(s, id)
  {
    Put(s, id, s.conns[id].(delivered := s.conns[id].delivered + n, credited := s.conns[id].credited + n))
  }

  /** The client's receive callback takes the next `n` bytes or refuses them. */
  function TakeStep(s: Sys, id: Id, n: nat, memory: bool): (Sys, Reply)
    requires Live(s, id) && n <= |s.conns[id].arrived| - s.conns[id].delivered && id in s.clients
  {
    var c := s.conns[id];
    var (k, r) := OnReceive(s.clients[id], c.arrived[c.delivered..c.delivered + n], memory);
    (if r == Ok then Put(s, id, c.(delivered := c.delivered + n)).(clients := s.clients[id := k]) else s, r)
  }

  /** lwIP offers the next `n` bytes to whatever receive callback the pcb carries. */
  function DeliverStep(s: Sys, id: Id, n: nat, memory: bool): (Sys, Reply)
    requires Live(s, id) && n <= |s.conns[id].arrived| - s.conns[id].delivered
  {
    var c := s.conns[id];
    match c.recv
    case PendingRecv => OnPendingRecv(s, c.arg, id, false, true)
    case ClientRecv => if c.arg == ClientArg && id in s.clients then TakeStep(s, id, n, memory) else (DropStep(s, id, n), Ok)
    case NoRecv => (DropStep(s, id, n), Ok)
  }

  function FinStep(s: Sys, id: Id, closeOk: bool): (Sys, Reply)
    requires Live(s, id)
  {
    var c := s.conns[id];
    match c.recv
    case PendingRecv => OnPendingRecv(s, c.arg, id, true, closeOk)
    case ClientRecv =>
      if c.arg != ClientArg || !PlainClient(s, id) then (s, Ok) else OnFin(s, id, closeOk)
    case NoRecv => (Put(s, id, CloseConn(c, closeOk)), Ok)
  }

  /**
   lwIP reports an error to whatever error callback the pcb carries, and frees the pcb: after the callback,
   as its own sources do, or before it, as its documentation says.
   */
  function ResetStep(s: Sys, id: Id, freedFirst: bool): Sys
    requires Live(s, id)
  {
    var c := s.conns[id];
    var s0 := if freedFirst then Put(s, id, c.(fate := Freed)) else s;
    var s1 := match c.err {
      case PendingErr => s0.(server := OnPendingError(s0.server, c.arg))
      case ClientErr => if c.arg == ClientArg && id in s.clients then OnError(s0, id) else s0
      case NoErr => s0
    };
    Put(s1, id, At(s1, id).(fate := Freed))
  }

  /** The new state, and what a callback replied to lwIP (`Ok` for application calls). */
  function Step(s: Sys, e: Event): (Sys, Reply)
    requires Enabled(s, e)
  {
    match e
    case NewConnection(id, now) => (OnAccept(Put(s, id, FreshConn()), id, now), Ok)
    case Arrive(id, data) => (Put(s, id, s.conns[id].(arrived := s.conns[id].arrived + data)), Ok)
    case Deliver(id, n, memory) => DeliverStep(s, id, n, memory)
    case Fin(id, closeOk) => FinStep(s, id, closeOk)
    case Poll(id, now) => OnPendingPoll(s, s.conns[id].arg, id, now)
    case Reset(id, freedFirst) => (ResetStep(s, id, freedFirst), Ok)
    case BeginCall(closeOk, up) => (Begin(s, closeOk, up), Ok)
    case CloseCall(closeOk) => (ServerClose(s, closeOk), Ok)
    case AcceptCall(how) => (Accept(s, how), Ok)
    case ReadCall(id, size) => (Read(s, id, size), Ok)
    case FlushCall(id) => (Flush(s, id), Ok)
    case DisconnectCall(id, closeOk) => (Disconnect(s, id, closeOk), Ok)
    case CloseClientCall(id, closeOk) => (CloseClient(s, id, closeOk), Ok)
    case TlsCloseCall(id, closeOk) => (TlsClose(s, id, closeOk), Ok)
  }

  // ---- what every run keeps

  function ClientOf(s: Sys, id: Id): Option<Client> { if id in s.clients then Some(s.clients[id]) else None }

  predicate Pending(s: Sys, id: Id) { s.server.slot == Some(id) }

  predicate Holds(k: Option<Client>) { k.Some? && k.value.attached }

  /** The callbacks and the owner of a pcb agree. */
  predicate HooksOk(c: Conn, pending: bool, held: bool) {
    if c.fate != Open then !pending && !held
    else if pending then
      !held && !c.closeFailed && c.arg == ServerArg && c.recv == PendingRecv && c.err == PendingErr && c.poll == PendingPoll
    else if held then
      !c.closeFailed && c.arg == ClientArg && c.recv == ClientRecv && c.err == ClientErr && c.poll == NoPoll
    else
      c.closeFailed && c.arg == NoArg && c.recv == NoRecv && c.err == NoErr && c.poll == NoPoll
  }

  /** The receive direction: counts are ordered and the peer stays within the window. */
  predicate FlowOk(c: Conn, pending: bool, wnd: nat) {
    && c.credited <= c.delivered <= |c.arrived| <= c.credited + wnd
    && (pending ==> c.delivered == 0)
  }

  /** The buffered and the returned bytes of a plain client. */
  predicate BufferOk(c: Conn, k: Client) {
    && k.taken <= c.delivered <= |c.arrived|
    && (k.attached ==> k.taken == c.delivered && c.credited + |k.rx| == c.delivered)
    && (!k.flushed ==> k.out + k.rx == c.arrived[..k.taken])
  }

  predicate ConnOk(c: Conn, pending: bool, k: Option<Client>, wnd: nat) {
    && (c.misused ==> c.fate == Freed)
    && HooksOk(c, pending, Holds(k))
    && FlowOk(c, pending, wnd)
    && (pending ==> k.None?)
    && (k.Some? && !k.value.tls ==> BufferOk(c, k.value))
  }

  ghost predicate Inv(s: Sys) {
    && s.wnd <= 0xFFFF
    && (s.server.hasClient <==> s.server.slot.Some?)
    && (s.server.slot.Some? ==> Live(s, s.server.slot.value))
    && s.clients.Keys <= s.conns.Keys
    && forall id :: id in s.conns ==> ConnOk(s.conns[id], Pending(s, id), ClientOf(s, id), s.wnd)
  }

  predicate Initial(s: Sys) {
    && s.wnd <= 0xFFFF && s.conns == map[] && s.clients == map[]
    && s.server.slot == None && !s.server.hasClient && !s.server.listening
  }

  // ---- one step

  /** The state with one connection, its client and the server replaced. */
  function Changed(s: Sys, id: Id, c: Conn, k: Option<Client>, sv: Server): Sys {
    Sys(sv, s.conns[id := c], if k.Some? then s.clients[id := k.value] else s.clients, s.wnd)
  }

  /** The server's slot after a step that touches connection `id` only. */
  predicate SlotStep(s: Sys, id: Id, sv: Server, c: Conn) {
    && (sv.slot == s.server.slot || (sv.slot == None && Pending(s, id)) || (sv.slot == Some(id) && s.server.slot == None))
    && (sv.hasClient <==> sv.slot.Some?) && (sv.slot == Some(id) ==> c.fate == Open)
  }

  /** A step that touches one connection keeps the invariant if it leaves that connection in order. */
  lemma Local(s: Sys, id: Id, c: Conn, k: Option<Client>, sv: Server)
    requires Inv(s) && SlotStep(s, id, sv, c)
    requires ConnOk(c, sv.slot == Some(id), if k.Some? then k else ClientOf(s, id), s.wnd)
    ensures Inv(Changed(s, id, c, k, sv))
  {
    hide ConnOk;
    var s' := Changed(s, id, c, k, sv);
    forall j | j in s'.conns ensures ConnOk(s'.conns[j], Pending(s', j), ClientOf(s', j), s'.wnd) {
      if j != id {
        assert ConnOk(s.conns[j], Pending(s, j), ClientOf(s, j), s.wnd);
      }
    }
  }

  /** What the invariant says about one connection and the slot. */
  lemma Facts(s: Sys, id: Id)
    requires Inv(s) && (id in s.conns || id in s.clients || Pending(s, id))
    ensures id in s.conns && ConnOk(s.conns[id], Pending(s, id), ClientOf(s, id), s.wnd)
    ensures s.wnd <= 0xFFFF && (s.server.hasClient <==> s.server.slot.Some?)
  {
  }

  lemma KeptByNewConnection(s: Sys, id: Id, now: nat)
    requires Inv(s) && Enabled(s, NewConnection(id, now))
    ensures Inv(Step(s, NewConnection(id, now)).0)
  {
    var s1 := s;
    NewHasNoClient(s, id);
    if s.server.slot.Some? {
      var older := s.server.slot.value;
      Facts(s, older);
      var c := AbortConn(Unhook(s.conns[older]));
      Local(s, older, c, None, ClearSlot(s.server));
      s1 := Changed(s, older, c, None, ClearSlot(s.server));
    }
    var c := Hook(FreshConn(), ServerArg, PendingRecv, PendingErr, PendingPoll);
    var sv := s1.server.(slot := Some(id), hasClient := true, pendingSince := now);
    Local(s1, id, c, None, sv);
    hide Inv, ConnOk;
    assert Step(s, NewConnection(id, now)).0.conns == s1.conns[id := c];
  }

  lemma NewHasNoClient(s: Sys, id: Id)
    requires Inv(s) && id !in s.conns
    ensures id !in s.clients && (s.server.slot.Some? ==> s.server.slot.value != id && s.server.slot.value in s.conns)
  {
  }

  lemma KeptByArrive(s: Sys, id: Id, data: bytes)
    requires Inv(s) && Enabled(s, Arrive(id, data))
    ensures Inv(Step(s, Arrive(id, data)).0)
  {
    hide Inv;
    Facts(s, id);
    var c := s.conns[id];
    var c' := c.(arrived := c.arrived + data);
    if PlainClient(s, id) {
      assert c'.arrived[..s.clients[id].taken] == c.arrived[..s.clients[id].taken];
    }
    Local(s, id, c', None, s.server);
  }

  /** Bytes handed to a client extend its buffer by what lwIP took off the connection. */
  lemma TakenInOrder(c: Conn, k: Client, n: nat)
    requires BufferOk(c, k) && k.attached && c.delivered + n <= |c.arrived|
    ensures BufferOk(c.(delivered := c.delivered + n),
                     k.(rx := k.rx + c.arrived[c.delivered..c.delivered + n], taken := k.taken + n))
  {
    var p := c.arrived[c.delivered..c.delivered + n];
    assert c.arrived[..c.delivered + n] == c.arrived[..c.delivered] + p;
    assert k.out + (k.rx + p) == (k.out + k.rx) + p;
  }

  lemma TakenOk(c: Conn, k: Client, n: nat, wnd: nat)
    requires ConnOk(c, false, Some(k), wnd) && k.attached && c.delivered + n <= |c.arrived|
    ensures ConnOk(c.(delivered := c.delivered + n), false,
                   Some(OnReceive(k, c.arrived[c.delivered..c.delivered + n], true).0), wnd)
  {
    if !k.tls {
      TakenInOrder(c, k, n);
    }
    hide BufferOk;
  }

  lemma HeldFacts(s: Sys, id: Id)
    requires Inv(s) && Live(s, id) && s.conns[id].recv == ClientRecv
    ensures !Pending(s, id) && id in s.clients && s.clients[id].attached && s.conns[id].arg == ClientArg
    ensures ConnOk(s.conns[id], false, Some(s.clients[id]), s.wnd)
    ensures s.server.hasClient <==> s.server.slot.Some?
  {
    Facts(s, id);
  }

  lemma KeptByTaking(s: Sys, id: Id, n: nat)
    requires Inv(s) && Live(s, id) && n <= |s.conns[id].arrived| - s.conns[id].delivered && s.conns[id].recv == ClientRecv
    ensures id in s.clients && s.conns[id].arg == ClientArg && Inv(TakeStep(s, id, n, true).0)
  {
    hide Inv;
    HeldFacts(s, id);
    hide ConnOk;
    var c := s.conns[id];
    TakenOk(c, s.clients[id], n, s.wnd);
    var k' := OnReceive(s.clients[id], c.arrived[c.delivered..c.delivered + n], true).0;
    Local(s, id, c.(delivered := c.delivered + n), Some(k'), s.server);
  }

  lemma DropOk(c: Conn, pending: bool, k: Option<Client>, n: nat, wnd: nat)
    requires ConnOk(c, pending, k, wnd) && c.fate == Open && c.recv == NoRecv && c.delivered + n <= |c.arrived|
    ensures !pending && ConnOk(c.(delivered := c.delivered + n, credited := c.credited + n), false, k, wnd)
  {
  }

  lemma KeptByDropping(s: Sys, id: Id, n: nat)
    requires Inv(s) && Live(s, id) && n <= |s.conns[id].arrived| - s.conns[id].delivered && s.conns[id].recv == NoRecv
    ensures Inv(DropStep(s, id, n))
  {
    hide Inv;
    Facts(s, id);
    hide ConnOk;
    var c := s.conns[id];
    DropOk(c, Pending(s, id), ClientOf(s, id), n, s.wnd);
    Local(s, id, c.(delivered := c.delivered + n, credited := c.credited + n), None, s.server);
  }

  lemma KeptByDeliver(s: Sys, id: Id, n: nat, memory: bool)
    requires Inv(s) && Enabled(s, Deliver(id, n, memory))
    ensures Inv(Step(s, Deliver(id, n, memory)).0)
  {
    hide Inv;
    Facts(s, id);
    hide OnReceive, DropStep, TakeStep;
    var c := s.conns[id];
    if c.recv == NoRecv {
      KeptByDropping(s, id, n);
    } else if c.recv == ClientRecv && memory {
      KeptByTaking(s, id, n);
    } else {
      assert DeliverStep(s, id, n, memory).0 == s by {
        Refused(s, id, n, memory);
      }
    }
  }

  /** Data for a waiting connection, or without memory to take it, is refused and changes nothing. */
  lemma Refused(s: Sys, id: Id, n: nat, memory: bool)
    requires Inv(s) && Enabled(s, Deliver(id, n, memory))
    requires s.conns[id].recv == PendingRecv || (s.conns[id].recv == ClientRecv && !memory)
    ensures DeliverStep(s, id, n, memory) == (s, Mem)
  {
    Facts(s, id);
  }

  lemma KeptByDisconnect(s: Sys, id: Id, closeOk: bool)
    requires Inv(s) && PlainClient(s, id)
    ensures Inv(Disconnect(s, id, closeOk)) && PlainClient(Disconnect(s, id, closeOk), id)
  {
    hide Inv;
    Facts(s, id);
    var c, k := s.conns[id], s.clients[id];
    var c' := if k.attached then DisconnectConn(c, closeOk) else c;
    Local(s, id, c', Some(Released(k)), s.server);
    assert s.conns[id := c] == s.conns;
  }

  lemma KeptByFin(s: Sys, id: Id, closeOk: bool)
    requires Inv(s) && Enabled(s, Fin(id, closeOk))
    ensures Inv(Step(s, Fin(id, closeOk)).0)
  {
    hide Inv;
    Facts(s, id);
    var c := s.conns[id];
    if c.recv == PendingRecv {
      Local(s, id, CloseConn(Unhook(c), closeOk), None, ClearSlot(s.server));
    } else if c.recv == NoRecv {
      Local(s, id, CloseConn(c, closeOk), None, s.server);
    } else if PlainClient(s, id) {
      KeptByDisconnect(s, id, closeOk);
    }
  }

  lemma KeptByPoll(s: Sys, id: Id, now: nat)
    requires Inv(s) && Enabled(s, Poll(id, now))
    ensures Inv(Step(s, Poll(id, now)).0)
  {
    hide Inv;
    Facts(s, id);
    Local(s, id, AbortConn(Unhook(s.conns[id])), None, ClearSlot(s.server));
  }

  lemma KeptByReset(s: Sys, id: Id, freedFirst: bool)
    requires Inv(s) && Enabled(s, Reset(id, freedFirst))
    ensures Inv(Step(s, Reset(id, freedFirst)).0)
  {
    hide Inv;
    Facts(s, id);
    var c := s.conns[id];
    if c.err == PendingErr {
      Local(s, id, c.(fate := Freed), None, ClearSlot(s.server));
      assert s.conns[id := c.(fate := Freed)][id := c.(fate := Freed)] == s.conns[id := c.(fate := Freed)];
    } else if c.err == NoErr {
      Local(s, id, c.(fate := Freed), None, s.server);
      assert s.conns[id := c.(fate := Freed)][id := c.(fate := Freed)] == s.conns[id := c.(fate := Freed)];
    } else {
      KeptByClientError(s, id, freedFirst);
    }
  }

  /** What a reset leaves of a pcb that a client holds. */
  function ResetConn(c: Conn, tls: bool, freedFirst: bool): Conn {
    if tls then c.(fate := Freed)
    else if freedFirst then c.(fate := Freed, misused := true)
    else Unclaim(c).(fate := Freed)
  }

  lemma ClientReset(s: Sys, id: Id, freedFirst: bool)
    requires Live(s, id) && s.conns[id].err == ClientErr && s.conns[id].arg == ClientArg && id in s.clients && s.clients[id].attached
    ensures var k := s.clients[id];
            ResetStep(s, id, freedFirst) ==
            Changed(s, id, ResetConn(s.conns[id], k.tls, freedFirst), Some(if k.tls then Released(k) else Drop(Released(k))), s.server)
  {
    var r := ResetStep(s, id, freedFirst);
    var c' := ResetConn(s.conns[id], s.clients[id].tls, freedFirst);
    assert r.conns[id] == c';
    assert r.conns == s.conns[id := c'];
  }

  lemma KeptByClientError(s: Sys, id: Id, freedFirst: bool)
    requires Inv(s) && Live(s, id) && s.conns[id].err == ClientErr
    ensures Inv(ResetStep(s, id, freedFirst))
  {
    hide Inv;
    Facts(s, id);
    var c, k := s.conns[id], s.clients[id];
    ClientReset(s, id, freedFirst);
    var k' := if k.tls then Released(k) else Drop(Released(k));
    assert k.out + [] == k.out;
    Local(s, id, ResetConn(c, k.tls, freedFirst), Some(k'), s.server);
  }

  /** Fields of the server other than the slot do not matter. */
  lemma SameSlot(s: Sys, sv: Server)
    requires Inv(s) && sv.slot == s.server.slot && sv.hasClient == s.server.hasClient
    ensures Inv(s.(server := sv))
  {
    hide ConnOk;
    forall j | j in s.conns ensures ConnOk(s.conns[j], Pending(s.(server := sv), j), ClientOf(s, j), s.wnd) {
      assert ConnOk(s.conns[j], Pending(s, j), ClientOf(s, j), s.wnd);
    }
  }

  lemma KeptByServerClose(s: Sys, closeOk: bool, up: bool)
    requires Inv(s)
    ensures Inv(ServerClose(s, closeOk)) && Inv(Begin(s, closeOk, up))
  {
    var sv := s.server.(slot := None, hasClient := false, listening := false);
    if s.server.slot.Some? {
      var id := s.server.slot.value;
      Facts(s, id);
      hide Inv;
      Local(s, id, CloseConn(Unhook(s.conns[id]), closeOk), None, sv);
      SameSlot(ServerClose(s, closeOk), sv.(listening := up));
    } else {
      SameSlot(s, sv);
      SameSlot(s, sv.(listening := up));
    }
  }

  lemma KeptByTlsClose(s: Sys, id: Id, closeOk: bool)
    requires Inv(s) && id in s.clients && s.clients[id].tls
    ensures Inv(TlsClose(s, id, closeOk))
  {
    hide Inv;
    Facts(s, id);
    var c, k := s.conns[id], s.clients[id];
    Local(s, id, if k.attached then CloseConn(Unclaim(c), closeOk) else c, Some(Released(k)), s.server);
    assert s.conns[id := c] == s.conns;
  }

  lemma KeptByAccept(s: Sys, how: Acceptance)
    requires Inv(s)
    ensures Inv(Accept(s, how))
  {
    if s.server.slot.Some? {
      var id := s.server.slot.value;
      Facts(s, id);
      hide Inv;
      var c, sv := Unhook(s.conns[id]), ClearSlot(s.server);
      match how
      case Plain =>
        assert c.arrived[..0] == [];
        Local(s, id, Attach(c), Some(NewClient(false)), sv);
      case Tls =>
        Local(s, id, Attach(c), Some(NewClient(true)), sv);
      case TlsNoMemory =>
        Local(s, id, AbortConn(c), None, sv);
      case TlsSetupFails(closeOk) =>
        Local(s, id, CloseConn(Unclaim(Attach(c)), closeOk), None, sv);
    }
  }

  /** The credit given for bytes that leave the buffer fits its 16-bit argument and lwIP's window. */
  lemma CreditFits(c: Conn, k: Client, n: nat, wnd: nat)
    requires ConnOk(c, false, Some(k), wnd) && !k.tls && k.attached && n <= |k.rx| && wnd <= 0xFFFF
    ensures Credit(c, n, wnd) == c.(credited := c.credited + n)
  {
  }

  lemma KeptByRead(s: Sys, id: Id, size: nat)
    requires Inv(s) && PlainClient(s, id)
    ensures Inv(Read(s, id, size))
  {
    hide Inv;
    Facts(s, id);
    var c, k := s.conns[id], s.clients[id];
    if k.rx != [] {
      var n := Min(size, |k.rx|);
      var k' := k.(rx := k.rx[n..], out := k.out + k.rx[..n]);
      assert k'.out + k'.rx == k.out + k.rx;
      if k.attached {
        CreditFits(c, k, n, s.wnd);
        Local(s, id, c.(credited := c.credited + n), Some(k'), s.server);
      } else {
        Local(s, id, c, Some(k'), s.server);
        assert s.conns[id := c] == s.conns;
      }
    }
  }

  lemma KeptByFlush(s: Sys, id: Id)
    requires Inv(s) && PlainClient(s, id)
    ensures Inv(Flush(s, id))
  {
    hide Inv;
    Facts(s, id);
    var c, k := s.conns[id], s.clients[id];
    if k.attached && k.rx != [] {
      CreditFits(c, k, |k.rx|, s.wnd);
      Local(s, id, c.(credited := c.credited + |k.rx|), Some(Drop(k)), s.server);
    } else {
      Local(s, id, c, Some(Drop(k)), s.server);
      assert s.conns[id := c] == s.conns;
    }
  }

  /** Every step keeps the invariant. */
  lemma StepKeeps(s: Sys, e: Event)
    requires Inv(s) && Enabled(s, e)
    ensures Inv(Step(s, e).0)
  {
    hide Inv;
    match e
    case NewConnection(id, now) => KeptByNewConnection(s, id, now);
    case Arrive(id, data) => KeptByArrive(s, id, data);
    case Deliver(id, n, memory) => KeptByDeliver(s, id, n, memory);
    case Fin(id, closeOk) => KeptByFin(s, id, closeOk);
    case Poll(id, now) => KeptByPoll(s, id, now);
    case Reset(id, freedFirst) => KeptByReset(s, id, freedFirst);
    case BeginCall(closeOk, up) => KeptByServerClose(s, closeOk, up);
    case CloseCall(closeOk) => KeptByServerClose(s, closeOk, true);
    case AcceptCall(how) => KeptByAccept(s, how);
    case ReadCall(id, size) => KeptByRead(s, id, size);
    case FlushCall(id) => KeptByFlush(s, id);
    case DisconnectCall(id, closeOk) => KeptByDisconnect(s, id, closeOk);
    case CloseClientCall(id, closeOk) =>
      KeptByDisconnect(s, id, closeOk);
      KeptByFlush(Disconnect(s, id, closeOk), id);
    case TlsCloseCall(id, closeOk) => KeptByTlsClose(s, id, closeOk);
  }

  // ---- whole runs

  ghost predicate Run(states: seq<Sys>, events: seq<Event>) {
    && |states| == |events| + 1 && Initial(states[0])
    && forall i :: 0 <= i < |events| ==> Enabled(states[i], events[i]) && states[i + 1] == Step(states[i], events[i]).0
  }

  lemma RunStep(states: seq<Sys>, events: seq<Event>, n: nat)
    requires Run(states, events) && n < |events|
    ensures Enabled(states[n], events[n]) && states[n + 1] == Step(states[n], events[n]).0
  {
    hide Enabled, Step;
  }

  lemma {:induction false} RunKeeps(states: seq<Sys>, events: seq<Event>, n: nat)
    requires Run(states, events) && n < |states|
    ensures Inv(states[n])
  {
    if n > 0 {
      RunKeeps(states, events, n - 1);
      RunStep(states, events, n - 1);
      hide *;
      StepKeeps(states[n - 1], events[n - 1]);
    }
  }

  /** Whose a pcb is: it waits in the slot, a client holds it, it has been let go, or its close failed. */
  datatype Owner = Waiting | WithClient | LetGo | Stray

  predicate Owns(s: Sys, id: Id, o: Owner)
    requires id in s.conns
  {
    match o
    case Waiting => Pending(s, id)
    case WithClient => Holds(ClientOf(s, id))
    case LetGo => s.conns[id].fate != Open
    case Stray => s.conns[id].fate == Open && s.conns[id].closeFailed
  }

  // ---- pcbs without an owner, and pcbs used after they are gone

  predicate IsStray(s: Sys, id: Id) { id in s.conns && Owns(s, id, Stray) }

  /** A call whose `tcp_close` on the pcb fails and is left at that. */
  predicate LosesOwner(s: Sys, e: Event, id: Id) {
    match e
    case BeginCall(closeOk, up) => !closeOk && Pending(s, id)
    case CloseCall(closeOk) => !closeOk && Pending(s, id)
    case AcceptCall(how) => how == TlsSetupFails(false) && Pending(s, id)
    case Fin(id', closeOk) => id' == id && !closeOk && Pending(s, id)
    case TlsCloseCall(id', closeOk) => id' == id && !closeOk && Holds(ClientOf(s, id))
    case _ => false
  }

  /** lwIP itself is done with a pcb that nobody owns. */
  predicate Collected(e: Event, id: Id) { e == Fin(id, true) || (e.Reset? && e.id == id) }

  /** An error callback that uses a pcb which has been freed: a plain client's, when lwIP frees first. */
  predicate UsesFreed(s: Sys, e: Event, id: Id) {
    e == Reset(id, true) && PlainClient(s, id) && s.clients[id].attached
  }

  /** What a step does to whether a pcb is stray and whether it has been misused. */
  predicate Traced(s: Sys, e: Event, s': Sys, id: Id) {
    && (IsStray(s', id) <==> (IsStray(s, id) && !Collected(e, id)) || LosesOwner(s, e, id))
    && (At(s', id).misused <==> At(s, id).misused || UsesFreed(s, e, id))
  }

  /** A step that does not touch a pcb. */
  lemma Untouched(s: Sys, e: Event, s': Sys, id: Id)
    requires (id in s'.conns <==> id in s.conns) && (id in s.conns ==> s'.conns[id] == s.conns[id])
    requires !LosesOwner(s, e, id) && !UsesFreed(s, e, id) && !Collected(e, id)
    ensures Traced(s, e, s', id)
  {
  }

  lemma TraceServer(s: Sys, e: Event, id: Id)
    requires Inv(s) && Enabled(s, e) && (e.BeginCall? || e.CloseCall?)
    ensures Traced(s, e, Step(s, e).0, id)
  {
    hide Inv, FlowOk, BufferOk;
    if Pending(s, id) {
      Facts(s, id);
    } else {
      Untouched(s, e, Step(s, e).0, id);
    }
  }

  lemma TraceAccept(s: Sys, how: Acceptance, id: Id)
    requires Inv(s)
    ensures Traced(s, AcceptCall(how), Accept(s, how), id)
  {
    var s' := Accept(s, how);
    if Pending(s, id) {
      Facts(s, id);
      hide Inv;
    } else {
      hide Inv;
      Untouched(s, AcceptCall(how), s', id);
    }
  }

  lemma TraceNew(s: Sys, e: Event, id: Id)
    requires Inv(s) && Enabled(s, e) && e.NewConnection?
    ensures Traced(s, e, Step(s, e).0, id)
  {
    NewHasNoClient(s, e.id);
    if Pending(s, id) {
      Facts(s, id);
    }
    hide Inv, ConnOk;
  }

  /** Data changes neither what becomes of a pcb nor what was done to it. */
  predicate SameFate(c: Conn, c': Conn) {
    c'.fate == c.fate && c'.closeFailed == c.closeFailed && c'.misused == c.misused
  }

  lemma FlowOnly(s: Sys, e: Event, s': Sys, id: Id)
    requires e.Arrive? || e.Deliver? || e.ReadCall? || e.FlushCall?
    requires (id in s'.conns <==> id in s.conns) && (id in s.conns ==> SameFate(s.conns[id], s'.conns[id]))
    ensures Traced(s, e, s', id)
  {
  }

  lemma TraceFlow(s: Sys, e: Event, id: Id)
    requires Inv(s) && Enabled(s, e) && (e.Arrive? || e.Deliver?)
    ensures Traced(s, e, Step(s, e).0, id)
  {
    hide Inv;
    Facts(s, e.id);
    hide ConnOk;
    FlowOnly(s, e, Step(s, e).0, id);
  }

  lemma TraceFin(s: Sys, e: Event, id: Id)
    requires Inv(s) && Enabled(s, e) && e.Fin?
    ensures Traced(s, e, Step(s, e).0, id)
  {
    hide Inv;
    Facts(s, e.id);
    hide FlowOk, BufferOk;
    if id != e.id {
      Untouched(s, e, Step(s, e).0, id);
    }
  }

  lemma TracePoll(s: Sys, e: Event, id: Id)
    requires Inv(s) && Enabled(s, e) && e.Poll?
    ensures Traced(s, e, Step(s, e).0, id)
  {
    hide Inv;
    Facts(s, e.id);
    hide FlowOk, BufferOk;
  }

  lemma TraceReset(s: Sys, e: Event, id: Id)
    requires Inv(s) && Enabled(s, e) && e.Reset?
    ensures Traced(s, e, Step(s, e).0, id)
  {
    hide Inv;
    Facts(s, e.id);
    hide FlowOk, BufferOk;
    if s.conns[e.id].err == ClientErr {
      ClientReset(s, e.id, e.freedFirst);
    }
    if id != e.id {
      Untouched(s, e, Step(s, e).0, id);
    }
  }

  lemma TraceRead(s: Sys, e: Event, id: Id)
    requires Inv(s) && Enabled(s, e) && (e.ReadCall? || e.FlushCall?)
    ensures Traced(s, e, Step(s, e).0, id)
  {
    hide Inv, Traced, Credit, FlowOk, HooksOk;
    Facts(s, e.id);
    var c, k := s.conns[e.id], s.clients[e.id];
    if k.attached {
      CreditFits(c, k, |k.rx|, s.wnd);
      if e.ReadCall? {
        CreditFits(c, k, Min(e.size, |k.rx|), s.wnd);
      }
    }
    hide ConnOk, BufferOk;
    FlowOnly(s, e, Step(s, e).0, id);
  }

  /** What a disconnect leaves of a pcb that a client holds. */
  lemma DisconnectedConn(c: Conn, k: Option<Client>, closeOk: bool, wnd: nat)
    requires ConnOk(c, false, k, wnd) && Holds(k)
    ensures var c' := DisconnectConn(c, closeOk); c'.fate != Open && !c'.misused && !c.misused && !c.closeFailed && c.fate == Open
  {
  }

  lemma TraceDisconnect(s: Sys, e: Event, id: Id)
    requires Inv(s) && Enabled(s, e) && (e.DisconnectCall? || e.CloseClientCall?)
    ensures Traced(s, e, Step(s, e).0, id)
  {
    hide Inv, Step, Traced, DisconnectConn;
    DisconnectMap(s, e);
    if s.clients[e.id].attached && id == e.id {
      GivenUp(s, e, Step(s, e).0);
    } else {
      Untouched(s, e, Step(s, e).0, id);
    }
  }

  /** What a disconnect or a close of a client does to the connections. */
  lemma DisconnectMap(s: Sys, e: Event)
    requires Enabled(s, e) && (e.DisconnectCall? || e.CloseClientCall?)
    ensures Step(s, e).0.conns ==
            if s.clients[e.id].attached then s.conns[e.id := DisconnectConn(At(s, e.id), e.closeOk)] else s.conns
  {
    hide DisconnectConn, Credit, At;
  }

  lemma GivenUp(s: Sys, e: Event, s': Sys)
    requires Inv(s) && Enabled(s, e) && (e.DisconnectCall? || e.CloseClientCall?) && s.clients[e.id].attached
    requires s'.conns == s.conns[e.id := DisconnectConn(At(s, e.id), e.closeOk)]
    ensures Traced(s, e, s', e.id)
  {
    hide Inv, DisconnectConn;
    Facts(s, e.id);
    DisconnectedConn(s.conns[e.id], ClientOf(s, e.id), e.closeOk, s.wnd);
    hide ConnOk;
  }

  lemma TraceTlsClose(s: Sys, e: Event, id: Id)
    requires Inv(s) && Enabled(s, e) && e.TlsCloseCall?
    ensures Traced(s, e, Step(s, e).0, id)
  {
    hide Inv;
    Facts(s, e.id);
    hide FlowOk, BufferOk;
    if id != e.id {
      Untouched(s, e, Step(s, e).0, id);
    }
  }

  lemma TraceStep(s: Sys, e: Event, id: Id)
    requires Inv(s) && Enabled(s, e)
    ensures Traced(s, e, Step(s, e).0, id)
  {
    hide Inv, Traced;
    match e
    case NewConnection(_, _) => TraceNew(s, e, id);
    case Arrive(_, _) => TraceFlow(s, e, id);
    case Deliver(_, _, _) => TraceFlow(s, e, id);
    case Fin(_, _) => TraceFin(s, e, id);
    case Poll(_, _) => TracePoll(s, e, id);
    case Reset(_, _) => TraceReset(s, e, id);
    case BeginCall(_, _) => TraceServer(s, e, id);
    case CloseCall(_) => TraceServer(s, e, id);
    case AcceptCall(how) => TraceAccept(s, how, id);
    case ReadCall(_, _) => TraceRead(s, e, id);
    case FlushCall(_) => TraceRead(s, e, id);
    case DisconnectCall(_, _) => TraceDisconnect(s, e, id);
    case CloseClientCall(_, _) => TraceDisconnect(s, e, id);
    case TlsCloseCall(_, _) => TraceTlsClose(s, e, id);
  }

  /**
   When a pcb loses its owner: in every run it turns stray with an event if and only if that event is a
   failing close of the pending pcb by the server, or of a TLS client's pcb; and it stops being
   stray if and only if lwIP closes or resets it.
   */
  lemma StrayExactly(states: seq<Sys>, events: seq<Event>, n: nat, id: Id)
    requires Run(states, events) && n < |events|
    ensures !IsStray(states[n], id) ==> (IsStray(states[n + 1], id) <==> LosesOwner(states[n], events[n], id))
    ensures IsStray(states[n], id) ==> (IsStray(states[n + 1], id) <==> !Collected(events[n], id))
  {
    RunKeeps(states, events, n);
    RunStep(states, events, n);
    TraceStep(states[n], events[n], id);
    StrayOwnsItself(states[n], events[n], id);
  }

  /** A stray pcb has no owner left to lose. */
  lemma StrayOwnsItself(s: Sys, e: Event, id: Id)
    requires Inv(s)
    ensures IsStray(s, id) ==> !LosesOwner(s, e, id)
  {
    if IsStray(s, id) {
      Facts(s, id);
    }
  }

  /**
   When a pcb is used after it is gone: in every state of every run, if and only if lwIP freed the pcb of
   an attached plain client before it called that client's error callback.
   */
  lemma {:induction false} MisusedExactly(states: seq<Sys>, events: seq<Event>, n: nat, id: Id)
    requires Run(states, events) && n < |states|
    ensures At(states[n], id).misused <==> exists m :: 0 <= m < n && UsesFreed(states[m], events[m], id)
  {
    if n > 0 {
      MisusedExactly(states, events, n - 1, id);
      RunKeeps(states, events, n - 1);
      RunStep(states, events, n - 1);
      TraceStep(states[n - 1], events[n - 1], id);
      hide *;
      MisusedMore(states, events, n, id);
    }
  }

  lemma MisusedMore(states: seq<Sys>, events: seq<Event>, n: nat, id: Id)
    requires 0 < n < |states| == |events| + 1
    ensures (exists m :: 0 <= m < n && UsesFreed(states[m], events[m], id)) <==>
            (exists m :: 0 <= m < n - 1 && UsesFreed(states[m], events[m], id)) || UsesFreed(states[n - 1], events[n - 1], id)
  {
    hide UsesFreed;
  }

  /** A run in which a pcb loses its owner: a connection waits, and the server closes without being able to. */
  lemma StrayRun() returns (states: seq<Sys>, events: seq<Event>)
    ensures Run(states, events) && |states| == 4 && IsStray(states[3], 7)
  {
    var s0 := Sys(Server(None, false, 0, 30000, false), map[], map[], 2048);
    events := [BeginCall(true, true), NewConnection(7, 0), CloseCall(false)];
    var s1 := Step(s0, events[0]).0;
    var s2 := Step(s1, events[1]).0;
    var s3 := Step(s2, events[2]).0;
    assert Enabled(s1, events[1]) && IsStray(s3, 7);
    hide Step, Enabled, IsStray;
    states := [s0, s1, s2, s3];
  }

  /**
   In every state of every run, each pcb has exactly one owner and no call was ever made on it
   after it was let go, unless lwIP frees before it reports; it carries the server as its argument
   exactly while it waits, and the server claims a client exactly while its slot is filled.
   */
  lemma OneOwner(states: seq<Sys>, events: seq<Event>, n: nat, id: Id)
    requires Run(states, events) && n < |states| && id in states[n].conns
    ensures var s := states[n];
            && (s.conns[id].misused <==> exists m :: 0 <= m < n && UsesFreed(states[m], events[m], id))
            && (exists o :: Owns(s, id, o) && forall o' :: Owns(s, id, o') ==> o' == o)
            && (s.conns[id].fate == Open ==> (s.conns[id].arg == ServerArg <==> Pending(s, id)))
            && (s.conns[id].poll == PendingPoll && s.conns[id].fate == Open ==> s.conns[id].arg == ServerArg)
            && (s.server.hasClient <==> s.server.slot.Some?)
  {
    MisusedExactly(states, events, n, id);
    RunKeeps(states, events, n);
    hide Run, UsesFreed;
    OwnedOnce(states[n], id);
  }

  lemma OwnedOnce(s: Sys, id: Id)
    requires Inv(s) && id in s.conns
    ensures exists o :: Owns(s, id, o) && forall o' :: Owns(s, id, o') ==> o' == o
    ensures s.conns[id].fate == Open ==> (s.conns[id].arg == ServerArg <==> Pending(s, id))
    ensures s.conns[id].poll == PendingPoll && s.conns[id].fate == Open ==> s.conns[id].arg == ServerArg
    ensures s.server.hasClient <==> s.server.slot.Some?
  {
    hide Inv;
    Facts(s, id);
    var o := if Pending(s, id) then Waiting else if Holds(ClientOf(s, id)) then WithClient
             else if s.conns[id].fate != Open then LetGo else Stray;
    assert Owns(s, id, o);
    forall o' | Owns(s, id, o') ensures o' == o {
    }
  }

  /**
   In every state of every run, what a client's reads returned followed by what it buffers is a
   prefix of the peer's stream from its first byte, until buffered bytes have been dropped; while
   the client has the pcb, every byte it took is credited or still buffered.
   */
  lemma LosslessHandoff(states: seq<Sys>, events: seq<Event>, n: nat, id: Id)
    requires Run(states, events) && n < |states| && PlainClient(states[n], id)
    ensures var s := states[n];
            var k := s.clients[id];
            && id in s.conns
            && (!k.flushed ==> k.out + k.rx <= s.conns[id].arrived)
            && (k.attached ==> s.conns[id].credited + |k.rx| == s.conns[id].delivered == k.taken)
            && |s.conns[id].arrived| - s.conns[id].credited <= s.wnd
  {
    RunKeeps(states, events, n);
    Facts(states[n], id);
  }

  /** A FIN that finds no refused data leaves the client with the whole stream. */
  lemma FinCompletes(states: seq<Sys>, events: seq<Event>, n: nat, id: Id, closeOk: bool)
    requires Run(states, events) && n < |events| && events[n] == Fin(id, closeOk)
    requires Holds(ClientOf(states[n], id)) && PlainClient(states[n], id) && !states[n].clients[id].flushed
    ensures id in states[n + 1].clients
    ensures var k, c := states[n + 1].clients[id], states[n].conns[id];
            && !k.attached && k == Released(states[n].clients[id])
            && (k.out + k.rx == c.arrived <==> c.delivered == |c.arrived|)
  {
    var s := states[n];
    RunKeeps(states, events, n);
    Facts(s, id);
    var c, k := s.conns[id], s.clients[id];
    hide Inv;
    assert states[n + 1] == Disconnect(s, id, closeOk);
    assert c.arrived[..|c.arrived|] == c.arrived;
    assert |k.out + k.rx| == c.delivered;
  }

  /** A pcb that no client has and the server no longer keeps for one. */
  predicate Forsaken(s: Sys, id: Id) { id in s.conns && !Pending(s, id) && id !in s.clients }

  lemma ForsakenByServer(s: Sys, e: Event, id: Id)
    requires Enabled(s, e) && Forsaken(s, id)
    requires e.NewConnection? || e.BeginCall? || e.CloseCall? || e.AcceptCall?
    ensures Forsaken(Step(s, e).0, id)
  {
    hide Hook, CloseConn, AbortConn, Unhook, Attach;
  }

  lemma ForsakenByNet(s: Sys, e: Event, id: Id)
    requires Enabled(s, e) && Forsaken(s, id) && (e.Arrive? || e.Deliver? || e.Fin? || e.Poll? || e.Reset?)
    ensures Forsaken(Step(s, e).0, id)
  {
    hide CloseConn, AbortConn, Unhook, Unclaim, DisconnectConn, OnReceive, Window;
  }

  lemma ForsakenByClient(s: Sys, e: Event, id: Id)
    requires Enabled(s, e) && Forsaken(s, id)
    requires e.ReadCall? || e.FlushCall? || e.DisconnectCall? || e.CloseClientCall? || e.TlsCloseCall?
    ensures Forsaken(Step(s, e).0, id)
  {
    hide CloseConn, Unclaim, DisconnectConn, Credit, AfterRead;
  }

  lemma ForsakenStep(s: Sys, e: Event, id: Id)
    requires Enabled(s, e) && Forsaken(s, id)
    ensures Forsaken(Step(s, e).0, id)
  {
    hide *;
    if e.NewConnection? || e.BeginCall? || e.CloseCall? || e.AcceptCall? {
      ForsakenByServer(s, e, id);
    } else if e.Arrive? || e.Deliver? || e.Fin? || e.Poll? || e.Reset? {
      ForsakenByNet(s, e, id);
    } else {
      ForsakenByClient(s, e, id);
    }
  }

  lemma FinForsakes(s: Sys, e: Event, id: Id)
    requires Inv(s) && Pending(s, id) && e.Fin? && e.id == id && Enabled(s, e)
    ensures id in s.conns && s.conns[id].delivered == 0 && Forsaken(Step(s, e).0, id)
  {
    hide Inv;
    Facts(s, id);
    hide BufferOk, CloseConn, Unhook;
  }

  /**
   A FIN for a pcb that waits loses whatever arrived on it, in every run: none of it has reached a client,
   and no client ever gets the pcb.
   */
  lemma {:induction false} FinWhileWaiting(states: seq<Sys>, events: seq<Event>, n: nat, m: nat, id: Id)
    requires Run(states, events) && n < |events| && events[n].Fin? && events[n].id == id && Pending(states[n], id)
    requires n < m < |states|
    ensures id in states[n].conns && states[n].conns[id].delivered == 0 && Forsaken(states[m], id)
    decreases m
  {
    hide Inv, Step, Enabled, Forsaken;
    RunStep(states, events, m - 1);
    if m == n + 1 {
      RunKeeps(states, events, n);
      FinForsakes(states[n], events[n], id);
    } else {
      FinWhileWaiting(states, events, n, m - 1, id);
      ForsakenStep(states[m - 1], events[m - 1], id);
    }
  }

  /** Whoever waits after a step waited before it, since the same time, unless it is a newcomer. */
  predicate WaitsOn(s: Sys, s': Sys, id: Id) {
    id in s'.conns && (Pending(s', id) ==> Pending(s, id) && s'.server == s.server)
  }

  lemma WaitsByServer(s: Sys, e: Event, id: Id)
    requires Enabled(s, e) && id in s.conns && (e.NewConnection? || e.BeginCall? || e.CloseCall? || e.AcceptCall?)
    ensures WaitsOn(s, Step(s, e).0, id)
  {
    hide Hook, CloseConn, AbortConn, Unhook, Attach;
  }

  lemma WaitsByNet(s: Sys, e: Event, id: Id)
    requires Inv(s) && Enabled(s, e) && id in s.conns && (e.Arrive? || e.Deliver? || e.Fin? || e.Poll? || e.Reset?)
    ensures WaitsOn(s, Step(s, e).0, id)
  {
    hide Inv;
    Facts(s, e.id);
    hide CloseConn, AbortConn, Unhook, Unclaim, DisconnectConn, OnReceive, Window, FlowOk, BufferOk;
  }

  lemma WaitsByClient(s: Sys, e: Event, id: Id)
    requires Enabled(s, e) && id in s.conns
    requires e.ReadCall? || e.FlushCall? || e.DisconnectCall? || e.CloseClientCall? || e.TlsCloseCall?
    ensures WaitsOn(s, Step(s, e).0, id)
  {
    hide CloseConn, Unclaim, DisconnectConn, Credit, AfterRead;
  }

  lemma WaitsStep(s: Sys, e: Event, id: Id)
    requires Inv(s) && Enabled(s, e) && id in s.conns
    ensures WaitsOn(s, Step(s, e).0, id)
  {
    hide *;
    if e.NewConnection? || e.BeginCall? || e.CloseCall? || e.AcceptCall? {
      WaitsByServer(s, e, id);
    } else if e.Arrive? || e.Deliver? || e.Fin? || e.Poll? || e.Reset? {
      WaitsByNet(s, e, id);
    } else {
      WaitsByClient(s, e, id);
    }
  }

  lemma NewcomerWaits(s: Sys, e: Event)
    requires Enabled(s, e) && e.NewConnection?
    ensures var s' := Step(s, e).0; e.id in s'.conns && Pending(s', e.id) && s'.server.pendingSince == e.now
  {
  }

  /** In every run, a pcb that waits has waited since it came. */
  lemma {:induction false} WaitsSince(states: seq<Sys>, events: seq<Event>, m: nat, n: nat, id: Id)
    requires Run(states, events) && m < n < |states| && events[m].NewConnection? && events[m].id == id
    ensures id in states[n].conns && (Pending(states[n], id) ==> states[n].server.pendingSince == events[m].now)
    decreases n
  {
    hide Inv, Step, Enabled, Pending;
    RunStep(states, events, n - 1);
    if n == m + 1 {
      NewcomerWaits(states[m], events[m]);
    } else {
      WaitsSince(states, events, m, n - 1, id);
      RunKeeps(states, events, n - 1);
      WaitsStep(states[n - 1], events[n - 1], id);
    }
  }

  lemma PollOutcome(s: Sys, e: Event, d: nat)
    requires Inv(s) && Enabled(s, e) && e.Poll? && Pending(s, e.id) && d < 0x1_0000_0000 && e.now == Clock(s.server.pendingSince, d)
    ensures Step(s, e).1 == Abrt <==> s.server.timeout > 0 && d > s.server.timeout
    ensures At(Step(s, e).0, e.id).fate == Aborted <==> s.server.timeout > 0 && d > s.server.timeout
  {
    hide Inv, ElapsedSince, Clock;
    Facts(s, e.id);
    ElapsedIs(s.server.pendingSince, d);
    hide FlowOk, BufferOk;
  }

  /**
   The pending timeout, in every run and across the wrap of the clock: a poll of a pcb that came `d` milliseconds ago
   and still waits aborts it, and says so, if and only if there is a timeout and it is shorter than `d`.
   */
  lemma PollAborts(states: seq<Sys>, events: seq<Event>, m: nat, n: nat, id: Id, d: nat)
    requires Run(states, events) && m < n < |events| && events[m].NewConnection? && events[m].id == id
    requires Pending(states[n], id) && d < 0x1_0000_0000 && events[n] == Poll(id, Clock(events[m].now, d))
    ensures var late := states[n].server.timeout > 0 && d > states[n].server.timeout;
            && (Step(states[n], events[n]).1 == Abrt <==> late)
            && (At(states[n + 1], id).fate == Aborted <==> late)
  {
    hide Inv, Step, Enabled, Pending, Clock, At;
    RunKeeps(states, events, n);
    RunStep(states, events, n);
    WaitsSince(states, events, m, n, id);
    PollOutcome(states[n], events[n], d);
  }

  /** A client takes itself for connected exactly while it has its pcb. */
  predicate KnowsItself(s: Sys, id: Id) { id in s.clients ==> (s.clients[id].connected <==> s.clients[id].attached) }

  lemma KnowsByServer(s: Sys, e: Event, id: Id)
    requires Enabled(s, e) && KnowsItself(s, id)
    requires e.NewConnection? || e.BeginCall? || e.CloseCall? || e.AcceptCall?
    ensures KnowsItself(Step(s, e).0, id)
  {
    hide Hook, CloseConn, AbortConn, Unhook, Attach;
  }

  lemma KnowsByNet(s: Sys, e: Event, id: Id)
    requires Enabled(s, e) && KnowsItself(s, id) && (e.Arrive? || e.Deliver? || e.Fin? || e.Poll? || e.Reset?)
    ensures KnowsItself(Step(s, e).0, id)
  {
    hide CloseConn, AbortConn, Unhook, Unclaim, DisconnectConn, Window;
  }

  lemma KnowsByClient(s: Sys, e: Event, id: Id)
    requires Enabled(s, e) && KnowsItself(s, id)
    requires e.ReadCall? || e.FlushCall? || e.DisconnectCall? || e.CloseClientCall? || e.TlsCloseCall?
    ensures KnowsItself(Step(s, e).0, id)
  {
    hide CloseConn, Unclaim, DisconnectConn, Credit;
  }

  /** In every state of every run, a client says that it is connected if and only if it has its pcb, which is then open. */
  lemma {:induction false} ConnectedExactly(states: seq<Sys>, events: seq<Event>, n: nat, id: Id)
    requires Run(states, events) && n < |states| && id in states[n].clients
    ensures states[n].clients[id].connected <==> states[n].clients[id].attached
    ensures states[n].clients[id].connected ==> Live(states[n], id)
  {
    KnowsRun(states, events, n, id);
    RunKeeps(states, events, n);
    hide Inv, Run;
    Facts(states[n], id);
  }

  lemma {:induction false} KnowsRun(states: seq<Sys>, events: seq<Event>, n: nat, id: Id)
    requires Run(states, events) && n < |states|
    ensures KnowsItself(states[n], id)
  {
    if n > 0 {
      hide Step, Enabled, KnowsItself;
      KnowsRun(states, events, n - 1, id);
      RunStep(states, events, n - 1);
      var s, e := states[n - 1], events[n - 1];
      if e.NewConnection? || e.BeginCall? || e.CloseCall? || e.AcceptCall? {
        KnowsByServer(s, e, id);
      } else if e.Arrive? || e.Deliver? || e.Fin? || e.Poll? || e.Reset? {
        KnowsByNet(s, e, id);
      } else {
        KnowsByClient(s, e, id);
      }
    }
  }

  /** After `close` lwIP brings no connection any more, until `begin` has come up; a start clears the slot. */
  lemma ListensExactly(s: Sys, e: Event)
    requires Enabled(s, e) && (e.BeginCall? || e.CloseCall?)
    ensures var sv := Step(s, e).0.server;
            sv.slot == None && !sv.hasClient && (sv.listening <==> e.BeginCall? && e.up)
  {
    hide CloseConn, Unhook;
  }

  predicate IsCallback(e: Event) { e.NewConnection? || e.Deliver? || e.Fin? || e.Poll? }

  /** lwIP's rule: a callback replies `Abrt` exactly when it aborted the pcb it was called for. */
  predicate HonoursAbortRule(s: Sys, e: Event)
    requires Enabled(s, e) && IsCallback(e)
  {
    var (s', r) := Step(s, e);
    r == Abrt <==> At(s', e.id).fate == Aborted
  }

  /** Every callback keeps the rule but one: a FIN for a plain client whose close then fails. */
  lemma AbortRule(states: seq<Sys>, events: seq<Event>, n: nat)
    requires Run(states, events) && n < |events| && IsCallback(events[n])
    ensures HonoursAbortRule(states[n], events[n]) <==>
            !(events[n].Fin? && !events[n].closeOk && PlainClient(states[n], events[n].id)
              && states[n].clients[events[n].id].attached)
  {
    hide Inv, Step, Enabled, HonoursAbortRule;
    var s, e := states[n], events[n];
    RunKeeps(states, events, n);
    RunStep(states, events, n);
    if e.NewConnection? {
      AbortRuleNew(s, e);
    } else if e.Fin? {
      AbortRuleFin(s, e);
    } else {
      AbortRuleOther(s, e);
    }
  }

  lemma AbortRuleNew(s: Sys, e: Event)
    requires Inv(s) && Enabled(s, e) && e.NewConnection?
    ensures HonoursAbortRule(s, e)
  {
    hide Inv, ConnOk;
    NewHasNoClient(s, e.id);
  }

  lemma AbortRuleFin(s: Sys, e: Event)
    requires Inv(s) && Enabled(s, e) && e.Fin?
    ensures HonoursAbortRule(s, e) <==> !(!e.closeOk && PlainClient(s, e.id) && s.clients[e.id].attached)
  {
    hide Inv, FlowOk, BufferOk;
    Facts(s, e.id);
  }

  lemma AbortRuleOther(s: Sys, e: Event)
    requires Inv(s) && Enabled(s, e) && (e.Deliver? || e.Poll?)
    ensures HonoursAbortRule(s, e)
  {
    hide Inv, FlowOk, BufferOk;
    Facts(s, e.id);
  }

  /** A connection that a plain client has accepted, with what has arrived on it. */
  function Accepted(arrived: bytes): Sys {
    var c := Conn(ClientArg, ClientRecv, ClientErr, NoPoll, Open, false, false, arrived, 0, 0);
    Sys(Server(None, false, 0, 30000, true), map[7 := c], map[7 := NewClient(false)], 2048)
  }

  /** A run to a connection that a plain client holds, and what can go wrong there. */
  lemma AcceptedRun() returns (states: seq<Sys>, events: seq<Event>)
    ensures Run(states, events) && |states| == 4 == |events| + 1 && states[3] == Accepted([])
    ensures Enabled(states[3], Fin(7, false)) && !HonoursAbortRule(states[3], Fin(7, false))
    ensures Enabled(states[3], Reset(7, true)) && UsesFreed(states[3], Reset(7, true), 7)
  {
    var s0 := Sys(Server(None, false, 0, 30000, false), map[], map[], 2048);
    events := [BeginCall(true, true), NewConnection(7, 0), AcceptCall(Plain)];
    var s1 := s0.(server := s0.server.(listening := true));
    assert Step(s0, events[0]).0 == s1;
    var c := Conn(ServerArg, PendingRecv, PendingErr, PendingPoll, Open, false, false, [], 0, 0);
    var s2 := Sys(Server(Some(7), true, 0, 30000, true), map[7 := c], map[], 2048);
    assert Step(s1, events[1]).0 == s2;
    var s3 := Accepted([]);
    assert Step(s2, events[2]).0 == s3;
    states := [s0, s1, s2, s3];
    BreaksRule(s3);
    assert Enabled(s0, events[0]) && Enabled(s1, events[1]) && Enabled(s2, events[2]);
    hide Step, Enabled;
  }

  lemma BreaksRule(s: Sys)
    requires Live(s, 7) && PlainClient(s, 7) && s.clients[7].attached
    requires s.conns[7].recv == ClientRecv && s.conns[7].arg == ClientArg
    ensures Enabled(s, Fin(7, false)) && !HonoursAbortRule(s, Fin(7, false)) && Enabled(s, Reset(7, true))
  {
  }

  lemma RunMore(states: seq<Sys>, events: seq<Event>, e: Event)
    requires Run(states, events) && Enabled(states[|events|], e)
    ensures Run(states + [Step(states[|events|], e).0], events + [e])
  {
    hide Step, Enabled;
    var states', events' := states + [Step(states[|events|], e).0], events + [e];
    forall i | 0 <= i < |events'| ensures Enabled(states'[i], events'[i]) && states'[i + 1] == Step(states'[i], events'[i]).0 {
      if i < |events| {
        RunStep(states, events, i);
      }
    }
  }

  /** A byte arrives that the client has no memory for, and the FIN comes: the client never sees the byte. */
  lemma FinAfterRefusal() returns (states: seq<Sys>, events: seq<Event>)
    ensures Run(states, events) && |states| == 7 && events[4] == Deliver(7, 1, false) && events[5] == Fin(7, true)
    ensures PlainClient(states[6], 7) && !states[6].clients[7].attached
    ensures states[6].conns[7].arrived == [1] && states[6].clients[7].out + states[6].clients[7].rx == []
  {
    states, events := AcceptedRun();
    hide *;
    ByteRefused();
    RunMore(states, events, Arrive(7, [1]));
    states, events := states + [Accepted([1])], events + [Arrive(7, [1])];
    RunMore(states, events, Deliver(7, 1, false));
    states, events := states + [Accepted([1])], events + [Deliver(7, 1, false)];
    RunMore(states, events, Fin(7, true));
    states, events := states + [Step(Accepted([1]), Fin(7, true)).0], events + [Fin(7, true)];
  }

  lemma ByteRefused()
    ensures Enabled(Accepted([]), Arrive(7, [1])) && Step(Accepted([]), Arrive(7, [1])).0 == Accepted([1])
    ensures Enabled(Accepted([1]), Deliver(7, 1, false)) && Step(Accepted([1]), Deliver(7, 1, false)).0 == Accepted([1])
    ensures Enabled(Accepted([1]), Fin(7, true))
    ensures var s := Step(Accepted([1]), Fin(7, true)).0;
      && PlainClient(s, 7) && !s.clients[7].attached && 7 in s.conns
      && s.conns[7].arrived == [1] && s.clients[7].out + s.clients[7].rx == []
  {
    var s, s', data: bytes := Accepted([]), Accepted([1]), [1];
    assert [] + data == data;
    assert s.conns[7 := s'.conns[7]] == s'.conns;
  }
}
