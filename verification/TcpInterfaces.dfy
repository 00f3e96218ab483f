/**
 The esp8266 server and client classes as objects that call lwIP. Each method says what it does to
 its object and to lwIP's pcbs; `TcpNetwork` puts the objects together.
 */
module TcpInterfaces {
  import opened Pattern
  import opened TcpSystem
  import opened Words

  /** lwIP's pcbs. */
  class Lwip {
    var conns: map<Id, Conn>
    const wnd: nat

    constructor (window: nat)
      ensures conns == map[] && wnd == window
    {
      conns, wnd := map[], window;
    }

    function Get(id: Id): Conn
      reads this
    {
      if id in conns then conns[id] else FreshConn().(fate := Freed)
    }

    method TcpArg(id: Id, a: Arg)
      modifies this
      ensures conns == old(conns)[id := Hook(old(Get(id)), a, old(Get(id)).recv, old(Get(id)).err, old(Get(id)).poll)]
    {
      var c := Get(id);
      conns := conns[id := if c.fate == Open then c.(arg := a) else c.(misused := true)];
    }

    method TcpRecv(id: Id, r: RecvFn)
      modifies this
      ensures conns == old(conns)[id := Hook(old(Get(id)), old(Get(id)).arg, r, old(Get(id)).err, old(Get(id)).poll)]
    {
      var c := Get(id);
      conns := conns[id := if c.fate == Open then c.(recv := r) else c.(misused := true)];
    }

    method TcpErr(id: Id, e: ErrFn)
      modifies this
      ensures conns == old(conns)[id := Hook(old(Get(id)), old(Get(id)).arg, old(Get(id)).recv, e, old(Get(id)).poll)]
    {
      var c := Get(id);
      conns := conns[id := if c.fate == Open then c.(err := e) else c.(misused := true)];
    }

    method TcpPoll(id: Id, p: PollFn)
      modifies this
      ensures conns == old(conns)[id := Hook(old(Get(id)), old(Get(id)).arg, old(Get(id)).recv, old(Get(id)).err, p)]
    {
      var c := Get(id);
      conns := conns[id := if c.fate == Open then c.(poll := p) else c.(misused := true)];
    }

    /** `ok` is whether lwIP can send the FIN. */
    method TcpClose(id: Id, ok: bool) returns (closed: bool)
      modifies this
      ensures closed == ok && conns == old(conns)[id := CloseConn(old(Get(id)), ok)]
    {
      var c := Get(id);
      conns := conns[id := if c.fate != Open then c.(misused := true)
                           else if ok then c.(fate := Closed) else c.(closeFailed := true)];
      closed := ok;
    }

    method TcpAbort(id: Id)
      modifies this
      ensures conns == old(conns)[id := AbortConn(old(Get(id)))]
    {
      var c := Get(id);
      conns := conns[id := if c.fate == Open && c.err == NoErr then c.(fate := Aborted) else c.(misused := true)];
    }

    method TcpRecved(id: Id, n: nat)
      modifies this
      ensures conns == old(conns)[id := Credit(old(Get(id)), n, wnd)]
    {
      conns := conns[id := Credit(Get(id), n, wnd)];
    }

    /** All callbacks of a pcb cleared, one by one. */
    method ClearCallbacks(id: Id)
      modifies this
      ensures conns == old(conns)[id := Unhook(old(Get(id)))]
    {
      TcpArg(id, NoArg);
      TcpRecv(id, NoRecv);
      TcpErr(id, NoErr);
      TcpPoll(id, NoPoll);
    }

    method ClearAndClose(id: Id, ok: bool) returns (closed: bool)
      modifies this
      ensures closed == ok && conns == old(conns)[id := CloseConn(Unhook(old(Get(id))), ok)]
    {
      ClearCallbacks(id);
      closed := TcpClose(id, ok);
    }

    method ClearAndAbort(id: Id)
      modifies this
      ensures conns == old(conns)[id := AbortConn(Unhook(old(Get(id))))]
    {
      ClearCallbacks(id);
      TcpAbort(id);
    }

    /** The server's callbacks for a connection that waits. */
    method SetPendingCallbacks(id: Id)
      modifies this
      ensures conns == old(conns)[id := Hook(old(Get(id)), ServerArg, PendingRecv, PendingErr, PendingPoll)]
    {
      TcpArg(id, ServerArg);
      TcpErr(id, PendingErr);
      TcpRecv(id, PendingRecv);
      TcpPoll(id, PendingPoll);
    }

    /** A client's callbacks cleared. */
    method ClearClientCallbacks(id: Id)
      modifies this
      ensures conns == old(conns)[id := Unclaim(old(Get(id)))]
    {
      TcpArg(id, NoArg);
      TcpRecv(id, NoRecv);
      TcpErr(id, NoErr);
    }

    /** A close, and an abort when it fails. */
    method DisconnectPcb(id: Id, ok: bool)
      modifies this
      ensures conns == old(conns)[id := DisconnectConn(old(Get(id)), ok)]
    {
      ClearClientCallbacks(id);
      var closed := TcpClose(id, ok);
      if !closed {
        TcpAbort(id);
      }
    }
  }

  /** `TcpServerInterface`: the slot for the connection that waits to be accepted. */
  class TcpServer {
    const lwip: Lwip
    var clientPcb: Option<Id>
    var hasClient: bool
    var pendingSince: nat
    var timeout: nat
    var listening: bool

    constructor (stack: Lwip)
      ensures lwip == stack && State() == Server(None, false, 0, 30000, false)
    {
      lwip := stack;
      clientPcb, hasClient, pendingSince, timeout, listening := None, false, 0, 30000, false;
    }

    ghost function State(): Server
      reads this
    {
      Server(clientPcb, hasClient, pendingSince, timeout, listening)
    }

    /** The state of the server and of the pcbs, next to given clients. */
    ghost function View(clients: map<Id, Client>): Sys
      reads this, lwip
    {
      Sys(State(), lwip.conns, clients, lwip.wnd)
    }

    /** A newcomer takes the slot; the connection that waited there is aborted. */
    method OnAccept(id: Id, now: nat)
      modifies this, lwip
      ensures forall cs :: View(cs) == TcpSystem.OnAccept(old(View(cs)), id, now)
    {
      if clientPcb.Some? {
        var older := clientPcb.value;
        clientPcb, hasClient, pendingSince := None, false, 0;
        lwip.ClearAndAbort(older);
      }
      clientPcb, hasClient, pendingSince := Some(id), true, now;
      lwip.SetPendingCallbacks(id);
    }

    method OnPendingError(arg: Arg)
      modifies this
      ensures State() == TcpSystem.OnPendingError(old(State()), arg)
    {
      if arg != ServerArg {
        return;
      }
      clientPcb, hasClient, pendingSince := None, false, 0;
    }

    method OnPendingRecv(arg: Arg, id: Id, fin: bool, closeOk: bool) returns (r: Reply)
      modifies this, lwip
      ensures forall cs :: (View(cs), r) == TcpSystem.OnPendingRecv(old(View(cs)), arg, id, fin, closeOk)
    {
      if arg != ServerArg {
        return BadArg;
      }
      if fin {
        if clientPcb == Some(id) {
          clientPcb, hasClient, pendingSince := None, false, 0;
        }
        var closed := lwip.ClearAndClose(id, closeOk);
        return Ok;
      }
      return Mem;
    }

    method OnPendingPoll(arg: Arg, id: Id, now: nat) returns (r: Reply)
      modifies this, lwip
      ensures forall cs :: (View(cs), r) == TcpSystem.OnPendingPoll(old(View(cs)), arg, id, now)
    {
      if arg != ServerArg {
        return Abrt;
      }
      if clientPcb == Some(id) && timeout > 0 && ElapsedSince(now, pendingSince) > timeout {
        clientPcb, hasClient, pendingSince := None, false, 0;
        lwip.ClearAndAbort(id);
        return Abrt;
      }
      return Ok;
    }

    method Close(closeOk: bool)
      modifies this, lwip
      ensures forall cs :: View(cs) == ServerClose(old(View(cs)), closeOk)
    {
      if clientPcb.Some? {
        var closed := lwip.ClearAndClose(clientPcb.value, closeOk);
        clientPcb := None;
      }
      listening := false;
      hasClient := false;
    }

    /** `up` is whether creating, binding and listening succeed. */
    method Begin(closeOk: bool, up: bool) returns (ok: bool)
      modifies this, lwip
      ensures ok == up && forall cs :: View(cs) == TcpSystem.Begin(old(View(cs)), closeOk, up)
    {
      Close(closeOk);
      if !up {
        return false;
      }
      listening, hasClient, clientPcb := true, false, None;
      return true;
    }

    /** The waiting connection is handed to a new client. */
    method Accept() returns (client: TcpClient?)
      modifies this, lwip
      ensures client == null <==> !(old(hasClient) && old(clientPcb).Some?)
      ensures client == null ==> State() == old(State()) && lwip.conns == old(lwip.conns)
      ensures client != null ==>
                && fresh(client) && client.lwip == lwip && Some(client.id) == old(clientPcb)
                && client.Valid() && client.State() == NewClient(false) && State() == ClearSlot(old(State()))
                && lwip.conns == old(lwip.conns)[client.id := Attach(Unhook(old(lwip.Get(clientPcb.value))))]
    {
      if !(hasClient && clientPcb.Some?) {
        return null;
      }
      var id := clientPcb.value;
      clientPcb, hasClient, pendingSince := None, false, 0;
      lwip.ClearCallbacks(id);
      client := new TcpClient(lwip, id);
    }
  }

  /** `TlsServerInterface`: the same slot, with an accept that can fail after taking the connection. */
  class TlsServer {
    const slot: TcpServer

    constructor (s: TcpServer)
      ensures slot == s
    {
      slot := s;
    }

    /** `memory` is whether the client can be allocated, `setupOk` whether its certificates and engine can be set up. */
    method Accept(memory: bool, setupOk: bool, closeOk: bool) returns (client: TlsClient?)
      modifies slot, slot.lwip
      ensures client != null <==> old(slot.hasClient) && old(slot.clientPcb).Some? && memory && setupOk
      ensures client == null ==>
                var how := if !memory then TlsNoMemory else TlsSetupFails(closeOk);
                forall cs :: slot.View(cs) == TcpSystem.Accept(old(slot.View(cs)), how)
      ensures client != null ==>
                && fresh(client) && client.lwip == slot.lwip && Some(client.id) == old(slot.clientPcb)
                && client.Valid() && client.State() == NewClient(true) && slot.State() == ClearSlot(old(slot.State()))
                && slot.lwip.conns == old(slot.lwip.conns)[client.id := Attach(Unhook(old(slot.lwip.Get(slot.clientPcb.value))))]
    {
      if !(slot.hasClient && slot.clientPcb.Some?) {
        return null;
      }
      var id := slot.clientPcb.value;
      slot.clientPcb, slot.hasClient, slot.pendingSince := None, false, 0;
      slot.lwip.ClearCallbacks(id);
      if !memory {
        slot.lwip.TcpAbort(id);
        assert slot.lwip.conns == old(slot.lwip.conns)[id := AbortConn(Unhook(old(slot.lwip.Get(id))))];
        return null;
      }
      var c := new TlsClient(slot.lwip, id);
      assert slot.lwip.conns == old(slot.lwip.conns)[id := Attach(Unhook(old(slot.lwip.Get(id))))];
      if !setupOk {
        c.Close(closeOk);
        assert slot.lwip.conns == old(slot.lwip.conns)[id := CloseConn(Unclaim(Attach(Unhook(old(slot.lwip.Get(id))))), closeOk)];
        return null;
      }
      return c;
    }
  }

  /** `TlsClientInterface` on a connection that was handed over, as far as the pcb and the bytes it took go. */
  class TlsClient {
    const lwip: Lwip
    ghost const id: Id
    var pcb: Option<Id>
    var isConnected: bool
    // every byte it took from lwIP
    ghost var received: bytes

    constructor (stack: Lwip, handed: Id)
      modifies stack
      ensures lwip == stack && id == handed && pcb == Some(handed) && State() == NewClient(true)
      ensures stack.conns == old(stack.conns)[handed := Attach(old(stack.Get(handed)))]
    {
      lwip, id, pcb, isConnected, received := stack, handed, Some(handed), true, [];
      new;
      lwip.TcpArg(handed, ClientArg);
      lwip.TcpErr(handed, ClientErr);
      lwip.TcpRecv(handed, ClientRecv);
    }

    ghost predicate Valid()
      reads this
    {
      pcb.Some? ==> pcb.value == id
    }

    ghost function State(): Client
      reads this
    {
      Client(true, pcb.Some?, isConnected, received, [], |received|, false)
    }

    /** The outcome of the close is not looked at. */
    method Close(closeOk: bool)
      requires Valid()
      modifies this, lwip
      ensures Valid() && pcb == None && State() == Released(old(State()))
      ensures lwip.conns == if old(pcb).None? then old(lwip.conns)
                            else old(lwip.conns)[id := CloseConn(Unclaim(old(lwip.Get(id))), closeOk)]
    {
      if pcb.Some? {
        lwip.ClearClientCallbacks(pcb.value);
        var closed := lwip.TcpClose(pcb.value, closeOk);
        pcb := None;
      }
      isConnected := false;
    }

    /** `room` is whether the queue takes the segment. */
    method OnReceive(p: bytes, room: bool) returns (r: Reply)
      requires Valid()
      modifies this
      ensures Valid() && (State(), r) == TcpSystem.OnReceive(old(State()), p, room)
    {
      if !room {
        return Mem;
      }
      received := received + p;
      return Ok;
    }

    method OnError()
      requires Valid()
      modifies this
      ensures Valid() && State() == Released(old(State()))
    {
      pcb := None;
      isConnected := false;
    }
  }

  /** `TcpClientInterface` on a connection that was handed over; `id` is that connection's pcb. */
  class TcpClient {
    const lwip: Lwip
    ghost const id: Id
    var pcb: Option<Id>
    var isConnected: bool
    var rxBuffer: bytes
    // what its reads have returned, how much it took from lwIP and whether it dropped buffered bytes
    ghost var out: bytes
    ghost var taken: nat
    ghost var flushed: bool

    constructor (stack: Lwip, handed: Id)
      modifies stack
      ensures lwip == stack && id == handed && pcb == Some(handed) && State() == NewClient(false)
      ensures stack.conns == old(stack.conns)[handed := Attach(old(stack.Get(handed)))]
    {
      lwip, id, pcb, isConnected, rxBuffer := stack, handed, Some(handed), true, [];
      out, taken, flushed := [], 0, false;
      new;
      lwip.TcpArg(handed, ClientArg);
      lwip.TcpErr(handed, ClientErr);
      lwip.TcpRecv(handed, ClientRecv);
    }

    ghost predicate Valid()
      reads this
    {
      pcb.Some? ==> pcb.value == id
    }

    ghost function State(): Client
      reads this
    {
      Client(false, pcb.Some?, isConnected, rxBuffer, out, taken, flushed)
    }

    method Disconnect(closeOk: bool)
      requires Valid()
      modifies this, lwip
      ensures Valid() && State() == Released(old(State()))
      ensures lwip.conns == if old(pcb).None? then old(lwip.conns)
                            else old(lwip.conns)[id := DisconnectConn(old(lwip.Get(id)), closeOk)]
    {
      if pcb.Some? {
        lwip.DisconnectPcb(pcb.value, closeOk);
        pcb := None;
      }
      isConnected := false;
    }

    method Flush()
      requires Valid()
      modifies this, lwip
      ensures Valid() && State() == Drop(old(State()))
      ensures lwip.conns == if old(pcb).None? || old(rxBuffer) == [] then old(lwip.conns)
                            else old(lwip.conns)[id := Credit(old(lwip.Get(id)), |old(rxBuffer)|, lwip.wnd)]
    {
      if |rxBuffer| > 0 {
        if pcb.Some? {
          lwip.TcpRecved(pcb.value, |rxBuffer|);
        }
        rxBuffer, flushed := [], true;
      }
    }

    /** The pcb is gone before the buffer is dropped, so nothing is credited. */
    method Close(closeOk: bool)
      requires Valid()
      modifies this, lwip
      ensures Valid() && State() == Drop(Released(old(State())))
      ensures lwip.conns == if old(pcb).None? then old(lwip.conns)
                            else old(lwip.conns)[id := DisconnectConn(old(lwip.Get(id)), closeOk)]
    {
      Disconnect(closeOk);
      Flush();
    }

    /** The first `size` bytes of `buffer` are overwritten: with buffered bytes, then with zeros. */
    method Read(buffer: array<byte>, size: nat) returns (n: int)
      requires Valid() && size <= buffer.Length
      modifies this, lwip, buffer
      ensures Valid() && State() == AfterRead(old(State()), size)
      ensures lwip.conns == if old(pcb).None? || old(rxBuffer) == [] then old(lwip.conns)
                            else old(lwip.conns)[id := Credit(old(lwip.Get(id)), Min(size, |old(rxBuffer)|), lwip.wnd)]
      ensures if old(rxBuffer) == [] then n == -99 && buffer[..] == old(buffer[..])
              else n == Min(size, |old(rxBuffer)|) && buffer[..n] == old(rxBuffer)[..n]
                   && buffer[size..] == old(buffer[size..]) && forall i :: n <= i < size ==> buffer[i] == 0
    {
      if |rxBuffer| == 0 {
        return -99;
      }
      n := Min(size, |rxBuffer|);
      forall i | 0 <= i < size {
        buffer[i] := if i < n then rxBuffer[i] else 0;
      }
      out := out + rxBuffer[..n];
      rxBuffer := rxBuffer[n..];
      if pcb.Some? {
        lwip.TcpRecved(pcb.value, n);
      }
    }

    /** `memory` is whether the larger buffer can be allocated. */
    method OnReceive(p: bytes, memory: bool) returns (r: Reply)
      requires Valid()
      modifies this
      ensures Valid() && (State(), r) == TcpSystem.OnReceive(old(State()), p, memory)
    {
      if !memory {
        return Mem;
      }
      rxBuffer, taken := rxBuffer + p, taken + |p|;
      return Ok;
    }

    /** A null buffer without an error. */
    method OnFin(closeOk: bool) returns (r: Reply)
      requires Valid()
      modifies this, lwip
      ensures Valid() && r == Ok && State() == Released(old(State()))
      ensures lwip.conns == if old(pcb).None? then old(lwip.conns)
                            else old(lwip.conns)[id := DisconnectConn(old(lwip.Get(id)), closeOk)]
    {
      Disconnect(closeOk);
      return Ok;
    }

    /** The pcb's callbacks are cleared, which is wrong when lwIP has freed it already. */
    method OnError()
      requires Valid()
      modifies this, lwip
      ensures Valid() && State() == if old(pcb).None? then Released(old(State())) else Drop(Released(old(State())))
      ensures lwip.conns == if old(pcb).None? then old(lwip.conns) else old(lwip.conns)[id := Unclaim(old(lwip.Get(id)))]
    {
      if pcb.Some? {
        lwip.ClearClientCallbacks(pcb.value);
        pcb := None;
        flushed := flushed || rxBuffer != [];
        rxBuffer := [];
      }
      isConnected := false;
    }
  }
}
