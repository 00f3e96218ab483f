/**
 The server, the clients it handed connections to and lwIP, taken together. Every call of the
 application and every callback of lwIP goes to the object it is meant for and takes exactly the step
 of the transition system, so the system's invariant holds of the objects whatever is called, in
 whatever order: each pcb has one owner, and what a client has read and buffered is a beginning of
 what its peer sent.
 */
module TcpNetwork {
  import opened Pattern
  import opened TcpInterfaces
  import opened TcpSystem
  import opened Words

  class Network {
    const lwip: Lwip
    const server: TcpServer
    const tlsServer: TlsServer
    // the state of every client that was handed a connection
    ghost var clients: map<Id, Client>

    constructor (wnd: nat)
      requires wnd <= 0xFFFF
      ensures Valid() && Initial(View())
    {
      var stack := new Lwip(wnd);
      var slot := new TcpServer(stack);
      var tls := new TlsServer(slot);
      lwip, server, tlsServer, clients := stack, slot, tls, map[];
    }

    ghost function View(): Sys
      reads this, lwip, server
    {
      Sys(server.State(), lwip.conns, clients, lwip.wnd)
    }

    ghost predicate Valid()
      reads this, lwip, server
    {
      server.lwip == lwip && tlsServer.slot == server && Inv(View())
    }

    /** A client object of this network: its state is the one on record. */
    ghost predicate Tracks(c: TcpClient)
      reads this, c
    {
      c.lwip == lwip && c.Valid() && c.id in clients && clients[c.id] == c.State()
    }

    ghost predicate TracksTls(c: TlsClient)
      reads this, c
    {
      c.lwip == lwip && c.Valid() && c.id in clients && clients[c.id] == c.State()
    }

    /** Ownership, on the objects: each pcb waits, is held by a client, has been let go or is stray, and only one of these. */
    lemma OwnedByOne(id: Id)
      requires Valid() && id in lwip.conns
      ensures exists o :: Owns(View(), id, o) && forall o' :: Owns(View(), id, o') ==> o' == o
      ensures server.clientPcb == Some(id) ==> lwip.conns[id].fate == Open && lwip.conns[id].arg == ServerArg
      ensures server.hasClient <==> server.clientPcb.Some?
    {
      OwnedOnce(View(), id);
      if Pending(View(), id) {
        Facts(View(), id);
      }
      hide Inv;
    }

    /** The stream, on the objects: what a client read and buffers is a beginning of what arrived, and credit is conserved. */
    lemma InOrder(c: TcpClient)
      requires Valid() && Tracks(c)
      ensures c.id in lwip.conns && (!c.flushed ==> c.out + c.rxBuffer <= lwip.conns[c.id].arrived)
      ensures c.pcb.Some? ==> lwip.conns[c.id].fate == Open && lwip.conns[c.id].credited + |c.rxBuffer| == lwip.conns[c.id].delivered
    {
      Facts(View(), c.id);
      hide Inv;
    }

    /** A step about something else leaves a client object of this network one. */
    twostate lemma StillTracked(c: TcpClient, e: Event)
      requires old(Valid()) && old(Tracks(c)) && unchanged(c)
      requires Took(old(View()), e, View()) && !Concerns(e, c.id)
      ensures Tracks(c)
    {
      OtherClients(old(View()), e, c.id);
    }

    /** The client object that a pcb's callbacks lead to, of one kind or the other. */
    ghost predicate Target(id: Id, c: TcpClient?, t: TlsClient?)
      reads this, lwip, server, c, t
    {
      && (c != null ==> Tracks(c) && c.id == id)
      && (t != null ==> TracksTls(t) && t.id == id)
      && (Holds(ClientOf(View(), id)) ==> c != null || t != null)
    }

    /** The pcb was closed, or is stray because the close failed. */
    ghost predicate LetGoBy(id: Id, closeOk: bool)
      reads this, lwip, server
    {
      if closeOk then lwip.Get(id).fate == Closed else IsStray(View(), id)
    }

    // ---- calls of the application

    method Flush(c: TcpClient)
      requires Valid() && Tracks(c)
      modifies this, lwip, c
      ensures Valid() && Tracks(c) && Took(old(View()), FlushCall(c.id), View())
    {
      hide Inv, Took, Credit, Drop;
      FlushParts(View(), c.id);
      c.Flush();
      clients := clients[c.id := c.State()];
    }

    method Disconnect(c: TcpClient, closeOk: bool)
      requires Valid() && Tracks(c)
      modifies this, lwip, c
      ensures Valid() && Tracks(c) && Took(old(View()), DisconnectCall(c.id, closeOk), View())
    {
      hide Inv, Took, Released, DisconnectConn;
      DisconnectParts(View(), c.id, closeOk);
      c.Disconnect(closeOk);
      clients := clients[c.id := c.State()];
    }

    /** A closed client holds no pcb and no bytes, and the bytes it drops are not credited. */
    method CloseClient(c: TcpClient, closeOk: bool)
      requires Valid() && Tracks(c)
      modifies this, lwip, c
      ensures Valid() && Tracks(c) && Took(old(View()), CloseClientCall(c.id, closeOk), View())
      ensures c.pcb == None && c.rxBuffer == [] && c.out == old(c.out) && (c.flushed <==> old(c.flushed) || old(c.rxBuffer) != [])
      ensures c.id in lwip.conns && lwip.conns[c.id].credited == old(lwip.Get(c.id)).credited
      ensures old(c.pcb).Some? ==> lwip.conns[c.id].fate == if closeOk then Closed else Aborted
    {
      hide Inv, Took, DisconnectConn;
      DisconnectFate(View(), c.id, closeOk);
      CloseParts(View(), c.id, closeOk);
      c.Close(closeOk);
      clients := clients[c.id := c.State()];
    }

    /** What a read returns comes next in the peer's stream. */
    method Read(c: TcpClient, buffer: array<byte>, size: nat) returns (n: int)
      requires Valid() && Tracks(c) && size <= buffer.Length
      modifies this, lwip, c, buffer
      ensures Valid() && Tracks(c) && Took(old(View()), ReadCall(c.id, size), View())
      ensures if old(c.rxBuffer) == [] then n == -99 && c.out == old(c.out)
              else n == Min(size, |old(c.rxBuffer)|) && c.out == old(c.out) + buffer[..n]
      ensures c.id in lwip.conns && (!c.flushed ==> c.out + c.rxBuffer <= lwip.conns[c.id].arrived)
    {
      hide Inv, Took, Credit;
      ReadParts(View(), c.id, size);
      n := c.Read(buffer, size);
      clients := clients[c.id := c.State()];
      Stream(View(), c.id);
    }

    /** The pcb that a TLS client gives up is gone, or stray when its close fails. */
    method CloseTls(c: TlsClient, closeOk: bool)
      requires Valid() && TracksTls(c)
      modifies this, lwip, c
      ensures Valid() && TracksTls(c) && Took(old(View()), TlsCloseCall(c.id, closeOk), View())
      ensures c.pcb == None && c.id in lwip.conns
      ensures old(c.pcb).Some? ==> if closeOk then lwip.conns[c.id].fate == Closed else IsStray(View(), c.id)
    {
      hide Inv, Took, Released, CloseConn, Unclaim;
      TlsCloseParts(View(), c.id, closeOk);
      TlsGivesUp(View(), c.id, closeOk);
      c.Close(closeOk);
      clients := clients[c.id := c.State()];
    }

    /** The server stops listening and lets the pcb go that waited, if its close works. */
    method CloseServer(closeOk: bool)
      requires Valid()
      modifies lwip, server
      ensures Valid() && Took(old(View()), CloseCall(closeOk), View())
      ensures !server.listening && server.clientPcb == None
      ensures forall id :: old(server.clientPcb) == Some(id) ==> LetGoBy(id, closeOk)
    {
      WaitingCloses(View(), closeOk);
      hide Inv, Took, ServerClose;
      CloseServerParts(View(), closeOk);
      server.Close(closeOk);
      assert View() == server.View(clients);
    }

    /** Starting again closes first; then the server listens if it came up. */
    method Begin(closeOk: bool, up: bool) returns (ok: bool)
      requires Valid()
      modifies lwip, server
      ensures ok == up && Valid() && Took(old(View()), BeginCall(closeOk, up), View())
      ensures (server.listening <==> up) && server.clientPcb == None
      ensures forall id :: old(server.clientPcb) == Some(id) ==> LetGoBy(id, closeOk)
    {
      WaitingCloses(View(), closeOk);
      hide Inv, Took, TcpSystem.Begin;
      BeginParts(View(), closeOk, up);
      ok := server.Begin(closeOk, up);
      assert View() == server.View(clients);
    }

    /** The waiting connection goes to a plain client. */
    method Accept() returns (client: TcpClient?)
      requires Valid()
      modifies this, lwip, server
      ensures Valid() && Took(old(View()), AcceptCall(Plain), View())
      ensures client != null ==> Tracks(client) && old(server.clientPcb) == Some(client.id)
      ensures client == null <==> old(server.clientPcb).None?
    {
      hide Inv, Took, Attach, Unhook, NewClient;
      AcceptParts(View());
      client := server.Accept();
      if client != null {
        clients := clients[client.id := client.State()];
      }
    }

    /** The waiting connection goes to a TLS client, or is let go of when there can be none. */
    method AcceptTls(memory: bool, setupOk: bool, closeOk: bool) returns (client: TlsClient?)
      requires Valid()
      modifies this, lwip, server
      ensures Valid() && Took(old(View()), AcceptCall(Outcome(memory, setupOk, closeOk)), View())
      ensures client != null ==> TracksTls(client) && old(server.clientPcb) == Some(client.id)
      ensures client == null <==> old(server.clientPcb).None? || !memory || !setupOk
      ensures server.clientPcb == None
      ensures forall id :: old(server.clientPcb) == Some(id) && !memory ==> lwip.Get(id).fate == Aborted
      ensures forall id :: old(server.clientPcb) == Some(id) && memory && !setupOk ==> LetGoBy(id, closeOk)
    {
      hide Inv, Took, Attach, Unhook, NewClient, AbortConn, CloseConn, Unclaim;
      AcceptFails(View(), closeOk);
      AcceptTlsParts(View(), memory, setupOk, closeOk);
      client := tlsServer.Accept(memory, setupOk, closeOk);
      if client != null {
        clients := clients[client.id := client.State()];
      } else {
        assert View() == server.View(clients);
      }
    }

    // ---- what lwIP does

    /** The newcomer waits; whoever waited before it is aborted. */
    method NewPcb(id: Id, now: nat)
      requires Valid() && server.listening && id !in lwip.conns
      modifies lwip, server
      ensures Valid() && Took(old(View()), NewConnection(id, now), View())
      ensures server.clientPcb == Some(id)
      ensures old(server.clientPcb).Some? ==> lwip.Get(old(server.clientPcb).value).fate == Aborted
    {
      hide Inv, Took, TcpSystem.OnAccept;
      NewParts(View(), id, now);
      lwip.conns := lwip.conns[id := FreshConn()];
      server.OnAccept(id, now);
      assert View() == server.View(clients);
    }

    method Arrived(id: Id, data: bytes)
      requires Valid() && Enabled(View(), Arrive(id, data))
      modifies lwip
      ensures Valid() && Took(old(View()), Arrive(id, data), View())
    {
      StepKeeps(View(), Arrive(id, data));
      hide Inv;
      var c := lwip.conns[id];
      lwip.conns := lwip.conns[id := c.(arrived := c.arrived + data)];
    }

    /** Data for a waiting connection is refused untouched; a client takes it whole or not at all, and in order. */
    method Deliver(id: Id, n: nat, memory: bool, c: TcpClient?, t: TlsClient?) returns (r: Reply)
      requires Valid() && Enabled(View(), TcpSystem.Deliver(id, n, memory)) && Target(id, c, t)
      modifies this, lwip, server, c, t
      ensures Valid() && (c != null ==> Tracks(c)) && (t != null ==> TracksTls(t))
      ensures Took(old(View()), TcpSystem.Deliver(id, n, memory), View())
      ensures old(server.clientPcb) == Some(id) ==> r == Mem && View() == old(View())
      ensures c != null && old(c.pcb).Some? ==>
                && (r == Ok <==> memory)
                && c.out + c.rxBuffer == old(c.out) + old(c.rxBuffer)
                   + if r == Ok then old(lwip.Get(id)).arrived[old(lwip.Get(id)).delivered..old(lwip.Get(id)).delivered + n] else []
    {
      hide Inv, Took;
      DeliverParts(View(), id, n, memory);
      var pcb := lwip.conns[id];
      if pcb.recv == PendingRecv {
        r := server.OnPendingRecv(pcb.arg, id, false, true);
        assert View() == server.View(clients);
      } else if pcb.recv == NoRecv {
        lwip.conns := lwip.conns[id := pcb.(delivered := pcb.delivered + n, credited := pcb.credited + n)];
        r := Ok;
      } else {
        var p := pcb.arrived[pcb.delivered..pcb.delivered + n];
        if c != null {
          assert c.out + (c.rxBuffer + p) == c.out + c.rxBuffer + p;
          r := c.OnReceive(p, memory);
          clients := if r == Ok then clients[id := c.State()] else clients;
        } else {
          r := t.OnReceive(p, memory);
          clients := if r == Ok then clients[id := t.State()] else clients;
        }
        if r == Ok {
          lwip.conns := lwip.conns[id := pcb.(delivered := pcb.delivered + n)];
        }
      }
    }

    /** A FIN ends a waiting connection; it ends a plain client's too, and leaves what the client has. */
    method Finish(id: Id, closeOk: bool, c: TcpClient?, t: TlsClient?) returns (r: Reply)
      requires Valid() && Enabled(View(), Fin(id, closeOk)) && Target(id, c, t)
      modifies this, lwip, server, c, t
      ensures Valid() && (c != null ==> Tracks(c)) && (t != null ==> TracksTls(t))
      ensures Took(old(View()), Fin(id, closeOk), View())
      ensures old(server.clientPcb) == Some(id) ==> r == Ok && server.clientPcb == None && LetGoBy(id, closeOk)
      ensures c != null && old(c.pcb).Some? ==>
                && r == Ok && c.pcb == None && c.out == old(c.out) && c.rxBuffer == old(c.rxBuffer)
                && lwip.Get(id).fate == if closeOk then Closed else Aborted
    {
      hide Inv, Took, DisconnectConn;
      if server.clientPcb == Some(id) {
        WaitingCloses(View(), closeOk);
      }
      if c != null {
        DisconnectFate(View(), id, closeOk);
      }
      FinParts(View(), id, closeOk);
      var pcb := lwip.conns[id];
      if pcb.recv == PendingRecv {
        r := server.OnPendingRecv(pcb.arg, id, true, closeOk);
        assert View() == server.View(clients);
      } else if pcb.recv == NoRecv {
        var closed := lwip.TcpClose(id, closeOk);
        r := Ok;
      } else if c != null {
        r := c.OnFin(closeOk);
        clients := clients[id := c.State()];
      } else {
        r := Ok;
      }
    }

    /** A waiting connection is aborted when it has waited too long, and its slot is free then. */
    method Polled(id: Id, now: nat) returns (r: Reply)
      requires Valid() && Enabled(View(), Poll(id, now))
      modifies lwip, server
      ensures Valid() && Took(old(View()), Poll(id, now), View())
      ensures old(server.clientPcb) == Some(id)
      ensures r == Abrt <==> server.clientPcb == None
      ensures r == Abrt <==> lwip.Get(id).fate == Aborted
      ensures forall d: nat :: d < 0x1_0000_0000 && now == Clock(old(server.pendingSince), d) ==>
                (r == Abrt <==> server.timeout > 0 && d > server.timeout)
    {
      hide Inv, Took, Clock, ElapsedSince;
      forall d: nat | d < 0x1_0000_0000 && now == Clock(server.pendingSince, d)
        ensures ElapsedSince(now, server.pendingSince) == d
      {
        ElapsedIs(server.pendingSince, d);
      }
      PollParts(View(), id, now);
      r := server.OnPendingPoll(lwip.conns[id].arg, id, now);
      assert View() == server.View(clients);
    }

    /**
     lwIP gives a pcb up and reports it. The slot is emptied exactly if that pcb waited there, and a client
     that held it has no pcb any more; a plain client has then used a freed pcb exactly if lwIP freed it first.
     */
    method Lost(id: Id, freedFirst: bool, c: TcpClient?, t: TlsClient?)
      requires Valid() && Enabled(View(), Reset(id, freedFirst)) && Target(id, c, t)
      modifies this, lwip, server, c, t
      ensures Valid() && (c != null ==> Tracks(c)) && (t != null ==> TracksTls(t))
      ensures Took(old(View()), Reset(id, freedFirst), View())
      ensures server.clientPcb == if old(server.clientPcb) == Some(id) then None else old(server.clientPcb)
      ensures c != null ==> c.pcb == None
      ensures t != null ==> t.pcb == None
      ensures lwip.Get(id).fate == Freed
      ensures lwip.Get(id).misused <==> freedFirst && c != null && old(c.pcb).Some?
    {
      hide Inv, Took, ResetStep;
      LostParts(View(), id, freedFirst);
      if lwip.conns[id].err == ClientErr {
        if c != null {
          LostByPlain(id, freedFirst, c);
        } else {
          LostByTls(id, freedFirst, t);
        }
      } else {
        LostUnheld(id, freedFirst);
      }
    }

    method LostByPlain(id: Id, freedFirst: bool, c: TcpClient)
      requires Valid() && Enabled(View(), Reset(id, freedFirst)) && Tracks(c) && c.id == id && c.pcb.Some?
      modifies this, lwip, c
      ensures Valid() && Tracks(c) && Took(old(View()), Reset(id, freedFirst), View())
      ensures c.pcb == None && lwip.Get(id).fate == Freed && (lwip.Get(id).misused <==> freedFirst)
    {
      hide Inv, Took, ResetStep;
      LostParts(View(), id, freedFirst);
      ClientReset(View(), id, freedFirst);
      var pcb := lwip.conns[id];
      if freedFirst {
        lwip.conns := lwip.conns[id := pcb.(fate := Freed)];
      }
      c.OnError();
      clients := clients[id := c.State()];
      lwip.conns := lwip.conns[id := lwip.Get(id).(fate := Freed)];
      assert lwip.conns == old(lwip.conns)[id := ResetConn(pcb, false, freedFirst)];
    }

    method LostByTls(id: Id, freedFirst: bool, t: TlsClient)
      requires Valid() && Enabled(View(), Reset(id, freedFirst)) && TracksTls(t) && t.id == id && t.pcb.Some?
      modifies this, lwip, t
      ensures Valid() && TracksTls(t) && Took(old(View()), Reset(id, freedFirst), View())
      ensures t.pcb == None && lwip.Get(id).fate == Freed && !lwip.Get(id).misused
    {
      hide Inv, Took, ResetStep;
      LostParts(View(), id, freedFirst);
      ClientReset(View(), id, freedFirst);
      t.OnError();
      clients := clients[id := t.State()];
      lwip.conns := lwip.conns[id := lwip.Get(id).(fate := Freed)];
    }

    /** A pcb that waits, or that nobody holds. */
    method LostUnheld(id: Id, freedFirst: bool)
      requires Valid() && Enabled(View(), Reset(id, freedFirst)) && !Holds(ClientOf(View(), id))
      modifies lwip, server
      ensures Valid() && Took(old(View()), Reset(id, freedFirst), View())
      ensures server.clientPcb == if old(server.clientPcb) == Some(id) then None else old(server.clientPcb)
      ensures lwip.Get(id).fate == Freed && !lwip.Get(id).misused
    {
      hide Inv, Took;
      LostParts(View(), id, freedFirst);
      var pcb := lwip.conns[id];
      if pcb.err == PendingErr {
        server.OnPendingError(pcb.arg);
      }
      lwip.conns := lwip.conns[id := pcb.(fate := Freed)];
      assert old(lwip.conns)[id := pcb.(fate := Freed)][id := pcb.(fate := Freed)] == lwip.conns;
    }
  }

  /** One step of the transition system. */
  predicate Took(s: Sys, e: Event, s': Sys) { Enabled(s, e) && s' == Step(s, e).0 }

  /** The step is about this connection. */
  predicate Concerns(e: Event, id: Id) {
    match e
    case BeginCall(_, _) => false
    case CloseCall(_) => false
    case AcceptCall(_) => false
    case _ => e.id == id
  }

  lemma OtherClients(s: Sys, e: Event, id: Id)
    requires Inv(s) && Enabled(s, e) && id in s.clients && !Concerns(e, id)
    ensures id in Step(s, e).0.clients && Step(s, e).0.clients[id] == s.clients[id]
  {
    hide Inv;
    NotPending(s, id);
  }

  lemma NotPending(s: Sys, id: Id)
    requires Inv(s) && id in s.clients
    ensures id in s.conns && !Pending(s, id)
  {
    Facts(s, id);
  }

  /** A step that changes one client, and its pcb when it is touched. */
  ghost predicate Parts(s: Sys, e: Event, id: Id, touched: bool, c: Conn, k: Client) {
    var s' := s.(conns := if touched then s.conns[id := c] else s.conns, clients := s.clients[id := k]);
    id in s.conns && Took(s, e, s') && Inv(s')
  }

  function Outcome(memory: bool, setupOk: bool, closeOk: bool): Acceptance {
    if !memory then TlsNoMemory else if setupOk then Tls else TlsSetupFails(closeOk)
  }

  /** A plain client's bytes are a beginning of what arrived, until some were dropped. */
  lemma Stream(s: Sys, id: Id)
    requires Inv(s) && PlainClient(s, id)
    ensures id in s.conns && (!s.clients[id].flushed ==> s.clients[id].out + s.clients[id].rx <= s.conns[id].arrived)
  {
    Facts(s, id);
  }

  lemma FlushParts(s: Sys, id: Id)
    requires Inv(s) && PlainClient(s, id)
    ensures var k := s.clients[id];
            Parts(s, FlushCall(id), id, k.attached && k.rx != [], Credit(At(s, id), |k.rx|, s.wnd), Drop(k))
  {
    hide Inv, ConnOk, Credit;
    KeptByFlush(s, id);
    Facts(s, id);
  }

  lemma DisconnectParts(s: Sys, id: Id, closeOk: bool)
    requires Inv(s) && PlainClient(s, id)
    ensures var k := s.clients[id];
            Parts(s, DisconnectCall(id, closeOk), id, k.attached, DisconnectConn(At(s, id), closeOk), Released(k))
  {
    hide Inv, ConnOk, DisconnectConn;
    KeptByDisconnect(s, id, closeOk);
    Facts(s, id);
  }

  lemma CloseParts(s: Sys, id: Id, closeOk: bool)
    requires Inv(s) && PlainClient(s, id)
    ensures var k := s.clients[id];
            Parts(s, CloseClientCall(id, closeOk), id, k.attached, DisconnectConn(At(s, id), closeOk), Drop(Released(k)))
    ensures var c' := DisconnectConn(At(s, id), closeOk);
            s.clients[id].attached ==> c'.fate != Open && c'.credited == At(s, id).credited
  {
    hide Inv, ConnOk, DisconnectConn;
    DisconnectParts(s, id, closeOk);
    StepKeeps(s, CloseClientCall(id, closeOk));
    NoPcbNoCredit(Disconnect(s, id, closeOk), id);
    var k := s.clients[id];
    assert s.clients[id := Released(k)][id := Drop(Released(k))] == s.clients[id := Drop(Released(k))];
    if s.clients[id].attached {
      DisconnectedFate(s, id, closeOk);
    }
  }

  lemma NoPcbNoCredit(s: Sys, id: Id)
    requires PlainClient(s, id) && !s.clients[id].attached
    ensures Flush(s, id) == s.(clients := s.clients[id := Drop(s.clients[id])])
  {
  }

  lemma DisconnectedFate(s: Sys, id: Id, closeOk: bool)
    requires Inv(s) && PlainClient(s, id) && s.clients[id].attached
    ensures var c' := DisconnectConn(At(s, id), closeOk); c'.fate != Open && c'.credited == At(s, id).credited
  {
    Facts(s, id);
    hide Inv;
  }

  lemma ReadParts(s: Sys, id: Id, size: nat)
    requires Inv(s) && PlainClient(s, id)
    ensures var k := s.clients[id];
            Parts(s, ReadCall(id, size), id, k.attached && k.rx != [], Credit(At(s, id), Min(size, |k.rx|), s.wnd), AfterRead(k, size))
  {
    hide Inv, ConnOk, Credit;
    KeptByRead(s, id, size);
    Facts(s, id);
    var k := s.clients[id];
    assert k.rx == [] ==> AfterRead(k, size) == k && s.clients[id := k] == s.clients;
  }

  lemma TlsCloseParts(s: Sys, id: Id, closeOk: bool)
    requires Inv(s) && id in s.clients && s.clients[id].tls
    ensures var k := s.clients[id];
            Parts(s, TlsCloseCall(id, closeOk), id, k.attached, CloseConn(Unclaim(At(s, id)), closeOk), Released(k))
  {
    hide Inv, ConnOk, CloseConn, Unclaim;
    KeptByTlsClose(s, id, closeOk);
    Facts(s, id);
  }

  /** What the server's close makes of the pcb that waits. */
  lemma WaitingCloses(s: Sys, closeOk: bool)
    requires Inv(s)
    ensures s.server.slot.Some? ==>
              var c := CloseConn(Unhook(At(s, s.server.slot.value)), closeOk);
              if closeOk then c.fate == Closed else c.fate == Open && c.closeFailed
  {
    hide Inv;
    if s.server.slot.Some? {
      Facts(s, s.server.slot.value);
    }
    hide FlowOk, BufferOk;
  }

  /** What a failed acceptance makes of it. */
  lemma AcceptFails(s: Sys, closeOk: bool)
    requires Inv(s)
    ensures s.server.slot.Some? ==>
              var c := Unhook(At(s, s.server.slot.value));
              var gone := CloseConn(Unclaim(Attach(c)), closeOk);
              && AbortConn(c).fate == Aborted
              && if closeOk then gone.fate == Closed else gone.fate == Open && gone.closeFailed
  {
    hide Inv;
    if s.server.slot.Some? {
      Facts(s, s.server.slot.value);
    }
    hide FlowOk, BufferOk;
  }

  lemma DisconnectFate(s: Sys, id: Id, closeOk: bool)
    requires Inv(s) && id in s.clients
    ensures s.clients[id].attached ==> DisconnectConn(At(s, id), closeOk).fate == if closeOk then Closed else Aborted
  {
    hide Inv;
    Facts(s, id);
    hide FlowOk, BufferOk;
  }

  lemma TlsGivesUp(s: Sys, id: Id, closeOk: bool)
    requires Inv(s) && id in s.clients
    ensures id in s.conns && s.conns[id] == At(s, id)
    ensures s.clients[id].attached ==>
              var c := CloseConn(Unclaim(At(s, id)), closeOk);
              if closeOk then c.fate == Closed else c.fate == Open && c.closeFailed
  {
    hide Inv;
    Facts(s, id);
    hide FlowOk, BufferOk;
  }

  lemma CloseServerParts(s: Sys, closeOk: bool)
    requires Inv(s)
    ensures Took(s, CloseCall(closeOk), ServerClose(s, closeOk)) && Inv(ServerClose(s, closeOk))
  {
    hide Inv, ServerClose;
    KeptByServerClose(s, closeOk, true);
  }

  lemma BeginParts(s: Sys, closeOk: bool, up: bool)
    requires Inv(s)
    ensures Took(s, BeginCall(closeOk, up), Begin(s, closeOk, up)) && Inv(Begin(s, closeOk, up))
  {
    hide Inv, Begin;
    KeptByServerClose(s, closeOk, up);
  }

  lemma AcceptParts(s: Sys)
    requires Inv(s)
    ensures s.server.hasClient <==> s.server.slot.Some?
    ensures Took(s, AcceptCall(Plain), Accept(s, Plain)) && Inv(Accept(s, Plain))
  {
    KeptByAccept(s, Plain);
  }

  lemma AcceptTlsParts(s: Sys, memory: bool, setupOk: bool, closeOk: bool)
    requires Inv(s)
    ensures s.server.hasClient <==> s.server.slot.Some?
    ensures var how := Outcome(memory, setupOk, closeOk); Took(s, AcceptCall(how), Accept(s, how)) && Inv(Accept(s, how))
  {
    KeptByAccept(s, Outcome(memory, setupOk, closeOk));
  }

  lemma NewParts(s: Sys, id: Id, now: nat)
    requires Inv(s) && s.server.listening && id !in s.conns
    ensures var s' := OnAccept(Put(s, id, FreshConn()), id, now);
            && Took(s, NewConnection(id, now), s') && Inv(s') && s'.server.slot == Some(id)
            && (s.server.slot.Some? ==> At(s', s.server.slot.value).fate == Aborted)
  {
    KeptByNewConnection(s, id, now);
    NewHasNoClient(s, id);
    if s.server.slot.Some? {
      Facts(s, s.server.slot.value);
    }
    hide Inv, FlowOk, BufferOk;
  }

  /** Whom a delivery goes to, and that it keeps the invariant. */
  lemma DeliverParts(s: Sys, id: Id, n: nat, memory: bool)
    requires Inv(s) && Enabled(s, Deliver(id, n, memory))
    ensures Took(s, Deliver(id, n, memory), DeliverStep(s, id, n, memory).0) && Inv(DeliverStep(s, id, n, memory).0)
    ensures Live(s, id) && (s.conns[id].recv == PendingRecv <==> Pending(s, id))
    ensures s.conns[id].recv == PendingRecv ==> s.conns[id].arg == ServerArg && !Holds(ClientOf(s, id))
    ensures s.conns[id].recv == ClientRecv <==> Holds(ClientOf(s, id))
    ensures s.conns[id].recv == ClientRecv ==> s.conns[id].arg == ClientArg
  {
    KeptByDeliver(s, id, n, memory);
    Facts(s, id);
    hide Inv, FlowOk, BufferOk, DropStep, TakeStep;
  }

  lemma FinParts(s: Sys, id: Id, closeOk: bool)
    requires Inv(s) && Enabled(s, Fin(id, closeOk))
    ensures Took(s, Fin(id, closeOk), FinStep(s, id, closeOk).0) && Inv(FinStep(s, id, closeOk).0)
    ensures Live(s, id) && (s.conns[id].recv == PendingRecv <==> Pending(s, id))
    ensures s.conns[id].recv == PendingRecv ==> s.conns[id].arg == ServerArg && !Holds(ClientOf(s, id))
    ensures s.conns[id].recv == ClientRecv <==> Holds(ClientOf(s, id))
    ensures s.conns[id].recv == ClientRecv ==> s.conns[id].arg == ClientArg
    ensures Holds(ClientOf(s, id)) && !s.clients[id].tls ==> DisconnectConn(At(s, id), closeOk).fate != Open
  {
    KeptByFin(s, id, closeOk);
    Facts(s, id);
    hide Inv, FlowOk, BufferOk;
  }

  lemma PollParts(s: Sys, id: Id, now: nat)
    requires Inv(s) && Enabled(s, Poll(id, now))
    ensures Took(s, Poll(id, now), OnPendingPoll(s, s.conns[id].arg, id, now).0) && Inv(OnPendingPoll(s, s.conns[id].arg, id, now).0)
    ensures Live(s, id) && Pending(s, id) && s.conns[id].arg == ServerArg
  {
    KeptByPoll(s, id, now);
    Facts(s, id);
    hide Inv, FlowOk, BufferOk;
  }

  lemma LostParts(s: Sys, id: Id, freedFirst: bool)
    requires Inv(s) && Enabled(s, Reset(id, freedFirst))
    ensures Took(s, Reset(id, freedFirst), ResetStep(s, id, freedFirst)) && Inv(ResetStep(s, id, freedFirst))
    ensures Live(s, id) && !s.conns[id].misused && (s.conns[id].err == PendingErr <==> Pending(s, id))
    ensures s.conns[id].err == PendingErr ==> s.conns[id].arg == ServerArg && !Holds(ClientOf(s, id))
    ensures s.conns[id].err == ClientErr <==> Holds(ClientOf(s, id))
    ensures s.conns[id].err == ClientErr ==> s.conns[id].arg == ClientArg
  {
    KeptByReset(s, id, freedFirst);
    Facts(s, id);
    hide Inv, FlowOk, BufferOk;
  }
}
