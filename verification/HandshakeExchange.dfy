/**
 The two state machines of the TLS 1.2 handshake talking to each other over two channels that keep
 order, in turns that anyone may schedule: what arrives when, how much of a flight the transport
 takes, which operations are retried or fail is up to the environment.
 */
module HandshakeExchange {
  import opened Basics
  import opened Handshake
  import opened HandshakeRun
  import C = HandshakeClient
  import A = HandshakeServer

  // ----- Moves of a machine are events of the system -----

  /** A side of the system is where a machine is, and has yet to read what the machine will and
      what is still `coming` to it. */
  ghost predicate Shows(a: Peer, machine: Peer, coming: seq<Item>) {
    && a.side == machine.side && a.rest == machine.rest && a.transcript == machine.transcript
    && a.inbox == machine.inbox + coming
  }

  lemma RunMore(p: Params, events: seq<Event>, e: Event)
    ensures Run(p, events + [e]) == Apply(p, Run(p, events), e)
  {
    assert (events + [e])[..|events|] == events;
  }

  lemma ClientMove(p: Params, s: System, a: Peer, x: Item, coming: seq<Item>)
    requires MayPlay(p, a, x) && a.side == Client && Shows(s.client, a, coming)
    ensures Shows(Apply(p, s, Event(Client, x)).client, PlayOne(a, x), coming)
    ensures Apply(p, s, Event(Client, x)).server == if a.rest[0].from == Client then Deliver(s.server, x) else s.server
  {
    assert a.rest[0].from == Server ==> (a.inbox + coming)[1..] == a.inbox[1..] + coming;
  }

  /** What the client's machine plays, the system's client plays; `out` is what it sends. */
  lemma {:induction false} ClientMoves(p: Params, events: seq<Event>, a: Peer, items: seq<Item>, b: Peer,
                                       coming: seq<Item>)
    returns (more: seq<Event>, out: seq<Item>)
    requires Plays(p, a, items, b) && a.side == Client && Shows(Run(p, events).client, a, coming)
    ensures Shows(Run(p, events + more).client, b, coming) && b.outbox == a.outbox + out
    ensures Run(p, events + more).server == Received(Run(p, events).server, out)
    decreases items
  {
    hide Apply, Run, Shows, Hashed, Expected;
    if items == [] {
      more, out := [], [];
      assert events + more == events;
      ReceivedTwice(Run(p, events).server, Item(ChangeCipherSpec, 0), []);
    } else {
      var e, next := Event(Client, items[0]), PlayOne(a, items[0]);
      RunMore(p, events, e);
      ClientMove(p, Run(p, events), a, items[0], coming);
      more, out := ClientMoves(p, events + [e], next, items[1..], b, coming);
      assert events + [e] + more == events + ([e] + more);
      more := [e] + more;
      if a.rest[0].from == Client {
        ReceivedTwice(Run(p, events).server, items[0], out);
        assert a.outbox + [items[0]] + out == a.outbox + ([items[0]] + out);
        out := [items[0]] + out;
      }
    }
  }

  lemma ServerMove(p: Params, s: System, a: Peer, x: Item, coming: seq<Item>)
    requires MayPlay(p, a, x) && a.side == Server && Shows(s.server, a, coming)
    ensures Shows(Apply(p, s, Event(Server, x)).server, PlayOne(a, x), coming)
    ensures Apply(p, s, Event(Server, x)).client == if a.rest[0].from == Server then Deliver(s.client, x) else s.client
  {
    assert a.rest[0].from == Client ==> (a.inbox + coming)[1..] == a.inbox[1..] + coming;
  }

  /** What the server's machine plays, the system's server plays; `out` is what it sends. */
  lemma {:induction false} ServerMoves(p: Params, events: seq<Event>, a: Peer, items: seq<Item>, b: Peer,
                                       coming: seq<Item>)
    returns (more: seq<Event>, out: seq<Item>)
    requires Plays(p, a, items, b) && a.side == Server && Shows(Run(p, events).server, a, coming)
    ensures Shows(Run(p, events + more).server, b, coming) && b.outbox == a.outbox + out
    ensures Run(p, events + more).client == Received(Run(p, events).client, out)
    decreases items
  {
    hide Apply, Run, Shows, Hashed, Expected;
    if items == [] {
      more, out := [], [];
      assert events + more == events;
      ReceivedTwice(Run(p, events).client, Item(ChangeCipherSpec, 0), []);
    } else {
      var e, next := Event(Server, items[0]), PlayOne(a, items[0]);
      RunMore(p, events, e);
      ServerMove(p, Run(p, events), a, items[0], coming);
      more, out := ServerMoves(p, events + [e], next, items[1..], b, coming);
      assert events + [e] + more == events + ([e] + more);
      more := [e] + more;
      if a.rest[0].from == Server {
        ReceivedTwice(Run(p, events).client, items[0], out);
        assert a.outbox + [items[0]] + out == a.outbox + ([items[0]] + out);
        out := [items[0]] + out;
      }
    }
  }

  function Received(a: Peer, items: seq<Item>): Peer {
    a.(inbox := a.inbox + items)
  }

  lemma ReceivedTwice(a: Peer, x: Item, out: seq<Item>)
    ensures Received(Deliver(a, x), out) == Received(a, [x] + out)
    ensures Received(a, []) == a
  {
    assert a.inbox + [x] + out == a.inbox + ([x] + out);
    assert a.inbox + [] == a.inbox;
  }

  /** The first `n` items on the channel arrive. */
  lemma Arrived(p: Params, events: seq<Event>, machine: Peer, n: nat, wire: seq<Item>, flight: seq<Item>, a: Peer)
    requires n <= |wire| && Shows(a, machine, wire + flight) && Aligned(p, a)
    ensures Shows(a, Received(machine, wire[..n]), wire[n..] + flight) && Aligned(p, Received(machine, wire[..n]))
  {
    assert machine.inbox + wire[..n] + (wire[n..] + flight) == machine.inbox + (wire + flight);
    AlignedPrefix(p, Received(machine, wire[..n]), a, wire[n..] + flight);
  }

  /** The client's machine gets from `before`, less what it sent, to `after`. */
  lemma ClientTurned(p: Params, events: seq<Event>, before: Peer, left: seq<Item>, after: Peer, server: Peer,
                     toServer: seq<Item>, toClient: seq<Item>)
    returns (more: seq<Event>)
    requires before.side == Client && left <= before.outbox && Reaches(p, Without(before, left), after)
    requires Shows(Run(p, events).client, before, toClient + server.outbox)
    requires Shows(Run(p, events).server, server, toServer + before.outbox)
    ensures Shows(Run(p, events + more).client, after, toClient + server.outbox)
    ensures Shows(Run(p, events + more).server, server, toServer + left + after.outbox)
  {
    hide Run, Plays, Aligned;
    var items :| Plays(p, Without(before, left), items, after);
    var out;
    more, out := ClientMoves(p, events, Without(before, left), items, after, toClient + server.outbox);
    assert before.outbox == left + before.outbox[|left|..];
    assert toServer + left + (before.outbox[|left|..] + out) == toServer + before.outbox + out;
  }

  lemma ServerTurned(p: Params, events: seq<Event>, before: Peer, left: seq<Item>, after: Peer, client: Peer,
                     toServer: seq<Item>, toClient: seq<Item>)
    returns (more: seq<Event>)
    requires before.side == Server && left <= before.outbox && Reaches(p, Without(before, left), after)
    requires Shows(Run(p, events).server, before, toServer + client.outbox)
    requires Shows(Run(p, events).client, client, toClient + before.outbox)
    ensures Shows(Run(p, events + more).server, after, toServer + client.outbox)
    ensures Shows(Run(p, events + more).client, client, toClient + left + after.outbox)
  {
    hide Run, Plays, Aligned;
    var items :| Plays(p, Without(before, left), items, after);
    var out;
    more, out := ServerMoves(p, events, Without(before, left), items, after, toServer + client.outbox);
    assert before.outbox == left + before.outbox[|left|..];
    assert toClient + left + (before.outbox[|left|..] + out) == toClient + before.outbox + out;
  }

  lemma RunAligned(p: Params, events: seq<Event>)
    ensures Aligned(p, Run(p, events).client) && Aligned(p, Run(p, events).server)
    ensures Run(p, events).client.side == Client && Run(p, events).server.side == Server
  {
    RunKeeps(p, events);
    NothingUnexpected(p, events);
  }

  // ----- The two machines -----

  /** A turn of one side: how many items on their way to it arrive first, what its transport does, and
      what the environment chooses in each state. */
  datatype Turn =
    | ClientTurn(arriving: nat, io: Transport, clientEnv: C.State -> Choice)
    | ServerTurn(arriving: nat, io: Transport, serverEnv: A.State -> Choice)

  /** What both sides were told agrees with what is negotiated. */
  predicate Agreed(p: Params, statusExpected: bool, hasCertificate: bool) {
    Consistent(p) && (p.certRequest ==> p.clientCert == hasCertificate) && (p.certStatus ==> statusExpected)
  }

  class Exchange {
    const p: Params
    const client: C.Connector
    const server: A.Acceptor
    /** What was sent and has not arrived. */
    var toServer: seq<Item>
    var toClient: seq<Item>
    /** The events of the system that the machines went through, and the states they visited. */
    ghost var events: seq<Event>
    ghost var clientStates: seq<C.State>
    ghost var serverStates: seq<A.State>
    /** The states whose operations they carried out. */
    ghost var clientCarried: seq<C.State>
    ghost var serverCarried: seq<A.State>

    ghost predicate Valid()
      reads this, client, server
    {
      && client.p == p && server.p == p
      && ClientValid() && ServerValid()
      && Shows(Run(p, events).client, client.View(), toClient + server.outgoing)
      && Shows(Run(p, events).server, server.View(), toServer + client.outgoing)
    }

    ghost predicate ClientValid()
      reads this, client
    {
      && client.p == p
      && client.Sound(client.wait == ReadChangeCipherSpec) && client.Tidy(client.wait) && client.OnCourse(client.wait)
      && clientStates != [] && clientStates[|clientStates| - 1] == client.state
      && Descends(C.RankIn(p), clientStates)
      && C.CarriedOut(p, clientCarried, client.state)
    }

    ghost predicate ServerValid()
      reads this, server
    {
      && server.p == p
      && server.Sound(server.wait == ReadChangeCipherSpec) && server.Tidy(server.wait) && server.OnCourse(server.wait)
      && serverStates != [] && serverStates[|serverStates| - 1] == server.state
      && Descends(A.RankIn(p), serverStates)
      && A.CarriedOut(p, serverCarried, server.hasPeerKey, server.state)
    }

    constructor (p: Params, statusExpected: bool, hasCertificate: bool)
      requires Agreed(p, statusExpected, hasCertificate)
      ensures Valid() && fresh(client) && fresh(server) && this.p == p
      ensures client.wait != Error && server.wait != Error
    {
      hide Valid, C.Connector.Sound, C.Connector.Tidy, C.Connector.OnCourse, A.Acceptor.Sound, A.Acceptor.Tidy,
        A.Acceptor.OnCourse, Flow;
      this.p := p;
      client := new C.Connector(p, statusExpected, hasCertificate);
      server := new A.Acceptor(p);
      toServer, toClient := [], [];
      new;
      events, clientStates, serverStates, clientCarried, serverCarried := [], [client.state], [server.state], [], [];
      FirstValid();
    }

    lemma FirstValid()
      requires client.p == p && server.p == p && client.wait == Continue && server.wait == Continue
      requires client.state == C.StartConnect && server.state == A.StartAccept && !server.hasPeerKey
      requires client.Sound(false) && client.Tidy(Continue) && client.OnCourse(Continue)
      requires server.Sound(false) && server.Tidy(Continue) && server.OnCourse(Continue)
      requires client.View() == Peer(Client, Flow(p), [], [], []) && server.View() == Peer(Server, Flow(p), [], [], [])
      requires toServer == toClient == [] && events == [] && clientCarried == [] && serverCarried == []
      requires clientStates == [client.state] && serverStates == [server.state]
      ensures Valid()
    {
      hide C.CarriedOut, A.CarriedOut, C.Connector.Sound, C.Connector.Tidy, C.Connector.OnCourse, A.Acceptor.Sound,
        A.Acceptor.Tidy, A.Acceptor.OnCourse, Descends, Flow, Run, Shows;
      StartShows(p);
      OneState(C.RankIn(p), client.state);
      OneState(A.RankIn(p), server.state);
      C.NothingCarried(p);
      A.NothingCarried(p);
    }

    /** Items arrive at the client. */
    method ArriveAtClient(arriving: nat)
      requires Valid()
      modifies this`toClient, client`incoming
      ensures Valid()
      ensures arriving >= |old(toClient)| ==> toClient == []
      ensures client.incoming + toClient == old(client.incoming + toClient)
    {
      hide Run, Aligned, C.Connector.Sound, C.Connector.Tidy, C.Connector.Follows, A.Acceptor.Sound, A.Acceptor.Tidy,
        A.Acceptor.Follows, C.CarriedOut, A.CarriedOut, Descends, C.RankIn, A.RankIn;
      var n := if arriving < |toClient| then arriving else |toClient|;
      RunAligned(p, events);
      Arrived(p, events, client.View(), n, toClient, server.outgoing, Run(p, events).client);
      client.incoming, toClient := client.incoming + toClient[..n], toClient[n..];
    }

    /** A turn of the client: items arrive, and the driver runs once. */
    method TurnClient(arriving: nat, io: Transport, env: C.State -> Choice)
      requires Valid()
      modifies this, client
      ensures Valid()
      ensures old(client.wait) != Error && C.NeverFails(env) ==> client.wait != Error
      ensures old(ClientCanGo()) && |old(toClient)| <= arriving && old(client.OpenTo(io)) && C.AlwaysKind(env) ==>
                client.Distance() < old(client.Distance())
      ensures C.HeldBack(p, env, old(client.state), client.state)
      ensures client.Unfailing(env, old(clientCarried), clientCarried)
    {
      hide Valid, C.HeldBack, C.Connector.Unfailing;
      ArriveAtClient(arriving);
      RunClient(io, env);
    }

    method RunClient(io: Transport, env: C.State -> Choice)
      requires Valid()
      modifies this, client
      ensures Valid()
      ensures old(client.wait) != Error && C.NeverFails(env) ==> client.wait != Error
      ensures old(client.CanGo() && client.OpenTo(io)) && C.AlwaysKind(env) ==> client.Distance() < old(client.Distance())
      ensures C.HeldBack(p, env, old(client.state), client.state)
      ensures client.Unfailing(env, old(clientCarried), clientCarried)
    {
      hide C.CarriedOut, C.HeldBack, C.Connector.Unfailing, C.Connector.Visits, A.CarriedOut, Without;
      hide Run, Shows, Aligned, Reaches, Descends, C.Connector.Sound, C.Connector.Tidy, C.Connector.OnCourse,
        A.Acceptor.Sound, A.Acceptor.Tidy, A.Acceptor.OnCourse;
      var ret, left;
      ghost var visited, carried;
      ghost var before := client.View();
      ret, left, visited, carried := client.Resume(io, env, clientCarried);
      SentByClient(left, before, visited, carried);
    }

    /** What the client sent in a turn is on its way. */
    method SentByClient(left: seq<Item>, ghost before: Peer, ghost visited: seq<C.State>, ghost carried: seq<C.State>)
      requires client.p == p && ServerValid() && clientStates != [] && Descends(C.RankIn(p), clientStates)
      requires client.Sound(client.wait == ReadChangeCipherSpec) && client.Tidy(client.wait) && client.OnCourse(client.wait)
      requires client.Visits(visited, clientStates[|clientStates| - 1], client.state)
      requires C.CarriedOut(p, carried, client.state)
      requires before.side == Client && left <= before.outbox && Reaches(p, Without(before, left), client.View())
      requires Shows(Run(p, events).client, before, toClient + server.outgoing)
      requires Shows(Run(p, events).server, server.View(), toServer + before.outbox)
      modifies this
      ensures Valid() && clientCarried == carried
    {
      hide C.CarriedOut, A.CarriedOut, Without, Run, Shows, Aligned, Reaches, Descends, C.Connector.Sound, C.Connector.Tidy,
        C.Connector.OnCourse, A.Acceptor.Sound, A.Acceptor.Tidy, A.Acceptor.OnCourse;
      ghost var more := ClientTurned(p, events, before, left, client.View(), server.View(), toServer, toClient);
      DescendsJoin(C.RankIn(p), clientStates, visited);
      toServer := toServer + left;
      events, clientStates, clientCarried := events + more, clientStates + visited[1..], carried;
    }

    /** Items arrive at the server. */
    method ArriveAtServer(arriving: nat)
      requires Valid()
      modifies this`toServer, server`incoming
      ensures Valid()
      ensures arriving >= |old(toServer)| ==> toServer == []
      ensures server.incoming + toServer == old(server.incoming + toServer)
    {
      hide Run, Aligned, C.Connector.Sound, C.Connector.Tidy, C.Connector.Follows, A.Acceptor.Sound, A.Acceptor.Tidy,
        A.Acceptor.Follows, C.CarriedOut, A.CarriedOut, Descends, C.RankIn, A.RankIn;
      var n := if arriving < |toServer| then arriving else |toServer|;
      RunAligned(p, events);
      Arrived(p, events, server.View(), n, toServer, client.outgoing, Run(p, events).server);
      server.incoming, toServer := server.incoming + toServer[..n], toServer[n..];
    }

    /** A turn of the server: items arrive, and the driver runs once. */
    method TurnServer(arriving: nat, io: Transport, env: A.State -> Choice)
      requires Valid()
      modifies this, server
      ensures Valid()
      ensures old(server.wait) != Error && A.NeverFails(env) ==> server.wait != Error
      ensures old(ServerCanGo()) && |old(toServer)| <= arriving && old(server.OpenTo(io)) && A.AlwaysKind(env) ==>
                server.Distance() < old(server.Distance())
      ensures A.HeldBack(p, env, server.hasPeerKey, old(server.state), server.state)
      ensures server.Unfailing(env, old(serverCarried), serverCarried)
    {
      hide Valid, A.HeldBack, A.Acceptor.Unfailing;
      ArriveAtServer(arriving);
      RunServer(io, env);
    }

    method RunServer(io: Transport, env: A.State -> Choice)
      requires Valid()
      modifies this, server
      ensures Valid()
      ensures old(server.wait) != Error && A.NeverFails(env) ==> server.wait != Error
      ensures old(server.CanGo() && server.OpenTo(io)) && A.AlwaysKind(env) ==> server.Distance() < old(server.Distance())
      ensures A.HeldBack(p, env, server.hasPeerKey, old(server.state), server.state)
      ensures server.Unfailing(env, old(serverCarried), serverCarried)
    {
      hide A.CarriedOut, A.HeldBack, A.Acceptor.Unfailing, A.Acceptor.Visits, C.CarriedOut, Without;
      hide Run, Shows, Aligned, Reaches, Descends, A.Acceptor.Sound, A.Acceptor.Tidy, A.Acceptor.OnCourse,
        C.Connector.Sound, C.Connector.Tidy, C.Connector.OnCourse;
      var ret, left;
      ghost var visited, carried;
      ghost var before := server.View();
      ret, left, visited, carried := server.Resume(io, env, serverCarried);
      SentByServer(left, before, visited, carried);
    }

    /** What the server sent in a turn is on its way. */
    method SentByServer(left: seq<Item>, ghost before: Peer, ghost visited: seq<A.State>, ghost carried: seq<A.State>)
      requires server.p == p && ClientValid() && serverStates != [] && Descends(A.RankIn(p), serverStates)
      requires server.Sound(server.wait == ReadChangeCipherSpec) && server.Tidy(server.wait) && server.OnCourse(server.wait)
      requires server.Visits(visited, serverStates[|serverStates| - 1], server.state)
      requires A.CarriedOut(p, carried, server.hasPeerKey, server.state)
      requires before.side == Server && left <= before.outbox && Reaches(p, Without(before, left), server.View())
      requires Shows(Run(p, events).server, before, toServer + client.outgoing)
      requires Shows(Run(p, events).client, client.View(), toClient + before.outbox)
      modifies this
      ensures Valid() && serverCarried == carried
    {
      hide C.CarriedOut, A.CarriedOut, Without, Run, Shows, Aligned, Reaches, Descends, C.Connector.Sound, C.Connector.Tidy,
        C.Connector.OnCourse, A.Acceptor.Sound, A.Acceptor.Tidy, A.Acceptor.OnCourse;
      ghost var more := ServerTurned(p, events, before, left, server.View(), client.View(), toServer, toClient);
      DescendsJoin(A.RankIn(p), serverStates, visited);
      toClient := toClient + left;
      events, serverStates, serverCarried := events + more, serverStates + visited[1..], carried;
    }

    /** The client is not done, and what it waits for is on its way. */
    predicate ClientCanGo()
      reads this, client
    {
      && client.state != C.Done && client.wait != Error
      && (client.wait == ReadMessage || client.wait == ReadChangeCipherSpec ==> client.incoming + toClient != [])
    }

    predicate ServerCanGo()
      reads this, server
    {
      && server.state != A.Done && server.wait != Error
      && (server.wait == ReadMessage || server.wait == ReadChangeCipherSpec ==> server.incoming + toServer != [])
    }

    predicate Finished()
      reads this, client, server
    {
      client.state == C.Done && server.state == A.Done
    }

    /** There is no deadlock: never do both sides wait for the other, nor one for a side that is done. */
    lemma SomeoneGoes()
      requires Valid() && client.wait != Error && server.wait != Error && !Finished()
      ensures ClientCanGo() || ServerCanGo()
    {
      hide Run, Inv, Shows, Descends, C.Connector.Sound, C.Connector.OnCourse, A.Acceptor.Sound, A.Acceptor.OnCourse;
      client.WaitsFor();
      server.WaitsFor();
      if !ClientCanGo() && !ServerCanGo() {
        NothingComes();
      }
    }

    /** With nothing on the channels, nor in the flights, both sides have the same left to do. */
    lemma NothingComes()
      requires Valid() && client.outgoing == [] && server.outgoing == []
      requires client.rest == [] || client.incoming + toClient == []
      requires server.rest == [] || server.incoming + toServer == []
      ensures client.rest == server.rest
    {
      hide C.Connector.Sound, C.Connector.OnCourse, A.Acceptor.Sound, A.Acceptor.OnCourse, Run, Descends, MayPlay;
      RunKeeps(p, events);
      RunAligned(p, events);
    }

    /** Turns as they come. */
    method Take(turns: seq<Turn>)
      requires Valid()
      modifies this, client, server
      ensures Valid()
      ensures old(client.wait != Error && server.wait != Error) && (forall t | t in turns :: Harmless(t)) ==>
                client.wait != Error && server.wait != Error
    {
      for i := 0 to |turns|
        invariant Valid()
        invariant old(client.wait != Error && server.wait != Error) && (forall t | t in turns :: Harmless(t)) ==>
                    client.wait != Error && server.wait != Error
      {
        assert turns[i] in turns;
        match turns[i]
        case ClientTurn(arriving, io, env) => TurnClient(arriving, io, env);
        case ServerTurn(arriving, io, env) => TurnServer(arriving, io, env);
      }
    }

    /** Once the environment holds nothing up, both sides finish: every turn of one that can go gets
        it nearer to the end. */
    method Finish()
      requires Valid() && client.wait != Error && server.wait != Error
      modifies this, client, server
      ensures Valid() && Finished()
    {
      hide Valid, ClientCanGo, ServerCanGo, C.HeldBack, A.HeldBack, C.Connector.Unfailing, A.Acceptor.Unfailing,
        C.Connector.Distance, A.Acceptor.Distance;
      while !Finished()
        invariant Valid() && client.wait != Error && server.wait != Error
        decreases client.Distance() + server.Distance()
      {
        SomeoneGoes();
        if ClientCanGo() {
          TurnClient(|toClient|, Transport(true, |client.outgoing|, true), s => KIND);
        } else {
          TurnServer(|toServer|, Transport(true, |server.outgoing|, true), s => KIND);
        }
      }
    }

    /** When both sides are done, their transcripts are the same, and hold each message of the flow. */
    lemma SameTranscripts()
      requires Valid() && Finished()
      ensures client.transcript == server.transcript && Kinds(client.transcript) == MessageKinds(Flow(p))
    {
      SameTranscriptAtTheEnd(p, events);
    }

    /** A Finished that a machine is about to check was made by the other one over this very
        transcript. */
    lemma FinishedMatches()
      requires Valid()
      ensures var s := Run(p, events);
              && (client.incoming != [] && client.incoming[0].kind == Handshake.Finished ==>
                    client.transcript in s.serverMade && client.Matched(client.incoming, client.transcript))
              && (server.incoming != [] && server.incoming[0].kind == Handshake.Finished ==>
                    server.transcript in s.clientMade && server.Matched(server.incoming, server.transcript))
    {
      FinishedOverSameTranscript(p, events);
      var s := Run(p, events);
      assert client.incoming != [] ==> s.client.inbox[0] == client.incoming[0];
      assert server.incoming != [] ==> s.server.inbox[0] == server.incoming[0];
    }

    /**
     Neither machine is done unless each operation that is not left out was carried out once, in a turn in
     which it did not fail: the client verified the server's certificate and read its signed key exchange,
     the server verified the client's certificate and its signature if it sent one.
     */
    lemma ChecksMade(s: C.State, t: A.State)
      requires Valid()
      ensures client.state == C.Done && C.OnPath(p, s) && C.Demands(p, s) ==> Once(clientCarried, s)
      ensures server.state == A.Done && A.OnPath(p, t) && A.Demands(p, !p.resumed && p.clientCert, t) ==>
                Once(serverCarried, t)
    {
      hide *;
      if client.state == C.Done {
        ClientCleared();
        ClientChecked(p, clientCarried, s);
      }
      if server.state == A.Done {
        ServerCleared();
        ServerChecked(p, serverCarried, server.hasPeerKey, t);
      }
    }

    lemma ClientCleared()
      requires Valid()
      ensures C.CarriedOut(p, clientCarried, client.state)
    {
      hide Run, Shows, C.CarriedOut, A.CarriedOut, Descends, C.Connector.Sound, C.Connector.Tidy, C.Connector.OnCourse,
        A.Acceptor.Sound, A.Acceptor.Tidy, A.Acceptor.OnCourse;
    }

    lemma ServerCleared()
      requires Valid() && server.state == A.Done
      ensures A.CarriedOut(p, serverCarried, server.hasPeerKey, A.Done)
      ensures !p.resumed ==> server.hasPeerKey == p.clientCert
    {
      hide Run, Shows, C.CarriedOut, A.CarriedOut, Descends, C.Connector.Sound, C.Connector.Tidy, C.Connector.OnCourse,
        A.Acceptor.Sound, A.Acceptor.Tidy, A.Acceptor.OnCourse;
      server.KeyAtEnd();
    }

    /** Each machine leaves a state at most once, over all its turns. */
    lemma StatesLeftOnce(i: nat, j: nat, k: nat)
      requires Valid() && i < j < k
      ensures k < |clientStates| && clientStates[j] != clientStates[i] ==> clientStates[k] != clientStates[i]
      ensures k < |serverStates| && serverStates[j] != serverStates[i] ==> serverStates[k] != serverStates[i]
    {
      if k < |clientStates| && clientStates[j] != clientStates[i] {
        LeftOnce(C.RankIn(p), clientStates, i, j, k);
      }
      if k < |serverStates| && serverStates[j] != serverStates[i] {
        LeftOnce(A.RankIn(p), serverStates, i, j, k);
      }
    }
  }

  /** The element is in the list at one place. */
  ghost predicate Once<T(!new)>(xs: seq<T>, x: T) {
    x in xs && forall i, j | 0 <= i < |xs| && 0 <= j < |xs| && xs[i] == x && xs[j] == x :: i == j
  }

  lemma StartShows(p: Params)
    ensures Shows(Run(p, []).client, Peer(Client, Flow(p), [], [], []), [] + [])
    ensures Shows(Run(p, []).server, Peer(Server, Flow(p), [], [], []), [] + [])
  {
  }

  lemma OneState<S(!new)>(rank: S -> nat, s: S)
    ensures Descends(rank, [s])
  {
  }

  lemma ClientChecked(p: Params, carried: seq<C.State>, s: C.State)
    requires C.CarriedOut(p, carried, C.Done)
    ensures C.OnPath(p, s) && C.Demands(p, s) ==> Once(carried, s)
  {
    if C.OnPath(p, s) && C.Demands(p, s) {
      CarriedOnce(C.RankIn(p), carried, s);
    }
  }

  lemma ServerChecked(p: Params, carried: seq<A.State>, key: bool, s: A.State)
    requires A.CarriedOut(p, carried, key, A.Done) && (!p.resumed ==> key == p.clientCert)
    ensures A.OnPath(p, s) && A.Demands(p, !p.resumed && p.clientCert, s) ==> Once(carried, s)
  {
    if A.OnPath(p, s) && A.Demands(p, !p.resumed && p.clientCert, s) {
      CarriedOnce(A.RankIn(p), carried, s);
    }
  }

  lemma CarriedOnce<S(!new)>(rank: S -> nat, carried: seq<S>, s: S)
    requires s in carried && forall i, j | 0 <= i < j < |carried| :: rank(carried[j]) < rank(carried[i])
    ensures Once(carried, s)
  {
  }

  /** No operation fails in the turn, however long it is put off. */
  ghost predicate Harmless(t: Turn) {
    match t
    case ClientTurn(_, _, env) => C.NeverFails(env)
    case ServerTurn(_, _, env) => A.NeverFails(env)
  }

  /** A client and a server in any turns; whatever fails in them, if both come to the end they agree. */
  method Converse(p: Params, statusExpected: bool, hasCertificate: bool, turns: seq<Turn>)
    returns (done: bool, clientTranscript: seq<Item>, serverTranscript: seq<Item>)
    requires Agreed(p, statusExpected, hasCertificate)
    ensures done ==> clientTranscript == serverTranscript && Kinds(clientTranscript) == MessageKinds(Flow(p))
  {
    var x := new Exchange(p, statusExpected, hasCertificate);
    x.Take(turns);
    done, clientTranscript, serverTranscript := x.Finished(), x.client.transcript, x.server.transcript;
    if done {
      x.SameTranscripts();
    }
  }

  /** The same with any turns that hold things up but let nothing fail, after which the environment is
      kind: both come to the end. */
  method ConverseToTheEnd(p: Params, statusExpected: bool, hasCertificate: bool, turns: seq<Turn>)
    returns (clientTranscript: seq<Item>, serverTranscript: seq<Item>)
    requires Agreed(p, statusExpected, hasCertificate) && forall t | t in turns :: Harmless(t)
    ensures clientTranscript == serverTranscript && Kinds(clientTranscript) == MessageKinds(Flow(p))
  {
    var x := new Exchange(p, statusExpected, hasCertificate);
    x.Take(turns);
    x.Finish();
    x.SameTranscripts();
    clientTranscript, serverTranscript := x.client.transcript, x.server.transcript;
  }
}
