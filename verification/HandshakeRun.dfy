/** A client and a server of the TLS 1.2 handshake over channels that keep order. */
module HandshakeRun {
  import opened Basics
  import opened Handshake

  /** The two sides; what one sends goes to the end of the other's inbox, to be read at any later
      time. `made` records the transcripts over which each side made a Finished. */
  datatype System = System(
    client: Peer,
    server: Peer,
    clientMade: set<seq<Item>>,
    serverMade: set<seq<Item>>)

  function Start(p: Params): System {
    System(Peer(Client, Flow(p), [], [], []), Peer(Server, Flow(p), [], [], []), {}, {})
  }

  datatype Event = Event(side: Side, item: Item)

  predicate Sends(a: Peer)
    requires a.rest != []
  {
    a.rest[0].from == a.side
  }

  function Deliver(b: Peer, x: Item): Peer {
    b.(inbox := b.inbox + [x])
  }

  /** One side sends or receives an item, as its flow allows. */
  ghost function Apply(p: Params, s: System, e: Event): System {
    if e.side == Client then
      if !MayPlay(p, s.client, e.item) then s
      else if !Sends(s.client) then s.(client := PlayOne(s.client, e.item))
      else
        s.(client := PlayOne(s.client, e.item), server := Deliver(s.server, e.item),
           clientMade := s.clientMade + if e.item.kind == Finished then {s.client.transcript} else {})
    else
      if !MayPlay(p, s.server, e.item) then s
      else if !Sends(s.server) then s.(server := PlayOne(s.server, e.item))
      else
        s.(server := PlayOne(s.server, e.item), client := Deliver(s.client, e.item),
           serverMade := s.serverMade + if e.item.kind == Finished then {s.server.transcript} else {})
  }

  ghost function Run(p: Params, events: seq<Event>): System {
    if events == [] then Start(p)
    else Apply(p, Run(p, events[..|events| - 1]), events[|events| - 1])
  }

  // ----- What is on its way -----

  /** `behind` has yet to read `queue` from `ahead`; then it is where `ahead` is. Each Finished on its
      way was made over the transcript that `behind` will have when it reads it. */
  ghost predicate CatchesUp(p: Params, ahead: Peer, made: set<seq<Item>>, rest: seq<Step>, transcript: seq<Item>,
                            queue: seq<Item>)
    decreases queue
  {
    if queue == [] then rest == ahead.rest && transcript == ahead.transcript
    else
      var x := queue[0];
      && rest != [] && rest[0].from == ahead.side && Expected(p, rest[0], x)
      && (x.kind == Finished ==> x.body == p.mac(transcript, ahead.side) && transcript in made)
      && CatchesUp(p, ahead, made, rest[1..], transcript + Hashed(x), queue[1..])
  }

  /** `ahead` sends one more item. */
  lemma {:induction false} CatchesUpMore(p: Params, ahead: Peer, made: set<seq<Item>>, rest: seq<Step>,
                                         transcript: seq<Item>, queue: seq<Item>, x: Item, made': set<seq<Item>>)
    requires CatchesUp(p, ahead, made, rest, transcript, queue)
    requires MayPlay(p, ahead, x) && Sends(ahead)
    requires made <= made' && (x.kind == Finished ==> ahead.transcript in made')
    ensures CatchesUp(p, PlayOne(ahead, x), made', rest, transcript, queue + [x])
    decreases queue
  {
    if queue == [] {
      assert (queue + [x])[1..] == [];
      assert CatchesUp(p, PlayOne(ahead, x), made', rest[1..], transcript + Hashed(x), []);
    } else {
      assert (queue + [x])[1..] == queue[1..] + [x];
      CatchesUpMore(p, ahead, made, rest[1..], transcript + Hashed(queue[0]), queue[1..], x, made');
    }
  }

  /** Whoever is behind can read all that is on its way. */
  lemma {:induction false} CatchesUpAligned(p: Params, ahead: Peer, made: set<seq<Item>>, behind: Peer)
    requires CatchesUp(p, ahead, made, behind.rest, behind.transcript, behind.inbox) && behind.side != ahead.side
    ensures Aligned(p, behind)
    decreases behind.inbox
  {
    if behind.inbox != [] {
      CatchesUpAligned(p, ahead, made, PlayOne(behind, behind.inbox[0]));
    }
  }

  /** At any time at most one side is behind. */
  ghost predicate Inv(p: Params, s: System) {
    && s.client.side == Client && s.server.side == Server
    && (|| (s.client.inbox == []
            && CatchesUp(p, s.client, s.clientMade, s.server.rest, s.server.transcript, s.server.inbox))
        || (s.server.inbox == []
            && CatchesUp(p, s.server, s.serverMade, s.client.rest, s.client.transcript, s.client.inbox)))
  }

  lemma ApplyKeeps(p: Params, s: System, e: Event)
    requires Inv(p, s)
    ensures Inv(p, Apply(p, s, e))
  {
    var s' := Apply(p, s, e);
    if e.side == Client && MayPlay(p, s.client, e.item) && Sends(s.client) {
      CatchesUpMore(p, s.client, s.clientMade, s.server.rest, s.server.transcript, s.server.inbox, e.item, s'.clientMade);
    }
    if e.side == Server && MayPlay(p, s.server, e.item) && Sends(s.server) {
      CatchesUpMore(p, s.server, s.serverMade, s.client.rest, s.client.transcript, s.client.inbox, e.item, s'.serverMade);
    }
  }

  lemma {:induction false} RunKeeps(p: Params, events: seq<Event>)
    ensures Inv(p, Run(p, events))
  {
    if events != [] {
      RunKeeps(p, events[..|events| - 1]);
      ApplyKeeps(p, Run(p, events[..|events| - 1]), events[|events| - 1]);
    }
  }

  lemma InvAligned(p: Params, s: System)
    requires Inv(p, s)
    ensures Aligned(p, s.client) && Aligned(p, s.server)
  {
    if s.client.inbox == [] {
      CatchesUpAligned(p, s.client, s.clientMade, s.server);
    } else {
      CatchesUpAligned(p, s.server, s.serverMade, s.client);
    }
  }

  /** Whatever the schedule, each side can read all that is on its way to it, Finished included. */
  lemma NothingUnexpected(p: Params, events: seq<Event>)
    ensures Aligned(p, Run(p, events).client) && Aligned(p, Run(p, events).server)
  {
    RunKeeps(p, events);
    InvAligned(p, Run(p, events));
  }

  /** The transcript over which a side is about to check the other's Finished is one over which the
      other made a Finished, so the check succeeds. */
  lemma FinishedOverSameTranscript(p: Params, events: seq<Event>)
    ensures var s := Run(p, events);
            && (s.client.inbox != [] && s.client.inbox[0].kind == Finished ==>
                  && s.client.transcript in s.serverMade
                  && s.client.inbox[0].body == p.mac(s.client.transcript, Server))
            && (s.server.inbox != [] && s.server.inbox[0].kind == Finished ==>
                  && s.server.transcript in s.clientMade
                  && s.server.inbox[0].body == p.mac(s.server.transcript, Client))
  {
    RunKeeps(p, events);
  }

  // ----- Each message once -----

  /** The kinds of the handshake messages of a flow. */
  function MessageKinds(steps: seq<Step>): seq<Kind> {
    if steps == [] then []
    else (if steps[0].kind == ChangeCipherSpec then [] else [steps[0].kind]) + MessageKinds(steps[1..])
  }

  function Kinds(items: seq<Item>): seq<Kind> {
    if items == [] then [] else Kinds(items[..|items| - 1]) + [items[|items| - 1].kind]
  }

  /** A transcript is the flow up to where its side is. */
  ghost predicate UpTo(p: Params, a: Peer) {
    Kinds(a.transcript) + MessageKinds(a.rest) == MessageKinds(Flow(p))
  }

  lemma PlayUpTo(p: Params, a: Peer, x: Item)
    requires UpTo(p, a) && MayPlay(p, a, x)
    ensures UpTo(p, PlayOne(a, x))
  {
    var b := PlayOne(a, x);
    if x.kind == ChangeCipherSpec {
      assert b.transcript == a.transcript;
      assert [] + MessageKinds(b.rest) == MessageKinds(b.rest);
    } else {
      KindsAppend(a.transcript, x);
      Rejoin(Kinds(a.transcript), x.kind, MessageKinds(b.rest));
    }
  }

  lemma KindsAppend(items: seq<Item>, x: Item)
    ensures Kinds(items + [x]) == Kinds(items) + [x.kind]
  {
    assert (items + [x])[..|items|] == items;
  }

  lemma Rejoin(a: seq<Kind>, k: Kind, b: seq<Kind>)
    ensures a + ([k] + b) == a + [k] + b
  {
  }

  lemma {:induction false} RunUpTo(p: Params, events: seq<Event>)
    ensures UpTo(p, Run(p, events).client) && UpTo(p, Run(p, events).server)
  {
    if events == [] {
      assert [] + MessageKinds(Flow(p)) == MessageKinds(Flow(p));
    } else {
      var s := Run(p, events[..|events| - 1]);
      var e := events[|events| - 1];
      RunUpTo(p, events[..|events| - 1]);
      if e.side == Client && MayPlay(p, s.client, e.item) {
        PlayUpTo(p, s.client, e.item);
      }
      if e.side == Server && MayPlay(p, s.server, e.item) {
        PlayUpTo(p, s.server, e.item);
      }
    }
  }

  /** When both sides are through, their transcripts are the same, and they are exactly the messages
      of the flow in its order. */
  lemma SameTranscriptAtTheEnd(p: Params, events: seq<Event>)
    requires Run(p, events).client.rest == [] && Run(p, events).server.rest == []
    ensures var s := Run(p, events);
            && s.client.transcript == s.server.transcript
            && Kinds(s.client.transcript) == MessageKinds(Flow(p))
  {
    RunKeeps(p, events);
    RunUpTo(p, events);
  }

  /** Where a step stands in the handshake. */
  function Place(p: Params, step: Step): nat {
    if step.from == Client then
      match step.kind
      case ClientHello => 1
      case Certificate => 11
      case ClientKeyExchange => 12
      case CertificateVerify => 13
      case ChangeCipherSpec => 21
      case NextProto => 22
      case ChannelId => 23
      case Finished => 24
      case _ => 0
    else
      match step.kind
      case ServerHello => 2
      case Certificate => 3
      case CertificateStatus => 4
      case ServerKeyExchange => 5
      case CertificateRequest => 6
      case ServerHelloDone => 7
      case NewSessionTicket => if p.resumed then 15 else 31
      case ChangeCipherSpec => if p.resumed then 16 else 32
      case Finished => if p.resumed then 17 else 33
      case _ => 0
  }

  /** The places of the steps go up, from `lo` to below `hi`. */
  ghost predicate Ordered(p: Params, steps: seq<Step>, lo: nat, hi: nat)
    decreases steps
  {
    if steps == [] then lo <= hi
    else lo <= Place(p, steps[0]) && Ordered(p, steps[1..], Place(p, steps[0]) + 1, hi)
  }

  lemma {:induction false} OrderedAppend(p: Params, a: seq<Step>, b: seq<Step>, lo: nat, mid: nat, hi: nat)
    requires Ordered(p, a, lo, mid) && Ordered(p, b, mid, hi)
    ensures Ordered(p, a + b, lo, hi)
    decreases a
  {
    if a == [] {
      assert a + b == b;
      OrderedFrom(p, b, lo, mid, hi);
    } else {
      assert (a + b)[1..] == a[1..] + b;
      OrderedAppend(p, a[1..], b, Place(p, a[0]) + 1, mid, hi);
    }
  }

  lemma {:induction false} OrderedFrom(p: Params, steps: seq<Step>, lo: nat, mid: nat, hi: nat)
    requires lo <= mid && Ordered(p, steps, mid, hi)
    ensures Ordered(p, steps, lo, hi)
  {
  }

  lemma OrderedOptional(p: Params, present: bool, step: Step)
    ensures Ordered(p, Optional(present, step.from, step.kind), Place(p, step), Place(p, step) + 1)
  {
    if present {
      assert [step][1..] == [];
    }
  }

  /** Steps that are there or not, at places that follow each other, extend an ordered flow. */
  lemma OrderedMore(p: Params, a: seq<Step>, lo: nat, present: bool, step: Step)
    requires Ordered(p, a, lo, Place(p, step))
    ensures Ordered(p, a + Optional(present, step.from, step.kind), lo, Place(p, step) + 1)
  {
    OrderedOptional(p, present, step);
    OrderedAppend(p, a, Optional(present, step.from, step.kind), lo, Place(p, step), Place(p, step) + 1);
  }

  lemma ServerFlightOrdered(p: Params)
    ensures Ordered(p, ServerFlight(p), 3, 8)
  {
    var s1 := Optional(p.certAuth, Server, Certificate);
    var s2 := s1 + Optional(p.certAuth && p.certStatus, Server, CertificateStatus);
    var s3 := s2 + Optional(p.keyExchangeSent, Server, ServerKeyExchange);
    var s4 := s3 + Optional(p.certRequest, Server, CertificateRequest);
    OrderedOptional(p, p.certAuth, Step(Server, Certificate));
    OrderedMore(p, s1, 3, p.certAuth && p.certStatus, Step(Server, CertificateStatus));
    OrderedMore(p, s2, 3, p.keyExchangeSent, Step(Server, ServerKeyExchange));
    OrderedMore(p, s3, 3, p.certRequest, Step(Server, CertificateRequest));
    OrderedMore(p, s4, 3, true, Step(Server, ServerHelloDone));
  }

  lemma ClientFlightOrdered(p: Params)
    ensures Ordered(p, ClientFlight(p), 11, 14)
  {
    var c1 := Optional(p.certRequest, Client, Certificate);
    OrderedOptional(p, p.certRequest, Step(Client, Certificate));
    OrderedMore(p, c1, 11, true, Step(Client, ClientKeyExchange));
    OrderedMore(p, c1 + [Step(Client, ClientKeyExchange)], 11, p.clientCert, Step(Client, CertificateVerify));
  }

  lemma ClientFinishOrdered(p: Params)
    ensures Ordered(p, ClientFinish(p), 21, 25)
  {
    var f1 := [Step(Client, ChangeCipherSpec)];
    var f2 := f1 + Optional(p.nextProto, Client, NextProto);
    OrderedOptional(p, true, Step(Client, ChangeCipherSpec));
    OrderedMore(p, f1, 21, p.nextProto, Step(Client, NextProto));
    OrderedMore(p, f2, 21, p.channelId, Step(Client, ChannelId));
    OrderedMore(p, f2 + Optional(p.channelId, Client, ChannelId), 21, true, Step(Client, Finished));
  }

  lemma ServerFinishOrdered(p: Params)
    ensures if p.resumed then Ordered(p, ServerFinish(p), 15, 18) else Ordered(p, ServerFinish(p), 31, 34)
  {
    var ticket := Optional(p.ticket, Server, NewSessionTicket);
    var ccs, finished := Step(Server, ChangeCipherSpec), Step(Server, Finished);
    var lo := if p.resumed then 15 else 31;
    OrderedOptional(p, p.ticket, Step(Server, NewSessionTicket));
    OrderedMore(p, ticket, lo, true, ccs);
    OrderedMore(p, ticket + [ccs], lo, true, finished);
    assert ticket + [ccs] + [finished] == ServerFinish(p);
  }

  lemma FlowOrdered(p: Params)
    ensures Ordered(p, Flow(p), 1, 34)
  {
    var hello := [Step(Client, ClientHello), Step(Server, ServerHello)];
    assert Ordered(p, hello, 1, 3) by {
      assert hello[1..] == [Step(Server, ServerHello)];
      OrderedOptional(p, true, Step(Server, ServerHello));
    }
    ClientFinishOrdered(p);
    ServerFinishOrdered(p);
    if p.resumed {
      OrderedFrom(p, ServerFinish(p), 3, 15, 18);
      OrderedFrom(p, ClientFinish(p), 18, 21, 25);
      OrderedAppend(p, ServerFinish(p), ClientFinish(p), 3, 18, 25);
      OrderedAppend(p, hello, ServerFinish(p) + ClientFinish(p), 1, 3, 25);
      OrderedTo(p, Flow(p), 1, 25, 34);
    } else {
      FullFlowOrdered(p);
      OrderedAppend(p, hello, ServerFlight(p) + ClientFlight(p) + ClientFinish(p) + ServerFinish(p), 1, 3, 34);
    }
  }

  lemma FullFlowOrdered(p: Params)
    requires !p.resumed
    ensures Ordered(p, ServerFlight(p) + ClientFlight(p) + ClientFinish(p) + ServerFinish(p), 3, 34)
  {
    ServerFlightOrdered(p);
    ClientFlightOrdered(p);
    ClientFinishOrdered(p);
    ServerFinishOrdered(p);
    OrderedFrom(p, ClientFlight(p), 8, 11, 14);
    OrderedFrom(p, ClientFinish(p), 14, 21, 25);
    OrderedFrom(p, ServerFinish(p), 25, 31, 34);
    OrderedAppend(p, ServerFlight(p), ClientFlight(p), 3, 8, 14);
    OrderedAppend(p, ServerFlight(p) + ClientFlight(p), ClientFinish(p), 3, 14, 25);
    OrderedAppend(p, ServerFlight(p) + ClientFlight(p) + ClientFinish(p), ServerFinish(p), 3, 25, 34);
  }

  lemma {:induction false} OrderedTo(p: Params, steps: seq<Step>, lo: nat, mid: nat, hi: nat)
    requires mid <= hi && Ordered(p, steps, lo, mid)
    ensures Ordered(p, steps, lo, hi)
    decreases steps
  {
    if steps != [] {
      OrderedTo(p, steps[1..], Place(p, steps[0]) + 1, mid, hi);
    }
  }

  lemma {:induction false} OrderedPlaces(p: Params, steps: seq<Step>, lo: nat, hi: nat, i: nat, j: nat)
    requires Ordered(p, steps, lo, hi) && j < |steps|
    ensures lo <= Place(p, steps[j])
    ensures i < j ==> Place(p, steps[i]) < Place(p, steps[j])
    decreases steps
  {
    if j > 0 {
      OrderedPlaces(p, steps[1..], Place(p, steps[0]) + 1, hi, if i > 0 then i - 1 else 0, j - 1);
    }
  }

  /** No message is sent twice: the steps of a handshake are all different. */
  lemma EachStepOnce(p: Params, i: nat, j: nat)
    requires i < j < |Flow(p)|
    ensures Flow(p)[i] != Flow(p)[j]
  {
    FlowOrdered(p);
    OrderedPlaces(p, Flow(p), 1, 34, i, j);
  }
}
