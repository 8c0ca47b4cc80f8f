/**
 The message flow of a TLS 1.2 handshake (sections 7.3 and 7.4 of RFC 5246) and what it is for one
 side to follow it.
 */
module Handshake {
  import opened Basics

  datatype Side = Client | Server

  datatype Kind =
    | ClientHello | ServerHello | Certificate | CertificateStatus | ServerKeyExchange
    | CertificateRequest | ServerHelloDone | ClientKeyExchange | CertificateVerify
    | NextProto | ChannelId | Finished | NewSessionTicket | ChangeCipherSpec

  /** A handshake message, or a ChangeCipherSpec record. The body of a Certificate message from the
      client is 0 exactly when it holds no certificate. */
  datatype Item = Item(kind: Kind, body: nat)

  /** What the two sides negotiated, and the Finished MAC as a function of the transcript. */
  datatype Params = Params(
    resumed: bool,
    certAuth: bool,
    certStatus: bool,
    keyExchangeRequired: bool,
    keyExchangeSent: bool,
    certRequest: bool,
    clientCert: bool,
    nextProto: bool,
    channelId: bool,
    ticket: bool,
    mac: (seq<Item>, Side) -> nat)

  /** A certificate is requested only of certificate ciphers, and sent only on request; a
      ServerKeyExchange may be optional, but not missing where the cipher needs it. */
  predicate Consistent(p: Params) {
    && (p.certRequest ==> p.certAuth)
    && (p.clientCert ==> p.certRequest)
    && (p.keyExchangeRequired ==> p.keyExchangeSent)
  }

  // ----- The flow -----

  datatype Step = Step(from: Side, kind: Kind)

  function Optional(present: bool, from: Side, kind: Kind): seq<Step> {
    if present then [Step(from, kind)] else []
  }

  /** The client's last flight. */
  function ClientFinish(p: Params): seq<Step> {
    [Step(Client, ChangeCipherSpec)] + Optional(p.nextProto, Client, NextProto)
    + Optional(p.channelId, Client, ChannelId) + [Step(Client, Finished)]
  }

  /** The server's last flight. */
  function ServerFinish(p: Params): seq<Step> {
    Optional(p.ticket, Server, NewSessionTicket)
    + [Step(Server, ChangeCipherSpec), Step(Server, Finished)]
  }

  function ServerFlight(p: Params): seq<Step> {
    Optional(p.certAuth, Server, Certificate)
    + Optional(p.certAuth && p.certStatus, Server, CertificateStatus)
    + Optional(p.keyExchangeSent, Server, ServerKeyExchange)
    + Optional(p.certRequest, Server, CertificateRequest)
    + [Step(Server, ServerHelloDone)]
  }

  function ClientFlight(p: Params): seq<Step> {
    Optional(p.certRequest, Client, Certificate)
    + [Step(Client, ClientKeyExchange)]
    + Optional(p.clientCert, Client, CertificateVerify)
  }

  /** The whole handshake. A resumed one is short, and the server finishes first. */
  function Flow(p: Params): seq<Step> {
    [Step(Client, ClientHello), Step(Server, ServerHello)]
    + if p.resumed then ServerFinish(p) + ClientFinish(p)
      else ServerFlight(p) + ClientFlight(p) + ClientFinish(p) + ServerFinish(p)
  }

  /** A flow that starts with a step, if the step is there at all. */
  lemma FirstStep(present: bool, x: Step, rest: seq<Step>, flow: seq<Step>)
    requires flow == Optional(present, x.from, x.kind) + rest
    ensures if present then flow != [] && flow[0] == x && flow[1..] == rest else flow == rest
  {
  }

  lemma TwoSteps(a: seq<Step>, x: Step, y: Step, rest: seq<Step>)
    ensures a + [x] + ([y] + rest) == a + [x, y] + rest
    ensures [x] + ([y] + rest) == [x, y] + rest
  {
  }

  lemma FourParts(a: seq<Step>, b: seq<Step>, c: seq<Step>, d: seq<Step>)
    ensures a + (b + (c + d)) == a + b + c + d
  {
  }

  lemma ClientFinishSteps(p: Params, rest: seq<Step>)
    ensures ClientFinish(p) + rest == [Step(Client, ChangeCipherSpec)] + AfterClientCcs(p, rest)
  {
  }

  function AfterClientCcs(p: Params, rest: seq<Step>): seq<Step> {
    Optional(p.nextProto, Client, NextProto) + AfterNextProto(p, rest)
  }

  function AfterNextProto(p: Params, rest: seq<Step>): seq<Step> {
    Optional(p.channelId, Client, ChannelId) + ([Step(Client, Finished)] + rest)
  }

  // ----- One side of it -----

  /** What one side has yet to do, its transcript (the handshake messages sent and received, without
      ChangeCipherSpec records), and what it reads from and writes to. */
  datatype Peer = Peer(side: Side, rest: seq<Step>, transcript: seq<Item>, inbox: seq<Item>, outbox: seq<Item>)

  function Hashed(x: Item): seq<Item> {
    if x.kind == ChangeCipherSpec then [] else [x]
  }

  /** The item is of the kind of a step, and a client's certificate chain is empty just when the
      client has no certificate. */
  predicate Expected(p: Params, step: Step, x: Item) {
    step.kind == x.kind && (step == Step(Client, Certificate) ==> (x.body == 0 <==> !p.clientCert))
  }

  /** Item `x` may come next: it is what the flow has next, it is what arrived if the
      other side sends it, and a Finished holds the MAC of the transcript before it. */
  ghost predicate MayPlay(p: Params, a: Peer, x: Item) {
    && a.rest != [] && Expected(p, a.rest[0], x)
    && (a.rest[0].from != a.side ==> a.inbox != [] && a.inbox[0] == x)
    && (x.kind == Finished ==> x.body == p.mac(a.transcript, a.rest[0].from))
  }

  function PlayOne(a: Peer, x: Item): Peer
    requires a.rest != [] && (a.rest[0].from != a.side ==> a.inbox != [])
  {
    if a.rest[0].from == a.side then
      a.(rest := a.rest[1..], transcript := a.transcript + Hashed(x), outbox := a.outbox + [x])
    else
      a.(rest := a.rest[1..], transcript := a.transcript + Hashed(x), inbox := a.inbox[1..])
  }

  /** The side after `left`, the front of its flight, was sent. */
  function Without(a: Peer, left: seq<Item>): Peer {
    if |left| <= |a.outbox| then a.(outbox := a.outbox[|left|..]) else a
  }

  /** From `a` the side gets to `b` by sending and receiving items as the flow has them. */
  ghost predicate Plays(p: Params, a: Peer, items: seq<Item>, b: Peer)
    decreases items
  {
    if items == [] then a == b
    else MayPlay(p, a, items[0]) && Plays(p, PlayOne(a, items[0]), items[1..], b)
  }

  ghost predicate Reaches(p: Params, a: Peer, b: Peer) {
    exists items :: Plays(p, a, items, b)
  }

  lemma ReachesSelf(p: Params, a: Peer)
    ensures Reaches(p, a, a)
  {
    assert Plays(p, a, [], a);
  }

  lemma {:induction false} PlaysAppend(p: Params, a: Peer, items: seq<Item>, m: Peer, x: Item)
    requires Plays(p, a, items, m) && MayPlay(p, m, x)
    ensures Plays(p, a, items + [x], PlayOne(m, x))
    decreases items
  {
    if items == [] {
      assert Plays(p, PlayOne(m, x), [], PlayOne(m, x));
      assert ([] + [x])[1..] == [];
    } else {
      assert (items + [x])[1..] == items[1..] + [x];
      PlaysAppend(p, PlayOne(a, items[0]), items[1..], m, x);
    }
  }

  lemma ReachesMore(p: Params, a: Peer, m: Peer, x: Item)
    requires Reaches(p, a, m) && MayPlay(p, m, x)
    ensures Reaches(p, a, PlayOne(m, x))
  {
    var items :| Plays(p, a, items, m);
    PlaysAppend(p, a, items, m, x);
  }

  // ----- Sides that agree -----

  /** What arrived first is what the flow has next, and the flow has it of the other side. */
  ghost predicate NextFits(p: Params, a: Peer) {
    a.inbox != [] ==> a.rest != [] && a.rest[0].from != a.side && MayPlay(p, a, a.inbox[0])
  }

  /** All that arrived can be read, one item after the other. */
  ghost predicate Aligned(p: Params, a: Peer)
    decreases a.inbox
  {
    NextFits(p, a) && (a.inbox != [] ==> Aligned(p, PlayOne(a, a.inbox[0])))
  }

  /** It does not matter what arrives after it. */
  lemma {:induction false} AlignedPrefix(p: Params, a: Peer, b: Peer, more: seq<Item>)
    requires Aligned(p, b) && b.inbox == a.inbox + more
    requires a.side == b.side && a.rest == b.rest && a.transcript == b.transcript
    ensures Aligned(p, a)
    decreases a.inbox
  {
    if a.inbox != [] {
      assert b.inbox[1..] == a.inbox[1..] + more;
      AlignedPrefix(p, PlayOne(a, a.inbox[0]), PlayOne(b, b.inbox[0]), more);
    }
  }

  lemma PlayAligned(p: Params, a: Peer, x: Item)
    requires Aligned(p, a) && MayPlay(p, a, x)
    ensures Aligned(p, PlayOne(a, x))
  {
  }

  lemma {:induction false} PlaysAligned(p: Params, a: Peer, items: seq<Item>, b: Peer)
    requires Aligned(p, a) && Plays(p, a, items, b)
    ensures b.side == a.side && Aligned(p, b)
    decreases items
  {
    if items != [] {
      PlayAligned(p, a, items[0]);
      PlaysAligned(p, PlayOne(a, items[0]), items[1..], b);
    }
  }

  lemma ReachesAligned(p: Params, a: Peer, b: Peer)
    requires Aligned(p, a) && Reaches(p, a, b)
    ensures b.side == a.side && Aligned(p, b)
  {
    var items :| Plays(p, a, items, b);
    PlaysAligned(p, a, items, b);
  }

  lemma {:induction false} PlaysTogether(p: Params, a: Peer, items: seq<Item>, b: Peer, more: seq<Item>, c: Peer)
    requires Plays(p, a, items, b) && Plays(p, b, more, c)
    ensures Plays(p, a, items + more, c)
    decreases items
  {
    if items == [] {
      assert items + more == more;
    } else {
      assert (items + more)[1..] == items[1..] + more;
      PlaysTogether(p, PlayOne(a, items[0]), items[1..], b, more, c);
    }
  }

  lemma ReachesTogether(p: Params, a: Peer, b: Peer, c: Peer)
    requires Reaches(p, a, b) && Reaches(p, b, c)
    ensures Reaches(p, a, c)
  {
    var items :| Plays(p, a, items, b);
    var more :| Plays(p, b, more, c);
    PlaysTogether(p, a, items, b, more, c);
  }

  // ----- What a handshake is waiting for -----

  /** ssl_hs_wait_t; the operations that only make the caller come back are all alike here. */
  datatype Wait = Continue | Error | Flush | ReadMessage | ReadChangeCipherSpec | EarlyReturn | Pending

  /** How far a wait is from being resolved for good. */
  function Weight(w: Wait): nat {
    match w
    case Pending => 2
    case EarlyReturn => 2
    case Continue => 1
    case Flush => 1
    case ReadChangeCipherSpec => 1
    case ReadMessage => 0
    case Error => 0
  }

  /** What the environment decides during one step: whether the next message has arrived, whether an
      operation is to be retried or fails, and the bodies of messages to send. */
  datatype Choice = Choice(arrived: bool, retry: bool, fail: bool, body: nat, body2: nat)

  /** get_message: the next message, if it is there. */
  function Peek(incoming: seq<Item>, ch: Choice): (m: Option<Item>)
    ensures m.Some? ==> incoming != [] && m.value == incoming[0] && m.value.kind != ChangeCipherSpec
  {
    if !ch.arrived || incoming == [] || incoming[0].kind == ChangeCipherSpec then None else Some(incoming[0])
  }

  /** The environment neither delays nor fails the step. */
  predicate Kindly(ch: Choice) {
    ch.arrived && !ch.retry && !ch.fail
  }

  const KIND := Choice(true, false, false, 0, 0)

  /** What the transport does during one turn of the driver: whether a record can be read, how many
      items of the flight it takes, and whether flushing it succeeds. */
  datatype Transport = Transport(arrived: bool, taken: nat, flushed: bool)

  /** The next message is of this kind. */
  predicate NextIs(incoming: seq<Item>, kind: Kind) {
    incoming != [] && incoming[0].kind == kind
  }

  /** What is taken of the messages that arrived: the first, if any. */
  function Front(incoming: seq<Item>, taken: bool): seq<Item> {
    if taken && incoming != [] then [incoming[0]] else []
  }

  function OptionalItem(present: bool, kind: Kind, body: nat): seq<Item> {
    if present then [Item(kind, body)] else []
  }

  // ----- Every state is left at most once -----

  /** The states of a run: each step keeps the state or decreases its rank. */
  ghost predicate Descends<S(!new)>(rank: S -> nat, states: seq<S>) {
    forall i: nat | i + 1 < |states| :: Descent(rank, states, i)
  }

  ghost predicate Descent<S(!new)>(rank: S -> nat, states: seq<S>, i: nat)
    requires i + 1 < |states|
  {
    states[i + 1] == states[i] || rank(states[i + 1]) < rank(states[i])
  }

  lemma DescendsMore<S(!new)>(rank: S -> nat, states: seq<S>, next: S)
    requires states != [] && Descends(rank, states)
    requires next == states[|states| - 1] || rank(next) < rank(states[|states| - 1])
    ensures Descends(rank, states + [next])
  {
    forall i: nat | i + 1 < |states + [next]|
      ensures Descent(rank, states + [next], i)
    {
      assert i + 1 < |states| ==> Descent(rank, states, i);
    }
  }

  /** The states of one call after another: where the first ends, the second begins. */
  lemma {:induction false} DescendsJoin<S(!new)>(rank: S -> nat, first: seq<S>, second: seq<S>)
    requires first != [] && second != [] && first[|first| - 1] == second[0]
    requires Descends(rank, first) && Descends(rank, second)
    ensures Descends(rank, first + second[1..])
    decreases second
  {
    if |second| == 1 {
      assert first + second[1..] == first;
    } else {
      assert Descent(rank, second, 0);
      DescendsMore(rank, first, second[1]);
      assert Descends(rank, second[1..]) by {
        forall i: nat | i + 1 < |second[1..]|
          ensures Descent(rank, second[1..], i)
        {
          assert Descent(rank, second, i + 1);
        }
      }
      DescendsJoin(rank, first + [second[1]], second[1..]);
      assert first + [second[1]] + second[1..][1..] == first + second[1..];
    }
  }

  lemma {:induction false} NeverBack<S(!new)>(rank: S -> nat, states: seq<S>, i: nat, j: nat)
    requires Descends(rank, states) && i < j < |states|
    ensures states[j] == states[i] || rank(states[j]) < rank(states[i])
    decreases j
  {
    assert Descent(rank, states, j - 1);
    if i < j - 1 {
      NeverBack(rank, states, i, j - 1);
    }
  }

  /** A state that was left is never entered again; retries only repeat a state. */
  lemma LeftOnce<S(!new)>(rank: S -> nat, states: seq<S>, i: nat, j: nat, k: nat)
    requires Descends(rank, states) && i < j < k < |states| && states[j] != states[i]
    ensures states[k] != states[i]
  {
    NeverBack(rank, states, i, j);
    NeverBack(rank, states, j, k);
  }
}
