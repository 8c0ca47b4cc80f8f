/** The TLS 1.2 server's handshake (handshake_server.cc) as an object whose state changes in place. */
module HandshakeServer {
  import opened Basics
  import opened Handshake

  datatype State =
    | StartAccept | ReadClientHello | SelectCertificate | SelectParameters | SendServerHello
    | SendServerCertificate | SendServerKeyExchange | SendServerHelloDone | ReadClientCertificate
    | VerifyClientCertificate | ReadClientKeyExchange | ReadClientCertificateVerify
    | ReadClientChangeCipherSpec | ProcessChangeCipherSpec | ReadNextProto | ReadChannelId
    | ReadClientFinished | SendServerFinished | FinishServerHandshake | Done

  /** A rank that every change of state decreases. In a resumed handshake the server finishes first. */
  function Rank(p: Params, s: State): nat {
    match s
    case StartAccept => 20
    case ReadClientHello => 19
    case SelectCertificate => 18
    case SelectParameters => 17
    case SendServerHello => 16
    case SendServerCertificate => 15
    case SendServerKeyExchange => 14
    case SendServerHelloDone => 13
    case ReadClientCertificate => 12
    case VerifyClientCertificate => 11
    case ReadClientKeyExchange => 10
    case ReadClientCertificateVerify => 9
    case ReadClientChangeCipherSpec => 7
    case ProcessChangeCipherSpec => 6
    case ReadNextProto => 5
    case ReadChannelId => 4
    case ReadClientFinished => 3
    case SendServerFinished => if p.resumed then 8 else 2
    case FinishServerHandshake => 1
    case Done => 0
  }

  function RankIn(p: Params): State -> nat {
    s => Rank(p, s)
  }

  /** What is left of the flow in each state, by the state that comes next. */
  function RestOf(p: Params, s: State): seq<Step>
    decreases Rank(p, s)
  {
    match s
    case StartAccept => RestOf(p, ReadClientHello)
    case ReadClientHello => RestOf(p, SelectCertificate)
    case SelectCertificate => RestOf(p, SelectParameters)
    case SelectParameters => [Step(Client, ClientHello)] + RestOf(p, SendServerHello)
    case SendServerHello =>
      [Step(Server, ServerHello)] + RestOf(p, if p.resumed then SendServerFinished else SendServerCertificate)
    case SendServerCertificate =>
      Optional(p.certAuth, Server, Certificate)
      + (Optional(p.certAuth && p.certStatus, Server, CertificateStatus) + RestOf(p, SendServerKeyExchange))
    case SendServerKeyExchange =>
      Optional(p.keyExchangeSent, Server, ServerKeyExchange) + RestOf(p, SendServerHelloDone)
    case SendServerHelloDone =>
      Optional(p.certRequest, Server, CertificateRequest)
      + ([Step(Server, ServerHelloDone)] + RestOf(p, ReadClientCertificate))
    case ReadClientCertificate => Optional(p.certRequest, Client, Certificate) + RestOf(p, VerifyClientCertificate)
    case VerifyClientCertificate => RestOf(p, ReadClientKeyExchange)
    case ReadClientKeyExchange => [Step(Client, ClientKeyExchange)] + RestOf(p, ReadClientCertificateVerify)
    case ReadClientCertificateVerify =>
      Optional(p.clientCert, Client, CertificateVerify) + RestOf(p, ReadClientChangeCipherSpec)
    case ReadClientChangeCipherSpec => [Step(Client, ChangeCipherSpec)] + RestOf(p, ProcessChangeCipherSpec)
    case ProcessChangeCipherSpec => RestOf(p, ReadNextProto)
    case ReadNextProto => Optional(p.nextProto, Client, NextProto) + RestOf(p, ReadChannelId)
    case ReadChannelId => Optional(p.channelId, Client, ChannelId) + RestOf(p, ReadClientFinished)
    case ReadClientFinished =>
      [Step(Client, Finished)] + RestOf(p, if p.resumed then FinishServerHandshake else SendServerFinished)
    case SendServerFinished =>
      Optional(p.ticket, Server, NewSessionTicket)
      + ([Step(Server, ChangeCipherSpec)] + ([Step(Server, Finished)]
         + RestOf(p, if p.resumed then ReadClientChangeCipherSpec else FinishServerHandshake)))
    case FinishServerHandshake => RestOf(p, Done)
    case Done => []
  }

  /** A ChangeCipherSpec record may be due before the state goes on. */
  function Rest(p: Params, s: State, ccsDue: bool): seq<Step> {
    if ccsDue then [Step(Client, ChangeCipherSpec)] + RestOf(p, s) else RestOf(p, s)
  }

  /** In a state, a step may be due, after which the flow goes on as in the next one. */
  ghost predicate Leads(p: Params, s: State, due: bool, x: Step, next: State) {
    if due then RestOf(p, s) != [] && RestOf(p, s)[0] == x && RestOf(p, s)[1..] == RestOf(p, next)
    else RestOf(p, s) == RestOf(p, next)
  }

  lemma ReadingNext(p: Params)
    ensures Leads(p, ReadClientCertificate, p.certRequest, Step(Client, Certificate), VerifyClientCertificate)
    ensures Leads(p, ReadClientKeyExchange, true, Step(Client, ClientKeyExchange), ReadClientCertificateVerify)
    ensures Leads(p, ReadClientCertificateVerify, p.clientCert, Step(Client, CertificateVerify),
                  ReadClientChangeCipherSpec)
    ensures Leads(p, ReadNextProto, p.nextProto, Step(Client, NextProto), ReadChannelId)
    ensures Leads(p, ReadChannelId, p.channelId, Step(Client, ChannelId), ReadClientFinished)
  {
    FirstStep(p.certRequest, Step(Client, Certificate), RestOf(p, VerifyClientCertificate),
              RestOf(p, ReadClientCertificate));
    FirstStep(true, Step(Client, ClientKeyExchange), RestOf(p, ReadClientCertificateVerify),
              RestOf(p, ReadClientKeyExchange));
    FirstStep(p.clientCert, Step(Client, CertificateVerify), RestOf(p, ReadClientChangeCipherSpec),
              RestOf(p, ReadClientCertificateVerify));
    FirstStep(p.nextProto, Step(Client, NextProto), RestOf(p, ReadChannelId), RestOf(p, ReadNextProto));
    FirstStep(p.channelId, Step(Client, ChannelId), RestOf(p, ReadClientFinished), RestOf(p, ReadChannelId));
  }

  lemma FinishedNext(p: Params)
    ensures Leads(p, ReadClientFinished, true, Step(Client, Finished),
                  if p.resumed then FinishServerHandshake else SendServerFinished)
  {
    FirstStep(true, Step(Client, Finished), RestOf(p, if p.resumed then FinishServerHandshake else SendServerFinished),
              RestOf(p, ReadClientFinished));
  }

  /** What the sending states have to send, and what is left then. */
  lemma SendingNext(p: Params)
    ensures RestOf(p, SendServerHello)
         == Optional(true, Server, ServerHello) + RestOf(p, if p.resumed then SendServerFinished else SendServerCertificate)
    ensures RestOf(p, SendServerCertificate)
         == Optional(p.certAuth, Server, Certificate)
            + (Optional(p.certAuth && p.certStatus, Server, CertificateStatus) + RestOf(p, SendServerKeyExchange))
    ensures RestOf(p, SendServerKeyExchange)
         == Optional(p.keyExchangeSent, Server, ServerKeyExchange) + RestOf(p, SendServerHelloDone)
    ensures RestOf(p, SendServerHelloDone)
         == Optional(p.certRequest, Server, CertificateRequest)
            + (Optional(true, Server, ServerHelloDone) + RestOf(p, ReadClientCertificate))
  {
  }

  lemma ClientFinishIsRest(p: Params)
    ensures RestOf(p, ReadClientChangeCipherSpec)
         == ClientFinish(p) + if p.resumed then [] else RestOf(p, SendServerFinished)
  {
    var last := if p.resumed then [] else RestOf(p, SendServerFinished);
    assert RestOf(p, FinishServerHandshake) == RestOf(p, Done);
    assert RestOf(p, ReadClientFinished) == [Step(Client, Finished)] + last;
    assert RestOf(p, ReadChannelId) == AfterNextProto(p, last);
    assert RestOf(p, ReadNextProto) == AfterClientCcs(p, last);
    ClientFinishSteps(p, last);
  }

  lemma ServerFinishIsRest(p: Params)
    ensures RestOf(p, SendServerFinished)
         == ServerFinish(p) + if p.resumed then RestOf(p, ReadClientChangeCipherSpec) else []
  {
    var last := if p.resumed then RestOf(p, ReadClientChangeCipherSpec) else [];
    assert RestOf(p, FinishServerHandshake) == RestOf(p, Done);
    var ticket := Optional(p.ticket, Server, NewSessionTicket);
    var ccs, finished := Step(Server, ChangeCipherSpec), Step(Server, Finished);
    TwoSteps(ticket, ccs, finished, last);
    Associative(ticket, [ccs], [finished] + last);
  }

  lemma ClientFlightIsRest(p: Params)
    ensures RestOf(p, ReadClientCertificate) == ClientFlight(p) + RestOf(p, ReadClientChangeCipherSpec)
  {
    assert RestOf(p, ReadClientKeyExchange)
        == [Step(Client, ClientKeyExchange)]
           + (Optional(p.clientCert, Client, CertificateVerify) + RestOf(p, ReadClientChangeCipherSpec));
    assert RestOf(p, VerifyClientCertificate) == RestOf(p, ReadClientKeyExchange);
  }

  lemma ServerFlightIsRest(p: Params)
    ensures RestOf(p, SendServerCertificate) == ServerFlight(p) + RestOf(p, ReadClientCertificate)
  {
    var done := Optional(p.certRequest, Server, CertificateRequest)
                + ([Step(Server, ServerHelloDone)] + RestOf(p, ReadClientCertificate));
    assert RestOf(p, SendServerHelloDone) == done;
    assert RestOf(p, SendServerKeyExchange) == Optional(p.keyExchangeSent, Server, ServerKeyExchange) + done;
  }

  /** From the start, the server has the whole handshake before it. */
  lemma StartIsFlow(p: Params)
    ensures RestOf(p, StartAccept) == Flow(p)
  {
    ClientFinishIsRest(p);
    ServerFinishIsRest(p);
    ClientFlightIsRest(p);
    ServerFlightIsRest(p);
    FourParts(ServerFlight(p), ClientFlight(p), ClientFinish(p), ServerFinish(p));
    assert ServerFinish(p) + [] == ServerFinish(p) && ClientFinish(p) + [] == ClientFinish(p);
    var after := RestOf(p, if p.resumed then SendServerFinished else SendServerCertificate);
    assert RestOf(p, SendServerHello) == [Step(Server, ServerHello)] + after;
    TwoSteps([], Step(Client, ClientHello), Step(Server, ServerHello), after);
    assert RestOf(p, StartAccept) == RestOf(p, SelectCertificate);
    assert RestOf(p, SelectCertificate) == RestOf(p, SelectParameters);
  }

  /** The states that are left only after the client's Finished was checked. */
  predicate PastFinished(p: Params, s: State) {
    s in {FinishServerHandshake, Done} || (!p.resumed && s == SendServerFinished)
  }

  predicate PastChangeCipherSpec(p: Params, s: State) {
    s in {ReadNextProto, ReadChannelId, ReadClientFinished} || PastFinished(p, s)
  }

  /** The states that only a full handshake goes through. */
  predicate FullOnly(p: Params, s: State) {
    9 <= Rank(p, s) <= 15
  }

  /** The state after each. */
  function Next(p: Params, s: State): State {
    match s
    case StartAccept => ReadClientHello
    case ReadClientHello => SelectCertificate
    case SelectCertificate => SelectParameters
    case SelectParameters => SendServerHello
    case SendServerHello => if p.resumed then SendServerFinished else SendServerCertificate
    case SendServerCertificate => SendServerKeyExchange
    case SendServerKeyExchange => SendServerHelloDone
    case SendServerHelloDone => ReadClientCertificate
    case ReadClientCertificate => VerifyClientCertificate
    case VerifyClientCertificate => ReadClientKeyExchange
    case ReadClientKeyExchange => ReadClientCertificateVerify
    case ReadClientCertificateVerify => ReadClientChangeCipherSpec
    case ReadClientChangeCipherSpec => ProcessChangeCipherSpec
    case ProcessChangeCipherSpec => ReadNextProto
    case ReadNextProto => ReadChannelId
    case ReadChannelId => ReadClientFinished
    case ReadClientFinished => if p.resumed then FinishServerHandshake else SendServerFinished
    case SendServerFinished => if p.resumed then ReadClientChangeCipherSpec else FinishServerHandshake
    case FinishServerHandshake => Done
    case Done => Done
  }

  /** The states that a handshake goes through. */
  predicate OnPath(p: Params, s: State) {
    p.resumed ==> !FullOnly(p, s)
  }

  /** The states whose operation is not left out, when the client sent a certificate (`key`) and when it
      did not: that certificate is verified, and so is the signature made with its key. */
  predicate Demands(p: Params, key: bool, s: State) {
    match s
    case StartAccept => false
    case SendServerKeyExchange => p.keyExchangeSent
    case ReadClientCertificate => p.certRequest
    case VerifyClientCertificate => key
    case ReadClientCertificateVerify => key
    case ReadClientChangeCipherSpec => false
    case ReadNextProto => p.nextProto
    case ReadChannelId => p.channelId
    case FinishServerHandshake => false
    case Done => false
    case _ => true
  }

  /** Nothing lies between a state and the next one. */
  lemma NextAdjacent(p: Params, s: State, t: State)
    requires OnPath(p, s) && OnPath(p, t)
    ensures OnPath(p, Next(p, s))
    ensures Rank(p, t) < Rank(p, s) ==> Rank(p, t) <= Rank(p, Next(p, s)) < Rank(p, s)
    ensures Rank(p, t) == Rank(p, s) ==> t == s
  {
  }

  /** The operation may be one that is not finished at once, such as the choice of a certificate, an operation
      on the private key or a verification by the application. */
  predicate MayWait(s: State) {
    s !in {SendServerHello, SendServerCertificate, SendServerHelloDone, ProcessChangeCipherSpec, ReadClientFinished,
           SendServerFinished}
  }

  /** It fails, or is not finished yet. */
  predicate Denied(s: State, ch: Choice) {
    ch.fail || (ch.retry && MayWait(s))
  }

  /** The environment denies an operation of the handshake that is not left out. */
  predicate Fails(p: Params, env: State -> Choice, key: bool, s: State) {
    OnPath(p, s) && Demands(p, key, s) && Denied(s, env(s))
  }

  /** Every such state after `from` in which the operation is denied still lies ahead of `to`, or is `to`. */
  ghost predicate HeldBack(p: Params, env: State -> Choice, key: bool, from: State, to: State) {
    forall s | Fails(p, env, key, s) && Rank(p, s) <= Rank(p, from) :: Rank(p, s) <= Rank(p, to)
  }

  lemma HeldStep(p: Params, env: State -> Choice, key: bool, from: State, s: State)
    requires HeldBack(p, env, key, from, s) && OnPath(p, s) && !Fails(p, env, key, s)
    ensures HeldBack(p, env, key, from, Next(p, s))
  {
    forall t | Fails(p, env, key, t) && Rank(p, t) <= Rank(p, from)
      ensures Rank(p, t) <= Rank(p, Next(p, s))
    {
      NextAdjacent(p, s, t);
    }
  }

  /** So a client certificate that fails its verification, or a signature that does not match it, stops the
      server there. */
  lemma BadClientStops(p: Params, env: State -> Choice, from: State, to: State)
    requires HeldBack(p, env, true, from, to) && !p.resumed
    ensures Rank(p, from) >= 11 && (env(VerifyClientCertificate).fail || env(VerifyClientCertificate).retry) ==>
              Rank(p, to) >= 11
    ensures Rank(p, from) >= 9 && env(ReadClientCertificateVerify).fail ==> Rank(p, to) >= 9
  {
    assert env(VerifyClientCertificate).fail || env(VerifyClientCertificate).retry ==>
        Fails(p, env, true, VerifyClientCertificate);
    assert env(ReadClientCertificateVerify).fail ==> Fails(p, env, true, ReadClientCertificateVerify);
  }

  /** The states whose operations were carried out on the way to `s`: all that are not left out, each
      once and in order. */
  ghost predicate CarriedOut(p: Params, carried: seq<State>, key: bool, s: State) {
    && (forall t | OnPath(p, t) && Demands(p, key, t) && Rank(p, s) < Rank(p, t) :: t in carried)
    && (forall i | 0 <= i < |carried| :: Rank(p, s) < Rank(p, carried[i]))
    && forall i, j | 0 <= i < j < |carried| :: Rank(p, carried[j]) < Rank(p, carried[i])
  }

  lemma CarriedStep(p: Params, carried: seq<State>, key: bool, s: State)
    requires CarriedOut(p, carried, key, s) && OnPath(p, s) && s != Done
    ensures CarriedOut(p, if Demands(p, key, s) then carried + [s] else carried, key, Next(p, s))
  {
    NextAdjacent(p, s, s);
    forall t | OnPath(p, t) && Demands(p, key, t) && Rank(p, Next(p, s)) < Rank(p, t)
      ensures t in if Demands(p, key, s) then carried + [s] else carried
    {
      NextAdjacent(p, s, t);
    }
    NextIsLower(p, s);
  }

  lemma NextIsLower(p: Params, s: State)
    requires OnPath(p, s) && s != Done
    ensures Rank(p, Next(p, s)) < Rank(p, s)
  {
  }

  lemma NothingCarried(p: Params)
    ensures CarriedOut(p, [], false, StartAccept)
  {
  }

  /** Only the states ahead need to know whether the client sent a certificate. */
  lemma KeyLearnt(p: Params, env: State -> Choice, carried: seq<State>, key: bool, key': bool, from: State)
    requires HeldBack(p, env, key, from, VerifyClientCertificate) && CarriedOut(p, carried, key, VerifyClientCertificate)
    ensures HeldBack(p, env, key', from, VerifyClientCertificate) && CarriedOut(p, carried, key', VerifyClientCertificate)
  {
    forall s | Fails(p, env, key', s) && Rank(p, s) <= Rank(p, from)
      ensures Rank(p, s) <= Rank(p, VerifyClientCertificate)
    {
      assert Fails(p, env, key, s) || Rank(p, s) <= 11;
    }
  }

  /** The messages of the server's last flight: an optional ticket, and its Finished over a transcript
      that holds it. */
  function LastMessages(p: Params, transcript: seq<Item>, ch: Choice): seq<Item> {
    var ticket := OptionalItem(p.ticket, NewSessionTicket, ch.body);
    ticket + [Item(Finished, p.mac(transcript + ticket, Server))]
  }

  /** The same with the ChangeCipherSpec record before the Finished. */
  function LastFlight(p: Params, transcript: seq<Item>, ch: Choice): seq<Item> {
    var ticket := OptionalItem(p.ticket, NewSessionTicket, ch.body);
    ticket + [Item(ChangeCipherSpec, 0)] + [Item(Finished, p.mac(transcript + ticket, Server))]
  }

  lemma NotHashed(p: Params, ch: Choice)
    ensures Hashed(Item(ChangeCipherSpec, 0)) == []
    ensures (if p.ticket then Hashed(Item(NewSessionTicket, ch.body)) else [])
         == OptionalItem(p.ticket, NewSessionTicket, ch.body)
  {
  }

  /** The states in which part of a flight may have been put together. */
  predicate Sending(s: State) {
    s in {SendServerCertificate, SendServerKeyExchange, SendServerHelloDone, SendServerFinished}
  }

  ghost predicate NeverFails(env: State -> Choice) {
    forall s :: !env(s).fail
  }

  ghost predicate AlwaysKind(env: State -> Choice) {
    forall s :: Kindly(env(s))
  }

  class Acceptor {
    /** What was negotiated. Whether the client has a certificate is only used to state what is left
        of the flow. */
    const p: Params
    var state: State
    /** What the driver has to wait for before the state machine goes on. */
    var wait: Wait
    var transcript: seq<Item>
    /** Messages and records that arrive, and those that were added to a flight. */
    var incoming: seq<Item>
    var outgoing: seq<Item>
    /** The client sent a certificate. */
    var hasPeerKey: bool
    /** Reading a record failed, so that it will not be tried again. */
    var readError: bool
    /** What is left of the flow. */
    ghost var rest: seq<Step>
    /** A ChangeCipherSpec record was read, and after it a Finished that matched. */
    ghost var ccsRead: bool
    ghost var finishedMatched: bool

    constructor (p: Params)
      ensures this.p == p && state == StartAccept && !hasPeerKey && Sound(false) && Tidy(Continue)
      ensures wait == Continue && View() == Peer(Server, Flow(p), [], [], [])
      ensures Consistent(p) ==> OnCourse(Continue)
    {
      this.p := p;
      wait, readError := Continue, false;
      state, transcript, incoming, outgoing, hasPeerKey := StartAccept, [], [], [], false;
      rest, ccsRead, finishedMatched := Flow(p), false, false;
      new;
      StartIsFlow(p);
    }

    ghost function View(): Peer
      reads this`rest, this`transcript, this`incoming, this`outgoing
    {
      Peer(Server, rest, transcript, incoming, outgoing)
    }

    /** Holds whatever the client sends: the last states are reached only past the checks. `ccsDue`
        says that the driver still has to read a ChangeCipherSpec record. */
    ghost predicate Sound(ccsDue: bool)
      reads this`state, this`ccsRead, this`finishedMatched
    {
      && (PastFinished(p, state) ==> finishedMatched)
      && (finishedMatched ==> ccsRead)
      && (p.resumed ==> !FullOnly(p, state))
      && (PastChangeCipherSpec(p, state) || (state == ProcessChangeCipherSpec && !ccsDue) ==> ccsRead)
    }

    /** Holds while the client follows the same flow. */
    ghost predicate Follows(ccsDue: bool)
      reads this`state, this`rest, this`hasPeerKey, this`readError
    {
      && Consistent(p)
      && rest == Rest(p, state, ccsDue) && !readError
      && (Rank(p, state) > 11 ==> !hasPeerKey)
      && (!p.resumed && Rank(p, state) <= 11 ==> hasPeerKey == p.clientCert)
    }

    /** Both sides follow the flow so far. */
    ghost predicate OnTrack()
      reads this`hasPeerKey, this`incoming, this`outgoing, this`readError, this`rest, this`state, this`transcript
    {
      Follows(false) && NextFits(p, View())
    }

    /** The flow has a message of the client's next. */
    ghost predicate AwaitsMessage()
      reads this`rest
    {
      rest != [] && rest[0].from == Client && rest[0].kind != ChangeCipherSpec
    }

    /** Nothing is left of a flight where the handshake waits to read or is done, nor anywhere but in
        the states that put a flight together and until it was flushed. */
    predicate Tidy(w: Wait)
      reads this`state, this`outgoing
    {
      && (w != Flush && !Sending(state) ==> outgoing == [])
      && (w == ReadMessage || w == ReadChangeCipherSpec ==> outgoing == [])
      && (state == Done ==> w == Continue)
    }

    /** What every step of the state machine guarantees: whatever the client sends, each change of
        state decreases the rank, and a step that fails changes nothing. While the client follows the
        flow, so does the server; then only the environment makes a step fail, and one that is kind
        holds up a step only to wait for a message that has not arrived. */
    ghost predicate Stepped(before: Peer, was: State, followed: bool, ch: Choice, w: Wait)
      reads this`ccsRead, this`finishedMatched, this`hasPeerKey, this`incoming, this`outgoing, this`readError
      reads this`rest, this`state, this`transcript
    {
      && Sound(w == ReadChangeCipherSpec) && Tidy(w)
      && (if state == was then w == ReadMessage || w == Error || w == Pending else Rank(p, state) < Rank(p, was))
      && (w == Error ==> state == was && View() == before)
      && (followed ==>
            && Follows(w == ReadChangeCipherSpec) && Reaches(p, before, View())
            && (w == ReadMessage ==> AwaitsMessage())
            && (!ch.fail ==> w != Error)
            && (Kindly(ch) ==> w != Pending && w != EarlyReturn && (state != was || before.inbox == [])))
    }

    /** A state is only left for the next one and, if its operation was to be carried out, only when
        that did not fail and is finished. Otherwise it has no effect. Whether the client has a key is
        settled in one state. */
    ghost predicate Heeds(before: Peer, was: State, key: bool, ch: Choice)
      reads this`state, this`transcript, this`outgoing, this`hasPeerKey
    {
      && (was != ReadClientCertificate || state == was ==> hasPeerKey == key)
      && (state != was ==>
            && state == Next(p, was)
            && (Denied(was, ch) ==> !Demands(p, key, was) && transcript == before.transcript && outgoing == before.outbox))
    }

    /** ssl_hash_message and next_message. */
    method Receive(m: Item, ghost before: Peer)
      requires incoming != [] && m == incoming[0] && m.kind != ChangeCipherSpec
      modifies this`transcript, this`incoming, this`rest
      ensures rest == if old(rest) == [] then [] else old(rest)[1..]
      ensures transcript == old(transcript) + [m] && incoming == old(incoming)[1..]
      ensures old(Reaches(p, before, View()) && MayPlay(p, View(), m) && rest[0].from == Client) ==>
                Reaches(p, before, View())
    {
      ghost var was := View();
      transcript := transcript + [m];
      incoming := incoming[1..];
      rest := if rest == [] then [] else rest[1..];
      if Reaches(p, before, was) && MayPlay(p, was, m) && was.rest[0].from == Client {
        ReachesMore(p, before, was, m);
      }
    }

    /** init_message and add_message, or add_change_cipher_spec. */
    method Send(x: Item, ghost before: Peer)
      modifies this`transcript, this`outgoing, this`rest
      ensures rest == (if old(rest) == [] then [] else old(rest)[1..])
      ensures transcript == old(transcript) + Hashed(x) && outgoing == old(outgoing) + [x]
      ensures old(Reaches(p, before, View()) && MayPlay(p, View(), x) && rest[0].from == Server) ==>
                Reaches(p, before, View())
    {
      ghost var was := View();
      transcript := transcript + Hashed(x);
      outgoing := outgoing + [x];
      rest := if rest == [] then [] else rest[1..];
      if Reaches(p, before, was) && MayPlay(p, was, x) && was.rest[0].from == Server {
        ReachesMore(p, before, was, x);
      }
    }

    /** Sending a message or record if it is there at all; `tail` is what the flow has after it. */
    method SendIf(present: bool, x: Item, ghost before: Peer, ghost tail: seq<Step>)
      requires x.kind != Finished
      modifies this`transcript, this`outgoing, this`rest
      ensures transcript == old(transcript) + if present then Hashed(x) else []
      ensures outgoing == old(outgoing) + OptionalItem(present, x.kind, x.body)
      ensures old(Reaches(p, before, View()) && rest == Optional(present, Server, x.kind) + tail) ==>
                rest == tail && Reaches(p, before, View())
    {
      if rest == Optional(present, Server, x.kind) + tail {
        FirstStep(present, Step(Server, x.kind), tail, rest);
      }
      if present {
        Send(x, before);
      }
    }

    /** ssl_send_finished */
    method SendFinished(ghost before: Peer)
      modifies this`transcript, this`outgoing, this`rest
      ensures rest == if old(rest) == [] then [] else old(rest)[1..]
      ensures var finished := Item(Finished, p.mac(old(transcript), Server));
              transcript == old(transcript) + [finished] && outgoing == old(outgoing) + [finished]
      ensures old(Reaches(p, before, View()) && rest != [] && rest[0] == Step(Server, Finished)) ==>
                Reaches(p, before, View())
    {
      Send(Item(Finished, p.mac(transcript, Server)), before);
    }

    /** What becomes of a step that reads a message of this kind. */
    static function Reading(incoming: seq<Item>, kind: Kind, ch: Choice): Wait {
      match Peek(incoming, ch)
      case None => ReadMessage
      case Some(m) => if m.kind != kind || ch.fail then Error else if ch.retry then Pending else Continue
    }

    /** What reading the next message and moving on comes to; `kind` is the only one accepted. */
    method ReadOne(kind: Kind, ch: Choice, next: State) returns (w: Wait)
      requires Sound(false) && kind != ChangeCipherSpec && kind != Finished
      requires Rank(p, next) < Rank(p, state) && !PastFinished(p, next) && next != ProcessChangeCipherSpec
      requires (PastChangeCipherSpec(p, next) ==> ccsRead) && (p.resumed ==> !FullOnly(p, next))
      modifies this`state, this`transcript, this`incoming, this`rest
      ensures Sound(false) && w == Reading(old(incoming), kind, ch)
      ensures if w != Continue then unchanged(this)
              else
                && state == next && NextIs(old(incoming), kind)
                && transcript == old(transcript) + [old(incoming)[0]] && incoming == old(incoming)[1..]
                && rest == if old(rest) == [] then [] else old(rest)[1..]
      ensures w == Continue && old(rest) != [] && old(rest)[0].from == Client && old(NextFits(p, View())) ==>
                Reaches(p, old(View()), View())
    {
      ghost var before := View();
      ReachesSelf(p, before);
      var m := Peek(incoming, ch);
      if m.None? {
        return ReadMessage;
      }
      if m.value.kind != kind || ch.fail {
        return Error;
      }
      if ch.retry {
        return Pending;
      }
      Receive(m.value, before);
      state := next;
      return Continue;
    }

    method DoStartAccept() returns (w: Wait)
      requires Sound(false) && Tidy(Continue) && state == StartAccept
      modifies this
      ensures Stepped(old(View()), old(state), old(OnTrack()), KIND, w)
      ensures state == Next(p, old(state)) && transcript == old(transcript) && outgoing == old(outgoing)
      ensures hasPeerKey == old(hasPeerKey)
    {
      ReachesSelf(p, View());
      state := ReadClientHello;
      return Continue;
    }

    /** The ClientHello is looked at in three states, and only taken in the last. */
    method DoReadClientHello(ch: Choice) returns (w: Wait)
      requires Sound(false) && Tidy(Continue) && state == ReadClientHello
      modifies this
      ensures Stepped(old(View()), old(state), old(OnTrack()), ch, w)
      ensures Heeds(old(View()), old(state), old(hasPeerKey), ch)
    {
      ReachesSelf(p, View());
      ghost var first := RestOf(p, SelectParameters);
      assert RestOf(p, SelectCertificate) == first;
      FirstStep(true, Step(Client, ClientHello), RestOf(p, SendServerHello), first);
      var m := Peek(incoming, ch);
      if m.None? {
        return ReadMessage;
      }
      if m.value.kind != ClientHello || ch.fail {
        return Error;
      }
      if ch.retry {
        return Pending;
      }
      state := SelectCertificate;
      return Continue;
    }

    method DoSelectCertificate(ch: Choice) returns (w: Wait)
      requires Sound(false) && Tidy(Continue) && state == SelectCertificate
      modifies this
      ensures Stepped(old(View()), old(state), old(OnTrack()), ch, w)
      ensures Heeds(old(View()), old(state), old(hasPeerKey), ch)
    {
      ReachesSelf(p, View());
      ghost var first := RestOf(p, SelectParameters);
      FirstStep(true, Step(Client, ClientHello), RestOf(p, SendServerHello), first);
      var m := Peek(incoming, ch);
      if m.None? {
        return ReadMessage;
      }
      if ch.fail {
        return Error;
      }
      if ch.retry {
        return Pending;
      }
      state := SelectParameters;
      return Continue;
    }

    method DoSelectParameters(ch: Choice) returns (w: Wait)
      requires Sound(false) && Tidy(Continue) && state == SelectParameters
      modifies this
      ensures Stepped(old(View()), old(state), old(OnTrack()), ch, w)
      ensures Heeds(old(View()), old(state), old(hasPeerKey), ch)
    {
      ReachesSelf(p, View());
      FirstStep(true, Step(Client, ClientHello), RestOf(p, SendServerHello), RestOf(p, state));
      w := ReadOne(ClientHello, ch, SendServerHello);
    }

    method DoSendServerHello(ch: Choice) returns (w: Wait)
      requires Sound(false) && Tidy(Continue) && state == SendServerHello
      modifies this
      ensures Stepped(old(View()), old(state), old(OnTrack()), ch, w)
      ensures Heeds(old(View()), old(state), old(hasPeerKey), ch)
    {
      hide RestOf, Reaches, Optional, Hashed;
      ghost var before := View();
      ReachesSelf(p, before);
      SendingNext(p);
      if ch.fail {
        return Error;
      }
      var next := if p.resumed then SendServerFinished else SendServerCertificate;
      SendIf(true, Item(ServerHello, ch.body), before, RestOf(p, next));
      state := next;
      return Continue;
    }

    method DoSendServerCertificate(ch: Choice) returns (w: Wait)
      requires Sound(false) && Tidy(Continue) && state == SendServerCertificate
      modifies this
      ensures Stepped(old(View()), old(state), old(OnTrack()), ch, w)
      ensures Heeds(old(View()), old(state), old(hasPeerKey), ch)
    {
      hide RestOf, Reaches, Optional, Hashed;
      ghost var before := View();
      ReachesSelf(p, before);
      SendingNext(p);
      if ch.fail {
        return Error;
      }
      ghost var tail := RestOf(p, SendServerKeyExchange);
      SendIf(p.certAuth, Item(Certificate, ch.body), before,
             Optional(p.certAuth && p.certStatus, Server, CertificateStatus) + tail);
      SendIf(p.certAuth && p.certStatus, Item(CertificateStatus, ch.body2), before, tail);
      state := SendServerKeyExchange;
      return Continue;
    }

    method DoSendServerKeyExchange(ch: Choice) returns (w: Wait)
      requires Sound(false) && Tidy(Continue) && state == SendServerKeyExchange
      modifies this
      ensures Stepped(old(View()), old(state), old(OnTrack()), ch, w)
      ensures Heeds(old(View()), old(state), old(hasPeerKey), ch)
    {
      hide RestOf, Reaches, Optional, Hashed;
      ghost var before := View();
      ReachesSelf(p, before);
      SendingNext(p);
      if p.keyExchangeSent {
        if ch.fail {
          return Error;
        }
        if ch.retry {
          return Pending;
        }
      }
      SendIf(p.keyExchangeSent, Item(ServerKeyExchange, ch.body), before, RestOf(p, SendServerHelloDone));
      state := SendServerHelloDone;
      return Continue;
    }

    method DoSendServerHelloDone(ch: Choice) returns (w: Wait)
      requires Sound(false) && Tidy(Continue) && state == SendServerHelloDone
      modifies this
      ensures Stepped(old(View()), old(state), old(OnTrack()), ch, w)
      ensures Heeds(old(View()), old(state), old(hasPeerKey), ch)
    {
      hide RestOf, Reaches, Optional, Hashed;
      ghost var before := View();
      ReachesSelf(p, before);
      SendingNext(p);
      if ch.fail {
        return Error;
      }
      ghost var tail := RestOf(p, ReadClientCertificate);
      SendIf(p.certRequest, Item(CertificateRequest, ch.body), before, Optional(true, Server, ServerHelloDone) + tail);
      SendIf(true, Item(ServerHelloDone, 0), before, tail);
      state := ReadClientCertificate;
      return Flush;
    }

    method DoReadClientCertificate(ch: Choice) returns (w: Wait)
      requires Sound(false) && Tidy(Continue) && state == ReadClientCertificate
      modifies this
      ensures w == Continue && p.certRequest ==> old(incoming) != [] && hasPeerKey == (old(incoming)[0].body != 0)
      ensures w != Continue || !p.certRequest ==> hasPeerKey == old(hasPeerKey)
      ensures Stepped(old(View()), old(state), old(OnTrack()), ch, w)
      ensures Heeds(old(View()), old(state), old(hasPeerKey), ch)
    {
      hide RestOf, Reaches;
      ReachesSelf(p, View());
      ReadingNext(p);
      if !p.certRequest {
        state := VerifyClientCertificate;
        return Continue;
      }
      var chain := incoming;
      w := ReadOne(Certificate, ch, VerifyClientCertificate);
      if w == Continue {
        hasPeerKey := chain[0].body != 0;
      }
    }

    method DoVerifyClientCertificate(ch: Choice) returns (w: Wait)
      requires Sound(false) && Tidy(Continue) && state == VerifyClientCertificate
      modifies this
      ensures Stepped(old(View()), old(state), old(OnTrack()), ch, w)
      ensures Heeds(old(View()), old(state), old(hasPeerKey), ch)
    {
      ReachesSelf(p, View());
      if hasPeerKey {
        if ch.fail {
          return Error;
        }
        if ch.retry {
          return Pending;
        }
      }
      state := ReadClientKeyExchange;
      return Continue;
    }

    method DoReadClientKeyExchange(ch: Choice) returns (w: Wait)
      requires Sound(false) && Tidy(Continue) && state == ReadClientKeyExchange
      modifies this
      ensures Stepped(old(View()), old(state), old(OnTrack()), ch, w)
      ensures Heeds(old(View()), old(state), old(hasPeerKey), ch)
    {
      hide RestOf, Reaches;
      ReachesSelf(p, View());
      ReadingNext(p);
      w := ReadOne(ClientKeyExchange, ch, ReadClientCertificateVerify);
    }

    /** A CertificateVerify is required if and only if there is a client certificate. */
    method DoReadClientCertificateVerify(ch: Choice) returns (w: Wait)
      requires Sound(false) && Tidy(Continue) && state == ReadClientCertificateVerify
      modifies this
      ensures Stepped(old(View()), old(state), old(OnTrack()), ch, w)
      ensures Heeds(old(View()), old(state), old(hasPeerKey), ch)
    {
      hide RestOf, Reaches;
      ReachesSelf(p, View());
      ReadingNext(p);
      if !hasPeerKey {
        state := ReadClientChangeCipherSpec;
        return Continue;
      }
      w := ReadOne(CertificateVerify, ch, ReadClientChangeCipherSpec);
    }

    method DoReadChangeCipherSpec() returns (w: Wait)
      requires Sound(false) && Tidy(Continue) && state == ReadClientChangeCipherSpec
      modifies this
      ensures Stepped(old(View()), old(state), old(OnTrack()), KIND, w)
      ensures state == Next(p, old(state)) && transcript == old(transcript) && outgoing == old(outgoing)
      ensures hasPeerKey == old(hasPeerKey)
    {
      ReachesSelf(p, View());
      state := ProcessChangeCipherSpec;
      return ReadChangeCipherSpec;
    }

    method DoProcessChangeCipherSpec(ch: Choice) returns (w: Wait)
      requires Sound(false) && Tidy(Continue) && state == ProcessChangeCipherSpec
      modifies this
      ensures Stepped(old(View()), old(state), old(OnTrack()), ch, w)
      ensures Heeds(old(View()), old(state), old(hasPeerKey), ch)
    {
      ReachesSelf(p, View());
      if ch.fail {
        return Error;
      }
      state := ReadNextProto;
      return Continue;
    }

    method DoReadNextProto(ch: Choice) returns (w: Wait)
      requires Sound(false) && Tidy(Continue) && state == ReadNextProto
      modifies this
      ensures Stepped(old(View()), old(state), old(OnTrack()), ch, w)
      ensures Heeds(old(View()), old(state), old(hasPeerKey), ch)
    {
      hide RestOf, Reaches;
      ReachesSelf(p, View());
      ReadingNext(p);
      if !p.nextProto {
        state := ReadChannelId;
        return Continue;
      }
      w := ReadOne(NextProto, ch, ReadChannelId);
    }

    method DoReadChannelId(ch: Choice) returns (w: Wait)
      requires Sound(false) && Tidy(Continue) && state == ReadChannelId
      modifies this
      ensures Stepped(old(View()), old(state), old(OnTrack()), ch, w)
      ensures Heeds(old(View()), old(state), old(hasPeerKey), ch)
    {
      hide RestOf, Reaches;
      ReachesSelf(p, View());
      ReadingNext(p);
      if !p.channelId {
        state := ReadClientFinished;
        return Continue;
      }
      w := ReadOne(ChannelId, ch, ReadClientFinished);
    }

    /** The next message is the client's Finished over this transcript. */
    predicate Matched(incoming: seq<Item>, transcript: seq<Item>) {
      incoming != [] && incoming[0] == Item(Finished, p.mac(transcript, Client))
    }

    /** ssl_get_finished: the MAC is taken before the message is hashed. */
    method TakeFinished(ch: Choice) returns (w: Wait)
      modifies this`transcript, this`incoming, this`rest
      ensures w == if Peek(old(incoming), ch).None? then ReadMessage
                   else if ch.fail || !Matched(old(incoming), old(transcript)) then Error else Continue
      ensures if w != Continue then unchanged(this)
              else
                && transcript == old(transcript) + [old(incoming)[0]] && incoming == old(incoming)[1..]
                && rest == if old(rest) == [] then [] else old(rest)[1..]
      ensures w == Continue && old(rest) != [] && old(rest)[0] == Step(Client, Finished) ==>
                Reaches(p, old(View()), View())
    {
      ghost var before := View();
      ReachesSelf(p, before);
      var m := Peek(incoming, ch);
      if m.None? {
        return ReadMessage;
      }
      if m.value.kind != Finished {
        return Error;
      }
      var finished := p.mac(transcript, Client);
      if m.value.body != finished || ch.fail {
        return Error;
      }
      Receive(m.value, before);
      return Continue;
    }

    method DoReadClientFinished(ch: Choice) returns (w: Wait)
      requires Sound(false) && Tidy(Continue) && state == ReadClientFinished
      modifies this
      ensures w == Continue ==> Matched(old(incoming), old(transcript))
      ensures w == Continue ==> transcript == old(transcript) + [old(incoming)[0]] && incoming == old(incoming)[1..]
      ensures Stepped(old(View()), old(state), old(OnTrack()), ch, w)
      ensures Heeds(old(View()), old(state), old(hasPeerKey), ch)
    {
      hide RestOf, Reaches, Consistent, Demands, RankIn;
      ghost var before := View();
      ReachesSelf(p, before);
      FinishedNext(p);
      w := TakeFinished(ch);
      if w == Continue {
        finishedMatched := true;
        state := if p.resumed then FinishServerHandshake else SendServerFinished;
      }
    }

    method DoSendServerFinished(ch: Choice) returns (w: Wait)
      requires Sound(false) && Tidy(Continue) && state == SendServerFinished
      modifies this
      ensures w == Flush ==>
                && outgoing == old(outgoing) + LastFlight(p, old(transcript), ch)
                && transcript == old(transcript) + LastMessages(p, old(transcript), ch)
      ensures Stepped(old(View()), old(state), old(OnTrack()), ch, w)
      ensures Heeds(old(View()), old(state), old(hasPeerKey), ch)
    {
      hide Reaches, LastFlight, LastMessages, MayPlay;
      ghost var before := View();
      ReachesSelf(p, before);
      if ch.fail {
        return Error;
      }
      var next := if p.resumed then ReadClientChangeCipherSpec else FinishServerHandshake;
      SendLastFlight(ch, before, RestOf(p, next));
      state := next;
      return Flush;
    }

    method SendLastFlight(ch: Choice, ghost before: Peer, ghost last: seq<Step>)
      modifies this`transcript, this`outgoing, this`rest
      ensures outgoing == old(outgoing) + LastFlight(p, old(transcript), ch)
      ensures transcript == old(transcript) + LastMessages(p, old(transcript), ch)
      ensures old(Reaches(p, before, View())
                  && rest == Optional(p.ticket, Server, NewSessionTicket)
                             + ([Step(Server, ChangeCipherSpec)] + ([Step(Server, Finished)] + last))) ==>
                rest == last && Reaches(p, before, View())
    {
      hide Reaches, MayPlay, Hashed;
      ghost var t0, o0, ccs := transcript, outgoing, [Item(ChangeCipherSpec, 0)];
      ghost var ticket := OptionalItem(p.ticket, NewSessionTicket, ch.body);
      ghost var finished := [Step(Server, Finished)] + last;
      NotHashed(p, ch);
      SendIf(p.ticket, Item(NewSessionTicket, ch.body), before, [Step(Server, ChangeCipherSpec)] + finished);
      SendIf(true, Item(ChangeCipherSpec, 0), before, finished);
      Regroup(t0, [], ticket, []);
      Regroup(o0, [], ticket, ccs);
      SendFinished(before);
      Associative(t0, ticket, [Item(Finished, p.mac(t0 + ticket, Server))]);
      Associative(o0, ticket + ccs, [Item(Finished, p.mac(t0 + ticket, Server))]);
    }

    method DoFinishServerHandshake() returns (w: Wait)
      requires Sound(false) && Tidy(Continue) && state == FinishServerHandshake
      modifies this
      ensures Stepped(old(View()), old(state), old(OnTrack()), KIND, w)
      ensures state == Next(p, old(state)) && transcript == old(transcript) && outgoing == old(outgoing)
      ensures hasPeerKey == old(hasPeerKey)
    {
      ReachesSelf(p, View());
      state := Done;
      return Continue;
    }

    /** One turn of the loop of ssl_server_handshake. */
    method StepOnce(ch: Choice) returns (w: Wait)
      requires Sound(false) && Tidy(Continue) && state != Done
      modifies this
      ensures Stepped(old(View()), old(state), old(OnTrack()), ch, w)
      ensures Heeds(old(View()), old(state), old(hasPeerKey), ch)
    {
      match state
      case StartAccept => w := DoStartAccept();
      case ReadClientHello => w := DoReadClientHello(ch);
      case SelectCertificate => w := DoSelectCertificate(ch);
      case SelectParameters => w := DoSelectParameters(ch);
      case SendServerHello => w := DoSendServerHello(ch);
      case SendServerCertificate => w := DoSendServerCertificate(ch);
      case SendServerKeyExchange => w := DoSendServerKeyExchange(ch);
      case SendServerHelloDone => w := DoSendServerHelloDone(ch);
      case ReadClientCertificate => w := DoReadClientCertificate(ch);
      case VerifyClientCertificate => w := DoVerifyClientCertificate(ch);
      case ReadClientKeyExchange => w := DoReadClientKeyExchange(ch);
      case ReadClientCertificateVerify => w := DoReadClientCertificateVerify(ch);
      case ReadClientChangeCipherSpec => w := DoReadChangeCipherSpec();
      case ProcessChangeCipherSpec => w := DoProcessChangeCipherSpec(ch);
      case ReadNextProto => w := DoReadNextProto(ch);
      case ReadChannelId => w := DoReadChannelId(ch);
      case ReadClientFinished => w := DoReadClientFinished(ch);
      case SendServerFinished => w := DoSendServerFinished(ch);
      case FinishServerHandshake => w := DoFinishServerHandshake();
    }

    /** What was carried out since did not fail, and is finished. */
    ghost predicate Unfailing(env: State -> Choice, earlier: seq<State>, carried: seq<State>) {
      earlier <= carried && forall s | s in carried[|earlier|..] :: !Denied(s, env(s))
    }

    lemma NothingYet(env: State -> Choice, earlier: seq<State>, s: State)
      ensures HeldBack(p, env, hasPeerKey, s, s) && Unfailing(env, earlier, earlier)
      ensures Visits([s], s, s)
    {
    }

    lemma Carry(env: State -> Choice, from: State, earlier: seq<State>, carried: seq<State>, key: bool, s: State, key': bool)
      requires OnPath(p, s) && s != Done && (Denied(s, env(s)) ==> !Demands(p, key, s))
      requires s != ReadClientCertificate ==> key' == key
      requires HeldBack(p, env, key, from, s) && CarriedOut(p, carried, key, s) && Unfailing(env, earlier, carried)
      ensures HeldBack(p, env, key', from, Next(p, s))
      ensures CarriedOut(p, if Demands(p, key, s) then carried + [s] else carried, key', Next(p, s))
      ensures Unfailing(env, earlier, if Demands(p, key, s) then carried + [s] else carried)
    {
      hide Demands, Denied, MayWait, OnPath, Rank, HeldBack, CarriedOut;
      HeldStep(p, env, key, from, s);
      CarriedStep(p, carried, key, s);
      if s == ReadClientCertificate {
        KeyLearnt(p, env, if Demands(p, key, s) then carried + [s] else carried, key, key', from);
      }
      assert (carried + [s])[|earlier|..] == carried[|earlier|..] + [s];
    }

    /** Both sides follow the flow, all that arrived can be read, and a wait is for what the flow has
        next. */
    ghost predicate OnCourse(w: Wait)
      reads this`hasPeerKey, this`incoming, this`outgoing, this`readError, this`rest, this`state, this`transcript
    {
      && Follows(w == ReadChangeCipherSpec) && Aligned(p, View())
      && (w == ReadMessage ==> AwaitsMessage())
    }

    /** The states from `from` to `to`, of which each is the one before or has a smaller rank. */
    ghost predicate Visits(visited: seq<State>, from: State, to: State) {
      visited != [] && visited[0] == from && visited[|visited| - 1] == to && Descends(RankIn(p), visited)
    }

    /** A new state, or the old one because nothing has arrived. */
    predicate Moved(was: State, before: seq<Item>, w: Wait)
      reads this`state
    {
      Rank(p, state) < Rank(p, was) || was == Done || (w == ReadMessage && state == was && before == [])
    }

    /**
     ssl_server_handshake, with any choices of the environment, one for each state: it ends because
     every turn that goes on decreases the rank, and it is done only past the ChangeCipherSpec record
     and the Finished.
     */
    method Drive(env: State -> Choice, ghost earlier: seq<State>)
      returns (w: Wait, ghost visited: seq<State>, ghost carried: seq<State>)
      requires Sound(false) && Tidy(Continue) && CarriedOut(p, earlier, hasPeerKey, state)
      modifies this
      ensures HeldBack(p, env, hasPeerKey, old(state), state)
      ensures CarriedOut(p, carried, hasPeerKey, state) && Unfailing(env, earlier, carried)
      ensures Sound(w == ReadChangeCipherSpec) && Tidy(w)
      ensures Visits(visited, old(state), state)
      ensures w == Continue ==> state == Done && ccsRead && finishedMatched
      ensures old(OnCourse(Continue)) ==> OnCourse(w) && Reaches(p, old(View()), View())
      ensures old(OnCourse(Continue)) && NeverFails(env) ==> w != Error
      ensures old(OnCourse(Continue)) && AlwaysKind(env) ==>
                w != Pending && w != EarlyReturn && Moved(old(state), old(incoming), w)
    {
      hide Reaches, RestOf, Consistent, MayPlay, Fails, HeldBack, CarriedOut, Next, Demands, Denied, Unfailing;
      ghost var before := View();
      ReachesSelf(p, before);
      w, visited, carried := Continue, [state], earlier;
      NothingYet(env, earlier, state);
      while state != Done
        invariant Sound(false) && Tidy(Continue) && w == Continue && Visits(visited, old(state), state)
        invariant HeldBack(p, env, hasPeerKey, old(state), state) && CarriedOut(p, carried, hasPeerKey, state)
        invariant Unfailing(env, earlier, carried)
        invariant old(OnCourse(Continue)) ==> OnCourse(Continue) && Reaches(p, before, View())
        invariant if state == old(state) then View() == before else Rank(p, state) < old(Rank(p, state))
        decreases Rank(p, state)
      {
        ghost var here, was, key := View(), state, hasPeerKey;
        w := StepOnce(env(state));
        if state != was {
          Carry(env, old(state), earlier, carried, key, was, hasPeerKey);
          carried := if Demands(p, key, was) then carried + [was] else carried;
        }
        DescendsMore(RankIn(p), visited, state);
        visited := visited + [state];
        if old(OnCourse(Continue)) {
          ReachesTogether(p, before, here, View());
          ReachesAligned(p, here, View());
        }
        if w != Continue {
          return;
        }
      }
    }

    /** ssl_run_handshake reading the ChangeCipherSpec record it waits for. */
    method ReadChangeCipherSpecRecord()
      requires Sound(true) && incoming != [] && incoming[0].kind == ChangeCipherSpec
      modifies this`incoming, this`rest, this`ccsRead
      ensures Sound(false) && incoming == old(incoming)[1..]
      ensures old(OnCourse(ReadChangeCipherSpec)) ==> OnCourse(Continue) && Reaches(p, old(View()), View())
    {
      ghost var before := View();
      ghost var x := incoming[0];
      FirstStep(true, Step(Client, ChangeCipherSpec), RestOf(p, state), Rest(p, state, true));
      incoming := incoming[1..];
      rest := if rest == [] then [] else rest[1..];
      ccsRead := true;
      if old(OnCourse(ReadChangeCipherSpec)) {
        ReachesSelf(p, before);
        ReachesMore(p, before, before, x);
        assert transcript + Hashed(x) == transcript;
        ReachesAligned(p, before, View());
      }
    }

    /** The state machine may run again: nothing is waited for, or what is waited for is there. */
    predicate Resolved(io: Transport)
      reads this
    {
      match wait
      case Continue => true
      case Flush => io.flushed && |outgoing| <= io.taken
      case ReadMessage => !readError && io.arrived && incoming != [] && incoming[0].kind != ChangeCipherSpec
      case ReadChangeCipherSpec => !readError && io.arrived && incoming != [] && incoming[0].kind == ChangeCipherSpec
      case Error => false
      case EarlyReturn => false
      case Pending => false
    }

    /** A record of the wrong type is next: reading fails then, and ever after. */
    predicate Misread(io: Transport)
      reads this
    {
      && (wait == ReadMessage || wait == ReadChangeCipherSpec) && io.arrived && incoming != []
      && (wait == ReadMessage <==> incoming[0].kind == ChangeCipherSpec)
    }

    /** flush_flight: `left` is what the transport takes of the flight. */
    method FlushFlight(io: Transport) returns (ok: bool, left: seq<Item>)
      modifies this`outgoing
      ensures left + outgoing == old(outgoing) && |left| == if |old(outgoing)| <= io.taken then |old(outgoing)| else io.taken
      ensures ok == (io.flushed && |old(outgoing)| <= io.taken)
    {
      var n := if |outgoing| <= io.taken then |outgoing| else io.taken;
      left, outgoing := outgoing[..n], outgoing[n..];
      ok := outgoing == [] && io.flushed;
    }

    /** The first half of a turn of ssl_run_handshake: resolve what the handshake waits for, if the
        environment lets it; otherwise `ret` is returned. `left` is what was sent. */
    method Resolve(io: Transport) returns (go: bool, ret: int, left: seq<Item>)
      requires Sound(wait == ReadChangeCipherSpec) && Tidy(wait)
      modifies this`wait, this`incoming, this`outgoing, this`rest, this`ccsRead, this`readError
      ensures go == old(Resolved(io)) && readError == old(readError || Misread(io))
      ensures if go then Sound(false) && Tidy(Continue) else Sound(wait == ReadChangeCipherSpec) && Tidy(wait)
      ensures !go ==> ret == if old(wait) == EarlyReturn then 1 else -1
      ensures wait == if old(wait) == Pending || old(wait) == EarlyReturn then Continue else old(wait)
      ensures left + outgoing == old(outgoing) && (old(wait) != Flush ==> left == [])
      ensures incoming == if go && old(wait) == ReadChangeCipherSpec then old(incoming)[1..] else old(incoming)
      ensures old(OnCourse(wait)) ==>
                OnCourse(if go then Continue else wait) && Reaches(p, Without(old(View()), left), View())
    {
      hide Follows, Aligned, Reaches, Sound, NextFits;
      left := [];
      ReachesSelf(p, View());
      if OnCourse(wait) {
        NoMisread(io);
      }
      match wait {
        case Continue =>
        case Flush =>
          ghost var before := View();
          var ok;
          ok, left := FlushFlight(io);
          FlushedView(before, left);
          if !ok {
            return false, -1, left;
          }
        case ReadMessage =>
          if readError || !io.arrived || |incoming| == 0 || incoming[0].kind == ChangeCipherSpec {
            readError := readError || (io.arrived && |incoming| != 0);
            return false, -1, left;
          }
        case ReadChangeCipherSpec =>
          if readError || !io.arrived || |incoming| == 0 || incoming[0].kind != ChangeCipherSpec {
            readError := readError || (io.arrived && |incoming| != 0);
            return false, -1, left;
          }
          ReadChangeCipherSpecRecord();
        case Error =>
          return false, -1, left;
        case EarlyReturn =>
          wait := Continue;
          return false, 1, left;
        case Pending =>
          wait := Continue;
          return false, -1, left;
      }
      return true, 0, left;
    }

    lemma NoMisread(io: Transport)
      requires OnCourse(wait)
      ensures !Misread(io)
    {
      assert NextFits(p, View());
    }

    lemma FlushedView(before: Peer, left: seq<Item>)
      requires before.outbox == left + outgoing && View() == before.(outbox := outgoing)
      ensures View() == Without(before, left) && Reaches(p, Without(before, left), View())
      ensures Aligned(p, before) ==> Aligned(p, View())
    {
      assert (left + outgoing)[|left|..] == outgoing;
      ReachesSelf(p, View());
      if Aligned(p, before) {
        assert before.inbox + [] == before.inbox;
        AlignedPrefix(p, View(), before, []);
      }
    }

    /** What a turn that the environment does not hold up gets nearer to the end by. */
    function Distance(): nat
      reads this`state, this`wait
    {
      3 * Rank(p, state) + Weight(wait)
    }

    /** What is waited for is the other side's to send, and when the handshake is done nothing is left. */
    lemma WaitsFor()
      requires OnCourse(wait)
      ensures wait == ReadMessage || wait == ReadChangeCipherSpec ==> rest != [] && rest[0].from == Client
      ensures state == Done && wait == Continue ==> rest == []
    {
    }

    /** At the end of a full handshake the server has the key of the client's certificate if there is one. */
    lemma KeyAtEnd()
      requires OnCourse(wait) && state == Done
      ensures !p.resumed ==> hasPeerKey == p.clientCert
    {
    }

    /** The handshake goes on as soon as the environment lets it. */
    predicate CanGo()
      reads this
    {
      && state != Done && wait != Error
      && (wait == ReadMessage || wait == ReadChangeCipherSpec ==> incoming != [])
    }

    /** The transport reads and sends all there is. */
    predicate OpenTo(io: Transport)
      reads this
    {
      io.arrived && io.flushed && |outgoing| <= io.taken
    }

    lemma GoesOn(io: Transport)
      requires OnCourse(wait) && CanGo() && OpenTo(io)
      ensures Resolved(io) || wait == Pending || wait == EarlyReturn
    {
      assert NextFits(p, View());
    }

    /** One turn of the loop of ssl_run_handshake. The result is 0 when the loop goes on. */
    method Resume(io: Transport, env: State -> Choice, ghost earlier: seq<State>)
      returns (ret: int, left: seq<Item>, ghost visited: seq<State>, ghost carried: seq<State>)
      requires Sound(wait == ReadChangeCipherSpec) && Tidy(wait) && CarriedOut(p, earlier, hasPeerKey, state)
      modifies this
      ensures HeldBack(p, env, hasPeerKey, old(state), state)
      ensures CarriedOut(p, carried, hasPeerKey, state) && Unfailing(env, earlier, carried)
      ensures Sound(wait == ReadChangeCipherSpec) && Tidy(wait) && Visits(visited, old(state), state)
      ensures left <= old(outgoing) && (old(wait) != Flush ==> left == [])
      ensures ret > 0 ==> old(wait) == EarlyReturn || (state == Done && ccsRead && finishedMatched)
      ensures old(OnCourse(wait)) ==> OnCourse(wait) && Reaches(p, Without(old(View()), left), View())
      ensures old(OnCourse(wait) && wait != Error) && NeverFails(env) ==> wait != Error
      ensures old(OnCourse(wait) && CanGo() && OpenTo(io)) && AlwaysKind(env) ==> Distance() < old(Distance())
    {
      hide Follows, Aligned, Reaches, NextFits, Sound, Rank, Fails, HeldBack, CarriedOut, Unfailing, Visits, Demands,
        Denied, Descends, RankIn;
      if OnCourse(wait) && CanGo() && OpenTo(io) {
        GoesOn(io);
      }
      NothingYet(env, earlier, state);
      var go;
      visited, carried := [state], earlier;
      go, ret, left := Resolve(io);
      if !go {
        return;
      }
      ghost var here := View();
      wait, visited, carried := Drive(env, earlier);
      if old(OnCourse(wait)) {
        ReachesTogether(p, Without(old(View()), left), here, View());
      }
      ret := if wait == Error then -1 else if wait == Continue then 1 else 0;
    }
  }
}
