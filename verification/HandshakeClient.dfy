/** The TLS 1.2 client's handshake (handshake_client.cc) as an object whose state changes in place. */
module HandshakeClient {
  import opened Basics
  import opened Handshake

  datatype State =
    | StartConnect | EnterEarlyData | ReadServerHello | ReadServerCertificate | ReadCertificateStatus
    | VerifyServerCertificate | ReadServerKeyExchange | ReadCertificateRequest | ReadServerHelloDone
    | SendClientCertificate | SendClientKeyExchange | SendClientCertificateVerify | SendClientFinished
    | FinishFlight | ReadSessionTicket | ProcessChangeCipherSpec | ReadServerFinished
    | FinishClientHandshake | Done

  /** A rank that every change of state decreases. In a resumed handshake the server's last flight
      comes before the client's. */
  function Rank(p: Params, s: State): nat {
    match s
    case StartConnect => 20
    case EnterEarlyData => 19
    case ReadServerHello => 18
    case ReadServerCertificate => 17
    case ReadCertificateStatus => 16
    case VerifyServerCertificate => 15
    case ReadServerKeyExchange => 14
    case ReadCertificateRequest => 13
    case ReadServerHelloDone => 12
    case SendClientCertificate => 11
    case SendClientKeyExchange => 10
    case SendClientCertificateVerify => 9
    case SendClientFinished => if p.resumed then 3 else 8
    case FinishFlight => if p.resumed then 2 else 7
    case ReadSessionTicket => 6
    case ProcessChangeCipherSpec => 5
    case ReadServerFinished => 4
    case FinishClientHandshake => 1
    case Done => 0
  }

  function RankIn(p: Params): State -> nat {
    s => Rank(p, s)
  }

  /** What is left of the flow in each state, by the state that comes next. */
  function RestOf(p: Params, s: State): seq<Step>
    decreases Rank(p, s)
  {
    match s
    case StartConnect => [Step(Client, ClientHello)] + RestOf(p, EnterEarlyData)
    case EnterEarlyData => RestOf(p, ReadServerHello)
    case ReadServerHello =>
      [Step(Server, ServerHello)] + RestOf(p, if p.resumed then ReadSessionTicket else ReadServerCertificate)
    case ReadServerCertificate => Optional(p.certAuth, Server, Certificate) + RestOf(p, ReadCertificateStatus)
    case ReadCertificateStatus =>
      Optional(p.certAuth && p.certStatus, Server, CertificateStatus) + RestOf(p, VerifyServerCertificate)
    case VerifyServerCertificate => RestOf(p, ReadServerKeyExchange)
    case ReadServerKeyExchange =>
      Optional(p.keyExchangeSent, Server, ServerKeyExchange) + RestOf(p, ReadCertificateRequest)
    case ReadCertificateRequest => Optional(p.certRequest, Server, CertificateRequest) + RestOf(p, ReadServerHelloDone)
    case ReadServerHelloDone => [Step(Server, ServerHelloDone)] + RestOf(p, SendClientCertificate)
    case SendClientCertificate => Optional(p.certRequest, Client, Certificate) + RestOf(p, SendClientKeyExchange)
    case SendClientKeyExchange => [Step(Client, ClientKeyExchange)] + RestOf(p, SendClientCertificateVerify)
    case SendClientCertificateVerify =>
      Optional(p.clientCert, Client, CertificateVerify) + RestOf(p, SendClientFinished)
    case SendClientFinished => ClientFinish(p) + RestOf(p, FinishFlight)
    case FinishFlight => RestOf(p, if p.resumed then FinishClientHandshake else ReadSessionTicket)
    case ReadSessionTicket =>
      Optional(p.ticket, Server, NewSessionTicket) + [Step(Server, ChangeCipherSpec)]
      + RestOf(p, ProcessChangeCipherSpec)
    case ProcessChangeCipherSpec => RestOf(p, ReadServerFinished)
    case ReadServerFinished =>
      [Step(Server, Finished)] + RestOf(p, if p.resumed then SendClientFinished else FinishClientHandshake)
    case FinishClientHandshake => RestOf(p, Done)
    case Done => []
  }

  /** A ChangeCipherSpec record may be due before the state goes on. */
  function Rest(p: Params, s: State, ccsDue: bool): seq<Step> {
    if ccsDue then [Step(Server, ChangeCipherSpec)] + RestOf(p, s) else RestOf(p, s)
  }

  /** In a state, a step may be due, after which the flow goes on as in the next one. */
  ghost predicate Leads(p: Params, s: State, due: bool, x: Step, next: State) {
    if due then RestOf(p, s) != [] && RestOf(p, s)[0] == x && RestOf(p, s)[1..] == RestOf(p, next)
    else RestOf(p, s) == RestOf(p, next)
  }

  /** What may come next where the server's messages are optional. */
  lemma ServerChoices(p: Params)
    ensures var key := RestOf(p, ReadServerKeyExchange);
            key != [] && key[0].from == Server && key[0].kind != CertificateStatus
            && (key[0].kind == ServerKeyExchange <==> p.keyExchangeSent)
    ensures var request := RestOf(p, ReadCertificateRequest);
            request != [] && request[0] == Step(Server, if p.certRequest then CertificateRequest else ServerHelloDone)
    ensures Leads(p, ReadServerKeyExchange, p.keyExchangeSent, Step(Server, ServerKeyExchange), ReadCertificateRequest)
    ensures Leads(p, ReadCertificateRequest, p.certRequest, Step(Server, CertificateRequest), ReadServerHelloDone)
    ensures Leads(p, ReadServerHelloDone, true, Step(Server, ServerHelloDone), SendClientCertificate)
  {
    FirstStep(true, Step(Server, ServerHelloDone), RestOf(p, SendClientCertificate), RestOf(p, ReadServerHelloDone));
    FirstStep(p.certRequest, Step(Server, CertificateRequest), RestOf(p, ReadServerHelloDone),
              RestOf(p, ReadCertificateRequest));
    FirstStep(p.keyExchangeSent, Step(Server, ServerKeyExchange), RestOf(p, ReadCertificateRequest),
              RestOf(p, ReadServerKeyExchange));
  }

  /** After the certificate, the server has its status next, or something else of its own. */
  lemma StatusNext(p: Params)
    ensures var here, after := RestOf(p, ReadCertificateStatus), RestOf(p, VerifyServerCertificate);
            && here != [] && here[0].from == Server && here[0].kind != ChangeCipherSpec
            && (here[0].kind == CertificateStatus <==> p.certAuth && p.certStatus)
            && after == if p.certAuth && p.certStatus then here[1..] else here
  {
    FirstStep(p.certAuth && p.certStatus, Step(Server, CertificateStatus), RestOf(p, VerifyServerCertificate),
              RestOf(p, ReadCertificateStatus));
    ServerChoices(p);
  }

  lemma SendingNext(p: Params)
    ensures Leads(p, StartConnect, true, Step(Client, ClientHello), EnterEarlyData)
    ensures Leads(p, SendClientCertificate, p.certRequest, Step(Client, Certificate), SendClientKeyExchange)
    ensures Leads(p, SendClientKeyExchange, true, Step(Client, ClientKeyExchange), SendClientCertificateVerify)
    ensures Leads(p, SendClientCertificateVerify, p.clientCert, Step(Client, CertificateVerify), SendClientFinished)
  {
    FirstStep(true, Step(Client, ClientHello), RestOf(p, EnterEarlyData), RestOf(p, StartConnect));
    FirstStep(p.certRequest, Step(Client, Certificate), RestOf(p, SendClientKeyExchange),
              RestOf(p, SendClientCertificate));
    FirstStep(true, Step(Client, ClientKeyExchange), RestOf(p, SendClientCertificateVerify),
              RestOf(p, SendClientKeyExchange));
    FirstStep(p.clientCert, Step(Client, CertificateVerify), RestOf(p, SendClientFinished),
              RestOf(p, SendClientCertificateVerify));
  }

  lemma TicketNext(p: Params)
    ensures var here, after := RestOf(p, ReadSessionTicket), Rest(p, ProcessChangeCipherSpec, true);
            && after == [Step(Server, ChangeCipherSpec)] + RestOf(p, ProcessChangeCipherSpec)
            && if p.ticket then here != [] && here[0] == Step(Server, NewSessionTicket) && here[1..] == after
               else here == after
  {
    FirstStep(p.ticket, Step(Server, NewSessionTicket), Rest(p, ProcessChangeCipherSpec, true),
              RestOf(p, ReadSessionTicket));
  }

  lemma FinishedNext(p: Params)
    ensures Leads(p, ReadServerFinished, true, Step(Server, Finished),
                  if p.resumed then SendClientFinished else FinishClientHandshake)
  {
    FirstStep(true, Step(Server, Finished), RestOf(p, if p.resumed then SendClientFinished else FinishClientHandshake),
              RestOf(p, ReadServerFinished));
  }

  lemma ClientFinishIsRest(p: Params)
    ensures RestOf(p, SendClientFinished) == ClientFinish(p) + if p.resumed then [] else RestOf(p, ReadSessionTicket)
  {
    assert RestOf(p, FinishClientHandshake) == RestOf(p, Done);
    assert RestOf(p, FinishFlight) == if p.resumed then [] else RestOf(p, ReadSessionTicket);
  }

  lemma ServerFinishIsRest(p: Params)
    ensures RestOf(p, ReadSessionTicket) == ServerFinish(p) + if p.resumed then RestOf(p, SendClientFinished) else []
  {
    var last := if p.resumed then RestOf(p, SendClientFinished) else [];
    assert RestOf(p, FinishClientHandshake) == RestOf(p, Done);
    assert RestOf(p, ReadServerFinished) == [Step(Server, Finished)] + last;
    TwoSteps(Optional(p.ticket, Server, NewSessionTicket), Step(Server, ChangeCipherSpec), Step(Server, Finished), last);
  }

  lemma ClientFlightIsRest(p: Params)
    ensures RestOf(p, SendClientCertificate) == ClientFlight(p) + RestOf(p, SendClientFinished)
  {
    assert RestOf(p, SendClientKeyExchange)
        == [Step(Client, ClientKeyExchange)]
           + (Optional(p.clientCert, Client, CertificateVerify) + RestOf(p, SendClientFinished));
  }

  /** From the start, the client has the whole handshake before it. */
  lemma StartIsFlow(p: Params)
    ensures RestOf(p, StartConnect) == Flow(p)
  {
    ClientFinishIsRest(p);
    ServerFinishIsRest(p);
    ClientFlightIsRest(p);
    ServerFlightIsRest(p);
    FourParts(ServerFlight(p), ClientFlight(p), ClientFinish(p), ServerFinish(p));
    assert ServerFinish(p) + [] == ServerFinish(p) && ClientFinish(p) + [] == ClientFinish(p);
    var after := RestOf(p, if p.resumed then ReadSessionTicket else ReadServerCertificate);
    assert RestOf(p, ReadServerHello) == [Step(Server, ServerHello)] + after;
    TwoSteps([], Step(Client, ClientHello), Step(Server, ServerHello), after);
  }

  lemma ServerFlightIsRest(p: Params)
    ensures RestOf(p, ReadServerCertificate) == ServerFlight(p) + RestOf(p, SendClientCertificate)
  {
    var done := [Step(Server, ServerHelloDone)] + RestOf(p, SendClientCertificate);
    var request := Optional(p.certRequest, Server, CertificateRequest) + done;
    var key := Optional(p.keyExchangeSent, Server, ServerKeyExchange) + request;
    assert RestOf(p, ReadCertificateRequest) == request;
    assert RestOf(p, VerifyServerCertificate) == key;
    assert RestOf(p, ReadCertificateStatus)
        == Optional(p.certAuth && p.certStatus, Server, CertificateStatus) + key;
  }

  /** The states that are left only after the server's Finished was checked. */
  predicate PastFinished(p: Params, s: State) {
    s in {FinishClientHandshake, Done} || (p.resumed && s in {SendClientFinished, FinishFlight})
  }

  predicate PastChangeCipherSpec(p: Params, s: State) {
    s == ReadServerFinished || PastFinished(p, s)
  }

  /** The states that only a full handshake goes through. */
  predicate FullOnly(p: Params, s: State) {
    9 <= Rank(p, s) <= 17
  }

  /** The state after each. */
  function Next(p: Params, s: State): State {
    match s
    case StartConnect => EnterEarlyData
    case EnterEarlyData => ReadServerHello
    case ReadServerHello => if p.resumed then ReadSessionTicket else ReadServerCertificate
    case ReadServerCertificate => ReadCertificateStatus
    case ReadCertificateStatus => VerifyServerCertificate
    case VerifyServerCertificate => ReadServerKeyExchange
    case ReadServerKeyExchange => ReadCertificateRequest
    case ReadCertificateRequest => ReadServerHelloDone
    case ReadServerHelloDone => SendClientCertificate
    case SendClientCertificate => SendClientKeyExchange
    case SendClientKeyExchange => SendClientCertificateVerify
    case SendClientCertificateVerify => SendClientFinished
    case SendClientFinished => FinishFlight
    case FinishFlight => if p.resumed then FinishClientHandshake else ReadSessionTicket
    case ReadSessionTicket => ProcessChangeCipherSpec
    case ProcessChangeCipherSpec => ReadServerFinished
    case ReadServerFinished => if p.resumed then SendClientFinished else FinishClientHandshake
    case FinishClientHandshake => Done
    case Done => Done
  }

  /** The states that a handshake goes through. */
  predicate OnPath(p: Params, s: State) {
    p.resumed ==> !FullOnly(p, s)
  }

  /** The states whose operation is not left out whatever the server sends: the certificate is read and
      verified where the cipher has one, the signed ServerKeyExchange read where the cipher needs it. */
  predicate Demands(p: Params, s: State) {
    match s
    case EnterEarlyData => false
    case ReadServerCertificate => p.certAuth
    case ReadCertificateStatus => false
    case VerifyServerCertificate => p.certAuth
    case ReadServerKeyExchange => p.keyExchangeRequired
    case ReadCertificateRequest => false
    case SendClientCertificate => false
    case SendClientCertificateVerify => false
    case FinishFlight => !p.resumed
    case ReadSessionTicket => p.ticket
    case Done => false
    case _ => true
  }

  /** Nothing lies between a state and the next one. */
  lemma NextAdjacent(p: Params, s: State, t: State)
    requires OnPath(p, s) && OnPath(p, t)
    ensures OnPath(p, Next(p, s))
    ensures Rank(p, t) < Rank(p, s) ==> Rank(p, t) <= Rank(p, Next(p, s)) < Rank(p, s)
    ensures Rank(p, t) == Rank(p, s) ==> t == s
  {
  }

  /** The operation may be one that is not finished at once, such as a verification by the application. */
  predicate MayWait(p: Params, s: State) {
    || s in {VerifyServerCertificate, SendClientCertificate, SendClientCertificateVerify}
    || (s == SendClientFinished && p.channelId)
  }

  /** It fails, or is not finished yet. */
  predicate Denied(p: Params, s: State, ch: Choice) {
    ch.fail || (ch.retry && MayWait(p, s))
  }

  /** The environment denies an operation of the handshake that is not left out. */
  predicate Fails(p: Params, env: State -> Choice, s: State) {
    OnPath(p, s) && Demands(p, s) && Denied(p, s, env(s))
  }

  /** Every such state after `from` in which the operation is denied still lies ahead of `to`, or is `to`. */
  ghost predicate HeldBack(p: Params, env: State -> Choice, from: State, to: State) {
    forall s | Fails(p, env, s) && Rank(p, s) <= Rank(p, from) :: Rank(p, s) <= Rank(p, to)
  }

  lemma HeldStep(p: Params, env: State -> Choice, from: State, s: State)
    requires HeldBack(p, env, from, s) && OnPath(p, s) && !Fails(p, env, s)
    ensures HeldBack(p, env, from, Next(p, s))
  {
    forall t | Fails(p, env, t) && Rank(p, t) <= Rank(p, from)
      ensures Rank(p, t) <= Rank(p, Next(p, s))
    {
      NextAdjacent(p, s, t);
    }
  }

  /** So a certificate that fails its verification, or whose verification is not finished, stops the client
      there. */
  lemma BadCertificateStops(p: Params, env: State -> Choice, from: State, to: State)
    requires HeldBack(p, env, from, to) && Rank(p, from) >= 15
    requires !p.resumed && p.certAuth && (env(VerifyServerCertificate).fail || env(VerifyServerCertificate).retry)
    ensures Rank(p, to) >= 15 && to != Done
  {
    assert Fails(p, env, VerifyServerCertificate);
  }

  /** The states whose operations were carried out on the way to `s`: all that are not left out, each
      once and in order. */
  ghost predicate CarriedOut(p: Params, carried: seq<State>, s: State) {
    && (forall t | OnPath(p, t) && Demands(p, t) && Rank(p, s) < Rank(p, t) :: t in carried)
    && (forall i | 0 <= i < |carried| :: Rank(p, s) < Rank(p, carried[i]))
    && forall i, j | 0 <= i < j < |carried| :: Rank(p, carried[j]) < Rank(p, carried[i])
  }

  lemma CarriedStep(p: Params, carried: seq<State>, s: State, must: bool)
    requires CarriedOut(p, carried, s) && OnPath(p, s) && s != Done && (Demands(p, s) ==> must)
    ensures CarriedOut(p, if must then carried + [s] else carried, Next(p, s))
  {
    NextAdjacent(p, s, s);
    forall t | OnPath(p, t) && Demands(p, t) && Rank(p, Next(p, s)) < Rank(p, t)
      ensures t in if must then carried + [s] else carried
    {
      NextAdjacent(p, s, t);
    }
    NextIsLower(p, s);
  }

  lemma NothingCarried(p: Params)
    ensures CarriedOut(p, [], StartConnect)
  {
  }

  lemma NextIsLower(p: Params, s: State)
    requires OnPath(p, s) && s != Done
    ensures Rank(p, Next(p, s)) < Rank(p, s)
  {
  }

  /** The messages of the client's last flight that come before its Finished. */
  function BeforeFinished(p: Params, ch: Choice): seq<Item> {
    OptionalItem(p.nextProto, NextProto, ch.body) + OptionalItem(p.channelId, ChannelId, ch.body2)
  }

  /** The messages of the flight: the Finished is over a transcript that holds those before it. */
  function LastMessages(p: Params, transcript: seq<Item>, ch: Choice): seq<Item> {
    BeforeFinished(p, ch) + [Item(Finished, p.mac(transcript + BeforeFinished(p, ch), Client))]
  }

  /** The same with the ChangeCipherSpec record in front. */
  function LastFlight(p: Params, transcript: seq<Item>, ch: Choice): seq<Item> {
    [Item(ChangeCipherSpec, 0)] + BeforeFinished(p, ch)
    + [Item(Finished, p.mac(transcript + BeforeFinished(p, ch), Client))]
  }

  /** Which items of the last flight are messages, and go into the transcript. */
  lemma NotHashed(p: Params, ch: Choice)
    ensures Hashed(Item(ChangeCipherSpec, 0)) == []
    ensures (if p.nextProto then Hashed(Item(NextProto, ch.body)) else []) == OptionalItem(p.nextProto, NextProto, ch.body)
    ensures (if p.channelId then Hashed(Item(ChannelId, ch.body2)) else [])
         == OptionalItem(p.channelId, ChannelId, ch.body2)
  {
  }

  /** The flight and its messages, put together one after the other. */
  lemma LastInParts(p: Params, transcript: seq<Item>, outgoing: seq<Item>, ch: Choice)
    ensures var next := OptionalItem(p.nextProto, NextProto, ch.body);
            var id := OptionalItem(p.channelId, ChannelId, ch.body2);
            var finished := [Item(Finished, p.mac(transcript + [] + next + id, Client))];
            && transcript + [] + next + id + finished == transcript + LastMessages(p, transcript, ch)
            && outgoing + OptionalItem(true, ChangeCipherSpec, 0) + next + id + finished
               == outgoing + LastFlight(p, transcript, ch)
  {
    var next := OptionalItem(p.nextProto, NextProto, ch.body);
    var id := OptionalItem(p.channelId, ChannelId, ch.body2);
    Regroup(transcript, [], next, id);
    Regroup(outgoing, [Item(ChangeCipherSpec, 0)], next, id);
  }

  /** The states in which part of a flight may have been put together. */
  predicate Sending(s: State) {
    s in {SendClientKeyExchange, SendClientCertificateVerify, SendClientFinished}
  }

  ghost predicate NeverFails(env: State -> Choice) {
    forall s :: !env(s).fail
  }

  ghost predicate AlwaysKind(env: State -> Choice) {
    forall s :: Kindly(env(s))
  }

  class Connector {
    /** What was negotiated, as far as the client knows it after the ServerHello; what the server
        chooses to send (CertificateStatus, an optional ServerKeyExchange, CertificateRequest) is
        only used to state what is left of the flow. */
    const p: Params
    /** The server said that it may send CertificateStatus. */
    const statusExpected: bool
    /** A certificate is configured. */
    const hasCertificate: bool
    var state: State
    /** What the driver has to wait for before the state machine goes on. */
    var wait: Wait
    var transcript: seq<Item>
    /** Messages and records that arrive, and those that were added to a flight. */
    var incoming: seq<Item>
    var outgoing: seq<Item>
    /** The server asked for a certificate. */
    var certRequest: bool
    /** Reading a record failed, so that it will not be tried again. */
    var readError: bool
    /** What is left of the flow. */
    ghost var rest: seq<Step>
    /** A ChangeCipherSpec record was read, and after it a Finished that matched. */
    ghost var ccsRead: bool
    ghost var finishedMatched: bool

    constructor (p: Params, statusExpected: bool, hasCertificate: bool)
      ensures this.p == p && state == StartConnect && Sound(false) && Tidy(Continue)
      ensures wait == Continue && View() == Peer(Client, Flow(p), [], [], [])
      ensures Consistent(p) && (p.certRequest ==> p.clientCert == hasCertificate) && (p.certStatus ==> statusExpected) ==>
                OnCourse(Continue)
    {
      this.p, this.statusExpected, this.hasCertificate := p, statusExpected, hasCertificate;
      wait, readError := Continue, false;
      state, transcript, incoming, outgoing, certRequest := StartConnect, [], [], [], false;
      rest, ccsRead, finishedMatched := Flow(p), false, false;
      new;
      StartIsFlow(p);
    }

    ghost function View(): Peer
      reads this`rest, this`transcript, this`incoming, this`outgoing
    {
      Peer(Client, rest, transcript, incoming, outgoing)
    }

    /** Holds whatever the server sends: the last states are reached only past the checks. `ccsDue`
        says that the driver still has to read a ChangeCipherSpec record. */
    ghost predicate Sound(ccsDue: bool)
      reads this`state, this`ccsRead, this`finishedMatched
    {
      && (PastFinished(p, state) ==> finishedMatched)
      && (finishedMatched ==> ccsRead)
      && (p.resumed ==> !FullOnly(p, state))
      && (PastChangeCipherSpec(p, state) || (state == ProcessChangeCipherSpec && !ccsDue) ==> ccsRead)
    }

    /** Holds while the server follows the same flow. */
    ghost predicate Follows(ccsDue: bool)
      reads this`state, this`rest, this`certRequest, this`readError
    {
      && Consistent(p) && (p.certRequest ==> p.clientCert == hasCertificate) && (p.certStatus ==> statusExpected)
      && rest == Rest(p, state, ccsDue) && !readError
      && (state in {ReadServerHelloDone, SendClientCertificate, SendClientKeyExchange, SendClientCertificateVerify} ==>
            certRequest == p.certRequest)
      && (state == ReadCertificateRequest || Rank(p, state) > 13 ==> !certRequest)
    }

    /** Both sides follow the flow so far. */
    ghost predicate OnTrack()
      reads this`certRequest, this`incoming, this`outgoing, this`readError, this`rest, this`state, this`transcript
    {
      Follows(false) && NextFits(p, View())
    }

    /** The flow has a message of the server's next. */
    ghost predicate AwaitsMessage()
      reads this`rest
    {
      rest != [] && rest[0].from == Server && rest[0].kind != ChangeCipherSpec
    }

    /** Nothing is left of a flight where the handshake waits to read or is done, nor anywhere but in
        the states that put a flight together and until it was flushed. */
    predicate Tidy(w: Wait)
      reads this`state, this`outgoing
    {
      && (w != Flush && !Sending(state) ==> outgoing == [])
      && (w == ReadMessage || w == ReadChangeCipherSpec ==> outgoing == [])
      && (state == Done ==> w == Continue)
    }

    /** What every step of the state machine guarantees: whatever the server sends, each change of
        state decreases the rank, and a step that fails changes nothing. While the server follows the
        flow, so does the client; then only the environment makes a step fail, and one that is kind
        holds up a step only to wait for a message that has not arrived. */
    ghost predicate Stepped(before: Peer, was: State, followed: bool, ch: Choice, w: Wait)
      reads this`ccsRead, this`certRequest, this`finishedMatched, this`incoming, this`outgoing, this`readError
      reads this`rest, this`state, this`transcript
    {
      && Sound(w == ReadChangeCipherSpec) && Tidy(w)
      && (if state == was then w == ReadMessage || w == Error || w == Pending else Rank(p, state) < Rank(p, was))
      && (w == Error ==> state == was && View() == before)
      && (followed ==>
            && Follows(w == ReadChangeCipherSpec) && Reaches(p, before, View())
            && (w == ReadMessage ==> AwaitsMessage())
            && (!ch.fail ==> w != Error)
            && (Kindly(ch) ==> w != Pending && w != EarlyReturn && (state != was || before.inbox == [])))
    }

    /** The operation of this state is to be carried out. */
    predicate MustDo()
      reads this`state, this`incoming, this`certRequest
    {
      match state
      case ReadCertificateStatus => statusExpected && NextIs(incoming, CertificateStatus)
      case ReadServerKeyExchange => p.keyExchangeRequired || NextIs(incoming, ServerKeyExchange)
      case ReadCertificateRequest => p.certAuth && !NextIs(incoming, ServerHelloDone)
      case SendClientCertificate => certRequest
      case SendClientCertificateVerify => certRequest && hasCertificate
      case _ => Demands(p, state)
    }

    /** A state is only left for the next one and, if its operation was to be carried out, only when
        that did not fail and is finished. Otherwise it has no effect. */
    ghost predicate Heeds(before: Peer, was: State, must: bool, ch: Choice)
      reads this`state, this`transcript, this`outgoing
    {
      state != was ==>
        && state == Next(p, was)
        && (Denied(p, was, ch) ==> !must && transcript == before.transcript && outgoing == before.outbox)
    }

    /** ssl_hash_message and next_message. */
    method Receive(m: Item, ghost before: Peer)
      requires incoming != [] && m == incoming[0] && m.kind != ChangeCipherSpec
      modifies this`transcript, this`incoming, this`rest
      ensures rest == if old(rest) == [] then [] else old(rest)[1..]
      ensures transcript == old(transcript) + [m] && incoming == old(incoming)[1..]
      ensures old(Reaches(p, before, View()) && MayPlay(p, View(), m) && rest[0].from == Server) ==>
                Reaches(p, before, View())
    {
      ghost var was := View();
      transcript := transcript + [m];
      incoming := incoming[1..];
      rest := if rest == [] then [] else rest[1..];
      if Reaches(p, before, was) && MayPlay(p, was, m) && was.rest[0].from == Server {
        ReachesMore(p, before, was, m);
      }
    }

    /** init_message and add_message, or add_change_cipher_spec. */
    method Send(x: Item, ghost before: Peer)
      modifies this`transcript, this`outgoing, this`rest
      ensures rest == (if old(rest) == [] then [] else old(rest)[1..])
      ensures transcript == old(transcript) + Hashed(x) && outgoing == old(outgoing) + [x]
      ensures old(Reaches(p, before, View()) && MayPlay(p, View(), x) && rest[0].from == Client) ==>
                Reaches(p, before, View())
    {
      ghost var was := View();
      transcript := transcript + Hashed(x);
      outgoing := outgoing + [x];
      rest := if rest == [] then [] else rest[1..];
      if Reaches(p, before, was) && MayPlay(p, was, x) && was.rest[0].from == Client {
        ReachesMore(p, before, was, x);
      }
    }

    /** What becomes of a step that reads a message of this kind. */
    static function Reading(incoming: seq<Item>, kind: Kind, ch: Choice): Wait {
      match Peek(incoming, ch)
      case None => ReadMessage
      case Some(m) => if m.kind != kind || ch.fail then Error else Continue
    }

    /** Reads the next message; `kind` is the only one accepted. */
    method TakeOne(kind: Kind, ch: Choice) returns (w: Wait)
      requires kind != ChangeCipherSpec && kind != Finished
      modifies this`transcript, this`incoming, this`rest
      ensures w == Reading(old(incoming), kind, ch)
      ensures if w != Continue then unchanged(this)
              else
                && NextIs(old(incoming), kind)
                && transcript == old(transcript) + [old(incoming)[0]] && incoming == old(incoming)[1..]
                && rest == if old(rest) == [] then [] else old(rest)[1..]
      ensures w == Continue && old(rest) != [] && old(rest)[0] == Step(Server, kind) ==> Reaches(p, old(View()), View())
    {
      ghost var before := View();
      ReachesSelf(p, View());
      var m := Peek(incoming, ch);
      if m.None? {
        return ReadMessage;
      }
      if m.value.kind != kind || ch.fail {
        return Error;
      }
      Receive(m.value, before);
      return Continue;
    }

    /** What reading the next message and moving on comes to. */
    method ReadOne(kind: Kind, ch: Choice, next: State) returns (w: Wait)
      requires Sound(false) && kind != ChangeCipherSpec && kind != Finished
      requires Rank(p, next) < Rank(p, state) && !PastChangeCipherSpec(p, next) && next != ProcessChangeCipherSpec
      requires p.resumed ==> !FullOnly(p, next)
      modifies this`state, this`transcript, this`incoming, this`rest
      ensures Sound(false) && w == Reading(old(incoming), kind, ch)
      ensures if w != Continue then unchanged(this)
              else
                && state == next && NextIs(old(incoming), kind)
                && transcript == old(transcript) + [old(incoming)[0]] && incoming == old(incoming)[1..]
                && rest == if old(rest) == [] then [] else old(rest)[1..]
      ensures w == Continue && old(rest) != [] && old(rest)[0] == Step(Server, kind) ==> Reaches(p, old(View()), View())
    {
      hide Reaches;
      w := TakeOne(kind, ch);
      if w == Continue {
        state := next;
      }
    }

    /** Reading a message that the server may leave out: any other is left for the next state. */
    method ReadOptional(kind: Kind, ch: Choice, next: State) returns (w: Wait, taken: bool)
      requires Sound(false) && kind != ChangeCipherSpec && kind != Finished
      requires Rank(p, next) < Rank(p, state) && !PastChangeCipherSpec(p, next) && next != ProcessChangeCipherSpec
      requires p.resumed ==> !FullOnly(p, next)
      modifies this`state, this`transcript, this`incoming, this`rest
      ensures Sound(false) && (w == ReadMessage || w == Error || w == Continue)
      ensures (w == ReadMessage <==> Peek(old(incoming), ch).None?) && (w == Error ==> ch.fail)
      ensures w == Continue && ch.fail ==> !taken
      ensures w != Continue ==> unchanged(this)
      ensures w == Continue ==>
                && state == next && old(incoming) != [] && taken == NextIs(old(incoming), kind)
                && transcript == old(transcript) + Front(old(incoming), taken)
                && incoming == (if taken then old(incoming)[1..] else old(incoming))
                && rest == (if old(rest) == [] || !taken then old(rest) else old(rest)[1..])
                && (!taken || (old(rest) != [] && old(rest)[0] == Step(Server, kind)) ==> Reaches(p, old(View()), View()))
    {
      ReachesSelf(p, View());
      var m := Peek(incoming, ch);
      if m.None? {
        return ReadMessage, false;
      }
      if m.value.kind != kind {
        state := next;
        return Continue, false;
      }
      w := ReadOne(kind, ch, next);
      taken := true;
    }

    method DoStartConnect(ch: Choice) returns (w: Wait)
      requires Sound(false) && Tidy(Continue) && state == StartConnect
      modifies this
      ensures Stepped(old(View()), old(state), old(OnTrack()), ch, w)
      ensures Heeds(old(View()), old(state), old(MustDo()), ch)
    {
      hide RestOf, Reaches;
      ghost var before := View();
      ReachesSelf(p, View());
      SendingNext(p);
      if ch.fail {
        return Error;
      }
      Send(Item(ClientHello, ch.body), before);
      state := EnterEarlyData;
      return Flush;
    }

    /** Neither DTLS nor early data. */
    method DoEnterEarlyData() returns (w: Wait)
      requires Sound(false) && Tidy(Continue) && state == EnterEarlyData
      modifies this
      ensures Stepped(old(View()), old(state), old(OnTrack()), KIND, w)
      ensures state == Next(p, old(state)) && transcript == old(transcript) && outgoing == old(outgoing)
    {
      ReachesSelf(p, View());
      state := ReadServerHello;
      return Continue;
    }

    method DoReadServerHello(ch: Choice) returns (w: Wait)
      requires Sound(false) && Tidy(Continue) && state == ReadServerHello
      modifies this
      ensures Stepped(old(View()), old(state), old(OnTrack()), ch, w)
      ensures Heeds(old(View()), old(state), old(MustDo()), ch)
    {
      ReachesSelf(p, View());
      var next := if p.resumed then ReadSessionTicket else ReadServerCertificate;
      FirstStep(true, Step(Server, ServerHello), RestOf(p, next), RestOf(p, state));
      w := ReadOne(ServerHello, ch, next);
    }

    method DoReadServerCertificate(ch: Choice) returns (w: Wait)
      requires Sound(false) && Tidy(Continue) && state == ReadServerCertificate
      modifies this
      ensures Stepped(old(View()), old(state), old(OnTrack()), ch, w)
      ensures Heeds(old(View()), old(state), old(MustDo()), ch)
    {
      ReachesSelf(p, View());
      FirstStep(p.certAuth, Step(Server, Certificate), RestOf(p, ReadCertificateStatus), RestOf(p, state));
      if !p.certAuth {
        state := ReadCertificateStatus;
        return Continue;
      }
      w := ReadOne(Certificate, ch, ReadCertificateStatus);
    }

    /** The server may have changed its mind about sending CertificateStatus. */
    method DoReadCertificateStatus(ch: Choice) returns (w: Wait)
      requires Sound(false) && Tidy(Continue) && state == ReadCertificateStatus
      modifies this
      ensures w == Continue ==>
                transcript == old(transcript) + old(Front(incoming, statusExpected && NextIs(incoming, CertificateStatus)))
      ensures Stepped(old(View()), old(state), old(OnTrack()), ch, w)
      ensures Heeds(old(View()), old(state), old(MustDo()), ch)
    {
      hide RestOf;
      ReachesSelf(p, View());
      StatusNext(p);
      if !statusExpected {
        state := VerifyServerCertificate;
        return Continue;
      }
      var taken;
      w, taken := ReadOptional(CertificateStatus, ch, VerifyServerCertificate);
    }

    method DoVerifyServerCertificate(ch: Choice) returns (w: Wait)
      requires Sound(false) && Tidy(Continue) && state == VerifyServerCertificate
      modifies this
      ensures Stepped(old(View()), old(state), old(OnTrack()), ch, w)
      ensures Heeds(old(View()), old(state), old(MustDo()), ch)
    {
      ReachesSelf(p, View());
      if p.certAuth {
        if ch.fail {
          return Error;
        }
        if ch.retry {
          return Pending;
        }
      }
      state := ReadServerKeyExchange;
      return Continue;
    }

    /** Some ciphers have an optional ServerKeyExchange. */
    method DoReadServerKeyExchange(ch: Choice) returns (w: Wait)
      requires Sound(false) && Tidy(Continue) && state == ReadServerKeyExchange
      modifies this
      ensures Stepped(old(View()), old(state), old(OnTrack()), ch, w)
      ensures Heeds(old(View()), old(state), old(MustDo()), ch)
    {
      hide RestOf, Reaches;
      ReachesSelf(p, View());
      ServerChoices(p);
      if p.keyExchangeRequired {
        w := ReadOne(ServerKeyExchange, ch, ReadCertificateRequest);
        return;
      }
      var taken;
      w, taken := ReadOptional(ServerKeyExchange, ch, ReadCertificateRequest);
    }

    method DoReadCertificateRequest(ch: Choice) returns (w: Wait)
      requires Sound(false) && Tidy(Continue) && state == ReadCertificateRequest
      modifies this
      ensures Stepped(old(View()), old(state), old(OnTrack()), ch, w)
      ensures Heeds(old(View()), old(state), old(MustDo()), ch)
    {
      hide RestOf, Reaches;
      ReachesSelf(p, View());
      ServerChoices(p);
      if !p.certAuth {
        state := ReadServerHelloDone;
        return Continue;
      }
      var m := Peek(incoming, ch);
      if m.Some? && m.value.kind == ServerHelloDone {
        state := ReadServerHelloDone;
        return Continue;
      }
      w := ReadOne(CertificateRequest, ch, ReadServerHelloDone);
      if w == Continue {
        certRequest := true;
      }
    }

    method DoReadServerHelloDone(ch: Choice) returns (w: Wait)
      requires Sound(false) && Tidy(Continue) && state == ReadServerHelloDone
      modifies this
      ensures Stepped(old(View()), old(state), old(OnTrack()), ch, w)
      ensures Heeds(old(View()), old(state), old(MustDo()), ch)
    {
      hide RestOf, Reaches;
      ReachesSelf(p, View());
      ServerChoices(p);
      w := ReadOne(ServerHelloDone, ch, SendClientCertificate);
    }

    method DoSendClientCertificate(ch: Choice) returns (w: Wait)
      requires Sound(false) && Tidy(Continue) && state == SendClientCertificate
      modifies this
      ensures Stepped(old(View()), old(state), old(OnTrack()), ch, w)
      ensures Heeds(old(View()), old(state), old(MustDo()), ch)
    {
      hide RestOf, Reaches;
      ghost var before := View();
      ReachesSelf(p, before);
      SendingNext(p);
      if !certRequest {
        state := SendClientKeyExchange;
        return Continue;
      }
      if ch.fail {
        return Error;
      }
      if ch.retry {
        return Pending;
      }
      var chain := if hasCertificate then 1 + ch.body else 0;
      Send(Item(Certificate, chain), before);
      state := SendClientKeyExchange;
      return Continue;
    }

    method DoSendClientKeyExchange(ch: Choice) returns (w: Wait)
      requires Sound(false) && Tidy(Continue) && state == SendClientKeyExchange
      modifies this
      ensures Stepped(old(View()), old(state), old(OnTrack()), ch, w)
      ensures Heeds(old(View()), old(state), old(MustDo()), ch)
    {
      hide RestOf, Reaches;
      ghost var before := View();
      ReachesSelf(p, before);
      SendingNext(p);
      if ch.fail {
        return Error;
      }
      Send(Item(ClientKeyExchange, ch.body), before);
      state := SendClientCertificateVerify;
      return Continue;
    }

    method DoSendClientCertificateVerify(ch: Choice) returns (w: Wait)
      requires Sound(false) && Tidy(Continue) && state == SendClientCertificateVerify
      modifies this
      ensures Stepped(old(View()), old(state), old(OnTrack()), ch, w)
      ensures Heeds(old(View()), old(state), old(MustDo()), ch)
    {
      hide RestOf, Reaches;
      ghost var before := View();
      ReachesSelf(p, before);
      SendingNext(p);
      if !certRequest || !hasCertificate {
        state := SendClientFinished;
        return Continue;
      }
      if ch.fail {
        return Error;
      }
      if ch.retry {
        return Pending;
      }
      Send(Item(CertificateVerify, ch.body), before);
      state := SendClientFinished;
      return Continue;
    }

    /** The Channel ID is resolved first, before anything is sent. */
    method DoSendClientFinished(ch: Choice) returns (w: Wait)
      requires Sound(false) && Tidy(Continue) && state == SendClientFinished
      modifies this
      ensures w == Flush ==>
                && outgoing == old(outgoing) + LastFlight(p, old(transcript), ch)
                && transcript == old(transcript) + LastMessages(p, old(transcript), ch)
      ensures Stepped(old(View()), old(state), old(OnTrack()), ch, w)
      ensures Heeds(old(View()), old(state), old(MustDo()), ch)
    {
      hide Reaches, LastFlight, LastMessages, MayPlay, ClientFinish;
      ghost var before := View();
      ReachesSelf(p, before);
      if ch.fail {
        return Error;
      }
      if p.channelId && ch.retry {
        return Pending;
      }
      SendLastFlight(ch, before, RestOf(p, FinishFlight));
      state := FinishFlight;
      return Flush;
    }

    /** Sending a message or record if it is there at all; `tail` is what the flow has after it. */
    method SendIf(present: bool, x: Item, ghost before: Peer, ghost tail: seq<Step>)
      requires x.kind != Finished
      modifies this`transcript, this`outgoing, this`rest
      ensures transcript == old(transcript) + if present then Hashed(x) else []
      ensures outgoing == old(outgoing) + OptionalItem(present, x.kind, x.body)
      ensures old(Reaches(p, before, View()) && rest == Optional(present, Client, x.kind) + tail)
              && Expected(p, Step(Client, x.kind), x) ==>
                rest == tail && Reaches(p, before, View())
    {
      if rest == Optional(present, Client, x.kind) + tail {
        FirstStep(present, Step(Client, x.kind), tail, rest);
      }
      if present {
        Send(x, before);
      }
    }

    method SendLastFlight(ch: Choice, ghost before: Peer, ghost last: seq<Step>)
      modifies this`transcript, this`outgoing, this`rest
      ensures outgoing == old(outgoing) + LastFlight(p, old(transcript), ch)
      ensures transcript == old(transcript) + LastMessages(p, old(transcript), ch)
      ensures old(Reaches(p, before, View()) && rest == ClientFinish(p) + last) ==>
                rest == last && Reaches(p, before, View())
    {
      hide Reaches, MayPlay, Hashed, OptionalItem, LastFlight, LastMessages, BeforeFinished, ClientFinish;
      NotHashed(p, ch);
      LastInParts(p, transcript, outgoing, ch);
      ClientFinishSteps(p, last);
      SendIf(true, Item(ChangeCipherSpec, 0), before, AfterClientCcs(p, last));
      SendIf(p.nextProto, Item(NextProto, ch.body), before, AfterNextProto(p, last));
      SendIf(p.channelId, Item(ChannelId, ch.body2), before, [Step(Client, Finished)] + last);
      SendFinished(before);
    }

    /** ssl_send_finished */
    method SendFinished(ghost before: Peer)
      modifies this`transcript, this`outgoing, this`rest
      ensures rest == if old(rest) == [] then [] else old(rest)[1..]
      ensures var finished := Item(Finished, p.mac(old(transcript), Client));
              transcript == old(transcript) + [finished] && outgoing == old(outgoing) + [finished]
      ensures old(Reaches(p, before, View()) && rest != [] && rest[0] == Step(Client, Finished)) ==>
                Reaches(p, before, View())
    {
      Send(Item(Finished, p.mac(transcript, Client)), before);
    }

    /** In False Start the application may go on early. */
    method DoFinishFlight(ch: Choice) returns (w: Wait)
      requires Sound(false) && Tidy(Continue) && state == FinishFlight
      modifies this
      ensures Stepped(old(View()), old(state), old(OnTrack()), ch, w)
      ensures Heeds(old(View()), old(state), old(MustDo()), ch)
    {
      ReachesSelf(p, View());
      if p.resumed {
        state := FinishClientHandshake;
        return Continue;
      }
      if ch.fail {
        return Error;
      }
      state := ReadSessionTicket;
      return if ch.retry then EarlyReturn else Continue;
    }

    method DoReadSessionTicket(ch: Choice) returns (w: Wait)
      requires Sound(false) && Tidy(Continue) && state == ReadSessionTicket
      modifies this
      ensures w == ReadChangeCipherSpec ==>
                && (p.ticket ==> NextIs(old(incoming), NewSessionTicket))
                && transcript == old(transcript) + Front(old(incoming), p.ticket)
      ensures Stepped(old(View()), old(state), old(OnTrack()), ch, w)
      ensures Heeds(old(View()), old(state), old(MustDo()), ch)
    {
      hide RestOf, Reaches, Consistent;
      ghost var before := View();
      ReachesSelf(p, before);
      TicketNext(p);
      if p.ticket {
        w := TakeOne(NewSessionTicket, ch);
        if w != Continue {
          return;
        }
      }
      state := ProcessChangeCipherSpec;
      return ReadChangeCipherSpec;
    }

    method DoProcessChangeCipherSpec(ch: Choice) returns (w: Wait)
      requires Sound(false) && Tidy(Continue) && state == ProcessChangeCipherSpec
      modifies this
      ensures Stepped(old(View()), old(state), old(OnTrack()), ch, w)
      ensures Heeds(old(View()), old(state), old(MustDo()), ch)
    {
      ReachesSelf(p, View());
      if ch.fail {
        return Error;
      }
      state := ReadServerFinished;
      return Continue;
    }

    /** The next message is the server's Finished over this transcript. */
    predicate Matched(incoming: seq<Item>, transcript: seq<Item>) {
      incoming != [] && incoming[0] == Item(Finished, p.mac(transcript, Server))
    }

    /** ssl_get_finished: the MAC is taken before the message is hashed. */
    method TakeFinished(ch: Choice) returns (w: Wait)
      modifies this`transcript, this`incoming, this`rest
      ensures w == if Peek(old(incoming), ch).None? then ReadMessage
                   else if ch.fail || !Matched(old(incoming), old(transcript)) then Error else Continue
      ensures if w != Continue then unchanged(this)
              else
                && transcript == old(transcript) + [old(incoming)[0]] && incoming == old(incoming)[1..]
                && rest == if old(rest) == [] then [] else old(rest)[1..]
      ensures w == Continue && old(rest) != [] && old(rest)[0] == Step(Server, Finished) ==>
                Reaches(p, old(View()), View())
    {
      ghost var before := View();
      ReachesSelf(p, before);
      var m := Peek(incoming, ch);
      if m.None? {
        return ReadMessage;
      }
      if m.value.kind != Finished {
        return Error;
      }
      var finished := p.mac(transcript, Server);
      if m.value.body != finished || ch.fail {
        return Error;
      }
      Receive(m.value, before);
      return Continue;
    }

    method DoReadServerFinished(ch: Choice) returns (w: Wait)
      requires Sound(false) && Tidy(Continue) && state == ReadServerFinished
      modifies this
      ensures w == Continue ==> Matched(old(incoming), old(transcript))
      ensures w == Continue ==> transcript == old(transcript) + [old(incoming)[0]] && incoming == old(incoming)[1..]
      ensures Stepped(old(View()), old(state), old(OnTrack()), ch, w)
      ensures Heeds(old(View()), old(state), old(MustDo()), ch)
    {
      hide RestOf, Reaches, Consistent, RankIn;
      ghost var before := View();
      ReachesSelf(p, before);
      FinishedNext(p);
      w := TakeFinished(ch);
      if w == Continue {
        finishedMatched := true;
        state := if p.resumed then SendClientFinished else FinishClientHandshake;
      }
    }

    method DoFinishClientHandshake(ch: Choice) returns (w: Wait)
      requires Sound(false) && Tidy(Continue) && state == FinishClientHandshake
      modifies this
      ensures Stepped(old(View()), old(state), old(OnTrack()), ch, w)
      ensures Heeds(old(View()), old(state), old(MustDo()), ch)
    {
      ReachesSelf(p, View());
      if ch.fail {
        return Error;
      }
      state := Done;
      return Continue;
    }

    /** One turn of the loop of ssl_client_handshake. */
    method StepOnce(ch: Choice) returns (w: Wait)
      requires Sound(false) && Tidy(Continue) && state != Done
      modifies this
      ensures Stepped(old(View()), old(state), old(OnTrack()), ch, w)
      ensures Heeds(old(View()), old(state), old(MustDo()), ch)
    {
      match state
      case StartConnect => w := DoStartConnect(ch);
      case EnterEarlyData => w := DoEnterEarlyData();
      case ReadServerHello => w := DoReadServerHello(ch);
      case ReadServerCertificate => w := DoReadServerCertificate(ch);
      case ReadCertificateStatus => w := DoReadCertificateStatus(ch);
      case VerifyServerCertificate => w := DoVerifyServerCertificate(ch);
      case ReadServerKeyExchange => w := DoReadServerKeyExchange(ch);
      case ReadCertificateRequest => w := DoReadCertificateRequest(ch);
      case ReadServerHelloDone => w := DoReadServerHelloDone(ch);
      case SendClientCertificate => w := DoSendClientCertificate(ch);
      case SendClientKeyExchange => w := DoSendClientKeyExchange(ch);
      case SendClientCertificateVerify => w := DoSendClientCertificateVerify(ch);
      case SendClientFinished => w := DoSendClientFinished(ch);
      case FinishFlight => w := DoFinishFlight(ch);
      case ReadSessionTicket => w := DoReadSessionTicket(ch);
      case ProcessChangeCipherSpec => w := DoProcessChangeCipherSpec(ch);
      case ReadServerFinished => w := DoReadServerFinished(ch);
      case FinishClientHandshake => w := DoFinishClientHandshake(ch);
    }

    lemma DemandsMust()
      ensures Demands(p, state) ==> MustDo()
    {
    }

    /** What was carried out since did not fail, and is finished. */
    ghost predicate Unfailing(env: State -> Choice, earlier: seq<State>, carried: seq<State>) {
      earlier <= carried && forall s | s in carried[|earlier|..] :: !Denied(p, s, env(s))
    }

    lemma NothingYet(env: State -> Choice, earlier: seq<State>, s: State)
      ensures HeldBack(p, env, s, s) && Unfailing(env, earlier, earlier)
      ensures Visits([s], s, s)
    {
    }

    lemma Carry(env: State -> Choice, from: State, earlier: seq<State>, carried: seq<State>, s: State, must: bool)
      requires OnPath(p, s) && s != Done && (Demands(p, s) ==> must) && (Denied(p, s, env(s)) ==> !must)
      requires HeldBack(p, env, from, s) && CarriedOut(p, carried, s) && Unfailing(env, earlier, carried)
      ensures HeldBack(p, env, from, Next(p, s))
      ensures CarriedOut(p, if must then carried + [s] else carried, Next(p, s))
      ensures Unfailing(env, earlier, if must then carried + [s] else carried)
    {
      hide Demands, Denied, MayWait, OnPath, Next, Rank, HeldBack, CarriedOut;
      HeldStep(p, env, from, s);
      CarriedStep(p, carried, s, must);
      assert (carried + [s])[|earlier|..] == carried[|earlier|..] + [s];
    }

    /** Both sides follow the flow, all that arrived can be read, and a wait is for what the flow has
        next. */
    ghost predicate OnCourse(w: Wait)
      reads this`certRequest, this`incoming, this`outgoing, this`readError, this`rest, this`state, this`transcript
    {
      && Follows(w == ReadChangeCipherSpec) && Aligned(p, View())
      && (w == ReadMessage ==> AwaitsMessage())
    }

    /** The states from `from` to `to`, of which each is the one before or has a smaller rank. */
    ghost predicate Visits(visited: seq<State>, from: State, to: State) {
      visited != [] && visited[0] == from && visited[|visited| - 1] == to && Descends(RankIn(p), visited)
    }

    /** A new state, or the old one because nothing has arrived. */
    predicate Moved(was: State, before: seq<Item>, w: Wait)
      reads this`state
    {
      Rank(p, state) < Rank(p, was) || was == Done || (w == ReadMessage && state == was && before == [])
    }

    /**
     ssl_client_handshake, with any choices of the environment, one for each state: it ends because
     every turn that goes on decreases the rank, and it is done only past the ChangeCipherSpec record
     and the Finished.
     */
    method Drive(env: State -> Choice, ghost earlier: seq<State>)
      returns (w: Wait, ghost visited: seq<State>, ghost carried: seq<State>)
      requires Sound(false) && Tidy(Continue) && CarriedOut(p, earlier, state)
      modifies this
      ensures HeldBack(p, env, old(state), state)
      ensures CarriedOut(p, carried, state) && Unfailing(env, earlier, carried)
      ensures Sound(w == ReadChangeCipherSpec) && Tidy(w)
      ensures Visits(visited, old(state), state)
      ensures w == Continue ==> state == Done && ccsRead && finishedMatched
      ensures old(OnCourse(Continue)) ==> OnCourse(w) && Reaches(p, old(View()), View())
      ensures old(OnCourse(Continue)) && NeverFails(env) ==> w != Error
      ensures old(OnCourse(Continue)) && AlwaysKind(env) ==>
                w != Pending && w != EarlyReturn && Moved(old(state), old(incoming), w)
    {
      hide Reaches, RestOf, Consistent, MayPlay, Fails, HeldBack, CarriedOut, Next, Demands, Denied, Unfailing;
      ghost var before := View();
      ReachesSelf(p, before);
      w, visited, carried := Continue, [state], earlier;
      NothingYet(env, earlier, state);
      while state != Done
        invariant Sound(false) && Tidy(Continue) && w == Continue && Visits(visited, old(state), state)
        invariant HeldBack(p, env, old(state), state) && CarriedOut(p, carried, state) && Unfailing(env, earlier, carried)
        invariant old(OnCourse(Continue)) ==> OnCourse(Continue) && Reaches(p, before, View())
        invariant if state == old(state) then View() == before else Rank(p, state) < old(Rank(p, state))
        decreases Rank(p, state)
      {
        ghost var here, was, must := View(), state, MustDo();
        DemandsMust();
        w := StepOnce(env(state));
        if state != was {
          Carry(env, old(state), earlier, carried, was, must);
          carried := if must then carried + [was] else carried;
        }
        DescendsMore(RankIn(p), visited, state);
        visited := visited + [state];
        if old(OnCourse(Continue)) {
          ReachesTogether(p, before, here, View());
          ReachesAligned(p, here, View());
        }
        if w != Continue {
          return;
        }
      }
    }

    /** ssl_run_handshake reading the ChangeCipherSpec record it waits for. */
    method ReadChangeCipherSpecRecord()
      requires Sound(true) && incoming != [] && incoming[0].kind == ChangeCipherSpec
      modifies this`incoming, this`rest, this`ccsRead
      ensures Sound(false) && incoming == old(incoming)[1..]
      ensures old(OnCourse(ReadChangeCipherSpec)) ==> OnCourse(Continue) && Reaches(p, old(View()), View())
    {
      ghost var before := View();
      ghost var x := incoming[0];
      FirstStep(true, Step(Server, ChangeCipherSpec), RestOf(p, state), Rest(p, state, true));
      incoming := incoming[1..];
      rest := if rest == [] then [] else rest[1..];
      ccsRead := true;
      if old(OnCourse(ReadChangeCipherSpec)) {
        ReachesSelf(p, before);
        ReachesMore(p, before, before, x);
        assert transcript + Hashed(x) == transcript;
        ReachesAligned(p, before, View());
      }
    }

    /** The state machine may run again: nothing is waited for, or what is waited for is there. */
    predicate Resolved(io: Transport)
      reads this
    {
      match wait
      case Continue => true
      case Flush => io.flushed && |outgoing| <= io.taken
      case ReadMessage => !readError && io.arrived && incoming != [] && incoming[0].kind != ChangeCipherSpec
      case ReadChangeCipherSpec => !readError && io.arrived && incoming != [] && incoming[0].kind == ChangeCipherSpec
      case Error => false
      case EarlyReturn => false
      case Pending => false
    }

    /** A record of the wrong type is next: reading fails then, and ever after. */
    predicate Misread(io: Transport)
      reads this
    {
      && (wait == ReadMessage || wait == ReadChangeCipherSpec) && io.arrived && incoming != []
      && (wait == ReadMessage <==> incoming[0].kind == ChangeCipherSpec)
    }

    /** flush_flight: `left` is what the transport takes of the flight. */
    method FlushFlight(io: Transport) returns (ok: bool, left: seq<Item>)
      modifies this`outgoing
      ensures left + outgoing == old(outgoing) && |left| == if |old(outgoing)| <= io.taken then |old(outgoing)| else io.taken
      ensures ok == (io.flushed && |old(outgoing)| <= io.taken)
    {
      var n := if |outgoing| <= io.taken then |outgoing| else io.taken;
      left, outgoing := outgoing[..n], outgoing[n..];
      ok := outgoing == [] && io.flushed;
    }

    /** The first half of a turn of ssl_run_handshake: resolve what the handshake waits for, if the
        environment lets it; otherwise `ret` is returned. `left` is what was sent. */
    method Resolve(io: Transport) returns (go: bool, ret: int, left: seq<Item>)
      requires Sound(wait == ReadChangeCipherSpec) && Tidy(wait)
      modifies this`wait, this`incoming, this`outgoing, this`rest, this`ccsRead, this`readError
      ensures go == old(Resolved(io)) && readError == old(readError || Misread(io))
      ensures if go then Sound(false) && Tidy(Continue) else Sound(wait == ReadChangeCipherSpec) && Tidy(wait)
      ensures !go ==> ret == if old(wait) == EarlyReturn then 1 else -1
      ensures wait == if old(wait) == Pending || old(wait) == EarlyReturn then Continue else old(wait)
      ensures left + outgoing == old(outgoing) && (old(wait) != Flush ==> left == [])
      ensures incoming == if go && old(wait) == ReadChangeCipherSpec then old(incoming)[1..] else old(incoming)
      ensures old(OnCourse(wait)) ==>
                OnCourse(if go then Continue else wait) && Reaches(p, Without(old(View()), left), View())
    {
      hide Follows, Aligned, Reaches, Sound, NextFits;
      left := [];
      ReachesSelf(p, View());
      if OnCourse(wait) {
        NoMisread(io);
      }
      match wait {
        case Continue =>
        case Flush =>
          ghost var before := View();
          var ok;
          ok, left := FlushFlight(io);
          FlushedView(before, left);
          if !ok {
            return false, -1, left;
          }
        case ReadMessage =>
          if readError || !io.arrived || |incoming| == 0 || incoming[0].kind == ChangeCipherSpec {
            readError := readError || (io.arrived && |incoming| != 0);
            return false, -1, left;
          }
        case ReadChangeCipherSpec =>
          if readError || !io.arrived || |incoming| == 0 || incoming[0].kind != ChangeCipherSpec {
            readError := readError || (io.arrived && |incoming| != 0);
            return false, -1, left;
          }
          ReadChangeCipherSpecRecord();
        case Error =>
          return false, -1, left;
        case EarlyReturn =>
          wait := Continue;
          return false, 1, left;
        case Pending =>
          wait := Continue;
          return false, -1, left;
      }
      return true, 0, left;
    }

    lemma NoMisread(io: Transport)
      requires OnCourse(wait)
      ensures !Misread(io)
    {
      assert NextFits(p, View());
    }

    lemma FlushedView(before: Peer, left: seq<Item>)
      requires before.outbox == left + outgoing && View() == before.(outbox := outgoing)
      ensures View() == Without(before, left) && Reaches(p, Without(before, left), View())
      ensures Aligned(p, before) ==> Aligned(p, View())
    {
      assert (left + outgoing)[|left|..] == outgoing;
      ReachesSelf(p, View());
      if Aligned(p, before) {
        assert before.inbox + [] == before.inbox;
        AlignedPrefix(p, View(), before, []);
      }
    }

    /** What a turn that the environment does not hold up gets nearer to the end by. */
    function Distance(): nat
      reads this`state, this`wait
    {
      3 * Rank(p, state) + Weight(wait)
    }

    /** What is waited for is the other side's to send, and when the handshake is done nothing is left. */
    lemma WaitsFor()
      requires OnCourse(wait)
      ensures wait == ReadMessage || wait == ReadChangeCipherSpec ==> rest != [] && rest[0].from == Server
      ensures state == Done && wait == Continue ==> rest == []
    {
    }

    /** The handshake goes on as soon as the environment lets it. */
    predicate CanGo()
      reads this
    {
      && state != Done && wait != Error
      && (wait == ReadMessage || wait == ReadChangeCipherSpec ==> incoming != [])
    }

    /** The transport reads and sends all there is. */
    predicate OpenTo(io: Transport)
      reads this
    {
      io.arrived && io.flushed && |outgoing| <= io.taken
    }

    lemma GoesOn(io: Transport)
      requires OnCourse(wait) && CanGo() && OpenTo(io)
      ensures Resolved(io) || wait == Pending || wait == EarlyReturn
    {
      assert NextFits(p, View());
    }

    /** One turn of the loop of ssl_run_handshake. The result is 0 when the loop goes on. */
    method Resume(io: Transport, env: State -> Choice, ghost earlier: seq<State>)
      returns (ret: int, left: seq<Item>, ghost visited: seq<State>, ghost carried: seq<State>)
      requires Sound(wait == ReadChangeCipherSpec) && Tidy(wait) && CarriedOut(p, earlier, state)
      modifies this
      ensures HeldBack(p, env, old(state), state)
      ensures CarriedOut(p, carried, state) && Unfailing(env, earlier, carried)
      ensures Sound(wait == ReadChangeCipherSpec) && Tidy(wait) && Visits(visited, old(state), state)
      ensures left <= old(outgoing) && (old(wait) != Flush ==> left == [])
      ensures ret > 0 ==> old(wait) == EarlyReturn || (state == Done && ccsRead && finishedMatched)
      ensures old(OnCourse(wait)) ==> OnCourse(wait) && Reaches(p, Without(old(View()), left), View())
      ensures old(OnCourse(wait) && wait != Error) && NeverFails(env) ==> wait != Error
      ensures old(OnCourse(wait) && CanGo() && OpenTo(io)) && AlwaysKind(env) ==> Distance() < old(Distance())
    {
      hide Follows, Aligned, Reaches, NextFits, Sound, Rank, Fails, HeldBack, CarriedOut, Unfailing, Visits, Demands,
        Denied, Descends, RankIn;
      if OnCourse(wait) && CanGo() && OpenTo(io) {
        GoesOn(io);
      }
      NothingYet(env, earlier, state);
      var go;
      visited, carried := [state], earlier;
      go, ret, left := Resolve(io);
      if !go {
        return;
      }
      ghost var here := View();
      wait, visited, carried := Drive(env, earlier);
      if old(OnCourse(wait)) {
        ReachesTogether(p, Without(old(View()), left), here, View());
      }
      ret := if wait == Error then -1 else if wait == Continue then 1 else 0;
    }
  }
}
