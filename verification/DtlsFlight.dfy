/** What the sender's packets and flights amount to: a tiling of the message bodies. */
module DtlsFlight {
  import opened Basics
  import opened DtlsFragment
  import opened DtlsRecord
  import opened DtlsSender
  import opened Wire

  // ----- One record -----

  function BodyOf(part: Part): seq<Byte> {
    if part.BodyPart? then part.whole.body else []
  }

  predicate PositionOk(parts: seq<Part>, pos: Pos) {
    && pos.msg <= |parts|
    && (pos.offset > 0 ==> pos.msg < |parts| && pos.offset < |BodyOf(parts[pos.msg])|)
  }

  /** How much of a body a record carries. */
  function Carried(c: Content): nat {
    if c.Handshake? then |c.fragment.body| else 0
  }

  /** A fragment of `whole` that starts at `offset`. */
  ghost predicate IsCut(f: Fragment, whole: Fragment, offset: nat) {
    && f.typ == whole.typ && f.msgLen == whole.msgLen && f.seqNo == whole.seqNo && f.offset == offset
    && offset + |f.body| <= |whole.body|
    && f.body == whole.body[offset..offset + |f.body|]
  }

  /** A record holds the next piece of a message from `offset`: nothing for a ChangeCipherSpec or
      an empty body, at least one byte of a body that has any left. */
  ghost predicate Carries(part: Part, offset: nat, c: Content) {
    && offset + Carried(c) <= |BodyOf(part)|
    && (Carried(c) == 0 ==> offset == |BodyOf(part)|)
    && match part
       case CcsPart(_) => c == ChangeCipherSpec
       case BodyPart(_, whole) => c.Handshake? && IsCut(c.fragment, whole, offset)
       case BadPart(_) => false
  }

  /** The same for a record, which is sealed under the epoch of the message and takes at least its
      header and what it holds. */
  ghost predicate Conveys(part: Part, offset: nat, rec: Record) {
    && Carries(part, offset, rec.content) && rec.epoch == part.epoch
    && RECORD_HEADER_LENGTH + ContentLen(rec.content) <= rec.size
  }

  function After(part: Part, pos: Pos, c: Content): Pos {
    Advance(pos, Carried(c), pos.offset + Carried(c) == |BodyOf(part)|)
  }

  /** One more record is in the log, under the next number of its epoch. */
  ghost predicate Logged(w: Writer, w': Writer, rec: Record) {
    && w'.epoch == w.epoch && w'.changes == w.changes
    && w'.current.aead == w.current.aead && w'.last.aead == w.last.aead
    && w'.sealed == w.sealed + [rec]
    && if rec.epoch == w.epoch then
         && rec.seqNo == w.current.seqNum
         && w'.current.seqNum == NextSequence(w.current.seqNum)
         && w'.last.seqNum == w.last.seqNum
       else
         && rec.epoch + 1 == w.epoch
         && rec.seqNo == w.last.seqNum
         && w'.last.seqNum == NextSequence(w.last.seqNum)
         && w'.current.seqNum == w.current.seqNum
  }

  lemma UseNumberLogs(w: Writer, c: Content, previous: bool)
    requires previous ==> w.epoch >= 1
    ensures Logged(w, UseNumber(w, NextRecord(w, c, previous), previous), NextRecord(w, c, previous))
  {
  }

  function LastRecord(w: Writer): Record
    requires w.sealed != []
  {
    w.sealed[|w.sealed| - 1]
  }

  /** One record was sealed, and it carries the next piece of a message. */
  ghost predicate Wrote(w: Writer, w': Writer, part: Part, offset: nat) {
    w'.sealed != [] && Logged(w, w', LastRecord(w')) && Conveys(part, offset, LastRecord(w'))
  }

  /** What sealing the next piece of a message does. */
  ghost predicate SealOk(w: Writer, part: Part, offset: nat, r: Sealing) {
    match r.result
    case NoProgress => r.writer == w
    case SealError => r.writer == w || Wrote(w, r.writer, part, offset)
    case Sealed(rec, todo, done) =>
      && Wrote(w, r.writer, part, offset) && rec == LastRecord(r.writer)
      && todo == Carried(rec.content) && (done <==> offset + todo == |BodyOf(part)|)
  }

  lemma SealRecordOk(w: Writer, part: Part, offset: nat, c: Content, previous: bool, maxOut: nat, done: bool, r: Sealing)
    requires (previous ==> w.epoch >= 1) && part.epoch == if previous then w.epoch - 1 else w.epoch
    requires Carries(part, offset, c) && (done <==> offset + Carried(c) == |BodyOf(part)|)
    requires r == SealRecord(w, c, previous, maxOut, Carried(c), done)
    ensures SealOk(w, part, offset, r)
  {
    UseNumberLogs(w, c, previous);
    assert NextRecord(w, c, previous).content == c;
  }

  lemma SealBodyOk(w: Writer, part: Part, offset: nat, overhead: nat, previous: bool, maxOut: nat, r: Sealing)
    requires (previous ==> w.epoch >= 1) && part.epoch == if previous then w.epoch - 1 else w.epoch
    requires part.BodyPart? && offset <= |part.whole.body|
    requires r == SealBody(w, part.whole, offset, overhead, previous, maxOut)
    ensures SealOk(w, part, offset, r)
  {
    var whole := part.whole;
    if maxOut >= HEADER_LENGTH + 1 + overhead {
      var todo := Min(|whole.body| - offset, maxOut - HEADER_LENGTH - overhead);
      SealRecordOk(w, part, offset, Handshake(Cut(whole, offset, todo)), previous, maxOut, offset + todo == |whole.body|, r);
    }
  }

  lemma SealNextOk(w: Writer, part: Part, offset: nat, maxOut: nat, r: Sealing)
    requires offset <= |BodyOf(part)|
    requires r == SealNextMessage(w, part, offset, maxOut)
    ensures SealOk(w, part, offset, r)
  {
    var previous := UsesPrevious(w, part);
    var overhead := RECORD_HEADER_LENGTH + MaxOverhead(KeysOf(w, previous).aead);
    if (previous || part.epoch == w.epoch) && r.result != NoProgress {
      if part.CcsPart? {
        SealRecordOk(w, part, offset, ChangeCipherSpec, previous, maxOut, true, r);
      } else if part.BodyPart? {
        SealBodyOk(w, part, offset, overhead, previous, maxOut, r);
      }
    }
  }

  // ----- Tilings -----

  /** The records carry, in order and without gap or overlap, what lies between two positions. */
  ghost predicate Tiles(parts: seq<Part>, from: Pos, recs: seq<Record>, to: Pos)
    decreases recs
  {
    if recs == [] then from == to
    else
      && from.msg < |parts|
      && Conveys(parts[from.msg], from.offset, recs[0])
      && Tiles(parts, After(parts[from.msg], from, recs[0].content), recs[1..], to)
  }

  lemma {:induction false} TilesAppend(parts: seq<Part>, a: Pos, first: seq<Record>, b: Pos,
                                       second: seq<Record>, c: Pos)
    requires Tiles(parts, a, first, b) && Tiles(parts, b, second, c)
    ensures Tiles(parts, a, first + second, c)
    decreases first
  {
    if first == [] {
      assert first + second == second;
    } else {
      assert (first + second)[1..] == first[1..] + second;
      TilesAppend(parts, After(parts[a.msg], a, first[0].content), first[1..], b, second, c);
    }
  }

  lemma TilesExtend(parts: seq<Part>, start: Pos, recs: seq<Record>, pos: Pos, rec: Record)
    requires Tiles(parts, start, recs, pos)
    requires pos.msg < |parts| && Conveys(parts[pos.msg], pos.offset, rec)
    ensures Tiles(parts, start, recs + [rec], After(parts[pos.msg], pos, rec.content))
  {
    var next := After(parts[pos.msg], pos, rec.content);
    assert Tiles(parts, next, [rec][1..], next);
    assert Tiles(parts, pos, [rec], next);
    TilesAppend(parts, start, recs, pos, [rec], next);
  }

  ghost predicate Before(a: Pos, b: Pos) {
    a.msg < b.msg || (a.msg == b.msg && a.offset < b.offset)
  }

  /** Every record moves the position forward. */
  lemma {:induction false} TilesForward(parts: seq<Part>, from: Pos, recs: seq<Record>, to: Pos)
    requires Tiles(parts, from, recs, to) && recs != []
    ensures Before(from, to)
    decreases recs
  {
    var mid := After(parts[from.msg], from, recs[0].content);
    if recs[1..] != [] {
      TilesForward(parts, mid, recs[1..], to);
    }
  }

  /** The bytes of the flight's bodies from a message on, and from a position on. */
  function Bodies(parts: seq<Part>, from: nat): seq<Byte>
    decreases |parts| - from
  {
    if from >= |parts| then [] else BodyOf(parts[from]) + Bodies(parts, from + 1)
  }

  function Left(parts: seq<Part>, pos: Pos): seq<Byte> {
    Drop(Bodies(parts, pos.msg), pos.offset)
  }

  function Drop(s: seq<Byte>, n: nat): seq<Byte> {
    if n <= |s| then s[n..] else []
  }

  /** The bytes of message bodies that a list of records carries. */
  function Payloads(recs: seq<Record>): seq<Byte> {
    if recs == [] then [] else Payload(recs[0].content) + Payloads(recs[1..])
  }

  function Payload(c: Content): seq<Byte> {
    if c.Handshake? then c.fragment.body else []
  }

  lemma DropInside(body: seq<Byte>, rest: seq<Byte>, offset: nat, n: nat)
    requires offset + n <= |body|
    ensures body[offset..offset + n] + Drop(body + rest, offset + n) == Drop(body + rest, offset)
    ensures Drop(body + rest, |body|) == rest && Drop(rest, 0) == rest
  {
  }

  lemma CarriedPiece(part: Part, offset: nat, c: Content)
    requires Carries(part, offset, c)
    ensures offset + Carried(c) <= |BodyOf(part)| && Payload(c) == BodyOf(part)[offset..offset + Carried(c)]
  {
  }

  lemma OnePiece(parts: seq<Part>, from: Pos, c: Content, next: Pos)
    requires from.msg < |parts| && Carries(parts[from.msg], from.offset, c)
    requires next == After(parts[from.msg], from, c)
    ensures Payload(c) + Left(parts, next) == Left(parts, from)
  {
    hide Carries, Drop, Payload, BodyOf;
    var body, rest := BodyOf(parts[from.msg]), Bodies(parts, from.msg + 1);
    CarriedPiece(parts[from.msg], from.offset, c);
    DropInside(body, rest, from.offset, Carried(c));
  }

  /** Conservation: what a tiling carries, and what is left after it, is what was to be sent. */
  lemma {:induction false} TilesConserve(parts: seq<Part>, from: Pos, recs: seq<Record>, to: Pos)
    requires Tiles(parts, from, recs, to)
    ensures Payloads(recs) + Left(parts, to) == Left(parts, from)
    decreases recs
  {
    if recs != [] {
      var c := recs[0].content;
      TilesConserve(parts, After(parts[from.msg], from, c), recs[1..], to);
      OnePiece(parts, from, c, After(parts[from.msg], from, c));
      Associative(Payload(c), Payloads(recs[1..]), Left(parts, to));
    }
  }

  // ----- Packets -----

  lemma SealedPosition(parts: seq<Part>, pos: Pos, c: Content)
    requires pos.msg < |parts| && Carries(parts[pos.msg], pos.offset, c)
    ensures PositionOk(parts, After(parts[pos.msg], pos, c))
  {
  }

  /** A property of the records so far and the position that one more record keeps. */
  ghost predicate Inductive(parts: seq<Part>, P: (seq<Record>, Pos) -> bool) {
    forall recs, pos, rec | P(recs, pos) && Next(parts, pos, rec) :: P(recs + [rec], AfterRecord(parts, pos, rec))
  }

  ghost predicate Next(parts: seq<Part>, pos: Pos, rec: Record) {
    pos.msg < |parts| && Conveys(parts[pos.msg], pos.offset, rec)
  }

  function AfterRecord(parts: seq<Part>, pos: Pos, rec: Record): Pos
    requires pos.msg < |parts|
  {
    After(parts[pos.msg], pos, rec.content)
  }

  ghost predicate PacketOk(parts: seq<Part>, P: (seq<Record>, Pos) -> bool, p: Packing) {
    && PositionOk(parts, p.pos)
    && (p.packet.Packet? ==> P(p.packet.records, p.pos) && p.packet.records != [])
  }

  /** One turn of the loop of seal_next_packet. */
  lemma FillStep(parts: seq<Part>, pos: Pos, w: Writer, maxOut: nat, recs: seq<Record>, r: Sealing, p: Packing)
    requires pos.msg <= |parts| && p == FillPacket(parts, pos, w, maxOut, recs)
    requires pos.msg < |parts| ==> r == SealNextMessage(w, parts[pos.msg], pos.offset, maxOut)
    ensures pos.msg == |parts| ==> p == Finish(pos, w, recs)
    ensures pos.msg < |parts| ==>
              p == match r.result
                   case SealError => Packing(pos, r.writer, PacketError)
                   case NoProgress => Finish(pos, w, recs)
                   case Sealed(rec, todo, done) =>
                     if done then FillPacket(parts, Pos(pos.msg + 1, 0), r.writer, maxOut - rec.size, recs + [rec])
                     else Finish(Advance(pos, todo, false), r.writer, recs + [rec])
  {
    hide SealNextMessage, AsPacket;
  }

  /** Such a property holds of a packet when it holds of the records before it. */
  lemma {:induction false} PacketInduction(parts: seq<Part>, P: (seq<Record>, Pos) -> bool, pos: Pos, w: Writer,
                                           maxOut: nat, recs: seq<Record>, p: Packing)
    requires Inductive(parts, P) && PositionOk(parts, pos) && P(recs, pos)
    requires p == FillPacket(parts, pos, w, maxOut, recs)
    ensures PacketOk(parts, P, p)
    ensures p.packet.MtuTooSmall? ==> recs == [] && p.pos == pos && p.writer == w
    decreases |parts| - pos.msg
  {
    hide FillPacket, SealNextMessage;
    if pos.msg == |parts| {
      FillStep(parts, pos, w, maxOut, recs, Sealing(w, SealError), p);
    } else {
      var part := parts[pos.msg];
      var r := SealNextMessage(w, part, pos.offset, maxOut);
      FillStep(parts, pos, w, maxOut, recs, r, p);
      SealNextOk(w, part, pos.offset, maxOut, r);
      if r.result.Sealed? {
        var rec := r.result.record;
        assert Next(parts, pos, rec);
        SealedPosition(parts, pos, rec.content);
        assert P(recs + [rec], AfterRecord(parts, pos, rec));
        if r.result.done {
          PacketInduction(parts, P, After(part, pos, rec.content), r.writer, maxOut - rec.size, recs + [rec], p);
        }
      }
    }
  }

  /** A packet tiles from where the sender was to where it is then. */
  lemma PacketTiles(parts: seq<Part>, pos: Pos, w: Writer, mtu: nat)
    requires PositionOk(parts, pos)
    ensures var p := FillPacket(parts, pos, w, mtu, []);
            && PositionOk(parts, p.pos)
            && (p.packet.Packet? ==> Tiles(parts, pos, p.packet.records, p.pos) && p.packet.records != [])
            && (p.packet.MtuTooSmall? ==> p.pos == pos && p.writer == w)
  {
    var P := (recs, to) => Tiles(parts, pos, recs, to);
    TilesInductive(parts, pos, P);
    PacketInduction(parts, P, pos, w, mtu, [], FillPacket(parts, pos, w, mtu, []));
  }

  lemma TilesInductive(parts: seq<Part>, start: Pos, P: (seq<Record>, Pos) -> bool)
    requires forall recs, pos :: P(recs, pos) == Tiles(parts, start, recs, pos)
    ensures Inductive(parts, P)
  {
    forall recs, pos, rec | P(recs, pos) && Next(parts, pos, rec)
      ensures P(recs + [rec], AfterRecord(parts, pos, rec))
    {
      TilesExtend(parts, start, recs, pos, rec);
    }
  }

  /** A packet fits the room it was given. */
  lemma {:induction false} PacketFits(parts: seq<Part>, pos: Pos, w: Writer, maxOut: nat, recs: seq<Record>,
                                      p: Packing)
    requires pos.msg <= |parts|
    requires p == FillPacket(parts, pos, w, maxOut, recs)
    ensures p.packet.Packet? ==> PacketSize(p.packet.records) <= PacketSize(recs) + maxOut
    decreases |parts| - pos.msg
  {
    if pos.msg < |parts| {
      var r := SealNextMessage(w, parts[pos.msg], pos.offset, maxOut);
      if r.result.Sealed? {
        var rec := r.result.record;
        assert (recs + [rec])[..|recs|] == recs;
        if r.result.done {
          PacketFits(parts, Pos(pos.msg + 1, 0), r.writer, maxOut - rec.size, recs + [rec], p);
        }
      }
    }
  }

  /** A packet that was sealed moved the position: this is why send_flight ends. */
  lemma PacketForward(parts: seq<Part>, pos: Pos, w: Writer, mtu: nat)
    requires PositionOk(parts, pos) && FillPacket(parts, pos, w, mtu, []).packet.Packet?
    ensures Before(pos, FillPacket(parts, pos, w, mtu, []).pos)
  {
    var p := FillPacket(parts, pos, w, mtu, []);
    PacketTiles(parts, pos, w, mtu);
    TilesForward(parts, pos, p.packet.records, p.pos);
  }

  /** The room that the next message needs before any of it can be sent. */
  function Needed(w: Writer, part: Part): nat {
    RECORD_HEADER_LENGTH + MaxOverhead(KeysOf(w, UsesPrevious(w, part)).aead)
      + if part.CcsPart? then 1 else HEADER_LENGTH + 1
  }

  predicate CanSeal(w: Writer, part: Part) {
    (UsesPrevious(w, part) || part.epoch == w.epoch) && !part.BadPart?
  }

  /** Exactly when the MTU is too small: the next message has nothing wrong with it, and there is
      no room for its header and one byte. */
  lemma TooSmallExactly(parts: seq<Part>, pos: Pos, w: Writer, mtu: nat)
    requires PositionOk(parts, pos) && pos.msg < |parts|
    ensures FillPacket(parts, pos, w, mtu, []).packet.MtuTooSmall?
       <==> CanSeal(w, parts[pos.msg]) && mtu < Needed(w, parts[pos.msg])
  {
    var part := parts[pos.msg];
    var r := SealNextMessage(w, part, pos.offset, mtu);
    if r.result.Sealed? {
      var rec := r.result.record;
      assert [] + [rec] == [rec];
      SealNextOk(w, part, pos.offset, mtu, r);
      SealedPosition(parts, pos, rec.content);
      if r.result.done {
        PacketInduction(parts, (_, _) => true, After(part, pos, rec.content), r.writer, mtu - rec.size, [rec],
                        FillPacket(parts, pos, w, mtu, []));
      }
    }
  }

  // ----- Flights -----

  ghost predicate Fits(datagrams: seq<seq<Record>>, mtu: nat) {
    forall d | d in datagrams :: PacketSize(d) <= mtu
  }

  /** What differs is the position, the writer and the datagrams sent. */
  ghost predicate SameFlight(s: Sender, s': Sender) {
    s' == s.(pos := s'.pos, writer := s'.writer, sent := s'.sent)
  }

  /** A property of the datagrams sent so far and the position that one more datagram keeps. */
  ghost predicate SendInductive(parts: seq<Part>, mtu: nat, P: (seq<seq<Record>>, Pos) -> bool) {
    forall ds, pos, d, to | P(ds, pos) && NextDatagram(parts, pos, d, to, mtu) :: P(ds + [d], to)
  }

  ghost predicate NextDatagram(parts: seq<Part>, pos: Pos, d: seq<Record>, to: Pos, mtu: nat) {
    Tiles(parts, pos, d, to) && PacketSize(d) <= mtu
  }

  /** One turn of the loop of send_flight. */
  lemma SendStep(s: Sender, mtu: nat, accepts: nat, p: Packing, r: Sending)
    requires s.pos.msg <= |s.msgs| && p == FillPacket(Parts(s.msgs), s.pos, s.writer, mtu, [])
    requires r == SendPackets(s, mtu, accepts)
    ensures s.pos.msg == |s.msgs| ==> r == Sending(s, Sent)
    ensures s.pos.msg < |s.msgs| ==>
              r == if !p.packet.Packet? then Sending(s.(pos := p.pos, writer := p.writer), Failed(p.packet))
                   else if accepts == 0 then Sending(s.(writer := p.writer), Blocked)
                   else SendPackets(Took(s, p), mtu, accepts - 1)
  {
  }

  /** The transport took the packet. */
  function Took(s: Sender, p: Packing): (s': Sender)
    requires p.packet.Packet?
  {
    s.(pos := p.pos, writer := p.writer, sent := s.sent + [p.packet.records])
  }

  lemma {:induction false} SendFrame(s: Sender, mtu: nat, accepts: nat, r: Sending)
    requires PositionOk(Parts(s.msgs), s.pos)
    requires r == SendPackets(s, mtu, accepts)
    ensures SameFlight(s, r.sender) && PositionOk(Parts(s.msgs), r.sender.pos)
    ensures r.result.Sent? ==> r.sender.pos == Pos(|s.msgs|, 0)
    decreases accepts
  {
    hide SendPackets, FillPacket, Tiles;
    var p := FillPacket(Parts(s.msgs), s.pos, s.writer, mtu, []);
    SendStep(s, mtu, accepts, p, r);
    if s.pos.msg < |s.msgs| {
      PacketTiles(Parts(s.msgs), s.pos, s.writer, mtu);
      if p.packet.Packet? && accepts > 0 {
        SendFrame(Took(s, p), mtu, accepts - 1, r);
      }
    }
  }

  lemma OneDatagram(parts: seq<Part>, mtu: nat, P: (seq<seq<Record>>, Pos) -> bool, ds: seq<seq<Record>>,
                    pos: Pos, w: Writer, p: Packing)
    requires SendInductive(parts, mtu, P) && PositionOk(parts, pos) && P(ds, pos)
    requires p == FillPacket(parts, pos, w, mtu, [])
    ensures PositionOk(parts, p.pos)
    ensures p.packet.Packet? ==> P(ds + [p.packet.records], p.pos)
    ensures p.packet.MtuTooSmall? ==> p.pos == pos
  {
    PacketTiles(parts, pos, w, mtu);
    PacketFits(parts, pos, w, mtu, [], p);
    if p.packet.Packet? {
      assert NextDatagram(parts, pos, p.packet.records, p.pos, mtu);
    }
  }

  /** Such a property holds of the datagrams that the transport took, for the position they lead to.
      Only an internal sealing error can leave the sender's position ahead of it. */
  lemma {:induction false} SendInduction(s: Sender, parts: seq<Part>, mtu: nat, accepts: nat,
                                         P: (seq<seq<Record>>, Pos) -> bool, r: Sending)
    returns (reached: Pos)
    requires parts == Parts(s.msgs) && PositionOk(parts, s.pos)
    requires SendInductive(parts, mtu, P) && P(s.sent, s.pos)
    requires r == SendPackets(s, mtu, accepts)
    ensures P(r.sender.sent, reached)
    ensures r.result != Failed(PacketError) ==> reached == r.sender.pos
    decreases accepts
  {
    hide SendPackets, FillPacket, SendInductive;
    reached := s.pos;
    var p := FillPacket(parts, s.pos, s.writer, mtu, []);
    SendStep(s, mtu, accepts, p, r);
    if s.pos.msg < |parts| {
      OneDatagram(parts, mtu, P, s.sent, s.pos, s.writer, p);
      if p.packet.Packet? && accepts > 0 {
        reached := SendInduction(Took(s, p), parts, mtu, accepts - 1, P, r);
      }
    }
  }

  /** The datagrams after the first `base` tile the flight from `start`, each within the MTU. */
  ghost predicate SentTiles(parts: seq<Part>, base: nat, start: Pos, mtu: nat, ds: seq<seq<Record>>, pos: Pos) {
    && base <= |ds|
    && Tiles(parts, start, Flatten(ds[base..]), pos)
    && Fits(ds[base..], mtu)
  }

  lemma SentTilesExtend(parts: seq<Part>, base: nat, start: Pos, mtu: nat, ds: seq<seq<Record>>, pos: Pos,
                        d: seq<Record>, to: Pos)
    requires SentTiles(parts, base, start, mtu, ds, pos) && NextDatagram(parts, pos, d, to, mtu)
    ensures SentTiles(parts, base, start, mtu, ds + [d], to)
  {
    assert (ds + [d])[base..] == ds[base..] + [d];
    FlattenAppend(ds[base..], [d]);
    FlattenOne(d);
    TilesAppend(parts, start, Flatten(ds[base..]), pos, d, to);
  }

  /**
   The datagrams that the transport took tile the flight from where the sender was, each within the
   MTU, even when some packets were sealed, not taken, and sealed again.
   */
  lemma SendTiles(s: Sender, mtu: nat, accepts: nat) returns (reached: Pos)
    requires PositionOk(Parts(s.msgs), s.pos)
    ensures var r := SendPackets(s, mtu, accepts);
            && SentTiles(Parts(s.msgs), |s.sent|, s.pos, mtu, r.sender.sent, reached)
            && (r.result != Failed(PacketError) ==> reached == r.sender.pos)
  {
    var parts := Parts(s.msgs);
    var P := (ds, pos) => SentTiles(parts, |s.sent|, s.pos, mtu, ds, pos);
    forall ds, pos, d, to | P(ds, pos) && NextDatagram(parts, pos, d, to, mtu)
      ensures P(ds + [d], to)
    {
      SentTilesExtend(parts, |s.sent|, s.pos, mtu, ds, pos, d, to);
    }
    assert s.sent[|s.sent|..] == [];
    reached := SendInduction(s, parts, mtu, accepts, P, SendPackets(s, mtu, accepts));
  }

  /** A flight that was sent whole carried every byte of every message, once and in order. */
  lemma SentFlight(s: Sender, mtu: nat, accepts: nat)
    requires Retransmit(s, mtu, accepts).result.Sent?
    ensures var sent := Retransmit(s, mtu, accepts).sender.sent;
            && |s.sent| <= |sent|
            && Payloads(Flatten(sent[|s.sent|..])) == Bodies(Parts(s.msgs), 0)
            && Fits(sent[|s.sent|..], mtu)
  {
    var s0 := s.(pos := Pos(0, 0));
    var reached := SendTiles(s0, mtu, accepts);
    SendFrame(s0, mtu, accepts, SendPackets(s0, mtu, accepts));
    var sent := Flatten(SendPackets(s0, mtu, accepts).sender.sent[|s.sent|..]);
    TilesConserve(Parts(s.msgs), Pos(0, 0), sent, reached);
    assert Left(Parts(s.msgs), Pos(0, 0)) == Bodies(Parts(s.msgs), 0);
    assert Payloads(sent) + [] == Payloads(sent);
  }

  /** Sending adds datagrams after those already sent. */
  lemma {:induction false} SendExtends(s: Sender, mtu: nat, accepts: nat)
    requires s.pos.msg <= |s.msgs|
    ensures s.sent <= SendPackets(s, mtu, accepts).sender.sent
    decreases accepts
  {
    hide SendPackets, FillPacket;
    var p := FillPacket(Parts(s.msgs), s.pos, s.writer, mtu, []);
    SendStep(s, mtu, accepts, p, SendPackets(s, mtu, accepts));
    if s.pos.msg < |s.msgs| && p.packet.Packet? && accepts > 0 {
      SendExtends(Took(s, p), mtu, accepts - 1);
    }
  }

  /** The records that a retransmission gave to the transport. */
  function SentRecords(s: Sender, mtu: nat, accepts: nat): seq<Record> {
    var sent := Retransmit(s, mtu, accepts).sender.sent;
    if |s.sent| <= |sent| then Flatten(sent[|s.sent|..]) else []
  }

  lemma RetransmitExtends(s: Sender, mtu: nat, accepts: nat)
    ensures s.sent <= Retransmit(s, mtu, accepts).sender.sent
    ensures Flatten(Retransmit(s, mtu, accepts).sender.sent) == Flatten(s.sent) + SentRecords(s, mtu, accepts)
  {
    SendExtends(s.(pos := Pos(0, 0)), mtu, accepts);
    var sent := Retransmit(s, mtu, accepts).sender.sent;
    assert s.sent + sent[|s.sent|..] == sent;
    FlattenAppend(s.sent, sent[|s.sent|..]);
  }

  // ----- Record numbers and genuineness -----

  ghost predicate Used(w: Writer, rec: Record) {
    && rec.epoch <= w.epoch
    && (rec.epoch == w.epoch ==> rec.seqNo < w.current.seqNum)
    && (rec.epoch + 1 == w.epoch ==> rec.seqNo < w.last.seqNum)
  }

  predicate SameNumber(a: Record, b: Record) {
    a.epoch == b.epoch && a.seqNo == b.seqNo
  }

  predicate Distinct(log: seq<Record>) {
    forall i, j | 0 <= i < j < |log| :: !SameNumber(log[i], log[j])
  }

  /** Under each epoch the numbers grow. */
  predicate Rising(log: seq<Record>) {
    forall i, j | 0 <= i < j < |log| && log[i].epoch == log[j].epoch :: log[i].seqNo < log[j].seqNo
  }

  lemma RisingParts(a: seq<Record>, b: seq<Record>, before: Record, after: Record)
    requires Rising(a + b) && before in a && after in b && before.epoch == after.epoch
    ensures before.seqNo < after.seqNo
  {
    var i :| 0 <= i < |a| && a[i] == before;
    var j :| 0 <= j < |b| && b[j] == after;
    assert (a + b)[i] == before && (a + b)[|a| + j] == after;
  }

  lemma RisingSuffix(a: seq<Record>, b: seq<Record>)
    requires Rising(a + b)
    ensures Rising(b)
  {
    assert forall i | 0 <= i < |b| :: (a + b)[|a| + i] == b[i];
  }

  lemma {:induction false} SubsequenceRises(recs: seq<Record>, log: seq<Record>)
    requires Subsequence(recs, log) && Rising(log)
    ensures Rising(recs)
    decreases log
  {
    if recs != [] {
      var a, b := recs[..|recs| - 1], log[..|log| - 1];
      if Subsequence(recs, b) {
        SubsequenceRises(recs, b);
      } else {
        SubsequenceRises(a, b);
        forall i | 0 <= i < |a| && a[i].epoch == recs[|a|].epoch
          ensures a[i].seqNo < recs[|a|].seqNo
        {
          SubsequenceIn(a, b, a[i]);
          var k :| 0 <= k < |b| && b[k] == a[i];
          assert log[k] == a[i] && log[|b|] == recs[|a|];
        }
      }
    }
  }

  /** No counter has wrapped: neither a sequence number nor the epoch. */
  predicate NoWrap(w: Writer) {
    |w.sealed| < SEQUENCES && w.changes < EPOCHS
  }

  /** Under each epoch the records ever sealed have growing numbers, so that no two have the same. */
  ghost predicate Numbered(w: Writer) {
    NoWrap(w) ==>
      && w.epoch == w.changes
      && w.current.seqNum <= |w.sealed| && w.last.seqNum <= |w.sealed|
      && (forall i | 0 <= i < |w.sealed| :: Used(w, w.sealed[i]))
      && Rising(w.sealed)
  }

  lemma LoggedNumbered(w: Writer, w': Writer, rec: Record)
    requires Numbered(w) && Logged(w, w', rec)
    ensures Numbered(w')
  {
    if NoWrap(w') {
      forall i | 0 <= i < |w'.sealed|
        ensures Used(w', w'.sealed[i])
      {
        if i < |w.sealed| {
          assert Used(w, w.sealed[i]);
        }
      }
      forall i, j | 0 <= i < j < |w'.sealed| && w'.sealed[i].epoch == w'.sealed[j].epoch
        ensures w'.sealed[i].seqNo < w'.sealed[j].seqNo
      {
        assert Used(w, w.sealed[i]);
      }
    }
  }

  /** Every body of the flight is a message of the history, under its number. */
  ghost predicate Authored(part: Part, history: seq<Message>) {
    part.BodyPart? ==>
      && InRange(part.whole)
      && part.whole.seqNo < |history|
      && var m := history[part.whole.seqNo];
      && part.whole == WholeMessage(m.typ, part.whole.seqNo, m.body)
  }

  /** While message numbers do not wrap, every record sealed is genuine. */
  ghost predicate WriterOk(w: Writer, history: seq<Message>) {
    && Numbered(w)
    && (|history| < TWO16 ==> forall i | 0 <= i < |w.sealed| :: GenuineRecord(w.sealed[i], history))
  }

  lemma LoggedOk(w: Writer, w': Writer, rec: Record, history: seq<Message>)
    requires WriterOk(w, history) && Logged(w, w', rec)
    requires |history| < TWO16 ==> GenuineRecord(rec, history)
    ensures WriterOk(w', history)
  {
    LoggedNumbered(w, w', rec);
  }

  lemma CarriesGenuine(part: Part, offset: nat, rec: Record, history: seq<Message>)
    requires Authored(part, history) && Carries(part, offset, rec.content)
    ensures GenuineRecord(rec, history)
  {
  }

  lemma SealKeeps(w: Writer, part: Part, offset: nat, maxOut: nat, history: seq<Message>)
    requires offset <= |BodyOf(part)| && WriterOk(w, history)
    requires |history| < TWO16 ==> Authored(part, history)
    ensures WriterOk(SealNextMessage(w, part, offset, maxOut).writer, history)
  {
    var r := SealNextMessage(w, part, offset, maxOut);
    SealNextOk(w, part, offset, maxOut, r);
    if r.writer != w {
      if |history| < TWO16 {
        CarriesGenuine(part, offset, LastRecord(r.writer), history);
      }
      LoggedOk(w, r.writer, LastRecord(r.writer), history);
    }
  }

  ghost predicate AllAuthored(parts: seq<Part>, history: seq<Message>) {
    |history| < TWO16 ==> forall i | 0 <= i < |parts| :: Authored(parts[i], history)
  }

  lemma {:induction false} PacketKeeps(parts: seq<Part>, pos: Pos, w: Writer, maxOut: nat, recs: seq<Record>,
                                       history: seq<Message>)
    requires PositionOk(parts, pos) && AllAuthored(parts, history) && WriterOk(w, history)
    ensures WriterOk(FillPacket(parts, pos, w, maxOut, recs).writer, history)
    decreases |parts| - pos.msg
  {
    hide FillPacket, SealNextMessage, WriterOk, Authored;
    var p := FillPacket(parts, pos, w, maxOut, recs);
    if pos.msg == |parts| {
      FillStep(parts, pos, w, maxOut, recs, Sealing(w, SealError), p);
    } else {
      var r := SealNextMessage(w, parts[pos.msg], pos.offset, maxOut);
      FillStep(parts, pos, w, maxOut, recs, r, p);
      SealKeeps(w, parts[pos.msg], pos.offset, maxOut, history);
      SealNextOk(w, parts[pos.msg], pos.offset, maxOut, r);
      if r.result.Sealed? && r.result.done {
        var rec := r.result.record;
        PacketKeeps(parts, Pos(pos.msg + 1, 0), r.writer, maxOut - rec.size, recs + [rec], history);
      }
    }
  }

  /** A packet is what was sealed for it, in order; what was sealed and not sent is left out. */
  lemma {:induction false} PacketLogged(parts: seq<Part>, pos: Pos, w: Writer, maxOut: nat, base: seq<Record>,
                                        recs: seq<Record>, p: Packing)
    requires PositionOk(parts, pos) && w.sealed == base + recs
    requires p == FillPacket(parts, pos, w, maxOut, recs)
    ensures w.sealed <= p.writer.sealed
    ensures p.packet.Packet? ==> p.writer.sealed == base + p.packet.records
    decreases |parts| - pos.msg
  {
    hide FillPacket, SealNextMessage, Conveys;
    if pos.msg == |parts| {
      FillStep(parts, pos, w, maxOut, recs, Sealing(w, SealError), p);
    } else {
      var r := SealNextMessage(w, parts[pos.msg], pos.offset, maxOut);
      FillStep(parts, pos, w, maxOut, recs, r, p);
      SealNextOk(w, parts[pos.msg], pos.offset, maxOut, r);
      if r.result.Sealed? {
        var rec := r.result.record;
        assert base + recs + [rec] == base + (recs + [rec]);
        if r.result.done {
          PacketLogged(parts, Pos(pos.msg + 1, 0), r.writer, maxOut - rec.size, base, recs + [rec], p);
        }
      }
    }
  }

  /** What holds of every reachable sender, for the messages added so far. */
  ghost predicate SenderOk(s: Sender, history: seq<Message>) {
    && PositionOk(Parts(s.msgs), s.pos)
    && AllAuthored(Parts(s.msgs), history)
    && WriterOk(s.writer, history)
    && SentLogged(s)
  }

  /** What was sent was sealed, in this order, and each record was sent at most once. */
  ghost predicate SentLogged(s: Sender) {
    Subsequence(Flatten(s.sent), s.writer.sealed)
  }

  /** More was sealed, and then all of it sent in one datagram or none of it. */
  lemma SentLater(sent: seq<seq<Record>>, log: seq<Record>, log': seq<Record>)
    requires Subsequence(Flatten(sent), log) && log <= log'
    ensures Subsequence(Flatten(sent), log')
    ensures forall more | log' == log + more :: Subsequence(Flatten(sent + [more]), log')
  {
    var rest := log'[|log|..];
    assert log + rest == log';
    SubsequenceLater(Flatten(sent), log, rest);
    SubsequenceAppend(Flatten(sent), log, rest);
    FlattenAppend(sent, [rest]);
    FlattenOne(rest);
    forall more | log' == log + more
      ensures more == rest
    {
      assert (log + more)[|log|..] == more;
    }
  }

  lemma PacketSenderOk(s: Sender, mtu: nat, p: Packing, history: seq<Message>)
    requires SenderOk(s, history)
    requires p == FillPacket(Parts(s.msgs), s.pos, s.writer, mtu, [])
    ensures SenderOk(s.(writer := p.writer), history)
    ensures SenderOk(s.(pos := p.pos, writer := p.writer), history)
    ensures p.packet.Packet? ==> SenderOk(Took(s, p), history)
  {
    hide Parts, AllAuthored, WriterOk, FillPacket, Subsequence, Flatten, PositionOk;
    PacketTiles(Parts(s.msgs), s.pos, s.writer, mtu);
    PacketKeeps(Parts(s.msgs), s.pos, s.writer, mtu, [], history);
    assert s.writer.sealed + [] == s.writer.sealed;
    PacketLogged(Parts(s.msgs), s.pos, s.writer, mtu, s.writer.sealed, [], p);
    SentLater(s.sent, s.writer.sealed, p.writer.sealed);
  }

  lemma {:induction false} SendKeeps(s: Sender, mtu: nat, accepts: nat, r: Sending, history: seq<Message>)
    requires SenderOk(s, history) && r == SendPackets(s, mtu, accepts)
    ensures SenderOk(r.sender, history)
    decreases accepts
  {
    hide SendPackets, FillPacket, WriterOk, AllAuthored, SentLogged;
    var p := FillPacket(Parts(s.msgs), s.pos, s.writer, mtu, []);
    SendStep(s, mtu, accepts, p, r);
    if s.pos.msg < |s.msgs| {
      PacketSenderOk(s, mtu, p, history);
      if p.packet.Packet? && accepts > 0 {
        SendKeeps(Took(s, p), mtu, accepts - 1, r, history);
      }
    }
  }
}
