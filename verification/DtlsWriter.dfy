/** The sending side of DTLS1_STATE as an object whose flight, position and counters change in place. */
module DtlsWriter {
  import opened Basics
  import opened DtlsFlight
  import opened DtlsFragment
  import opened DtlsRecord
  import opened DtlsSender
  import opened Wire

  class Writing {
    const outgoing: array<OutMsg>
    var outgoingLen: nat
    var written: nat
    var offset: nat
    var complete: bool
    var hasReply: bool
    var writeSeq: nat
    var epoch: nat
    var current: Keys
    var last: Keys
    /** The records ever sealed, the changes of keys, and the datagrams the transport took. */
    ghost var sealed: seq<Record>
    ghost var changes: nat
    ghost var sent: seq<seq<Record>>

    ghost predicate Valid()
      reads this`outgoingLen, this`written
    {
      outgoing.Length == MAX_FLIGHT && outgoingLen <= MAX_FLIGHT && written <= outgoingLen
    }

    ghost function Log(): Writer
      reads this`epoch, this`current, this`last, this`sealed, this`changes
    {
      Writer(epoch, current, last, sealed, changes)
    }

    ghost function Msgs(): (msgs: seq<OutMsg>)
      requires outgoingLen <= outgoing.Length
      reads this`outgoingLen, outgoing
      ensures |msgs| == outgoingLen
    {
      outgoing[..outgoingLen]
    }

    ghost function View(): Sender
      requires Valid()
      reads this, outgoing
    {
      Sender(Msgs(), Pos(written, offset), complete, hasReply, writeSeq, Log(), sent)
    }

    constructor ()
      ensures Valid() && View() == START && fresh(outgoing)
    {
      outgoing := new OutMsg[MAX_FLIGHT](_ => OutMsg(false, [], 0));
      outgoingLen, written, offset := 0, 0, 0;
      complete, hasReply, writeSeq, epoch := false, false, 0, 0;
      current, last := Keys(0, NULL_AEAD), Keys(0, NULL_AEAD);
      sealed, changes, sent := [], 0, [];
    }

    /** dtls_clear_outgoing_messages */
    method ClearOutgoing()
      requires Valid()
      modifies this
      ensures Valid() && View() == Clear(old(View()))
    {
      outgoingLen, written, offset := 0, 0, 0;
      complete, hasReply := false, false;
    }

    /** add_outgoing */
    method Add(isCcs: bool, data: seq<Byte>) returns (ok: bool)
      requires Valid()
      modifies this, outgoing
      ensures Valid() && Added(View(), ok) == AddOutgoing(old(View()), isCcs, data)
    {
      if complete {
        ClearOutgoing();
      }
      if outgoingLen >= MAX_FLIGHT || |data| > 0xffff_ffff {
        return false;
      }
      if !isCcs {
        writeSeq := (writeSeq + 1) % TWO16;
      }
      outgoing[outgoingLen] := OutMsg(isCcs, data, epoch);
      outgoingLen := outgoingLen + 1;
      return true;
    }

    /** dtls1_init_message, dtls1_finish_message and dtls1_add_message. */
    method AddHandshake(m: Message) returns (ok: bool)
      requires Valid()
      modifies this, outgoing
      ensures Valid() && Added(View(), ok) == AddMessage(old(View()), m)
    {
      var data := Prepare(m, writeSeq);
      if data.None? {
        return false;
      }
      ok := Add(false, data.value);
    }

    /** dtls_seal_record */
    method Seal(c: Content, previous: bool, maxOut: nat) returns (rec: Option<Record>)
      requires previous ==> epoch >= 1
      modifies this`current, this`last, this`sealed
      ensures forall todo, done ::
                Sealing(Log(), if rec.Some? then Sealed(rec.value, todo, done) else SealError)
                == SealRecord(old(Log()), c, previous, maxOut, todo, done)
    {
      var keys := if previous then last else current;
      var cipherLen := CipherLen(keys.aead, ContentLen(c));
      if maxOut < RECORD_HEADER_LENGTH + cipherLen {
        return None;
      }
      var r := Record(if previous then epoch - 1 else epoch, keys.seqNum, c, RECORD_HEADER_LENGTH + cipherLen);
      sealed := sealed + [r];
      var next := NextSequence(keys.seqNum);
      if previous {
        last := keys.(seqNum := next);
      } else {
        current := keys.(seqNum := next);
      }
      if next == 0 || cipherLen >= TWO16 {
        return None;
      }
      return Some(r);
    }

    /** seal_next_message */
    method SealNext(m: OutMsg, maxOut: nat) returns (result: SealResult)
      modifies this`current, this`last, this`sealed
      ensures Sealing(Log(), result) == SealNextMessage(old(Log()), Decode(m), offset, maxOut)
    {
      var previous := false;
      if epoch >= 1 && m.epoch == epoch - 1 {
        previous := true;
      } else if m.epoch != epoch {
        return SealError;
      }
      var overhead := RECORD_HEADER_LENGTH + MaxOverhead(if previous then last.aead else current.aead);
      if m.isCcs {
        if maxOut < 1 + overhead {
          return NoProgress;
        }
        var rec := Seal(ChangeCipherSpec, previous, maxOut);
        return if rec.Some? then Sealed(rec.value, 0, true) else SealError;
      }
      var whole := WholeBody(m.data);
      if whole.None? || offset > |whole.value.body| {
        return SealError;
      }
      if maxOut < HEADER_LENGTH + 1 + overhead {
        return NoProgress;
      }
      var todo := |whole.value.body| - offset;
      if todo > maxOut - HEADER_LENGTH - overhead {
        todo := maxOut - HEADER_LENGTH - overhead;
      }
      var rec := Seal(Handshake(Cut(whole.value, offset, todo)), previous, maxOut);
      return if rec.Some? then Sealed(rec.value, todo, offset + todo == |whole.value.body|) else SealError;
    }

    /** seal_next_packet */
    method SealPacket(mtu: nat) returns (packet: Packet)
      requires Valid()
      modifies this`current, this`last, this`sealed, this`written, this`offset
      ensures Valid()
      ensures Packing(Pos(written, offset), Log(), packet)
           == FillPacket(Parts(Msgs()), old(Pos(written, offset)), old(Log()), mtu, [])
    {
      hide SealNextMessage, Decode;
      var records: seq<Record> := [];
      var room: nat := mtu;
      ghost var goal := FillPacket(Parts(Msgs()), Pos(written, offset), Log(), mtu, []);
      while written < outgoingLen
        invariant Valid()
        invariant FillPacket(Parts(Msgs()), Pos(written, offset), Log(), room, records) == goal
        decreases outgoingLen - written
      {
        assert Parts(Msgs())[written] == Decode(outgoing[written]);
        var result := SealNext(outgoing[written], room);
        if result.SealError? {
          return PacketError;
        }
        if result.NoProgress? {
          return AsPacket(records);
        }
        records := records + [result.record];
        room := room - result.record.size;
        if !result.done {
          offset := offset + result.todo;
          return AsPacket(records);
        }
        offset := 0;
        written := written + 1;
      }
      return AsPacket(records);
    }

    ghost predicate InPosition()
      requires Valid()
      reads this`outgoingLen, this`written, this`offset, outgoing
    {
      PositionOk(Parts(Msgs()), Pos(written, offset))
    }

    /** One turn of the loop of send_flight: a packet that the transport does not take is to be
        sealed again. */
    method SendPacket(mtu: nat, taken: bool) returns (packet: Packet)
      requires Valid() && InPosition()
      modifies this`current, this`last, this`sealed, this`written, this`offset, this`sent
      ensures Valid() && InPosition()
      ensures var p := FillPacket(Parts(Msgs()), old(Pos(written, offset)), old(Log()), mtu, []);
              && packet == p.packet
              && View() == if packet.Packet? && !taken then old(View()).(writer := p.writer)
                           else old(View()).(pos := p.pos, writer := p.writer,
                                             sent := if packet.Packet? then old(sent) + [packet.records] else old(sent))
      ensures packet.Packet? && taken ==> Before(old(Pos(written, offset)), Pos(written, offset))
    {
      hide FillPacket, Decode, PositionOk, Tiles;
      var oldWritten, oldOffset := written, offset;
      ghost var log := Log();
      PacketTiles(Parts(Msgs()), Pos(written, offset), log, mtu);
      packet := SealPacket(mtu);
      if packet.Packet? {
        PacketForward(Parts(Msgs()), Pos(oldWritten, oldOffset), log, mtu);
        if taken {
          sent := sent + [packet.records];
        } else {
          written, offset := oldWritten, oldOffset;
        }
      }
    }

    /** The body of the loop of send_flight, with the result if that ends it. */
    method SendTurn(mtu: nat, left: nat, ghost goal: Sending) returns (ended: Option<SendResult>)
      requires Valid() && InPosition() && written < outgoingLen && SendPackets(View(), mtu, left) == goal
      modifies this`current, this`last, this`sealed, this`written, this`offset, this`sent
      ensures Valid() && InPosition()
      ensures ended.Some? ==> Sending(View(), ended.value) == goal
      ensures ended.None? ==>
                && left > 0 && SendPackets(View(), mtu, left - 1) == goal
                && Before(old(Pos(written, offset)), Pos(written, offset))
    {
      var packet := SendPacket(mtu, left > 0);
      if !packet.Packet? {
        return Some(Failed(packet));
      }
      return if left == 0 then Some(Blocked) else None;
    }

    /** What is left of the message that is being sent. */
    ghost function Remaining(): int
      requires Valid()
      reads this, outgoing
    {
      if written == outgoingLen then 0 else |BodyOf(Parts(Msgs())[written])| - offset
    }

    /**
     send_flight, over a transport that takes `accepts` more packets. It ends because every packet
     sealed moves on to a later message or further into the body of this one.
     */
    method SendFlight(mtu: nat, accepts: nat) returns (result: SendResult)
      requires Valid() && InPosition()
      modifies this`current, this`last, this`sealed, this`written, this`offset, this`sent
      ensures Valid() && InPosition()
      ensures Sending(View(), result) == SendPackets(old(View()), mtu, accepts)
    {
      hide FillPacket, Decode;
      var left: nat := accepts;
      ghost var goal := SendPackets(View(), mtu, accepts);
      while written < outgoingLen
        invariant Valid() && InPosition()
        invariant SendPackets(View(), mtu, left) == goal
        decreases outgoingLen - written, Remaining()
      {
        var ended := SendTurn(mtu, left, goal);
        if ended.Some? {
          return ended.value;
        }
        left := left - 1;
      }
      return Sent;
    }

    /** dtls1_flush_flight */
    method Flush(mtu: nat, accepts: nat) returns (result: SendResult)
      requires Valid() && InPosition()
      modifies this
      ensures Valid() && InPosition()
      ensures Sending(View(), result) == FlushFlight(old(View()), mtu, accepts)
    {
      complete := true;
      result := SendFlight(mtu, accepts);
    }

    /** dtls1_retransmit_outgoing_messages */
    method RetransmitOutgoing(mtu: nat, accepts: nat) returns (result: SendResult)
      requires Valid()
      modifies this
      ensures Valid() && InPosition()
      ensures Sending(View(), result) == Retransmit(old(View()), mtu, accepts)
    {
      written, offset := 0, 0;
      result := SendFlight(mtu, accepts);
    }

    /** dtls1_set_write_state */
    method SetWrite(aead: Aead)
      requires Valid()
      modifies this
      ensures Valid() && View() == SetWriteState(old(View()), aead)
    {
      epoch := (epoch + 1) % EPOCHS;
      last := current;
      current := Keys(0, aead);
      changes := changes + 1;
    }

    /** The last lines of dtls1_next_message. */
    method ReplyProcessed()
      requires Valid()
      modifies this
      ensures Valid() && View() == NoteReply(old(View()))
    {
      if complete {
        hasReply := true;
      }
    }

    /** dtls1_on_handshake_complete */
    method HandshakeDone()
      requires Valid()
      modifies this
      ensures Valid() && View() == OnHandshakeComplete(old(View()))
    {
      if hasReply {
        ClearOutgoing();
      }
    }
  }
}
