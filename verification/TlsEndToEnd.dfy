/** From ssl3_add_message at one end to ssl3_get_message at the other. */
module TlsEndToEnd {
  import opened Basics
  import opened Wire
  import W = TlsWriter
  import WR = TlsWriterRun
  import S = TlsStream

  /** The messages of a run of the writer are the encodings of these. */
  ghost predicate Wrote(w: WR.World, ms: seq<Message>)
    requires S.Sendable(ms)
  {
    && !w.broken
    && |w.messages| == |ms|
    && forall i | 0 <= i < |ms| :: w.messages[i] == S.Encode(ms[i]).value
  }

  lemma {:induction false} FlattenEncoded(raw: seq<seq<Byte>>, ms: seq<Message>)
    requires S.Sendable(ms) && |raw| == |ms|
    requires forall i | 0 <= i < |ms| :: raw[i] == S.Encode(ms[i]).value
    ensures Flatten(raw) == S.Bytes(ms)
  {
    if ms != [] {
      FlattenEncoded(raw[1..], ms[1..]);
    }
  }

  /**
   Whatever the transport does, whatever the fragment limit of each message is, and however the
   handshake records' bodies reach the other end in order, it takes a prefix of the messages added.
   */
  lemma MessagesArriveInOrder(stream: seq<Byte>, events: seq<WR.Event>, ms: seq<Message>, readings: seq<S.Event>)
    requires S.Sendable(ms) && Wrote(WR.Run(stream, events), ms)
    requires S.Delivered(readings) <= WR.Plain(WR.Run(stream, events).writer.log, W.HANDSHAKE)
    ensures S.Run(readings).taken <= ms
  {
    WR.HandshakeBytes(stream, events);
    FlattenEncoded(WR.Run(stream, events).messages, ms);
    S.StreamRoundTrip(ms, readings);
  }

  /** Once every byte of those records has come and nothing more can be taken, it took them all. */
  lemma AllMessagesArrive(stream: seq<Byte>, events: seq<WR.Event>, ms: seq<Message>, readings: seq<S.Event>)
    requires S.Sendable(ms) && Wrote(WR.Run(stream, events), ms)
    requires S.Delivered(readings) == WR.Plain(WR.Run(stream, events).writer.log, W.HANDSHAKE)
    requires S.Apply(S.Run(readings), S.Take) == S.Run(readings)
    ensures S.Run(readings).taken == ms && S.Run(readings).unread == []
  {
    WR.HandshakeBytes(stream, events);
    FlattenEncoded(WR.Run(stream, events).messages, ms);
    S.StreamComplete(ms, readings);
  }
}
