/** DTLS records (section 4.1 of RFC 6347) and the numbers that name them. */
module DtlsRecord {
  import opened Basics
  import opened DtlsFragment
  import opened Wire

  const CHANGE_CIPHER_SPEC: Byte := 20
  const ALERT: Byte := 21
  const HANDSHAKE: Byte := 22
  const APPLICATION_DATA: Byte := 23

  const MAX_PLAIN_LENGTH := 16384
  const RECORD_HEADER_LENGTH := 13

  /** SSL3_RT_MAX_ENCRYPTED_LENGTH: what a receiver takes of a record with its protection. */
  const MAX_ENCRYPTED_LENGTH := MAX_PLAIN_LENGTH + 256 + 64

  /** What a record holds before it is sealed. */
  datatype Content = ChangeCipherSpec | Handshake(fragment: Fragment) | Other(typ: Byte, bytes: seq<Byte>)

  function ContentType(c: Content): Byte {
    match c
    case ChangeCipherSpec => CHANGE_CIPHER_SPEC
    case Handshake(_) => HANDSHAKE
    case Other(typ, _) => typ
  }

  function Bytes(c: Content): seq<Byte> {
    match c
    case ChangeCipherSpec => [1]
    case Handshake(f) => Serialize(f)
    case Other(_, bytes) => bytes
  }

  function ContentLen(c: Content): nat {
    match c
    case ChangeCipherSpec => 1
    case Handshake(f) => HEADER_LENGTH + |f.body|
    case Other(_, bytes) => |bytes|
  }

  lemma BytesLength(c: Content)
    ensures |Bytes(c)| == ContentLen(c)
  {
  }

  /** A record as it leaves the sender, with the bytes it takes on the wire. */
  datatype Record = Record(epoch: nat, seqNo: nat, content: Content, size: nat)

  /** A receiver looks at the record at all; it drops a longer one unread. */
  predicate ShortOnWire(r: Record) {
    r.size <= RECORD_HEADER_LENGTH + MAX_ENCRYPTED_LENGTH
  }

  const EPOCHS := TWO16
  const SEQUENCES := 0x1_0000_0000_0000

  /** The 8-byte number of a record: 16 bits of epoch, then 48 of sequence number. */
  function Number(r: Record): nat {
    r.epoch * SEQUENCES + r.seqNo
  }

  lemma NumberParts(r: Record)
    requires r.seqNo < SEQUENCES
    ensures Number(r) / SEQUENCES == r.epoch && Number(r) % SEQUENCES == r.seqNo
  {
  }

  lemma NumbersDiffer(r: Record, r': Record)
    requires r.seqNo < SEQUENCES && r'.seqNo < SEQUENCES
    ensures Number(r) == Number(r') <==> r.epoch == r'.epoch && r.seqNo == r'.seqNo
  {
    NumberParts(r);
    NumberParts(r');
  }

  /** A fragment of one of the messages that an endpoint has added so far. */
  ghost predicate Genuine(f: Fragment, history: seq<Message>) {
    && InRange(f)
    && f.seqNo < |history|
    && var m := history[f.seqNo];
    && f.typ == m.typ && f.msgLen == |m.body|
    && f.offset + |f.body| <= |m.body|
    && f.body == m.body[f.offset..f.offset + |f.body|]
  }

  /** A record that, if it is a handshake record, holds such a fragment. */
  ghost predicate GenuineRecord(rec: Record, history: seq<Message>) {
    match rec.content
    case ChangeCipherSpec => true
    case Handshake(f) => Genuine(f, history)
    case Other(typ, _) => typ != HANDSHAKE
  }
}
