/**
 The DTLS handshake fragment format (section 4.2.2 of RFC 6347): a 12-byte header, then a piece
 of the message's body.
 */
module DtlsFragment {
  import opened Basics
  import opened Wire

  /** struct hm_header_st, with the bytes that follow the header. */
  datatype Fragment = Fragment(typ: Byte, msgLen: nat, seqNo: nat, offset: nat, body: seq<Byte>)

  const HEADER_LENGTH := 12

  function Header(typ: Byte, msgLen: nat, seqNo: nat, offset: nat, fragLen: nat): (h: seq<Byte>)
    ensures |h| == HEADER_LENGTH
  {
    [typ] + U24(msgLen) + U16(seqNo) + U24(offset) + U24(fragLen)
  }

  function Serialize(f: Fragment): seq<Byte> {
    Header(f.typ, f.msgLen, f.seqNo, f.offset, |f.body|) + f.body
  }

  predicate InRange(f: Fragment) {
    f.msgLen < TWO24 && f.seqNo < TWO16 && f.offset < TWO24 && |f.body| < TWO24
  }

  datatype Parsed = Parsed(fragment: Fragment, rest: seq<Byte>)

  /** dtls1_parse_fragment: a fragment from the front of a record, and what follows it. */
  function Parse(s: seq<Byte>): (p: Option<Parsed>)
    ensures p.Some? ==> |p.value.rest| < |s| && InRange(p.value.fragment)
  {
    if |s| < HEADER_LENGTH then None
    else
      var fragLen := GetU24(s[9..]);
      if |s| - HEADER_LENGTH < fragLen then None
      else
        Some(Parsed(
               Fragment(s[0], GetU24(s[1..]), GetU16(s[4..]), GetU24(s[6..]),
                        s[HEADER_LENGTH..HEADER_LENGTH + fragLen]),
               s[HEADER_LENGTH + fragLen..]))
  }

  lemma HeaderFields(f: Fragment, rest: seq<Byte>)
    requires InRange(f)
    ensures var s := Serialize(f) + rest;
            && s[0] == f.typ
            && GetU24(s[1..]) == f.msgLen
            && GetU16(s[4..]) == f.seqNo
            && GetU24(s[6..]) == f.offset
            && GetU24(s[9..]) == |f.body|
  {
    var s := Serialize(f) + rest;
    var tail := f.body + rest;
    var a, b, c, d := U24(f.msgLen), U16(f.seqNo), U24(f.offset), U24(|f.body|);
    assert s[1..] == a + (b + c + d + tail);
    assert s[4..] == b + (c + d + tail);
    assert s[6..] == c + (d + tail);
    assert s[9..] == d + tail;
    U24RoundTrip(f.msgLen, b + c + d + tail);
    U16RoundTrip(f.seqNo, c + d + tail);
    U24RoundTrip(f.offset, d + tail);
    U24RoundTrip(|f.body|, tail);
  }

  /** Reading what was serialized gives the fragment back, whatever follows it. */
  lemma ParseSerialize(f: Fragment, rest: seq<Byte>)
    requires InRange(f)
    ensures Parse(Serialize(f) + rest) == Some(Parsed(f, rest))
  {
    HeaderFields(f, rest);
    var s := Serialize(f) + rest;
    assert s[HEADER_LENGTH..HEADER_LENGTH + |f.body|] == f.body;
    assert s[HEADER_LENGTH + |f.body|..] == rest;
  }

  /** Where the fields stand, the most significant byte of each first. */
  lemma HeaderLayout(f: Fragment)
    requires InRange(f)
    ensures var s := Serialize(f);
            && |s| == 12 + |f.body| && s[12..] == f.body
            && s[0] == f.typ
            && (s[1] as int) * 0x1_0000 + (s[2] as int) * 0x100 + s[3] == f.msgLen
            && (s[4] as int) * 0x100 + s[5] == f.seqNo
            && (s[6] as int) * 0x1_0000 + (s[7] as int) * 0x100 + s[8] == f.offset
            && (s[9] as int) * 0x1_0000 + (s[10] as int) * 0x100 + s[11] == |f.body|
  {
    hide U24, U16;
    HeaderFields(f, []);
    assert Serialize(f) + [] == Serialize(f);
  }

  // ----- Building a whole message -----

  /** dtls1_init_message, the body, and the flush of its length prefix: the total length is
      still zero. */
  function InitMessage(typ: Byte, seqNo: nat, body: seq<Byte>): Option<seq<Byte>> {
    if |body| >= TWO24 then None
    else Some(Header(typ, 0, seqNo, 0, |body|) + body)
  }

  /** dtls1_finish_message copies the fragment's length into the total length. */
  function FinishMessage(msg: seq<Byte>): Option<seq<Byte>> {
    if |msg| < HEADER_LENGTH then None
    else Some(msg[..1] + msg[HEADER_LENGTH - 3..HEADER_LENGTH] + msg[4..])
  }

  /** The fragment that carries a message whole. */
  function WholeMessage(typ: Byte, seqNo: nat, body: seq<Byte>): Fragment {
    Fragment(typ, |body|, seqNo, 0, body)
  }

  /** A finished message is one fragment, with offset 0 and both lengths equal. */
  lemma FinishedMessage(typ: Byte, seqNo: nat, body: seq<Byte>)
    requires |body| < TWO24
    ensures FinishMessage(InitMessage(typ, seqNo, body).value)
         == Some(Serialize(WholeMessage(typ, seqNo, body)))
  {
    var msg := InitMessage(typ, seqNo, body).value;
    var n := U24(|body|);
    assert msg[..1] == [typ];
    assert msg[9..12] == n;
    assert msg[4..] == U16(seqNo) + U24(0) + n + body;
    assert [typ] + n + (U16(seqNo) + U24(0) + n + body)
        == [typ] + n + U16(seqNo) + U24(0) + n + body;
  }
}
