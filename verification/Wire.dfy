/** Handshake messages and the big-endian numbers of their headers. */
module Wire {
  import opened Basics

  /** A handshake message: its type and body. */
  datatype Message = Message(typ: Byte, body: seq<Byte>)

  function U16(n: nat): (b: seq<Byte>)
    ensures |b| == 2
  {
    [n / 0x100 % 0x100, n % 0x100]
  }

  function U24(n: nat): (b: seq<Byte>)
    ensures |b| == 3
  {
    [n / 0x1_0000 % 0x100, n / 0x100 % 0x100, n % 0x100]
  }

  function GetU16(s: seq<Byte>): (n: nat)
    requires |s| >= 2
    ensures n < TWO16
  {
    (s[0] as int) * 0x100 + s[1]
  }

  function GetU24(s: seq<Byte>): (n: nat)
    requires |s| >= 3
    ensures n < TWO24
  {
    (s[0] as int) * 0x1_0000 + (s[1] as int) * 0x100 + s[2]
  }

  lemma U16RoundTrip(n: nat, rest: seq<Byte>)
    requires n < TWO16
    ensures GetU16(U16(n) + rest) == n
  {
    assert (U16(n) + rest)[0] == U16(n)[0] && (U16(n) + rest)[1] == U16(n)[1];
    assert n / 0x100 < 0x100;
  }

  lemma U24RoundTrip(n: nat, rest: seq<Byte>)
    requires n < TWO24
    ensures GetU24(U24(n) + rest) == n
  {
    var s := U24(n) + rest;
    assert s[0] == U24(n)[0] && s[1] == U24(n)[1] && s[2] == U24(n)[2];
    assert n / 0x1_0000 < 0x100;
    assert n / 0x100 == n / 0x1_0000 * 0x100 + n / 0x100 % 0x100;
  }
}
