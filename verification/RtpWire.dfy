/**
 * The RTP and RTP/JPEG headers.  The sender swaps each field and stores it into a little-endian struct;
 * the receiver here reads network order, as section 5.1 of RFC 3550 and section 3.1 of RFC 2435 lay
 * the fields out.
 */
module RtpWire {
  import opened Basics

  const HDR := 20        // RTP header of 12 bytes, JPEG header of 8
  const PAYLOAD := 1430  // RTP_PACKET_SIZE - HDR
  const PT_JPEG := 26

  /** A packet as its receiver sees it. */
  datatype Packet = Packet(marker: bool, seqno: nat, ts: nat, off: nat, payload: seq<byte>)

  /** Fields that are the same in every packet of a session. */
  datatype Session = Session(ssrc: nat, width: nat, height: nat)

  predicate InRange(p: Packet) {
    p.seqno < U16 && p.ts < U32 && p.off < U24
  }

  // ----- the sender's byte order -----

  function Swap16(x: nat): nat { x % U8 * U8 + x / U8 % U8 }

  function Swap24(x: nat): nat { x % U8 * U16 + x / U8 % U8 * U8 + x / U16 % U8 }

  function Swap32(x: nat): nat {
    x % U8 * U24 + x / U8 % U8 * U16 + x / U16 % U8 * U8 + x / U24 % U8
  }

  /**
   * RTP_HDR_T and JPEG_HDR_T in memory: cc, x, p, version and pt, m share the first two bytes, low bits
   * first; `seqno`, `ts` and `off` have been swapped already.
   */
  function HeaderByte(i: nat, marker: bool, seqno: nat, ts: nat, off: nat, s: Session): byte
    requires i < HDR
  {
    if i == 0 then 0x80
    else if i == 1 then PT_JPEG + if marker then 0x80 else 0
    else if i < 4 then Le16(seqno)[i - 2]
    else if i < 8 then Le32(ts)[i - 4]
    else if i < 12 then Le32(s.ssrc)[i - 8]
    else if i == 12 then 0
    else if i < 16 then Le24(off)[i - 13]
    else [0, 1, s.width / 8 % U8, s.height / 8 % U8][i - 16]
  }

  function HeaderBytes(marker: bool, seqno: nat, ts: nat, off: nat, s: Session): (h: seq<byte>)
    ensures |h| == HDR
  {
    seq(HDR, i requires 0 <= i < HDR => HeaderByte(i, marker, seqno, ts, off, s))
  }

  function Serialize(p: Packet, s: Session): (b: seq<byte>)
    ensures |b| == HDR + |p.payload|
  {
    HeaderBytes(p.marker, Swap16(p.seqno), Swap32(p.ts), Swap24(p.off), s) + p.payload
  }

  /** The datagrams are exactly the packets, in order. */
  ghost predicate Carries(wire: seq<seq<byte>>, ps: seq<Packet>, s: Session) {
    |wire| == |ps| && forall i :: 0 <= i < |ps| ==> wire[i] == Serialize(ps[i], s)
  }

  // ----- the receiver's -----

  function ReadBe(b: seq<byte>): nat {
    if b == [] then 0 else ReadBe(b[..|b| - 1]) * U8 + (b[|b| - 1] as nat)
  }

  /** None unless this is RTP version 2 with the JPEG payload type. */
  datatype Parsed = Bad | Good(p: Packet)

  function Parse(b: seq<byte>): Parsed {
    if |b| < HDR || b[0] != 0x80 || b[1] % 0x80 != PT_JPEG then Bad
    else Good(Packet(b[1] >= 0x80, ReadBe(b[2..4]), ReadBe(b[4..8]), ReadBe(b[13..16]), b[HDR..]))
  }

  lemma ReadBe2(a: byte, b: byte)
    ensures ReadBe([a, b]) == (a as int) * U8 + b
  {
    assert [a, b][..1] == [a] && [a][..0] == [];
    assert ReadBe([a]) == ReadBe([]) * U8 + a as nat;
  }

  lemma ReadBe3(a: byte, b: byte, c: byte)
    ensures ReadBe([a, b, c]) == (a as int) * U16 + (b as int) * U8 + c
  {
    assert [a, b, c][..2] == [a, b];
    ReadBe2(a, b);
  }

  lemma ReadBe4(a: byte, b: byte, c: byte, d: byte)
    ensures ReadBe([a, b, c, d]) == (a as int) * U24 + (b as int) * U16 + (c as int) * U8 + d
  {
    assert [a, b, c, d][..3] == [a, b, c];
    ReadBe3(a, b, c);
  }

  lemma Swapped16(x: nat)
    ensures Le16(Swap16(x)) == [x / U8 % U8, x % U8]
  {
  }

  lemma Swapped24(x: nat)
    ensures Le24(Swap24(x)) == [x / U16 % U8, x / U8 % U8, x % U8]
  {
    var a, b, c := x % U8, x / U8 % U8, x / U16 % U8;
    var y := Swap24(x);
    assert y == (a * U8 + b) * U8 + c;
    assert y / U8 == a * U8 + b;
    assert y / U16 == a;
  }

  lemma Quad(a: nat, b: nat, c: nat, d: nat, y: nat)
    requires a < U8 && b < U8 && c < U8 && d < U8
    requires y == a * U24 + b * U16 + c * U8 + d
    ensures y % U8 == d && y / U8 % U8 == c && y / U16 % U8 == b && y / U24 % U8 == a
  {
    var y1, y2 := a * U16 + b * U8 + c, a * U8 + b;
    assert y / U8 == y1;
    assert y1 / U8 == y2 && y / U16 == y1 / U8;
    assert y / U24 == y2 / U8;
  }

  lemma Swapped32(x: nat)
    ensures Le32(Swap32(x)) == [x / U24 % U8, x / U16 % U8, x / U8 % U8, x % U8]
  {
    Quad(x % U8, x / U8 % U8, x / U16 % U8, x / U24 % U8, Swap32(x));
  }

  lemma Net16(x: nat)
    requires x < U16
    ensures ReadBe(Le16(Swap16(x))) == x
  {
    Swapped16(x);
    Digits(x);
    ReadBe2(x / U8 % U8, x % U8);
  }

  lemma Net24(x: nat)
    requires x < U24
    ensures ReadBe(Le24(Swap24(x))) == x
  {
    Swapped24(x);
    Digits(x);
    ReadBe3(x / U16 % U8, x / U8 % U8, x % U8);
  }

  lemma Net32(x: nat)
    requires x < U32
    ensures ReadBe(Le32(Swap32(x))) == x
  {
    Swapped32(x);
    Digits(x);
    ReadBe4(x / U24 % U8, x / U16 % U8, x / U8 % U8, x % U8);
  }

  lemma ParseBytes(b: seq<byte>, h: seq<byte>, payload: seq<byte>)
    requires |h| == HDR && b == h + payload && h[0] == 0x80 && h[1] % 0x80 == PT_JPEG
    ensures Parse(b) == Good(Packet(h[1] >= 0x80, ReadBe(h[2..4]), ReadBe(h[4..8]), ReadBe(h[13..16]), payload))
  {
    assert b[..HDR] == h && b[HDR..] == payload;
    assert b[2..4] == h[2..4] && b[4..8] == h[4..8] && b[13..16] == h[13..16];
  }

  /** What the sender stores is network order: the receiver reads back the packet. */
  lemma ParseSerialize(p: Packet, s: Session)
    requires InRange(p)
    ensures Parse(Serialize(p, s)) == Good(p)
  {
    var h := HeaderBytes(p.marker, Swap16(p.seqno), Swap32(p.ts), Swap24(p.off), s);
    HeaderFields(p.marker, Swap16(p.seqno), Swap32(p.ts), Swap24(p.off), s);
    ParseBytes(Serialize(p, s), h, p.payload);
    Net16(p.seqno);
    Net24(p.off);
    Net32(p.ts);
  }

  /**
   * The fields that are the same in every packet: version 2 with no padding, extension or contributing
   * sources; the source identifier, stored without a swap; and the JPEG fields - nothing type-specific, type 0,
   * quantiser 1, and the frame's size in blocks of 8 pixels.
   */
  lemma SessionFields(p: Packet, s: Session)
    ensures var b := Serialize(p, s);
      && b[0] == 0x80 && b[1] % 0x80 == 26 && b[8..12] == Le32(s.ssrc)
      && b[12] == 0 && b[16] == 0 && b[17] == 1
      && (s.width < 2048 ==> (b[18] as int) * 8 <= s.width < (b[18] as int) * 8 + 8)
      && (s.height < 2048 ==> (b[19] as int) * 8 <= s.height < (b[19] as int) * 8 + 8)
  {
    var h := HeaderBytes(p.marker, Swap16(p.seqno), Swap32(p.ts), Swap24(p.off), s);
    SessionBytes(p.marker, Swap16(p.seqno), Swap32(p.ts), Swap24(p.off), s);
    assert forall i :: 0 <= i < HDR ==> Serialize(p, s)[i] == h[i];
    assert Serialize(p, s)[8..12] == h[8..12];
  }

  lemma SessionBytes(marker: bool, seqno: nat, ts: nat, off: nat, s: Session)
    ensures var h := HeaderBytes(marker, seqno, ts, off, s);
      && h[0] == 0x80 && h[1] % 0x80 == 26 && h[8..12] == Le32(s.ssrc)
      && h[12] == 0 && h[16] == 0 && h[17] == 1 && h[18] == s.width / 8 % U8 && h[19] == s.height / 8 % U8
  {
  }

  lemma HeaderFields(marker: bool, seqno: nat, ts: nat, off: nat, s: Session)
    ensures var h := HeaderBytes(marker, seqno, ts, off, s);
      && h[0] == 0x80 && h[1] == PT_JPEG + (if marker then 0x80 else 0)
      && h[2..4] == Le16(seqno) && h[4..8] == Le32(ts) && h[13..16] == Le24(off)
  {
  }
}
