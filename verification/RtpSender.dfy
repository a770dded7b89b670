/** The sender as it runs: one control block, one packet buffer, and loops over the frame. */
module RtpSender {
  import opened Basics
  import opened RtpWire
  import opened RtpJpeg

  datatype Flag = StartPart | DataPart | EndPart | WholeFrame

  lemma LowBytes(a: nat, x: nat)
    requires x < U24
    ensures Swap24(a * U24 + x) == Swap24(x)
  {
    Digits(x);
    LastDigit(a * U16 + x / U8, x % U8);
    LastDigit(a * U8 + x / U16, x / U8 % U8);
    LastDigit(a, x / U16);
    var y := a * U24 + x;
    assert y == (a * U16 + x / U8) * U8 + x % U8;
    assert y / U8 == (a * U8 + x / U16) * U8 + x / U8 % U8;
    assert y / U16 == y / U8 / U8;
  }

  lemma LastDigit(q: nat, r: nat)
    requires r < U8
    ensures (q * U8 + r) / U8 == q && (q * U8 + r) % U8 == r
  {
  }

  /** Only the low 24 bits of the running size reach the header. */
  lemma OffsetField(pos: nat)
    ensures Swap24(pos % U32) == Swap24(pos % U24)
  {
    var q, r := pos / U32, pos % U32;
    LowBytes(pos / U24, pos % U24);
    LowBytes(r / U24, r % U24);
    assert pos == q * U32 + r;
    SameLow(q, r);
  }

  lemma SameLow(q: nat, r: nat)
    ensures (q * U32 + r) % U24 == r % U24
  {
    var y := q * U32 + r;
    assert y == (q * U8 + r / U24) * U24 + r % U24;
  }

  /** What remains to be sent completes what has been sent, and the counter will end up right. */
  ghost predicate Progress(sent: seq<Packet>, seqno: nat, rest: seq<Packet>, all: seq<Packet>, allSeq: nat) {
    sent + rest == all && (seqno + |rest|) % U16 == allSeq
  }

  class Sender {
    var transferSize: nat   // 32 bits
    var ts: nat
    var sequence: nat       // 16 bits
    var seqFlag: bool
    const session: Session
    const packetBuf: array<byte>
    var wire: seq<seq<byte>>
    ghost var sent: seq<Packet>   // the packets on the wire

    ghost predicate Valid()
      reads this
    {
      && packetBuf.Length == HDR + PAYLOAD && sequence < U16 && transferSize < U32
      && Carries(wire, sent, session)
    }

    constructor (s: Session)
      ensures Valid() && sent == [] && session == s && sequence == 0 && !seqFlag
      ensures fresh(packetBuf)
    {
      session := s;
      packetBuf := new byte[HDR + PAYLOAD];
      transferSize, ts, sequence, seqFlag, wire, sent := 0, 0, 0, false, [], [];
    }

    method Copy(at: nat, bytes: seq<byte>)
      requires at + |bytes| <= packetBuf.Length
      modifies packetBuf
      ensures packetBuf[at..at + |bytes|] == bytes
      ensures packetBuf[..at] == old(packetBuf[..at])
    {
      for i := 0 to |bytes|
        invariant packetBuf[at..at + i] == bytes[..i]
        invariant packetBuf[..at] == old(packetBuf[..at])
      {
        packetBuf[at + i] := bytes[i];
      }
    }

    /** Headers, then payload; the fields come already swapped. */
    method Build(marker: bool, seqField: nat, tsField: nat, offField: nat, payload: seq<byte>)
      requires packetBuf.Length == HDR + PAYLOAD && |payload| <= PAYLOAD
      modifies packetBuf
      ensures packetBuf[..HDR + |payload|] == HeaderBytes(marker, seqField, tsField, offField, session) + payload
    {
      var h := HeaderBytes(marker, seqField, tsField, offField, session);
      Copy(0, h);
      Copy(HDR, payload);
      assert packetBuf[..HDR] == packetBuf[0..HDR] == h;
      assert packetBuf[..HDR + |payload|] == packetBuf[..HDR] + packetBuf[HDR..HDR + |payload|];
    }

    /** rtp_send_packet: what the socket took is on the wire, and its count is returned. */
    method SendPacket(size: nat, taken: nat) returns (ret: nat)
      requires 0 < taken <= size <= packetBuf.Length
      modifies this`wire
      ensures ret == taken && wire == old(wire) + [packetBuf[..taken]]
    {
      wire := wire + [packetBuf[..taken]];
      ret := taken;
    }

    /** One packet: build it, hand it over, and report how much payload went. */
    method SendOne(marker: bool, data: seq<byte>, pos: nat, ghost off: nat, sock: Socket, k: nat) returns (n: nat)
      requires Valid() && pos < |data| && transferSize == off % U32
      modifies packetBuf, this`wire, this`sent
      ensures Valid() && n == Took(sock, k, |data| - pos)
      ensures sent == old(sent) + [PacketAt(marker, sequence, ts, off, data, pos, sock, k)]
    {
      n := Offered(|data| - pos);
      OffsetField(off);
      Build(marker, Swap16(sequence), Swap32(ts), Swap24(transferSize), data[pos..pos + n]);
      ghost var h := HeaderBytes(marker, Swap16(sequence), Swap32(ts), Swap24(transferSize), session);
      ghost var full := packetBuf[..HDR + n];
      var taken := HDR + Took(sock, k, |data| - pos);
      assert packetBuf[..taken] == full[..taken];
      assert (h + data[pos..pos + n])[..taken] == h + data[pos..pos + (taken - HDR)];
      var ret := SendPacket(HDR + n, taken);
      n := ret - HDR;
      sent := sent + [Packet(marker, sequence, ts, off % U24, data[pos..pos + n])];
    }

    /** Move the counters past a packet. */
    method Advance(n: nat, ghost off: nat)
      requires Valid() && transferSize == off % U32
      modifies this`transferSize, this`sequence
      ensures Valid() && transferSize == (off + n) % U32 && sequence == (old(sequence) + 1) % U16
    {
      transferSize := (transferSize + n) % U32;
      sequence := (sequence + 1) % U16;
    }

    /**
     * One turn of either loop: `heed` says whether it moves on by the socket's count or by what it offered.
     * The packet sent is the first of those that were left to be sent, and `rest` are the others.
     */
    method Turn(marker: bool, data: seq<byte>, pos: nat, ghost off: nat, sock: Socket, k: nat, heed: bool,
                ghost rest: seq<Packet>, ghost all: seq<Packet>, ghost allSeq: nat)
      returns (n: nat)
      requires Valid() && pos < |data| && transferSize == off % U32
      requires Progress(sent, sequence, [PacketAt(marker, sequence, ts, off, data, pos, sock, k)] + rest, all, allSeq)
      modifies packetBuf, this`wire, this`sent, this`transferSize, this`sequence
      ensures n == if heed then Took(sock, k, |data| - pos) else Offered(|data| - pos)
      ensures Valid() && transferSize == (off + n) % U32 && sequence == (old(sequence) + 1) % U16
      ensures Progress(sent, sequence, rest, all, allSeq)
    {
      ProgressStep(sent, sequence, PacketAt(marker, sequence, ts, off, data, pos, sock, k), rest, all, allSeq);
      n := SendOne(marker, data, pos, off, sock, k);
      if !heed { n := Offered(|data| - pos); }
      Advance(n, off);
    }

    method WholeTurn(m: bool, data: seq<byte>, pos: nat, sock: Socket, k: nat,
                     ghost all: seq<Packet>, ghost allSeq: nat)
      returns (n: nat)
      requires Valid() && pos < |data| && transferSize == pos % U32 && m == (|data| - pos <= PAYLOAD)
      requires Progress(sent, sequence, Fragments(data[pos..], pos, sequence, ts, true, sock, k), all, allSeq)
      modifies packetBuf, this`wire, this`sent, this`transferSize, this`sequence
      ensures Valid() && 0 < n <= |data| - pos && transferSize == (pos + n) % U32
      ensures Progress(sent, sequence, Fragments(data[pos + n..], pos + n, sequence, ts, true, sock, k + 1),
                       all, allSeq)
    {
      NextFragment(data, pos, pos, sequence, ts, true, sock, k);
      ghost var took := pos + Took(sock, k, |data| - pos);
      ghost var rest := Fragments(data[took..], took, (sequence + 1) % U16, ts, true, sock, k + 1);
      n := Turn(m, data, pos, pos, sock, k, true, rest, all, allSeq);
    }

    method PartTurn(m: bool, data: seq<byte>, ghost last: bool, pos: nat, ghost off: nat, sock: Socket, k: nat,
                    ghost all: seq<Packet>, ghost allSeq: nat)
      returns (n: nat)
      requires Valid() && pos < |data| && transferSize == off % U32 && m == (last && |data| - pos <= PAYLOAD)
      requires Progress(sent, sequence, PartFragments(data[pos..], off, sequence, ts, last, sock, k), all, allSeq)
      modifies packetBuf, this`wire, this`sent, this`transferSize, this`sequence
      ensures Valid() && 0 < n <= |data| - pos && transferSize == (off + n) % U32
      ensures Progress(sent, sequence, PartFragments(data[pos + n..], off + n, sequence, ts, last, sock, k + 1),
                       all, allSeq)
    {
      NextPartFragment(data, pos, off, sequence, ts, last, sock, k);
      ghost var t := Offered(|data| - pos);
      ghost var rest := PartFragments(data[pos + t..], off + t, (sequence + 1) % U16, ts, last, sock, k + 1);
      n := Turn(m, data, pos, off, sock, k, false, rest, all, allSeq);
    }

    /** The loop of rtp_send_whole_jpeg. */
    method SendLoop(data: seq<byte>, sock: Socket)
      requires Valid() && transferSize == 0
      modifies this`transferSize, this`sequence, this`wire, this`sent, packetBuf
      ensures Valid() && transferSize == |data| % U32
      ensures sent == old(sent) + Whole(data, old(sequence), ts, sock)
      ensures sequence == (old(sequence) + |Whole(data, old(sequence), ts, sock)|) % U16
    {
      var m, remain, pos, k := false, |data|, 0, 0;
      ghost var ps := Whole(data, sequence, ts, sock);
      ghost var all, allSeq := sent + ps, (sequence + |ps|) % U16;
      assert data[0..] == data;
      while remain > 0
        invariant Valid() && 0 <= pos && 0 <= remain && pos + remain == |data|
        invariant transferSize == pos % U32
        invariant m ==> remain <= PAYLOAD
        invariant Progress(sent, sequence, Fragments(data[pos..], pos, sequence, ts, true, sock, k), all, allSeq)
        decreases remain
      {
        if remain <= PAYLOAD { m := true; }
        var n := WholeTurn(m, data, pos, sock, k, all, allSeq);
        pos := pos + n;
        remain := remain - n;
        k := k + 1;
      }
      assert sent + [] == sent;
    }

    /** The loop of rtp_send_jpeg; `first` packets of the frame have been sent already. */
    method SendPart(data: seq<byte>, last: bool, sock: Socket, first: nat, ghost from: nat)
      requires Valid() && transferSize == from % U32
      modifies this`transferSize, this`sequence, this`wire, this`sent, packetBuf
      ensures Valid() && transferSize == (from + |data|) % U32
      ensures sent == old(sent) + PartFragments(data, from, old(sequence), ts, last, sock, first)
      ensures sequence == (old(sequence) + |PartFragments(data, from, old(sequence), ts, last, sock, first)|) % U16
    {
      var m, remain, pos, k := false, |data|, 0, first;
      ghost var ps := PartFragments(data, from, sequence, ts, last, sock, first);
      ghost var all, allSeq := sent + ps, (sequence + |ps|) % U16;
      ghost var off := from;
      assert data[0..] == data;
      while remain > 0
        invariant Valid() && 0 <= pos && 0 <= remain && pos + remain == |data|
        invariant off == from + pos && transferSize == off % U32
        invariant m ==> last && remain <= PAYLOAD
        invariant Progress(sent, sequence, PartFragments(data[pos..], off, sequence, ts, last, sock, k), all, allSeq)
        decreases remain
      {
        if remain <= PAYLOAD && last { m := true; }
        var n := PartTurn(m, data, last, pos, off, sock, k, all, allSeq);
        pos := pos + n;
        off := off + n;
        remain := remain - n;
        k := k + 1;
      }
      assert sent + [] == sent;
    }

    /** rtp_send_whole_jpeg. */
    method SendWholeJpeg(buf: array<byte>, size: nat, newTs: nat, sock: Socket)
      requires Valid() && size <= buf.Length && buf != packetBuf
      requires seqFlag ==> 34 <= buf.Length
      modifies this`transferSize, this`ts, this`sequence, this`wire, this`sent, packetBuf, buf
      ensures Valid() && ts == newTs
      ensures buf[..] == if seqFlag
        then old(buf[..])[32 := Le16(old(sequence))[0]][33 := Le16(old(sequence))[1]] else old(buf[..])
      ensures seqFlag ==> (buf[32] as nat) + (buf[33] as nat) * U8 == old(sequence)
      ensures sent == old(sent) + Whole(buf[..size], old(sequence), newTs, sock)
      ensures sequence == (old(sequence) + |Whole(buf[..size], old(sequence), newTs, sock)|) % U16
    {
      if seqFlag {
        buf[32] := Le16(sequence)[0];
        buf[33] := Le16(sequence)[1];
      }
      transferSize := 0;
      ts := newTs;
      SendLoop(buf[..size], sock);
    }

    /**
     * rtp_send_jpeg.  START and whole frames restart the offset and the timestamp; DATA and END go on
     * from where the last part ended.
     */
    method SendJpeg(part: seq<byte>, flag: Flag, newTs: nat, sock: Socket, first: nat, ghost off: nat)
      requires Valid() && transferSize == off % U32
      modifies this`transferSize, this`ts, this`sequence, this`wire, this`sent, packetBuf
      ensures Valid() && transferSize == ((if flag == StartPart || flag == WholeFrame then 0 else off) + |part|) % U32
      ensures ts == if flag == StartPart || flag == WholeFrame then newTs else old(ts)
      ensures var from := if flag == StartPart || flag == WholeFrame then 0 else off;
        var ps := PartFragments(part, from, old(sequence), ts, flag == EndPart || flag == WholeFrame, sock, first);
        && sent == old(sent) + ps && sequence == (old(sequence) + |ps|) % U16
    {
      ghost var from := if flag == StartPart || flag == WholeFrame then 0 else off;
      if flag == StartPart || flag == WholeFrame {
        transferSize := 0;
        ts := newTs;
      }
      SendPart(part, flag == EndPart || flag == WholeFrame, sock, first, from);
    }

    /** The next part of those that are left. */
    method SendNextPart(parts: seq<seq<byte>>, flag: Flag, newTs: nat, sock: Socket, k: nat, ghost off: nat,
                        ghost all: seq<Packet>, ghost allSeq: nat)
      requires Valid() && parts != []
      requires if flag == StartPart || flag == WholeFrame then off == 0 else transferSize == off % U32 && ts == newTs
      requires (flag == EndPart || flag == WholeFrame) == (|parts| == 1)
      requires Progress(sent, sequence, Parts(parts, off, sequence, newTs, sock, k), all, allSeq)
      modifies this`transferSize, this`ts, this`sequence, this`wire, this`sent, packetBuf
      ensures Valid() && ts == newTs && transferSize == (off + |parts[0]|) % U32
      ensures var next: nat := k + Count(|parts[0]|);
        Progress(sent, sequence, Parts(parts[1..], off + |parts[0]|, sequence, newTs, sock, next), all, allSeq)
    {
      PartSent(sent, sequence, parts, off, newTs, sock, k, all, allSeq);
      SendJpeg(parts[0], flag, newTs, sock, k, if flag == StartPart || flag == WholeFrame then transferSize else off);
    }

    /** The parts after the first. */
    method SendOtherParts(parts: seq<seq<byte>>, sock: Socket, first: nat, ghost from: nat,
                          ghost all: seq<Packet>, ghost allSeq: nat)
      requires Valid() && transferSize == from % U32
      requires Progress(sent, sequence, Parts(parts, from, sequence, ts, sock, first), all, allSeq)
      modifies this`transferSize, this`ts, this`sequence, this`wire, this`sent, packetBuf
      ensures Valid() && ts == old(ts) && sent == all && sequence == allSeq
    {
      ghost var off: nat := from;
      var k: nat, rest, stamp := first, parts, ts;
      while rest != []
        invariant Valid() && ts == stamp && transferSize == off % U32
        invariant Progress(sent, sequence, Parts(rest, off, sequence, stamp, sock, k), all, allSeq)
        decreases |rest|
      {
        SendNextPart(rest, if |rest| == 1 then EndPart else DataPart, stamp, sock, k, off, all, allSeq);
        off, k, rest := off + |rest[0]|, k + Count(|rest[0]|), rest[1..];
      }
      assert sent + [] == sent;
    }

    /** A frame handed over part by part: START, then DATA parts, then END; a single part is a whole frame. */
    method SendInParts(parts: seq<seq<byte>>, newTs: nat, sock: Socket)
      requires Valid() && parts != []
      modifies this`transferSize, this`ts, this`sequence, this`wire, this`sent, packetBuf
      ensures Valid() && ts == newTs
      ensures sent == old(sent) + Parts(parts, 0, old(sequence), newTs, sock, 0)
      ensures sequence == (old(sequence) + |Parts(parts, 0, old(sequence), newTs, sock, 0)|) % U16
    {
      ghost var ps := Parts(parts, 0, sequence, newTs, sock, 0);
      ghost var all, allSeq := sent + ps, (sequence + |ps|) % U16;
      SendNextPart(parts, if |parts| == 1 then WholeFrame else StartPart, newTs, sock, 0, 0, all, allSeq);
      SendOtherParts(parts[1..], sock, Count(|parts[0]|), |parts[0]|, all, allSeq);
    }
  }

  lemma ProgressStep(sent: seq<Packet>, seqno: nat, p: Packet, rest: seq<Packet>, all: seq<Packet>, allSeq: nat)
    requires Progress(sent, seqno, [p] + rest, all, allSeq)
    ensures Progress(sent + [p], (seqno + 1) % U16, rest, all, allSeq)
  {
    assert sent + [p] + rest == sent + ([p] + rest);
    SeqShift(seqno, 1, |rest|);
  }

  /** One part of those that are left has been sent. */
  lemma PartSent(sent: seq<Packet>, seqno: nat, parts: seq<seq<byte>>, off: nat, ts: nat, sock: Socket, k: nat,
                 all: seq<Packet>, allSeq: nat)
    requires seqno < U16 && parts != [] && Progress(sent, seqno, Parts(parts, off, seqno, ts, sock, k), all, allSeq)
    ensures var ps := PartFragments(parts[0], off, seqno, ts, |parts| == 1, sock, k);
      var next := (seqno + |ps|) % U16;
      Progress(sent + ps, next, Parts(parts[1..], off + |parts[0]|, next, ts, sock, k + Count(|parts[0]|)), all, allSeq)
  {
    var ps := PartFragments(parts[0], off, seqno, ts, |parts| == 1, sock, k);
    var rest := Parts(parts[1..], off + |parts[0]|, (seqno + |ps|) % U16, ts, sock, k + Count(|parts[0]|));
    assert sent + ps + rest == sent + (ps + rest);
    SeqShift(seqno, |ps|, |rest|);
  }

  /** The packet that goes out for the bytes from `pos` on. */
  ghost function PacketAt(marker: bool, seqno: nat, ts: nat, off: nat, data: seq<byte>, pos: nat,
                          sock: Socket, k: nat): Packet
    requires pos < |data|
  {
    Packet(marker, seqno, ts, off % U24, data[pos..pos + Took(sock, k, |data| - pos)])
  }

  /** Taking the first packet off what remains to be sent. */
  lemma NextFragment(data: seq<byte>, pos: nat, off: nat, seqno: nat, ts: nat, last: bool, sock: Socket, k: nat)
    requires seqno < U16 && pos < |data|
    ensures var n := Took(sock, k, |data| - pos);
      Fragments(data[pos..], off, seqno, ts, last, sock, k)
        == [PacketAt(last && |data| - pos <= PAYLOAD, seqno, ts, off, data, pos, sock, k)]
         + Fragments(data[pos + n..], off + n, (seqno + 1) % U16, ts, last, sock, k + 1)
  {
    var n := Took(sock, k, |data| - pos);
    assert data[pos..][..n] == data[pos..pos + n] && data[pos..][n..] == data[pos + n..];
  }

  lemma NextPartFragment(data: seq<byte>, pos: nat, off: nat, seqno: nat, ts: nat, last: bool, sock: Socket, k: nat)
    requires seqno < U16 && pos < |data|
    ensures var t := Offered(|data| - pos);
      PartFragments(data[pos..], off, seqno, ts, last, sock, k)
        == [PacketAt(last && |data| - pos <= PAYLOAD, seqno, ts, off, data, pos, sock, k)]
         + PartFragments(data[pos + t..], off + t, (seqno + 1) % U16, ts, last, sock, k + 1)
  {
    var n, t := Took(sock, k, |data| - pos), Offered(|data| - pos);
    assert data[pos..][..n] == data[pos..pos + n] && data[pos..][t..] == data[pos + t..];
  }
}
