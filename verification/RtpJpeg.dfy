/** Fragmentation of JPEG frames into RTP packets, and their reassembly by a receiver. */
module RtpJpeg {
  import opened Basics
  import opened RtpWire

  /**
   * How much of each packet the socket reports as sent, in payload bytes: a positive count, at most what
   * was offered.  FULL is a socket that always takes the whole packet.
   */
  type Socket = nat -> nat

  const FULL: Socket := (k: nat) => PAYLOAD

  function Offered(n: nat): nat { if n > PAYLOAD then PAYLOAD else n }

  function Took(sock: Socket, k: nat, n: nat): (t: nat)
    requires n > 0
    ensures 0 < t <= Offered(n)
  {
    if 0 < sock(k) < Offered(n) then sock(k) else Offered(n)
  }

  /**
   * The packets for `data`, the first of which is number k at frame offset `off`.  The offset field has
   * 24 bits.  In the last chunk of the frame (`last`) the marker bit is set.
   */
  function Fragments(data: seq<byte>, off: nat, seqno: nat, ts: nat, last: bool, sock: Socket, k: nat): seq<Packet>
    requires seqno < U16
    decreases |data|
  {
    if data == [] then []
    else
      var n := Took(sock, k, |data|);
      [Packet(last && |data| <= PAYLOAD, seqno, ts, off % U24, data[..n])]
      + Fragments(data[n..], off + n, (seqno + 1) % U16, ts, last, sock, k + 1)
  }

  /** The offset at which the last packet starts. */
  function LastOffset(data: seq<byte>, off: nat, sock: Socket, k: nat): nat
    requires data != []
    decreases |data|
  {
    var n := Took(sock, k, |data|);
    if n == |data| then off else LastOffset(data[n..], off + n, sock, k + 1)
  }

  // ----- what the packets look like -----

  lemma NextSeq(s: nat, i: nat)
    requires i > 0
    ensures ((s + 1) % U16 + (i - 1)) % U16 == (s + i) % U16
  {
  }

  /** Sequence numbers count up modulo 2^16, the timestamp stays, and the marker names the last chunk. */
  lemma {:induction false} FragmentFields(data: seq<byte>, off: nat, seqno: nat, ts: nat, last: bool,
                                          sock: Socket, k: nat, i: nat)
    requires seqno < U16 && i < |Fragments(data, off, seqno, ts, last, sock, k)|
    ensures var ps := Fragments(data, off, seqno, ts, last, sock, k);
      && ps[i].seqno == (seqno + i) % U16 && ps[i].ts == ts
      && 0 < |ps[i].payload| <= PAYLOAD
    decreases |data|
  {
    var n := Took(sock, k, |data|);
    if i > 0 {
      FragmentFields(data[n..], off + n, (seqno + 1) % U16, ts, last, sock, k + 1, i - 1);
      NextSeq(seqno, i);
    }
  }

  /** Received back to back, the packets hold the frame's bytes in order, each exactly once. */
  ghost predicate Tiles(ps: seq<Packet>, data: seq<byte>, off: nat)
    decreases |ps|
  {
    if ps == [] then data == []
    else
      && ps[0].off == off && ps[0].payload != [] && ps[0].payload <= data
      && Tiles(ps[1..], data[|ps[0].payload|..], off + |ps[0].payload|)
  }

  lemma {:induction false} FragmentsTile(data: seq<byte>, off: nat, seqno: nat, ts: nat, last: bool,
                                         sock: Socket, k: nat)
    requires seqno < U16 && (data != [] ==> LastOffset(data, off, sock, k) < U24)
    ensures Tiles(Fragments(data, off, seqno, ts, last, sock, k), data, off)
    decreases |data|
  {
    if data != [] {
      var n := Took(sock, k, |data|);
      LastOffsetAbove(data, off, sock, k);
      FragmentsTile(data[n..], off + n, (seqno + 1) % U16, ts, last, sock, k + 1);
    }
  }

  lemma {:induction false} LastOffsetAbove(data: seq<byte>, off: nat, sock: Socket, k: nat)
    requires data != []
    ensures off <= LastOffset(data, off, sock, k) < off + |data|
    decreases |data|
  {
    var n := Took(sock, k, |data|);
    if n < |data| { LastOffsetAbove(data[n..], off + n, sock, k + 1); }
  }

  lemma TilesCons(p: Packet, rest: seq<Packet>, head: seq<byte>, tail: seq<byte>, off: nat)
    requires p.off == off && p.payload == head && head != [] && Tiles(rest, tail, off + |head|)
    ensures Tiles([p] + rest, head + tail, off)
  {
    assert ([p] + rest)[1..] == rest && (head + tail)[|head|..] == tail;
  }

  lemma {:induction false} TilesAppend(a: seq<Packet>, b: seq<Packet>, x: seq<byte>, y: seq<byte>, off: nat)
    requires Tiles(a, x, off) && Tiles(b, y, off + |x|)
    ensures Tiles(a + b, x + y, off)
    decreases |a|
  {
    if a == [] {
      assert a + b == b && x + y == y;
    } else {
      var head, tail := a[0].payload, x[|a[0].payload|..];
      TilesAppend(a[1..], b, tail, y, off + |head|);
      TilesCons(a[0], a[1..] + b, head, tail + y, off);
      assert a + b == [a[0]] + (a[1..] + b) && x + y == head + (tail + y);
    }
  }

  // ----- the receiver -----

  /** Each payload byte goes to its fragment offset. */
  function Block(p: Packet): map<nat, byte> {
    map i: nat | p.off <= i < p.off + |p.payload| && Covers(p, i) :: p.payload[i - p.off]
  }

  predicate Covers(p: Packet, i: nat) { p.off <= i < p.off + |p.payload| }

  function Reassemble(ps: seq<Packet>): map<nat, byte> {
    if ps == [] then map[] else Reassemble(ps[1..]) + Block(ps[0])
  }

  function Frame(data: seq<byte>): map<nat, byte> {
    map i: nat | i < |data| :: data[i]
  }

  lemma {:induction false} ReassembleHas(ps: seq<Packet>, i: nat)
    ensures i in Reassemble(ps) <==> exists k :: 0 <= k < |ps| && i in Block(ps[k])
    ensures i in Reassemble(ps) ==>
      exists k :: 0 <= k < |ps| && i in Block(ps[k]) && Reassemble(ps)[i] == Block(ps[k])[i]
  {
    if ps != [] {
      ReassembleHas(ps[1..], i);
      if i in Block(ps[0]) {
        assert Reassemble(ps)[i] == Block(ps[0])[i];
      } else if i in Reassemble(ps) {
        var k :| 0 <= k < |ps[1..]| && i in Block(ps[1..][k]) && Reassemble(ps[1..])[i] == Block(ps[1..][k])[i];
        assert ps[1..][k] == ps[k + 1];
      }
      forall k | 0 < k < |ps| && i in Block(ps[k]) ensures i in Reassemble(ps[1..]) {
        assert ps[1..][k - 1] == ps[k];
      }
    }
  }

  /** Every tile holds bytes of the frame at their own places. */
  lemma {:induction false} TileIsInside(ps: seq<Packet>, data: seq<byte>, off: nat, k: nat, i: nat)
    requires Tiles(ps, data, off) && k < |ps| && i in Block(ps[k])
    ensures off <= i < off + |data| && Block(ps[k])[i] == data[i - off]
    decreases |ps|
  {
    var n := |ps[0].payload|;
    if k > 0 {
      assert ps[1..][k - 1] == ps[k];
      TileIsInside(ps[1..], data[n..], off + n, k - 1, i);
    }
  }

  /** Exactly one tile holds each byte. */
  lemma {:induction false} TileOf(ps: seq<Packet>, data: seq<byte>, off: nat, i: nat) returns (k: nat)
    requires Tiles(ps, data, off) && off <= i < off + |data|
    ensures k < |ps| && i in Block(ps[k])
    ensures forall j :: 0 <= j < |ps| && i in Block(ps[j]) ==> j == k
    decreases |ps|
  {
    var n := |ps[0].payload|;
    if i < off + n {
      k := 0;
      forall j | 0 < j < |ps| ensures i !in Block(ps[j]) {
        assert ps[1..][j - 1] == ps[j];
        if i in Block(ps[j]) { TileIsInside(ps[1..], data[n..], off + n, j - 1, i); }
      }
    } else {
      var m := TileOf(ps[1..], data[n..], off + n, i);
      k := m + 1;
      assert ps[1..][m] == ps[k];
      forall j | 0 <= j < |ps| && i in Block(ps[j]) ensures j == k {
        if j > 0 { assert ps[1..][j - 1] == ps[j]; }
      }
    }
  }

  function IndexOf(ps: seq<Packet>, p: Packet): (k: nat)
    requires p in ps
    ensures k < |ps| && ps[k] == p
  {
    if ps[0] == p then 0 else 1 + IndexOf(ps[1..], p)
  }

  /** Only packets that were sent arrive; any of them may be missing, repeated or out of order. */
  ghost predicate ComesFrom(arrived: seq<Packet>, ps: seq<Packet>) {
    forall p :: p in arrived ==> p in ps
  }

  /** Whatever the receiver holds are bytes of the frame at their own places. */
  lemma ReassembledByte(ps: seq<Packet>, data: seq<byte>, arrived: seq<Packet>, i: nat)
    requires Tiles(ps, data, 0) && ComesFrom(arrived, ps) && i in Reassemble(arrived)
    ensures i < |data| && Reassemble(arrived)[i] == data[i]
  {
    ReassembleHas(arrived, i);
    var k :| 0 <= k < |arrived| && i in Block(arrived[k]) && Reassemble(arrived)[i] == Block(arrived[k])[i];
    assert arrived[k] in arrived;
    TileIsInside(ps, data, 0, IndexOf(ps, arrived[k]), i);
  }

  /** If every packet arrived at least once, in any order, the receiver holds the frame. */
  lemma AllArrived(ps: seq<Packet>, data: seq<byte>, arrived: seq<Packet>)
    requires Tiles(ps, data, 0) && ComesFrom(arrived, ps) && ComesFrom(ps, arrived)
    ensures Reassemble(arrived) == Frame(data)
  {
    var r := Reassemble(arrived);
    forall i: nat ensures i in r <==> i in Frame(data) {
      if i in r {
        ReassembledByte(ps, data, arrived, i);
      }
      if i < |data| {
        var k := TileOf(ps, data, 0, i);
        ReassembleHas(arrived, i);
        assert ps[k] in ps;
        assert i in Block(arrived[IndexOf(arrived, ps[k])]);
      }
    }
    forall i | i in r ensures r[i] == Frame(data)[i] {
      ReassembledByte(ps, data, arrived, i);
    }
  }

  lemma {:induction false} TilesNonEmpty(ps: seq<Packet>, data: seq<byte>, off: nat, k: nat)
    requires Tiles(ps, data, off) && k < |ps|
    ensures ps[k].payload != []
    decreases |ps|
  {
    if k > 0 { TilesNonEmpty(ps[1..], data[|ps[0].payload|..], off + |ps[0].payload|, k - 1); }
  }

  /** A packet that did not arrive leaves a hole where it starts. */
  lemma MissingLeavesGap(ps: seq<Packet>, data: seq<byte>, arrived: seq<Packet>, p: Packet)
    requires Tiles(ps, data, 0) && ComesFrom(arrived, ps) && p in ps && p !in arrived
    ensures p.off < |data| && p.off !in Reassemble(arrived)
  {
    var i, k := p.off, IndexOf(ps, p);
    TilesNonEmpty(ps, data, 0, k);
    TileIsInside(ps, data, 0, k, i);
    ReassembleHas(arrived, i);
    var t := TileOf(ps, data, 0, i);
    forall m | 0 <= m < |arrived| ensures i !in Block(arrived[m]) {
      assert arrived[m] in arrived;
      assert IndexOf(ps, arrived[m]) != k;
    }
  }

  /**
   * The receiver has a byte for every position of the frame exactly if every packet arrived at least
   * once, and then what it has is the frame; so a missing packet is always detected.
   */
  lemma CompleteExactlyIfAllArrive(ps: seq<Packet>, data: seq<byte>, arrived: seq<Packet>)
    requires Tiles(ps, data, 0) && ComesFrom(arrived, ps)
    ensures Reassemble(arrived).Keys == Frame(data).Keys <==> ComesFrom(ps, arrived)
    ensures Reassemble(arrived) == Frame(data) <==> ComesFrom(ps, arrived)
  {
    if ComesFrom(ps, arrived) {
      AllArrived(ps, data, arrived);
    } else {
      var p :| p in ps && p !in arrived;
      MissingLeavesGap(ps, data, arrived, p);
      assert p.off in Frame(data).Keys;
    }
  }

  /** No packet of ps holds byte i. */
  predicate Hole(ps: seq<Packet>, i: nat) {
    ps == [] || (!Covers(ps[0], i) && Hole(ps[1..], i))
  }

  lemma {:induction false} HoleMeans(ps: seq<Packet>, i: nat)
    requires Hole(ps, i)
    ensures i !in Reassemble(ps)
  {
    if ps != [] { HoleMeans(ps[1..], i); }
  }

  lemma {:induction false} HoleAppend(a: seq<Packet>, b: seq<Packet>, i: nat)
    requires Hole(a, i) && Hole(b, i)
    ensures Hole(a + b, i)
  {
    if a == [] {
      assert a + b == b;
    } else {
      HoleAppend(a[1..], b, i);
      assert (a + b)[0] == a[0] && (a + b)[1..] == a[1..] + b;
    }
  }

  lemma HoleCons(p: Packet, rest: seq<Packet>, i: nat)
    requires !Covers(p, i) && Hole(rest, i)
    ensures Hole([p] + rest, i)
  {
    assert ([p] + rest)[1..] == rest;
  }

  // ----- rtp_send_whole_jpeg -----

  /** Packets of one frame sent whole. */
  function Whole(frame: seq<byte>, seqno: nat, ts: nat, sock: Socket): seq<Packet>
    requires seqno < U16
  {
    Fragments(frame, 0, seqno, ts, true, sock, 0)
  }

  /**
   * Every frame sent whole is recovered, whatever the socket's counts, as long as the last packet's
   * offset fits in 24 bits.
   */
  lemma WholeIsRecovered(frame: seq<byte>, seqno: nat, ts: nat, sock: Socket, arrived: seq<Packet>)
    requires seqno < U16 && (frame != [] ==> LastOffset(frame, 0, sock, 0) < U24)
    requires ComesFrom(arrived, Whole(frame, seqno, ts, sock))
    ensures Reassemble(arrived) == Frame(frame) <==> ComesFrom(Whole(frame, seqno, ts, sock), arrived)
  {
    FragmentsTile(frame, 0, seqno, ts, true, sock, 0);
    CompleteExactlyIfAllArrive(Whole(frame, seqno, ts, sock), frame, arrived);
  }

  /** Past that, the offset field wraps, and the frame's last byte is never placed. */
  lemma {:induction false} WrappedOffsetLosesTheEnd(data: seq<byte>, off: nat, seqno: nat, ts: nat, last: bool,
                                                    sock: Socket, k: nat)
    requires seqno < U16 && data != [] && LastOffset(data, off, sock, k) >= U24
    ensures Hole(Fragments(data, off, seqno, ts, last, sock, k), off + |data| - 1)
    decreases |data|
  {
    var n := Took(sock, k, |data|);
    var rest := Fragments(data[n..], off + n, (seqno + 1) % U16, ts, last, sock, k + 1);
    if n < |data| {
      WrappedOffsetLosesTheEnd(data[n..], off + n, (seqno + 1) % U16, ts, last, sock, k + 1);
    }
    HoleCons(Packet(last && |data| <= PAYLOAD, seqno, ts, off % U24, data[..n]), rest, off + |data| - 1);
  }

  /** So a whole frame is recoverable exactly when its last packet's offset fits. */
  lemma RecoverableExactly(frame: seq<byte>, seqno: nat, ts: nat, sock: Socket)
    requires seqno < U16 && frame != []
    ensures Reassemble(Whole(frame, seqno, ts, sock)) == Frame(frame) <==> LastOffset(frame, 0, sock, 0) < U24
  {
    var ps := Whole(frame, seqno, ts, sock);
    if LastOffset(frame, 0, sock, 0) < U24 {
      WholeIsRecovered(frame, seqno, ts, sock, ps);
    } else {
      var i := |frame| - 1;
      WrappedOffsetLosesTheEnd(frame, 0, seqno, ts, true, sock, 0);
      HoleMeans(ps, i);
      assert i in Frame(frame);
    }
  }

  /** With full packets the last offset is the frame size rounded down to whole payloads. */
  lemma {:induction false} FullLastOffset(data: seq<byte>, off: nat, k: nat)
    requires data != []
    ensures LastOffset(data, off, FULL, k) == off + (|data| - 1) / PAYLOAD * PAYLOAD
    decreases |data|
  {
    if |data| > PAYLOAD {
      FullLastOffset(data[PAYLOAD..], off + PAYLOAD, k + 1);
      assert (|data| - 1) / PAYLOAD == (|data| - PAYLOAD - 1) / PAYLOAD + 1;
    }
  }

  /** A socket that always takes the whole packet: whether a frame is recoverable can be read off its size. */
  lemma FullyTakenRecoverableExactly(frame: seq<byte>, seqno: nat, ts: nat)
    requires seqno < U16 && frame != []
    ensures Reassemble(Whole(frame, seqno, ts, FULL)) == Frame(frame) <==> (|frame| - 1) / PAYLOAD * PAYLOAD < U24
  {
    RecoverableExactly(frame, seqno, ts, FULL);
    FullLastOffset(frame, 0, 0);
  }

  /** Whatever the socket takes, a frame of at most 2^24 bytes is recovered. */
  lemma UpTo24BitsRecovered(frame: seq<byte>, seqno: nat, ts: nat, sock: Socket)
    requires seqno < U16 && |frame| <= U24
    ensures Reassemble(Whole(frame, seqno, ts, sock)) == Frame(frame)
  {
    if frame != [] { LastOffsetAbove(frame, 0, sock, 0); }
    WholeIsRecovered(frame, seqno, ts, sock, Whole(frame, seqno, ts, sock));
  }

  /** With full packets the marker is set on the last packet of the chunk that ends the frame, and no other. */
  lemma {:induction false} MarkerIsLast(data: seq<byte>, off: nat, seqno: nat, ts: nat, last: bool, k: nat, i: nat)
    requires seqno < U16 && i < |Fragments(data, off, seqno, ts, last, FULL, k)|
    ensures var ps := Fragments(data, off, seqno, ts, last, FULL, k);
      ps[i].marker <==> last && i == |ps| - 1
    decreases |data|
  {
    var n := Took(FULL, k, |data|);
    if i > 0 {
      MarkerIsLast(data[n..], off + n, (seqno + 1) % U16, ts, last, k + 1, i - 1);
    }
  }

  /** The marker is on the last packet and on no other. */
  ghost predicate MarkedOnce(ps: seq<Packet>) {
    forall i :: 0 <= i < |ps| ==> (ps[i].marker <==> i == |ps| - 1)
  }

  lemma MarkedOnceCons(p: Packet, rest: seq<Packet>)
    requires rest != []
    ensures MarkedOnce([p] + rest) <==> !p.marker && MarkedOnce(rest)
  {
    var ps := [p] + rest;
    assert ps[0] == p && forall i :: 0 <= i < |rest| ==> ps[i + 1] == rest[i];
    if MarkedOnce(ps) {
      assert !ps[0].marker;
      forall i | 0 <= i < |rest| ensures rest[i].marker <==> i == |rest| - 1 { assert ps[i + 1] == rest[i]; }
    }
  }

  /** The socket takes in full the first packet that is offered all there is left. */
  predicate TailTaken(data: seq<byte>, sock: Socket, k: nat)
    decreases |data|
  {
    data == [] || (
      var n := Took(sock, k, |data|);
      if |data| <= PAYLOAD then n == |data| else TailTaken(data[n..], sock, k + 1))
  }

  /**
   * A socket that takes less of the last packet than was offered makes the sender repeat the marker; in a
   * frame sent whole it is on the last packet alone exactly if that does not happen.
   */
  lemma {:induction false} MarkedOnceExactly(data: seq<byte>, off: nat, seqno: nat, ts: nat, sock: Socket, k: nat)
    requires seqno < U16
    ensures MarkedOnce(Fragments(data, off, seqno, ts, true, sock, k)) <==> TailTaken(data, sock, k)
    decreases |data|
  {
    if data != [] {
      var n := Took(sock, k, |data|);
      var p := Packet(|data| <= PAYLOAD, seqno, ts, off % U24, data[..n]);
      var rest := Fragments(data[n..], off + n, (seqno + 1) % U16, ts, true, sock, k + 1);
      assert Fragments(data, off, seqno, ts, true, sock, k) == [p] + rest;
      if n < |data| {
        MarkedOnceCons(p, rest);
        MarkedOnceExactly(data[n..], off + n, (seqno + 1) % U16, ts, sock, k + 1);
      }
    }
  }

  // ----- rtp_send_jpeg -----

  /** The packets for one part.  This loop ignores the socket's count and moves on by what it offered. */
  function PartFragments(data: seq<byte>, off: nat, seqno: nat, ts: nat, last: bool, sock: Socket, k: nat): seq<Packet>
    requires seqno < U16
    decreases |data|
  {
    if data == [] then []
    else
      var t := Offered(|data|);
      [Packet(last && |data| <= PAYLOAD, seqno, ts, off % U24, data[..Took(sock, k, |data|)])]
      + PartFragments(data[t..], off + t, (seqno + 1) % U16, ts, last, sock, k + 1)
  }

  /** Every packet of the part was taken in full. */
  predicate Taken(data: seq<byte>, sock: Socket, k: nat)
    decreases |data|
  {
    data == [] || (
      && Took(sock, k, |data|) == Offered(|data|)
      && Taken(data[Offered(|data|)..], sock, k + 1))
  }

  lemma {:induction false} PartFragmentFields(data: seq<byte>, off: nat, seqno: nat, ts: nat, last: bool,
                                              sock: Socket, k: nat, i: nat)
    requires seqno < U16 && i < |PartFragments(data, off, seqno, ts, last, sock, k)|
    ensures var ps := PartFragments(data, off, seqno, ts, last, sock, k);
      && ps[i].seqno == (seqno + i) % U16 && ps[i].ts == ts
      && (ps[i].marker <==> last && i == |ps| - 1)
    decreases |data|
  {
    var t := Offered(|data|);
    if i > 0 {
      PartFragmentFields(data[t..], off + t, (seqno + 1) % U16, ts, last, sock, k + 1, i - 1);
      NextSeq(seqno, i);
    }
  }

  lemma {:induction false} PartTiles(data: seq<byte>, off: nat, seqno: nat, ts: nat, last: bool, sock: Socket, k: nat)
    requires seqno < U16 && off + |data| <= U24 && Taken(data, sock, k)
    ensures Tiles(PartFragments(data, off, seqno, ts, last, sock, k), data, off)
    decreases |data|
  {
    if data != [] {
      var t := Offered(|data|);
      PartTiles(data[t..], off + t, (seqno + 1) % U16, ts, last, sock, k + 1);
    }
  }

  /** A part's packets stay within its range. */
  lemma {:induction false} PartOutside(data: seq<byte>, off: nat, seqno: nat, ts: nat, last: bool, sock: Socket, k: nat,
                                       i: nat)
    requires seqno < U16 && off + |data| <= U24 && (i < off || i >= off + |data|)
    ensures Hole(PartFragments(data, off, seqno, ts, last, sock, k), i)
    decreases |data|
  {
    if data != [] {
      var t := Offered(|data|);
      PartOutside(data[t..], off + t, (seqno + 1) % U16, ts, last, sock, k + 1, i);
      HoleCons(Packet(last && |data| <= PAYLOAD, seqno, ts, off % U24, data[..Took(sock, k, |data|)]),
               PartFragments(data[t..], off + t, (seqno + 1) % U16, ts, last, sock, k + 1), i);
    }
  }

  /** A packet not taken in full leaves a hole behind what was taken of it. */
  lemma {:induction false} PartHole(data: seq<byte>, off: nat, seqno: nat, ts: nat, last: bool, sock: Socket, k: nat)
      returns (i: nat)
    requires seqno < U16 && off + |data| <= U24 && !Taken(data, sock, k)
    ensures off <= i < off + |data| && Hole(PartFragments(data, off, seqno, ts, last, sock, k), i)
    decreases |data|
  {
    var n, t := Took(sock, k, |data|), Offered(|data|);
    if n < t {
      i := off + n;
      PartOutside(data[t..], off + t, (seqno + 1) % U16, ts, last, sock, k + 1, i);
    } else {
      i := PartHole(data[t..], off + t, (seqno + 1) % U16, ts, last, sock, k + 1);
    }
    HoleCons(Packet(last && |data| <= PAYLOAD, seqno, ts, off % U24, data[..n]),
             PartFragments(data[t..], off + t, (seqno + 1) % U16, ts, last, sock, k + 1), i);
  }

  /** How many packets n bytes are cut into. */
  function Count(n: nat): nat { (n + PAYLOAD - 1) / PAYLOAD }

  /** A frame sent as parts: START, then DATA parts, then END, which carries the marker. */
  function Parts(parts: seq<seq<byte>>, off: nat, seqno: nat, ts: nat, sock: Socket, k: nat): seq<Packet>
    requires seqno < U16
  {
    if parts == [] then []
    else
      var ps := PartFragments(parts[0], off, seqno, ts, |parts| == 1, sock, k);
      ps + Parts(parts[1..], off + |parts[0]|, (seqno + |ps|) % U16, ts, sock, k + Count(|parts[0]|))
  }

  predicate AllTaken(parts: seq<seq<byte>>, sock: Socket, k: nat) {
    parts == [] || (Taken(parts[0], sock, k) && AllTaken(parts[1..], sock, k + Count(|parts[0]|)))
  }

  lemma {:induction false} PartsTile(parts: seq<seq<byte>>, off: nat, seqno: nat, ts: nat, sock: Socket, k: nat)
    requires seqno < U16 && off + |Concat(parts)| <= U24 && AllTaken(parts, sock, k)
    ensures Tiles(Parts(parts, off, seqno, ts, sock, k), Concat(parts), off)
  {
    if parts != [] {
      var ps := PartFragments(parts[0], off, seqno, ts, |parts| == 1, sock, k);
      var rest := Parts(parts[1..], off + |parts[0]|, (seqno + |ps|) % U16, ts, sock, k + Count(|parts[0]|));
      PartTiles(parts[0], off, seqno, ts, |parts| == 1, sock, k);
      PartsTile(parts[1..], off + |parts[0]|, (seqno + |ps|) % U16, ts, sock, k + Count(|parts[0]|));
      TilesAppend(ps, rest, parts[0], Concat(parts[1..]), off);
    }
  }

  /** Bytes outside a frame's range are in none of its packets. */
  lemma {:induction false} PartsOutside(parts: seq<seq<byte>>, off: nat, seqno: nat, ts: nat, sock: Socket, k: nat,
                                        i: nat)
    requires seqno < U16 && off + |Concat(parts)| <= U24 && (i < off || i >= off + |Concat(parts)|)
    ensures Hole(Parts(parts, off, seqno, ts, sock, k), i)
  {
    if parts != [] {
      var ps := PartFragments(parts[0], off, seqno, ts, |parts| == 1, sock, k);
      PartOutside(parts[0], off, seqno, ts, |parts| == 1, sock, k, i);
      PartsOutside(parts[1..], off + |parts[0]|, (seqno + |ps|) % U16, ts, sock, k + Count(|parts[0]|), i);
      HoleAppend(ps, Parts(parts[1..], off + |parts[0]|, (seqno + |ps|) % U16, ts, sock, k + Count(|parts[0]|)), i);
    }
  }

  lemma {:induction false} PartsHole(parts: seq<seq<byte>>, off: nat, seqno: nat, ts: nat, sock: Socket, k: nat)
      returns (i: nat)
    requires seqno < U16 && off + |Concat(parts)| <= U24 && !AllTaken(parts, sock, k)
    ensures off <= i < off + |Concat(parts)| && Hole(Parts(parts, off, seqno, ts, sock, k), i)
  {
    var ps := PartFragments(parts[0], off, seqno, ts, |parts| == 1, sock, k);
    if Taken(parts[0], sock, k) {
      i := PartsHole(parts[1..], off + |parts[0]|, (seqno + |ps|) % U16, ts, sock, k + Count(|parts[0]|));
      PartOutside(parts[0], off, seqno, ts, |parts| == 1, sock, k, i);
    } else {
      i := PartHole(parts[0], off, seqno, ts, |parts| == 1, sock, k);
      PartsOutside(parts[1..], off + |parts[0]|, (seqno + |ps|) % U16, ts, sock, k + Count(|parts[0]|), i);
    }
    HoleAppend(ps, Parts(parts[1..], off + |parts[0]|, (seqno + |ps|) % U16, ts, sock, k + Count(|parts[0]|)), i);
  }

  /**
   * Sent in parts, a frame arrives as it does when its concatenation is sent whole, exactly if the socket
   * took every packet of the parts in full: a short count that the whole form would make up for is a hole here.
   */
  lemma PartsAreTheWhole(parts: seq<seq<byte>>, seqno: nat, ts: nat, sock: Socket, other: Socket)
    requires seqno < U16 && |Concat(parts)| <= U24
    ensures Reassemble(Whole(Concat(parts), seqno, ts, other)) == Frame(Concat(parts))
    ensures Reassemble(Parts(parts, 0, seqno, ts, sock, 0)) == Frame(Concat(parts)) <==> AllTaken(parts, sock, 0)
  {
    var frame, ps := Concat(parts), Parts(parts, 0, seqno, ts, sock, 0);
    if frame != [] { LastOffsetAbove(frame, 0, other, 0); }
    WholeIsRecovered(frame, seqno, ts, other, Whole(frame, seqno, ts, other));
    if AllTaken(parts, sock, 0) {
      PartsTile(parts, 0, seqno, ts, sock, 0);
      CompleteExactlyIfAllArrive(ps, frame, ps);
    } else {
      var i := PartsHole(parts, 0, seqno, ts, sock, 0);
      HoleMeans(ps, i);
      assert i in Frame(frame);
    }
  }

  lemma SeqShift(s: nat, n: nat, i: nat)
    ensures ((s + n) % U16 + i) % U16 == (s + (n + i)) % U16
  {
  }

  lemma {:induction false} PartsSequence(parts: seq<seq<byte>>, off: nat, seqno: nat, ts: nat, sock: Socket, k: nat,
                                         i: nat)
    requires seqno < U16 && i < |Parts(parts, off, seqno, ts, sock, k)|
    ensures Numbered(Parts(parts, off, seqno, ts, sock, k)[i], seqno, ts, i)
    decreases |parts|
  {
    var ps := PartFragments(parts[0], off, seqno, ts, |parts| == 1, sock, k);
    if i < |ps| {
      PartFragmentFields(parts[0], off, seqno, ts, |parts| == 1, sock, k, i);
    } else {
      PartsSequence(parts[1..], off + |parts[0]|, (seqno + |ps|) % U16, ts, sock, k + Count(|parts[0]|), i - |ps|);
      SeqShift(seqno, |ps|, i - |ps|);
    }
  }

  /** p has the timestamp, and is number i from seqno on. */
  predicate Numbered(p: Packet, seqno: nat, ts: nat, i: nat) {
    p.ts == ts && p.seqno == (seqno + i) % U16
  }

  ghost predicate NoneMarked(ps: seq<Packet>) {
    forall i :: 0 <= i < |ps| ==> !ps[i].marker
  }

  /** Marked as a frame's packets should be if its END part is not empty, and as they are if it is. */
  ghost predicate Marking(ps: seq<Packet>, ended: bool) {
    if ended then ps != [] && MarkedOnce(ps) else NoneMarked(ps)
  }

  lemma MarkAppend(a: seq<Packet>, b: seq<Packet>, ended: bool)
    requires NoneMarked(a) && Marking(b, ended)
    ensures Marking(a + b, ended)
  {
  }

  lemma PartMarks(data: seq<byte>, off: nat, seqno: nat, ts: nat, last: bool, sock: Socket, k: nat)
    requires seqno < U16
    ensures Marking(PartFragments(data, off, seqno, ts, last, sock, k), last && data != [])
  {
    var ps := PartFragments(data, off, seqno, ts, last, sock, k);
    forall i | 0 <= i < |ps| ensures ps[i].marker <==> last && i == |ps| - 1 {
      PartFragmentFields(data, off, seqno, ts, last, sock, k, i);
    }
  }

  /** The marker is on the frame's last packet alone, or, if the END part is empty, on none. */
  lemma {:induction false} PartsMarker(parts: seq<seq<byte>>, off: nat, seqno: nat, ts: nat, sock: Socket, k: nat)
    requires seqno < U16 && parts != []
    ensures Marking(Parts(parts, off, seqno, ts, sock, k), parts[|parts| - 1] != [])
    decreases |parts|
  {
    var ps := PartFragments(parts[0], off, seqno, ts, |parts| == 1, sock, k);
    var next: nat := k + Count(|parts[0]|);
    var rest := Parts(parts[1..], off + |parts[0]|, (seqno + |ps|) % U16, ts, sock, next);
    PartMarks(parts[0], off, seqno, ts, |parts| == 1, sock, k);
    assert Parts(parts, off, seqno, ts, sock, k) == ps + rest;
    if |parts| == 1 {
      assert ps + [] == ps && rest == [];
    } else {
      PartsMarker(parts[1..], off + |parts[0]|, (seqno + |ps|) % U16, ts, sock, next);
      MarkAppend(ps, rest, parts[|parts| - 1] != []);
    }
  }

  /**
   * Over all parts of a frame, whatever the socket takes: one timestamp, consecutive sequence numbers, and
   * the marker on the last packet and no other, provided the END part is not empty.
   */
  lemma PartsFields(parts: seq<seq<byte>>, seqno: nat, ts: nat, sock: Socket, i: nat)
    requires seqno < U16 && i < |Parts(parts, 0, seqno, ts, sock, 0)|
    ensures var ps := Parts(parts, 0, seqno, ts, sock, 0);
      && ps[i].ts == ts && ps[i].seqno == (seqno + i) % U16
      && (ps[i].marker <==> parts[|parts| - 1] != [] && i == |ps| - 1)
  {
    PartsSequence(parts, 0, seqno, ts, sock, 0, i);
    PartsMarker(parts, 0, seqno, ts, sock, 0);
  }

  /** A frame sent in parts has a marked packet if and only if its END part is not empty. */
  lemma MarkedExactlyIfEndNotEmpty(parts: seq<seq<byte>>, seqno: nat, ts: nat, sock: Socket)
    requires seqno < U16 && parts != []
    ensures (exists p :: p in Parts(parts, 0, seqno, ts, sock, 0) && p.marker) <==> parts[|parts| - 1] != []
  {
    var ps := Parts(parts, 0, seqno, ts, sock, 0);
    PartsMarker(parts, 0, seqno, ts, sock, 0);
    if parts[|parts| - 1] != [] { assert ps[|ps| - 1] in ps; }
  }

  // ----- series of frames -----

  /** One frame, whole or in parts, and what the socket takes of its packets. */
  datatype Sending =
    | AsWhole(frame: seq<byte>, ts: nat, sock: Socket)
    | AsParts(parts: seq<seq<byte>>, ts: nat, sock: Socket)

  function Packets(x: Sending, seqno: nat): seq<Packet>
    requires seqno < U16
  {
    match x
    case AsWhole(frame, ts, sock) => Whole(frame, seqno, ts, sock)
    case AsParts(parts, ts, sock) => Parts(parts, 0, seqno, ts, sock, 0)
  }

  function Series(xs: seq<Sending>, seqno: nat): seq<Packet>
    requires seqno < U16
  {
    if xs == [] then []
    else
      var ps := Packets(xs[0], seqno);
      ps + Series(xs[1..], (seqno + |ps|) % U16)
  }

  /** Over any series of frames, whole or in parts, sequence numbers are consecutive modulo 2^16. */
  lemma {:induction false} SeriesSequence(xs: seq<Sending>, seqno: nat, i: nat)
    requires seqno < U16 && i < |Series(xs, seqno)|
    ensures Series(xs, seqno)[i].seqno == (seqno + i) % U16
    decreases |xs|
  {
    var ps := Packets(xs[0], seqno);
    if i < |ps| {
      SendingSequence(xs[0], seqno, i);
    } else {
      SeriesSequence(xs[1..], (seqno + |ps|) % U16, i - |ps|);
      SeqShift(seqno, |ps|, i - |ps|);
    }
  }

  lemma SendingSequence(x: Sending, seqno: nat, i: nat)
    requires seqno < U16 && i < |Packets(x, seqno)|
    ensures Numbered(Packets(x, seqno)[i], seqno, x.ts, i)
  {
    match x
    case AsWhole(frame, ts, sock) => FragmentFields(frame, 0, seqno, ts, true, sock, 0, i);
    case AsParts(parts, ts, sock) => PartsSequence(parts, 0, seqno, ts, sock, 0, i);
  }
}
