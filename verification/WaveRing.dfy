/**
 * The recorder's 64 KB bit-stream ring: audio is written into it and flushed to the file one half at a
 * time, under a one-bit phase flag.  This module specifies the ring by functions on a value, states when
 * it behaves like "append everything to a file", and gives the WAV header that is patched at stop.
 */
module WaveRing {
  import opened Basics

  const RING := 0x1_0000
  const HALF := 0x8000
  const HEADER_LEN := 44

  /**
   * `flag` is g_ring_buffer: false while the first half is being filled, true while the second is.
   * `idx` is read_index, the next write position; `fileLen` is FileLenth, a 32-bit count.
   */
  datatype Recorder = Recorder(ring: seq<byte>, idx: nat, flag: bool, file: seq<byte>, fileLen: nat)

  predicate WellFormed(r: Recorder) {
    |r.ring| == RING && r.idx <= RING && r.fileLen < U32
  }

  // ----- operations -----

  /** Copy `data` in at the write position, splitting it at the end of the ring. */
  function Put(r: Recorder, data: seq<byte>): (q: Recorder)
    requires WellFormed(r) && |data| <= RING
    ensures WellFormed(q)
  {
    if r.idx + |data| > RING then
      var size := RING - r.idx;
      var rest := |data| - size;
      r.(ring := data[size..] + r.ring[rest..r.idx] + data[..size], idx := rest)
    else
      r.(ring := r.ring[..r.idx] + data + r.ring[r.idx + |data|..], idx := r.idx + |data|)
  }

  function Grow(r: Recorder, n: nat): Recorder {
    r.(fileLen := (r.fileLen + n) % U32)
  }

  /** write() to the file, which has room for `disk` more bytes. */
  function Append(r: Recorder, bytes: seq<byte>, disk: nat): Recorder {
    r.(file := r.file + bytes[..if |bytes| <= disk then |bytes| else disk])
  }

  /** save_buffer_to_storage flushes at most one half; the phase flips even when the write fails. */
  function Save(r: Recorder, disk: nat): (res: (Recorder, bool))
    requires WellFormed(r)
    ensures WellFormed(res.0)
  {
    if !r.flag && r.idx > HALF then (Append(r.(flag := true), r.ring[..HALF], disk), disk >= HALF)
    else if r.flag && r.idx < HALF then (Append(r.(flag := false), r.ring[HALF..], disk), disk >= HALF)
    else (r, true)
  }

  function SaveFinal(r: Recorder, disk: nat): (res: (Recorder, bool))
    requires WellFormed(r)
  {
    if r.idx > HALF then (Append(r, r.ring[HALF..r.idx], disk), disk >= r.idx - HALF)
    else (Append(r, r.ring[..r.idx], disk), disk >= r.idx)
  }

  /** wave_encode_once. */
  function Once(r: Recorder, data: seq<byte>, disk: nat): (res: (Recorder, bool))
    requires WellFormed(r) && |data| <= RING
    ensures WellFormed(res.0)
  {
    Save(Grow(Put(r, data), |data|), disk)
  }

  /** One run of the ADPCM encoder: a pack of bytes, or an error. */
  datatype PackResult = Packed(bytes: seq<byte>) | Failed

  function PutPacks(r: Recorder, packs: seq<PackResult>): (res: (Recorder, bool))
    requires WellFormed(r)
    requires forall k :: 0 <= k < |packs| && packs[k].Packed? ==> |packs[k].bytes| <= RING
    ensures WellFormed(res.0)
    decreases |packs|
  {
    if packs == [] then (r, true)
    else if packs[0].Failed? then (r, false)
    else PutPacks(Put(r, packs[0].bytes), packs[1..])
  }

  /** The bytes of the packs before the first failure. */
  function Joined(packs: seq<PackResult>): seq<byte> {
    if packs == [] || packs[0].Failed? then [] else packs[0].bytes + Joined(packs[1..])
  }

  predicate NoFailure(packs: seq<PackResult>) {
    forall k :: 0 <= k < |packs| ==> packs[k].Packed?
  }

  /** wave_encode_lib_once: all packs first, then one length update and one flush. */
  function LibOnce(r: Recorder, packs: seq<PackResult>, disk: nat): (res: (Recorder, bool))
    requires WellFormed(r)
    requires forall k :: 0 <= k < |packs| && packs[k].Packed? ==> |packs[k].bytes| <= RING
    ensures WellFormed(res.0)
  {
    var (q, ok) := PutPacks(r, packs);
    if !ok then (q, false) else Save(Grow(q, |Joined(packs)|), disk)
  }

  // ----- the header -----

  function ReadLe32(s: seq<byte>): nat
    requires |s| == 4
  {
    (s[0] as int) + (s[1] as int) * 0x100 + (s[2] as int) * 0x1_0000 + (s[3] as int) * 0x100_0000
  }

  /** AUD_ENC_WAVE_HEADER as it lies in memory: "RIFF" size "WAVE" "fmt " 16 1 1 rate bytes/s 2 16 "data" size. */
  function HeaderByte(i: nat, rate: nat, riffLen: nat, dataLen: nat): byte
    requires i < HEADER_LEN
  {
    if i < 4 then [0x52, 0x49, 0x46, 0x46][i]
    else if i < 8 then Le32(riffLen)[i - 4]
    else if i < 12 then [0x57, 0x41, 0x56, 0x45][i - 8]
    else if i < 16 then [0x66, 0x6d, 0x74, 0x20][i - 12]
    else if i < 20 then Le32(16)[i - 16]
    else if i < 22 then Le16(1)[i - 20]
    else if i < 24 then Le16(1)[i - 22]
    else if i < 28 then Le32(rate)[i - 24]
    else if i < 32 then Le32(rate * 2)[i - 28]
    else if i < 34 then Le16(2)[i - 32]
    else if i < 36 then Le16(16)[i - 34]
    else if i < 40 then [0x64, 0x61, 0x74, 0x61][i - 36]
    else Le32(dataLen)[i - 40]
  }

  function Header(rate: nat, riffLen: nat, dataLen: nat): (h: seq<byte>)
    ensures |h| == HEADER_LEN
  {
    seq(HEADER_LEN, i requires 0 <= i < HEADER_LEN => HeaderByte(i, rate, riffLen, dataLen))
  }

  /** wave_encode_start: the header, with both lengths still 0, is the first thing in the ring. */
  function Start(rate: nat, garbage: seq<byte>): (r: Recorder)
    requires |garbage| == RING
    ensures WellFormed(r)
  {
    Recorder(Header(rate, 0, 0) + garbage[HEADER_LEN..], HEADER_LEN, false, [], HEADER_LEN)
  }

  /** 32-bit subtraction. */
  function Sub32(a: nat, b: nat): nat
    requires a < U32 && b < U32
  {
    if a >= b then a - b else a - b + U32
  }

  /** wave_encode_stop: flush the rest, then overwrite the header in place. */
  function Stop(r: Recorder, rate: nat, disk: nat): (res: (seq<byte>, bool))
    requires WellFormed(r)
  {
    var (q, ok) := SaveFinal(r, disk);
    if !ok then (q.file, false)
    else
      var pcm := Sub32(q.fileLen, HEADER_LEN);
      var h := Header(rate, Sub32((HEADER_LEN + pcm) % U32, 8), pcm);
      (h + if |q.file| >= HEADER_LEN then q.file[HEADER_LEN..] else [], true)
  }

  // ----- "append everything to a file" -----

  /** What is in the ring and not yet in the file. */
  function Pending(r: Recorder): seq<byte>
    requires WellFormed(r)
  {
    if !r.flag then r.ring[..r.idx]
    else if r.idx >= HALF then r.ring[HALF..r.idx]
    else r.ring[HALF..] + r.ring[..r.idx]
  }

  /** Between calls, the write position is in the half that the phase names. */
  predicate InPhase(r: Recorder) {
    if r.flag then r.idx > HALF else r.idx <= HALF
  }

  /** Within a call the ring may hold up to both halves. */
  ghost predicate Holds(r: Recorder, stream: seq<byte>) {
    WellFormed(r) && (r.flag ==> r.idx != HALF) && r.file + Pending(r) == stream
  }

  ghost predicate Inv(r: Recorder, stream: seq<byte>) {
    Holds(r, stream) && InPhase(r)
  }

  /** Room for n more bytes before an unflushed one is overwritten or the phase is lost. */
  predicate Fits(r: Recorder, n: nat)
    requires WellFormed(r)
  {
    |Pending(r)| + n < RING || (|Pending(r)| + n == RING && !r.flag)
  }

  /** The write that wraps: only in the second phase, and only over the flushed half. */
  lemma PutWraps(r: Recorder, data: seq<byte>)
    requires WellFormed(r) && |data| <= RING && (r.flag ==> r.idx != HALF) && Fits(r, |data|)
    requires r.idx + |data| > RING
    ensures r.flag && r.idx > HALF && Put(r, data).idx < HALF
    ensures Pending(Put(r, data)) == Pending(r) + data
  {
    var q, size := Put(r, data), RING - r.idx;
    var rest := |data| - size;
    assert rest < HALF;
    var a, b, c := data[size..], r.ring[rest..r.idx], data[..size];
    assert q.ring == a + b + c && |a| == rest && |b| == r.idx - rest && |c| == size;
    assert q.ring[..rest] == a;
    assert q.ring[HALF..] == b[HALF - rest..] + c;
    assert b[HALF - rest..] == r.ring[HALF..r.idx];
    assert data == c + a;
  }

  lemma PutStraight(r: Recorder, data: seq<byte>)
    requires WellFormed(r) && |data| <= RING && (r.flag ==> r.idx != HALF) && Fits(r, |data|)
    requires r.idx + |data| <= RING
    ensures Pending(Put(r, data)) == Pending(r) + data
    ensures r.flag ==> (Put(r, data).idx < HALF <==> r.idx < HALF)
  {
    var q := Put(r, data);
    var a, c := r.ring[..r.idx], r.ring[r.idx + |data|..];
    assert q.ring == a + data + c && |a| == r.idx;
    assert q.ring[..q.idx] == a + data;
    if r.flag {
      if r.idx > HALF {
        assert q.ring[HALF..q.idx] == a[HALF..] + data;
      } else {
        assert q.idx < HALF;
        assert q.ring[HALF..] == r.ring[HALF..];
      }
    }
  }

  lemma PutHolds(r: Recorder, stream: seq<byte>, data: seq<byte>)
    requires Holds(r, stream) && |data| <= RING && Fits(r, |data|)
    ensures Holds(Put(r, data), stream + data)
    ensures |Pending(Put(r, data))| == |Pending(r)| + |data| && Put(r, data).flag == r.flag
  {
    if r.idx + |data| > RING {
      PutWraps(r, data);
    } else {
      PutStraight(r, data);
    }
    assert r.file + (Pending(r) + data) == stream + data;
  }

  lemma SaveInv(r: Recorder, stream: seq<byte>, disk: nat)
    requires Holds(r, stream) && Save(r, disk).1
    ensures Inv(Save(r, disk).0, stream)
  {
    if !r.flag && r.idx > HALF {
      assert r.ring[..r.idx] == r.ring[..HALF] + r.ring[HALF..r.idx];
    }
  }

  lemma OnceKeeps(r: Recorder, stream: seq<byte>, data: seq<byte>, disk: nat)
    requires Inv(r, stream) && |data| <= RING && Fits(r, |data|) && Once(r, data, disk).1
    ensures Inv(Once(r, data, disk).0, stream + data)
  {
    PutHolds(r, stream, data);
    SaveInv(Grow(Put(r, data), |data|), stream + data, disk);
  }

  /** Stopping completes the stream if and only if the write position agrees with the phase. */
  lemma FinalExactly(r: Recorder, stream: seq<byte>, disk: nat)
    requires Holds(r, stream) && disk >= RING
    ensures SaveFinal(r, disk).0.file == stream <==> InPhase(r)
  {
    var f := SaveFinal(r, disk).0.file;
    if !InPhase(r) {
      assert |f| < |stream|;
    }
  }

  /** The flush at the end of a call loses nothing exactly if it was written in full, or there was none. */
  lemma SaveExactly(q: Recorder, stream: seq<byte>, disk: nat)
    requires Holds(q, stream)
    ensures SaveFinal(Save(q, disk).0, RING).0.file == stream <==> Save(q, disk).1
  {
    var (o, ok) := Save(q, disk);
    if ok {
      SaveInv(q, stream, disk);
      FinalExactly(o, stream, RING);
    } else {
      assert |o.file| < |q.file| + HALF;
      assert |SaveFinal(o, RING).0.file| < |stream|;
    }
  }

  /** Where the write position will be after n more bytes. */
  function NextIdx(r: Recorder, n: nat): int {
    if r.idx + n > RING then r.idx + n - RING else r.idx + n
  }

  /** Those bytes take the write position out of the half that the phase names. */
  predicate FlushDue(r: Recorder, n: nat) {
    if r.flag then NextIdx(r, n) < HALF else NextIdx(r, n) > HALF
  }

  /** One flush and the final one write at most the ring, and in the second phase not even that. */
  lemma Overfull(q: Recorder, disk: nat, n: nat)
    requires WellFormed(q) && n >= RING && (n == RING ==> q.flag)
    ensures |SaveFinal(Save(q, disk).0, RING).0.file| < |q.file| + n
  {
  }

  /**
   * One call keeps the ring equivalent to appending to the file exactly when the data fits and the disk has
   * room for half the ring, or no flush is due.
   */
  lemma OnceExactly(r: Recorder, stream: seq<byte>, data: seq<byte>, disk: nat)
    requires Inv(r, stream) && |data| <= RING
    ensures SaveFinal(Once(r, data, disk).0, RING).0.file == stream + data
       <==> Fits(r, |data|) && (disk >= HALF || !FlushDue(r, |data|))
  {
    var q := Grow(Put(r, data), |data|);
    if Fits(r, |data|) {
      PutHolds(r, stream, data);
      SaveExactly(q, stream + data, disk);
    } else {
      Overfull(q, disk, |Pending(r)| + |data|);
    }
  }

  // ----- ADPCM -----

  lemma JoinedTail(packs: seq<PackResult>)
    requires packs != [] && packs[0].Packed?
    requires forall k :: 0 <= k < |packs| && packs[k].Packed? ==> |packs[k].bytes| <= RING
    ensures Joined(packs) == packs[0].bytes + Joined(packs[1..])
    ensures forall k :: 0 <= k < |packs[1..]| && packs[1..][k].Packed? ==> |packs[1..][k].bytes| <= RING
  {
  }

  lemma NoFailureCons(packs: seq<PackResult>)
    requires packs != []
    ensures NoFailure(packs) <==> packs[0].Packed? && NoFailure(packs[1..])
  {
    if packs[0].Packed? && NoFailure(packs[1..]) {
      forall k | 0 <= k < |packs| ensures packs[k].Packed? {
        if k > 0 { assert packs[k] == packs[1..][k - 1]; }
      }
    }
  }

  lemma {:induction false} PutPacksHolds(r: Recorder, stream: seq<byte>, packs: seq<PackResult>)
    requires Holds(r, stream) && Fits(r, |Joined(packs)|)
    requires forall k :: 0 <= k < |packs| && packs[k].Packed? ==> |packs[k].bytes| <= RING
    ensures Holds(PutPacks(r, packs).0, stream + Joined(packs))
    decreases |packs|
  {
    if packs == [] || packs[0].Failed? {
      assert stream + [] == stream;
    } else {
      var b, rest := packs[0].bytes, packs[1..];
      PutHolds(r, stream, b);
      JoinedTail(packs);
      PutPacksHolds(Put(r, b), stream + b, rest);
      assert stream + b + Joined(rest) == stream + (b + Joined(rest));
    }
  }

  /** Which byte lies where after a copy in. */
  lemma PutByte(r: Recorder, d: seq<byte>, i: nat)
    requires WellFormed(r) && |d| <= RING && i < RING
    ensures Put(r, d).ring[i] ==
      if r.idx <= i < r.idx + |d| then d[i - r.idx]
      else if i + RING < r.idx + |d| then d[i + RING - r.idx]
      else r.ring[i]
  {
  }

  /** Two copies in, one after the other, are one copy of both, if they are no more than the ring holds. */
  lemma PutPut(r: Recorder, a: seq<byte>, b: seq<byte>)
    requires WellFormed(r) && |a| + |b| <= RING
    ensures Put(Put(r, a), b) == Put(r, a + b)
  {
    forall i | 0 <= i < RING ensures Put(Put(r, a), b).ring[i] == Put(r, a + b).ring[i] {
      PutByte(r, a, i);
      PutByte(Put(r, a), b, i);
      PutByte(r, a + b, i);
    }
    assert Put(Put(r, a), b).ring == Put(r, a + b).ring;
  }

  lemma {:induction false} PutPacksIsPut(r: Recorder, packs: seq<PackResult>)
    requires WellFormed(r) && NoFailure(packs) && |Joined(packs)| <= RING
    requires forall k :: 0 <= k < |packs| && packs[k].Packed? ==> |packs[k].bytes| <= RING
    ensures PutPacks(r, packs) == (Put(r, Joined(packs)), true)
    decreases |packs|
  {
    if packs == [] {
      assert r.ring[..r.idx] + [] + r.ring[r.idx..] == r.ring;
    } else {
      JoinedTail(packs);
      NoFailureCons(packs);
      PutPacksIsPut(Put(r, packs[0].bytes), packs[1..]);
      PutPut(r, packs[0].bytes, Joined(packs[1..]));
    }
  }

  /** A call of the pack-by-pack path does what one call of the PCM path does with the packs joined. */
  lemma LibOnceIsOnce(r: Recorder, packs: seq<PackResult>, disk: nat)
    requires WellFormed(r) && NoFailure(packs) && |Joined(packs)| <= RING
    requires forall k :: 0 <= k < |packs| ==> |packs[k].bytes| <= RING
    ensures LibOnce(r, packs, disk) == Once(r, Joined(packs), disk)
  {
    PutPacksIsPut(r, packs);
  }

  lemma {:induction false} PutPacksFrame(r: Recorder, packs: seq<PackResult>)
    requires WellFormed(r)
    requires forall k :: 0 <= k < |packs| && packs[k].Packed? ==> |packs[k].bytes| <= RING
    ensures PutPacks(r, packs).0.flag == r.flag && PutPacks(r, packs).0.file == r.file
    ensures PutPacks(r, packs).1 <==> NoFailure(packs)
    decreases |packs|
  {
    if packs != [] && packs[0].Packed? {
      JoinedTail(packs);
      NoFailureCons(packs);
      PutPacksFrame(Put(r, packs[0].bytes), packs[1..]);
    }
  }

  lemma {:induction false} PutPacksIdx(r: Recorder, packs: seq<PackResult>)
    requires WellFormed(r) && NoFailure(packs) && |Joined(packs)| <= RING
    requires forall k :: 0 <= k < |packs| && packs[k].Packed? ==> |packs[k].bytes| <= RING
    ensures PutPacks(r, packs).0.idx == NextIdx(r, |Joined(packs)|)
    decreases |packs|
  {
    if packs != [] {
      JoinedTail(packs);
      NoFailureCons(packs);
      PutPacksIdx(Put(r, packs[0].bytes), packs[1..]);
    }
  }

  /**
   * A call whose encoder does not fail keeps the stream exactly when its packs together fit and the disk has
   * room for half the ring, or no flush is due.
   */
  lemma LibOnceExactly(r: Recorder, stream: seq<byte>, packs: seq<PackResult>, disk: nat)
    requires Inv(r, stream) && NoFailure(packs)
    requires forall k :: 0 <= k < |packs| ==> |packs[k].bytes| <= RING
    ensures SaveFinal(LibOnce(r, packs, disk).0, RING).0.file == stream + Joined(packs)
       <==> Fits(r, |Joined(packs)|) && (disk >= HALF || !FlushDue(r, |Joined(packs)|))
  {
    PutPacksFrame(r, packs);
    var q := Grow(PutPacks(r, packs).0, |Joined(packs)|);
    if Fits(r, |Joined(packs)|) {
      PutPacksHolds(r, stream, packs);
      PutPacksIdx(r, packs);
      SaveExactly(q, stream + Joined(packs), disk);
    } else {
      Overfull(q, disk, |Pending(r)| + |Joined(packs)|);
    }
  }

  /**
   * A call that succeeds leaves the ring in phase, with the packs appended; one whose encoder fails reports
   * it, and has appended the packs before the failure.
   */
  lemma LibOnceKeeps(r: Recorder, stream: seq<byte>, packs: seq<PackResult>, disk: nat)
    requires Inv(r, stream) && Fits(r, |Joined(packs)|)
    requires forall k :: 0 <= k < |packs| && packs[k].Packed? ==> |packs[k].bytes| <= RING
    ensures LibOnce(r, packs, disk).1 ==> NoFailure(packs) && Inv(LibOnce(r, packs, disk).0, stream + Joined(packs))
    ensures !NoFailure(packs) ==> !LibOnce(r, packs, disk).1 && Holds(LibOnce(r, packs, disk).0, stream + Joined(packs))
  {
    PutPacksHolds(r, stream, packs);
    PutPacksFrame(r, packs);
    var (q, ok) := PutPacks(r, packs);
    if ok && LibOnce(r, packs, disk).1 {
      SaveInv(Grow(q, |Joined(packs)|), stream + Joined(packs), disk);
    }
  }

  /** In particular, a call that adds less than half the ring always fits. */
  lemma LessThanHalfFits(r: Recorder, stream: seq<byte>, n: nat)
    requires Inv(r, stream) && n < HALF
    ensures Fits(r, n)
  {
  }
}
