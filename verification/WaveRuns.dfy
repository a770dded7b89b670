/** Whole recordings: what the file holds after any number of encode calls, and after stop. */
module WaveRuns {
  import opened Basics
  import opened WaveRing

  /** Encode calls one after the other, on a file that takes every write in full. */
  function Run(r: Recorder, chunks: seq<seq<byte>>): (q: Recorder)
    requires WellFormed(r) && forall k :: 0 <= k < |chunks| ==> |chunks[k]| <= RING
    ensures WellFormed(q)
    decreases |chunks|
  {
    if chunks == [] then r else Run(Once(r, chunks[0], RING).0, chunks[1..])
  }

  lemma OnceCounts(r: Recorder, data: seq<byte>)
    requires WellFormed(r) && |data| <= RING
    ensures Once(r, data, RING).0.fileLen == (r.fileLen + |data|) % U32
  {
  }

  lemma SumMod(a: nat, b: nat, c: nat)
    ensures ((a + b) % U32 + c) % U32 == (a + (b + c)) % U32
  {
  }

  lemma {:induction false} RunCountsBytes(r: Recorder, chunks: seq<seq<byte>>)
    requires WellFormed(r) && forall k :: 0 <= k < |chunks| ==> |chunks[k]| <= RING
    ensures Run(r, chunks).fileLen == (r.fileLen + |Concat(chunks)|) % U32
    decreases |chunks|
  {
    if chunks != [] {
      OnceCounts(r, chunks[0]);
      RunCountsBytes(Once(r, chunks[0], RING).0, chunks[1..]);
      SumMod(r.fileLen, |chunks[0]|, |Concat(chunks[1..])|);
    }
  }

  /** Chunks of any sizes below half the ring, from any state between calls. */
  lemma {:induction false} RunOfSmallChunks(r: Recorder, stream: seq<byte>, chunks: seq<seq<byte>>)
    requires Inv(r, stream) && forall k :: 0 <= k < |chunks| ==> |chunks[k]| < HALF
    ensures Inv(Run(r, chunks), stream + Concat(chunks))
    decreases |chunks|
  {
    if chunks == [] {
      assert stream + [] == stream;
    } else {
      OnceKeeps(r, stream, chunks[0], RING);
      RunOfSmallChunks(Once(r, chunks[0], RING).0, stream + chunks[0], chunks[1..]);
      assert stream + chunks[0] + Concat(chunks[1..]) == stream + Concat(chunks);
    }
  }

  /** In phase, at 44 modulo half the ring, and so with exactly the header's length pending. */
  ghost predicate Steady(r: Recorder, stream: seq<byte>) {
    Inv(r, stream) && r.idx % HALF == HEADER_LEN && |Pending(r)| == HEADER_LEN
  }

  lemma ResidueMeans(r: Recorder, stream: seq<byte>)
    requires Inv(r, stream) && r.idx % HALF == HEADER_LEN
    ensures Steady(r, stream)
  {
  }

  lemma HalfChunk(r: Recorder, stream: seq<byte>, chunk: seq<byte>)
    requires Steady(r, stream) && |chunk| == HALF
    ensures Steady(Once(r, chunk, RING).0, stream + chunk)
  {
    OnceKeeps(r, stream, chunk, RING);
  }

  lemma {:induction false} RunIsSteady(r: Recorder, stream: seq<byte>, chunks: seq<seq<byte>>)
    requires Steady(r, stream) && forall k :: 0 <= k < |chunks| ==> |chunks[k]| == HALF
    ensures Steady(Run(r, chunks), stream + Concat(chunks))
    decreases |chunks|
  {
    if chunks == [] {
      assert stream + [] == stream;
    } else {
      HalfChunk(r, stream, chunks[0]);
      RunIsSteady(Once(r, chunks[0], RING).0, stream + chunks[0], chunks[1..]);
      assert stream + chunks[0] + Concat(chunks[1..]) == stream + (chunks[0] + Concat(chunks[1..]));
    }
  }

  /**
   * The PCM path adds exactly half the ring each time.  That is safe because the write position stays at
   * 44 modulo half the ring: exactly the header's length is pending after every call.
   */
  lemma {:induction false} RunOfHalfChunks(r: Recorder, stream: seq<byte>, chunks: seq<seq<byte>>)
    requires Inv(r, stream) && r.idx % HALF == HEADER_LEN
    requires forall k :: 0 <= k < |chunks| ==> |chunks[k]| == HALF
    ensures Inv(Run(r, chunks), stream + Concat(chunks))
    ensures Run(r, chunks).idx % HALF == HEADER_LEN
    ensures |Pending(Run(r, chunks))| == HEADER_LEN
  {
    ResidueMeans(r, stream);
    RunIsSteady(r, stream, chunks);
  }

  lemma StartInv(rate: nat, garbage: seq<byte>)
    requires |garbage| == RING
    ensures Inv(Start(rate, garbage), Header(rate, 0, 0))
  {
    var r := Start(rate, garbage);
    assert r.ring[..HEADER_LEN] == Header(rate, 0, 0);
    assert [] + Header(rate, 0, 0) == Header(rate, 0, 0);
  }

  /** After any number of calls, the file followed by the unflushed part of the ring is header and PCM. */
  lemma FilePlusPending(rate: nat, garbage: seq<byte>, chunks: seq<seq<byte>>)
    requires |garbage| == RING && forall k :: 0 <= k < |chunks| ==> |chunks[k]| == HALF
    ensures var r := Run(Start(rate, garbage), chunks);
      && r.file + Pending(r) == Header(rate, 0, 0) + Concat(chunks)
      && SaveFinal(r, RING).0.file == Header(rate, 0, 0) + Concat(chunks)
  {
    StartInv(rate, garbage);
    RunOfHalfChunks(Start(rate, garbage), Header(rate, 0, 0), chunks);
    FinalExactly(Run(Start(rate, garbage), chunks), Header(rate, 0, 0) + Concat(chunks), RING);
  }

  lemma Le32RoundTrip(n: nat)
    ensures ReadLe32(Le32(n)) == n % U32
  {
    Digits(n);
    ModIs(n, n / U32, ReadLe32(Le32(n)));
  }

  /**
   * The recorded file is the header followed by every PCM byte in order.  Its RIFF length is the file
   * length minus 8, and its data length the number of PCM bytes, exactly as long as these fit in 32 bits.
   */
  lemma RecordingIsWav(rate: nat, garbage: seq<byte>, chunks: seq<seq<byte>>, f: seq<byte>, ok: bool)
    requires |garbage| == RING && forall k :: 0 <= k < |chunks| ==> |chunks[k]| == HALF
    requires (f, ok) == Stop(Run(Start(rate, garbage), chunks), rate, RING)
    ensures ok && |f| == HEADER_LEN + |Concat(chunks)| && f[HEADER_LEN..] == Concat(chunks)
    ensures IsPcmWav(f, rate)
    ensures f[..4] == [0x52, 0x49, 0x46, 0x46] && f[24..28] == Le32(rate)
    ensures ReadLe32(f[4..8]) == |f| - 8 <==> |f| - 8 < U32
    ensures ReadLe32(f[40..44]) == |Concat(chunks)| <==> |Concat(chunks)| < U32
  {
    var r, pcm := Run(Start(rate, garbage), chunks), Concat(chunks);
    FilePlusPending(rate, garbage, chunks);
    RunCountsBytes(Start(rate, garbage), chunks);
    StopPatches(r, rate, pcm);
    PatchedReadsBack(f, rate, pcm);
    HeaderIsPcmWav(rate, (|pcm| + HEADER_LEN - 8) % U32, |pcm| % U32, pcm);
  }

  /** A 16-bit field. */
  function ReadLe16(s: seq<byte>): nat
    requires |s| == 2
  {
    (s[0] as int) + (s[1] as int) * 0x100
  }

  /** The file names its parts, and its format is one that adds up: PCM, one channel, 16 bits. */
  ghost predicate IsPcmWav(f: seq<byte>, rate: nat)
    requires |f| >= HEADER_LEN
  {
    // "RIFF", "WAVE", "fmt " and "data"
    && f[0..4] == [0x52, 0x49, 0x46, 0x46] && f[8..12] == [0x57, 0x41, 0x56, 0x45]
    && f[12..16] == [0x66, 0x6d, 0x74, 0x20] && f[36..40] == [0x64, 0x61, 0x74, 0x61]
    // the format chunk: 16 bytes, PCM, one channel, 16 bits a sample
    && ReadLe32(f[16..20]) == 16 && ReadLe16(f[20..22]) == 1 && ReadLe16(f[22..24]) == 1
    && ReadLe16(f[34..36]) == 16
    // alignment is a sample of every channel, and bytes a second are as many of these as there are samples
    && 8 * ReadLe16(f[32..34]) == ReadLe16(f[22..24]) * ReadLe16(f[34..36])
    && ReadLe32(f[24..28]) == rate % U32
    && ReadLe32(f[28..32]) == rate * ReadLe16(f[32..34]) % U32
  }

  lemma NamesAre(rate: nat, riff: nat, data: nat)
    ensures var h := Header(rate, riff, data);
      && h[0..4] == [0x52, 0x49, 0x46, 0x46] && h[8..12] == [0x57, 0x41, 0x56, 0x45]
      && h[12..16] == [0x66, 0x6d, 0x74, 0x20] && h[36..40] == [0x64, 0x61, 0x74, 0x61]
  {
  }

  lemma FormatIs(rate: nat, riff: nat, data: nat)
    ensures var h := Header(rate, riff, data);
      && h[16..20] == [16, 0, 0, 0] && h[20..22] == [1, 0] && h[22..24] == [1, 0]
      && h[24..28] == Le32(rate) && h[28..32] == Le32(rate * 2) && h[32..34] == [2, 0] && h[34..36] == [16, 0]
  {
  }

  lemma HeaderIsPcmWav(rate: nat, riff: nat, data: nat, rest: seq<byte>)
    ensures IsPcmWav(Header(rate, riff, data) + rest, rate)
  {
    var h := Header(rate, riff, data);
    var f := h + rest;
    NamesAre(rate, riff, data);
    FormatIs(rate, riff, data);
    Le32RoundTrip(rate);
    Le32RoundTrip(rate * 2);
    assert f[0..4] == h[0..4] && f[8..12] == h[8..12] && f[12..16] == h[12..16] && f[36..40] == h[36..40];
    assert f[16..20] == h[16..20] && f[20..22] == h[20..22] && f[22..24] == h[22..24] && f[24..28] == h[24..28];
    assert f[28..32] == h[28..32] && f[32..34] == h[32..34] && f[34..36] == h[34..36];
  }

  lemma PatchedReadsBack(f: seq<byte>, rate: nat, pcm: seq<byte>)
    requires f == Header(rate, (|pcm| + HEADER_LEN - 8) % U32, |pcm| % U32) + pcm
    ensures |f| == HEADER_LEN + |pcm| && f[HEADER_LEN..] == pcm
    ensures f[..4] == [0x52, 0x49, 0x46, 0x46] && f[24..28] == Le32(rate)
    ensures ReadLe32(f[4..8]) == |f| - 8 <==> |f| - 8 < U32
    ensures ReadLe32(f[40..44]) == |pcm| <==> |pcm| < U32
  {
    PatchedHeader(f, rate, (|pcm| + HEADER_LEN - 8) % U32, |pcm| % U32, pcm);
    assert |f| - 8 == |pcm| + HEADER_LEN - 8;
    Field(|pcm| + HEADER_LEN - 8);
    Field(|pcm|);
  }

  /** A 32-bit field reads back as the number put in exactly if that number fits. */
  lemma Field(n: nat)
    ensures ReadLe32(Le32(n % U32)) == n % U32
    ensures n % U32 == n <==> n < U32
  {
    Le32RoundTrip(n % U32);
    ModIs(n % U32, 0, n % U32);
  }

  /**
   * Stopping succeeds exactly if the disk takes the last flush; otherwise the file is what it was with the part
   * that was taken, and its header is not patched.
   */
  lemma StopExactly(r: Recorder, rate: nat, disk: nat, f: seq<byte>, ok: bool)
    requires WellFormed(r) && InPhase(r) && (f, ok) == Stop(r, rate, disk)
    ensures ok <==> disk >= |Pending(r)|
    ensures ok ==> |f| >= HEADER_LEN && f[HEADER_LEN..] == (if |r.file| + |Pending(r)| >= HEADER_LEN
      then (r.file + Pending(r))[HEADER_LEN..] else [])
    ensures !ok ==> f == r.file + Pending(r)[..disk]
  {
    assert SaveFinal(r, disk).0.file == r.file + Pending(r)[..if disk < |Pending(r)| then disk else |Pending(r)|];
  }

  /** A failed call of the pack-by-pack path leaves its earlier packs in the ring but does not count them. */
  lemma LibCountsExactly(r: Recorder, packs: seq<PackResult>, disk: nat)
    requires WellFormed(r) && forall k :: 0 <= k < |packs| && packs[k].Packed? ==> |packs[k].bytes| <= RING
    ensures LibOnce(r, packs, disk).0.fileLen
         == if NoFailure(packs) then (r.fileLen + |Joined(packs)|) % U32 else r.fileLen
  {
    PacksNotCounted(r, packs);
    PutPacksFrame(r, packs);
  }

  lemma {:induction false} PacksNotCounted(r: Recorder, packs: seq<PackResult>)
    requires WellFormed(r) && forall k :: 0 <= k < |packs| && packs[k].Packed? ==> |packs[k].bytes| <= RING
    ensures PutPacks(r, packs).0.fileLen == r.fileLen
    decreases |packs|
  {
    if packs != [] && packs[0].Packed? {
      JoinedTail(packs);
      PacksNotCounted(Put(r, packs[0].bytes), packs[1..]);
    }
  }

  lemma PatchedLengths(fileLen: nat, n: nat)
    requires fileLen == (HEADER_LEN + n) % U32
    ensures Sub32(fileLen, HEADER_LEN) == n % U32
    ensures Sub32((HEADER_LEN + n % U32) % U32, 8) == (n + HEADER_LEN - 8) % U32
  {
    var q, m := n / U32, n % U32;
    var over := if HEADER_LEN + m < U32 then 0 else 1;
    ModIs(HEADER_LEN + n, q + over, HEADER_LEN + m - over * U32);
    ModIs(HEADER_LEN + m, over, HEADER_LEN + m - over * U32);
    var over2 := if m + HEADER_LEN - 8 < U32 then 0 else 1;
    ModIs(n + HEADER_LEN - 8, q + over2, m + HEADER_LEN - 8 - over2 * U32);
  }

  lemma ModIs(x: int, q: int, r: int)
    requires x == U32 * q + r && 0 <= r < U32
    ensures x % U32 == r
  {
  }

  lemma StopPatches(r: Recorder, rate: nat, pcm: seq<byte>)
    requires WellFormed(r) && r.fileLen == (HEADER_LEN + |pcm|) % U32
    requires SaveFinal(r, RING).0.file == Header(rate, 0, 0) + pcm
    ensures Stop(r, rate, RING) == (Header(rate, (|pcm| + HEADER_LEN - 8) % U32, |pcm| % U32) + pcm, true)
  {
    PatchedLengths(r.fileLen, |pcm|);
    assert SaveFinal(r, RING).0.file[HEADER_LEN..] == pcm;
  }

  lemma PatchedHeader(f: seq<byte>, rate: nat, riff: nat, data: nat, pcm: seq<byte>)
    requires f == Header(rate, riff, data) + pcm
    ensures f[..4] == [0x52, 0x49, 0x46, 0x46] && f[4..8] == Le32(riff)
    ensures f[24..28] == Le32(rate) && f[40..44] == Le32(data) && f[HEADER_LEN..] == pcm
  {
    var h := Header(rate, riff, data);
    assert forall i :: 0 <= i < HEADER_LEN ==> f[i] == h[i];
  }
}
