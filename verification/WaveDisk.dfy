/** Recordings on a disk that may fall short, and recordings made pack by pack. */
module WaveDisk {
  import opened Basics
  import opened WaveRing
  import WaveRuns

  predicate Sized(chunks: seq<seq<byte>>) {
    forall k :: 0 <= k < |chunks| ==> |chunks[k]| <= RING
  }

  /** Encode calls one after the other; disks[k] is how much the disk takes at call k. */
  function Run(r: Recorder, chunks: seq<seq<byte>>, disks: seq<nat>): (q: Recorder)
    requires WellFormed(r) && Sized(chunks) && |disks| == |chunks|
    ensures WellFormed(q)
    decreases |chunks|
  {
    if chunks == [] then r else Run(Once(r, chunks[0], disks[0]).0, chunks[1..], disks[1..])
  }

  /** No call adds more than there is room for in the ring. */
  ghost predicate AllFit(r: Recorder, chunks: seq<seq<byte>>, disks: seq<nat>)
    requires WellFormed(r) && Sized(chunks) && |disks| == |chunks|
    decreases |chunks|
  {
    chunks == [] || (
      && Fits(r, |chunks[0]|)
      && AllFit(Once(r, chunks[0], disks[0]).0, chunks[1..], disks[1..]))
  }

  /** Whenever a flush is due, the disk takes all of it. */
  ghost predicate AllFlushed(r: Recorder, chunks: seq<seq<byte>>, disks: seq<nat>)
    requires WellFormed(r) && Sized(chunks) && |disks| == |chunks|
    decreases |chunks|
  {
    chunks == [] || (
      && (FlushDue(r, |chunks[0]|) ==> disks[0] >= HALF)
      && AllFlushed(Once(r, chunks[0], disks[0]).0, chunks[1..], disks[1..]))
  }

  /** What has reached the file and what is still to be flushed. */
  function Kept(r: Recorder): seq<byte>
    requires WellFormed(r)
  {
    r.file + Pending(r)
  }

  ghost predicate Sound(r: Recorder) {
    WellFormed(r) && Inv(r, Kept(r))
  }

  lemma SaveKept(p: Recorder, stream: seq<byte>, disk: nat)
    requires Holds(p, stream)
    ensures var (q, ok) := Save(p, disk);
      Sound(q) && (if ok then Kept(q) == stream else |Kept(q)| < |stream|)
  {
    var (q, ok) := Save(p, disk);
    if ok {
      SaveInv(p, stream, disk);
    } else {
      assert |q.file| < |p.file| + HALF;
    }
  }

  /** A call that fits keeps everything or, if its flush falls short, loses something for good. */
  lemma OnceKept(r: Recorder, data: seq<byte>, disk: nat)
    requires Sound(r) && |data| <= RING && Fits(r, |data|)
    ensures var q := Once(r, data, disk).0;
      Sound(q) && Outcome(Kept(r), data, Kept(q), FlushDue(r, |data|) ==> disk >= HALF)
  {
    PutHolds(r, Kept(r), data);
    SaveKept(Grow(Put(r, data), |data|), Kept(r) + data, disk);
  }

  /** `after` is what `before` became by adding `more`: all of it, or something is missing. */
  ghost predicate Outcome(before: seq<byte>, more: seq<byte>, after: seq<byte>, whole: bool) {
    if whole then after == before + more else |after| < |before| + |more|
  }

  lemma OutcomeChain(a: seq<byte>, x: seq<byte>, b: seq<byte>, v: bool, y: seq<byte>, c: seq<byte>, w: bool)
    requires Outcome(a, x, b, v) && Outcome(b, y, c, w)
    ensures Outcome(a, x + y, c, v && w)
  {
    assert a + x + y == a + (x + y);
  }

  lemma {:induction false} RunKept(r: Recorder, chunks: seq<seq<byte>>, disks: seq<nat>)
    requires Sound(r) && Sized(chunks) && |disks| == |chunks| && AllFit(r, chunks, disks)
    ensures var q := Run(r, chunks, disks);
      Sound(q) && Outcome(Kept(r), Concat(chunks), Kept(q), AllFlushed(r, chunks, disks))
    decreases |chunks|
  {
    if chunks == [] {
      assert Kept(r) + [] == Kept(r);
    } else {
      var m := Once(r, chunks[0], disks[0]).0;
      OnceKept(r, chunks[0], disks[0]);
      RunKept(m, chunks[1..], disks[1..]);
      OutcomeChain(Kept(r), chunks[0], Kept(m), FlushDue(r, |chunks[0]|) ==> disks[0] >= HALF,
                   Concat(chunks[1..]), Kept(Run(m, chunks[1..], disks[1..])), AllFlushed(m, chunks[1..], disks[1..]));
    }
  }

  /**
   * After any run of calls that fit, the final flush makes the file the stream if and only if every flush
   * that was due was taken in full.
   */
  lemma FileExactly(r: Recorder, chunks: seq<seq<byte>>, disks: seq<nat>)
    requires Sound(r) && Sized(chunks) && |disks| == |chunks| && AllFit(r, chunks, disks)
    ensures SaveFinal(Run(r, chunks, disks), RING).0.file == Kept(r) + Concat(chunks) <==> AllFlushed(r, chunks, disks)
  {
    var q := Run(r, chunks, disks);
    RunKept(r, chunks, disks);
    FinalExactly(q, Kept(q), RING);
  }

  /** Calls that each add less than half the ring fit, whatever the disk does. */
  lemma {:induction false} SmallFit(r: Recorder, chunks: seq<seq<byte>>, disks: seq<nat>)
    requires Sound(r) && Sized(chunks) && |disks| == |chunks|
    requires forall k :: 0 <= k < |chunks| ==> |chunks[k]| < HALF
    ensures AllFit(r, chunks, disks)
    decreases |chunks|
  {
    if chunks != [] {
      OnceKept(r, chunks[0], disks[0]);
      SmallFit(Once(r, chunks[0], disks[0]).0, chunks[1..], disks[1..]);
    }
  }

  /** So do the half-ring chunks of the PCM path, each of which makes a flush due. */
  lemma {:induction false} HalvesFit(r: Recorder, chunks: seq<seq<byte>>, disks: seq<nat>)
    requires Sound(r) && r.idx % HALF == HEADER_LEN && |disks| == |chunks|
    requires forall k :: 0 <= k < |chunks| ==> |chunks[k]| == HALF
    ensures AllFit(r, chunks, disks)
    ensures AllFlushed(r, chunks, disks) <==> forall k :: 0 <= k < |disks| ==> disks[k] >= HALF
    decreases |chunks|
  {
    if chunks != [] {
      var q := Once(r, chunks[0], disks[0]).0;
      assert |Pending(r)| == HEADER_LEN && FlushDue(r, HALF);
      OnceKept(r, chunks[0], disks[0]);
      assert q.idx % HALF == HEADER_LEN;
      HalvesFit(q, chunks[1..], disks[1..]);
      assert forall k :: 0 < k < |disks| ==> disks[k] == disks[1..][k - 1];
      assert forall k :: 0 <= k < |disks[1..]| ==> disks[1..][k] == disks[k + 1];
    }
  }

  /**
   * A PCM recording is complete, header and every sample in order, if and only if the disk took half the ring
   * at every call.
   */
  lemma RecordingCompleteExactly(rate: nat, garbage: seq<byte>, chunks: seq<seq<byte>>, disks: seq<nat>, r: Recorder)
    requires |garbage| == RING && r == Start(rate, garbage) && |disks| == |chunks|
    requires forall k :: 0 <= k < |chunks| ==> |chunks[k]| == HALF
    ensures SaveFinal(Run(r, chunks, disks), RING).0.file == Header(rate, 0, 0) + Concat(chunks)
       <==> forall k :: 0 <= k < |disks| ==> disks[k] >= HALF
  {
    WaveRuns.StartInv(rate, garbage);
    assert Kept(r) == Header(rate, 0, 0);
    HalvesFit(r, chunks, disks);
    FileExactly(r, chunks, disks);
  }

  // ----- ADPCM -----

  /** Calls of the pack-by-pack path in which no encode fails, each adding less than half the ring. */
  predicate Smooth(calls: seq<seq<PackResult>>) {
    forall k :: 0 <= k < |calls| ==> NoFailure(calls[k]) && |Joined(calls[k])| < HALF
  }

  function LibRun(r: Recorder, calls: seq<seq<PackResult>>, disks: seq<nat>): (q: Recorder)
    requires WellFormed(r) && Smooth(calls) && |disks| == |calls|
    ensures WellFormed(q)
    decreases |calls|
  {
    if calls == [] then r
    else
      PacksAreSmall(calls[0]);
      LibRun(LibOnce(r, calls[0], disks[0]).0, calls[1..], disks[1..])
  }

  /** The bytes of each call. */
  function Chunks(calls: seq<seq<PackResult>>): seq<seq<byte>> {
    if calls == [] then [] else [Joined(calls[0])] + Chunks(calls[1..])
  }

  lemma {:induction false} PacksAreSmall(packs: seq<PackResult>)
    requires NoFailure(packs) && |Joined(packs)| <= RING
    ensures forall k :: 0 <= k < |packs| && packs[k].Packed? ==> |packs[k].bytes| <= RING
  {
    if packs != [] {
      NoFailureCons(packs);
      PacksAreSmall(packs[1..]);
      assert forall k :: 0 < k < |packs| ==> packs[k] == packs[1..][k - 1];
    }
  }

  lemma {:induction false} ChunksAreSmall(calls: seq<seq<PackResult>>)
    requires Smooth(calls)
    ensures |Chunks(calls)| == |calls| && forall k :: 0 <= k < |calls| ==> |Chunks(calls)[k]| < HALF
  {
    if calls != [] { ChunksAreSmall(calls[1..]); }
  }

  lemma {:induction false} LibRunIsRun(r: Recorder, calls: seq<seq<PackResult>>, disks: seq<nat>)
    requires WellFormed(r) && Smooth(calls) && |disks| == |calls|
    requires Sized(Chunks(calls)) && |Chunks(calls)| == |calls|
    ensures LibRun(r, calls, disks) == Run(r, Chunks(calls), disks)
    decreases |calls|
  {
    if calls != [] {
      PacksAreSmall(calls[0]);
      LibOnceIsOnce(r, calls[0], disks[0]);
      ChunksAreSmall(calls[1..]);
      LibRunIsRun(LibOnce(r, calls[0], disks[0]).0, calls[1..], disks[1..]);
      assert Chunks(calls)[1..] == Chunks(calls[1..]);
    }
  }

  /**
   * Over any number of such calls, from any state between calls, the ring is in phase, what is kept is never
   * more than the stream, and the file becomes the stream if and only if every flush due was taken in full.
   */
  lemma LibFileExactly(r: Recorder, calls: seq<seq<PackResult>>, disks: seq<nat>, chunks: seq<seq<byte>>)
    requires Sound(r) && Smooth(calls) && |disks| == |calls| && chunks == Chunks(calls)
    ensures Sound(LibRun(r, calls, disks)) && Sized(chunks) && |chunks| == |disks|
    ensures SaveFinal(LibRun(r, calls, disks), RING).0.file == Kept(r) + Concat(chunks)
       <==> AllFlushed(r, chunks, disks)
  {
    ChunksAreSmall(calls);
    LibRunIsRun(r, calls, disks);
    SmallFit(r, chunks, disks);
    RunKept(r, chunks, disks);
    FileExactly(r, chunks, disks);
  }
}
