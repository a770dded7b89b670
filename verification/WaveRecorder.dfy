/** The recorder object: one ring buffer, filled and flushed in place. */
module WaveRecorder {
  import opened Basics
  import opened WaveRing

  /** `s` with `chunk` laid over it from `dest` on. */
  ghost function Blit(s: seq<byte>, dest: nat, chunk: seq<byte>): seq<byte>
    requires dest + |chunk| <= |s|
  {
    s[..dest] + chunk + s[dest + |chunk|..]
  }

  lemma BlitAround(s: seq<byte>, idx: nat, data: seq<byte>)
    requires |s| == RING && idx <= RING < idx + |data| && |data| <= RING
    ensures var size := RING - idx;
      Blit(Blit(s, idx, data[0..size]), 0, data[size..size + (|data| - size)])
        == data[size..] + s[|data| - size..idx] + data[..size]
  {
  }

  /** `emitted` packs, `cblen` bytes in all, have been copied in since `start`, and the others are to come. */
  ghost predicate Midway(start: Recorder, now: Recorder, runs: seq<PackResult>, emitted: nat, cblen: nat) {
    && WellFormed(start) && WellFormed(now) && emitted <= |runs|
    && (forall k :: 0 <= k < |runs| && runs[k].Packed? ==> |runs[k].bytes| <= RING)
    && (forall k :: 0 <= k < emitted ==> runs[k].Packed?)
    && PutPacks(now, runs[emitted..]) == PutPacks(start, runs)
    && cblen + |Joined(runs[emitted..])| == |Joined(runs)|
    && now.file == start.file && now.fileLen == start.fileLen && now.flag == start.flag
  }

  /** The next run of the encoder: its pack is copied in, or the call ends with its failure. */
  lemma PackTaken(start: Recorder, now: Recorder, runs: seq<PackResult>, emitted: nat, cblen: nat)
    requires Midway(start, now, runs, emitted, cblen) && emitted < |runs|
    ensures runs[emitted].Failed? ==> PutPacks(start, runs) == (now, false)
    ensures runs[emitted].Packed? ==>
      Midway(start, Put(now, runs[emitted].bytes), runs, emitted + 1, cblen + |runs[emitted].bytes|)
  {
    assert runs[emitted..][1..] == runs[emitted + 1..] && runs[emitted..][0] == runs[emitted];
  }

  /** The loop is over: at the first failure, or with every pack copied in. */
  lemma PacksDone(start: Recorder, now: Recorder, runs: seq<PackResult>, emitted: nat, cblen: nat)
    requires Midway(start, now, runs, emitted, cblen) && (emitted < |runs| ==> runs[emitted].Failed?)
    ensures PutPacks(start, runs) == (now, emitted == |runs|) && (emitted == |runs| <==> NoFailure(runs))
    ensures emitted == |runs| ==> cblen == |Joined(runs)|
  {
    if emitted < |runs| {
      PackTaken(start, now, runs, emitted, cblen);
    } else {
      assert runs[emitted..] == [];
    }
  }

  class Recording {
    const bitStream: array<byte>
    var readIndex: nat
    var gRingBuffer: nat      // 8 bits; only ever complemented
    var fileLenth: nat
    var file: seq<byte>
    const sampleRate: nat

    ghost predicate Valid()
      reads this, bitStream
    {
      && bitStream.Length == RING && readIndex <= RING && fileLenth < U32
      && (gRingBuffer == 0 || gRingBuffer == 0xff)
    }

    ghost function View(): Recorder
      reads this, bitStream
    {
      Recorder(bitStream[..], readIndex, gRingBuffer != 0, file, fileLenth)
    }

    /** gp_memcpy into the ring. */
    method Memcpy(dest: nat, data: seq<byte>, from: nat, len: nat)
      requires dest + len <= bitStream.Length && from + len <= |data|
      modifies bitStream
      ensures bitStream[..] == Blit(old(bitStream[..]), dest, data[from..from + len])
    {
      var i := 0;
      while i < len
        invariant i <= len
        invariant forall k :: 0 <= k < bitStream.Length ==>
          bitStream[k] == if dest <= k < dest + i then data[from + k - dest] else old(bitStream[k])
      {
        bitStream[dest + i] := data[from + i];
        i := i + 1;
      }
    }

    /** wave_encode_start. */
    constructor (rate: nat, ring: array<byte>)
      requires ring.Length == RING
      modifies ring
      ensures Valid() && bitStream == ring
      ensures View() == Start(rate, old(ring[..]))
    {
      bitStream, sampleRate := ring, rate;
      gRingBuffer, file := 0, [];
      readIndex, fileLenth := HEADER_LEN, HEADER_LEN;
      new;
      var h := Header(rate, 0, 0);
      Memcpy(0, h, 0, HEADER_LEN);
    }

    /** write(): all or nothing is up to the disk; the count accepted is returned. */
    method Write(bytes: seq<byte>, disk: nat) returns (n: nat)
      modifies this`file
      ensures n == (if |bytes| <= disk then |bytes| else disk) && file == old(file) + bytes[..n]
    {
      n := if |bytes| <= disk then |bytes| else disk;
      file := file + bytes[..n];
    }

    method SaveBuffer(disk: nat) returns (ok: bool)
      requires Valid()
      modifies this`file, this`gRingBuffer
      ensures Valid() && (View(), ok) == Save(old(View()), disk)
    {
      ok := true;
      if gRingBuffer == 0 {
        if readIndex > HALF {
          gRingBuffer := 0xff - gRingBuffer;
          var n := Write(bitStream[..HALF], disk);
          ok := n == HALF;
        }
      } else {
        if readIndex < HALF {
          gRingBuffer := 0xff - gRingBuffer;
          var n := Write(bitStream[HALF..], disk);
          ok := n == HALF;
        }
      }
    }

    method SaveFinalData(disk: nat) returns (ok: bool)
      requires Valid()
      modifies this`file
      ensures Valid() && (View(), ok) == SaveFinal(old(View()), disk)
    {
      if readIndex > HALF {
        var n := Write(bitStream[HALF..readIndex], disk);
        ok := n == readIndex - HALF;
      } else {
        var n := Write(bitStream[..readIndex], disk);
        ok := n == readIndex;
      }
    }

    /** The two copies around the ring's end; `second` is where the part after it is read from. */
    method CopyAround(data: seq<byte>, second: nat)
      requires bitStream.Length == RING && readIndex <= RING < readIndex + |data| && |data| <= RING
      requires second == RING - readIndex
      modifies bitStream
      ensures bitStream[..]
           == data[second..] + old(bitStream[..])[|data| - second..readIndex] + data[..second]
    {
      BlitAround(bitStream[..], readIndex, data);
      var size := RING - readIndex;
      Memcpy(readIndex, data, 0, size);
      Memcpy(0, data, second, |data| - size);
    }

    /** The copy into the ring that both encoders make. */
    method CopyIn(data: seq<byte>, second: nat)
      requires Valid() && |data| <= RING
      requires readIndex + |data| > RING ==> second == RING - readIndex
      modifies this`readIndex, bitStream
      ensures Valid() && View() == Put(old(View()), data)
    {
      if readIndex + |data| > RING {
        CopyAround(data, second);
        readIndex := |data| - (RING - readIndex);
      } else {
        Memcpy(readIndex, data, 0, |data|);
        assert data[0..|data|] == data;
        readIndex := readIndex + |data|;
      }
    }

    /**
     * wave_encode_once, on PCM of cwlen 16-bit words.  The source advances its word pointer by size >> 1,
     * which is right because the write position is always even.
     */
    method EncodeOnce(pcm: seq<byte>, disk: nat) returns (ok: bool)
      requires Valid() && |pcm| <= RING && |pcm| % 2 == 0 && readIndex % 2 == 0
      modifies this`readIndex, this`gRingBuffer, this`fileLenth, this`file, bitStream
      ensures Valid() && readIndex % 2 == 0
      ensures (View(), ok) == Once(old(View()), pcm, disk)
    {
      var cblen := |pcm|;
      CopyIn(pcm, 2 * ((RING - readIndex) / 2));
      fileLenth := (fileLenth + cblen) % U32;
      ok := SaveBuffer(disk);
    }

    /** The loop of wave_encode_lib_once, which ends early when the encoder fails. */
    method EmitPacks(cwlen: nat, oneFrame: nat, packSize: nat, runs: seq<PackResult>)
      returns (ok: bool, emitted: nat, cblen: nat)
      requires Valid() && oneFrame > 0 && packSize <= RING
      requires |runs| == cwlen / oneFrame
      requires forall k :: 0 <= k < |runs| && runs[k].Packed? ==> |runs[k].bytes| == packSize
      modifies this`readIndex, bitStream
      ensures Valid() && Midway(old(View()), View(), runs, emitted, cblen)
      ensures if ok then emitted == |runs| else emitted < |runs| && runs[emitted].Failed?
    {
      var n: nat := cwlen;
      emitted, cblen := 0, 0;
      ghost var start := View();
      assert runs[0..] == runs;
      while n >= oneFrame
        invariant Valid() && emitted + n / oneFrame == |runs| && emitted <= |runs|
        invariant Midway(start, View(), runs, emitted, cblen)
        decreases n
      {
        FrameTaken(n, oneFrame);
        PackTaken(start, View(), runs, emitted, cblen);
        if runs[emitted].Failed? {
          ok := false;
          return;
        }
        CopyIn(runs[emitted].bytes, RING - readIndex);
        cblen := cblen + packSize;
        n := n - oneFrame;
        emitted := emitted + 1;
      }
      FrameTaken(n, oneFrame);
      ok := true;
    }

    /**
     * wave_encode_lib_once.  `runs` is what the encoder library answers, one entry for each whole frame
     * of `oneFrame` samples among the `cwlen` given.
     */
    method EncodeLibOnce(cwlen: nat, oneFrame: nat, packSize: nat, runs: seq<PackResult>, disk: nat)
      returns (ok: bool, emitted: nat)
      requires Valid() && oneFrame > 0 && packSize <= RING
      requires |runs| == cwlen / oneFrame
      requires forall k :: 0 <= k < |runs| && runs[k].Packed? ==> |runs[k].bytes| == packSize
      modifies this`readIndex, this`gRingBuffer, this`fileLenth, this`file, bitStream
      ensures Valid() && (View(), ok) == LibOnce(old(View()), runs, disk)
      ensures emitted <= cwlen / oneFrame
      ensures emitted == cwlen / oneFrame <==> NoFailure(runs)
    {
      var cblen;
      ok, emitted, cblen := EmitPacks(cwlen, oneFrame, packSize, runs);
      PacksDone(old(View()), View(), runs, emitted, cblen);
      if !ok {
        return;
      }
      fileLenth := (fileLenth + cblen) % U32;
      ok := SaveBuffer(disk);
    }

    /** wave_encode_stop. */
    method EncodeStop(disk: nat) returns (ok: bool)
      requires Valid()
      modifies this`file, this`fileLenth
      ensures (file, ok) == Stop(old(View()), sampleRate, disk)
    {
      ok := SaveFinalData(disk);
      if ok {
        fileLenth := Sub32(fileLenth, HEADER_LEN);
        var h := Header(sampleRate, Sub32((HEADER_LEN + fileLenth) % U32, 8), fileLenth);
        // seek to the start and write the header over what is there
        file := h + if |file| >= HEADER_LEN then file[HEADER_LEN..] else [];
      }
    }
  }

  lemma DivMod(x: int, d: int)
    requires d > 0
    ensures x == (x / d) * d + x % d && 0 <= x % d < d
  {
  }

  lemma AtLeastOnce(k: int, d: int)
    requires d > 0 && k >= 1
    ensures k * d >= d
  {
    assert (k - 1) * d >= 0;
  }

  lemma QuotientUnique(x: int, d: int, q: int, r: int)
    requires d > 0 && x == q * d + r && 0 <= r < d
    ensures x / d == q
  {
    var p, t := x / d, x % d;
    DivMod(x, d);
    assert (q - p) * d == t - r;
    assert (p - q) * d == r - t;
    if q > p {
      AtLeastOnce(q - p, d);
    } else if q < p {
      AtLeastOnce(p - q, d);
    }
  }

  /** Taking one frame off leaves one whole frame fewer. */
  lemma FrameTaken(n: nat, d: nat)
    requires d > 0
    ensures n >= d ==> n / d == (n - d) / d + 1
    ensures n < d ==> n / d == 0
  {
    var q := n / d;
    DivMod(n, d);
    if n >= d {
      assert (q - 1) * d == q * d - d;
      QuotientUnique(n - d, d, q - 1, n % d);
    } else {
      QuotientUnique(n, d, 0, n);
    }
  }
}
