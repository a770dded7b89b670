/**
 * The audio task: three PCM buffers decoded round robin, and the ring delta_ta of their durations.  Each
 * end of a DMA transfer adds one duration to the audio time and decodes one more buffer.
 */
module AudioClock {
  import opened Basics

  const FRAMES := 3   // AUDIO_FRAME_NO

  datatype Format = Format(mp3: bool, channels: nat, tickRate: nat, upsample: bool)

  /** The time a buffer of cwlen words stands for; the right shift of an upsampled one rounds down. */
  function Duration(f: Format, cwlen: nat): nat {
    var d :=
      if f.mp3 then f.tickRate * cwlen
      else if f.channels == 1 then f.tickRate * (2 * cwlen)
      else f.tickRate * cwlen;
    if f.upsample then d / 2 else d
  }

  /**
   * `dma` is the buffer playing and the one queued behind it; `ready` the decoded one that waits for the
   * next transfer's end.  `decoded` and `done` are history: durations of all buffers decoded, and the
   * number of ends of transfers handled.  `ended` is set once the decoder has met the end of the audio.
   */
  datatype Audio = Audio(ta: int, base: int, delta: seq<int>, ri: nat, wi: nat, next: nat,
                         playing: nat, queued: nat, ready: nat, decoded: seq<nat>, done: nat, ended: bool)

  function Bump(i: nat): nat { if i + 1 >= FRAMES then i + 1 - FRAMES else i + 1 }

  /** MSG_AUD_DEC_START: three buffers decoded, the first two handed to the DMA. */
  function Start(ta: int, f: Format, lens: seq<nat>): Audio
    requires |lens| == FRAMES
  {
    var d := [Duration(f, lens[0]), Duration(f, lens[1]), Duration(f, lens[2])];
    Audio(ta, ta, d, 0, 0, 0, 0, 1, 2, d, 0, false)
  }

  /** A buffer has been played: its time is added, and the ones behind it move up. */
  function Played(a: Audio): Audio
    requires |a.delta| == FRAMES && a.ri < FRAMES
  {
    a.(ta := a.ta + a.delta[a.ri], ri := Bump(a.ri), done := a.done + 1,
       playing := a.queued, queued := a.ready, ready := a.next, next := Bump(a.next))
  }

  /** The next buffer is decoded; `len` is its size, or 0 at the end of the audio. */
  function Decoded(b: Audio, f: Format, len: nat): Audio
    requires |b.delta| == FRAMES && b.wi < FRAMES
  {
    if len == 0 then b.(ended := true)
    else b.(delta := b.delta[b.wi := Duration(f, len)], wi := Bump(b.wi), decoded := b.decoded + [Duration(f, len)])
  }

  /** MSG_AUD_DEC_DMA_DONE. */
  function DmaDone(a: Audio, f: Format, len: nat): Audio
    requires |a.delta| == FRAMES && a.ri < FRAMES && a.wi < FRAMES
  {
    Decoded(Played(a), f, len)
  }

  // ----- rounding -----

  /** Mono PCM is played at twice its sample rate. */
  function Factor(f: Format): nat { if !f.mp3 && f.channels == 1 then 2 else 1 }

  function Durations(f: Format, lens: seq<nat>): (ds: seq<nat>)
    ensures |ds| == |lens|
  {
    seq(|lens|, i requires 0 <= i < |lens| => Duration(f, lens[i]))
  }

  /**
   * The audio time counted for any buffers is the exact time of all their words, or, with upsampling, half of
   * it less at most half a unit for each buffer.
   */
  lemma {:induction false} DriftBounded(f: Format, lens: seq<nat>)
    ensures var counted, exact := Sum(Durations(f, lens)), f.tickRate * Factor(f) * Sum(lens);
      if f.upsample then 2 * counted <= exact <= 2 * counted + |lens| else counted == exact
  {
    if lens != [] {
      DriftBounded(f, lens[1..]);
      assert Durations(f, lens)[1..] == Durations(f, lens[1..]);
      Distributes(f.tickRate * Factor(f), lens[0], Sum(lens[1..]));
      OneDuration(f, lens[0]);
    }
  }

  lemma Distributes(a: nat, x: nat, y: nat)
    ensures a * (x + y) == a * x + a * y
  {
  }

  lemma OneDuration(f: Format, n: nat)
    ensures var exact := f.tickRate * Factor(f) * n;
      if f.upsample then 2 * Duration(f, n) <= exact <= 2 * Duration(f, n) + 1 else Duration(f, n) == exact
  {
    assert f.tickRate * 2 * n == f.tickRate * (2 * n);
  }

  // ----- the invariant -----

  /**
   * The ring holds the durations of the buffers not yet played: the k-th buffer's in slot k modulo 3.
   * While audio lasts there are three of them, and the read and write positions agree.
   */
  ghost predicate RingInv(a: Audio) {
    var n, d := |a.decoded|, a.done;
    && |a.delta| == FRAMES && a.ri == d % FRAMES && a.wi == n % FRAMES && n >= FRAMES
    && n <= d + FRAMES && (!a.ended ==> n == d + FRAMES)
    && (d < n ==> a.delta[d % FRAMES] == a.decoded[d])
    && (d + 1 < n ==> a.delta[(d + 1) % FRAMES] == a.decoded[d + 1])
    && (d + 2 < n ==> a.delta[(d + 2) % FRAMES] == a.decoded[d + 2])
  }

  /** The buffers rotate: playing, queued, ready, in the order they were decoded. */
  ghost predicate BufferInv(a: Audio) {
    var d := a.done;
    && a.playing == d % FRAMES && a.queued == (d + 1) % FRAMES && a.ready == (d + 2) % FRAMES
    && a.next == d % FRAMES
  }

  ghost predicate Inv(a: Audio) {
    RingInv(a) && BufferInv(a) && TimeInv(a)
  }

  ghost predicate TimeInv(a: Audio) {
    a.done <= |a.decoded| ==> a.ta == a.base + Sum(a.decoded[..a.done])
  }

  /** Once the end of the audio has been met, it is met again every time. */
  ghost predicate Enabled(a: Audio, len: nat) {
    a.ended ==> len == 0
  }

  lemma StartInv(ta: int, f: Format, lens: seq<nat>)
    requires |lens| == FRAMES
    ensures Inv(Start(ta, f, lens))
  {
    assert Start(ta, f, lens).decoded[..0] == [];
  }

  lemma SumNext(xs: seq<nat>, k: nat)
    requires k < |xs|
    ensures Sum(xs[..k + 1]) == Sum(xs[..k]) + xs[k]
  {
    SumAppend(xs[..k], [xs[k]]);
    assert xs[..k + 1] == xs[..k] + [xs[k]] && [xs[k]][1..] == [];
  }

  lemma DmaDoneRing(a: Audio, f: Format, len: nat)
    requires RingInv(a) && Enabled(a, len)
    ensures RingInv(DmaDone(a, f, len))
  {
  }

  lemma DmaDoneTime(a: Audio, b: Audio)
    requires RingInv(a) && TimeInv(a)
    requires b.ta == a.ta + a.delta[a.ri] && b.done == a.done + 1 && b.base == a.base
    requires b.decoded == a.decoded || exists x :: b.decoded == a.decoded + [x]
    requires b.done <= |b.decoded| ==> b.done <= |a.decoded|
    ensures TimeInv(b)
  {
    if a.done < |a.decoded| {
      SumNext(a.decoded, a.done);
      assert b.decoded[..b.done] == a.decoded[..b.done];
    }
  }

  lemma DmaDoneKeeps(a: Audio, f: Format, len: nat)
    requires Inv(a) && Enabled(a, len)
    ensures Inv(DmaDone(a, f, len))
  {
    DmaDoneRing(a, f, len);
    DmaDoneTime(a, DmaDone(a, f, len));
  }

  /** A run: the sizes the decoder returned, one for each end of a transfer. */
  ghost predicate Legal(a: Audio, f: Format, lens: seq<nat>)
    requires |a.delta| == FRAMES && a.ri < FRAMES && a.wi < FRAMES
    decreases |lens|
  {
    lens == [] || (Enabled(a, lens[0]) && Legal(DmaDone(a, f, lens[0]), f, lens[1..]))
  }

  function Run(a: Audio, f: Format, lens: seq<nat>): (r: Audio)
    requires |a.delta| == FRAMES && a.ri < FRAMES && a.wi < FRAMES
    ensures r.done == a.done + |lens| && r.base == a.base
    decreases |lens|
  {
    if lens == [] then a else Run(DmaDone(a, f, lens[0]), f, lens[1..])
  }

  lemma {:induction false} RunKeeps(a: Audio, f: Format, lens: seq<nat>)
    requires Inv(a) && Legal(a, f, lens)
    ensures Inv(Run(a, f, lens))
    decreases |lens|
  {
    if lens != [] {
      DmaDoneKeeps(a, f, lens[0]);
      RunKeeps(DmaDone(a, f, lens[0]), f, lens[1..]);
    }
  }

  /** The sizes decoded before the end of the audio was met. */
  function Sizes(lens: seq<nat>): (r: seq<nat>)
    ensures |r| <= |lens| && r == lens[..|r|]
  {
    if lens == [] || lens[0] == 0 then [] else [lens[0]] + Sizes(lens[1..])
  }

  lemma DurationsAppend(f: Format, x: nat, rest: seq<nat>)
    ensures Durations(f, [x] + rest) == [Duration(f, x)] + Durations(f, rest)
  {
  }

  /** What a run decodes: the duration of every size that the decoder returned, in order. */
  lemma {:induction false} RunDecodes(a: Audio, f: Format, lens: seq<nat>)
    requires RingInv(a) && Legal(a, f, lens)
    ensures Run(a, f, lens).decoded == a.decoded + Durations(f, if a.ended then [] else Sizes(lens))
    ensures Run(a, f, lens).ended <==> a.ended || |Sizes(lens)| < |lens|
    decreases |lens|
  {
    if lens != [] {
      var b, x, rest := DmaDone(a, f, lens[0]), lens[0], lens[1..];
      DmaDoneRing(a, f, x);
      RunDecodes(b, f, rest);
      if !a.ended && x > 0 {
        DurationsAppend(f, x, Sizes(rest));
        assert a.decoded + ([Duration(f, x)] + Durations(f, Sizes(rest)))
            == a.decoded + [Duration(f, x)] + Durations(f, Sizes(rest));
      }
    }
  }

  /** All sizes of a run, those decoded at the start first. */
  function AllSizes(first: seq<nat>, lens: seq<nat>): seq<nat> { first + Sizes(lens) }

  lemma StartedFrom(f: Format, first: seq<nat>, lens: seq<nat>, s: Audio)
    requires RingInv(s) && !s.ended && s.decoded == Durations(f, first) && Legal(s, f, lens)
    ensures Run(s, f, lens).decoded == Durations(f, AllSizes(first, lens))
    ensures Run(s, f, lens).ended <==> |Sizes(lens)| < |lens|
  {
    RunDecodes(s, f, lens);
    assert Durations(f, first) + Durations(f, Sizes(lens)) == Durations(f, AllSizes(first, lens));
  }

  lemma StartDecodes(ta: int, f: Format, first: seq<nat>)
    requires |first| == FRAMES
    ensures Start(ta, f, first).decoded == Durations(f, first)
  {
  }

  /**
   * After k ends of transfers the audio time has advanced by the durations of the first k sizes that the
   * decoder returned, and not only until the end of the audio is met but until everything decoded has been
   * played.  While audio lasts the ring's positions agree.
   */
  lemma {:induction false} AudioTimeIsExact(ta: int, f: Format, first: seq<nat>, lens: seq<nat>, a: Audio)
    requires |first| == FRAMES && Legal(Start(ta, f, first), f, lens)
    requires a == Run(Start(ta, f, first), f, lens)
    ensures var all := AllSizes(first, lens);
      && a.decoded == Durations(f, all)
      && (|lens| <= |all| ==> a.ta == ta + Sum(Durations(f, all[..|lens|])))
    ensures a.ended <==> |Sizes(lens)| < |lens|
    ensures !a.ended ==> a.ri == a.wi && |a.decoded| == |lens| + FRAMES
    ensures a.next == a.playing && a.next != a.queued && a.next != a.ready
  {
    StartInv(ta, f, first);
    RunKeeps(Start(ta, f, first), f, lens);
    StartDecodes(ta, f, first);
    StartedFrom(f, first, lens, Start(ta, f, first));
    InvMeans(a);
    if |lens| <= |AllSizes(first, lens)| {
      assert a.decoded[..|lens|] == Durations(f, AllSizes(first, lens)[..|lens|]);
    }
  }

  /**
   * In words played: audio time advances by the tick rate for every word - twice that in mono - or, with
   * upsampling, by half of it less at most half a unit for each buffer.
   */
  lemma {:induction false} AudioTimeInWords(ta: int, f: Format, first: seq<nat>, lens: seq<nat>, a: Audio)
    requires |first| == FRAMES && Legal(Start(ta, f, first), f, lens)
    requires a == Run(Start(ta, f, first), f, lens) && |lens| <= |AllSizes(first, lens)|
    ensures var exact := f.tickRate * Factor(f) * Sum(AllSizes(first, lens)[..|lens|]);
      if f.upsample then 2 * (a.ta - ta) <= exact <= 2 * (a.ta - ta) + |lens| else a.ta - ta == exact
  {
    AudioTimeIsExact(ta, f, first, lens, a);
    DriftBounded(f, AllSizes(first, lens)[..|lens|]);
  }

  lemma InvMeans(a: Audio)
    requires Inv(a)
    ensures !a.ended ==> a.ri == a.wi && |a.decoded| == a.done + FRAMES
    ensures a.next == a.playing && a.next != a.queued && a.next != a.ready
  {
  }

  /** The next buffer to be decoded into is the one whose transfer will just have ended. */
  lemma DecodesOnlyFreeBuffers(a: Audio, f: Format, len: nat)
    requires Inv(a) && Enabled(a, len)
    ensures var b := DmaDone(a, f, len); b.ready == a.playing && b.ready != b.playing && b.ready != b.queued
  {
  }
}
