/** The audio task's local variables, updated in place. */
module AudioTask {
  import opened AudioClock

  class Task {
    var ta: int
    ghost var base: int
    var deltaTa: seq<int>
    var bufRI: nat
    var bufWI: nat
    var currentIndex: nat
    var playing: nat
    var queued: nat
    var pcmAddr: nat
    ghost var decoded: seq<nat>
    ghost var done: nat
    ghost var ended: bool
    const format: Format

    ghost function View(): Audio
      reads this
    {
      Audio(ta, base, deltaTa, bufRI, bufWI, currentIndex, playing, queued, pcmAddr, decoded, done, ended)
    }

    /** MSG_AUD_DEC_START; `lens` is what the decoder returns for the three buffers. */
    constructor (ta0: int, f: Format, lens: seq<nat>)
      requires |lens| == FRAMES
      ensures format == f && View() == Start(ta0, f, lens) && Inv(View())
    {
      ta, base, format := ta0, ta0, f;
      bufRI, bufWI, currentIndex, done, ended := 0, 0, 0, 0, false;
      decoded, deltaTa := [], [0, 0, 0];
      playing, queued, pcmAddr := 0, 0, 0;
      new;
      for i := 0 to FRAMES
        invariant bufWI == currentIndex == i % FRAMES && |deltaTa| == FRAMES && |decoded| == i
        invariant forall k :: 0 <= k < i ==> deltaTa[k] == decoded[k] == Duration(f, lens[k])
        invariant ta == base == ta0 && bufRI == 0 && done == 0 && !ended
        invariant playing == 0 && (i > 0 ==> pcmAddr == i - 1) && (i > 1 ==> queued == 1)
      {
        Latch(Duration(f, lens[i]));
        if i == 0 {
          playing := pcmAddr;
        } else if i == 1 {
          queued := pcmAddr;
        }
      }
      StartInv(ta0, f, lens);
      assert deltaTa == Start(ta0, f, lens).delta;
      assert decoded == Start(ta0, f, lens).decoded;
    }

    /** One buffer decoded before playing starts. */
    method Latch(d: nat)
      requires |deltaTa| == FRAMES && bufWI < FRAMES && currentIndex < FRAMES
      modifies this`pcmAddr, this`currentIndex, this`deltaTa, this`decoded, this`bufWI
      ensures pcmAddr == old(currentIndex) && currentIndex == (old(currentIndex) + 1) % FRAMES
      ensures deltaTa == old(deltaTa)[old(bufWI) := d] && bufWI == (old(bufWI) + 1) % FRAMES
      ensures decoded == old(decoded) + [d]
    {
      pcmAddr := currentIndex;
      currentIndex := if currentIndex + 1 >= FRAMES then 0 else currentIndex + 1;
      deltaTa := deltaTa[bufWI := d];
      decoded := decoded + [d];
      bufWI := bufWI + 1;
      if bufWI >= FRAMES { bufWI := bufWI - FRAMES; }
    }

    /** The interrupt has moved on to the queued buffer; queue the decoded one behind it and add the time. */
    method PlayNext()
      requires |deltaTa| == FRAMES && bufRI < FRAMES
      modifies this`playing, this`queued, this`ta, this`bufRI, this`done, this`pcmAddr, this`currentIndex
      ensures View() == Played(old(View()))
    {
      playing := queued;
      queued := pcmAddr;
      ta := ta + deltaTa[bufRI];
      bufRI := bufRI + 1;
      if bufRI >= FRAMES { bufRI := bufRI - FRAMES; }
      done := done + 1;
      pcmAddr := currentIndex;
      currentIndex := if currentIndex + 1 >= FRAMES then currentIndex + 1 - FRAMES else currentIndex + 1;
    }

    method DecodeNext(len: nat)
      requires |deltaTa| == FRAMES && bufWI < FRAMES
      modifies this`ended, this`deltaTa, this`decoded, this`bufWI
      ensures View() == Decoded(old(View()), format, len)
    {
      if len == 0 {
        ended := true;
        return;
      }
      deltaTa := deltaTa[bufWI := Duration(format, len)];
      decoded := decoded + [Duration(format, len)];
      bufWI := bufWI + 1;
      if bufWI >= FRAMES { bufWI := bufWI - FRAMES; }
    }

    /** MSG_AUD_DEC_DMA_DONE. */
    method OnDmaDone(len: nat)
      requires Inv(View()) && Enabled(View(), len)
      modifies this
      ensures View() == DmaDone(old(View()), format, len) && Inv(View())
    {
      DmaDoneKeeps(View(), format, len);
      PlayNext();
      DecodeNext(len);
    }
  }
}
