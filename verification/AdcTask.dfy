/** The encoder task's own variables and the DMA channel, updated in place. */
module AdcTask {
  import opened Basics
  import opened AdcRotation

  class Recorder {
    var status: Status
    var readyAddr: nat
    var freeAddr: nat
    var gBufferIndex: nat
    var active: Option<nat>
    var queued: Option<nat>
    ghost var content: seq<int>
    var queue: seq<Msg>
    var busy: Option<nat>
    ghost var sets: nat
    ghost var fills: nat
    ghost var encoded: seq<int>
    ghost var lost: nat

    ghost function View(): Adc
      reads this
    {
      Adc(status, readyAddr, freeAddr, gBufferIndex, active, queued, content, queue, busy, sets, fills, encoded, lost)
    }

    /** MSG_AUDIO_ENCODE_START. */
    constructor ()
      ensures View() == Init()
    {
      status, readyAddr, freeAddr, gBufferIndex := Recording, 0, 1, 1;
      active, queued, content := Some(0), Some(1), [-1, -1, -1];
      queue, busy, sets, fills, encoded, lost := [], None, 2, 0, [], 0;
    }

    /** OSQPost: a full queue drops the message. */
    method PostMsg(m: Msg)
      modifies this`queue
      ensures View() == Post(old(View()), m)
    {
      if |queue| < PLACES {
        queue := queue + [m];
      }
    }

    method DoubleBufferSet(b: nat)
      requires Shape(View()) && b < BUFFERS
      modifies this`active, this`queued, this`content, this`sets
      ensures View() == DmaSet(old(View()), b)
    {
      if active.None? {
        active := Some(b);
        content := content[b := -1];
        sets := sets + 1;
      } else if queued.None? {
        queued := Some(b);
        sets := sets + 1;
      }
    }

    /** The channel has filled its buffer and goes on with the one queued, if any. */
    method NextTransfer()
      requires Shape(View()) && active.Some?
      modifies this`active, this`queued, this`content, this`fills
      ensures active == old(queued) && queued == None && fills == old(fills) + 1
      ensures content == (var c := old(content)[old(active).value := old(fills)];
                          if old(queued).Some? then c[old(queued).value := -1] else c)
    {
      content := content[active.value := fills];
      active := queued;
      if queued.Some? {
        content := content[queued.value := -1];
      }
      queued := None;
      fills := fills + 1;
    }

    /** The DMA's end-of-transfer interrupt. */
    method DmaIsr()
      requires Inv(View()) && active.Some?
      modifies this
      ensures View() == Complete(old(View())) && Inv(View())
    {
      CompleteKeeps(View());
      NextTransfer();
      if |queue| == PLACES { lost := lost + 1; }
      PostMsg(DmaDone);
    }

    method RotateBuffers()
      requires Shape(View()) && queue != []
      modifies this`queue, this`busy, this`readyAddr, this`freeAddr, this`gBufferIndex
      ensures View() == Rotate(old(View()))
    {
      queue := queue[1..];
      busy := Some(readyAddr);
      readyAddr := freeAddr;
      gBufferIndex := gBufferIndex + 1;
      if gBufferIndex >= BUFFERS { gBufferIndex := 0; }
      freeAddr := gBufferIndex;
    }

    /**
     * MSG_ADC_DMA_DONE up to the filter loop; what will be filtered is out of the DMA's reach.  The stop
     * message, if it is due, always finds a place, since this message has just left one.
     */
    method OnDmaDone()
      requires Inv(View()) && busy.None? && queue != [] && queue[0] == DmaDone
      modifies this
      ensures View() == Take(old(View()))
      ensures Inv(View()) && Safe(View()) && busy == Some(old(readyAddr))
      ensures status != Recording && active.None? ==> StopMsg in queue
    {
      TakeKeeps(View());
      InvIsSafe(Take(View()));
      RotateBuffers();
      if status != Recording {
        if active.None? {
          PostMsg(StopMsg);
        }
      } else {
        DoubleBufferSet(freeAddr);
      }
    }

    /** The rest of the handler, once the encoder has returned. */
    method OnEncoded(failed: bool, diskFull: bool)
      requires Inv(View()) && busy.Some?
      modifies this
      ensures View() == Finish(old(View()), failed, diskFull) && Inv(View())
    {
      FinishKeeps(View(), failed, diskFull);
      encoded := encoded + [content[busy.value]];
      busy := None;
      if failed {
        PostMsg(ErrMsg);
      } else if diskFull {
        PostMsg(Stoping(false));
      }
    }

    /** MSG_AUDIO_ENCODE_STOP. */
    method OnStop()
      requires Inv(View()) && Enabled(View(), TakeStop)
      modifies this
      ensures View() == Step(old(View()), TakeStop) && Inv(View())
      ensures fills == sets == |encoded| + lost
    {
      StepKeeps(View(), TakeStop);
      queue := [];
      active, queued := None, None;
      status := Stopped;
    }
  }
}
