/** How a recorder comes to stop: who asks, and that a request that found a place is served. */
module AdcRequests {
  import opened Basics
  import opened AdcRotation
  import opened AdcStop

  // ----- what is asked -----

  /**
   * When a buffer has been encoded, a failure posts the error message and asks for nothing; otherwise a full
   * disk asks for a stop; otherwise nothing is posted.  A full queue drops either message.
   */
  lemma EncodedExactly(s: Adc, failed: bool, diskFull: bool, t: Adc)
    requires Inv(s) && s.busy.Some? && t == Step(s, FinishEncode(failed, diskFull))
    ensures |s.queue| < 5 && failed ==> t.queue == s.queue + [ErrMsg]
    ensures |s.queue| < 5 && !failed && diskFull ==> t.queue == s.queue + [Stoping(false)]
    ensures |s.queue| == 5 || (!failed && !diskFull) ==> t.queue == s.queue
    ensures t.busy.None? && t.status == s.status && t.encoded == s.encoded + [|s.encoded|]
  {
  }

  /** The user's request is queued if there is a place for it, and nothing else changes. */
  lemma AskedExactly(s: Adc, t: Adc)
    requires Inv(s) && s.status == Recording && t == Step(s, UserStop)
    ensures t == s.(queue := if |s.queue| < 5 then s.queue + [Stoping(true)] else s.queue)
  {
  }

  // ----- it is served -----

  /** The place of the first stop request, or the length of the queue. */
  function Place(q: seq<Msg>): (p: nat)
    ensures p <= |q|
    ensures p < |q| ==> q[p].Stoping?
    ensures forall k :: 0 <= k < p ==> !q[k].Stoping?
  {
    if q == [] || q[0].Stoping? then 0 else 1 + Place(q[1..])
  }

  predicate Requested(s: Adc) { Place(s.queue) < |s.queue| }

  lemma {:induction false} PlaceAppend(q: seq<Msg>, m: Msg)
    ensures Place(q) < |q| ==> Place(q + [m]) == Place(q)
    ensures Place(q) == |q| ==> Place(q + [m]) == if m.Stoping? then |q| else |q| + 1
  {
    if q == [] {
      assert q + [m] == [m];
    } else if !q[0].Stoping? {
      assert (q + [m])[1..] == q[1..] + [m];
      PlaceAppend(q[1..], m);
    }
  }

  predicate Takes(e: Event) { e.TakeDone? || e.TakeStoping? || e.TakeErr? || e.TakeStop? }

  /** How many messages the task takes. */
  function TakeCount(es: seq<Event>): nat {
    if es == [] then 0 else (if Takes(es[0]) then 1 else 0) + TakeCount(es[1..])
  }

  /** A waiting request moves up with every message taken, and ends the recording when it is its turn. */
  lemma StepServes(s: Adc, e: Event)
    requires Inv(s) && s.status == Recording && Requested(s) && Enabled(s, e)
    ensures var t := Step(s, e);
      if Takes(e) && Place(s.queue) == 0 then t.status == Stopping
      else t.status == Recording && Requested(t) && Place(t.queue) == Place(s.queue) - if Takes(e) then 1 else 0
  {
    match e
    case DmaComplete => PlaceAppend(s.queue, DmaDone);
    case UserStop => PlaceAppend(s.queue, Stoping(true));
    case FinishEncode(f, d) => PlaceAppend(s.queue, if f then ErrMsg else Stoping(false));
    case _ =>
  }

  lemma {:induction false} NeverRecordsAgain(s: Adc, es: seq<Event>)
    requires s.status != Recording && Legal(s, es)
    ensures Run(s, es).status != Recording
    decreases |es|
  {
    if es != [] { NeverRecordsAgain(Step(s, es[0]), es[1..]); }
  }

  /**
   * A stop request that found a place, the user's or that of a full disk, stays queued until the task has
   * taken the messages in front of it; with the next one the recorder stops recording, for good.
   */
  lemma {:induction false} RequestIsServed(s: Adc, es: seq<Event>)
    requires Inv(s) && s.status == Recording && Requested(s) && Legal(s, es)
    ensures var t := Run(s, es);
      if TakeCount(es) > Place(s.queue) then t.status != Recording
      else t.status == Recording && Requested(t) && Place(t.queue) == Place(s.queue) - TakeCount(es)
    decreases |es|
  {
    if es != [] {
      StepServes(s, es[0]);
      StepKeeps(s, es[0]);
      if Takes(es[0]) && Place(s.queue) == 0 {
        NeverRecordsAgain(Step(s, es[0]), es[1..]);
      } else {
        RequestIsServed(Step(s, es[0]), es[1..]);
      }
    }
  }

  /**
   * So a full disk stops the recorder as a user does: once as many messages have been taken as were waiting,
   * and one more, it no longer records; and a run that cannot go on has stopped, unless two messages are lost.
   */
  lemma {:induction false} FullDiskStops(s: Adc, t: Adc, es: seq<Event>)
    requires Inv(s) && StopInv(s) && s.status == Recording && s.busy.Some? && |s.queue| < 5
    requires t == Step(s, FinishEncode(false, true)) && Legal(t, es)
    ensures TakeCount(es) > |s.queue| ==> Run(t, es).status != Recording
    ensures Final(Run(t, es)) ==> (Run(t, es).status == Stopped <==> t.lost + Losses(t, es) <= 1)
  {
    StepKeeps(s, FinishEncode(false, true));
    StepDrains(s, FinishEncode(false, true));
    PlaceAppend(s.queue, Stoping(false));
    RequestIsServed(t, es);
    if Final(Run(t, es)) { StopsFrom(t, es); }
  }

  // ----- until then, recording goes on -----

  /** While recording, the DMA is busy unless two finished transfers wait, or their messages were lost. */
  lemma {:induction false} DmaKeepsRunning(s: Adc, es: seq<Event>)
    requires Inv(s) && Legal(s, es) && Run(s, es).status == Recording
    ensures var t := Run(s, es); t.active.None? <==> DoneCount(t.queue) + t.lost == 2
  {
    RunKeeps(s, es);
  }
}
