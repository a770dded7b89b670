/**
 * Whether a recorder that is asked to stop does stop.  It does exactly if at most one message of a finished
 * transfer was lost; and more than one can be lost only while two stop requests wait at once.
 */
module AdcStop {
  import opened Basics
  import opened AdcRotation

  // ----- one loss is harmless -----

  /** The number of messages behind the first DMA-done message. */
  function Behind(q: seq<Msg>): nat {
    if q == [] then 0 else if q[0] == DmaDone then |q| - 1 else Behind(q[1..])
  }

  lemma {:induction false} BehindAppend(q: seq<Msg>, m: Msg)
    ensures DoneCount(q) > 0 ==> Behind(q + [m]) == Behind(q) + 1
    ensures DoneCount(q) == 0 ==> Behind(q + [m]) == 0
  {
    if q == [] {
      assert q + [m] == [m];
    } else {
      assert (q + [m])[0] == q[0] && (q + [m])[1..] == q[1..] + [m];
      BehindAppend(q[1..], m);
    }
  }

  lemma {:induction false} BehindBound(q: seq<Msg>)
    ensures Behind(q) < |q| || q == []
  {
    if q != [] { BehindBound(q[1..]); }
  }

  /**
   * While stopping: no message is lost that would be the last to come, because the queue has drained far
   * enough by then; and as long as at most one is lost, something will still bring the stop message.
   */
  ghost predicate Draining(s: Adc) {
    && (s.busy.Some? ==> s.sets <= Taken(s) + 1)
    && (s.lost == 0 && s.active.Some? && DoneCount(s.queue) == 0 ==> |s.queue| + Working(s) <= 4)
    && (s.lost == 0 && s.active.Some? && DoneCount(s.queue) == 1 ==> Behind(s.queue) <= 3)
    && (s.lost <= 1 && s.active.None? ==> DoneCount(s.queue) > 0 || StopMsg in s.queue)
  }

  ghost predicate StopInv(s: Adc) {
    && (s.status == Stopping ==> Draining(s))
    && (s.lost >= 2 ==> StopMsg !in s.queue && s.status != Stopped)
  }

  lemma InitDrains()
    ensures StopInv(Init()) && Init().lost == 0 && Users(Init().queue) == 0
  {
  }

  lemma CompleteDrains(s: Adc)
    requires Inv(s) && StopInv(s) && s.active.Some?
    ensures StopInv(Complete(s))
  {
    CountAppend(s.queue, DmaDone, DmaDone);
    BehindAppend(s.queue, DmaDone);
  }

  lemma TakeDrains(s: Adc)
    requires Inv(s) && StopInv(s) && Enabled(s, TakeDone)
    ensures StopInv(Take(s))
  {
    var rest := s.queue[1..];
    CountAppend(rest, StopMsg, DmaDone);
    assert forall m :: m in rest ==> m in s.queue;
    assert StopMsg in rest + [StopMsg];
  }

  lemma FinishDrains(s: Adc, failed: bool, diskFull: bool)
    requires Inv(s) && StopInv(s) && s.busy.Some?
    ensures StopInv(Finish(s, failed, diskFull))
  {
    var m := if failed then ErrMsg else Stoping(false);
    CountAppend(s.queue, m, DmaDone);
    BehindAppend(s.queue, m);
    assert StopMsg in s.queue ==> StopMsg in s.queue + [m];
  }

  /** A stop request or an error message is taken; after a stop request the recorder is stopping. */
  lemma DropDrains(s: Adc, status: Status)
    requires Inv(s) && StopInv(s) && s.busy.None? && s.queue != [] && (s.queue[0].Stoping? || s.queue[0] == ErrMsg)
    requires (status == Stopping && s.status != Stopped) || status == s.status
    ensures StopInv(s.(queue := s.queue[1..], status := status))
  {
    BehindBound(s.queue[1..]);
    assert forall m :: m in s.queue[1..] ==> m in s.queue;
    assert StopMsg in s.queue ==> StopMsg in s.queue[1..];
  }

  lemma StepDrains(s: Adc, e: Event)
    requires Inv(s) && StopInv(s) && Enabled(s, e)
    ensures StopInv(Step(s, e))
  {
    match e
    case DmaComplete => CompleteDrains(s);
    case UserStop =>
    case TakeDone => TakeDrains(s);
    case FinishEncode(f, d) => FinishDrains(s, f, d);
    case TakeStoping => DropDrains(s, Stopping);
    case TakeErr => DropDrains(s, s.status);
    case TakeStop =>
  }

  lemma {:induction false} RunDrains(s: Adc, es: seq<Event>)
    requires Inv(s) && StopInv(s) && Legal(s, es)
    ensures Inv(Run(s, es)) && StopInv(Run(s, es))
    decreases |es|
  {
    if es != [] {
      StepKeeps(s, es[0]);
      StepDrains(s, es[0]);
      RunDrains(Step(s, es[0]), es[1..]);
    }
  }

  // ----- the stop is reached in bounded time -----

  /** What is left to do once the stop request has been taken. */
  function Work(s: Adc): nat
    requires s.fills <= s.sets
  {
    5 * (s.sets - s.fills) + 3 * DoneCount(s.queue) + 2 * Working(s) + |s.queue|
  }

  lemma WorkStep(s: Adc, e: Event)
    requires Inv(s) && s.status != Recording && Enabled(s, e)
    ensures var t := Step(s, e); t.fills <= t.sets && Work(t) < Work(s) && t.status != Recording
  {
    match e
    case DmaComplete => CountAppend(s.queue, DmaDone, DmaDone);
    case FinishEncode(f, d) => CountAppend(s.queue, if f then ErrMsg else Stoping(false), DmaDone);
    case TakeDone => WorkTake(s);
    case _ =>
  }

  lemma WorkTake(s: Adc)
    requires Inv(s) && s.status != Recording && Enabled(s, TakeDone)
    ensures var t := Take(s); t.fills <= t.sets && Work(t) < Work(s) && t.status != Recording
  {
    CountAppend(s.queue[1..], StopMsg, DmaDone);
  }

  /** Nothing can happen any more. */
  ghost predicate Final(s: Adc) {
    forall e :: !Enabled(s, e)
  }

  /** The recorder, once started, gets to t by the events es. */
  ghost predicate Leads(es: seq<Event>, t: Adc) {
    Legal(Init(), es) && Run(Init(), es) == t
  }

  lemma {:induction false} LeadsKeeps(es: seq<Event>, t: Adc)
    requires Leads(es, t)
    ensures Inv(t) && StopInv(t)
  {
    InitInv();
    InitDrains();
    RunDrains(Init(), es);
  }

  /**
   * A run that cannot go on has stopped if and only if at most one message of a finished transfer was lost;
   * `lost` is the number of transfers that ended with five messages waiting, by LostIsCounted.
   */
  lemma {:induction false} StopsExactly(es: seq<Event>, t: Adc)
    requires Leads(es, t) && Final(t)
    ensures t.status == Stopped <==> t.lost <= 1
  {
    LeadsKeeps(es, t);
    FinalMeans(t);
  }

  lemma {:induction false} StopsFrom(s: Adc, es: seq<Event>)
    requires Inv(s) && StopInv(s) && Legal(s, es) && Final(Run(s, es))
    ensures Run(s, es).status == Stopped <==> s.lost + Losses(s, es) <= 1
  {
    LostIsCounted(s, es);
    RunDrains(s, es);
    FinalMeans(Run(s, es));
  }

  /**
   * From the moment the stop request is taken, every run is over within 17 steps; and one that cannot go on
   * has stopped if and only if at most one message was lost.
   */
  lemma {:induction false} StopIsReached(s: Adc, es: seq<Event>)
    requires Inv(s) && StopInv(s) && s.status == Stopping && Legal(s, es)
    ensures |es| <= 17
    ensures Final(Run(s, es)) ==> (Run(s, es).status == Stopped <==> s.lost + Losses(s, es) <= 1)
  {
    WorkBound(s);
    RunIsShort(s, es);
    RunDrains(s, es);
    LostIsCounted(s, es);
    if Final(Run(s, es)) { StopsFrom(s, es); }
  }

  lemma WorkBound(s: Adc)
    requires Inv(s)
    ensures Work(s) <= 17
  {
    assert s.sets - s.fills + DoneCount(s.queue) <= 2;
  }

  lemma {:induction false} RunIsShort(s: Adc, es: seq<Event>)
    requires Inv(s) && s.status != Recording && Legal(s, es)
    ensures |es| <= Work(s) && Run(s, es).status != Recording
    decreases |es|
  {
    if es != [] {
      WorkStep(s, es[0]);
      StepKeeps(s, es[0]);
      RunIsShort(Step(s, es[0]), es[1..]);
    }
  }

  /** Something can happen as long as the recorder has not stopped and at most one message was lost. */
  lemma FinalMeans(s: Adc)
    requires Inv(s) && StopInv(s) && Final(s)
    ensures s.status == Stopped <==> s.lost <= 1
  {
    assert !Enabled(s, DmaComplete) && !Enabled(s, FinishEncode(false, false)) && !Enabled(s, UserStop);
    if s.status == Stopping && s.lost <= 1 {
      assert s.queue == [] ==> DoneCount(s.queue) == 0;
      var m := s.queue[0];
      assert Enabled(s, if m == DmaDone then TakeDone else if m.Stoping? then TakeStoping
                        else if m == ErrMsg then TakeErr else TakeStop);
    }
  }

  /** At most two messages are ever lost, and after the second no transfer ends and the recorder never stops. */
  lemma {:induction false} TwoLossesHang(s: Adc, es: seq<Event>)
    requires Inv(s) && StopInv(s) && s.lost >= 2 && Legal(s, es)
    ensures Run(s, es).lost == 2 && Run(s, es).fills == s.fills && Run(s, es).status != Stopped
    decreases |es|
  {
    CountIn(s.queue, DmaDone);
    if es != [] {
      StepKeeps(s, es[0]);
      StepDrains(s, es[0]);
      assert es[0] != DmaComplete && es[0] != TakeDone && es[0] != TakeStop;
      TwoLossesHang(Step(s, es[0]), es[1..]);
    }
  }

  // ----- one request at a time -----

  /** No stop is asked for while an earlier request still waits. */
  ghost predicate OneAtATime(s: Adc, es: seq<Event>)
    requires Legal(s, es)
    decreases |es|
  {
    es == [] || ((es[0] == UserStop ==> Users(s.queue) == 0) && OneAtATime(Step(s, es[0]), es[1..]))
  }

  lemma {:induction false} OneLossAtMost(s: Adc, es: seq<Event>)
    requires Inv(s) && s.lost <= 1 && Users(s.queue) <= 1 && Legal(s, es) && OneAtATime(s, es)
    ensures Run(s, es).lost <= 1
    decreases |es|
  {
    if es != [] {
      if es[0] == DmaComplete && |s.queue| == PLACES && s.lost == 1 { SecondLossNeedsTwoRequests(s); }
      UsersStep(s, es[0]);
      StepKeeps(s, es[0]);
      OneLossAtMost(Step(s, es[0]), es[1..]);
    }
  }

  /**
   * Asked by one caller at a time, from the start or any later moment before a second loss, the recorder
   * always stops, whatever fails: a run that cannot go on has.
   */
  lemma {:induction false} OneCallerIsServed(s: Adc, es: seq<Event>)
    requires Inv(s) && StopInv(s) && s.lost <= 1 && Users(s.queue) <= 1
    requires Legal(s, es) && OneAtATime(s, es) && Final(Run(s, es))
    ensures Run(s, es).status == Stopped
  {
    OneLossAtMost(s, es);
    RunDrains(s, es);
    FinalMeans(Run(s, es));
  }
}
