/**
 * The recorder's three PCM buffers.  The DMA fills one while another is queued behind it; the encoder
 * task takes the finished ones from its message queue, which has five places and silently drops what does
 * not fit.  Every interleaving of DMA completions, user stop requests and the task's own steps is a run of
 * this machine.
 */
module AdcRotation {
  import opened Basics

  const BUFFERS := 3   // C_AUD_PCM_BUFFER_NO
  const PLACES := 5    // AUD_ENC_QACCEPT_MAX

  /** `user` tells the stop requests of audio_encode_stop from those that a full disk brings about. */
  datatype Msg = DmaDone | Stoping(user: bool) | StopMsg | ErrMsg

  datatype Status = Recording | Stopping | Stopped

  /**
   * `content[b]` is the number of the DMA transfer whose samples buffer b holds, or -1 while a transfer
   * into it runs.  `busy` is the buffer being filtered and encoded.  The last four are history: transfers
   * requested, transfers completed, the transfers encoded so far, and how many completions found no place
   * in the queue for their message.
   */
  datatype Adc = Adc(
    status: Status, ready: nat, free: nat, index: nat,
    active: Option<nat>, queued: Option<nat>, content: seq<int>,
    queue: seq<Msg>, busy: Option<nat>,
    sets: nat, fills: nat, encoded: seq<int>, lost: nat)

  datatype Event =
    | DmaComplete
    | UserStop
    | TakeDone
    | FinishEncode(failed: bool, diskFull: bool)
    | TakeStoping
    | TakeErr
    | TakeStop

  predicate Shape(s: Adc) {
    && |s.content| == BUFFERS && s.ready < BUFFERS && s.free < BUFFERS && s.index < BUFFERS
    && (s.active.Some? ==> s.active.value < BUFFERS) && (s.queued.Some? ==> s.queued.value < BUFFERS)
    && (s.busy.Some? ==> s.busy.value < BUFFERS)
  }

  /** OSQPost, whose result nobody looks at. */
  function Post(s: Adc, m: Msg): Adc {
    if |s.queue| < PLACES then s.(queue := s.queue + [m]) else s
  }

  /** dma_transfer_double_buf_set: run next, or at once if the channel is idle. */
  function DmaSet(s: Adc, b: nat): Adc
    requires Shape(s) && b < BUFFERS
  {
    if s.active.None? then s.(active := Some(b), content := s.content[b := -1], sets := s.sets + 1)
    else if s.queued.None? then s.(queued := Some(b), sets := s.sets + 1)
    else s
  }

  function Init(): Adc {
    // after START: buffer 0 is being filled and buffer 1 queued
    Adc(Recording, 0, 1, 1, Some(0), Some(1), [-1, -1, -1], [], None, 2, 0, [], 0)
  }

  function Complete(s: Adc): Adc
    requires Shape(s) && s.active.Some?
  {
    var done := s.content[s.active.value := s.fills];
    Post(s.(content := if s.queued.Some? then done[s.queued.value := -1] else done,
            active := s.queued, queued := None, fills := s.fills + 1,
            lost := s.lost + if |s.queue| < PLACES then 0 else 1), DmaDone)
  }

  /** The oldest buffer goes to the encoder, and each of the others moves up one place. */
  function Rotate(s: Adc): (r: Adc)
    requires Shape(s) && s.queue != []
    ensures Shape(r)
  {
    var index := if s.index + 1 >= BUFFERS then 0 else s.index + 1;
    s.(queue := s.queue[1..], busy := Some(s.ready), ready := s.free, index := index, free := index)
  }

  /** The first half of the DMA-done handler: rotate, then queue the freed buffer or check for the end. */
  function Take(s: Adc): Adc
    requires Shape(s) && s.queue != []
  {
    var r := Rotate(s);
    if s.status == Recording then DmaSet(r, r.free)
    else if s.active.None? then Post(r, StopMsg)
    else r
  }

  /** The second half: the buffer has been filtered and encoded. */
  function Finish(s: Adc, failed: bool, diskFull: bool): Adc
    requires Shape(s) && s.busy.Some?
  {
    var r := s.(busy := None, encoded := s.encoded + [s.content[s.busy.value]]);
    if failed then Post(r, ErrMsg) else if diskFull then Post(r, Stoping(false)) else r
  }

  ghost predicate Enabled(s: Adc, e: Event) {
    match e
    case DmaComplete => s.active.Some?
    // audio_encode_stop asks only while the recorder is recording
    case UserStop => s.status == Recording
    case TakeDone => s.busy.None? && s.queue != [] && s.queue[0] == DmaDone
    case FinishEncode(_, _) => s.busy.Some?
    case TakeStoping => s.busy.None? && s.queue != [] && s.queue[0].Stoping?
    case TakeErr => s.busy.None? && s.queue != [] && s.queue[0] == ErrMsg
    case TakeStop => s.busy.None? && s.queue != [] && s.queue[0] == StopMsg
  }

  function Step(s: Adc, e: Event): Adc
    requires Shape(s) && Enabled(s, e)
  {
    match e
    case DmaComplete => Complete(s)
    case UserStop => Post(s, Stoping(true))
    case TakeDone => Take(s)
    case FinishEncode(f, d) => Finish(s, f, d)
    case TakeStoping => s.(queue := s.queue[1..], status := Stopping)
    case TakeErr => s.(queue := s.queue[1..])
    case TakeStop => s.(queue := [], status := Stopped, active := None, queued := None)
  }

  // ----- counting messages -----

  function Count(q: seq<Msg>, m: Msg): nat {
    if q == [] then 0 else (if q[0] == m then 1 else 0) + Count(q[1..], m)
  }

  function DoneCount(q: seq<Msg>): nat { Count(q, DmaDone) }

  /** Stop requests of the user. */
  function Users(q: seq<Msg>): nat { Count(q, Stoping(true)) }

  /** Messages that the encoder task sent itself after encoding a buffer. */
  function Posts(q: seq<Msg>): nat { Count(q, ErrMsg) + Count(q, Stoping(false)) }

  predicate Posted(m: Msg) { m == ErrMsg || m == Stoping(false) }

  lemma {:induction false} CountAppend(q: seq<Msg>, x: Msg, m: Msg)
    ensures Count(q + [x], m) == Count(q, m) + if x == m then 1 else 0
  {
    if q == [] {
      assert q + [x] == [x];
    } else {
      assert (q + [x])[0] == q[0] && (q + [x])[1..] == q[1..] + [x];
      CountAppend(q[1..], x, m);
    }
  }

  lemma {:induction false} CountIn(q: seq<Msg>, m: Msg)
    ensures Count(q, m) > 0 <==> m in q
  {
    if q != [] { CountIn(q[1..], m); }
  }

  lemma {:induction false} SizeIs(q: seq<Msg>)
    ensures |q| == DoneCount(q) + Users(q) + Posts(q) + Count(q, StopMsg)
  {
    if q != [] { SizeIs(q[1..]); }
  }

  /**
   * Behind d buffers that were taken before it, and those whose messages are ahead of it, a message of the
   * task's own is followed by at most so many more: each buffer encoded yields at most one.
   */
  predicate Light(q: seq<Msg>, d: nat) {
    q == [] || (
      if q[0] == DmaDone then Light(q[1..], d + 1)
      else (Posted(q[0]) ==> d + Posts(q) <= 3) && Light(q[1..], d))
  }

  lemma {:induction false} LightAppend(q: seq<Msg>, d: nat, m: Msg)
    requires Light(q, d) && !Posted(m)
    ensures Light(q + [m], d)
  {
    if q == [] {
      assert q + [m] == [m];
    } else {
      assert (q + [m])[0] == q[0] && (q + [m])[1..] == q[1..] + [m];
      CountAppend(q, m, ErrMsg);
      CountAppend(q, m, Stoping(false));
      LightAppend(q[1..], if q[0] == DmaDone then d + 1 else d, m);
    }
  }

  lemma {:induction false} LightPost(q: seq<Msg>, d: nat, m: Msg)
    requires Light(q, d + 1) && Posted(m) && d + DoneCount(q) <= 2
    ensures Light(q + [m], d)
  {
    CountAppend(q, m, ErrMsg);
    CountAppend(q, m, Stoping(false));
    if q == [] {
      assert q + [m] == [m];
    } else {
      assert (q + [m])[0] == q[0] && (q + [m])[1..] == q[1..] + [m];
      LightPost(q[1..], if q[0] == DmaDone then d + 1 else d, m);
    }
  }

  lemma {:induction false} LightWeaken(q: seq<Msg>, d: nat)
    requires Light(q, d + 1)
    ensures Light(q, d)
  {
    if q != [] { LightWeaken(q[1..], if q[0] == DmaDone then d + 1 else d); }
  }

  lemma {:induction false} LightBound(q: seq<Msg>, d: nat)
    requires Light(q, d)
    ensures Posts(q) <= 3
  {
    if q != [] { LightBound(q[1..], if q[0] == DmaDone then d + 1 else d); }
  }

  // ----- the invariant -----

  /** Transfers handed to the encoder, including the one it is working on. */
  function Taken(s: Adc): nat {
    |s.encoded| + Working(s)
  }

  function Working(s: Adc): nat { if s.busy.Some? then 1 else 0 }

  /** Once the stop message is queued, no DMA-done message comes after it. */
  ghost predicate StopIsLast(q: seq<Msg>) {
    forall i, j :: 0 <= i < j < |q| && q[i] == StopMsg ==> q[j] != DmaDone
  }

  /** The k-th transfer, counted from 0, goes to buffer k modulo 3; n of them have been taken. */
  ghost predicate CursorInv(s: Adc) {
    var n := Taken(s);
    && Shape(s)
    && s.ready == n % BUFFERS && s.index == s.free == (n + 1) % BUFFERS
    && (s.busy.Some? ==> s.busy.value == (n - 1) % BUFFERS && s.content[s.busy.value] == n - 1)
    && n <= s.fills <= s.sets <= n + 2
    && (s.active.Some? <==> s.fills < s.sets) && (s.queued.Some? <==> s.fills + 1 < s.sets)
    && (s.active.Some? ==> s.active.value == s.fills % BUFFERS)
    && (s.queued.Some? ==> s.queued.value == (s.fills + 1) % BUFFERS)
    && (n < s.fills ==> s.content[n % BUFFERS] == n)
    && (n + 1 < s.fills ==> s.content[(n + 1) % BUFFERS] == n + 1)
    && (s.status == Recording ==> s.sets == n + 2)
  }

  ghost predicate QueueInv(s: Adc) {
    // every completed transfer that was not taken has its message waiting, or lost it
    && |s.queue| <= PLACES
    && s.fills == Taken(s) + DoneCount(s.queue) + s.lost
    && (StopMsg in s.queue ==> s.status == Stopping && s.fills == s.sets)
    && StopIsLast(s.queue)
    && (s.status == Stopped ==> s.queue == [] && s.busy.None? && s.fills == s.sets)
  }

  ghost predicate InOrder(xs: seq<int>) {
    forall k :: 0 <= k < |xs| ==> xs[k] == k
  }

  ghost predicate Inv(s: Adc) {
    CursorInv(s) && QueueInv(s) && InOrder(s.encoded) && Light(s.queue, Working(s))
  }

  lemma NoDoneAfterStop(q: seq<Msg>)
    requires q != [] && q[0] == StopMsg && StopIsLast(q)
    ensures DoneCount(q) == 0
  {
    assert forall j :: 0 < j < |q| ==> q[j] != DmaDone;
    CountIn(q, DmaDone);
  }

  lemma CompleteCursors(s: Adc)
    requires CursorInv(s) && s.active.Some?
    ensures CursorInv(Complete(s))
  {
  }

  lemma CompleteKeeps(s: Adc)
    requires Inv(s) && s.active.Some?
    ensures Inv(Complete(s))
  {
    CompleteCursors(s);
    CountAppend(s.queue, DmaDone, DmaDone);
    LightAppend(s.queue, Working(s), DmaDone);
    assert StopMsg !in s.queue;
    assert forall i :: 0 <= i < |s.queue| ==> s.queue[i] in s.queue;
  }

  lemma TakeCursors(s: Adc)
    requires CursorInv(s) && s.busy.None? && s.queue != [] && Taken(s) < s.fills
    ensures CursorInv(Take(s))
  {
  }

  lemma TakeQueue(s: Adc)
    requires CursorInv(s) && QueueInv(s) && Enabled(s, TakeDone)
    ensures QueueInv(Take(s))
  {
    var r, rest := Take(s), s.queue[1..];
    assert forall m :: m in rest ==> m in s.queue;
    assert StopMsg in s.queue ==> StopMsg in rest;
    if s.status != Recording && s.active.None? {
      CountAppend(rest, StopMsg, DmaDone);
      assert r.queue == rest + [StopMsg] && r.queue[|rest|] == StopMsg;
    } else {
      assert r.queue == rest;
    }
  }

  lemma TakeKeeps(s: Adc)
    requires Inv(s) && Enabled(s, TakeDone)
    ensures Inv(Take(s))
  {
    TakeCursors(s);
    TakeQueue(s);
    LightAppend(s.queue[1..], 1, StopMsg);
  }

  lemma FinishKeeps(s: Adc, failed: bool, diskFull: bool)
    requires Inv(s) && s.busy.Some?
    ensures Inv(Finish(s, failed, diskFull))
  {
    var m := if failed then ErrMsg else Stoping(false);
    CountAppend(s.queue, m, DmaDone);
    LightPost(s.queue, 0, m);
    LightWeaken(s.queue, 0);
  }

  lemma AskKeeps(s: Adc)
    requires Inv(s) && s.status == Recording
    ensures Inv(Post(s, Stoping(true)))
  {
    CountAppend(s.queue, Stoping(true), DmaDone);
    LightAppend(s.queue, Working(s), Stoping(true));
  }

  /** A message taken that is neither a finished transfer nor the stop; a stop request changes the status. */
  lemma DropKeeps(s: Adc, status: Status)
    requires Inv(s) && s.busy.None? && s.queue != [] && (s.queue[0].Stoping? || s.queue[0] == ErrMsg)
    requires status == Stopping || status == s.status
    ensures Inv(s.(queue := s.queue[1..], status := status))
  {
    assert forall m :: m in s.queue[1..] ==> m in s.queue;
    assert StopMsg in s.queue ==> StopMsg in s.queue[1..];
  }

  lemma StepKeeps(s: Adc, e: Event)
    requires Inv(s) && Enabled(s, e)
    ensures Inv(Step(s, e))
  {
    match e
    case DmaComplete => CompleteKeeps(s);
    case UserStop => AskKeeps(s);
    case TakeDone => TakeKeeps(s);
    case FinishEncode(f, d) => FinishKeeps(s, f, d);
    case TakeStop => NoDoneAfterStop(s.queue);
    case TakeStoping => DropKeeps(s, Stopping);
    case TakeErr => DropKeeps(s, s.status);
  }

  // ----- whole runs -----

  /** `es` can happen one after the other from `s`. */
  ghost predicate Legal(s: Adc, es: seq<Event>)
    decreases |es|
  {
    es == [] || (Shape(s) && Enabled(s, es[0]) && Legal(Step(s, es[0]), es[1..]))
  }

  function Run(s: Adc, es: seq<Event>): Adc
    requires Legal(s, es)
    decreases |es|
  {
    if es == [] then s else Run(Step(s, es[0]), es[1..])
  }

  lemma {:induction false} RunKeeps(s: Adc, es: seq<Event>)
    requires Inv(s) && Legal(s, es)
    ensures Inv(Run(s, es))
    decreases |es|
  {
    if es != [] {
      StepKeeps(s, es[0]);
      RunKeeps(Step(s, es[0]), es[1..]);
    }
  }

  /** Every transfer that ended found a place in the queue for its message. */
  ghost predicate Roomy(s: Adc, es: seq<Event>)
    requires Legal(s, es)
    decreases |es|
  {
    es == [] || ((es[0].DmaComplete? ==> |s.queue| < PLACES) && Roomy(Step(s, es[0]), es[1..]))
  }

  lemma {:induction false} LostExactly(s: Adc, es: seq<Event>)
    requires Legal(s, es)
    ensures s.lost <= Run(s, es).lost
    ensures Run(s, es).lost == s.lost <==> Roomy(s, es)
    decreases |es|
  {
    if es != [] { LostExactly(Step(s, es[0]), es[1..]); }
  }

  /** How many transfers ended with five messages waiting. */
  function Losses(s: Adc, es: seq<Event>): nat
    requires Legal(s, es)
    decreases |es|
  {
    if es == [] then 0
    else (if es[0].DmaComplete? && |s.queue| >= PLACES then 1 else 0) + Losses(Step(s, es[0]), es[1..])
  }

  lemma {:induction false} LostIsCounted(s: Adc, es: seq<Event>)
    requires Legal(s, es)
    ensures Run(s, es).lost == s.lost + Losses(s, es)
    decreases |es|
  {
    if es != [] { LostIsCounted(Step(s, es[0]), es[1..]); }
  }

  /**
   * In every run, whatever is lost: the buffer being encoded is neither being filled nor queued to be, and
   * transfers are encoded at most once and in the order they were filled.
   */
  ghost predicate Safe(s: Adc) {
    && (s.busy.Some? ==> s.active != s.busy && s.queued != s.busy)
    && (forall k :: 0 <= k < |s.encoded| ==> s.encoded[k] == k)
    && |s.encoded| <= s.fills <= s.sets <= |s.encoded| + 3
  }

  lemma {:induction false} EncodedOnceInOrder(es: seq<Event>)
    requires Legal(Init(), es)
    ensures Safe(Run(Init(), es))
  {
    InitInv();
    RunKeeps(Init(), es);
    InvIsSafe(Run(Init(), es));
  }

  lemma InvIsSafe(s: Adc)
    requires Inv(s)
    ensures Safe(s)
    ensures s.status == Stopped ==> s.fills == s.sets == |s.encoded| + s.lost
  {
  }

  lemma InitInv()
    ensures Inv(Init())
  {
  }

  /**
   * When the recorder has stopped, every transfer requested has been filled; and every one has been encoded
   * if and only if each found a place in the queue for its message.
   */
  lemma {:induction false} AllEncodedExactlyIfRoomy(s: Adc, es: seq<Event>)
    requires s == Init() && Legal(s, es) && Run(s, es).status == Stopped
    ensures Run(s, es).fills == Run(s, es).sets
    ensures |Run(s, es).encoded| == Run(s, es).fills <==> Roomy(s, es)
  {
    InitInv();
    StoppedRun(s, es);
  }

  lemma {:induction false} StoppedRun(s: Adc, es: seq<Event>)
    requires Inv(s) && s.lost == 0 && Legal(s, es) && Run(s, es).status == Stopped
    ensures Run(s, es).fills == Run(s, es).sets
    ensures |Run(s, es).encoded| == Run(s, es).fills <==> Roomy(s, es)
  {
    RunKeeps(s, es);
    InvIsSafe(Run(s, es));
    LostExactly(s, es);
  }

  // ----- when a message is lost -----

  /**
   * When a transfer ends, at most one earlier message of its kind waits, and at most three of the task's
   * own; so the queue is full only if the user's stop requests fill it.
   */
  lemma FullExactly(s: Adc)
    requires Inv(s) && s.active.Some?
    ensures DoneCount(s.queue) <= 1 && Posts(s.queue) <= 3
    ensures |s.queue| == PLACES <==> DoneCount(s.queue) + Posts(s.queue) + Users(s.queue) == PLACES
    ensures |s.queue| == PLACES ==> Users(s.queue) > 0 && Posts(s.queue) + Users(s.queue) >= 4
  {
    LightBound(s.queue, Working(s));
    CountIn(s.queue, StopMsg);
    SizeIs(s.queue);
  }

  /** A second message is lost only while two stop requests of the user wait at once. */
  lemma SecondLossNeedsTwoRequests(s: Adc)
    requires Inv(s) && s.active.Some? && s.lost > 0 && |s.queue| == PLACES
    ensures s.lost == 1 && DoneCount(s.queue) == 0 && Users(s.queue) >= 2
  {
    FullExactly(s);
  }

  lemma UsersStep(s: Adc, e: Event)
    requires Shape(s) && Enabled(s, e)
    ensures Users(Step(s, e).queue) <= Users(s.queue) + if e == UserStop then 1 else 0
    ensures Posts(Step(s, e).queue) <= Posts(s.queue) + if e.FinishEncode? && (e.failed || e.diskFull) then 1 else 0
  {
    var more := [DmaDone, Stoping(true), StopMsg, ErrMsg, Stoping(false)];
    forall m, k | m in more && k in more
      ensures Count(s.queue + [m], k) == Count(s.queue, k) + if m == k then 1 else 0
    {
      CountAppend(s.queue, m, k);
    }
    if s.queue != [] {
      CountAppend(s.queue[1..], StopMsg, Stoping(true));
      CountAppend(s.queue[1..], StopMsg, ErrMsg);
      CountAppend(s.queue[1..], StopMsg, Stoping(false));
    }
  }

  /** Nobody asks the recorder to stop. */
  ghost predicate Unasked(es: seq<Event>) {
    forall k :: 0 <= k < |es| ==> es[k] != UserStop
  }

  /** Without a stop request nothing is lost, however often the encoder fails or the disk is full. */
  lemma {:induction false} NothingLostUnasked(s: Adc, es: seq<Event>)
    requires Inv(s) && Legal(s, es) && Users(s.queue) == 0 && Unasked(es)
    ensures Roomy(s, es)
    decreases |es|
  {
    if es != [] {
      if es[0] == DmaComplete { FullExactly(s); }
      UsersStep(s, es[0]);
      StepKeeps(s, es[0]);
      assert forall k :: 0 <= k < |es[1..]| ==> es[1..][k] == es[k + 1];
      NothingLostUnasked(Step(s, es[0]), es[1..]);
    }
  }

  /** The encoder never fails, the disk is never full, and at most two earlier stop requests wait at each. */
  ghost predicate Smooth(s: Adc, es: seq<Event>)
    requires Legal(s, es)
    decreases |es|
  {
    es == [] || (
      && (es[0].FinishEncode? ==> !es[0].failed && !es[0].diskFull)
      && (es[0] == UserStop ==> Users(s.queue) <= 2)
      && Smooth(Step(s, es[0]), es[1..]))
  }

  /** ... and as long as all goes well nothing is lost with up to three stop requests waiting. */
  lemma {:induction false} NothingLostSmooth(s: Adc, es: seq<Event>)
    requires Inv(s) && Legal(s, es) && Posts(s.queue) == 0 && Users(s.queue) <= 3 && Smooth(s, es)
    ensures Roomy(s, es)
    decreases |es|
  {
    if es != [] {
      if es[0] == DmaComplete { FullExactly(s); }
      UsersStep(s, es[0]);
      StepKeeps(s, es[0]);
      NothingLostSmooth(Step(s, es[0]), es[1..]);
    }
  }
}
