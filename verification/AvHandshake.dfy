/**
 * The handshake between the timer interrupt and the video task: post_cnt counts frame messages posted,
 * pend_cnt frames finished, and the interrupt posts only when they are equal.  The state task starts and
 * stops the timer and the video task; a request to the task is a message answered by an acknowledgement.
 */
module AvHandshake {
  import opened Basics

  const QUEUE_MAX := 5

  datatype Msg = OneFrame | StopReq | RestartReq

  /** The video task: idle, showing a frame, or in one of the three steps that end the video. */
  datatype TaskPc = Idle | Showing | EovSettle | EovFlush

  /** The state task: free, or waiting for the video task's acknowledgement. */
  datatype StatePc = Free | WaitStop | WaitRestart

  datatype Sync = Sync(post: nat, pend: nat, queue: seq<Msg>, timer: bool, videoFlag: bool,
                       task: TaskPc, state: StatePc)

  datatype Event =
    | Tick(due: bool)
    | TakeFrame | FrameDone | EndOfVideo | Settle | Flush   // video task
    | TakeStop | TakeRestart
    | BeginStop | BeginRestart | StartTimer | StopTimer | OpenFile   // state task

  function Inc(n: nat): nat { (n + 1) % U32 }

  function Post(s: Sync, m: Msg): Sync {
    if |s.queue| < QUEUE_MAX then s.(queue := s.queue + [m]) else s
  }

  /** The interrupt's second half; the result of the post is not looked at. */
  function OnTick(s: Sync, due: bool): Sync {
    if due && s.post == s.pend then Post(s, OneFrame).(post := Inc(s.post)) else s
  }

  predicate Heads(s: Sync, m: Msg) {
    s.task == Idle && s.queue != [] && s.queue[0] == m
  }

  predicate Ending(s: Sync) {
    s.task == EovSettle || s.task == EovFlush
  }

  predicate Enabled(s: Sync, e: Event) {
    match e
    case Tick(_) => s.timer
    case TakeFrame => Heads(s, OneFrame)
    case FrameDone => s.task == Showing
    case EndOfVideo => s.task == Showing
    case Settle => s.task == EovSettle
    case Flush => s.task == EovFlush
    case TakeStop => Heads(s, StopReq)
    case TakeRestart => Heads(s, RestartReq)
    case BeginStop => s.state == Free
    case BeginRestart => s.state == Free
    // the timer is started only while there is video: see TimerNeedsVideo
    case StartTimer => s.state == Free && s.videoFlag
    case StopTimer => s.state == Free
    case OpenFile => s.state == Free && !s.timer && s.task == Idle && OneFrame !in s.queue
  }

  function Step(s: Sync, e: Event): Sync
    requires Enabled(s, e)
  {
    match e
    case Tick(due) => OnTick(s, due)
    case TakeFrame => s.(queue := s.queue[1..], task := Showing)
    case FrameDone => s.(pend := Inc(s.pend), task := Idle)
    // vid_dec_end_callback: without video the timer is stopped
    case EndOfVideo => s.(task := EovSettle, timer := s.timer && !s.videoFlag, videoFlag := false)
    case Settle => s.(pend := s.post, task := EovFlush)
    case Flush => s.(queue := [], task := Idle)
    case TakeStop => s.(queue := [], state := Free)
    case TakeRestart => s.(queue := s.queue[1..], state := Free)
    // the timer first, then the task
    case BeginStop => Post(s.(timer := false), StopReq).(state := WaitStop)
    case BeginRestart => Post(s, RestartReq).(state := WaitRestart)
    case StartTimer => s.(timer := true)
    case StopTimer => s.(timer := false)
    case OpenFile => s.(post := 0, pend := 0, videoFlag := true)
  }

  function Init(): Sync { Sync(0, 0, [], false, true, Idle, Free) }

  // ----- the invariant -----

  /** Frame messages queued or being handled. */
  function Outstanding(s: Sync): nat {
    (if OneFrame in s.queue then 1 else 0) + (if s.task == Showing || s.task == EovSettle then 1 else 0)
  }

  /** At most one frame and one request; and no frame behind a stop request, which will flush the queue. */
  ghost predicate QueueShape(q: seq<Msg>) {
    || q == [] || q == [OneFrame] || q == [StopReq] || q == [RestartReq]
    || q == [OneFrame, StopReq] || q == [OneFrame, RestartReq] || q == [RestartReq, OneFrame]
  }

  ghost predicate Inv(s: Sync) {
    && QueueShape(s.queue) && s.post < U32 && s.pend < U32
    && Outstanding(s) <= 1 && s.post == (if Outstanding(s) == 1 then Inc(s.pend) else s.pend)
    && (s.timer ==> s.videoFlag && s.state != WaitStop) && (Ending(s) ==> !s.videoFlag)
    && (StopReq in s.queue ==> s.state == WaitStop)
    && (RestartReq in s.queue ==> s.state == WaitRestart)
    && (s.task == EovFlush ==> OneFrame !in s.queue)
  }

  /** Taking the head of a well-shaped queue, or adding to it. */
  lemma Shapes(q: seq<Msg>)
    requires QueueShape(q)
    ensures q != [] ==> QueueShape(q[1..]) && (forall m :: m in q <==> m == q[0] || m in q[1..]) && q[0] !in q[1..]
    ensures OneFrame !in q && StopReq !in q ==> QueueShape(q + [OneFrame])
    ensures StopReq !in q && RestartReq !in q ==> QueueShape(q + [StopReq]) && QueueShape(q + [RestartReq])
    ensures |q| <= 2 && (q != [] && q[0] == StopReq ==> q == [StopReq])
  {
    assert |q| == 2 ==> q == [q[0]] + q[1..] && q[1..] == [q[1]];
    assert |q| == 1 ==> q[1..] == [];
    assert q == [] ==> q + [OneFrame] == [OneFrame] && q + [StopReq] == [StopReq] && q + [RestartReq] == [RestartReq];
  }

  lemma StepKeeps(s: Sync, e: Event)
    requires Inv(s) && Enabled(s, e)
    ensures Inv(Step(s, e))
  {
    Shapes(s.queue);
  }

  ghost predicate Legal(s: Sync, es: seq<Event>)
    decreases |es|
  {
    es == [] || (Enabled(s, es[0]) && Legal(Step(s, es[0]), es[1..]))
  }

  function Run(s: Sync, es: seq<Event>): Sync
    requires Legal(s, es)
    decreases |es|
  {
    if es == [] then s else Run(Step(s, es[0]), es[1..])
  }

  lemma {:induction false} RunKeeps(s: Sync, es: seq<Event>)
    requires Inv(s) && Legal(s, es)
    ensures Inv(Run(s, es))
    decreases |es|
  {
    if es != [] {
      StepKeeps(s, es[0]);
      RunKeeps(Step(s, es[0]), es[1..]);
    }
  }

  /**
   * In every run, across stop, restart and the end of the video: at most one frame message is queued or
   * being handled, the counters differ exactly when one is, and no message was ever posted to a full queue.
   * So the interrupt never waits for a frame that nobody will finish.
   */
  lemma HandshakeHolds(es: seq<Event>, s: Sync)
    requires Legal(Init(), es) && s == Run(Init(), es)
    ensures Outstanding(s) <= 1 && |s.queue| <= 2
    ensures s.post == if Outstanding(s) == 1 then Inc(s.pend) else s.pend
    ensures s.post != s.pend <==> OneFrame in s.queue || s.task == Showing || s.task == EovSettle
  {
    RunKeeps(Init(), es);
    Shapes(s.queue);
  }

  // ----- what each step is for -----

  /** A tick asks for a frame exactly when one is due and none is outstanding, at the end of the queue. */
  lemma TickAsksExactly(s: Sync, due: bool)
    requires Inv(s) && s.timer
    ensures Step(s, Tick(due)).queue == s.queue + if due && Outstanding(s) == 0 then [OneFrame] else []
  {
    Shapes(s.queue);
    if !(due && Outstanding(s) == 0) { assert s.queue + [] == s.queue; }
  }

  /** While the timer runs and nobody interferes, frames follow one another: each due tick shows one. */
  lemma OneFrameCycle(s: Sync, t: Sync)
    requires Inv(s) && s.timer && s.task == Idle && s.queue == []
    requires t == Step(Step(Step(s, Tick(true)), TakeFrame), FrameDone)
    ensures t == s.(post := Inc(s.post), pend := Inc(s.pend)) && t.post == t.pend
  {
  }

  /** The timer runs from its start to the next stop of the timer or of the video, or to the end of the video. */
  lemma TimerExactly(s: Sync, e: Event)
    requires Inv(s) && Enabled(s, e)
    ensures Step(s, e).timer <==> e.StartTimer? || (s.timer && !e.StopTimer? && !e.BeginStop? && !e.EndOfVideo?)
  {
  }

  /** There is video from the opening of a file to the end of the video. */
  lemma VideoFlagExactly(s: Sync, e: Event)
    requires Inv(s) && Enabled(s, e)
    ensures Step(s, e).videoFlag <==> e.OpenFile? || (s.videoFlag && !e.EndOfVideo?)
  {
  }

  /**
   * The state task waits from its request on, which goes to the end of the queue, until the video task takes
   * one.
   */
  lemma RequestsExactly(s: Sync, e: Event, t: Sync)
    requires Inv(s) && Enabled(s, e) && t == Step(s, e)
    ensures e.BeginStop? ==> t.state == WaitStop && t.queue == s.queue + [StopReq]
    ensures e.BeginRestart? ==> t.state == WaitRestart && t.queue == s.queue + [RestartReq]
    ensures e.TakeStop? ==> t.queue == []
    ensures e.TakeStop? || e.TakeRestart? ==> t.state == Free
    ensures !e.BeginStop? && !e.BeginRestart? && !e.TakeStop? && !e.TakeRestart? ==> t.state == s.state
  {
    Shapes(s.queue);
  }

  /**
   * post_cnt counts the frames asked for and pend_cnt those finished, from the opening of the file; the end of
   * the video settles the second by the first.
   */
  lemma CountersExactly(s: Sync, e: Event, t: Sync)
    requires Inv(s) && Enabled(s, e) && t == Step(s, e)
    ensures t.post == if e.OpenFile? then 0
                      else if e.Tick? && e.due && Outstanding(s) == 0 then Inc(s.post) else s.post
    ensures t.pend == if e.OpenFile? then 0
                      else if e.FrameDone? then Inc(s.pend) else if e.Settle? then s.post else s.pend
  {
    Shapes(s.queue);
  }

  // ----- why the order of things matters -----

  /** The counters differ and nothing is left that would make them equal: the interrupt posts no more. */
  ghost predicate Wedged(s: Sync) {
    s.post != s.pend && s.queue == [] && s.task == Idle
  }

  /** A stop request is safe to handle exactly if no frame is queued behind it. */
  lemma StopFlushExactly(s: Sync)
    requires s.post < U32 && s.pend < U32 && Heads(s, StopReq)
    requires s.post == if OneFrame in s.queue then Inc(s.pend) else s.pend
    ensures Wedged(Step(s, TakeStop)) <==> OneFrame in s.queue
  {
  }

  /** Had the timer been left running, a tick while the stop request waits would queue such a frame. */
  lemma TimerMustStopFirst(s: Sync)
    requires Inv(s) && s.state == WaitStop && s.queue == [StopReq] && s.task == Idle
    ensures Wedged(Step(OnTick(s, true), TakeStop))
  {
    assert Outstanding(s) == 0;
    assert OnTick(s, true).queue == [StopReq, OneFrame];
  }

  /** Likewise a tick between settling the counters and flushing the queue at the end of the video. */
  lemma TimerMustBeOffAtTheEnd(s: Sync)
    requires Inv(s) && s.task == EovFlush
    ensures Wedged(Step(OnTick(s, true), Flush))
    ensures !Wedged(Step(s, Flush))
  {
  }

  /** A tick, if the timer runs. */
  function TickIfOn(s: Sync): Sync {
    if s.timer then OnTick(s, true) else s
  }

  /**
   * play_speed_set at normal speed and SET_SEEK start the timer without looking at the video flag.  Then the
   * callback at the end of the video does not stop it, and with a tick at the wrong moment the handshake
   * wedges: exactly when there is no video.
   */
  lemma TimerNeedsVideo(s: Sync, t: Sync, u: Sync)
    requires Inv(s) && s.task == Idle && s.queue == []
    requires t == Step(TickIfOn(s.(timer := true)), TakeFrame)
    requires u == Step(TickIfOn(Step(Step(t, EndOfVideo), Settle)), Flush)
    ensures Wedged(u) <==> !s.videoFlag
  {
  }

  /** The state task waits for an acknowledgement, and the request it would answer is gone. */
  ghost predicate Unanswered(s: Sync) {
    s.state != Free && StopReq !in s.queue && RestartReq !in s.queue && s.task == Idle
  }

  /** The flush at the end of the video strands the state task exactly if its request is in the queue. */
  lemma EndFlushExactly(s: Sync)
    requires Inv(s) && s.task == EovFlush
    requires s.state != Free ==> StopReq in s.queue || RestartReq in s.queue
    ensures Unanswered(Step(s, Flush)) <==> s.queue != []
    ensures Inv(Step(s, Flush))
  {
    Shapes(s.queue);
    assert s.queue != [] ==> s.queue[0] in s.queue;
    StepKeeps(s, Flush);
  }

  predicate HasRequest(q: seq<Msg>) {
    StopReq in q || RestartReq in q
  }

  lemma HasAppend(q: seq<Msg>, m: Msg)
    ensures HasRequest(q + [m]) <==> HasRequest(q) || m != OneFrame
  {
    assert m in q + [m];
    assert forall x :: x in q + [m] <==> x in q || x == m;
  }

  /** A request that the state task waits for is still in the queue. */
  predicate Awaited(s: Sync) {
    s.state != Free ==> HasRequest(s.queue)
  }

  /** No other step loses a request. */
  lemma RequestLostExactly(s: Sync, e: Event)
    requires Inv(s) && Enabled(s, e) && Awaited(s)
    ensures Awaited(Step(s, e)) <==> !(e.Flush? && s.queue != [])
  {
    Shapes(s.queue);
    match e
    case Tick(_) => HasAppend(s.queue, OneFrame);
    case BeginStop => HasAppend(s.queue, StopReq);
    case BeginRestart => HasAppend(s.queue, RestartReq);
    case Flush => if s.queue != [] { FlushedRequest(s); }
    case _ =>
  }

  /** What the end of the video finds in the queue is a request, which somebody waits for. */
  lemma FlushedRequest(s: Sync)
    requires Inv(s) && s.task == EovFlush && s.queue != []
    ensures s.state != Free
  {
    assert s.queue[0] in s.queue;
  }

  /** At every moment of the run the request waited for, if any, is in the queue. */
  ghost predicate AlwaysAwaited(s: Sync, es: seq<Event>)
    requires Legal(s, es)
    decreases |es|
  {
    Awaited(s) && (es == [] || AlwaysAwaited(Step(s, es[0]), es[1..]))
  }

  /** Whenever the end of the video flushes the queue, it is empty. */
  ghost predicate FlushesNothing(s: Sync, es: seq<Event>)
    requires Legal(s, es)
    decreases |es|
  {
    es == [] || ((es[0].Flush? ==> s.queue == []) && FlushesNothing(Step(s, es[0]), es[1..]))
  }

  /** Over any run, no request is ever lost if and only if the end of the video never finds one in the queue. */
  lemma {:induction false} AnsweredExactly(s: Sync, es: seq<Event>)
    requires Inv(s) && Legal(s, es) && Awaited(s)
    ensures AlwaysAwaited(s, es) <==> FlushesNothing(s, es)
    decreases |es|
  {
    if es != [] {
      RequestLostExactly(s, es[0]);
      StepKeeps(s, es[0]);
      if Awaited(Step(s, es[0])) { AnsweredExactly(Step(s, es[0]), es[1..]); }
    }
  }

  /** That happens whenever a stop is requested while the task is finding the end of the video. */
  lemma StopDuringEndOfVideoIsLost(s: Sync, t: Sync)
    requires Inv(s) && s.task == Showing && s.state == Free
    requires t == Step(Step(Step(Step(s, BeginStop), EndOfVideo), Settle), Flush)
    ensures Unanswered(t) && t.state == WaitStop && t.post == t.pend
  {
  }
}
