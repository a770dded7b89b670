/** The shared playback structure, with the timer interrupt and the tasks' handlers updating it in place. */
module AvPlayer {
  import opened Basics
  import opened AvHandshake
  import AvClock

  class Player {
    // clocks
    var audioFlag: bool
    var ta: int
    var tv: int
    var Tv: int
    var tickTime: nat
    var tickTime2: nat
    var timeRange: nat
    // handshake
    var postCnt: nat
    var pendCnt: nat
    var vidDecQ: seq<Msg>
    var timerOn: bool
    var videoFlag: bool
    var task: TaskPc
    var state: StatePc

    ghost function Clocks(): AvClock.Clock
      reads this
    {
      AvClock.Clock(audioFlag, ta, tv, Tv, tickTime, tickTime2, timeRange)
    }

    ghost function Counters(): Sync
      reads this
    {
      Sync(postCnt, pendCnt, vidDecQ, timerOn, videoFlag, task, state)
    }

    ghost predicate Valid()
      reads this
    {
      AvClock.Inv(Clocks()) && Inv(Counters())
    }

    /** MSG_VIDEO_DECODE_PARSER_HEADER_START, for a file whose tick is not zero. */
    constructor (vidTickRate: nat, n: nat, audio: bool)
      requires vidTickRate * n > 0
      ensures Valid() && Counters() == Init()
      ensures forall c :: Clocks() == AvClock.Step(c, AvClock.Open(vidTickRate, n, audio))
    {
      audioFlag, ta, tv, Tv := audio, 0, 0, 0;
      tickTime, tickTime2 := vidTickRate * n, vidTickRate * n;
      timeRange := vidTickRate * n * AvClock.TIME_BASE_TICK_RATE / 4;
      postCnt, pendCnt, vidDecQ, timerOn, videoFlag := 0, 0, [], false, true;
      task, state := Idle, Free;
    }

    /** The first half of the interrupt: video time. */
    method AdvanceVideoTime()
      modifies this`tv
      ensures Clocks() == AvClock.OnTick(old(Clocks()))
    {
      if audioFlag {
        if tv - ta < timeRange {
          tv := tv + tickTime2;
        }
        if ta - tv > timeRange {
          tv := tv + tickTime2;
        }
      } else {
        tv := tv + tickTime2;
      }
    }

    /** The second half: ask for a frame. */
    method PostFrame()
      requires Inv(Counters()) && timerOn
      modifies this`vidDecQ, this`postCnt
      ensures Inv(Counters()) && Counters() == OnTick(old(Counters()), tv >= Tv)
      // a frame is asked for exactly when its time has come and none is outstanding
      ensures vidDecQ ==
        if tv >= Tv && old(Outstanding(Counters())) == 0 then old(vidDecQ) + [OneFrame] else old(vidDecQ)
    {
      Shapes(vidDecQ);
      StepKeeps(Counters(), Tick(tv >= Tv));
      if tv - Tv >= 0 {
        if postCnt == pendCnt {
          if |vidDecQ| < QUEUE_MAX {
            vidDecQ := vidDecQ + [OneFrame];
          }
          postCnt := (postCnt + 1) % U32;
        }
      }
    }

    /** vid_dec_timer_isr. */
    method TimerIsr()
      requires Valid() && timerOn
      modifies this`tv, this`vidDecQ, this`postCnt
      ensures Valid()
      ensures Clocks() == AvClock.OnTick(old(Clocks()))
      ensures Counters() == OnTick(old(Counters()), tv >= Tv)
      ensures vidDecQ ==
        if tv >= Tv && old(Outstanding(Counters())) == 0 then old(vidDecQ) + [OneFrame] else old(vidDecQ)
    {
      AdvanceVideoTime();
      PostFrame();
    }

    /** The audio task has played a buffer. */
    method AddAudioTime(delta: nat)
      requires Valid()
      modifies this`ta
      ensures Valid() && Clocks() == AvClock.Step(old(Clocks()), AvClock.AudioTime(delta))
    {
      ta := ta + delta;
    }

    /** MSG_VID_DEC_ONE_FRAME taken from the queue. */
    method TakeOneFrame()
      requires Valid() && Heads(Counters(), OneFrame)
      modifies this`vidDecQ, this`task
      ensures Valid() && Counters() == Step(old(Counters()), TakeFrame)
    {
      StepKeeps(Counters(), TakeFrame);
      vidDecQ := vidDecQ[1..];
      task := Showing;
    }

    /** The rest of that handler, when the video goes on. */
    method FinishFrame(shown: bool, deltaTv: nat)
      requires Valid() && task == Showing
      modifies this`Tv, this`pendCnt, this`task
      ensures Valid() && Counters() == Step(old(Counters()), FrameDone)
      ensures Tv == old(Tv) + if shown then deltaTv else 0
    {
      StepKeeps(Counters(), FrameDone);
      if shown {
        Tv := Tv + deltaTv;
      }
      pendCnt := (pendCnt + 1) % U32;
      task := Idle;
    }

    /** ... and when it has ended: the callback stops the timer, then the counters are settled and the queue flushed. */
    method EndVideo()
      requires Valid() && task == Showing
      modifies this`videoFlag, this`timerOn, this`pendCnt, this`vidDecQ, this`task
      ensures Valid() && Counters() == Step(Step(Step(old(Counters()), EndOfVideo), Settle), AvHandshake.Flush)
      ensures postCnt == pendCnt && vidDecQ == [] && !timerOn
    {
      StepKeeps(Counters(), EndOfVideo);
      if videoFlag {
        videoFlag := false;
        timerOn := false;
      }
      task := EovSettle;
      StepKeeps(Counters(), Settle);
      pendCnt := postCnt;
      task := EovFlush;
      StepKeeps(Counters(), AvHandshake.Flush);
      vidDecQ := [];
      task := Idle;
    }

    /** MSG_VID_DEC_STOP at the video task. */
    method TakeStopReq()
      requires Valid() && Heads(Counters(), StopReq)
      modifies this`vidDecQ, this`state
      ensures Valid() && Counters() == Step(old(Counters()), TakeStop) && postCnt == pendCnt
    {
      Shapes(vidDecQ);
      StepKeeps(Counters(), TakeStop);
      vidDecQ := [];
      state := Free;
    }

    /** The state task's stop: the timer first, then the request to the video task. */
    method StopVideo()
      requires Valid() && state == Free
      modifies this`timerOn, this`vidDecQ, this`state
      ensures Valid() && Counters() == Step(old(Counters()), BeginStop) && StopReq in vidDecQ
    {
      Shapes(vidDecQ);
      StepKeeps(Counters(), BeginStop);
      timerOn := false;
      if |vidDecQ| < QUEUE_MAX {
        vidDecQ := vidDecQ + [StopReq];
      }
      state := WaitStop;
    }

    /** play_speed_set's critical section, together with the audio switch before it. */
    method PlaySpeedSet(speed: nat, audio: bool)
      requires Valid()
      modifies this`tickTime2, this`ta, this`tv, this`Tv, this`audioFlag
      ensures Valid() && Clocks() == AvClock.Step(old(Clocks()), AvClock.SetSpeed(speed, audio))
    {
      audioFlag := audio;
      tickTime2 := tickTime * speed / 0x1_0000;
      ta, tv, Tv := 0, 0, 0;
    }
  }
}
