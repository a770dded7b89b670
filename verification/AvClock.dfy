/** The playback clocks: the audio time ta, the video time tv driven by a timer, and the frame time Tv. */
module AvClock {
  const TIME_BASE_TICK_RATE := 200

  /** `tick2` is tick_time2, the step of one timer tick; `range` is time_range. */
  datatype Clock = Clock(audio: bool, ta: int, tv: int, frameTime: int, tick: nat, tick2: nat, range: nat)

  datatype Event =
    | Open(rate: nat, n: nat, audio: bool)   // a new file: clocks zeroed, step and range computed
    | Tick
    | AudioTime(delta: nat)                  // a decoded buffer has been played
    | FrameShown(delta: nat)
    | SetSpeed(speed: nat, audio: bool)      // play_speed_set, as one step
    | Restart(audio: bool)                   // reserved_play_set
    | AudioEnds

  function OnTick(c: Clock): Clock {
    if c.audio then
      var tv1 := if c.tv - c.ta < c.range then c.tv + c.tick2 else c.tv;
      c.(tv := if c.ta - tv1 > c.range then tv1 + c.tick2 else tv1)
    else c.(tv := c.tv + c.tick2)
  }

  function Zeroed(c: Clock): Clock {
    c.(ta := 0, tv := 0, frameTime := 0)
  }

  function Step(c: Clock, e: Event): Clock {
    match e
    case Open(rate, n, audio) =>
      Clock(audio, 0, 0, 0, rate * n, rate * n, rate * n * TIME_BASE_TICK_RATE / 4)
    case Tick => OnTick(c)
    case AudioTime(d) => c.(ta := c.ta + d)
    case FrameShown(d) => c.(frameTime := c.frameTime + d)
    case SetSpeed(speed, audio) => Zeroed(c).(tick2 := c.tick * speed / 0x1_0000, audio := audio)
    case Restart(audio) => Zeroed(c).(audio := audio)
    case AudioEnds => c.(audio := false)
  }

  /** With audio on, video time is less than one tick past the permitted lead. */
  ghost predicate Bounded(c: Clock) {
    c.audio ==> c.tv - c.ta < c.range + c.tick2
  }

  ghost predicate Inv(c: Clock) {
    Bounded(c) && c.range == c.tick * TIME_BASE_TICK_RATE / 4 && c.tick > 0
  }

  /** A file whose tick is not zero: the sample rate is at least half the timer rate. */
  predicate Opens(e: Event) {
    e.Open? ==> e.rate * e.n > 0
  }

  lemma StepKeeps(c: Clock, e: Event)
    requires Inv(c) && Opens(e)
    ensures Inv(Step(c, e))
  {
  }

  function Run(c: Clock, es: seq<Event>): Clock
    decreases |es|
  {
    if es == [] then c else Run(Step(c, es[0]), es[1..])
  }

  /** In every state reachable by any interleaving of ticks, audio and frame times, resets and new files. */
  lemma {:induction false} VideoNeverLeadsByMore(c: Clock, es: seq<Event>)
    requires Inv(c) && forall k :: 0 <= k < |es| ==> Opens(es[k])
    ensures Inv(Run(c, es))
    decreases |es|
  {
    if es != [] {
      StepKeeps(c, es[0]);
      VideoNeverLeadsByMore(Step(c, es[0]), es[1..]);
    }
  }

  /** A run in which no other file is opened. */
  ghost predicate SameFile(es: seq<Event>) {
    forall k :: 0 <= k < |es| ==> !es[k].Open?
  }

  /** nSamplesPerSec * 2 / TIME_BASE_TICK_RATE. */
  function TicksPerFrame(samples: nat): nat { samples * 2 / TIME_BASE_TICK_RATE }

  lemma TickIsPositive(rate: nat, samples: nat)
    ensures rate * TicksPerFrame(samples) > 0 <==> rate > 0 && samples >= 100
  {
    var n := TicksPerFrame(samples);
    assert n > 0 <==> samples >= 100;
    if rate > 0 && n > 0 { assert rate * n >= n; } else { assert rate * n == 0; }
  }

  /**
   * A file with audio keeps the bound through every run if and only if its rate is not zero and it has at
   * least 100 samples a second.
   */
  lemma FileBoundedExactly(c: Clock, rate: nat, samples: nat, f: Clock)
    requires f == Step(c, Open(rate, TicksPerFrame(samples), true))
    ensures (forall es :: SameFile(es) ==> Bounded(Run(f, es))) <==> rate > 0 && samples >= 100
  {
    TickIsPositive(rate, samples);
    if rate > 0 && samples >= 100 {
      forall es | SameFile(es) ensures Bounded(Run(f, es)) { VideoNeverLeadsByMore(f, es); }
    } else {
      assert SameFile([]) && Run(f, []) == f && !Bounded(f);
    }
  }

  // ----- many ticks -----

  /** n ticks, with no audio played in between. */
  function Ticks(c: Clock, n: nat): Clock {
    if n == 0 then c else OnTick(Ticks(c, n - 1))
  }

  function Lag(c: Clock): int { c.ta - c.tv }

  /** What n ticks of two steps each leave of a lag. */
  function Fast(c: Clock, n: nat): int {
    if n == 0 then Lag(c) else Fast(c, n - 1) - 2 * c.tick2
  }

  lemma {:induction false} FastIs(c: Clock, n: nat)
    ensures Fast(c, n) == Lag(c) - 2 * n * c.tick2
  {
    if n > 0 {
      FastIs(c, n - 1);
      assert 2 * n * c.tick2 == 2 * (n - 1) * c.tick2 + 2 * c.tick2;
    }
  }

  /** One tick moves video by no step, one or two, according to how far it is from audio. */
  lemma TickExactly(c: Clock)
    requires c.audio
    ensures var steps :=
        if c.tv - c.ta >= c.range then 0 else if Lag(c) > c.range + c.tick2 then 2 else 1;
      OnTick(c) == c.(tv := c.tv + steps * c.tick2)
  {
  }

  lemma TickStep(c: Clock)
    requires c.audio
    ensures OnTick(c) == c.(tv := OnTick(c).tv) && c.tv <= OnTick(c).tv <= c.tv + 2 * c.tick2
    ensures Lag(c) > c.range + c.tick2 ==> Lag(OnTick(c)) == Lag(c) - 2 * c.tick2
    ensures Lag(c) > c.range ==> Lag(OnTick(c)) <= Lag(c) - c.tick2
    ensures -Lag(OnTick(c)) < c.range + c.tick2 || OnTick(c) == c
  {
    TickExactly(c);
  }

  /**
   * Video that lags catches up by two steps a tick: after n ticks the lag is exactly what these leave, as
   * long as that is more than one step past the range, and no more than that afterwards.
   */
  lemma {:induction false} LagComesDown(c: Clock, n: nat)
    requires c.audio
    ensures var d := Ticks(c, n);
      && d == c.(tv := d.tv) && c.tv <= d.tv && Lag(c) - 2 * n * c.tick2 <= Lag(d)
      && (Lag(d) <= c.range + c.tick2 || Lag(d) == Lag(c) - 2 * n * c.tick2)
  {
    LagIsFast(c, n);
    FastIs(c, n);
  }

  lemma {:induction false} LagIsFast(c: Clock, n: nat)
    requires c.audio
    ensures var d := Ticks(c, n);
      && d == c.(tv := d.tv) && c.tv <= d.tv && Fast(c, n) <= Lag(d)
      && (Lag(d) <= c.range + c.tick2 || Lag(d) == Fast(c, n))
  {
    if n > 0 {
      LagIsFast(c, n - 1);
      TickStep(Ticks(c, n - 1));
    }
  }

  /**
   * So after n + 1 ticks or more, where 2n steps make up for what the lag exceeds the range by, video is
   * within the range of audio, give or take less than the last step of a lead, and stays there.
   */
  lemma {:induction false} TicksConverge(c: Clock, n: nat, m: nat)
    requires c.audio && c.tick2 > 0 && Bounded(c) && Lag(c) - 2 * n * c.tick2 <= c.range && m > n
    ensures -(c.range + c.tick2) < Lag(Ticks(c, m)) <= c.range
    decreases m
  {
    var d := Ticks(c, m - 1);
    LagComesDown(c, m - 1);
    LeadStaysBounded(c, m);
    TickStep(d);
    if m - 1 > n { TicksConverge(c, n, m - 1); }
  }

  lemma {:induction false} LeadStaysBounded(c: Clock, n: nat)
    requires c.audio && Bounded(c)
    ensures Ticks(c, n) == c.(tv := Ticks(c, n).tv) && Bounded(Ticks(c, n))
  {
    if n > 0 {
      LeadStaysBounded(c, n - 1);
      TickStep(Ticks(c, n - 1));
    }
  }

  /** Video that leads by the range or more stands still, for as many ticks as audio does. */
  lemma {:induction false} LeadIsHeld(c: Clock, n: nat)
    requires c.audio && -Lag(c) >= c.range
    ensures Ticks(c, n) == c
  {
    if n > 0 { LeadIsHeld(c, n - 1); }
  }

  // ----- what the clocks measure -----

  /** Without audio, video time runs freely: one step a tick. */
  lemma {:induction false} FreeRunning(c: Clock, n: nat)
    requires !c.audio
    ensures Ticks(c, n) == c.(tv := c.tv + n * c.tick2)
  {
    if n > 0 {
      FreeRunning(c, n - 1);
      assert n * c.tick2 == (n - 1) * c.tick2 + c.tick2;
    }
  }

  /** A run with no new file, no change of speed and no restart. */
  ghost predicate NoReset(es: seq<Event>) {
    forall k :: 0 <= k < |es| ==> !es[k].Open? && !es[k].SetSpeed? && !es[k].Restart?
  }

  function AudioPlayed(es: seq<Event>): nat {
    if es == [] then 0 else (if es[0].AudioTime? then es[0].delta else 0) + AudioPlayed(es[1..])
  }

  function VideoShown(es: seq<Event>): nat {
    if es == [] then 0 else (if es[0].FrameShown? then es[0].delta else 0) + VideoShown(es[1..])
  }

  /**
   * Between resets, audio time and frame time advance by exactly the durations of what was played and shown,
   * in any interleaving with the timer; and the steps of the timer stay as they are.
   */
  lemma {:induction false} ClocksAreSums(c: Clock, es: seq<Event>)
    requires NoReset(es)
    ensures var d := Run(c, es);
      && d.ta == c.ta + AudioPlayed(es) && d.frameTime == c.frameTime + VideoShown(es)
      && d.tick == c.tick && d.tick2 == c.tick2 && d.range == c.range && c.tv <= d.tv
    decreases |es|
  {
    if es != [] {
      assert forall k :: 0 <= k < |es[1..]| ==> es[1..][k] == es[k + 1];
      ClocksAreSums(Step(c, es[0]), es[1..]);
    }
  }

  /** A new file, a change of speed and a restart put all three clocks back to zero, with audio as asked. */
  lemma ResetsZeroAll(c: Clock, e: Event)
    requires e.Open? || e.SetSpeed? || e.Restart?
    ensures var d := Step(c, e); d.ta == 0 && d.tv == 0 && d.frameTime == 0 && d.audio == e.audio
  {
  }

  /**
   * The step of the timer is the tick scaled by the speed, a fraction of 65536, rounded down; so it is the tick
   * itself at normal speed.  The range is a quarter of a second of ticks whatever the speed.
   */
  lemma SpeedScales(c: Clock, speed: nat, audio: bool)
    ensures var d := Step(c, SetSpeed(speed, audio));
      && d.tick2 * 0x1_0000 <= c.tick * speed < (d.tick2 + 1) * 0x1_0000
      && d.tick == c.tick && d.range == c.range && (speed == 0x1_0000 ==> d.tick2 == c.tick)
  {
    if speed == 0x1_0000 { assert c.tick * speed / 0x1_0000 == c.tick; }
  }

  /** A new file runs at normal speed, with a range of 50 ticks; and only the end of the audio turns audio off. */
  lemma OpenAndEnd(c: Clock, rate: nat, n: nat, audio: bool)
    ensures var d := Step(c, Open(rate, n, audio)); d.tick == d.tick2 == rate * n && d.range == 50 * d.tick
    ensures Step(c, AudioEnds) == c.(audio := false)
  {
  }
}
