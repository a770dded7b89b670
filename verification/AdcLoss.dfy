/** Runs of the recorder in which finished transfers are never encoded. */
module AdcLoss {
  import opened Basics
  import opened AdcRotation
  import opened AdcStop

  lemma {:induction false} RunThen(s: Adc, es: seq<Event>, e: Event)
    requires Legal(s, es) && Shape(Run(s, es)) && Enabled(Run(s, es), e)
    ensures Legal(s, es + [e]) && Run(s, es + [e]) == Step(Run(s, es), e)
    decreases |es|
  {
    if es == [] {
      assert [] + [e] == [e];
    } else {
      RunThen(Step(s, es[0]), es[1..], e);
      assert (es + [e])[0] == es[0] && (es + [e])[1..] == es[1..] + [e];
    }
  }

  /** How often the user asked for a stop. */
  function Asks(es: seq<Event>): nat {
    if es == [] then 0 else Asks(es[..|es| - 1]) + if es[|es| - 1] == UserStop then 1 else 0
  }

  lemma Then(es: seq<Event>, s: Adc, e: Event, t: Adc) returns (fs: seq<Event>)
    requires Leads(es, s) && Shape(s) && Enabled(s, e) && t == Step(s, e)
    ensures Leads(fs, t) && Asks(fs) == Asks(es) + if e == UserStop then 1 else 0
  {
    fs := es + [e];
    RunThen(Init(), es, e);
    assert fs[..|fs| - 1] == es;
  }

  /** Two transfers end before the first is taken; then a stop is asked for, and the encoder fails. */
  lemma FailsOnce(es0: seq<Event>, s0: Adc) returns (es: seq<Event>, s6: Adc)
    requires es0 == [] && s0 == Init()
    ensures Leads(es, s6) && s6 == Adc(Recording, 1, 2, 2, None, None, [0, 1, 2],
                                       [DmaDone, DmaDone, Stoping(true), ErrMsg], None, 3, 3, [0], 0)
    ensures Asks(es) == Asks(es0) + 1
  {
    es := es0;
    var s1 := Adc(Recording, 0, 1, 1, Some(1), None, [0, -1, -1], [DmaDone], None, 2, 1, [], 0);
    var s2 := Adc(Recording, 0, 1, 1, None, None, [0, 1, -1], [DmaDone, DmaDone], None, 2, 2, [], 0);
    var s3 := Adc(Recording, 1, 2, 2, Some(2), None, [0, 1, -1], [DmaDone], Some(0), 3, 2, [], 0);
    var s4 := Adc(Recording, 1, 2, 2, None, None, [0, 1, 2], [DmaDone, DmaDone], Some(0), 3, 3, [], 0);
    var s5 := Adc(Recording, 1, 2, 2, None, None, [0, 1, 2], [DmaDone, DmaDone, Stoping(true)], Some(0), 3, 3, [], 0);
    s6 := Adc(Recording, 1, 2, 2, None, None, [0, 1, 2],
              [DmaDone, DmaDone, Stoping(true), ErrMsg], None, 3, 3, [0], 0);
    es := Then(es, s0, DmaComplete, s1);
    es := Then(es, s1, DmaComplete, s2);
    es := Then(es, s2, TakeDone, s3);
    es := Then(es, s3, DmaComplete, s4);
    es := Then(es, s4, UserStop, s5);
    es := Then(es, s5, FinishEncode(true, false), s6);
  }

  /** Meanwhile another transfer has ended, and the next encode fails too. */
  lemma FailsAgain(es0: seq<Event>, s6: Adc) returns (es: seq<Event>, s9: Adc)
    requires Leads(es0, s6) && s6 == Adc(Recording, 1, 2, 2, None, None, [0, 1, 2],
                                         [DmaDone, DmaDone, Stoping(true), ErrMsg], None, 3, 3, [0], 0)
    ensures Leads(es, s9) && s9 == Adc(Recording, 2, 0, 0, None, None, [3, 1, 2],
                                       [DmaDone, Stoping(true), ErrMsg, DmaDone, ErrMsg], None, 4, 4, [0, 1], 0)
    ensures Asks(es) == Asks(es0)
  {
    es := es0;
    var s7 := Adc(Recording, 2, 0, 0, Some(0), None, [-1, 1, 2],
                  [DmaDone, Stoping(true), ErrMsg], Some(1), 4, 3, [0], 0);
    var s8 := Adc(Recording, 2, 0, 0, None, None, [3, 1, 2],
                  [DmaDone, Stoping(true), ErrMsg, DmaDone], Some(1), 4, 4, [0], 0);
    s9 := Adc(Recording, 2, 0, 0, None, None, [3, 1, 2],
              [DmaDone, Stoping(true), ErrMsg, DmaDone, ErrMsg], None, 4, 4, [0, 1], 0);
    es := Then(es, s6, TakeDone, s7);
    es := Then(es, s7, DmaComplete, s8);
    es := Then(es, s8, FinishEncode(true, false), s9);
  }

  /** So does the third, and the fifth transfer ends with five messages waiting. */
  lemma FailsThrice(es0: seq<Event>, s9: Adc) returns (es: seq<Event>, s12: Adc)
    requires Leads(es0, s9) && s9 == Adc(Recording, 2, 0, 0, None, None, [3, 1, 2],
                                         [DmaDone, Stoping(true), ErrMsg, DmaDone, ErrMsg], None, 4, 4, [0, 1], 0)
    ensures Leads(es, s12) && s12 == Adc(Recording, 0, 1, 1, None, None, [3, 4, 2],
                                         [Stoping(true), ErrMsg, DmaDone, ErrMsg, ErrMsg], None, 5, 5, [0, 1, 2], 1)
    ensures Asks(es) == Asks(es0)
  {
    es := es0;
    var s10 := Adc(Recording, 0, 1, 1, Some(1), None, [3, -1, 2],
                   [Stoping(true), ErrMsg, DmaDone, ErrMsg], Some(2), 5, 4, [0, 1], 0);
    var s11 := Adc(Recording, 0, 1, 1, Some(1), None, [3, -1, 2],
                   [Stoping(true), ErrMsg, DmaDone, ErrMsg, ErrMsg], None, 5, 4, [0, 1, 2], 0);
    s12 := Adc(Recording, 0, 1, 1, None, None, [3, 4, 2],
               [Stoping(true), ErrMsg, DmaDone, ErrMsg, ErrMsg], None, 5, 5, [0, 1, 2], 1);
    es := Then(es, s9, TakeDone, s10);
    es := Then(es, s10, FinishEncode(true, false), s11);
    es := Then(es, s11, DmaComplete, s12);
  }

  /** The stop request and the last message of a finished transfer are taken. */
  lemma TakesLast(es0: seq<Event>, s12: Adc) returns (es: seq<Event>, s16: Adc)
    requires Leads(es0, s12) && s12 == Adc(Recording, 0, 1, 1, None, None, [3, 4, 2],
                                           [Stoping(true), ErrMsg, DmaDone, ErrMsg, ErrMsg], None, 5, 5, [0, 1, 2], 1)
    ensures Leads(es, s16) && s16 == Adc(Stopping, 1, 2, 2, None, None, [3, 4, 2],
                                         [ErrMsg, ErrMsg, StopMsg], None, 5, 5, [0, 1, 2, 3], 1)
    ensures Asks(es) == Asks(es0)
  {
    es := es0;
    var s13 := Adc(Stopping, 0, 1, 1, None, None, [3, 4, 2],
                   [ErrMsg, DmaDone, ErrMsg, ErrMsg], None, 5, 5, [0, 1, 2], 1);
    var s14 := Adc(Stopping, 0, 1, 1, None, None, [3, 4, 2], [DmaDone, ErrMsg, ErrMsg], None, 5, 5, [0, 1, 2], 1);
    var s15 := Adc(Stopping, 1, 2, 2, None, None, [3, 4, 2], [ErrMsg, ErrMsg, StopMsg], Some(0), 5, 5, [0, 1, 2], 1);
    s16 := Adc(Stopping, 1, 2, 2, None, None, [3, 4, 2], [ErrMsg, ErrMsg, StopMsg], None, 5, 5, [0, 1, 2, 3], 1);
    es := Then(es, s12, TakeStoping, s13);
    es := Then(es, s13, TakeErr, s14);
    es := Then(es, s14, TakeDone, s15);
    es := Then(es, s15, FinishEncode(false, false), s16);
  }

  /** The recorder stops without having seen the fifth transfer. */
  lemma StopsShort(es0: seq<Event>, s16: Adc) returns (es: seq<Event>, s19: Adc)
    requires Leads(es0, s16) && s16 == Adc(Stopping, 1, 2, 2, None, None, [3, 4, 2],
                                           [ErrMsg, ErrMsg, StopMsg], None, 5, 5, [0, 1, 2, 3], 1)
    ensures Leads(es, s19) && s19 == Adc(Stopped, 1, 2, 2, None, None, [3, 4, 2], [], None, 5, 5, [0, 1, 2, 3], 1)
    ensures Asks(es) == Asks(es0)
  {
    es := es0;
    var s17 := Adc(Stopping, 1, 2, 2, None, None, [3, 4, 2], [ErrMsg, StopMsg], None, 5, 5, [0, 1, 2, 3], 1);
    var s18 := Adc(Stopping, 1, 2, 2, None, None, [3, 4, 2], [StopMsg], None, 5, 5, [0, 1, 2, 3], 1);
    s19 := Adc(Stopped, 1, 2, 2, None, None, [3, 4, 2], [], None, 5, 5, [0, 1, 2, 3], 1);
    es := Then(es, s16, TakeErr, s17);
    es := Then(es, s17, TakeErr, s18);
    es := Then(es, s18, TakeStop, s19);
  }

  /** With a single stop request, a recorder that stops may have filled five buffers and encoded four. */
  lemma LossIsReachable() returns (es: seq<Event>)
    ensures Legal(Init(), es) && Asks(es) == 1
    ensures var s := Run(Init(), es); s.status == Stopped && s.fills == 5 && s.encoded == [0, 1, 2, 3]
  {
    var s0 := Init();
    var s6, s9, s12, s16, s19;
    es, s6 := FailsOnce([], s0);
    es, s9 := FailsAgain(es, s6);
    es, s12 := FailsThrice(es, s9);
    es, s16 := TakesLast(es, s12);
    es, s19 := StopsShort(es, s16);
  }

  /** Two stops are asked for while three transfers are waiting or being encoded. */
  lemma TwoAsk(es0: seq<Event>, s0: Adc) returns (es: seq<Event>, s6: Adc)
    requires es0 == [] && s0 == Init()
    ensures Leads(es, s6) && s6 == Adc(Recording, 1, 2, 2, None, None, [0, 1, 2],
                                       [DmaDone, DmaDone, Stoping(true), Stoping(true)], Some(0), 3, 3, [], 0)
    ensures Asks(es) == Asks(es0) + 2
  {
    es := es0;
    var s1 := Adc(Recording, 0, 1, 1, Some(1), None, [0, -1, -1], [DmaDone], None, 2, 1, [], 0);
    var s2 := Adc(Recording, 0, 1, 1, None, None, [0, 1, -1], [DmaDone, DmaDone], None, 2, 2, [], 0);
    var s3 := Adc(Recording, 1, 2, 2, Some(2), None, [0, 1, -1], [DmaDone], Some(0), 3, 2, [], 0);
    var s4 := Adc(Recording, 1, 2, 2, None, None, [0, 1, 2], [DmaDone, DmaDone], Some(0), 3, 3, [], 0);
    var s5 := Adc(Recording, 1, 2, 2, None, None, [0, 1, 2], [DmaDone, DmaDone, Stoping(true)], Some(0), 3, 3, [], 0);
    s6 := Adc(Recording, 1, 2, 2, None, None, [0, 1, 2],
              [DmaDone, DmaDone, Stoping(true), Stoping(true)], Some(0), 3, 3, [], 0);
    es := Then(es, s0, DmaComplete, s1);
    es := Then(es, s1, DmaComplete, s2);
    es := Then(es, s2, TakeDone, s3);
    es := Then(es, s3, DmaComplete, s4);
    es := Then(es, s4, UserStop, s5);
    es := Then(es, s5, UserStop, s6);
  }

  /** Two encodes fail, and the fourth transfer ends with five messages waiting. */
  lemma LosesFirst(es0: seq<Event>, s6: Adc) returns (es: seq<Event>, s10: Adc)
    requires Leads(es0, s6) && s6 == Adc(Recording, 1, 2, 2, None, None, [0, 1, 2],
                                         [DmaDone, DmaDone, Stoping(true), Stoping(true)], Some(0), 3, 3, [], 0)
    ensures Leads(es, s10) && s10 == Adc(Recording, 2, 0, 0, None, None, [3, 1, 2],
          [DmaDone, Stoping(true), Stoping(true), ErrMsg, ErrMsg], None, 4, 4, [0, 1], 1)
    ensures Asks(es) == Asks(es0)
  {
    es := es0;
    var s7 := Adc(Recording, 1, 2, 2, None, None, [0, 1, 2],
                  [DmaDone, DmaDone, Stoping(true), Stoping(true), ErrMsg], None, 3, 3, [0], 0);
    var s8 := Adc(Recording, 2, 0, 0, Some(0), None, [-1, 1, 2],
                  [DmaDone, Stoping(true), Stoping(true), ErrMsg], Some(1), 4, 3, [0], 0);
    var s9 := Adc(Recording, 2, 0, 0, Some(0), None, [-1, 1, 2],
                  [DmaDone, Stoping(true), Stoping(true), ErrMsg, ErrMsg], None, 4, 3, [0, 1], 0);
    s10 := Adc(Recording, 2, 0, 0, None, None, [3, 1, 2],
               [DmaDone, Stoping(true), Stoping(true), ErrMsg, ErrMsg], None, 4, 4, [0, 1], 1);
    es := Then(es, s6, FinishEncode(true, false), s7);
    es := Then(es, s7, TakeDone, s8);
    es := Then(es, s8, FinishEncode(true, false), s9);
    es := Then(es, s9, DmaComplete, s10);
  }

  /** The third fails, and the fifth transfer ends with five messages waiting too. */
  lemma LosesSecond(es0: seq<Event>, s10: Adc) returns (es: seq<Event>, s13: Adc)
    requires Leads(es0, s10) && s10 == Adc(Recording, 2, 0, 0, None, None, [3, 1, 2],
          [DmaDone, Stoping(true), Stoping(true), ErrMsg, ErrMsg], None, 4, 4, [0, 1], 1)
    ensures Leads(es, s13) && s13 == Adc(Recording, 0, 1, 1, None, None, [3, 4, 2],
          [Stoping(true), Stoping(true), ErrMsg, ErrMsg, ErrMsg], None, 5, 5, [0, 1, 2], 2)
    ensures Asks(es) == Asks(es0)
  {
    es := es0;
    var s11 := Adc(Recording, 0, 1, 1, Some(1), None, [3, -1, 2],
                   [Stoping(true), Stoping(true), ErrMsg, ErrMsg], Some(2), 5, 4, [0, 1], 1);
    var s12 := Adc(Recording, 0, 1, 1, Some(1), None, [3, -1, 2],
                   [Stoping(true), Stoping(true), ErrMsg, ErrMsg, ErrMsg], None, 5, 4, [0, 1, 2], 1);
    s13 := Adc(Recording, 0, 1, 1, None, None, [3, 4, 2],
               [Stoping(true), Stoping(true), ErrMsg, ErrMsg, ErrMsg], None, 5, 5, [0, 1, 2], 2);
    es := Then(es, s10, TakeDone, s11);
    es := Then(es, s11, FinishEncode(true, false), s12);
    es := Then(es, s12, DmaComplete, s13);
  }

  /** The task takes the requests and the errors, and nothing is left. */
  lemma Idles(es0: seq<Event>, s13: Adc) returns (es: seq<Event>, s18: Adc)
    requires Leads(es0, s13) && s13 == Adc(Recording, 0, 1, 1, None, None, [3, 4, 2],
          [Stoping(true), Stoping(true), ErrMsg, ErrMsg, ErrMsg], None, 5, 5, [0, 1, 2], 2)
    ensures Leads(es, s18) && s18 == Adc(Stopping, 0, 1, 1, None, None, [3, 4, 2], [], None, 5, 5, [0, 1, 2], 2)
    ensures Asks(es) == Asks(es0)
  {
    es := es0;
    var s14 := Adc(Stopping, 0, 1, 1, None, None, [3, 4, 2],
                   [Stoping(true), ErrMsg, ErrMsg, ErrMsg], None, 5, 5, [0, 1, 2], 2);
    var s15 := Adc(Stopping, 0, 1, 1, None, None, [3, 4, 2], [ErrMsg, ErrMsg, ErrMsg], None, 5, 5, [0, 1, 2], 2);
    var s16 := Adc(Stopping, 0, 1, 1, None, None, [3, 4, 2], [ErrMsg, ErrMsg], None, 5, 5, [0, 1, 2], 2);
    var s17 := Adc(Stopping, 0, 1, 1, None, None, [3, 4, 2], [ErrMsg], None, 5, 5, [0, 1, 2], 2);
    s18 := Adc(Stopping, 0, 1, 1, None, None, [3, 4, 2], [], None, 5, 5, [0, 1, 2], 2);
    es := Then(es, s13, TakeStoping, s14);
    es := Then(es, s14, TakeStoping, s15);
    es := Then(es, s15, TakeErr, s16);
    es := Then(es, s16, TakeErr, s17);
    es := Then(es, s17, TakeErr, s18);
  }

  /**
   * With two stop requests and three failing encodes the recorder may hang: it is stopping, with three buffers
   * of five encoded, and nothing can happen any more.
   */
  lemma HangIsReachable() returns (es: seq<Event>, t: Adc)
    ensures Leads(es, t) && Asks(es) == 2 && Final(t)
    ensures t.status == Stopping && t.fills == 5 && t.encoded == [0, 1, 2] && t.lost == 2
  {
    var s0 := Init();
    var s6, s10, s13;
    es, s6 := TwoAsk([], s0);
    es, s10 := LosesFirst(es, s6);
    es, s13 := LosesSecond(es, s10);
    es, t := Idles(es, s13);
  }
}
