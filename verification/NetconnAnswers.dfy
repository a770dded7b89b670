/**
 * What an answer to a write means: ERR_OK with a length n says that the first n bytes of the data went out,
 * whatever else was going on.
 */
module NetconnAnswers {
  import opened Basics
  import opened Netconn
  import opened NetconnProofs

  /** Among the answered writes is one with this id and these data, of which n bytes had been accepted. */
  predicate HasRecord(past: seq<WriteRecord>, id: nat, data: seq<byte>, n: nat) {
    past != [] && (
      var r := past[|past| - 1];
      (r.id == id && r.data == data && r.accepted == n) || HasRecord(past[..|past| - 1], id, data, n))
  }

  /** An answer is to a request that was made; ERR_OK to a write says how much of its data was accepted. */
  predicate AnswerInv(d: Done, asked: map<nat, ApiMsg>, past: seq<WriteRecord>) {
    && d.id in asked
    && (asked[d.id].WriteMsg? && d.err == ERR_OK ==> HasRecord(past, d.id, asked[d.id].data, d.len))
  }

  predicate AnswersInv(done: seq<Done>, asked: map<nat, ApiMsg>, past: seq<WriteRecord>) {
    done == [] || (AnswersInv(done[..|done| - 1], asked, past) && AnswerInv(done[|done| - 1], asked, past))
  }

  /** The pending request is one that was made, and a write exactly as it was made. */
  ghost predicate CurrentInv(c: Conn) {
    c.current.Some? ==>
      var m := c.current.value;
      m.id in c.asked && (m.WriteMsg? || c.asked[m.id].WriteMsg? ==> m == c.asked[m.id])
  }

  ghost predicate KnownInv(c: Conn) {
    && (forall id :: id in c.asked <==> id in c.received)
    && CurrentInv(c) && AnswersInv(c.done, c.asked, c.past)
  }

  // ----- growing histories -----

  lemma RecordStays(past: seq<WriteRecord>, r: WriteRecord, id: nat, data: seq<byte>, n: nat)
    requires HasRecord(past, id, data, n)
    ensures HasRecord(past + [r], id, data, n)
  {
    assert (past + [r])[..|past|] == past;
  }

  lemma {:induction false} AnswersStay(done: seq<Done>, asked: map<nat, ApiMsg>, past: seq<WriteRecord>, r: WriteRecord)
    requires AnswersInv(done, asked, past)
    ensures AnswersInv(done, asked, past + [r])
  {
    if done != [] {
      var d := done[|done| - 1];
      AnswersStay(done[..|done| - 1], asked, past, r);
      if asked[d.id].WriteMsg? && d.err == ERR_OK { RecordStays(past, r, d.id, asked[d.id].data, d.len); }
    }
  }

  lemma {:induction false} AnswersKnow(done: seq<Done>, asked: map<nat, ApiMsg>, past: seq<WriteRecord>, m: ApiMsg)
    requires AnswersInv(done, asked, past) && m.id !in asked
    ensures AnswersInv(done, asked[m.id := m], past)
  {
    if done != [] { AnswersKnow(done[..|done| - 1], asked, past, m); }
  }

  lemma AnswersAppend(done: seq<Done>, asked: map<nat, ApiMsg>, past: seq<WriteRecord>, x: Done)
    requires AnswersInv(done, asked, past) && AnswerInv(x, asked, past)
    ensures AnswersInv(done + [x], asked, past)
  {
    assert (done + [x])[..|done|] == done;
  }

  // ----- what handlers do -----

  lemma ReceiveKnown(c: Conn, m: ApiMsg)
    requires KnownInv(c) && m.id !in c.received
    ensures KnownInv(Receive(c, m)) && Receive(c, m).asked[m.id] == m
  {
    AnswersKnow(c.done, c.asked, c.past, m);
  }

  /** An answer to a request that is not a write, or with an error, needs no record. */
  lemma SignalKnown(c: Conn, d: Done)
    requires KnownInv(c) && d.id in c.asked && (c.asked[d.id].WriteMsg? ==> d.err != ERR_OK)
    ensures KnownInv(Signal(c, d))
  {
    AnswersAppend(c.done, c.asked, c.past, d);
  }

  lemma FinishKnown(c: Conn, accepted: nat, err: int, len: nat, cut: bool)
    requires KnownInv(c) && c.current.Some? && c.current.value.WriteMsg? && (err == ERR_OK ==> len == accepted)
    ensures KnownInv(FinishWrite(c, accepted, err, len, cut))
  {
    var m := c.current.value;
    var r, x := WriteRecord(m.id, m.data, accepted, err, len, cut), Done(m.id, err, len);
    AnswersStay(c.done, c.asked, c.past, r);
    AnswersAppend(c.done, c.asked, c.past + [r], x);
  }

  lemma PassKnown(c: Conn, e: Env)
    requires KnownInv(c) && CanWriteMore(c)
    ensures KnownInv(WriteMore(c, e))
  {
    if e.timedOut {
      if c.offset == 0 {
        FinishKnown(c, 0, ERR_WOULDBLOCK, 0, true);
      } else {
        FinishKnown(c.(offset := 0), c.offset, ERR_OK, c.offset, true);
      }
    } else if NoRoom(c, e) {
      FinishKnown(c, c.offset, ERR_WOULDBLOCK, 0, true);
    } else if e.writeErr == ERR_OK {
      var d := Accept(c, ChunkLen(c, e));
      if d.offset == |c.current.value.data| || DontBlock(c) {
        FinishKnown(d.(offset := 0), d.offset, ERR_OK, d.offset, DontBlock(c));
      }
    } else if !(e.writeErr == ERR_MEM && !DontBlock(c)) {
      FinishKnown(c, c.offset, e.writeErr, 0, DontBlock(c));
    }
  }

  lemma CloseKnown(c: Conn, tcpErr: int)
    requires KnownInv(c) && c.current.Some? && c.current.value.CloseMsg?
    ensures KnownInv(CloseInternal(c, tcpErr))
  {
    if tcpErr == ERR_OK {
      SignalKnown(c.(current := None, state := NONE, pcb := c.pcb && c.current.value.shut != SHUT_RDWR),
                  Done(c.current.value.id, ERR_OK, 0));
    }
  }

  lemma WriteKnown(c0: Conn, m: ApiMsg, e: Env)
    requires Inv(c0) && KnownInv(c0) && m.id !in c0.received && m.WriteMsg? && m.data != []
    ensures KnownInv(DoWrite(c0, m, e))
  {
    var c := Receive(c0, m);
    ReceiveKnown(c0, m);
    if Fatal(c.lastErr) || c.state != NONE || !c.pcb {
      var err := if Fatal(c.lastErr) then c.lastErr else if c.state != NONE then ERR_INPROGRESS else ERR_CONN;
      SignalKnown(c, Done(m.id, err, MsgLen(m)));
    } else {
      PassKnown(c.(state := WRITE, current := Some(m), offset := 0), e);
    }
  }

  lemma ClosesKnown(c0: Conn, m: ApiMsg, tcpErr: int)
    requires Inv(c0) && KnownInv(c0) && m.id !in c0.received && m.CloseMsg?
    ensures KnownInv(DoClose(c0, m, tcpErr))
  {
    var c := Receive(c0, m);
    ReceiveKnown(c0, m);
    if c.state != NONE && c.state != LISTEN {
      SignalKnown(c, Done(m.id, ERR_INPROGRESS, MsgLen(m)));
    } else if !c.pcb {
      SignalKnown(c, Done(m.id, ERR_VAL, MsgLen(m)));
    } else if m.shut != SHUT_RDWR && c.state == LISTEN {
      SignalKnown(c, Done(m.id, ERR_CONN, MsgLen(m)));
    } else {
      CloseKnown(c.(state := CLOSE, current := Some(m)), tcpErr);
    }
  }

  lemma DeletesKnown(c0: Conn, m: ApiMsg, tcpErr: int)
    requires Inv(c0) && KnownInv(c0) && m.id !in c0.received && m.CloseMsg?
    ensures KnownInv(DoDelconn(c0, m, tcpErr))
  {
    var c := Receive(c0, m);
    ReceiveKnown(c0, m);
    if c.state != NONE && c.state != LISTEN && c.state != CONNECT {
      SignalKnown(c, Done(m.id, ERR_INPROGRESS, MsgLen(m)));
    } else if !c.pcb {
      SignalKnown(c, Done(m.id, m.err, MsgLen(m)));
    } else {
      CloseKnown(c.(state := CLOSE, current := Some(CloseMsg(m.id, SHUT_RDWR, m.err))), tcpErr);
    }
  }

  lemma OthersKnown(c0: Conn, m: ApiMsg, x: Conn, err: int)
    requires Inv(c0) && KnownInv(c0) && m.id !in c0.received && m.OtherMsg?
    requires x == Receive(c0, m).(state := x.state, pcb := x.pcb, connecting := x.connecting)
    ensures KnownInv(Refuse(x, m, err))
  {
    ReceiveKnown(c0, m);
    SignalKnown(x, Done(m.id, err, MsgLen(m)));
  }

  lemma ConnectKnown(c0: Conn, m: ApiMsg, tcpErr: int)
    requires Inv(c0) && KnownInv(c0) && m.id !in c0.received && m.OtherMsg?
    ensures KnownInv(DoConnect(c0, m, tcpErr))
  {
    var c := Receive(c0, m);
    ReceiveKnown(c0, m);
    if !c.pcb {
      OthersKnown(c0, m, c, ERR_CLSD);
    } else if c.state != NONE {
      OthersKnown(c0, m, c, ERR_ISCONN);
    } else if tcpErr != ERR_OK {
      OthersKnown(c0, m, c, tcpErr);
    } else if c.nonBlocking {
      OthersKnown(c0, m, c.(state := CONNECT, connecting := true), ERR_INPROGRESS);
    }
  }

  lemma ListenKnown(c0: Conn, m: ApiMsg, lpcb: bool, mboxErr: int)
    requires Inv(c0) && KnownInv(c0) && m.id !in c0.received && m.OtherMsg?
    ensures KnownInv(DoListen(c0, m, lpcb, mboxErr))
  {
    var c := Receive(c0, m);
    if Fatal(c.lastErr) {
      OthersKnown(c0, m, c, c.lastErr);
    } else if !c.pcb || c.state != NONE {
      OthersKnown(c0, m, c, ERR_CONN);
    } else if !lpcb {
      OthersKnown(c0, m, c, ERR_MEM);
    } else if mboxErr == ERR_OK {
      OthersKnown(c0, m, c.(state := LISTEN), ERR_OK);
    } else {
      OthersKnown(c0, m, c.(pcb := false), mboxErr);
    }
  }

  lemma ProgressKnown(c: Conn, e: Env, tcpErr: int)
    requires Inv(c) && KnownInv(c)
    ensures KnownInv(Progress(c, e, tcpErr))
  {
    if c.state == WRITE { PassKnown(c, e); } else if c.state == CLOSE { CloseKnown(c, tcpErr); }
  }

  lemma ErrKnown(c0: Conn, err: int)
    requires Inv(c0) && KnownInv(c0) && Fatal(err)
    ensures KnownInv(ErrTcp(c0, err))
  {
    var c := c0.(pcb := false, lastErr := err, state := NONE);
    if c0.state == WRITE {
      FinishKnown(c, c.offset, err, MsgLen(c0.current.value), false);
    } else if c0.current.Some? {
      SignalKnown(c.(current := None), Done(c0.current.value.id, err, MsgLen(c0.current.value)));
    }
  }

  /** No write is pending while connecting, so a finished connect answers no write. */
  lemma ConnectedKnown(c: Conn, err: int)
    requires Inv(c) && KnownInv(c) && c.state == CONNECT
    ensures KnownInv(DoConnected(c, err))
  {
    if !c.connecting {
      SignalKnown(c.(current := None, state := NONE), Done(c.current.value.id, err, 0));
    }
  }

  lemma StepKnown(c: Conn, ev: Event)
    requires Inv(c) && KnownInv(c) && Enabled(c, ev)
    ensures KnownInv(Step(c, ev))
  {
    match ev
    case ReqWrite(m, e) => WriteKnown(c, m, e);
    case ReqClose(m, t) => ClosesKnown(c, m, t);
    case ReqDelete(m, t) => DeletesKnown(c, m, t);
    case ReqConnect(m, t) => ConnectKnown(c, m, t);
    case ReqListen(m, l, b) => ListenKnown(c, m, l, b);
    case ReqOther(m, e) => OthersKnown(c, m, Receive(c, m), e);
    case Sent(e, t) => ProgressKnown(c, e, t);
    case Poll(e, t) => ProgressKnown(c, e, t);
    case ErrCallback(e) => ErrKnown(c, e);
    case Connected(e) => ConnectedKnown(c, e);
    case SetNonBlocking(b) =>
  }

  // ----- whole runs -----

  lemma {:induction false} RunKnown(c: Conn, evs: seq<Event>)
    requires Inv(c) && KnownInv(c) && Legal(c, evs)
    ensures KnownInv(Run(c, evs))
    decreases |evs|
  {
    if evs != [] {
      StepKeeps(c, evs[0]);
      StepKnown(c, evs[0]);
      RunKnown(Step(c, evs[0]), evs[1..]);
    }
  }

  lemma {:induction false} AnswerAt(done: seq<Done>, asked: map<nat, ApiMsg>, past: seq<WriteRecord>, k: nat)
    requires AnswersInv(done, asked, past) && k < |done|
    ensures AnswerInv(done[k], asked, past)
  {
    if k < |done| - 1 { AnswerAt(done[..|done| - 1], asked, past, k); }
  }

  /** Where in the stream the bytes of an answered write are. */
  lemma {:induction false} RecordInStream(past: seq<WriteRecord>, done: seq<Done>, id: nat, data: seq<byte>, n: nat)
      returns (p: nat)
    requires PastInv(past, done) && HasRecord(past, id, data, n)
    ensures n <= |data| && p + n <= |Flat(past)| && Flat(past)[p..p + n] == data[..n]
  {
    var r, rest := past[|past| - 1], past[..|past| - 1];
    if r.id == id && r.data == data && r.accepted == n {
      p := |Flat(rest)|;
    } else {
      p := RecordInStream(rest, done, id, data, n);
      assert Flat(past)[..|Flat(rest)|] == Flat(rest);
      assert Flat(past)[p..p + n] == Flat(rest)[p..p + n];
    }
  }

  /** The bytes of an answered write, in a connection that satisfies the invariants. */
  lemma OkIsInStream(c: Conn, k: nat) returns (p: nat)
    requires Inv(c) && KnownInv(c) && k < |c.done|
    ensures c.done[k].id in c.asked && OkWritten(c.done[k], c.asked[c.done[k].id], c.stream, p)
    ensures AnswerInv(c.done[k], c.asked, c.past)
  {
    AnswerAt(c.done, c.asked, c.past, k);
    var d := c.done[k];
    p := 0;
    if c.asked[d.id].WriteMsg? && d.err == ERR_OK {
      p := RecordInStream(c.past, c.done, d.id, c.asked[d.id].data, d.len);
      assert c.stream[..|Flat(c.past)|] == Flat(c.past);
      assert c.stream[p..p + d.len] == Flat(c.past)[p..p + d.len];
    }
  }

  /** ERR_OK in answer to the write m means that its first `len` bytes lie in the stream, from p on. */
  ghost predicate OkWritten(d: Done, m: ApiMsg, stream: seq<byte>, p: nat) {
    m.WriteMsg? && d.err == ERR_OK ==>
      d.len <= |m.data| && p + d.len <= |stream| && stream[p..p + d.len] == m.data[..d.len]
  }

  /**
   * Over any run: whenever a write request has been answered with ERR_OK and a length n, the first n bytes of
   * the data it was made with are in the stream handed to TCP, and it is among the answered writes with n bytes
   * accepted.
   */
  lemma OkMeansWritten(pcb: bool, evs: seq<Event>, c: Conn, k: nat) returns (p: nat)
    requires Legal(Init(pcb), evs) && c == Run(Init(pcb), evs) && k < |c.done|
    ensures c.done[k].id in c.asked && OkWritten(c.done[k], c.asked[c.done[k].id], c.stream, p)
    ensures AnswerInv(c.done[k], c.asked, c.past)
  {
    RunKnown(Init(pcb), evs);
    p := OkIsInStream(c, k);
  }

  lemma StepAsks(c: Conn, ev: Event)
    requires Inv(c) && Enabled(c, ev)
    ensures Step(c, ev).asked ==
            if Brought(ev).Some? then c.asked[Brought(ev).value.id := Brought(ev).value] else c.asked
  {
  }

  lemma {:induction false} AskedStays(c: Conn, evs: seq<Event>, id: nat)
    requires Inv(c) && KnownInv(c) && Legal(c, evs) && id in c.asked
    ensures id in Run(c, evs).asked && Run(c, evs).asked[id] == c.asked[id]
    decreases |evs|
  {
    if evs != [] {
      StepKeeps(c, evs[0]);
      StepKnown(c, evs[0]);
      StepAsks(c, evs[0]);
      AskedStays(Step(c, evs[0]), evs[1..], id);
    }
  }

  /** What is remembered as asked is what the run's requests brought in. */
  lemma {:induction false} AskedIsBrought(c: Conn, evs: seq<Event>, k: nat)
    requires Inv(c) && KnownInv(c) && Legal(c, evs) && k < |evs| && Brought(evs[k]).Some?
    ensures var m := Brought(evs[k]).value; m.id in Run(c, evs).asked && Run(c, evs).asked[m.id] == m
    decreases |evs|
  {
    StepKeeps(c, evs[0]);
    StepKnown(c, evs[0]);
    StepAsks(c, evs[0]);
    if k == 0 {
      AskedStays(Step(c, evs[0]), evs[1..], Brought(evs[0]).value.id);
    } else {
      AskedIsBrought(Step(c, evs[0]), evs[1..], k - 1);
    }
  }
}
