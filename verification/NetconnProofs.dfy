/** What every handler keeps, and what therefore holds over every run of requests and callbacks. */
module NetconnProofs {
  import opened Basics
  import opened Netconn

  // ----- one handler at a time -----

  lemma DoneIdsAppend(d: seq<Done>, x: Done)
    ensures DoneIds(d + [x]) == DoneIds(d) + multiset{x.id}
  {
    assert (d + [x])[..|d|] == d;
  }

  lemma FlatAppend(past: seq<WriteRecord>, r: WriteRecord)
    requires r.accepted <= |r.data|
    ensures Flat(past + [r]) == Flat(past) + r.data[..r.accepted]
  {
    assert (past + [r])[..|past|] == past;
  }

  lemma {:induction false} PastMonotone(past: seq<WriteRecord>, done: seq<Done>, x: Done)
    requires PastInv(past, done)
    ensures PastInv(past, done + [x])
  {
    if past != [] { PastMonotone(past[..|past| - 1], done, x); }
  }

  /** Answering a request extends `done`; the answered writes stay accounted for. */
  lemma PastAppend(past: seq<WriteRecord>, r: WriteRecord, done: seq<Done>, x: Done)
    requires PastInv(past, done) && RecordInv(r, done + [x])
    ensures PastInv(past + [r], done + [x])
  {
    PastMonotone(past, done, x);
    assert (past + [r])[..|past|] == past;
  }

  lemma FinishWriteKeeps(c: Conn, accepted: nat, err: int, len: nat, cut: bool)
    requires c.current.Some? && c.current.value.WriteMsg? && !c.connecting
    requires AccountInv(c) && PastInv(c.past, c.done)
    requires accepted <= |c.current.value.data|
    requires c.stream == Flat(c.past) + c.current.value.data[..accepted]
    requires err == ERR_OK ==> len == accepted && (!cut ==> accepted == |c.current.value.data|)
    ensures Inv(FinishWrite(c, accepted, err, len, cut))
  {
    var m := c.current.value;
    var r, x := WriteRecord(m.id, m.data, accepted, err, len, cut), Done(m.id, err, len);
    DoneIdsAppend(c.done, x);
    FlatAppend(c.past, r);
    PastAppend(c.past, r, c.done, x);
  }

  lemma AcceptKeeps(c: Conn, len: nat)
    requires Inv(c) && c.state == WRITE
    requires c.offset + len <= |c.current.value.data|
    ensures Accept(c, len).stream == Flat(c.past) + c.current.value.data[..c.offset + len]
  {
    var data := c.current.value.data;
    assert data[..c.offset] + data[c.offset..c.offset + len] == data[..c.offset + len];
  }

  lemma WriteMoreKeeps(c: Conn, e: Env)
    requires Inv(c) && c.state == WRITE
    ensures Inv(WriteMore(c, e))
  {
    if e.timedOut {
      if c.offset == 0 {
        FinishWriteKeeps(c, 0, ERR_WOULDBLOCK, 0, true);
      } else {
        FinishWriteKeeps(c.(offset := 0), c.offset, ERR_OK, c.offset, true);
      }
    } else if NoRoom(c, e) {
      FinishWriteKeeps(c, c.offset, ERR_WOULDBLOCK, 0, true);
    } else if e.writeErr == ERR_OK {
      AcceptKeeps(c, ChunkLen(c, e));
      var d := Accept(c, ChunkLen(c, e));
      if d.offset == |c.current.value.data| || DontBlock(c) {
        FinishWriteKeeps(d.(offset := 0), d.offset, ERR_OK, d.offset, DontBlock(c));
      }
    } else if !(e.writeErr == ERR_MEM && !DontBlock(c)) {
      FinishWriteKeeps(c, c.offset, e.writeErr, 0, DontBlock(c));
    }
  }

  lemma RefuseKeeps(c: Conn, m: ApiMsg, err: int)
    requires StateInv(c) && c.signals == |c.done|
    requires PastInv(c.past, c.done) && c.stream == Flat(c.past) + Partial(c)
    requires c.received == DoneIds(c.done) + PendingIds(c) + multiset{m.id}
    ensures Inv(Refuse(c, m, err))
  {
    PastMonotone(c.past, c.done, Done(m.id, err, MsgLen(m)));
    DoneIdsAppend(c.done, Done(m.id, err, MsgLen(m)));
  }

  lemma CloseInternalKeeps(c: Conn, tcpErr: int)
    requires c.state == CLOSE && c.current.Some? && c.current.value.CloseMsg? && c.pcb
    requires c.connecting ==> c.current.value.shut == SHUT_RDWR && tcpErr == ERR_OK
    requires AccountInv(c) && PastInv(c.past, c.done) && c.stream == Flat(c.past)
    ensures Inv(CloseInternal(c, tcpErr))
  {
    PastMonotone(c.past, c.done, Done(c.current.value.id, ERR_OK, 0));
    DoneIdsAppend(c.done, Done(c.current.value.id, ERR_OK, 0));
  }

  lemma DoWriteKeeps(c0: Conn, m: ApiMsg, e: Env)
    requires Inv(c0) && m.WriteMsg? && m.data != []
    ensures Inv(DoWrite(c0, m, e))
  {
    var c := Receive(c0, m);
    if Fatal(c.lastErr) || c.state != NONE || !c.pcb {
      RefuseKeeps(c, m, if Fatal(c.lastErr) then c.lastErr else if c.state != NONE then ERR_INPROGRESS else ERR_CONN);
    } else {
      WriteMoreKeeps(c.(state := WRITE, current := Some(m), offset := 0), e);
    }
  }

  lemma ErrTcpOnWriteKeeps(c0: Conn, err: int)
    requires Inv(c0) && Fatal(err) && c0.state == WRITE
    ensures Inv(ErrTcp(c0, err))
  {
    var c := c0.(pcb := false, lastErr := err, state := NONE);
    assert ErrTcp(c0, err) == FinishWrite(c, c.offset, err, |c.current.value.data|, false);
    FinishWriteKeeps(c, c.offset, err, |c.current.value.data|, false);
  }

  lemma ErrTcpKeeps(c0: Conn, err: int)
    requires Inv(c0) && Fatal(err)
    ensures Inv(ErrTcp(c0, err))
  {
    if c0.state == WRITE {
      ErrTcpOnWriteKeeps(c0, err);
    } else if c0.current.Some? {
      ErrTcpOnOtherKeeps(c0, err);
    }
  }

  lemma ErrTcpOnOtherKeeps(c0: Conn, err: int)
    requires Inv(c0) && Fatal(err) && c0.state != WRITE && c0.current.Some?
    ensures Inv(ErrTcp(c0, err))
  {
    var c := c0.(pcb := false, lastErr := err, state := NONE, current := None);
    var x := Done(c0.current.value.id, err, MsgLen(c0.current.value));
    assert ErrTcp(c0, err) == Signal(c, x);
    DoneIdsAppend(c0.done, x);
    PastMonotone(c0.past, c0.done, x);
  }

  lemma DoConnectedKeeps(c: Conn, err: int)
    requires Inv(c) && c.state == CONNECT
    ensures Inv(DoConnected(c, err))
  {
    if !c.connecting {
      DoneIdsAppend(c.done, Done(c.current.value.id, err, 0));
      PastMonotone(c.past, c.done, Done(c.current.value.id, err, 0));
    }
  }

  /** A close or delete request that is taken up; `x` is the close it amounts to. */
  lemma BeginCloseKeeps(c: Conn, m: ApiMsg, x: ApiMsg, tcpErr: int)
    requires Inv(c) && c.pcb && c.current.None? && x.CloseMsg? && x.id == m.id
    requires c.connecting ==> x.shut == SHUT_RDWR && tcpErr == ERR_OK
    ensures Inv(CloseInternal(Receive(c, m).(state := CLOSE, current := Some(x)), tcpErr))
  {
    assert c.stream + [] == c.stream && Flat(c.past) + [] == Flat(c.past);
    CloseInternalKeeps(Receive(c, m).(state := CLOSE, current := Some(x)), tcpErr);
  }

  lemma DoCloseKeeps(c0: Conn, m: ApiMsg, tcpErr: int)
    requires Inv(c0) && m.CloseMsg? && TcpCloseContract(c0, tcpErr)
    ensures Inv(DoClose(c0, m, tcpErr))
  {
    var c := Receive(c0, m);
    if c.state != NONE && c.state != LISTEN {
      RefuseKeeps(c, m, ERR_INPROGRESS);
    } else if !c.pcb {
      RefuseKeeps(c, m, ERR_VAL);
    } else if m.shut != SHUT_RDWR && c.state == LISTEN {
      RefuseKeeps(c, m, ERR_CONN);
    } else {
      BeginCloseKeeps(c0, m, m, tcpErr);
    }
  }

  lemma DoDelconnKeeps(c0: Conn, m: ApiMsg, tcpErr: int)
    requires Inv(c0) && m.CloseMsg? && TcpCloseContract(c0, tcpErr)
    requires c0.state == CONNECT ==> c0.connecting
    ensures Inv(DoDelconn(c0, m, tcpErr))
  {
    var c := Receive(c0, m);
    if c.state == WRITE || c.state == CLOSE {
      RefuseKeeps(c, m, ERR_INPROGRESS);
    } else if !c.pcb {
      RefuseKeeps(c, m, m.err);
    } else {
      BeginCloseKeeps(c0, m, CloseMsg(m.id, SHUT_RDWR, m.err), tcpErr);
    }
  }

  lemma DoConnectKeeps(c0: Conn, m: ApiMsg, tcpErr: int)
    requires Inv(c0) && m.OtherMsg?
    ensures Inv(DoConnect(c0, m, tcpErr))
  {
    var c := Receive(c0, m);
    if !c.pcb {
      RefuseKeeps(c, m, ERR_CLSD);
    } else if c.state != NONE {
      RefuseKeeps(c, m, ERR_ISCONN);
    } else if tcpErr != ERR_OK {
      RefuseKeeps(c, m, tcpErr);
    } else if c.nonBlocking {
      RefuseKeeps(c.(state := CONNECT, connecting := true), m, ERR_INPROGRESS);
    }
  }

  lemma DoListenKeeps(c0: Conn, m: ApiMsg, lpcb: bool, mboxErr: int)
    requires Inv(c0)
    ensures Inv(DoListen(c0, m, lpcb, mboxErr))
  {
    var c := Receive(c0, m);
    if Fatal(c.lastErr) {
      RefuseKeeps(c, m, c.lastErr);
    } else if !c.pcb || c.state != NONE {
      RefuseKeeps(c, m, ERR_CONN);
    } else if !lpcb {
      RefuseKeeps(c, m, ERR_MEM);
    } else if mboxErr == ERR_OK {
      RefuseKeeps(c.(state := LISTEN), m, ERR_OK);
    } else {
      RefuseKeeps(c.(pcb := false), m, mboxErr);
    }
  }

  lemma ProgressKeeps(c: Conn, e: Env, tcpErr: int)
    requires Inv(c)
    ensures Inv(Progress(c, e, tcpErr))
  {
    if c.state == WRITE {
      WriteMoreKeeps(c, e);
    } else if c.state == CLOSE {
      CloseInternalKeeps(c, tcpErr);
    }
  }

  lemma RequestKeeps(c: Conn, ev: Event)
    requires Inv(c) && Enabled(c, ev) && Brought(ev).Some?
    ensures Inv(Step(c, ev))
  {
    match ev
    case ReqWrite(m, e) => DoWriteKeeps(c, m, e);
    case ReqClose(m, t) => DoCloseKeeps(c, m, t);
    case ReqDelete(m, t) => DoDelconnKeeps(c, m, t);
    case ReqConnect(m, t) => DoConnectKeeps(c, m, t);
    case ReqListen(m, l, b) => DoListenKeeps(c, m, l, b);
    case ReqOther(m, e) => RefuseKeeps(Receive(c, m), m, e);
  }

  lemma StepKeeps(c: Conn, ev: Event)
    requires Inv(c) && Enabled(c, ev)
    ensures Inv(Step(c, ev))
  {
    match ev
    case Sent(e, t) => ProgressKeeps(c, e, t);
    case Poll(e, t) => ProgressKeeps(c, e, t);
    case ErrCallback(e) => ErrTcpKeeps(c, e);
    case Connected(e) => DoConnectedKeeps(c, e);
    case SetNonBlocking(b) =>
    case _ => RequestKeeps(c, ev);
  }

  // ----- whole runs -----

  /** `evs` can happen one after the other from `c`. */
  ghost predicate Legal(c: Conn, evs: seq<Event>)
    requires Inv(c)
    decreases |evs|
  {
    evs == [] || (Enabled(c, evs[0]) && (StepKeeps(c, evs[0]); Legal(Step(c, evs[0]), evs[1..])))
  }

  ghost function Run(c: Conn, evs: seq<Event>): (r: Conn)
    requires Inv(c) && Legal(c, evs)
    ensures Inv(r)
    decreases |evs|
  {
    if evs == [] then c else StepKeeps(c, evs[0]); Run(Step(c, evs[0]), evs[1..])
  }

  function CountId(d: seq<Done>, id: nat): nat {
    if d == [] then 0 else CountId(d[..|d| - 1], id) + if d[|d| - 1].id == id then 1 else 0
  }

  lemma {:induction false} CountIsMultiplicity(d: seq<Done>, id: nat)
    ensures CountId(d, id) == DoneIds(d)[id]
  {
    if d != [] { CountIsMultiplicity(d[..|d| - 1], id); }
  }

  lemma {:induction false} DoneIdsSize(d: seq<Done>)
    ensures |DoneIds(d)| == |d|
  {
    if d != [] { DoneIdsSize(d[..|d| - 1]); }
  }

  /** No request is ever taken twice: ids are fresh in a legal run. */
  lemma {:induction false} ReceivedOnce(c: Conn, evs: seq<Event>, id: nat)
    requires Inv(c) && Legal(c, evs) && c.received[id] <= 1
    ensures Run(c, evs).received[id] <= 1
    decreases |evs|
  {
    if evs != [] {
      StepKeeps(c, evs[0]);
      ReceivedOnce(Step(c, evs[0]), evs[1..], id);
    }
  }

  /**
   * Whatever the order of requests and callbacks: the semaphore has been signalled once for every
   * request received, except the pending one; a request is answered at most once; and a request that
   * has been received is either the pending one or has been answered.
   */
  lemma EveryRequestAnsweredOnce(pcb: bool, evs: seq<Event>)
    requires Legal(Init(pcb), evs)
    ensures var c := Run(Init(pcb), evs);
      && c.signals == |c.received| - (if c.current.Some? then 1 else 0)
      && (c.current.Some? <==> c.state == WRITE || c.state == CLOSE || (c.state == CONNECT && !c.connecting))
      && (forall id :: CountId(c.done, id) <= 1)
      && (forall id :: id in c.received ==>
            (CountId(c.done, id) == 1 <==> !(c.current.Some? && c.current.value.id == id)))
  {
    var c := Run(Init(pcb), evs);
    DoneIdsSize(c.done);
    forall id: nat
      ensures CountId(c.done, id) <= 1
      ensures id in c.received ==>
        (CountId(c.done, id) == 1 <==> !(c.current.Some? && c.current.value.id == id))
    {
      ReceivedOnce(Init(pcb), evs, id);
      CountIsMultiplicity(c.done, id);
    }
  }

  /**
   * Over any run, the byte stream handed to tcp_write is the concatenation, in request order, of the
   * first `accepted` bytes of every answered write and the first `offset` bytes of the one in progress.
   * Every answered write has its answer among the signals; with ERR_OK it reports the number of bytes
   * accepted, and that is all of them unless it was timed out or non-blocking.
   */
  lemma StreamIsWhatWasWritten(pcb: bool, evs: seq<Event>, c: Conn)
    requires Legal(Init(pcb), evs) && c == Run(Init(pcb), evs)
    ensures c.stream == Flat(c.past) + (if c.state == WRITE then c.current.value.data[..c.offset] else [])
    ensures forall i :: 0 <= i < |c.past| ==> RecordInv(c.past[i], c.done)
  {
    forall i | 0 <= i < |c.past| ensures RecordInv(c.past[i], c.done) {
      PastHas(c.past, c.done, i);
    }
  }

  lemma {:induction false} PastHas(past: seq<WriteRecord>, done: seq<Done>, i: nat)
    requires PastInv(past, done) && i < |past|
    ensures RecordInv(past[i], done)
  {
    if i < |past| - 1 { PastHas(past[..|past| - 1], done, i); }
  }

  /**
   * One pass hands over the next `n` bytes of the data, at most the send buffer and at most 64K - 1 at a
   * time.  It either leaves the request pending just past them, or answers it: with ERR_OK and the total
   * accepted so far, or with another error, length 0 and no new bytes.
   */
  lemma WriteMoreIsExact(c: Conn, e: Env, d: Conn, n: int)
    requires Inv(c) && c.state == WRITE && d == WriteMore(c, e) && n == |d.stream| - |c.stream|
    ensures 0 <= n <= U16_MAX && c.offset + n <= |c.current.value.data| && (n > 0 ==> n <= e.sndbuf)
    ensures d.stream == c.stream + c.current.value.data[c.offset..c.offset + n]
    ensures d.state == WRITE ==> d.offset == c.offset + n && d.current == c.current && d.done == c.done
    ensures d.state != WRITE ==> d.state == NONE && exists x ::
      && d.done == c.done + [x] && x.id == c.current.value.id
      && (if x.err == ERR_OK then x.len == c.offset + n else x.len == 0 && n == 0)
  {
    var m := c.current.value;
    if e.timedOut {
      assert d.done == c.done + [if c.offset == 0 then Done(m.id, ERR_WOULDBLOCK, 0) else Done(m.id, ERR_OK, c.offset)];
    } else if NoRoom(c, e) {
      assert d.done == c.done + [Done(m.id, ERR_WOULDBLOCK, 0)];
    } else if e.writeErr == ERR_OK {
      var d1 := Accept(c, ChunkLen(c, e));
      assert n == ChunkLen(c, e);
      assert d.state != WRITE ==> d.done == c.done + [Done(m.id, ERR_OK, d1.offset)];
    } else {
      assert d.state != WRITE ==> d.done == c.done + [Done(m.id, e.writeErr, 0)];
    }
  }

  /**
   * A write that ends with an error other than a retried ERR_MEM reports length 0 and does not reset
   * write_offset, so "no request is running, hence the offset is 0" holds after a pass exactly when that
   * pass did not end on the error branch with bytes already accepted.
   */
  lemma OffsetResetExactly(c: Conn, e: Env)
    requires Inv(c) && c.state == WRITE
    ensures var d := WriteMore(c, e);
      d.state == NONE ==>
        (d.offset == 0 <==>
          c.offset == 0 || e.timedOut || (!NoRoom(c, e) && e.writeErr == ERR_OK))
  {
  }

  lemma RunCons(c: Conn, a: Event, d: Conn, evs: seq<Event>)
    requires Inv(c) && Enabled(c, a) && d == Step(c, a) && Inv(d) && Legal(d, evs)
    ensures Legal(c, [a] + evs) && Run(c, [a] + evs) == Run(d, evs)
  {
    assert ([a] + evs)[1..] == evs && ([a] + evs)[0] == a;
  }

  lemma TwoBytesGo(m: ApiMsg, a: Event, c1: Conn)
    requires m == WriteMsg(7, [1, 2, 3, 4], false) && a == ReqWrite(m, Env(false, 2, ERR_OK))
    requires c1 == Step(Init(true), a)
    ensures c1.offset == 2 && c1.state == WRITE && c1.current == Some(m) && c1.done == []
    ensures !c1.nonBlocking && c1.pcb && Inv(c1)
  {
    StepKeeps(Init(true), a);
  }

  lemma RestIsRefused(c1: Conn, m: ApiMsg, b: Event)
    requires Inv(c1) && c1.offset == 2 && c1.state == WRITE && c1.current == Some(m) && c1.done == []
    requires !c1.nonBlocking && c1.pcb && m == WriteMsg(7, [1, 2, 3, 4], false)
    requires b == Poll(Env(false, 2, ERR_CONN), ERR_OK)
    ensures var c2 := Step(c1, b); c2.state == NONE && c2.offset == 2 && c2.done == [Done(7, ERR_CONN, 0)]
  {
    assert WriteMore(c1, b.e) == FinishWrite(c1, 2, ERR_CONN, 0, false);
  }

  /** Such a run exists: two bytes of four accepted, then the connection refuses the rest. */
  lemma StaleOffsetReachable(m: ApiMsg, a: Event, b: Event)
    requires m == WriteMsg(7, [1, 2, 3, 4], false)
    requires a == ReqWrite(m, Env(false, 2, ERR_OK)) && b == Poll(Env(false, 2, ERR_CONN), ERR_OK)
    ensures Legal(Init(true), [a, b])
    ensures var c := Run(Init(true), [a, b]);
      c.state == NONE && c.offset == 2 && c.done == [Done(7, ERR_CONN, 0)]
  {
    var c1 := Step(Init(true), a);
    TwoBytesGo(m, a, c1);
    var c2 := Step(c1, b);
    RestIsRefused(c1, m, b);
    StepKeeps(c1, b);
    RunCons(c1, b, c2, []);
    RunCons(Init(true), a, c1, [b]);
    assert [b] + [] == [b] && [a] + [b] == [a, b];
  }

  // ----- after the pcb is gone -----

  /** Nothing more is handed to TCP, nothing is pending, and the last error is not forgotten. */
  ghost predicate Dead(c: Conn, d: Conn) {
    && !d.pcb && d.state == NONE && d.current.None?
    && d.stream == c.stream && d.past == c.past && d.lastErr == c.lastErr
  }

  /**
   * A dead connection answers every write, close, connect and listen with an error, which for a write is the
   * fatal one that it died of, if any; a delete is answered too, its error field left as the caller set it.
   */
  lemma DeadRefuses(c: Conn, ev: Event)
    requires Inv(c) && Enabled(c, ev) && !c.pcb
    ensures Dead(c, Step(c, ev))
    ensures ev.ReqWrite? || ev.ReqClose? || ev.ReqConnect? || ev.ReqListen? ==>
      exists x :: Step(c, ev).done == c.done + [x] && x.id == ev.m.id && x.err != ERR_OK
        && (ev.ReqWrite? && Fatal(c.lastErr) ==> x.err == c.lastErr)
    ensures ev.ReqDelete? ==> Step(c, ev).done == c.done + [Done(ev.m.id, ev.m.err, 0)]
  {
    var d := Step(c, ev);
    assert |d.done| > |c.done| ==> d.done == c.done + [d.done[|c.done|]];
  }

  /** Closed, deleted, aborted, or failed in listen, a connection stays dead through any further run. */
  lemma {:induction false} DeadStaysDead(c: Conn, evs: seq<Event>)
    requires Inv(c) && !c.pcb && Legal(c, evs)
    ensures Dead(c, Run(c, evs))
    decreases |evs|
  {
    if evs != [] {
      DeadRefuses(c, evs[0]);
      StepKeeps(c, evs[0]);
      DeadStaysDead(Step(c, evs[0]), evs[1..]);
    }
  }

  // ----- a blocking write gets done -----

  /** Callbacks in which tcp_write takes the chunk or is out of memory, and the request is not timed out. */
  predicate Passes(evs: seq<Event>) {
    evs == [] || (
      && (evs[0].Sent? || evs[0].Poll?) && !evs[0].e.timedOut && evs[0].e.writeErr in {ERR_OK, ERR_MEM}
      && Passes(evs[1..]))
  }

  /** How many of them find room and memory. */
  function Good(evs: seq<Event>): nat
    requires Passes(evs)
  {
    if evs == [] then 0 else (if evs[0].e.writeErr == ERR_OK && evs[0].e.sndbuf > 0 then 1 else 0) + Good(evs[1..])
  }

  lemma {:induction false} IdlePasses(c: Conn, evs: seq<Event>)
    requires Inv(c) && c.state == NONE && Passes(evs) && Legal(c, evs)
    ensures Run(c, evs) == c
    decreases |evs|
  {
    if evs != [] {
      StepKeeps(c, evs[0]);
      IdlePasses(c, evs[1..]);
    }
  }

  /** The rest of m's data, from `offset` on, has gone out since `stream`, and m has been answered so. */
  ghost predicate Written(m: ApiMsg, offset: nat, stream: seq<byte>, d: Conn)
    requires m.WriteMsg? && offset <= |m.data|
  {
    d.state == NONE && Done(m.id, ERR_OK, |m.data|) in d.done && d.stream == stream + m.data[offset..]
  }

  /** The write is still pending, `offset` of its bytes having become d.offset. */
  ghost predicate Further(m: ApiMsg, offset: nat, stream: seq<byte>, d: Conn)
    requires m.WriteMsg? && offset <= |m.data|
  {
    && d.state == WRITE && d.current == Some(m) && !DontBlock(d) && offset <= d.offset <= |m.data|
    && d.stream == stream + m.data[offset..d.offset]
  }

  lemma OnePass(c: Conn, ev: Event, m: ApiMsg, d: Conn)
    requires Inv(c) && c.state == WRITE && c.current == Some(m) && !DontBlock(c)
    requires Passes([ev]) && Enabled(c, ev) && d == Step(c, ev)
    ensures Written(m, c.offset, c.stream, d)
      || (Further(m, c.offset, c.stream, d) && (ev.e.writeErr == ERR_OK && ev.e.sndbuf > 0 ==> c.offset < d.offset))
  {
    if ev.e.writeErr == ERR_OK {
      var n := ChunkLen(c, ev.e);
      if c.offset + n == |m.data| {
        assert m.data[c.offset..c.offset + n] == m.data[c.offset..];
        assert d.done == c.done + [Done(m.id, ERR_OK, |m.data|)];
      }
    } else {
      assert m.data[c.offset..c.offset] == [];
    }
  }

  lemma WrittenAfter(m: ApiMsg, offset: nat, stream: seq<byte>, d: Conn, r: Conn)
    requires m.WriteMsg? && offset <= |m.data| && Further(m, offset, stream, d) && Written(m, d.offset, d.stream, r)
    ensures Written(m, offset, stream, r)
  {
    assert m.data[offset..] == m.data[offset..d.offset] + m.data[d.offset..];
  }

  lemma PassesCons(evs: seq<Event>)
    requires Passes(evs) && evs != []
    ensures Passes([evs[0]]) && Passes(evs[1..])
    ensures Good(evs) == Good(evs[1..]) + if evs[0].e.writeErr == ERR_OK && evs[0].e.sndbuf > 0 then 1 else 0
  {
    assert [evs[0]][1..] == [];
  }

  /**
   * A blocking write is answered ERR_OK with its full length, all its bytes handed over, after at most as
   * many callbacks that find room and memory as it has bytes left, however many others come in between.
   */
  lemma {:induction false} BlockingWriteCompletes(c: Conn, evs: seq<Event>, m: ApiMsg)
    requires Inv(c) && c.state == WRITE && c.current == Some(m) && !DontBlock(c)
    requires Passes(evs) && Legal(c, evs) && Good(evs) >= |m.data| - c.offset
    ensures Written(m, c.offset, c.stream, Run(c, evs))
    decreases |evs|
  {
    var d := Step(c, evs[0]);
    StepKeeps(c, evs[0]);
    PassesCons(evs);
    OnePass(c, evs[0], m, d);
    if Written(m, c.offset, c.stream, d) {
      IdlePasses(d, evs[1..]);
    } else {
      BlockingWriteCompletes(d, evs[1..], m);
      WrittenAfter(m, c.offset, c.stream, d, Run(d, evs[1..]));
    }
  }

  /**
   * Why tcp_close must not fail on an unfinished non-blocking connect: with the flag still set, the error
   * callback answers the pending close if and only if the flag is clear.
   */
  lemma ErrCallbackAnswersUnlessConnecting(c: Conn, err: int)
    requires c.current.Some? && c.state in {WRITE, CLOSE, CONNECT}
    requires c.state == WRITE ==> c.current.value.WriteMsg?
    ensures (ErrTcp(c, err).signals == c.signals + 1) <==> !c.connecting
    ensures ErrTcp(c, err).current.None? <==> !c.connecting
  {
  }
}
