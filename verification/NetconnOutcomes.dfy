/**
 * What the callers of the API and the TCP core can rely on, handler by handler: which requests are taken up,
 * which are answered at once and with what error, and what nothing touches.
 */
module NetconnOutcomes {
  import opened Basics
  import opened Netconn
  import opened NetconnProofs

  /** One more answer, and the semaphore signalled once for it. */
  predicate AnsweredWith(c: Conn, d: Conn, x: Done) {
    d.done == c.done + [x] && d.signals == c.signals + 1
  }

  /** The request state and what TCP was given are as before. */
  predicate Untouched(c: Conn, d: Conn) {
    && d.state == c.state && d.current == c.current && d.offset == c.offset && d.pcb == c.pcb
    && d.nonBlocking == c.nonBlocking && d.connecting == c.connecting && d.lastErr == c.lastErr
    && d.stream == c.stream && d.past == c.past
  }

  /** The request m is answered at once, and nothing else happens. */
  ghost predicate Rejected(c: Conn, d: Conn, m: ApiMsg, err: int) {
    Untouched(c, d) && exists x :: AnsweredWith(c, d, x) && x.id == m.id && x.err == err
  }

  /** Fatal errors are those from an abort on: ERR_ABRT, ERR_RST, ERR_CLSD, ERR_CONN and below. */
  lemma FatalExactly(e: int)
    ensures Fatal(e) <==> e <= -10
    ensures !Fatal(ERR_ISCONN) && !Fatal(ERR_WOULDBLOCK) && Fatal(ERR_CLSD) && Fatal(ERR_CONN)
  {
  }

  // ----- writing -----

  function Min(a: int, b: int): int { if a < b then a else b }

  /** How many bytes a pass hands over: as many as are left, fit in 16 bits and in the send buffer - or none. */
  function Handed(c: Conn, e: Env): int
    requires CanWriteMore(c)
  {
    if e.timedOut || e.writeErr != ERR_OK then 0
    else Min(|c.current.value.data| - c.offset, Min(0xffff, e.sndbuf))
  }

  /** A pass leaves the request pending if it may block and either memory is short or some data is left. */
  predicate StaysPending(c: Conn, e: Env)
    requires CanWriteMore(c)
  {
    && !e.timedOut && !c.nonBlocking && !c.current.value.dontBlock
    && (e.writeErr == ERR_MEM || (e.writeErr == ERR_OK && c.offset + Handed(c, e) < |c.current.value.data|))
  }

  /** The answer a pass gives, if it gives one. */
  function PassError(c: Conn, e: Env): int
    requires CanWriteMore(c)
  {
    if e.timedOut then if c.offset > 0 then ERR_OK else ERR_WOULDBLOCK
    else if e.sndbuf == 0 && (c.nonBlocking || c.current.value.dontBlock) then ERR_WOULDBLOCK
    else e.writeErr
  }

  lemma PassExactly(c: Conn, e: Env, d: Conn)
    requires Inv(c) && c.state == WRITE && d == WriteMore(c, e)
    ensures var m := c.current.value;
      && d.stream == c.stream + m.data[c.offset..c.offset + Handed(c, e)]
      && (d.state == WRITE <==> StaysPending(c, e))
      && (if StaysPending(c, e) then d == c.(offset := c.offset + Handed(c, e), stream := d.stream)
          else
            && d.state == NONE && d.current.None? && d.pcb == c.pcb && d.lastErr == c.lastErr
            && (var err := PassError(c, e);
                AnsweredWith(c, d, Done(m.id, err, if err == ERR_OK then c.offset + Handed(c, e) else 0))))
  {
    assert c.current.value.data[c.offset..c.offset] == [];
  }

  /**
   * An answered write is recorded with its data, what had been accepted, and whether it was cut short by the
   * timeout or could not block.
   */
  lemma RecordedExactly(c: Conn, e: Env, d: Conn)
    requires Inv(c) && c.state == WRITE && d == WriteMore(c, e) && !StaysPending(c, e)
    ensures var m, err := c.current.value, PassError(c, e);
      var n := c.offset + Handed(c, e);
      n >= 0 && d.past == c.past + [WriteRecord(m.id, m.data, n, err, if err == ERR_OK then n else 0,
                                               e.timedOut || c.nonBlocking || m.dontBlock)]
  {
  }

  /**
   * A write is taken up if and only if no fatal error is recorded, nothing else is running and there is a pcb;
   * then it is its own first pass.  Otherwise it is answered with an error.
   */
  lemma WriteExactly(c: Conn, m: ApiMsg, e: Env, d: Conn)
    requires Inv(c) && m.id !in c.received && m.WriteMsg? && m.data != [] && d == DoWrite(c, m, e)
    ensures if !Fatal(c.lastErr) && c.state == NONE && c.pcb
      then d == WriteMore(c.(state := WRITE, current := Some(m), offset := 0,
                             received := d.received, asked := d.asked), e)
      else Rejected(c, d, m, if Fatal(c.lastErr) then c.lastErr
                             else if c.state != NONE then ERR_INPROGRESS else ERR_CONN)
  {
    if Fatal(c.lastErr) || c.state != NONE || !c.pcb {
      assert AnsweredWith(c, d, d.done[|c.done|]);
    }
  }

  /** In particular, a write made while another request is unfinished fails, and hands nothing to TCP. */
  lemma BusyWriteFails(c: Conn, m: ApiMsg, e: Env, d: Conn)
    requires Inv(c) && m.id !in c.received && m.WriteMsg? && m.data != [] && d == DoWrite(c, m, e)
    requires c.state != NONE
    ensures d.stream == c.stream && exists x :: AnsweredWith(c, d, x) && x.id == m.id && x.err != ERR_OK
  {
    WriteExactly(c, m, e, d);
  }

  // ----- closing -----

  /**
   * A close that is under way stays pending until TCP accepts it; then it is answered with ERR_OK, and the pcb
   * is gone if both directions were closed.
   */
  lemma CloseExactly(c: Conn, tcpErr: int, d: Conn)
    requires c.current.Some? && c.current.value.CloseMsg? && d == CloseInternal(c, tcpErr)
    ensures if tcpErr != ERR_OK then d == c
      else
        && AnsweredWith(c, d, Done(c.current.value.id, ERR_OK, 0)) && d.state == NONE && d.current.None?
        && (d.pcb <==> c.pcb && c.current.value.shut != SHUT_RDWR)
        && d.stream == c.stream && d.past == c.past && d.lastErr == c.lastErr
  {
  }

  /** Which closes are taken up, and how the others are answered. */
  lemma CloseTakenExactly(c: Conn, m: ApiMsg, tcpErr: int, d: Conn)
    requires Inv(c) && m.id !in c.received && m.CloseMsg? && d == DoClose(c, m, tcpErr)
    ensures var idle := c.state == NONE || c.state == LISTEN;
      if idle && c.pcb && (m.shut == SHUT_RDWR || c.state == NONE)
      then d == CloseInternal(c.(state := CLOSE, current := Some(m), received := d.received, asked := d.asked), tcpErr)
      else Rejected(c, d, m, if !idle then ERR_INPROGRESS else if !c.pcb then ERR_VAL else ERR_CONN)
  {
    if (c.state != NONE && c.state != LISTEN) || !c.pcb || (m.shut != SHUT_RDWR && c.state == LISTEN) {
      assert AnsweredWith(c, d, d.done[|c.done|]);
    }
  }

  /** A delete becomes a close of both directions, unless a write or close is running or the pcb is gone. */
  lemma DeleteTakenExactly(c: Conn, m: ApiMsg, tcpErr: int, d: Conn)
    requires Inv(c) && m.id !in c.received && m.CloseMsg? && d == DoDelconn(c, m, tcpErr)
    ensures var busy := c.state == WRITE || c.state == CLOSE;
      if !busy && c.pcb
      then d == CloseInternal(c.(state := CLOSE, current := Some(m.(shut := SHUT_RDWR)),
                                 received := d.received, asked := d.asked), tcpErr)
      else Rejected(c, d, m, if busy then ERR_INPROGRESS else m.err)
  {
    if c.state == WRITE || c.state == CLOSE || !c.pcb {
      assert AnsweredWith(c, d, d.done[|c.done|]);
    }
  }

  // ----- connecting and listening -----

  /**
   * A connect that TCP accepts waits for the connection if it may block, and is answered ERR_INPROGRESS and
   * goes on by itself if not.
   */
  lemma ConnectExactly(c: Conn, m: ApiMsg, tcpErr: int, d: Conn)
    requires Inv(c) && m.id !in c.received && m.OtherMsg? && d == DoConnect(c, m, tcpErr)
    ensures if c.pcb && c.state == NONE && tcpErr == ERR_OK then
        && d.state == CONNECT && d.connecting == c.nonBlocking && d.pcb && d.stream == c.stream
        && (if c.nonBlocking then d.current.None? && AnsweredWith(c, d, Done(m.id, ERR_INPROGRESS, 0))
            else d.current == Some(m) && d.done == c.done)
      else Rejected(c, d, m, if !c.pcb then ERR_CLSD else if c.state != NONE then ERR_ISCONN else tcpErr)
  {
    if !(c.pcb && c.state == NONE && tcpErr == ERR_OK) {
      assert AnsweredWith(c, d, d.done[|c.done|]);
    }
  }

  /** The end of a connect: only a blocking one is answered, with the result; a fatal error is not forgotten. */
  lemma ConnectedExactly(c: Conn, err: int, d: Conn)
    requires Inv(c) && c.state == CONNECT && d == DoConnected(c, err)
    ensures d.state == NONE && d.current.None? && !d.connecting && d.pcb && d.stream == c.stream
    ensures c.connecting ==> d.done == c.done
    ensures !c.connecting ==> AnsweredWith(c, d, Done(c.current.value.id, err, 0))
    ensures d.lastErr == if c.connecting && !Fatal(c.lastErr) then ERR_OK else c.lastErr
  {
  }

  /** Listening succeeds with a listening pcb and an accept mailbox; without the mailbox the pcb is lost. */
  lemma ListenExactly(c: Conn, m: ApiMsg, lpcb: bool, mboxErr: int, d: Conn)
    requires Inv(c) && m.id !in c.received && m.OtherMsg? && d == DoListen(c, m, lpcb, mboxErr)
    ensures if !Fatal(c.lastErr) && c.pcb && c.state == NONE && lpcb then
        && AnsweredWith(c, d, Done(m.id, mboxErr, 0)) && d.stream == c.stream
        && (if mboxErr == ERR_OK then d.state == LISTEN && d.pcb else d.state == NONE && !d.pcb)
      else Rejected(c, d, m, if Fatal(c.lastErr) then c.lastErr
                             else if !c.pcb || c.state != NONE then ERR_CONN else ERR_MEM)
  {
    if Fatal(c.lastErr) || !c.pcb || c.state != NONE || !lpcb {
      assert AnsweredWith(c, d, d.done[|c.done|]);
    }
  }

  /** Changing the blocking mode changes nothing else; the request that is running sees the new mode. */
  lemma ModeExactly(c: Conn, on: bool)
    requires Inv(c)
    ensures Step(c, SetNonBlocking(on)) == c.(nonBlocking := on)
  {
  }

  // ----- errors -----

  /**
   * When TCP reports a fatal error, the pcb is gone, the error is remembered, and the pending request, if there
   * is one, is answered with it; a write is recorded with what had been accepted.
   */
  lemma ErrorExactly(c: Conn, err: int, d: Conn)
    requires Inv(c) && Fatal(err) && d == ErrTcp(c, err)
    ensures !d.pcb && d.lastErr == err && d.state == NONE && d.current.None? && d.stream == c.stream
    ensures if c.current.Some?
      then exists x :: AnsweredWith(c, d, x) && x.id == c.current.value.id && x.err == err
      else d.done == c.done && d.signals == c.signals
    ensures c.state == WRITE ==>
      |d.past| == |c.past| + 1 && d.past[|c.past|].accepted == c.offset && d.past[|c.past|].err == err
  {
    if c.current.Some? { assert AnsweredWith(c, d, d.done[|c.done|]); }
  }

  /** A pending close is finished by the first sent or poll callback at which TCP accepts it, and by no other. */
  lemma CallbackCloses(c: Conn, ev: Event, d: Conn)
    requires Inv(c) && Enabled(c, ev) && (ev.Sent? || ev.Poll?) && c.state == CLOSE && d == Step(c, ev)
    ensures if ev.tcpErr == ERR_OK then AnsweredWith(c, d, Done(c.current.value.id, ERR_OK, 0)) && d.state == NONE
      else d == c
  {
  }

  /** These callbacks do nothing when neither a write nor a close is waiting for them. */
  lemma IdleCallback(c: Conn, ev: Event)
    requires Inv(c) && Enabled(c, ev) && (ev.Sent? || ev.Poll?) && c.state != WRITE && c.state != CLOSE
    ensures Step(c, ev) == c
  {
  }
}
