/** The handlers as the tcpip thread runs them: one connection object, updated in place. */
module NetconnHandlers {
  import opened Basics
  import opened Netconn
  import NetconnProofs

  class Connection {
    var state: ConnState
    var currentMsg: Option<ApiMsg>
    var writeOffset: nat
    var pcbLive: bool
    var nonBlocking: bool
    var inNonBlockingConnect: bool
    var lastErr: int
    var opCompleted: nat

    // history, for the specification only
    ghost var received: multiset<nat>
    ghost var asked: map<nat, ApiMsg>
    ghost var done: seq<Done>
    ghost var stream: seq<byte>
    ghost var past: seq<WriteRecord>

    ghost function View(): Conn
      reads this
    {
      Conn(state, currentMsg, writeOffset, pcbLive, nonBlocking, inNonBlockingConnect, lastErr, opCompleted,
           received, asked, done, stream, past)
    }

    /** netconn_alloc, followed by the creation of the pcb. */
    constructor (pcb: bool)
      ensures View() == Init(pcb) && Inv(View())
    {
      state, currentMsg, writeOffset, pcbLive := NONE, None, 0, pcb;
      nonBlocking, inNonBlockingConnect, lastErr, opCompleted := false, false, ERR_OK, 0;
      received, asked, done, stream, past := multiset{}, map[], [], [], [];
    }

    /** sys_sem_signal(&conn->op_completed), answering `m` with `err` and the length field `len`. */
    method SignalDone(m: ApiMsg, err: int, len: nat)
      modifies this`opCompleted, this`done
      ensures View() == Signal(old(View()), Done(m.id, err, len))
    {
      opCompleted := opCompleted + 1;
      done := done + [Done(m.id, err, len)];
    }

    ghost method NoteReceived(m: ApiMsg)
      modifies this`received, this`asked
      ensures View() == Receive(old(View()), m)
    {
      received := received + multiset{m.id};
      asked := asked[m.id := m];
    }

    /** Answer the current write, of whose data `accepted` bytes went out. */
    method FinishWriteNow(accepted: nat, err: int, wlen: nat, ghost cut: bool)
      requires currentMsg.Some? && currentMsg.value.WriteMsg?
      modifies this
      ensures View() == FinishWrite(old(View()), accepted, err, wlen, cut)
    {
      var m := currentMsg.value;
      past := past + [WriteRecord(m.id, m.data, accepted, err, wlen, cut)];
      currentMsg := None;
      state := NONE;
      SignalDone(m, err, wlen);
    }

    /** The size of the next chunk, and the call to tcp_write, which takes all of it or none. */
    method TryWrite(e: Env, dontblock: bool) returns (err: int, len: nat)
      requires CanWriteMore(View()) && dontblock == DontBlock(View())
      modifies this`stream
      ensures len == ChunkLen(old(View()), e)
      ensures err == if NoRoom(old(View()), e) then ERR_WOULDBLOCK else e.writeErr
      ensures stream == if err == ERR_OK
        then old(stream) + currentMsg.value.data[writeOffset..writeOffset + len] else old(stream)
    {
      var m := currentMsg.value;
      len := |m.data| - writeOffset;
      if len > U16_MAX { len := U16_MAX; }
      var available := e.sndbuf;
      if available < len {
        len := available;
        if dontblock && len == 0 {
          return ERR_WOULDBLOCK, len;
        }
      }
      err := e.writeErr;
      if err == ERR_OK {
        stream := stream + m.data[writeOffset..writeOffset + len];
      }
    }

    method DoWriteMore(e: Env)
      requires CanWriteMore(View())
      modifies this
      ensures View() == WriteMore(old(View()), e)
    {
      var m := currentMsg.value;
      var dontblock := nonBlocking || m.dontBlock;
      var writeFinished := false;
      var err, wlen := ERR_OK, |m.data|;
      var accepted := writeOffset;
      ghost var cut := dontblock;
      if e.timedOut {
        writeFinished, cut := true, true;
        if writeOffset == 0 {
          err, wlen := ERR_WOULDBLOCK, 0;
        } else {
          wlen := writeOffset;
          writeOffset := 0;
        }
      } else {
        var len;
        err, len := TryWrite(e, dontblock);
        if err == ERR_OK {
          writeOffset := writeOffset + len;
          accepted := writeOffset;
          if writeOffset == |m.data| || dontblock {
            wlen := writeOffset;
            writeFinished := true;
            writeOffset := 0;
          }
        } else if err == ERR_MEM && !dontblock {
          // wait for sent_tcp or poll_tcp
        } else {
          writeFinished, wlen := true, 0;
        }
      }
      if writeFinished {
        FinishWriteNow(accepted, err, wlen, cut);
      }
    }

    method DoCloseInternal(tcpErr: int)
      requires currentMsg.Some? && currentMsg.value.CloseMsg?
      modifies this
      ensures View() == CloseInternal(old(View()), tcpErr)
    {
      var m := currentMsg.value;
      var close := m.shut == SHUT_RDWR;
      if tcpErr == ERR_OK {
        currentMsg := None;
        state := NONE;
        if close { pcbLive := false; }
        SignalDone(m, ERR_OK, 0);
      }
    }

    method DoWrite(m: ApiMsg, e: Env)
      requires m.WriteMsg? && m.data != []
      modifies this
      ensures View() == Netconn.DoWrite(old(View()), m, e)
    {
      NoteReceived(m);
      var err := ERR_OK;
      if Fatal(lastErr) {
        err := lastErr;
      } else if state != NONE {
        err := ERR_INPROGRESS;
      } else if pcbLive {
        state := WRITE;
        currentMsg := Some(m);
        writeOffset := 0;
        DoWriteMore(e);
        return;
      } else {
        err := ERR_CONN;
      }
      SignalDone(m, err, |m.data|);
    }

    method DoClose(m: ApiMsg, tcpErr: int)
      requires m.CloseMsg?
      modifies this
      ensures View() == Netconn.DoClose(old(View()), m, tcpErr)
    {
      NoteReceived(m);
      var err;
      if state != NONE && state != LISTEN {
        err := ERR_INPROGRESS;
      } else if pcbLive {
        if m.shut != SHUT_RDWR && state == LISTEN {
          err := ERR_CONN;
        } else {
          state := CLOSE;
          currentMsg := Some(m);
          DoCloseInternal(tcpErr);
          return;
        }
      } else {
        err := ERR_VAL;
      }
      SignalDone(m, err, 0);
    }

    method DoDelconn(m: ApiMsg, tcpErr: int)
      requires m.CloseMsg?
      modifies this
      ensures View() == Netconn.DoDelconn(old(View()), m, tcpErr)
    {
      NoteReceived(m);
      var err := m.err;
      if state != NONE && state != LISTEN && state != CONNECT {
        err := ERR_INPROGRESS;
      } else if pcbLive {
        state := CLOSE;
        currentMsg := Some(CloseMsg(m.id, SHUT_RDWR, m.err));
        DoCloseInternal(tcpErr);
        return;
      }
      SignalDone(m, err, 0);
    }

    method DoConnect(m: ApiMsg, tcpErr: int)
      modifies this
      ensures View() == Netconn.DoConnect(old(View()), m, tcpErr)
    {
      NoteReceived(m);
      var err;
      if !pcbLive {
        err := ERR_CLSD;
      } else if state != NONE {
        err := ERR_ISCONN;
      } else {
        err := tcpErr;
        if err == ERR_OK {
          state := CONNECT;
          inNonBlockingConnect := nonBlocking;
          if nonBlocking {
            err := ERR_INPROGRESS;
          } else {
            currentMsg := Some(m);
            return;
          }
        }
      }
      SignalDone(m, err, MsgLen(m));
    }

    /** `lpcb` says whether tcp_listen returned a pcb, `mboxErr` whether the accept mailbox was created. */
    method DoListen(m: ApiMsg, lpcb: bool, mboxErr: int)
      modifies this
      ensures View() == Netconn.DoListen(old(View()), m, lpcb, mboxErr)
    {
      NoteReceived(m);
      var err := ERR_CONN;
      if Fatal(lastErr) {
        err := lastErr;
      } else if pcbLive && state == NONE {
        if !lpcb {
          err := ERR_MEM;
        } else {
          err := mboxErr;
          if err == ERR_OK {
            state := LISTEN;
          } else {
            pcbLive := false;
          }
        }
      }
      SignalDone(m, err, MsgLen(m));
    }

    method ConnectedCallback(err: int)
      requires inNonBlockingConnect || currentMsg.Some?
      modifies this
      ensures View() == DoConnected(old(View()), err)
    {
      var m := currentMsg;
      var wasBlocking := !inNonBlockingConnect;
      inNonBlockingConnect := false;
      currentMsg := None;
      state := NONE;
      if !wasBlocking {
        if !Fatal(lastErr) { lastErr := ERR_OK; }
      }
      if wasBlocking {
        SignalDone(m.value, err, 0);
      }
    }

    method ErrCallback(err: int)
      requires Inv(View())
      modifies this
      ensures View() == ErrTcp(old(View()), err)
    {
      pcbLive := false;
      lastErr := err;
      var oldState := state;
      state := NONE;
      if oldState == WRITE || oldState == CLOSE || oldState == CONNECT {
        var wasNonBlockingConnect := inNonBlockingConnect;
        inNonBlockingConnect := false;
        if !wasNonBlockingConnect {
          var m := currentMsg.value;
          if oldState == WRITE {
            FinishWriteNow(writeOffset, err, MsgLen(m), false);
          } else {
            currentMsg := None;
            SignalDone(m, err, MsgLen(m));
          }
        }
      } else {
        assert currentMsg == None;
      }
    }

    /** sent_tcp and poll_tcp. */
    method ProgressCallback(e: Env, tcpErr: int)
      requires Inv(View()) && pcbLive
      modifies this
      ensures View() == Progress(old(View()), e, tcpErr) && Inv(View())
    {
      NetconnProofs.ProgressKeeps(View(), e, tcpErr);
      if state == WRITE {
        DoWriteMore(e);
      } else if state == CLOSE {
        DoCloseInternal(tcpErr);
      }
    }
  }
}
