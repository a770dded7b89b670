/**
 * The TCP half of lwIP's sequential API (api_msg): one connection, the requests that the tcpip thread
 * runs on it, and the callbacks that the TCP core makes into it.  Built without core locking, every
 * request is answered by one signal on the connection's op_completed semaphore.
 *
 * The functions of this module say what each handler does to a connection; class
 * NetconnHandlers.Connection runs the handlers in place and is proved to do exactly that.
 */
module Netconn {
  import opened Basics

  /* err.h */
  const ERR_OK := 0
  const ERR_MEM := -1
  const ERR_INPROGRESS := -5
  const ERR_VAL := -6
  const ERR_WOULDBLOCK := -7
  const ERR_ISCONN := -9
  const ERR_CLSD := -12
  const ERR_CONN := -13

  predicate Fatal(e: int) { e < ERR_ISCONN }

  const U16_MAX := 0xffff

  const SHUT_RDWR := 3

  datatype ConnState = NONE | WRITE | LISTEN | CONNECT | CLOSE

  /**
   * A request message.  `id` tells messages apart, as their addresses do in the source; `err` is what the
   * caller's message holds in its error field.
   */
  datatype ApiMsg =
    | WriteMsg(id: nat, data: seq<byte>, dontBlock: bool)
    | CloseMsg(id: nat, shut: nat, err: int)
    | OtherMsg(id: nat)

  /** One signal on op_completed: the message it answers, its error, and its length field. */
  datatype Done = Done(id: nat, err: int, len: nat)

  /**
   * A write request that has been answered: the caller's data, how many of its bytes tcp_write had
   * accepted, and the answer.  `cut` says that it was ended by the send timeout or in non-blocking mode.
   */
  datatype WriteRecord = WriteRecord(id: nat, data: seq<byte>, accepted: nat, err: int, len: nat, cut: bool)

  /**
   * `connecting` is the IN_NONBLOCKING_CONNECT flag.  The last five are history: the ids of the requests
   * taken, the requests themselves, the answers given, the bytes accepted by tcp_write, and the answered
   * writes.
   */
  datatype Conn = Conn(
    state: ConnState, current: Option<ApiMsg>, offset: nat, pcb: bool,
    nonBlocking: bool, connecting: bool, lastErr: int, signals: nat,
    received: multiset<nat>, asked: map<nat, ApiMsg>, done: seq<Done>, stream: seq<byte>, past: seq<WriteRecord>)

  /** What the TCP core answers during one writemore pass. */
  datatype Env = Env(timedOut: bool, sndbuf: nat, writeErr: int)

  datatype Event =
    | ReqWrite(m: ApiMsg, e: Env)
    | ReqClose(m: ApiMsg, tcpErr: int)
    | ReqDelete(m: ApiMsg, tcpErr: int)
    | ReqConnect(m: ApiMsg, tcpErr: int)
    | ReqListen(m: ApiMsg, lpcb: bool, mboxErr: int)
    | ReqOther(m: ApiMsg, err: int)
    | Sent(e: Env, tcpErr: int)
    | Poll(e: Env, tcpErr: int)
    | ErrCallback(err: int)
    | Connected(err: int)
    | SetNonBlocking(on: bool)

  function Init(pcb: bool): Conn {
    Conn(NONE, None, 0, pcb, false, false, ERR_OK, 0, multiset{}, map[], [], [], [])
  }

  // ----- handlers -----

  function Signal(c: Conn, d: Done): Conn {
    c.(done := c.done + [d], signals := c.signals + 1)
  }

  function Receive(c: Conn, m: ApiMsg): Conn {
    c.(received := c.received + multiset{m.id}, asked := c.asked[m.id := m])
  }

  /** The current write is over: `accepted` of its bytes went out. */
  function RecordWrite(c: Conn, accepted: nat, err: int, len: nat, cut: bool): Conn
    requires c.current.Some? && c.current.value.WriteMsg?
  {
    c.(past := c.past + [WriteRecord(c.current.value.id, c.current.value.data, accepted, err, len, cut)])
  }

  /** The tail of writemore: answer the current write and return to NONE. */
  function FinishWrite(c: Conn, accepted: nat, err: int, len: nat, cut: bool): Conn
    requires c.current.Some? && c.current.value.WriteMsg?
  {
    Signal(RecordWrite(c, accepted, err, len, cut).(current := None, state := NONE),
           Done(c.current.value.id, err, len))
  }

  function ChunkLen(c: Conn, e: Env): nat
    requires c.current.Some? && c.current.value.WriteMsg? && c.offset <= |c.current.value.data|
  {
    var diff := |c.current.value.data| - c.offset;
    var len := if diff > U16_MAX then U16_MAX else diff;
    if e.sndbuf < len then e.sndbuf else len
  }

  predicate DontBlock(c: Conn)
    requires c.current.Some? && c.current.value.WriteMsg?
  {
    c.nonBlocking || c.current.value.dontBlock
  }

  /** tcp_write took `len` more bytes of the current write. */
  function Accept(c: Conn, len: nat): Conn
    requires c.current.Some? && c.current.value.WriteMsg?
    requires c.offset + len <= |c.current.value.data|
  {
    c.(offset := c.offset + len, stream := c.stream + c.current.value.data[c.offset..c.offset + len])
  }

  ghost predicate CanWriteMore(c: Conn) {
    c.current.Some? && c.current.value.WriteMsg? && c.offset < |c.current.value.data|
  }

  /** The non-blocking pass that finds no room in the send buffer. */
  predicate NoRoom(c: Conn, e: Env)
    requires c.current.Some? && c.current.value.WriteMsg? && c.offset < |c.current.value.data|
  {
    DontBlock(c) && e.sndbuf == 0
  }

  function WriteMore(c: Conn, e: Env): (r: Conn)
    requires CanWriteMore(c)
    ensures r.received == c.received && r.asked == c.asked
  {
    if e.timedOut then
      if c.offset == 0 then FinishWrite(c, 0, ERR_WOULDBLOCK, 0, true)
      else FinishWrite(c.(offset := 0), c.offset, ERR_OK, c.offset, true)
    else if NoRoom(c, e) then
      FinishWrite(c, c.offset, ERR_WOULDBLOCK, 0, true)
    else if e.writeErr == ERR_OK then
      var d := Accept(c, ChunkLen(c, e));
      if d.offset == |c.current.value.data| || DontBlock(c)
      then FinishWrite(d.(offset := 0), d.offset, ERR_OK, d.offset, DontBlock(c))
      else d
    else if e.writeErr == ERR_MEM && !DontBlock(c) then c
    else FinishWrite(c, c.offset, e.writeErr, 0, DontBlock(c))
  }

  /** One attempt at tcp_close or tcp_shutdown; a failed attempt leaves the request pending. */
  function CloseInternal(c: Conn, tcpErr: int): (r: Conn)
    requires c.current.Some? && c.current.value.CloseMsg?
    ensures r.received == c.received && r.asked == c.asked
  {
    if tcpErr != ERR_OK then c
    else
      Signal(c.(current := None, state := NONE, pcb := c.pcb && c.current.value.shut != SHUT_RDWR),
             Done(c.current.value.id, ERR_OK, 0))
  }

  function MsgLen(m: ApiMsg): nat { if m.WriteMsg? then |m.data| else 0 }

  function Refuse(c: Conn, m: ApiMsg, err: int): Conn {
    Signal(c, Done(m.id, err, MsgLen(m)))
  }

  function DoWrite(c0: Conn, m: ApiMsg, e: Env): (r: Conn)
    requires m.WriteMsg? && m.data != []
    ensures r.received == c0.received + multiset{m.id} && r.asked == c0.asked[m.id := m]
  {
    var c := Receive(c0, m);
    if Fatal(c.lastErr) then Refuse(c, m, c.lastErr)
    else if c.state != NONE then Refuse(c, m, ERR_INPROGRESS)
    else if !c.pcb then Refuse(c, m, ERR_CONN)
    else WriteMore(c.(state := WRITE, current := Some(m), offset := 0), e)
  }

  function DoClose(c0: Conn, m: ApiMsg, tcpErr: int): (r: Conn)
    requires m.CloseMsg?
    ensures r.received == c0.received + multiset{m.id} && r.asked == c0.asked[m.id := m]
  {
    var c := Receive(c0, m);
    if c.state != NONE && c.state != LISTEN then Refuse(c, m, ERR_INPROGRESS)
    else if !c.pcb then Refuse(c, m, ERR_VAL)
    else if m.shut != SHUT_RDWR && c.state == LISTEN then Refuse(c, m, ERR_CONN)
    else CloseInternal(c.(state := CLOSE, current := Some(m)), tcpErr)
  }

  /** The delete handler turns the message into a close of both directions. */
  function DoDelconn(c0: Conn, m: ApiMsg, tcpErr: int): (r: Conn)
    requires m.CloseMsg?
    ensures r.received == c0.received + multiset{m.id} && r.asked == c0.asked[m.id := m]
  {
    var c := Receive(c0, m);
    if c.state != NONE && c.state != LISTEN && c.state != CONNECT then Refuse(c, m, ERR_INPROGRESS)
    else if !c.pcb then Refuse(c, m, m.err)   // the field is left as it was
    else CloseInternal(c.(state := CLOSE, current := Some(CloseMsg(m.id, SHUT_RDWR, m.err))), tcpErr)
  }

  function DoConnect(c0: Conn, m: ApiMsg, tcpErr: int): (r: Conn)
    ensures r.received == c0.received + multiset{m.id} && r.asked == c0.asked[m.id := m]
  {
    var c := Receive(c0, m);
    if !c.pcb then Refuse(c, m, ERR_CLSD)
    else if c.state != NONE then Refuse(c, m, ERR_ISCONN)
    else if tcpErr != ERR_OK then Refuse(c, m, tcpErr)
    else if c.nonBlocking then Refuse(c.(state := CONNECT, connecting := true), m, ERR_INPROGRESS)
    else c.(state := CONNECT, connecting := false, current := Some(m))
  }

  /** Listening replaces the pcb; it is lost when the accept mailbox cannot be created. */
  function DoListen(c0: Conn, m: ApiMsg, lpcb: bool, mboxErr: int): (r: Conn)
    ensures r.received == c0.received + multiset{m.id} && r.asked == c0.asked[m.id := m]
  {
    var c := Receive(c0, m);
    if Fatal(c.lastErr) then Refuse(c, m, c.lastErr)
    else if !c.pcb || c.state != NONE then Refuse(c, m, ERR_CONN)
    else if !lpcb then Refuse(c, m, ERR_MEM)
    else if mboxErr == ERR_OK then Refuse(c.(state := LISTEN), m, ERR_OK)
    else Refuse(c.(pcb := false), m, mboxErr)
  }

  /** sent_tcp and poll_tcp do the same to the request state. */
  function Progress(c: Conn, e: Env, tcpErr: int): (r: Conn)
    requires c.state == WRITE ==> CanWriteMore(c)
    requires c.state == CLOSE ==> c.current.Some? && c.current.value.CloseMsg?
    ensures r.received == c.received && r.asked == c.asked
  {
    if c.state == WRITE then WriteMore(c, e)
    else if c.state == CLOSE then CloseInternal(c, tcpErr)
    else c
  }

  function ErrTcp(c0: Conn, err: int): (r: Conn)
    requires c0.state in {WRITE, CLOSE, CONNECT} && !c0.connecting ==> c0.current.Some?
    requires c0.state == WRITE && c0.current.Some? ==> c0.current.value.WriteMsg?
    ensures r.received == c0.received && r.asked == c0.asked
  {
    var c := c0.(pcb := false, lastErr := err, state := NONE);
    if c0.state != WRITE && c0.state != CLOSE && c0.state != CONNECT then c
    else if c0.connecting then c.(connecting := false)
    else
      var m := c.current.value;
      if c0.state == WRITE then FinishWrite(c, c.offset, err, MsgLen(m), false)
      else Signal(c.(current := None), Done(m.id, err, MsgLen(m)))
  }

  function SafeErr(old_: int, err: int): int { if Fatal(old_) then old_ else err }

  function DoConnected(c: Conn, err: int): (r: Conn)
    requires c.connecting || c.current.Some?
    ensures r.received == c.received && r.asked == c.asked
  {
    var d := c.(connecting := false, current := None, state := NONE,
                lastErr := if c.connecting then SafeErr(c.lastErr, ERR_OK) else c.lastErr);
    if c.connecting then d else Signal(d, Done(c.current.value.id, err, 0))
  }

  // ----- what can happen next -----

  /** tcp_close cannot fail on a listening pcb nor on one whose handshake has not completed. */
  ghost predicate TcpCloseContract(c: Conn, tcpErr: int) {
    (c.state == LISTEN || c.connecting) ==> tcpErr == ERR_OK
  }

  ghost predicate Enabled(c: Conn, ev: Event) {
    match ev
    case ReqWrite(m, e) => m.id !in c.received && m.WriteMsg? && m.data != []
    case ReqClose(m, t) => m.id !in c.received && m.CloseMsg? && TcpCloseContract(c, t)
    case ReqDelete(m, t) =>
      // the handler's own assertion: no blocking connect is in progress
      && m.id !in c.received && m.CloseMsg? && TcpCloseContract(c, t)
      && (c.state == CONNECT ==> c.connecting)
    case ReqConnect(m, t) => m.id !in c.received && m.OtherMsg?
    case ReqListen(m, l, b) => m.id !in c.received && m.OtherMsg?
    case ReqOther(m, e) => m.id !in c.received && m.OtherMsg?
    case Sent(e, t) => c.pcb
    case Poll(e, t) => c.pcb
    case ErrCallback(e) => c.pcb && Fatal(e)
    case Connected(e) => c.pcb && c.state == CONNECT
    case SetNonBlocking(b) => true
  }

  /** The request that an event brings in, if it brings one. */
  function Brought(ev: Event): Option<ApiMsg> {
    match ev
    case ReqWrite(m, _) => Some(m)
    case ReqClose(m, _) => Some(m)
    case ReqDelete(m, _) => Some(m)
    case ReqConnect(m, _) => Some(m)
    case ReqListen(m, _, _) => Some(m)
    case ReqOther(m, _) => Some(m)
    case _ => None
  }

  function NewIds(ev: Event): multiset<nat> {
    if Brought(ev).Some? then multiset{Brought(ev).value.id} else multiset{}
  }

  function Step(c: Conn, ev: Event): (r: Conn)
    requires Inv(c) && Enabled(c, ev)
    ensures r.received == c.received + NewIds(ev)
  {
    match ev
    case ReqWrite(m, e) => DoWrite(c, m, e)
    case ReqClose(m, t) => DoClose(c, m, t)
    case ReqDelete(m, t) => DoDelconn(c, m, t)
    case ReqConnect(m, t) => DoConnect(c, m, t)
    case ReqListen(m, l, b) => DoListen(c, m, l, b)
    case ReqOther(m, e) => Refuse(Receive(c, m), m, e)
    case Sent(e, t) => Progress(c, e, t)
    case Poll(e, t) => Progress(c, e, t)
    case ErrCallback(e) => ErrTcp(c, e)
    case Connected(e) => DoConnected(c, e)
    case SetNonBlocking(b) => c.(nonBlocking := b)
  }

  // ----- the invariant -----

  function DoneIds(d: seq<Done>): multiset<nat> {
    if d == [] then multiset{} else DoneIds(d[..|d| - 1]) + multiset{d[|d| - 1].id}
  }

  function PendingIds(c: Conn): multiset<nat> {
    if c.current.Some? then multiset{c.current.value.id} else multiset{}
  }

  ghost predicate StateInv(c: Conn) {
    // a message is pending exactly in WRITE, CLOSE and a blocking CONNECT
    && (c.current.Some? <==> c.state == WRITE || c.state == CLOSE || (c.state == CONNECT && !c.connecting))
    && (c.state in {WRITE, CLOSE, CONNECT, LISTEN} ==> c.pcb)
    && (c.connecting ==> c.state == CONNECT || (c.state == NONE && !c.pcb))
    && (c.state == CLOSE ==> c.current.value.CloseMsg?)
    && (c.state == CONNECT && c.current.Some? ==> c.current.value.OtherMsg?)
    && (c.state == WRITE ==> CanWriteMore(c))
  }

  ghost predicate AccountInv(c: Conn) {
    && c.signals == |c.done|
    && c.received == DoneIds(c.done) + PendingIds(c)
  }

  ghost predicate RecordInv(r: WriteRecord, done: seq<Done>) {
    && Done(r.id, r.err, r.len) in done
    && r.accepted <= |r.data|
    && (r.err == ERR_OK ==> r.len == r.accepted)
    && (r.err == ERR_OK && !r.cut ==> r.accepted == |r.data|)
  }

  ghost predicate PastInv(past: seq<WriteRecord>, done: seq<Done>) {
    past == [] || (PastInv(past[..|past| - 1], done) && RecordInv(past[|past| - 1], done))
  }

  /** What the answered writes contributed to the stream, in order. */
  function Flat(past: seq<WriteRecord>): seq<byte> {
    if past == [] then []
    else
      var r := past[|past| - 1];
      Flat(past[..|past| - 1]) + r.data[..if r.accepted <= |r.data| then r.accepted else |r.data|]
  }

  /** What the write in progress has contributed so far. */
  function Partial(c: Conn): seq<byte>
    requires c.state == WRITE ==> CanWriteMore(c)
  {
    if c.state == WRITE then c.current.value.data[..c.offset] else []
  }

  ghost predicate Inv(c: Conn) {
    && StateInv(c)
    && AccountInv(c)
    && PastInv(c.past, c.done)
    && c.stream == Flat(c.past) + Partial(c)
  }
}
