/**
 * The message manager: a pool of fixed-size slots and an OS queue of slot pointers.  A send runs under
 * the scheduler lock and is one step.  A receive is several steps, and sends may come between any two of
 * them: pop the pointer, take the semaphore, read the id, copy the payload byte by byte, free the slot,
 * give the semaphore back.
 */
module MsgQueue {
  import opened Basics

  const OS_Q_FULL := 30

  /** Where a receiver is between its pop and its return. */
  datatype Pc = AtLock | AtRead | AtCopy | AtFree | AtUnlock

  /** A receiver's local variables: its slot, the size it asked for, whether it passed a buffer, its copies. */
  datatype Recv = Recv(slot: nat, want: nat, buf: bool, pc: Pc, id: nat, got: seq<byte>)

  /** What a receive returned: `want` and `buf` are what it asked for, `got` what it copied. */
  datatype Delivery = Delivery(reader: nat, id: nat, want: nat, buf: bool, got: seq<byte>)

  /** Where a slot is; a lost slot is neither free nor reachable by anyone. */
  datatype Place = IsFree | Queued | HeldBy(r: nat) | Lost

  /**
   * `cap` is maxQSize and `len` the rounded maxMsgLength; a slot is free when its id is 0.  `place` and
   * `delivered` are history: where each slot is, and what receives have returned.
   */
  datatype Q = Q(cap: nat, len: nat, ids: seq<nat>, bodies: seq<seq<byte>>, queue: seq<nat>,
                 held: map<nat, Recv>, sem: Option<nat>, place: seq<Place>, delivered: seq<Delivery>)

  datatype Event =
    | Send(id: nat, payload: seq<byte>, urgent: bool)
    | Pop(r: nat, want: nat, buf: bool)
    | Lock(r: nat)
    | ReadId(r: nat)
    | CopyByte(r: nat)
    | Free(r: nat)
    | Unlock(r: nat)
    | Flush

  /** maxMsgLength rounded up to whole words. */
  function RoundUp(n: nat): (r: nat)
    ensures r % 4 == 0 && n <= r < n + 4
  {
    (n + 3) / 4 * 4
  }

  function Zeros(n: nat): (z: seq<byte>)
    ensures |z| == n
  {
    seq(n, j => 0)
  }

  function Create(maxQSize: nat, maxMsgs: nat, maxMsgLength: nat): Q {
    var len := RoundUp(maxMsgLength);
    Q(maxQSize, len, seq(maxMsgs, i => 0), seq(maxMsgs, i => Zeros(len)), [], map[], None,
      seq(maxMsgs, i => IsFree), [])
  }

  // ----- steps -----

  /** The index of the first free slot, or the number of slots. */
  function FirstFree(ids: seq<nat>): (i: nat)
    ensures i <= |ids|
    ensures i < |ids| ==> ids[i] == 0
    ensures forall k :: 0 <= k < i ==> ids[k] != 0
  {
    if ids == [] || ids[0] == 0 then 0 else 1 + FirstFree(ids[1..])
  }

  predicate Shape(q: Q) {
    |q.bodies| == |q.ids| == |q.place| && forall i :: 0 <= i < |q.bodies| ==> |q.bodies[i]| == q.len
  }

  /** msgQSend's result; a failed post is reported by the OS error code, which is positive. */
  function SendResult(q: Q, payload: seq<byte>): int {
    if |payload| > q.len || FirstFree(q.ids) == |q.ids| then -1
    else if |q.queue| < q.cap then 0
    else OS_Q_FULL
  }

  function DoSend(q: Q, id: nat, payload: seq<byte>, urgent: bool): (r: Q)
    requires Shape(q)
    ensures Shape(r)
  {
    var i := FirstFree(q.ids);
    if |payload| > q.len || i == |q.ids| then q
    else
      var w := q.(ids := q.ids[i := id], bodies := q.bodies[i := payload + q.bodies[i][|payload|..]]);
      if |q.queue| < q.cap then
        w.(queue := if urgent then [i] + q.queue else q.queue + [i], place := q.place[i := Queued])
      else if id == 0 then w
      else w.(place := q.place[i := Lost])
  }

  function DoPop(q: Q, r: nat, want: nat, buf: bool): Q
    requires Shape(q) && q.queue != [] && q.queue[0] < |q.ids|
  {
    q.(queue := q.queue[1..], held := q.held[r := Recv(q.queue[0], want, buf, AtLock, 0, [])],
       place := q.place[q.queue[0] := HeldBy(r)])
  }

  /** A receive that asks for more than a slot holds fails here, with its message already popped. */
  function DoLock(q: Q, r: nat): Q
    requires Shape(q) && r in q.held && q.held[r].slot < |q.ids|
  {
    if q.held[r].want > q.len then q.(held := q.held - {r}, place := q.place[q.held[r].slot := Lost])
    else q.(sem := Some(r), held := q.held[r := q.held[r].(pc := AtRead)])
  }

  function DoReadId(q: Q, r: nat): Q
    requires r in q.held && q.held[r].slot < |q.ids|
  {
    var h := q.held[r];
    q.(held := q.held[r := h.(id := q.ids[h.slot], pc := if h.want > 0 && h.buf then AtCopy else AtFree)])
  }

  function DoCopyByte(q: Q, r: nat): Q
    requires Shape(q) && r in q.held && q.held[r].slot < |q.ids| && |q.held[r].got| < q.held[r].want <= q.len
  {
    var h := q.held[r];
    var got := h.got + [q.bodies[h.slot][|h.got|]];
    q.(held := q.held[r := h.(got := got, pc := if |got| == h.want then AtFree else AtCopy)])
  }

  function DoFree(q: Q, r: nat): Q
    requires Shape(q) && r in q.held && q.held[r].slot < |q.ids|
  {
    var h := q.held[r];
    q.(ids := q.ids[h.slot := 0], held := q.held[r := h.(pc := AtUnlock)], place := q.place[h.slot := IsFree],
       delivered := q.delivered + [Delivery(r, h.id, h.want, h.buf, h.got)])
  }

  function DoUnlock(q: Q, r: nat): Q {
    q.(sem := None, held := q.held - {r})
  }

  function DoFlush(q: Q): (f: Q)
    ensures Shape(f)
  {
    q.(queue := [], ids := seq(|q.ids|, i => 0), bodies := seq(|q.ids|, i => Zeros(q.len)),
       place := seq(|q.ids|, i => IsFree))
  }

  // ----- the invariant -----

  /** r has popped a slot and not yet freed it. */
  predicate Holding(q: Q, r: nat) {
    r in q.held && q.held[r].pc != AtUnlock
  }

  ghost predicate Distinct(s: seq<nat>) {
    forall j, k :: 0 <= j < k < |s| ==> s[j] != s[k]
  }

  ghost predicate QueueInv(q: Q) {
    && |q.queue| <= q.cap && Distinct(q.queue)
    && (forall k :: 0 <= k < |q.queue| ==> q.queue[k] < |q.place| && q.place[q.queue[k]] == Queued)
    && (forall i :: 0 <= i < |q.place| && q.place[i] == Queued ==> i in q.queue)
  }

  /** What a receiver's own variables say at each point of the code. */
  predicate LocalInv(q: Q, h: Recv) {
    && (h.pc in {AtLock, AtRead} ==> h.got == [])
    && (h.pc in {AtRead, AtCopy, AtFree} ==> h.want <= q.len)
    && (h.pc == AtCopy ==> h.buf && |h.got| < h.want)
    && (h.pc == AtFree ==> |h.got| == if h.buf then h.want else 0)
  }

  ghost predicate HeldInv(q: Q) {
    && (forall r :: r in q.held ==> LocalInv(q, q.held[r]) && (q.held[r].pc == AtLock <==> q.sem != Some(r)))
    && (q.sem.Some? ==> q.sem.value in q.held)
    && (forall r :: Holding(q, r) ==> q.held[r].slot < |q.place| && q.place[q.held[r].slot] == HeldBy(r))
  }

  /** A slot's id says whether it is free; a held slot has a holder. */
  ghost predicate PlaceInv(q: Q)
    requires Shape(q)
  {
    forall i :: 0 <= i < |q.place| ==>
      && (q.place[i] == IsFree <==> q.ids[i] == 0)
      && (q.place[i].HeldBy? ==> Holding(q, q.place[i].r) && q.held[q.place[i].r].slot == i)
  }

  ghost predicate Inv(q: Q) {
    Shape(q) && QueueInv(q) && HeldInv(q) && PlaceInv(q)
  }

  ghost predicate Enabled(q: Q, e: Event) {
    match e
    case Send(id, _, _) => id != 0
    case Pop(r, _, _) => q.queue != [] && r !in q.held
    case Lock(r) => q.sem.None? && r in q.held && q.held[r].pc == AtLock
    case ReadId(r) => r in q.held && q.held[r].pc == AtRead
    case CopyByte(r) => r in q.held && q.held[r].pc == AtCopy
    case Free(r) => r in q.held && q.held[r].pc == AtFree
    case Unlock(r) => r in q.held && q.held[r].pc == AtUnlock
    case Flush => q.sem.None? && q.held == map[]
  }

  ghost function Step(q: Q, e: Event): Q
    requires Inv(q) && Enabled(q, e)
  {
    assert forall r :: r in q.held && q.held[r].pc != AtUnlock ==> Holding(q, r);
    match e
    case Send(id, p, u) => DoSend(q, id, p, u)
    case Pop(r, w, b) => DoPop(q, r, w, b)
    case Lock(r) => DoLock(q, r)
    case ReadId(r) => DoReadId(q, r)
    case CopyByte(r) => DoCopyByte(q, r)
    case Free(r) => DoFree(q, r)
    case Unlock(r) => DoUnlock(q, r)
    case Flush => DoFlush(q)
  }

  // ----- each step keeps it -----

  lemma PostKeepsQueue(q: Q, id: nat, payload: seq<byte>, urgent: bool)
    requires Inv(q) && SendResult(q, payload) == 0
    ensures QueueInv(DoSend(q, id, payload, urgent))
  {
    var i, w := FirstFree(q.ids), DoSend(q, id, payload, urgent);
    assert q.place[i] == IsFree && i !in q.queue;
    assert forall k :: k in w.queue <==> k in q.queue || k == i;
  }

  lemma SendKeeps(q: Q, id: nat, payload: seq<byte>, urgent: bool)
    requires Inv(q) && id != 0
    ensures Inv(DoSend(q, id, payload, urgent))
  {
    var i, w := FirstFree(q.ids), DoSend(q, id, payload, urgent);
    if |payload| <= q.len && i < |q.ids| {
      if SendResult(q, payload) == 0 { PostKeepsQueue(q, id, payload, urgent); }
      assert q.place[i] == IsFree;
      assert forall r :: Holding(w, r) <==> Holding(q, r);
    }
  }

  lemma PopKeepsQueue(q: Q, r: nat, want: nat, buf: bool)
    requires Shape(q) && QueueInv(q) && q.queue != []
    ensures QueueInv(DoPop(q, r, want, buf))
  {
    var w, i := DoPop(q, r, want, buf), q.queue[0];
    assert q.place[i] == Queued;
    assert forall k :: k in q.queue <==> k in w.queue || k == i;
    assert i !in w.queue;
  }

  lemma PopKeeps(q: Q, r: nat, want: nat, buf: bool)
    requires Inv(q) && Enabled(q, Pop(r, want, buf))
    ensures Inv(DoPop(q, r, want, buf))
  {
    PopKeepsQueue(q, r, want, buf);
    assert q.place[q.queue[0]] == Queued;
    assert forall s :: Holding(DoPop(q, r, want, buf), s) <==> Holding(q, s) || s == r;
  }

  /** Steps that only move r's program counter, and leave its slot alone. */
  lemma LocalKeeps(q: Q, w: Q, r: nat)
    requires Inv(q) && Holding(q, r)
    requires r in w.held && w == q.(held := q.held[r := w.held[r]], sem := Some(r)) && LocalInv(q, w.held[r])
    requires w.held[r].slot == q.held[r].slot && w.held[r].pc !in {AtLock, AtUnlock}
    requires q.sem == Some(r) || q.sem == None
    ensures Inv(w)
  {
    assert forall s :: Holding(w, s) <==> Holding(q, s);
  }

  lemma DropKeeps(q: Q, r: nat)
    requires Inv(q) && Enabled(q, Lock(r)) && q.held[r].want > q.len
    ensures Inv(DoLock(q, r))
  {
    assert Holding(q, r);
    assert forall s :: Holding(DoLock(q, r), s) <==> Holding(q, s) && s != r;
  }

  lemma FreeKeeps(q: Q, r: nat)
    requires Inv(q) && Enabled(q, Free(r))
    ensures Inv(DoFree(q, r))
  {
    assert Holding(q, r);
    assert forall s :: Holding(DoFree(q, r), s) <==> Holding(q, s) && s != r;
  }

  lemma UnlockKeeps(q: Q, r: nat)
    requires Inv(q) && Enabled(q, Unlock(r))
    ensures Inv(DoUnlock(q, r))
  {
    assert forall s :: Holding(DoUnlock(q, r), s) <==> Holding(q, s);
  }

  lemma StepKeeps(q: Q, e: Event)
    requires Inv(q) && Enabled(q, e)
    ensures Inv(Step(q, e))
  {
    assert forall r :: r in q.held && q.held[r].pc != AtUnlock ==> Holding(q, r);
    match e
    case Send(id, p, u) => SendKeeps(q, id, p, u);
    case Pop(r, w, b) => PopKeeps(q, r, w, b);
    case Lock(r) =>
      if q.held[r].want > q.len { DropKeeps(q, r); } else { LocalKeeps(q, DoLock(q, r), r); }
    case ReadId(r) => LocalKeeps(q, DoReadId(q, r), r);
    case CopyByte(r) => LocalKeeps(q, DoCopyByte(q, r), r);
    case Free(r) => FreeKeeps(q, r);
    case Unlock(r) => UnlockKeeps(q, r);
    case Flush =>
  }
}
