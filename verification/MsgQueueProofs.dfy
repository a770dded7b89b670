/** The message queue, with its receives cut into steps, is a double-ended queue of messages. */
module MsgQueueProofs {
  import opened Basics
  import opened MsgQueue

  datatype Msg = Msg(id: nat, payload: seq<byte>)

  /** A message that a receiver has taken, and what that receiver asked for when it did. */
  datatype Taken = Taken(m: Msg, want: nat, buf: bool)

  /**
   * The abstract queue: messages waiting, the one each receiver has taken, and those returned so far
   * with the receiver that got them.
   */
  datatype Deque = Deque(waiting: seq<Msg>, inHand: map<nat, Taken>, returned: seq<(nat, Taken)>)

  const EMPTY := Deque([], map[], [])

  /** Whether a send is accepted, and whether a receive passes its size check. */
  predicate Ok(q: Q, e: Event) {
    match e
    case Send(_, p, _) => SendResult(q, p) == 0
    case Lock(r) => r in q.held && q.held[r].want <= q.len
    case _ => true
  }

  function AbsStep(d: Deque, e: Event, ok: bool): Deque {
    match e
    case Send(id, p, urgent) =>
      if !ok then d
      else d.(waiting := if urgent then [Msg(id, p)] + d.waiting else d.waiting + [Msg(id, p)])
    case Pop(r, want, buf) =>
      if d.waiting == [] then d
      else d.(waiting := d.waiting[1..], inHand := d.inHand[r := Taken(d.waiting[0], want, buf)])
    case Lock(r) => if ok then d else d.(inHand := d.inHand - {r})
    case Free(r) =>
      if r in d.inHand then d.(returned := d.returned + [(r, d.inHand[r])], inHand := d.inHand - {r}) else d
    case Flush => d.(waiting := [])
    case _ => d
  }

  // ----- simulation -----

  /** The slot holds the message; bytes after the payload may be left over from an earlier one. */
  ghost predicate Match(q: Q, slot: nat, m: Msg) {
    slot < |q.ids| && slot < |q.bodies| && q.ids[slot] == m.id && m.payload <= q.bodies[slot]
  }

  /** Both are prefixes of the same slot: they agree as far as the shorter one goes. */
  ghost predicate Agree(a: seq<byte>, b: seq<byte>) {
    a <= b || b <= a
  }

  ghost predicate WaitingSim(q: Q, d: Deque) {
    |d.waiting| == |q.queue| && forall k :: 0 <= k < |q.queue| ==> Match(q, q.queue[k], d.waiting[k])
  }

  ghost predicate RecvSim(q: Q, h: Recv, t: Taken) {
    && Match(q, h.slot, t.m) && h.got <= q.bodies[h.slot] && h.want == t.want && h.buf == t.buf
    && (h.pc in {AtCopy, AtFree} ==> h.id == t.m.id)
  }

  ghost predicate HandSim(q: Q, d: Deque) {
    && (forall r :: Holding(q, r) <==> r in d.inHand)
    && (forall r :: r in d.inHand ==> RecvSim(q, q.held[r], d.inHand[r]))
  }

  ghost predicate Returned(x: Delivery, y: (nat, Taken)) {
    && x.reader == y.0 && x.id == y.1.m.id && Agree(x.got, y.1.m.payload)
    && x.want == y.1.want && x.buf == y.1.buf && |x.got| == if y.1.buf then y.1.want else 0
  }

  ghost predicate ReturnedSim(q: Q, d: Deque) {
    |q.delivered| == |d.returned| && forall k :: 0 <= k < |q.delivered| ==> Returned(q.delivered[k], d.returned[k])
  }

  ghost predicate Sim(q: Q, d: Deque) {
    WaitingSim(q, d) && HandSim(q, d) && ReturnedSim(q, d)
  }

  /** A send that finds a slot leaves what is queued in place, and writes its own message into that slot. */
  lemma SendMatches(q: Q, d: Deque, id: nat, payload: seq<byte>, urgent: bool)
    requires Inv(q) && WaitingSim(q, d) && |payload| <= q.len && FirstFree(q.ids) < |q.ids|
    ensures var w := DoSend(q, id, payload, urgent);
      && Match(w, FirstFree(q.ids), Msg(id, payload))
      && forall k :: 0 <= k < |q.queue| ==> Match(w, q.queue[k], d.waiting[k])
  {
    var i, w := FirstFree(q.ids), DoSend(q, id, payload, urgent);
    assert q.place[i] == IsFree;
    forall k | 0 <= k < |q.queue| ensures Match(w, q.queue[k], d.waiting[k]) {
      assert Match(q, q.queue[k], d.waiting[k]) && q.queue[k] != i;
    }
  }

  lemma SendWaiting(q: Q, d: Deque, id: nat, payload: seq<byte>, urgent: bool)
    requires Inv(q) && WaitingSim(q, d) && |payload| <= q.len && FirstFree(q.ids) < |q.ids|
    ensures WaitingSim(DoSend(q, id, payload, urgent),
                       AbsStep(d, Send(id, payload, urgent), SendResult(q, payload) == 0))
  {
    SendMatches(q, d, id, payload, urgent);
    BothGrow(q, d, DoSend(q, id, payload, urgent), FirstFree(q.ids), Msg(id, payload), urgent);
  }

  /** A slot and its message added at the same end of both queues. */
  lemma BothGrow(q: Q, d: Deque, w: Q, i: nat, m: Msg, urgent: bool)
    requires |d.waiting| == |q.queue| && Match(w, i, m)
    requires forall k :: 0 <= k < |q.queue| ==> Match(w, q.queue[k], d.waiting[k])
    ensures w.queue == q.queue ==> WaitingSim(w, d)
    ensures urgent && w.queue == [i] + q.queue ==> WaitingSim(w, d.(waiting := [m] + d.waiting))
    ensures !urgent && w.queue == q.queue + [i] ==> WaitingSim(w, d.(waiting := d.waiting + [m]))
  {
  }

  lemma SendRecv(q: Q, w: Q, id: nat, payload: seq<byte>, urgent: bool, r: nat, t: Taken)
    requires Inv(q) && Holding(q, r) && RecvSim(q, q.held[r], t) && w == DoSend(q, id, payload, urgent)
    ensures RecvSim(w, q.held[r], t)
  {
    SendLeavesOthersAlone(q, id, payload, urgent, q.held[r].slot);
  }

  lemma SendHand(q: Q, d: Deque, id: nat, payload: seq<byte>, urgent: bool)
    requires Inv(q) && HandSim(q, d)
    ensures HandSim(DoSend(q, id, payload, urgent), d)
  {
    var w := DoSend(q, id, payload, urgent);
    assert w.held == q.held;
    assert forall r :: Holding(w, r) <==> Holding(q, r);
    forall r | r in d.inHand ensures RecvSim(w, w.held[r], d.inHand[r]) {
      SendRecv(q, w, id, payload, urgent, r, d.inHand[r]);
    }
  }

  lemma SendSim(q: Q, d: Deque, id: nat, payload: seq<byte>, urgent: bool)
    requires Inv(q) && Sim(q, d)
    ensures Sim(DoSend(q, id, payload, urgent), AbsStep(d, Send(id, payload, urgent), SendResult(q, payload) == 0))
  {
    SendHand(q, d, id, payload, urgent);
    if |payload| <= q.len && FirstFree(q.ids) < |q.ids| {
      SendWaiting(q, d, id, payload, urgent);
    }
  }

  lemma PopHand(q: Q, d: Deque, r: nat, want: nat, buf: bool)
    requires Inv(q) && Enabled(q, Pop(r, want, buf)) && WaitingSim(q, d) && HandSim(q, d)
    ensures HandSim(DoPop(q, r, want, buf), AbsStep(d, Pop(r, want, buf), true))
  {
    var w, a := DoPop(q, r, want, buf), AbsStep(d, Pop(r, want, buf), true);
    assert Match(q, q.queue[0], d.waiting[0]);
    assert forall s :: Holding(w, s) <==> Holding(q, s) || s == r;
    forall s | s in a.inHand ensures RecvSim(w, w.held[s], a.inHand[s]) {
      if s != r { assert RecvSim(q, q.held[s], d.inHand[s]); }
    }
  }

  lemma PopSim(q: Q, d: Deque, r: nat, want: nat, buf: bool)
    requires Inv(q) && Enabled(q, Pop(r, want, buf)) && Sim(q, d)
    ensures Sim(DoPop(q, r, want, buf), AbsStep(d, Pop(r, want, buf), true))
  {
    PopHand(q, d, r, want, buf);
    forall k | 0 <= k < |q.queue| - 1 ensures Match(q, q.queue[1..][k], d.waiting[1..][k]) {
      assert Match(q, q.queue[k + 1], d.waiting[k + 1]);
    }
  }

  /** Steps that change only r's own variables. */
  lemma LocalSim(q: Q, w: Q, d: Deque, r: nat)
    requires Inv(q) && Holding(q, r) && Sim(q, d)
    requires r in w.held && w == q.(held := q.held[r := w.held[r]], sem := Some(r))
    requires w.held[r].pc != AtUnlock && RecvSim(q, w.held[r], d.inHand[r])
    ensures Sim(w, d)
  {
    assert forall s :: Holding(w, s) <==> Holding(q, s);
    forall s | s in d.inHand ensures RecvSim(w, w.held[s], d.inHand[s]) {
      assert RecvSim(q, q.held[s], d.inHand[s]);
    }
  }

  lemma DropSim(q: Q, d: Deque, r: nat)
    requires Inv(q) && Enabled(q, Lock(r)) && q.held[r].want > q.len && Sim(q, d)
    ensures Sim(DoLock(q, r), AbsStep(d, Lock(r), false))
  {
    var w, a := DoLock(q, r), AbsStep(d, Lock(r), false);
    assert forall s :: Holding(w, s) <==> Holding(q, s) && s != r;
    forall s | s in a.inHand ensures RecvSim(w, w.held[s], a.inHand[s]) {
      assert RecvSim(q, q.held[s], d.inHand[s]);
    }
  }

  lemma FreeHand(q: Q, d: Deque, r: nat)
    requires Inv(q) && Enabled(q, Free(r)) && HandSim(q, d)
    ensures HandSim(DoFree(q, r), AbsStep(d, Free(r), true))
  {
    var w, a := DoFree(q, r), AbsStep(d, Free(r), true);
    assert Holding(q, r);
    assert forall s :: Holding(w, s) <==> Holding(q, s) && s != r;
    forall s | s in a.inHand ensures RecvSim(w, w.held[s], a.inHand[s]) {
      assert Holding(q, s) && RecvSim(q, q.held[s], d.inHand[s]);
    }
  }

  lemma FreeSim(q: Q, d: Deque, r: nat)
    requires Inv(q) && Enabled(q, Free(r)) && Sim(q, d)
    ensures Sim(DoFree(q, r), AbsStep(d, Free(r), true))
  {
    var w := DoFree(q, r);
    FreeHand(q, d, r);
    assert Holding(q, r) && RecvSim(q, q.held[r], d.inHand[r]);
    forall k | 0 <= k < |w.queue| ensures Match(w, w.queue[k], d.waiting[k]) {
      assert Match(q, q.queue[k], d.waiting[k]);
    }
    PrefixesAgree(q.held[r].got, d.inHand[r].m.payload, q.bodies[q.held[r].slot]);
  }

  lemma PrefixesAgree(a: seq<byte>, b: seq<byte>, c: seq<byte>)
    requires a <= c && b <= c
    ensures Agree(a, b)
  {
    assert a == c[..|a|] && b == c[..|b|];
    if |a| <= |b| {
      assert a == b[..|a|];
    } else {
      assert b == a[..|b|];
    }
  }

  lemma CopySim(q: Q, d: Deque, r: nat)
    requires Inv(q) && Enabled(q, CopyByte(r)) && Sim(q, d)
    ensures Sim(DoCopyByte(q, r), d)
  {
    var h, w := q.held[r], DoCopyByte(q, r);
    assert Holding(q, r) && RecvSim(q, h, d.inHand[r]);
    assert h.got + [q.bodies[h.slot][|h.got|]] <= q.bodies[h.slot];
    LocalSim(q, w, d, r);
  }

  lemma UnlockSim(q: Q, d: Deque, r: nat)
    requires Inv(q) && Enabled(q, Unlock(r)) && Sim(q, d)
    ensures Sim(DoUnlock(q, r), d)
  {
    var w := DoUnlock(q, r);
    assert forall s :: Holding(w, s) <==> Holding(q, s);
    forall s | s in d.inHand ensures RecvSim(w, w.held[s], d.inHand[s]) {
      assert Holding(q, s) && RecvSim(q, q.held[s], d.inHand[s]);
    }
  }

  lemma StepSim(q: Q, d: Deque, e: Event)
    requires Inv(q) && Enabled(q, e) && Sim(q, d)
    ensures Sim(Step(q, e), AbsStep(d, e, Ok(q, e)))
  {
    match e
    case Send(id, p, u) => SendSim(q, d, id, p, u);
    case Pop(r, w, b) => PopSim(q, d, r, w, b);
    case Lock(r) =>
      if q.held[r].want > q.len {
        DropSim(q, d, r);
      } else {
        assert Holding(q, r) && RecvSim(q, q.held[r], d.inHand[r]);
        LocalSim(q, DoLock(q, r), d, r);
      }
    case ReadId(r) =>
      assert Holding(q, r) && RecvSim(q, q.held[r], d.inHand[r]);
      LocalSim(q, DoReadId(q, r), d, r);
    case CopyByte(r) => CopySim(q, d, r);
    case Free(r) => FreeSim(q, d, r);
    case Unlock(r) => UnlockSim(q, d, r);
    case Flush => FlushSim(q, d);
  }

  lemma FlushSim(q: Q, d: Deque)
    requires Inv(q) && Enabled(q, Flush) && Sim(q, d)
    ensures Sim(DoFlush(q), AbsStep(d, Flush, true))
  {
    forall r ensures r !in d.inHand {
      assert !Holding(q, r);
    }
  }

  // ----- runs -----

  ghost predicate Legal(q: Q, es: seq<Event>)
    requires Inv(q)
    decreases |es|
  {
    es == [] || (Enabled(q, es[0]) && (StepKeeps(q, es[0]); Legal(Step(q, es[0]), es[1..])))
  }

  ghost function Run(q: Q, es: seq<Event>): (r: Q)
    requires Inv(q) && Legal(q, es)
    ensures Inv(r)
    decreases |es|
  {
    if es == [] then q else StepKeeps(q, es[0]); Run(Step(q, es[0]), es[1..])
  }

  /** The abstract queue driven by the same run. */
  ghost function AbsRun(q: Q, d: Deque, es: seq<Event>): Deque
    requires Inv(q) && Legal(q, es)
    decreases |es|
  {
    if es == [] then d
    else StepKeeps(q, es[0]); AbsRun(Step(q, es[0]), AbsStep(d, es[0], Ok(q, es[0])), es[1..])
  }

  lemma {:induction false} RunSim(q: Q, d: Deque, es: seq<Event>)
    requires Inv(q) && Legal(q, es) && Sim(q, d)
    ensures Sim(Run(q, es), AbsRun(q, d, es))
    decreases |es|
  {
    if es != [] {
      StepKeeps(q, es[0]);
      StepSim(q, d, es[0]);
      RunSim(Step(q, es[0]), AbsStep(d, es[0], Ok(q, es[0])), es[1..]);
    }
  }

  /** A new queue: the places and slots asked for, each slot free and just long enough in whole words. */
  lemma CreateMeans(maxQSize: nat, maxMsgs: nat, maxMsgLength: nat)
    ensures var q := Create(maxQSize, maxMsgs, maxMsgLength);
      && q.cap == maxQSize && |q.ids| == |q.bodies| == maxMsgs && q.queue == [] && q.held == map[] && q.sem == None
      && (forall i :: 0 <= i < maxMsgs ==> q.ids[i] == 0 && |q.bodies[i]| == q.len)
      && q.len % 4 == 0 && maxMsgLength <= q.len < maxMsgLength + 4
  {
  }

  /** A send that is rejected, for its size or for want of a slot, changes nothing. */
  lemma RejectedSendChangesNothing(q: Q, id: nat, payload: seq<byte>, urgent: bool)
    requires Inv(q) && (|payload| > q.len || !HasFreeSlot(q))
    ensures SendResult(q, payload) == -1 && DoSend(q, id, payload, urgent) == q
  {
    if FirstFree(q.ids) < |q.ids| { assert q.ids[FirstFree(q.ids)] == 0; }
  }

  lemma CreateInv(maxQSize: nat, maxMsgs: nat, maxMsgLength: nat)
    ensures var q := Create(maxQSize, maxMsgs, maxMsgLength); Inv(q) && Sim(q, EMPTY)
  {
  }

  /**
   * However sends are interleaved with the steps of any number of receivers, the k-th receive to finish
   * returned the id and the bytes of the message it had popped from the head of the abstract queue: as many
   * as it asked for in that pop, if it passed a buffer, and hence the whole payload if it asked for enough.
   */
  lemma ReceivesReturnWhatWasSent(maxQSize: nat, maxMsgs: nat, maxMsgLength: nat, es: seq<Event>, k: nat)
    requires Inv(Create(maxQSize, maxMsgs, maxMsgLength)) && Legal(Create(maxQSize, maxMsgs, maxMsgLength), es)
    requires k < |Run(Create(maxQSize, maxMsgs, maxMsgLength), es).delivered|
    ensures var q0 := Create(maxQSize, maxMsgs, maxMsgLength);
      var x, ys := Run(q0, es).delivered[k], AbsRun(q0, EMPTY, es).returned;
      && k < |ys|
      && (var t := ys[k].1;
          && x.reader == ys[k].0 && x.id == t.m.id && |x.got| == (if t.buf then t.want else 0)
          && (var n := if |x.got| < |t.m.payload| then |x.got| else |t.m.payload|;
              x.got[..n] == t.m.payload[..n])
          && (t.buf && t.want >= |t.m.payload| ==> x.got[..|t.m.payload|] == t.m.payload))
  {
    var q0 := Create(maxQSize, maxMsgs, maxMsgLength);
    CreateInv(maxQSize, maxMsgs, maxMsgLength);
    RunSim(q0, EMPTY, es);
    assert Returned(Run(q0, es).delivered[k], AbsRun(q0, EMPTY, es).returned[k]);
  }

  // ----- conservation -----

  function Indices(n: nat): (s: set<nat>)
    ensures forall i: nat :: i in s <==> i < n
    ensures |s| == n
  {
    if n == 0 then {} else Indices(n - 1) + {n - 1}
  }

  function Elements(s: seq<nat>): (e: set<nat>)
    ensures forall i :: i in e <==> i in s
    ensures (forall j, k :: 0 <= j < k < |s| ==> s[j] != s[k]) ==> |e| == |s|
  {
    if s == [] then {} else {s[0]} + Elements(s[1..])
  }

  lemma SubsetCount(a: set<nat>, b: set<nat>)
    requires a <= b
    ensures |a| <= |b|
  {
    assert a + (b - a) == b;
  }

  /** The slots whose id says that they are free. */
  function FreeSlots(q: Q): set<nat> { set i: nat | i < |q.ids| && q.ids[i] == 0 }

  function LostSlots(q: Q): set<nat> { set i: nat | i < |q.place| && q.place[i] == Lost }

  function HeldSlots(q: Q): set<nat> { set i: nat | i < |q.place| && q.place[i].HeldBy? }

  /** The receivers that have popped a slot and not yet freed it. */
  function Holders(q: Q): set<nat> { set r | r in q.held && Holding(q, r) }

  /** As many slots as receivers, if each has one of its own and every slot is someone's. */
  lemma {:induction false} OneEach(rs: set<nat>, slots: set<nat>, held: map<nat, Recv>, owner: map<nat, nat>)
    requires forall r :: r in rs ==>
      r in held && held[r].slot in slots && held[r].slot in owner && owner[held[r].slot] == r
    requires forall i :: i in slots ==> i in owner && owner[i] in rs && owner[i] in held && held[owner[i]].slot == i
    ensures |rs| == |slots|
  {
    if rs == {} {
      assert slots == {};
    } else {
      var r :| r in rs;
      OneEach(rs - {r}, slots - {held[r].slot}, held, owner);
    }
  }

  lemma HoldersHaveSlots(q: Q)
    requires Inv(q)
    ensures |Holders(q)| == |HeldSlots(q)|
  {
    OneEach(Holders(q), HeldSlots(q), q.held, map i | i in HeldSlots(q) :: q.place[i].r);
  }

  /** The four places sort the slots into four sets without overlap. */
  lemma FourParts(places: seq<Place>, a: set<nat>, b: set<nat>, c: set<nat>, d: set<nat>)
    requires forall i: nat :: i in a <==> i < |places| && places[i] == IsFree
    requires forall i: nat :: i in b <==> i < |places| && places[i] == Queued
    requires forall i: nat :: i in c <==> i < |places| && places[i].HeldBy?
    requires forall i: nat :: i in d <==> i < |places| && places[i] == Lost
    ensures |a| + |b| + |c| + |d| == |places|
  {
    assert a + b + c + d == Indices(|places|);
    assert a !! b && (a + b) !! c && (a + b + c) !! d;
  }

  /** Where a slot is, and which of the four sets it belongs to. */
  lemma SlotIsIn(q: Q, i: nat)
    requires Inv(q)
    ensures i in FreeSlots(q) <==> i < |q.ids| && q.place[i] == IsFree
    ensures i in Elements(q.queue) <==> i < |q.ids| && q.place[i] == Queued
    ensures i in HeldSlots(q) <==> i < |q.ids| && q.place[i].HeldBy?
    ensures i in LostSlots(q) <==> i < |q.ids| && q.place[i] == Lost
  {
  }

  /**
   * At every moment the slots marked free, the pointers in the OS queue, the receivers that hold one, and
   * the slots that were lost add up to the pool.
   */
  lemma PoolIsPartitioned(q: Q)
    requires Inv(q)
    ensures |FreeSlots(q)| + |q.queue| + |Holders(q)| + |LostSlots(q)| == |q.ids|
  {
    forall i: nat
      ensures i in FreeSlots(q) <==> i < |q.place| && q.place[i] == IsFree
      ensures i in Elements(q.queue) <==> i < |q.place| && q.place[i] == Queued
      ensures i in LostSlots(q) <==> i < |q.place| && q.place[i] == Lost
    {
      SlotIsIn(q, i);
    }
    FourParts(q.place, FreeSlots(q), Elements(q.queue), HeldSlots(q), LostSlots(q));
    HoldersHaveSlots(q);
  }

  /** With an OS queue as large as the pool, a free slot means there is room in the queue. */
  lemma FreeSlotMeansRoom(q: Q)
    requires Inv(q) && q.cap >= |q.ids| && FirstFree(q.ids) < |q.ids|
    ensures |q.queue| < q.cap
  {
    var i := FirstFree(q.ids);
    assert q.place[i] == IsFree && i !in q.queue;
    SubsetCount(Elements(q.queue) + {i}, Indices(|q.ids|));
  }

  /** ... so a send then fails only for an oversized payload or a full pool. */
  lemma SendFailsOnlyWhenItMust(q: Q, payload: seq<byte>)
    requires Inv(q) && q.cap >= |q.ids|
    ensures SendResult(q, payload) == 0 || SendResult(q, payload) == -1
    ensures SendResult(q, payload) == 0 <==> |payload| <= q.len && HasFreeSlot(q)
  {
    if HasFreeSlot(q) {
      var i :| 0 <= i < |q.ids| && q.ids[i] == 0;
      assert FirstFree(q.ids) <= i;
    }
    if FirstFree(q.ids) < |q.ids| { FreeSlotMeansRoom(q); }
  }

  ghost predicate NoneLost(q: Q) {
    forall i :: 0 <= i < |q.place| ==> q.place[i] != Lost
  }

  predicate HasFreeSlot(q: Q) {
    exists i :: 0 <= i < |q.ids| && q.ids[i] == 0
  }

  /** The post fails: the payload fits and there is a slot for it, but no place in the OS queue. */
  predicate PostFails(q: Q, payload: seq<byte>) {
    |payload| <= q.len && HasFreeSlot(q) && |q.queue| == q.cap
  }

  lemma ResultMeans(q: Q, payload: seq<byte>)
    requires Inv(q)
    ensures SendResult(q, payload) == OS_Q_FULL <==> PostFails(q, payload)
    ensures SendResult(q, payload) == 0 <==> |payload| <= q.len && HasFreeSlot(q) && |q.queue| < q.cap
  {
    var i := FirstFree(q.ids);
    if i < |q.ids| { assert q.ids[i] == 0; }
  }

  /**
   * A slot is lost by a send whose payload fits and finds a slot but no place in the OS queue, by a receive
   * that asks for more than a slot holds, and by nothing else.
   */
  lemma LossExactly(q: Q, e: Event)
    requires Inv(q) && Enabled(q, e) && NoneLost(q)
    ensures NoneLost(Step(q, e))
       <==> !(e.Send? && PostFails(q, e.payload)) && !(e.Lock? && q.held[e.r].want > q.len)
  {
    if e.Send? { ResultMeans(q, e.payload); }
    if e.Lock? && q.held[e.r].want > q.len {
      assert Holding(q, e.r);
      assert Step(q, e).place[q.held[e.r].slot] == Lost;
    } else if e.Send? && PostFails(q, e.payload) {
      assert Step(q, e).place[FirstFree(q.ids)] == Lost;
    }
  }

  /** No receiver in the run asks for more than a slot holds. */
  ghost predicate SizesFit(len: nat, es: seq<Event>) {
    es == [] || ((es[0].Pop? ==> es[0].want <= len) && SizesFit(len, es[1..]))
  }

  ghost predicate HeldFit(q: Q) {
    forall r :: r in q.held ==> q.held[r].want <= q.len
  }

  lemma StepFits(q: Q, e: Event)
    requires Inv(q) && Enabled(q, e) && HeldFit(q) && (e.Pop? ==> e.want <= q.len)
    ensures var w := Step(q, e); HeldFit(w) && w.len == q.len && w.cap == q.cap && |w.ids| == |q.ids|
  {
  }

  /** With the queue as large as the pool and sane receive sizes, no run ever loses a slot. */
  lemma {:induction false} NoSlotIsLost(q: Q, es: seq<Event>)
    requires Inv(q) && Legal(q, es) && q.cap >= |q.ids| && NoneLost(q) && SizesFit(q.len, es) && HeldFit(q)
    ensures NoneLost(Run(q, es))
    decreases |es|
  {
    if es != [] {
      StepKeeps(q, es[0]);
      StepFits(q, es[0]);
      if es[0].Send? { SendFailsOnlyWhenItMust(q, es[0].payload); ResultMeans(q, es[0].payload); }
      LossExactly(q, es[0]);
      NoSlotIsLost(Step(q, es[0]), es[1..]);
    }
  }

  lemma {:induction false} PoolSizeKept(q: Q, es: seq<Event>)
    requires Inv(q) && Legal(q, es)
    ensures |Run(q, es).ids| == |q.ids|
    decreases |es|
  {
    if es != [] {
      StepKeeps(q, es[0]);
      PoolSizeKept(Step(q, es[0]), es[1..]);
    }
  }

  /**
   * In every run with an OS queue as large as the pool and sane receive sizes, free, queued and held slots
   * add up to the maxMsgs slots created.
   */
  lemma PoolIsConserved(maxQSize: nat, maxMsgs: nat, maxMsgLength: nat, q: Q, es: seq<Event>)
    requires q == Create(maxQSize, maxMsgs, maxMsgLength) && maxQSize >= maxMsgs
    requires Inv(q) && Legal(q, es) && SizesFit(q.len, es)
    ensures var r := Run(q, es); |FreeSlots(r)| + |r.queue| + |Holders(r)| == maxMsgs
  {
    var r := Run(q, es);
    NoSlotIsLost(q, es);
    PoolSizeKept(q, es);
    PoolIsPartitioned(r);
    assert LostSlots(r) == {};
  }

  lemma RunCons(q: Q, e: Event, w: Q, es: seq<Event>)
    requires Inv(q) && Enabled(q, e) && w == Step(q, e) && Inv(w) && Legal(w, es)
    ensures Legal(q, [e] + es) && Run(q, [e] + es) == Run(w, es)
  {
    assert ([e] + es)[1..] == es && ([e] + es)[0] == e;
  }

  /** With a smaller OS queue, sends alone lose a slot: as many as the queue holds, and one more. */
  lemma {:induction false} SmallQueueLosesASlot(q: Q) returns (es: seq<Event>)
    requires Inv(q) && q.cap < |q.ids| && NoneLost(q) && q.held == map[]
    ensures Legal(q, es) && !NoneLost(Run(q, es))
    decreases q.cap - |q.queue|
  {
    var e := Send(1, [], false);
    StepKeeps(q, e);
    FreeSlotExists(q);
    ResultMeans(q, []);
    LossExactly(q, e);
    var w := Step(q, e);
    if |q.queue| == q.cap {
      es := [e];
      assert Legal(w, []) && Run(w, []) == w && [e] + [] == [e];
      RunCons(q, e, w, []);
    } else {
      var rest := SmallQueueLosesASlot(w);
      es := [e] + rest;
      RunCons(q, e, w, rest);
    }
  }

  lemma FreeSlotExists(q: Q)
    requires Inv(q) && q.cap < |q.ids| && NoneLost(q) && q.held == map[]
    ensures FirstFree(q.ids) < |q.ids|
  {
    if FirstFree(q.ids) == |q.ids| {
      forall i | i in Indices(|q.ids|) ensures i in Elements(q.queue) {
        assert q.place[i] == Queued;
      }
      SubsetCount(Indices(|q.ids|), Elements(q.queue));
    }
  }

  // ----- the limits of the invariant -----

  /** Flushing zeroes the pool: with the semaphore free, it is safe exactly when no receiver holds a slot. */
  lemma FlushExactly(q: Q)
    requires Inv(q) && q.sem.None?
    ensures Inv(DoFlush(q)) <==> q.held == map[]
  {
    if q.held != map[] {
      var r :| r in q.held;
      assert q.held[r].pc == AtLock && Holding(q, r) && Holding(DoFlush(q), r);
    }
  }

  /** A message id of 0 makes its slot look free: the pool stays sound exactly when the send is not posted. */
  lemma ZeroIdExactly(q: Q, payload: seq<byte>, urgent: bool)
    requires Inv(q)
    ensures Inv(DoSend(q, 0, payload, urgent)) <==> !(|payload| <= q.len && HasFreeSlot(q) && |q.queue| < q.cap)
  {
    var w, i := DoSend(q, 0, payload, urgent), FirstFree(q.ids);
    ResultMeans(q, payload);
    if SendResult(q, payload) == 0 {
      assert w.place[i] == Queued && w.ids[i] == 0;
    } else if SendResult(q, payload) == OS_Q_FULL {
      assert w.ids == q.ids && w.place == q.place;
      assert forall r :: Holding(w, r) <==> Holding(q, r);
    }
  }

  lemma SendValid(q: Q, id: nat, payload: seq<byte>, urgent: bool)
    requires Inv(q)
    ensures Inv(DoSend(q, id, payload, urgent)) <==> id != 0 || SendResult(q, payload) != 0
  {
    ResultMeans(q, payload);
    if id == 0 { ZeroIdExactly(q, payload, urgent); } else { SendKeeps(q, id, payload, urgent); }
  }

  /** A send never touches a slot that a receiver is still copying from, or one that is queued. */
  lemma SendLeavesOthersAlone(q: Q, id: nat, payload: seq<byte>, urgent: bool, i: nat)
    requires Inv(q) && i < |q.ids|
    requires i in q.queue || exists r :: Holding(q, r) && q.held[r].slot == i
    ensures var w := DoSend(q, id, payload, urgent); w.ids[i] == q.ids[i] && w.bodies[i] == q.bodies[i]
  {
    assert q.place[i] != IsFree;
    assert FirstFree(q.ids) != i;
  }
}
