/** The message queue object: one pool of slots, scanned, filled and freed in place. */
module MsgQueueObject {
  import opened Basics
  import opened MsgQueue
  import opened MsgQueueProofs

  class MessageQueue {
    const maxQSize: nat
    const maxMsgLength: nat
    const slotIds: array<nat>
    const slotBodies: array<seq<byte>>
    var osQueue: seq<nat>
    var receivers: map<nat, Recv>
    var semOwner: Option<nat>
    ghost var place: seq<Place>
    ghost var delivered: seq<Delivery>

    ghost function View(): Q
      reads this, slotIds, slotBodies
    {
      Q(maxQSize, maxMsgLength, slotIds[..], slotBodies[..], osQueue, receivers, semOwner, place, delivered)
    }

    ghost predicate Valid()
      reads this, slotIds, slotBodies
    {
      Inv(View())
    }

    /** msgQCreate. */
    constructor (maxQSize: nat, maxMsgs: nat, maxMsgLength: nat)
      ensures View() == Create(maxQSize, maxMsgs, maxMsgLength) && Valid()
    {
      this.maxQSize := maxQSize;
      this.maxMsgLength := RoundUp(maxMsgLength);
      slotIds := new nat[maxMsgs](i => 0);
      slotBodies := new seq<byte>[maxMsgs](i => Zeros(RoundUp(maxMsgLength)));
      osQueue, receivers, semOwner := [], map[], None;
      place, delivered := seq(maxMsgs, i => IsFree), [];
      new;
      assert slotIds[..] == seq(maxMsgs, i => 0);
      assert slotBodies[..] == seq(maxMsgs, i => Zeros(RoundUp(maxMsgLength)));
    }

    /** The scan for a free slot. */
    method FindFree() returns (i: nat)
      ensures i == FirstFree(slotIds[..])
    {
      i := 0;
      while i < slotIds.Length && slotIds[i] != 0
        invariant i <= slotIds.Length
        invariant FirstFree(slotIds[..]) == i + FirstFree(slotIds[i..])
      {
        assert slotIds[i..][1..] == slotIds[i + 1..];
        i := i + 1;
      }
    }

    /** gp_memcpy into a slot. */
    method CopyPayload(i: nat, payload: seq<byte>)
      requires i < slotBodies.Length && |payload| <= |slotBodies[i]|
      modifies slotBodies
      ensures slotBodies[..] == old(slotBodies[..])[i := payload + old(slotBodies[i])[|payload|..]]
    {
      ghost var was := slotBodies[i];
      for k := 0 to |payload|
        invariant slotBodies[i] == payload[..k] + was[k..]
        invariant forall j :: 0 <= j < slotBodies.Length && j != i ==> slotBodies[j] == old(slotBodies[j])
      {
        slotBodies[i] := slotBodies[i][k := payload[k]];
      }
      assert payload[..|payload|] == payload;
    }

    /** A send with id 0 keeps the pool sound exactly if it is not posted. */
    method Send(id: nat, payload: seq<byte>, urgent: bool) returns (ret: int)
      requires Valid()
      modifies this`osQueue, this`place, slotIds, slotBodies
      ensures View() == DoSend(old(View()), id, payload, urgent)
      ensures ret == SendResult(old(View()), payload)
      ensures Valid() <==> id != 0 || ret != 0
    {
      SendValid(View(), id, payload, urgent);
      if |payload| > maxMsgLength {
        return -1;
      }
      var i := FindFree();
      if i == slotIds.Length {
        return -1;
      }
      slotIds[i] := id;
      CopyPayload(i, payload);
      if |osQueue| < maxQSize {
        osQueue := if urgent then [i] + osQueue else osQueue + [i];
        place := place[i := Queued];
        ret := 0;
      } else {
        if id != 0 { place := place[i := Lost]; }
        ret := OS_Q_FULL;
      }
    }

    /** OSQAccept, or OSQPend once there is a message: an empty queue gives none. */
    method PopSlot(r: nat, want: nat, buf: bool) returns (ok: bool)
      requires Valid() && r !in receivers
      modifies this`osQueue, this`receivers, this`place
      ensures Valid() && ok == (old(osQueue) != [])
      ensures View() == if ok then DoPop(old(View()), r, want, buf) else old(View())
    {
      if osQueue == [] {
        return false;
      }
      PopKeeps(View(), r, want, buf);
      var slot := osQueue[0];
      osQueue := osQueue[1..];
      receivers := receivers[r := Recv(slot, want, buf, AtLock, 0, [])];
      place := place[slot := HeldBy(r)];
      ok := true;
    }

    /** msg_Q_lock and the size check behind it. */
    method TakeSem(r: nat) returns (ok: bool)
      requires Valid() && Enabled(View(), Lock(r))
      modifies this`semOwner, this`receivers, this`place
      ensures Valid() && View() == DoLock(old(View()), r) && ok == (old(receivers[r]).want <= maxMsgLength)
    {
      StepKeeps(View(), Lock(r));
      assert Holding(View(), r);
      var h := receivers[r];
      if h.want > maxMsgLength {
        receivers := receivers - {r};
        place := place[h.slot := Lost];
        return false;
      }
      semOwner := Some(r);
      receivers := receivers[r := h.(pc := AtRead)];
      ok := true;
    }

    method ReadMsgId(r: nat)
      requires Valid() && Enabled(View(), ReadId(r))
      modifies this`receivers
      ensures Valid() && View() == Step(old(View()), ReadId(r))
    {
      StepKeeps(View(), ReadId(r));
      assert Holding(View(), r);
      var h := receivers[r];
      receivers := receivers[r := h.(id := slotIds[h.slot], pc := if h.want > 0 && h.buf then AtCopy else AtFree)];
    }

    /** One turn of the copy loop. */
    method CopyOne(r: nat)
      requires Valid() && Enabled(View(), CopyByte(r))
      modifies this`receivers
      ensures Valid() && View() == Step(old(View()), CopyByte(r))
    {
      StepKeeps(View(), CopyByte(r));
      assert Holding(View(), r);
      var h := receivers[r];
      assert |View().bodies[h.slot]| == maxMsgLength;
      var got := h.got + [slotBodies[h.slot][|h.got|]];
      receivers := receivers[r := h.(got := got, pc := if |got| == h.want then AtFree else AtCopy)];
    }

    method FreeSlot(r: nat)
      requires Valid() && Enabled(View(), Free(r))
      modifies this`receivers, this`place, this`delivered, slotIds
      ensures Valid() && View() == Step(old(View()), Free(r))
    {
      StepKeeps(View(), Free(r));
      assert Holding(View(), r);
      var h := receivers[r];
      slotIds[h.slot] := 0;
      receivers := receivers[r := h.(pc := AtUnlock)];
      place := place[h.slot := IsFree];
      delivered := delivered + [Delivery(r, h.id, h.want, h.buf, h.got)];
    }

    method GiveSem(r: nat)
      requires Valid() && Enabled(View(), Unlock(r))
      modifies this`receivers, this`semOwner
      ensures Valid() && View() == Step(old(View()), Unlock(r))
    {
      StepKeeps(View(), Unlock(r));
      semOwner := None;
      receivers := receivers - {r};
    }

    /** msgQFlush: empty the OS queue and clear the pool. */
    method FlushAll()
      requires Valid() && semOwner == None
      modifies this`osQueue, this`place, slotIds, slotBodies
      ensures View() == DoFlush(old(View()))
      ensures Valid() <==> receivers == map[]
    {
      FlushExactly(View());
      osQueue := [];
      for i := 0 to slotIds.Length
        invariant osQueue == [] && receivers == old(receivers) && semOwner == old(semOwner)
        invariant forall k :: 0 <= k < i ==> slotIds[k] == 0 && slotBodies[k] == Zeros(maxMsgLength)
      {
        slotIds[i] := 0;
        slotBodies[i] := Zeros(maxMsgLength);
      }
      place := seq(slotIds.Length, i => IsFree);
      assert slotIds[..] == seq(slotIds.Length, i => 0);
      assert slotBodies[..] == seq(slotIds.Length, i => Zeros(maxMsgLength));
      assert place == seq(slotIds.Length, i => IsFree);
    }
  }
}
