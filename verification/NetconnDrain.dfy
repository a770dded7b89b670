/**
 * Emptying a connection's mailboxes, and handing back receive window: netconn_drain and do_recv.
 * What these functions do to the rest of the stack is recorded as a sequence of effects.
 */
module NetconnDrain {
  import opened Basics
  import opened Netconn

  datatype Pbuf = Pbuf(id: nat, totLen: nat)

  datatype Effect =
    | Recved(conn: nat, len: nat)   // tcp_recved: open the receive window by len bytes
    | FreePbuf(pbuf: nat)
    | Accepted(conn: nat)           // tcp_accepted on the listening pcb
    | Abort(conn: nat)              // tcp_abort
    | FreeConn(conn: nat)           // netconn_free

  /** A connection as netconn_drain sees it; a mailbox that was never created or is gone is None. */
  datatype Endpoint = Endpoint(id: nat, tcp: bool, pcb: bool,
                               recvmbox: Option<seq<Option<Pbuf>>>, acceptmbox: Option<seq<Endpoint>>)

  // ----- what draining does -----

  function ItemEffects(conn: nat, tcp: bool, pcb: bool, item: Option<Pbuf>): seq<Effect> {
    match item
    case None => []   // the wake-up that err_tcp posts
    case Some(p) => (if tcp && pcb then [Recved(conn, p.totLen)] else []) + [FreePbuf(p.id)]
  }

  function RecvEffects(conn: nat, tcp: bool, pcb: bool, box: seq<Option<Pbuf>>): seq<Effect> {
    if box == [] then [] else ItemEffects(conn, tcp, pcb, box[0]) + RecvEffects(conn, tcp, pcb, box[1..])
  }

  function RecvBoxEffects(c: Endpoint): seq<Effect> {
    if c.recvmbox.Some? then RecvEffects(c.id, c.tcp, c.pcb, c.recvmbox.value) else []
  }

  function ChildEffects(conn: nat, pcb: bool, kid: Endpoint): seq<Effect> {
    (if pcb then [Accepted(conn)] else []) + RecvBoxEffects(kid)
    + (if kid.pcb then [Abort(kid.id)] else []) + [FreeConn(kid.id)]
  }

  function AcceptEffects(conn: nat, pcb: bool, kids: seq<Endpoint>): seq<Effect> {
    if kids == [] then [] else ChildEffects(conn, pcb, kids[0]) + AcceptEffects(conn, pcb, kids[1..])
  }

  function DrainEffects(c: Endpoint): seq<Effect> {
    RecvBoxEffects(c) + (if c.acceptmbox.Some? then AcceptEffects(c.id, c.pcb, c.acceptmbox.value) else [])
  }

  function Kids(c: Endpoint): seq<Endpoint> {
    if c.acceptmbox.Some? then c.acceptmbox.value else []
  }

  // ----- the resources involved -----

  /**
   * A thing to be counted: frees of one buffer, frees of one connection, window bytes for it, accepts on it,
   * aborts of it.
   */
  datatype What = PbufFrees(id: nat) | ConnFrees(id: nat) | Window(id: nat) | Accepts(id: nat) | Aborts(id: nat)

  function Weight(e: Effect, w: What): nat {
    match e
    case Recved(c, n) => if w == Window(c) then n else 0
    case FreePbuf(p) => if w == PbufFrees(p) then 1 else 0
    case FreeConn(c) => if w == ConnFrees(c) then 1 else 0
    case Accepted(c) => if w == Accepts(c) then 1 else 0
    case Abort(c) => if w == Aborts(c) then 1 else 0
  }

  function Measure(es: seq<Effect>, w: What): nat {
    if es == [] then 0 else Weight(es[0], w) + Measure(es[1..], w)
  }

  function Occurrences(box: seq<Option<Pbuf>>, pbuf: nat): nat {
    if box == [] then 0
    else (if box[0].Some? && box[0].value.id == pbuf then 1 else 0) + Occurrences(box[1..], pbuf)
  }

  function Bytes(box: seq<Option<Pbuf>>): nat {
    if box == [] then 0 else (if box[0].Some? then box[0].value.totLen else 0) + Bytes(box[1..])
  }

  /** What emptying a receive mailbox must amount to. */
  function BoxOwed(id: nat, tcp: bool, pcb: bool, box: seq<Option<Pbuf>>, w: What): nat {
    match w
    case PbufFrees(p) => Occurrences(box, p)
    case Window(c) => if c == id && tcp && pcb then Bytes(box) else 0
    case _ => 0
  }

  function Owed(c: Endpoint, w: What): nat {
    if c.recvmbox.Some? then BoxOwed(c.id, c.tcp, c.pcb, c.recvmbox.value, w) else 0
  }

  /**
   * A child is owed the same; it is to be freed once and, if it has a pcb, aborted once; and if the listening
   * pcb is there it is told of the accept.
   */
  function ChildOwed(id: nat, pcb: bool, kid: Endpoint, w: What): nat {
    Owed(kid, w) + (if w == ConnFrees(kid.id) then 1 else 0)
    + (if kid.pcb && w == Aborts(kid.id) then 1 else 0) + (if pcb && w == Accepts(id) then 1 else 0)
  }

  function KidsOwed(id: nat, pcb: bool, kids: seq<Endpoint>, w: What): nat {
    if kids == [] then 0 else ChildOwed(id, pcb, kids[0], w) + KidsOwed(id, pcb, kids[1..], w)
  }

  // ----- proofs -----

  lemma {:induction false} MeasureAppend(a: seq<Effect>, b: seq<Effect>, w: What)
    ensures Measure(a + b, w) == Measure(a, w) + Measure(b, w)
  {
    if a == [] {
      assert a + b == b;
    } else {
      assert (a + b)[0] == a[0] && (a + b)[1..] == a[1..] + b;
      MeasureAppend(a[1..], b, w);
    }
  }

  lemma One(e: Effect, w: What)
    ensures Measure([e], w) == Weight(e, w)
  {
    assert [e][1..] == [];
  }

  /** What taking one item off the mailbox amounts to. */
  lemma ItemExact(id: nat, tcp: bool, pcb: bool, item: Option<Pbuf>, w: What)
    ensures Measure(ItemEffects(id, tcp, pcb, item), w) ==
      match w
      case PbufFrees(p) => if item.Some? && item.value.id == p then 1 else 0
      case Window(c) => if c == id && tcp && pcb && item.Some? then item.value.totLen else 0
      case _ => 0
  {
    if item.Some? {
      var credit, free := Recved(id, item.value.totLen), FreePbuf(item.value.id);
      One(credit, w);
      One(free, w);
      if tcp && pcb {
        MeasureAppend([credit], [free], w);
      } else {
        assert [] + [free] == [free];
      }
    }
  }

  lemma {:induction false} RecvExact(id: nat, tcp: bool, pcb: bool, box: seq<Option<Pbuf>>, w: What)
    ensures Measure(RecvEffects(id, tcp, pcb, box), w) == BoxOwed(id, tcp, pcb, box, w)
  {
    if box != [] {
      RecvExact(id, tcp, pcb, box[1..], w);
      MeasureAppend(ItemEffects(id, tcp, pcb, box[0]), RecvEffects(id, tcp, pcb, box[1..]), w);
      ItemExact(id, tcp, pcb, box[0], w);
    }
  }

  lemma RecvBoxExact(c: Endpoint, w: What)
    ensures Measure(RecvBoxEffects(c), w) == Owed(c, w)
  {
    if c.recvmbox.Some? { RecvExact(c.id, c.tcp, c.pcb, c.recvmbox.value, w); }
  }

  lemma ChildExact(id: nat, pcb: bool, kid: Endpoint, w: What)
    ensures Measure(ChildEffects(id, pcb, kid), w) == ChildOwed(id, pcb, kid, w)
  {
    RecvBoxExact(kid, w);
    var a := if pcb then [Accepted(id)] else [];
    var b := RecvBoxEffects(kid);
    var d := if kid.pcb then [Abort(kid.id)] else [];
    MeasureAppend(a, b, w);
    MeasureAppend(a + b, d, w);
    MeasureAppend(a + b + d, [FreeConn(kid.id)], w);
    One(Accepted(id), w);
    One(Abort(kid.id), w);
    One(FreeConn(kid.id), w);
  }

  lemma {:induction false} AcceptExact(id: nat, pcb: bool, kids: seq<Endpoint>, w: What)
    ensures Measure(AcceptEffects(id, pcb, kids), w) == KidsOwed(id, pcb, kids, w)
  {
    if kids != [] {
      ChildExact(id, pcb, kids[0], w);
      AcceptExact(id, pcb, kids[1..], w);
      MeasureAppend(ChildEffects(id, pcb, kids[0]), AcceptEffects(id, pcb, kids[1..]), w);
    }
  }

  /**
   * Draining frees every buffer as often as it was queued on the connection and on its un-accepted
   * children, aborts and frees every such child once, reports each to the listening pcb, and opens each
   * window by exactly the bytes still queued there.
   */
  lemma DrainExact(c: Endpoint, w: What)
    ensures Measure(DrainEffects(c), w) == Owed(c, w) + KidsOwed(c.id, c.pcb, Kids(c), w)
  {
    RecvBoxExact(c, w);
    AcceptExact(c.id, c.pcb, Kids(c), w);
    MeasureAppend(RecvBoxEffects(c), AcceptEffects(c.id, c.pcb, Kids(c)), w);
    assert RecvBoxEffects(c) + [] == RecvBoxEffects(c);
  }

  lemma {:induction false} NobodyOwed(id: nat, pcb: bool, kids: seq<Endpoint>, k: nat)
    requires forall i :: 0 <= i < |kids| ==> kids[i].id != k
    ensures KidsOwed(id, pcb, kids, Window(k)) == 0 && KidsOwed(id, pcb, kids, ConnFrees(k)) == 0
    ensures KidsOwed(id, pcb, kids, Aborts(k)) == 0
  {
    if kids != [] { NobodyOwed(id, pcb, kids[1..], k); }
  }

  lemma {:induction false} OneOwed(id: nat, pcb: bool, kids: seq<Endpoint>, k: nat)
    requires k < |kids| && forall i, j :: 0 <= i < j < |kids| ==> kids[i].id != kids[j].id
    ensures KidsOwed(id, pcb, kids, Window(kids[k].id)) == Owed(kids[k], Window(kids[k].id))
    ensures KidsOwed(id, pcb, kids, ConnFrees(kids[k].id)) == 1
    ensures KidsOwed(id, pcb, kids, Aborts(kids[k].id)) == if kids[k].pcb then 1 else 0
  {
    if k == 0 {
      NobodyOwed(id, pcb, kids[1..], kids[0].id);
    } else {
      OneOwed(id, pcb, kids[1..], k - 1);
    }
  }

  lemma {:induction false} AllReported(id: nat, pcb: bool, kids: seq<Endpoint>)
    ensures KidsOwed(id, pcb, kids, Accepts(id)) == if pcb then |kids| else 0
  {
    if kids != [] { AllReported(id, pcb, kids[1..]); }
  }

  /** The children are connections of their own, each there once. */
  predicate DistinctKids(c: Endpoint) {
    var kids := Kids(c);
    && (forall i, j :: 0 <= i < j < |kids| ==> kids[i].id != kids[j].id)
    && (forall i :: 0 <= i < |kids| ==> kids[i].id != c.id)
  }

  /**
   * Read per connection: the drained one and every child get back exactly their own bytes, if alive; every
   * child is freed once, and aborted once if it has a pcb; the drained one is neither.
   */
  lemma DrainPerConnection(c: Endpoint, k: nat)
    requires k < |Kids(c)| && DistinctKids(c)
    ensures Measure(DrainEffects(c), Window(c.id))
         == if c.tcp && c.pcb && c.recvmbox.Some? then Bytes(c.recvmbox.value) else 0
    ensures var kid := Kids(c)[k];
      Measure(DrainEffects(c), Window(kid.id))
        == if kid.tcp && kid.pcb && kid.recvmbox.Some? then Bytes(kid.recvmbox.value) else 0
    ensures Measure(DrainEffects(c), ConnFrees(Kids(c)[k].id)) == 1
    ensures Measure(DrainEffects(c), Aborts(Kids(c)[k].id)) == if Kids(c)[k].pcb then 1 else 0
    ensures Measure(DrainEffects(c), ConnFrees(c.id)) == 0 && Measure(DrainEffects(c), Aborts(c.id)) == 0
    ensures Measure(DrainEffects(c), Accepts(c.id)) == if c.pcb then |Kids(c)| else 0
  {
    var kid := Kids(c)[k];
    OwnShare(c);
    DrainExact(c, Window(kid.id));
    DrainExact(c, ConnFrees(kid.id));
    DrainExact(c, Aborts(kid.id));
    OneOwed(c.id, c.pcb, Kids(c), k);
  }

  lemma OwnShare(c: Endpoint)
    requires DistinctKids(c)
    ensures Measure(DrainEffects(c), Window(c.id))
         == if c.tcp && c.pcb && c.recvmbox.Some? then Bytes(c.recvmbox.value) else 0
    ensures Measure(DrainEffects(c), ConnFrees(c.id)) == 0 && Measure(DrainEffects(c), Aborts(c.id)) == 0
    ensures Measure(DrainEffects(c), Accepts(c.id)) == if c.pcb then |Kids(c)| else 0
  {
    DrainExact(c, Window(c.id));
    DrainExact(c, ConnFrees(c.id));
    DrainExact(c, Aborts(c.id));
    DrainExact(c, Accepts(c.id));
    NobodyOwed(c.id, c.pcb, Kids(c), c.id);
    AllReported(c.id, c.pcb, Kids(c));
  }

  // ----- the loops -----

  /** The stack the drained connection belongs to. */
  class Stack {
    var effects: seq<Effect>

    constructor ()
      ensures effects == []
    {
      effects := [];
    }

    method Emit(e: Effect)
      modifies this
      ensures effects == old(effects) + [e]
    {
      effects := effects + [e];
    }
  }

  class Socket {
    const id: nat
    const tcp: bool
    var pcb: bool
    var recvmbox: Option<seq<Option<Pbuf>>>
    var acceptmbox: Option<seq<Socket>>

    /** A connection waiting to be accepted has no accept mailbox of its own. */
    ghost function Leaf(): Endpoint
      reads this
    {
      Endpoint(id, tcp, pcb, recvmbox, None)
    }

    constructor (id: nat, tcp: bool)
      ensures this.id == id && this.tcp == tcp && !pcb && recvmbox == Some([]) && acceptmbox == None
    {
      this.id, this.tcp := id, tcp;
      pcb, recvmbox, acceptmbox := false, Some([]), None;
    }

    method DrainRecv(stack: Stack)
      modifies this`recvmbox, stack
      ensures stack.effects == old(stack.effects) + RecvBoxEffects(old(Leaf()))
      ensures recvmbox == None
    {
      if recvmbox.Some? {
        ghost var before := recvmbox.value;
        while recvmbox.value != []
          invariant recvmbox.Some?
          invariant stack.effects + RecvEffects(id, tcp, pcb, recvmbox.value)
                 == old(stack.effects) + RecvEffects(id, tcp, pcb, before)
          decreases |recvmbox.value|
        {
          var mem := recvmbox.value[0];
          RecvNext(stack.effects, id, tcp, pcb, recvmbox.value);
          recvmbox := Some(recvmbox.value[1..]);
          ghost var now := stack.effects;
          if mem.Some? {
            if tcp && pcb {
              stack.Emit(Recved(id, mem.value.totLen));
            }
            stack.Emit(FreePbuf(mem.value.id));
          }
          assert stack.effects == now + ItemEffects(id, tcp, pcb, mem);
        }
        recvmbox := None;
      }
      assert stack.effects + [] == stack.effects;
    }

    /** The children of the accept mailbox, as values. */
    static ghost function Leaves(ss: seq<Socket>): (r: seq<Endpoint>)
      reads ss
      ensures |r| == |ss| && forall i :: 0 <= i < |ss| ==> r[i] == ss[i].Leaf()
    {
      seq(|ss|, i requires 0 <= i < |ss| reads ss => ss[i].Leaf())
    }

    ghost function KidSet(): set<Socket>
      reads this
    {
      if acceptmbox.Some? then set s | s in acceptmbox.value else {}
    }

    ghost predicate DrainReady()
      reads this, KidSet()
    {
      acceptmbox.Some? ==>
        var kids := acceptmbox.value;
        && this !in kids
        && (forall i, j :: 0 <= i < j < |kids| ==> kids[i] != kids[j])
        && (forall i :: 0 <= i < |kids| ==> kids[i].acceptmbox == None)
    }

    ghost function View(): Endpoint
      reads this, KidSet()
    {
      Endpoint(id, tcp, pcb, recvmbox, if acceptmbox.Some? then Some(Leaves(acceptmbox.value)) else None)
    }

    /** Free an un-accepted child: netconn_free demands that its pcb and both its mailboxes are gone. */
    method DropChild(kid: Socket, stack: Stack)
      requires kid != this && kid.acceptmbox == None
      modifies kid, stack
      ensures stack.effects == old(stack.effects) + ChildEffects(id, pcb, old(kid.Leaf()))
      ensures Gone(kid)
    {
      if pcb {
        stack.Emit(Accepted(id));
      }
      kid.DrainRecv(stack);
      if kid.pcb {
        stack.Emit(Abort(kid.id));
        kid.pcb := false;
      }
      stack.Emit(FreeConn(kid.id));
    }

    method Drain(stack: Stack)
      requires DrainReady()
      modifies this`recvmbox, this`acceptmbox, stack, KidSet()
      ensures stack.effects == old(stack.effects) + DrainEffects(old(View()))
      ensures recvmbox == None && acceptmbox == None
      ensures forall kid :: kid in old(KidSet()) ==> Gone(kid)
    {
      ghost var leaves := if acceptmbox.Some? then Leaves(acceptmbox.value) else [];
      ghost var own := RecvBoxEffects(Leaf());
      DrainRecv(stack);
      assert stack.effects == old(stack.effects) + own;
      if acceptmbox.Some? {
        DrainKids(acceptmbox.value, leaves, stack);
        acceptmbox := None;
        Associates(old(stack.effects), own, AcceptEffects(id, pcb, leaves));
      } else {
        assert own + [] == own;
      }
    }

    /** What netconn_free asserts of the connection it is given. */
    static ghost predicate Gone(s: Socket)
      reads s
    {
      !s.pcb && s.recvmbox == None && s.acceptmbox == None
    }

    method DrainKids(kids: seq<Socket>, ghost leaves: seq<Endpoint>, stack: Stack)
      requires |leaves| == |kids| && forall i :: 0 <= i < |kids| ==> kids[i].Leaf() == leaves[i]
      requires this !in kids
      requires forall i, j :: 0 <= i < j < |kids| ==> kids[i] != kids[j]
      requires forall i :: 0 <= i < |kids| ==> kids[i].acceptmbox == None
      modifies kids, stack
      ensures stack.effects == old(stack.effects) + AcceptEffects(id, pcb, leaves)
      ensures forall i :: 0 <= i < |kids| ==> Gone(kids[i])
    {
      for n := 0 to |kids|
        invariant forall i :: n <= i < |kids| ==> kids[i].Leaf() == leaves[i] && kids[i].acceptmbox == None
        invariant forall i :: 0 <= i < n ==> Gone(kids[i])
        invariant stack.effects + AcceptEffects(id, pcb, leaves[n..])
               == old(stack.effects) + AcceptEffects(id, pcb, leaves)
      {
        AcceptNext(stack.effects, id, pcb, leaves, n);
        DropChild(kids[n], stack);
      }
      assert stack.effects + [] == stack.effects;
    }
  }

  lemma Associates(a: seq<Effect>, b: seq<Effect>, c: seq<Effect>)
    ensures a + b + c == a + (b + c)
  {
  }

  lemma RecvNext(es: seq<Effect>, id: nat, tcp: bool, pcb: bool, box: seq<Option<Pbuf>>)
    requires box != []
    ensures es + ItemEffects(id, tcp, pcb, box[0]) + RecvEffects(id, tcp, pcb, box[1..])
         == es + RecvEffects(id, tcp, pcb, box)
  {
    Associates(es, ItemEffects(id, tcp, pcb, box[0]), RecvEffects(id, tcp, pcb, box[1..]));
  }

  lemma AcceptNext(es: seq<Effect>, id: nat, pcb: bool, kids: seq<Endpoint>, n: nat)
    requires n < |kids|
    ensures es + ChildEffects(id, pcb, kids[n]) + AcceptEffects(id, pcb, kids[n + 1..])
         == es + AcceptEffects(id, pcb, kids[n..])
  {
    assert kids[n..][1..] == kids[n + 1..];
    Associates(es, ChildEffects(id, pcb, kids[n]), AcceptEffects(id, pcb, kids[n + 1..]));
  }

  // ----- do_recv -----

  /** The pieces in which do_recv opens the window by `len` bytes. */
  function Pieces(len: nat): seq<nat> {
    if len <= U16_MAX then [len] else [U16_MAX] + Pieces(len - U16_MAX)
  }

  lemma {:induction false} PiecesExact(len: nat)
    ensures Sum(Pieces(len)) == len
    ensures forall k :: 0 <= k < |Pieces(len)| ==> Pieces(len)[k] <= U16_MAX
    ensures len > 0 ==> forall k :: 0 <= k < |Pieces(len)| ==> Pieces(len)[k] > 0
    ensures |Pieces(len)| == if len == 0 then 1 else (len + U16_MAX - 1) / U16_MAX
  {
    if len > U16_MAX { PiecesExact(len - U16_MAX); }
  }

  /** What one turn of the loop leaves to be done. */
  lemma PiecesNext(done: seq<nat>, n: nat)
    ensures n <= U16_MAX ==> done + [n] == done + Pieces(n)
    ensures n > U16_MAX ==> done + [U16_MAX] + Pieces(n - U16_MAX) == done + Pieces(n)
  {
    if n > U16_MAX {
      assert done + [U16_MAX] + Pieces(n - U16_MAX) == done + ([U16_MAX] + Pieces(n - U16_MAX));
    }
  }

  /** `live` and `tcp` say whether the connection still has a pcb and whether that is a TCP one. */
  method DoRecv(live: bool, tcp: bool, len: nat) returns (recved: seq<nat>)
    ensures recved == if live && tcp then Pieces(len) else []
  {
    recved := [];
    if !live || !tcp { return; }
    var remaining: nat := len;
    while true
      invariant recved + Pieces(remaining) == Pieces(len)
      decreases remaining
    {
      PiecesNext(recved, remaining);
      var piece := if remaining > U16_MAX then U16_MAX else remaining;
      recved := recved + [piece];
      remaining := remaining - piece;
      if remaining == 0 { break; }
    }
  }
}
