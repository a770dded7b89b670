/** In what order netconn_drain does what it does: buffers first in, first out, and nothing used after it is freed. */
module NetconnDrainOrder {
  import opened Basics
  import opened NetconnDrain

  /** The buffers freed, in order. */
  function Frees(es: seq<Effect>): seq<nat> {
    if es == [] then [] else (if es[0].FreePbuf? then [es[0].pbuf] else []) + Frees(es[1..])
  }

  /** The buffers in a mailbox, in order. */
  function Ids(box: seq<Option<Pbuf>>): seq<nat> {
    if box == [] then [] else (if box[0].Some? then [box[0].value.id] else []) + Ids(box[1..])
  }

  function BoxIds(c: Endpoint): seq<nat> { if c.recvmbox.Some? then Ids(c.recvmbox.value) else [] }

  function KidIds(kids: seq<Endpoint>): seq<nat> {
    if kids == [] then [] else BoxIds(kids[0]) + KidIds(kids[1..])
  }

  lemma {:induction false} FreesAppend(a: seq<Effect>, b: seq<Effect>)
    ensures Frees(a + b) == Frees(a) + Frees(b)
  {
    if a == [] {
      assert a + b == b;
    } else {
      assert (a + b)[0] == a[0] && (a + b)[1..] == a[1..] + b;
      FreesAppend(a[1..], b);
    }
  }

  lemma FreesOne(e: Effect)
    ensures Frees([e]) == if e.FreePbuf? then [e.pbuf] else []
  {
    assert [e][1..] == [];
  }

  lemma {:induction false} RecvFrees(id: nat, tcp: bool, pcb: bool, box: seq<Option<Pbuf>>)
    ensures Frees(RecvEffects(id, tcp, pcb, box)) == Ids(box)
  {
    if box != [] {
      RecvFrees(id, tcp, pcb, box[1..]);
      FreesAppend(ItemEffects(id, tcp, pcb, box[0]), RecvEffects(id, tcp, pcb, box[1..]));
      if box[0].Some? {
        var credit := if tcp && pcb then [Recved(id, box[0].value.totLen)] else [];
        FreesAppend(credit, [FreePbuf(box[0].value.id)]);
        FreesOne(Recved(id, box[0].value.totLen));
        FreesOne(FreePbuf(box[0].value.id));
      }
    }
  }

  lemma ChildFrees(id: nat, pcb: bool, kid: Endpoint)
    ensures Frees(ChildEffects(id, pcb, kid)) == BoxIds(kid)
  {
    var a := if pcb then [Accepted(id)] else [];
    var b := RecvBoxEffects(kid);
    var d := if kid.pcb then [Abort(kid.id)] else [];
    FreesAppend(a, b);
    FreesAppend(a + b, d);
    FreesAppend(a + b + d, [FreeConn(kid.id)]);
    FreesOne(Accepted(id));
    FreesOne(Abort(kid.id));
    FreesOne(FreeConn(kid.id));
    if kid.recvmbox.Some? { RecvFrees(kid.id, kid.tcp, kid.pcb, kid.recvmbox.value); }
  }

  lemma {:induction false} AcceptFrees(id: nat, pcb: bool, kids: seq<Endpoint>)
    ensures Frees(AcceptEffects(id, pcb, kids)) == KidIds(kids)
  {
    if kids != [] {
      ChildFrees(id, pcb, kids[0]);
      AcceptFrees(id, pcb, kids[1..]);
      FreesAppend(ChildEffects(id, pcb, kids[0]), AcceptEffects(id, pcb, kids[1..]));
    }
  }

  /** Buffers are freed in the order in which they were queued, the connection's own first. */
  lemma FreedInOrder(c: Endpoint)
    ensures Frees(DrainEffects(c)) == BoxIds(c) + KidIds(Kids(c))
  {
    if c.recvmbox.Some? { RecvFrees(c.id, c.tcp, c.pcb, c.recvmbox.value); }
    AcceptFrees(c.id, c.pcb, Kids(c));
    FreesAppend(RecvBoxEffects(c), AcceptEffects(c.id, c.pcb, Kids(c)));
    assert RecvBoxEffects(c) + [] == RecvBoxEffects(c);
  }

  /** The connection that an effect is about, if it is about one. */
  predicate About(e: Effect, k: nat) {
    match e
    case Recved(c, _) => c == k
    case FreePbuf(_) => false
    case Accepted(c) => c == k
    case Abort(c) => c == k
    case FreeConn(c) => c == k
  }

  predicate Silent(es: seq<Effect>, k: nat) {
    es == [] || (!About(es[0], k) && Silent(es[1..], k))
  }

  /** Window is credited before its buffer is freed, and nothing is done to a connection after it is freed. */
  predicate Orderly(es: seq<Effect>) {
    es == [] || (
      && (es[0].Recved? ==> |es| > 1 && es[1].FreePbuf?)
      && (es[0].FreeConn? ==> Silent(es[1..], es[0].conn))
      && Orderly(es[1..]))
  }

  predicate FreesNone(es: seq<Effect>) {
    es == [] || (!es[0].FreeConn? && FreesNone(es[1..]))
  }

  lemma {:induction false} OrderlyAppend(a: seq<Effect>, b: seq<Effect>)
    requires Orderly(a) && Orderly(b) && FreesNone(a)
    ensures Orderly(a + b)
  {
    if a == [] {
      assert a + b == b;
    } else {
      assert (a + b)[0] == a[0] && (a + b)[1..] == a[1..] + b;
      OrderlyAppend(a[1..], b);
    }
  }

  lemma {:induction false} FreesNoneAppend(a: seq<Effect>, b: seq<Effect>)
    requires FreesNone(a) && FreesNone(b)
    ensures FreesNone(a + b)
  {
    if a == [] {
      assert a + b == b;
    } else {
      assert (a + b)[0] == a[0] && (a + b)[1..] == a[1..] + b;
      FreesNoneAppend(a[1..], b);
    }
  }

  lemma {:induction false} SilentAppend(a: seq<Effect>, b: seq<Effect>, k: nat)
    requires Silent(a, k) && Silent(b, k)
    ensures Silent(a + b, k)
  {
    if a == [] {
      assert a + b == b;
    } else {
      assert (a + b)[0] == a[0] && (a + b)[1..] == a[1..] + b;
      SilentAppend(a[1..], b, k);
    }
  }

  lemma ItemIsOrderly(id: nat, tcp: bool, pcb: bool, item: Option<Pbuf>, k: nat)
    ensures Orderly(ItemEffects(id, tcp, pcb, item)) && FreesNone(ItemEffects(id, tcp, pcb, item))
    ensures k != id ==> Silent(ItemEffects(id, tcp, pcb, item), k)
  {
    if item.Some? {
      var x, y := Recved(id, item.value.totLen), FreePbuf(item.value.id);
      assert [y][1..] == [] && [x, y][1..] == [y] && [x] + [y] == [x, y] && [] + [y] == [y];
      assert Orderly([y]) && FreesNone([y]) && Silent([y], k);
      assert Orderly([x, y]) && FreesNone([x, y]);
    }
  }

  lemma {:induction false} RecvIsOrderly(id: nat, tcp: bool, pcb: bool, box: seq<Option<Pbuf>>, k: nat)
    ensures Orderly(RecvEffects(id, tcp, pcb, box)) && FreesNone(RecvEffects(id, tcp, pcb, box))
    ensures k != id ==> Silent(RecvEffects(id, tcp, pcb, box), k)
  {
    if box != [] {
      var a, b := ItemEffects(id, tcp, pcb, box[0]), RecvEffects(id, tcp, pcb, box[1..]);
      ItemIsOrderly(id, tcp, pcb, box[0], k);
      RecvIsOrderly(id, tcp, pcb, box[1..], k);
      OrderlyAppend(a, b);
      FreesNoneAppend(a, b);
      if k != id { SilentAppend(a, b, k); }
    }
  }

  lemma Lone(e: Effect, k: nat)
    requires !e.Recved?
    ensures Orderly([e]) && (!e.FreeConn? ==> FreesNone([e])) && (!About(e, k) ==> Silent([e], k))
  {
    assert [e][1..] == [];
  }

  /** What is done to a child before it is freed. */
  function BeforeFree(id: nat, pcb: bool, kid: Endpoint): seq<Effect> {
    (if pcb then [Accepted(id)] else []) + RecvBoxEffects(kid) + (if kid.pcb then [Abort(kid.id)] else [])
  }

  lemma BeforeFreeIsOrderly(id: nat, pcb: bool, kid: Endpoint, k: nat)
    ensures Orderly(BeforeFree(id, pcb, kid)) && FreesNone(BeforeFree(id, pcb, kid))
    ensures k != id && k != kid.id ==> Silent(BeforeFree(id, pcb, kid), k)
  {
    var a := if pcb then [Accepted(id)] else [];
    var b := RecvBoxEffects(kid);
    var d := if kid.pcb then [Abort(kid.id)] else [];
    Lone(Accepted(id), k);
    Lone(Abort(kid.id), k);
    if kid.recvmbox.Some? { RecvIsOrderly(kid.id, kid.tcp, kid.pcb, kid.recvmbox.value, k); }
    OrderlyAppend(a, b);
    FreesNoneAppend(a, b);
    OrderlyAppend(a + b, d);
    FreesNoneAppend(a + b, d);
    if k != id && k != kid.id {
      SilentAppend(a, b, k);
      SilentAppend(a + b, d, k);
    }
  }

  lemma {:induction false} AcceptIsSilent(id: nat, pcb: bool, kids: seq<Endpoint>, k: nat)
    requires k != id && forall i :: 0 <= i < |kids| ==> kids[i].id != k
    ensures Silent(AcceptEffects(id, pcb, kids), k)
  {
    if kids != [] {
      BeforeFreeIsOrderly(id, pcb, kids[0], k);
      Lone(FreeConn(kids[0].id), k);
      SilentAppend(BeforeFree(id, pcb, kids[0]), [FreeConn(kids[0].id)], k);
      AcceptIsSilent(id, pcb, kids[1..], k);
      SilentAppend(ChildEffects(id, pcb, kids[0]), AcceptEffects(id, pcb, kids[1..]), k);
    }
  }

  lemma {:induction false} AcceptIsOrderly(id: nat, pcb: bool, kids: seq<Endpoint>)
    requires forall i, j :: 0 <= i < j < |kids| ==> kids[i].id != kids[j].id
    requires forall i :: 0 <= i < |kids| ==> kids[i].id != id
    ensures Orderly(AcceptEffects(id, pcb, kids))
  {
    if kids != [] {
      var kid, rest := kids[0], AcceptEffects(id, pcb, kids[1..]);
      AcceptIsOrderly(id, pcb, kids[1..]);
      AcceptIsSilent(id, pcb, kids[1..], kid.id);
      BeforeFreeIsOrderly(id, pcb, kid, kid.id);
      FreedLast(BeforeFree(id, pcb, kid), kid.id, rest);
      assert AcceptEffects(id, pcb, kids) == BeforeFree(id, pcb, kid) + [FreeConn(kid.id)] + rest;
    }
  }

  lemma FreedLast(before: seq<Effect>, k: nat, rest: seq<Effect>)
    requires Orderly(before) && FreesNone(before) && Orderly(rest) && Silent(rest, k)
    ensures Orderly(before + [FreeConn(k)] + rest)
  {
    assert ([FreeConn(k)] + rest)[1..] == rest;
    OrderlyAppend(before, [FreeConn(k)] + rest);
    Associates(before, [FreeConn(k)], rest);
  }

  /** In draining, nothing is used after it has been freed. */
  lemma DrainIsOrderly(c: Endpoint)
    requires DistinctKids(c)
    ensures Orderly(DrainEffects(c))
  {
    if c.recvmbox.Some? { RecvIsOrderly(c.id, c.tcp, c.pcb, c.recvmbox.value, 0); }
    AcceptIsOrderly(c.id, c.pcb, Kids(c));
    OrderlyAppend(RecvBoxEffects(c), AcceptEffects(c.id, c.pcb, Kids(c)));
    assert RecvBoxEffects(c) + [] == RecvBoxEffects(c);
  }
}
