/** How the flat book lies in memory: a queue of slots per tick and an id index, against the two
    sorted queues they stand for. */
module Layouts {
  import opened Types
  import opened BookSpec
  import opened BookTheory
  import opened Slots

  /** Memory, the queue of every tick, and the id index. */
  datatype Layout = Layout(mem: Memory, queues: seq<seq<Ptr>>, index: map<OrderId, Ptr>)

  // The quantifiers below are stated through named predicates so that a fact about a tick or an id is
  // available exactly where a proof mentions it.

  /** The orders queued at tick `p` have that price and are indexed under their own ids. */
  predicate Queued(l: Layout, p: int) {
    && 0 <= p < |l.queues|
    && Distinct(l.queues[p]) && AllOrders(l.mem, l.queues[p])
    && forall i :: 0 <= i < |l.queues[p]| ==>
         var o := l.mem[l.queues[p][i]].order;
         o.price == p && o.id in l.index && l.index[o.id] == l.queues[p][i]
  }

  /** An indexed id names an order with that id, queued at its own price. */
  predicate Backed(l: Layout, id: OrderId) {
    && id in l.index
    && IsOrder(l.mem, l.index[id])
    && l.mem[l.index[id]].order.id == id
    && 0 <= l.mem[l.index[id]].order.price < |l.queues|
    && l.index[id] in l.queues[l.mem[l.index[id]].order.price]
  }

  /** The id index is exactly the union of the level queues. */
  predicate Indexed(l: Layout) {
    && |l.queues| == MAX_PRICE_TICKS
    && (forall p :: 0 <= p < |l.queues| ==> Queued(l, p))
    && (forall id {:trigger Backed(l, id)} :: id in l.index ==> Backed(l, id))
  }

  /** Tick `p` holds what the sorted queues say rests there. */
  predicate HoldsAt(l: Layout, b: Book, p: int) {
    && 0 <= p < |l.queues| && AllOrders(l.mem, l.queues[p])
    && Contents(l.mem, l.queues[p]) == LevelAt(b.bids, b.asks, p)
  }

  predicate Holds(l: Layout, b: Book) {
    forall p :: 0 <= p < |l.queues| ==> HoldsAt(l, b, p)
  }

  /** The layout is a faithful image of the uncrossed sorted book `b`. */
  predicate BookOk(l: Layout, b: Book) {
    Indexed(l) && Holds(l, b) && Structured(b.bids, b.asks)
  }

  predicate InUse(l: Layout, p: Ptr) {
    exists id :: id in l.index && l.index[id] == p
  }

  function PriceOf(l: Layout, id: OrderId): int
    requires Backed(l, id)
  {
    l.mem[l.index[id]].order.price
  }

  /** Where an indexed order stands in its level. */
  ghost function Place(l: Layout, id: OrderId): (k: nat)
    requires Backed(l, id)
    ensures k < |l.queues[PriceOf(l, id)]| && l.queues[PriceOf(l, id)][k] == l.index[id]
  {
    var q := l.queues[PriceOf(l, id)];
    var k :| 0 <= k < |q| && q[k] == l.index[id];
    k
  }

  lemma IndexedBacks(l: Layout, id: OrderId)
    requires Indexed(l) && id in l.index
    ensures Backed(l, id)
  {
  }

  /** An indexed order is in the sorted queue of its side. */
  lemma IndexedRests(l: Layout, b: Book, id: OrderId)
    requires BookOk(l, b) && id in l.index
    ensures Backed(l, id)
    ensures var e := l.mem[l.index[id]].order.View(); e in b.Of(e.side)
  {
    IndexedBacks(l, id);
    var p, k := PriceOf(l, id), Place(l, id);
    var e := l.mem[l.index[id]].order.View();
    assert HoldsAt(l, b, p);
    assert Contents(l.mem, l.queues[p])[k] == e;
    QueueAtMembers(b.bids, p, e);
    QueueAtMembers(b.asks, p, e);
  }

  /** An order of the sorted queues is indexed and stored. */
  lemma RestsIndexed(l: Layout, b: Book, e: Resting)
    requires BookOk(l, b) && (e in b.bids || e in b.asks)
    ensures Backed(l, e.id) && l.mem[l.index[e.id]].order.View() == e
  {
    assert HoldsAt(l, b, e.price) && Queued(l, e.price);
    QueueAtMembers(b.bids, e.price, e);
    QueueAtMembers(b.asks, e.price, e);
    var s := Contents(l.mem, l.queues[e.price]);
    assert e in s;
    var i :| 0 <= i < |s| && s[i] == e;
    assert l.mem[l.queues[e.price][i]].order.View() == e;
    IndexedBacks(l, e.id);
  }

  /** The index knows exactly the ids of the sorted queues. */
  lemma IndexKnows(l: Layout, b: Book, id: OrderId)
    requires BookOk(l, b)
    ensures id in l.index <==> b.Knows(id)
  {
    if id in l.index {
      IndexedRests(l, b, id);
    }
    if b.Knows(id) {
      var e :| (e in b.bids || e in b.asks) && e.id == id;
      RestsIndexed(l, b, e);
    }
  }

  // ---- Adding ----

  function Added(l: Layout, mem': Memory, o: Ptr): Layout
    requires IsOrder(l.mem, o) && 0 <= l.mem[o].order.price < |l.queues|
  {
    var p := l.mem[o].order.price;
    Layout(mem', l.queues[p := l.queues[p] + [o]], l.index[l.mem[o].order.id := o])
  }

  lemma AddQueued(l: Layout, mem': Memory, o: Ptr, p: int)
    requires Indexed(l) && SameViews(l.mem, mem') && IsOrder(l.mem, o) && InRange(l.mem[o].order.price)
    requires l.mem[o].order.id !in l.index && !InUse(l, o) && InRange(p)
    ensures Queued(Added(l, mem', o), p)
  {
    assert Queued(l, p);
    var l' := Added(l, mem', o);
    var q, q' := l.queues[p], l'.queues[p];
    assert forall i :: 0 <= i < |q| ==> q[i] == q'[i] && q[i] != o;
  }

  lemma AddBacked(l: Layout, mem': Memory, o: Ptr, id: OrderId)
    requires Indexed(l) && SameViews(l.mem, mem') && IsOrder(l.mem, o) && InRange(l.mem[o].order.price)
    requires id in Added(l, mem', o).index
    ensures Backed(Added(l, mem', o), id)
  {
    var p := l.mem[o].order.price;
    if id == l.mem[o].order.id {
      assert (l.queues[p] + [o])[|l.queues[p]|] == o;
    } else {
      IndexedBacks(l, id);
      var x, k := PriceOf(l, id), Place(l, id);
      assert Added(l, mem', o).queues[x][k] == l.index[id];
    }
  }

  lemma AddHolds(l: Layout, mem': Memory, b: Book, o: Ptr, p: int)
    requires Holds(l, b) && Structured(b.bids, b.asks) && 0 <= p < |l.queues|
    requires SameViews(l.mem, mem') && IsOrder(l.mem, o) && 0 <= l.mem[o].order.price < |l.queues|
    requires NonCrossing(b, l.mem[o].order.View())
    ensures HoldsAt(Added(l, mem', o), Joined(b, l.mem[o].order.View()), p)
  {
    assert HoldsAt(l, b, p);
    LevelAfterInsert(b, l.mem[o].order.View(), p);
    ContentsKept(l.mem, mem', l.queues[p]);
    if p == l.mem[o].order.price {
      ContentsAppend(mem', l.queues[p], o);
    }
  }

  /** Resting a fresh non-crossing order keeps memory, index and sorted queues in step. */
  lemma AddKeepsBook(l: Layout, mem': Memory, b: Book, o: Ptr)
    requires BookOk(l, b) && SameViews(l.mem, mem') && IsOrder(l.mem, o) && !InUse(l, o)
    requires l.mem[o].order.id !in l.index && InRange(l.mem[o].order.price) && l.mem[o].order.typ.Limit?
    requires NonCrossing(b, l.mem[o].order.View())
    ensures BookOk(Added(l, mem', o), Joined(b, l.mem[o].order.View()))
  {
    var e, l' := l.mem[o].order.View(), Added(l, mem', o);
    forall p | 0 <= p < |l'.queues| ensures Queued(l', p) && HoldsAt(l', Joined(b, e), p) {
      AddQueued(l, mem', o, p);
      AddHolds(l, mem', b, o, p);
    }
    forall id | id in l'.index ensures Backed(l', id) {
      AddBacked(l, mem', o, id);
    }
    IndexKnows(l, b, e.id);
    InsertKeepsSide(b.Of(e.side), e);
    InsertKeepsApart(b, e);
  }

  /** No slot of the queue at `price` is queued anywhere else. */
  predicate Isolated(queues: seq<seq<Ptr>>, price: int) {
    && 0 <= price < |queues|
    && forall p, i :: 0 <= p < |queues| && p != price && 0 <= i < |queues[p]| ==> queues[p][i] !in queues[price]
  }

  lemma IndexedIsIsolated(l: Layout, price: int)
    requires Indexed(l) && InRange(price)
    ensures Isolated(l.queues, price)
  {
    assert Queued(l, price);
    forall p, i | 0 <= p < |l.queues| && p != price && 0 <= i < |l.queues[p]|
      ensures l.queues[p][i] !in l.queues[price]
    {
      assert Queued(l, p);
    }
  }

  lemma UnusedIsUnqueued(l: Layout, o: Ptr)
    requires Indexed(l) && !InUse(l, o)
    ensures forall p :: 0 <= p < |l.queues| ==> o !in l.queues[p]
  {
    forall p | 0 <= p < |l.queues| ensures o !in l.queues[p] {
      assert Queued(l, p);
    }
  }

  // ---- Removing ----

  ghost function Removed(l: Layout, mem': Memory, id: OrderId): Layout
    requires Backed(l, id)
  {
    var p := PriceOf(l, id);
    Layout(mem', l.queues[p := Without(l.queues[p], Place(l, id))], l.index - {id})
  }

  lemma RemoveQueued(l: Layout, mem': Memory, id: OrderId, p: int)
    requires Indexed(l) && Backed(l, id) && SameViews(l.mem, mem') && InRange(p)
    ensures Queued(Removed(l, mem', id), p)
  {
    var l', k := Removed(l, mem', id), Place(l, id);
    assert Queued(l, p);
    var q, q' := l.queues[p], l'.queues[p];
    forall i | 0 <= i < |q'|
      ensures IsOrder(mem', q'[i])
      ensures var o := mem'[q'[i]].order; o.price == p && o.id in l'.index && l'.index[o.id] == q'[i]
    {
      var j := if p == PriceOf(l, id) && i >= k then i + 1 else i;
      assert q'[i] == q[j];
      assert l.mem[q[j]].order.id != id;
    }
  }

  lemma RemoveBacked(l: Layout, mem': Memory, id: OrderId, other: OrderId)
    requires Indexed(l) && Backed(l, id) && SameViews(l.mem, mem') && other in l.index && other != id
    ensures Backed(Removed(l, mem', id), other)
  {
    IndexedBacks(l, other);
    var p, k := PriceOf(l, id), Place(l, id);
    var x, j := PriceOf(l, other), Place(l, other);
    if x == p {
      assert j != k;
      assert Without(l.queues[p], k)[if j < k then j else j - 1] == l.index[other];
    }
  }

  /** Where an order is in its level is where its id is in the level's contents. */
  lemma PlaceInLevel(l: Layout, id: OrderId, p: int)
    requires Indexed(l) && Backed(l, id) && Queued(l, p)
    ensures var s, k := Contents(l.mem, l.queues[p]), Place(l, id);
            Remove(s, id) == if p == PriceOf(l, id) then s[..k] + s[k + 1..] else s
  {
    var q, s, k := l.queues[p], Contents(l.mem, l.queues[p]), Place(l, id);
    assert forall i :: 0 <= i < |s| ==> s[i].id == l.mem[q[i]].order.id;
    if p == PriceOf(l, id) {
      IndexOfAt(s, id, k);
    } else {
      assert IndexOf(s, id) == |s|;
    }
  }

  /** Unlinking `id` takes it out of the contents of its level and changes no other. */
  lemma RemoveFromLevel(l: Layout, mem': Memory, id: OrderId, p: int)
    requires Indexed(l) && Backed(l, id) && Queued(l, p) && SameViews(l.mem, mem')
    ensures AllOrders(mem', Removed(l, mem', id).queues[p])
    ensures Contents(mem', Removed(l, mem', id).queues[p]) == Remove(Contents(l.mem, l.queues[p]), id)
  {
    PlaceInLevel(l, id, p);
    ContentsKept(l.mem, mem', l.queues[p]);
    if p == PriceOf(l, id) {
      ContentsWithout(mem', l.queues[p], Place(l, id));
      assert Removed(l, mem', id).queues[p] == Without(l.queues[p], Place(l, id));
    } else {
      assert Removed(l, mem', id).queues[p] == l.queues[p];
    }
  }

  lemma RemoveHolds(l: Layout, mem': Memory, b: Book, id: OrderId, p: int)
    requires BookOk(l, b) && Backed(l, id) && SameViews(l.mem, mem') && InRange(p)
    ensures HoldsAt(Removed(l, mem', id), ProcessCancel(b, id), p)
  {
    assert HoldsAt(l, b, p) && Queued(l, p);
    LevelAfterRemove(b.bids, b.asks, id, p);
    RemoveFromLevel(l, mem', id, p);
  }

  lemma CancelKeepsStructured(b: Book, id: OrderId)
    requires Structured(b.bids, b.asks)
    ensures Structured(Remove(b.bids, id), Remove(b.asks, id))
  {
    var bids, asks := Remove(b.bids, id), Remove(b.asks, id);
    RemoveKeepsSide(b.bids, Bid, id);
    RemoveKeepsSide(b.asks, Ask, id);
    forall i, j | 0 <= i < |bids| && 0 <= j < |asks|
      ensures bids[i].price < asks[j].price && bids[i].id != asks[j].id
    {
      RemoveMembers(b.bids, id, bids[i]);
      RemoveMembers(b.asks, id, asks[j]);
    }
  }

  /** Unlinking an indexed order keeps memory, index and sorted queues in step. */
  lemma RemoveKeepsBook(l: Layout, mem': Memory, b: Book, id: OrderId)
    requires BookOk(l, b) && Backed(l, id) && SameViews(l.mem, mem')
    ensures BookOk(Removed(l, mem', id), ProcessCancel(b, id))
  {
    var l' := Removed(l, mem', id);
    forall p | 0 <= p < |l'.queues| ensures Queued(l', p) && HoldsAt(l', ProcessCancel(b, id), p) {
      RemoveQueued(l, mem', id, p);
      RemoveHolds(l, mem', b, id, p);
    }
    forall other | other in l'.index ensures Backed(l', other) {
      RemoveBacked(l, mem', id, other);
    }
    CancelKeepsStructured(b, id);
  }

  lemma EmptyBookOk(mem: Memory, capacity: nat)
    ensures BookOk(Layout(mem, seq(MAX_PRICE_TICKS, _ => []), map[]), EmptyBook(capacity))
  {
  }

  // ---- Writes beside the book, and fills ----

  /** Writing a slot that is not in use leaves the book as it was. */
  lemma UnusedWriteKeepsBook(l: Layout, b: Book, p: Ptr, value: Slot)
    requires BookOk(l, b) && 0 <= p < |l.mem| && !InUse(l, p)
    ensures BookOk(l.(mem := l.mem[p := value]), b)
  {
    var l' := l.(mem := l.mem[p := value]);
    UnusedIsUnqueued(l, p);
    forall x | 0 <= x < |l'.queues| ensures Queued(l', x) && HoldsAt(l', b, x) {
      assert Queued(l, x) && HoldsAt(l, b, x);
      assert p !in l.queues[x];
      assert Contents(l'.mem, l'.queues[x]) == Contents(l.mem, l.queues[x]);
    }
    forall id | id in l'.index ensures Backed(l', id) {
      assert Backed(l, id);
    }
  }

  /** The book after its best order on `side` trades `qty`. */
  function Traded(b: Book, side: Side, qty: nat): Book
    requires b.Of(side) != []
  {
    b.With(side, [Reduce(b.Of(side)[0], qty)] + b.Of(side)[1..])
  }

  lemma TradedStructured(b: Book, side: Side, qty: nat)
    requires Structured(b.bids, b.asks) && b.Of(side) != []
    ensures var b' := Traded(b, side, qty); Structured(b'.bids, b'.asks)
  {
    var s := b.Of(side);
    var t := [Reduce(s[0], qty)] + s[1..];
    assert forall i :: 0 <= i < |t| ==> t[i] == s[i].(filled := t[i].filled);
  }

  /** The best order of a side heads the queue of its level. */
  lemma FrontOfLevel(l: Layout, b: Book, side: Side)
    requires BookOk(l, b) && b.Of(side) != []
    ensures var e := b.Of(side)[0];
            && Queued(l, e.price) && HoldsAt(l, b, e.price) && l.queues[e.price] != []
            && l.mem[l.queues[e.price][0]].order.View() == e
            && LevelAt(b.bids, b.asks, e.price) == QueueAt(b.Of(side), e.price)
  {
    var e := b.Of(side)[0];
    assert Queued(l, e.price) && HoldsAt(l, b, e.price);
    QueueAtNone(b.Of(Opposite(side)), e.price);
    assert QueueAt(b.Of(side), e.price)[0] == e;
    assert Contents(l.mem, l.queues[e.price])[0] == e;
  }

  lemma LevelAfterTrade(b: Book, side: Side, qty: nat, p: int)
    requires Structured(b.bids, b.asks) && b.Of(side) != []
    ensures var e, b', s := b.Of(side)[0], Traded(b, side, qty), LevelAt(b.bids, b.asks, p);
            if p == e.price then s != [] && s[0] == e && LevelAt(b'.bids, b'.asks, p) == [Reduce(e, qty)] + s[1..]
            else LevelAt(b'.bids, b'.asks, p) == s
  {
    var s := b.Of(side);
    var t := [Reduce(s[0], qty)] + s[1..];
    assert t[1..] == s[1..];
    if p == s[0].price {
      QueueAtNone(b.Of(Opposite(side)), p);
      assert QueueAt(t, p) == [Reduce(s[0], qty)] + QueueAt(s, p)[1..];
    }
  }

  lemma TradeQueued(l: Layout, qty: nat, o: Ptr, p: int)
    requires Queued(l, p) && IsOrder(l.mem, o) && l.mem[o].order.filled + qty < WORD
    ensures Queued(l.(mem := AddFilled(l.mem, o, qty)), p)
  {
  }

  lemma TradeHolds(l: Layout, b: Book, side: Side, qty: nat, o: Ptr, p: int)
    requires BookOk(l, b) && b.Of(side) != [] && InRange(p)
    requires l.queues[b.Of(side)[0].price] != [] && o == l.queues[b.Of(side)[0].price][0]
    requires IsOrder(l.mem, o) && l.mem[o].order.filled + qty < WORD
    ensures HoldsAt(l.(mem := AddFilled(l.mem, o, qty)), Traded(b, side, qty), p)
  {
    assert Queued(l, p) && HoldsAt(l, b, p) && Queued(l, b.Of(side)[0].price);
    LevelAfterTrade(b, side, qty, p);
    if p == b.Of(side)[0].price {
      TradeContents(l.mem, l.queues[p], qty);
    } else {
      assert o !in l.queues[p];
      assert Contents(AddFilled(l.mem, o, qty), l.queues[p]) == Contents(l.mem, l.queues[p]);
    }
  }

  /** A fill that writes only the maker's filled quantity keeps memory and sorted queues in step. */
  lemma TradeKeepsBook(l: Layout, b: Book, side: Side, qty: nat, o: Ptr)
    requires BookOk(l, b) && b.Of(side) != []
    requires l.queues[b.Of(side)[0].price] != [] && o == l.queues[b.Of(side)[0].price][0]
    requires IsOrder(l.mem, o) && l.mem[o].order.filled + qty < WORD
    ensures BookOk(l.(mem := AddFilled(l.mem, o, qty)), Traded(b, side, qty))
  {
    var l' := l.(mem := AddFilled(l.mem, o, qty));
    forall p | 0 <= p < |l'.queues| ensures Queued(l', p) && HoldsAt(l', Traded(b, side, qty), p) {
      assert Queued(l, p);
      TradeQueued(l, qty, o, p);
      TradeHolds(l, b, side, qty, o, p);
    }
    forall id | id in l'.index ensures Backed(l', id) {
      assert Backed(l, id);
    }
    TradedStructured(b, side, qty);
  }
}
