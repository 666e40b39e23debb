/** Resting an order that trades with nobody and cancelling it again leaves no trace. */
module RestCancel {
  import opened Types
  import opened BookSpec
  import opened BookTheory
  import opened Slots
  import opened PriceLevels
  import opened Layouts
  import opened OrderBooks
  import opened MatchingEngines

  /** A sweep without fills took nothing. */
  lemma {:induction false} IdleSweep(b: Book, m: NewOrder)
    requires Swept(b, m).fills == []
    ensures AfterSweep(b, m) == b && Swept(b, m).remaining == m.quantity
  {
  }

  lemma {:induction false} RemoveInserted(s: seq<Resting>, e: Resting)
    requires !HasId(s, e.id)
    ensures Remove(Insert(s, e), e.id) == s
  {
    var k := Position(s, e.side, e.price);
    forall x | x in s[..k] ensures x.id != e.id {
    }
    RemoveMiddle(s[..k], e, s[k..]);
    assert s[..k] + s[k..] == s;
  }

  /** Cancelling an order that has just queued up gives back the book it queued up in. */
  lemma CancelJoined(b: Book, e: Resting)
    requires !b.Knows(e.id)
    ensures ProcessCancel(Joined(b, e), e.id) == b
  {
    RemoveInserted(b.Of(e.side), e);
    RemoveAbsent(b.Of(Opposite(e.side)), e.id);
  }

  /** In the simple book: cancelling undoes resting, wherever the order queued up. */
  lemma RestThenCancel(b: Book, m: NewOrder)
    requires Rests(b, m) && Swept(b, m).fills == []
    ensures AfterSweep(b, m) == b
    ensures ProcessCancel(ProcessNew(b, m).book, m.id) == b
  {
    IdleSweep(b, m);
    ProcessNewParts(b, m);
    CancelJoined(b, Remainder(m, m.quantity));
  }

  /** Undoing an append at the back of one level. */
  lemma UnqueueLast(l: Layout, queues: seq<seq<Ptr>>, p: int, o: Ptr, id: OrderId)
    requires 0 <= p < |queues| && l.queues == queues[p := queues[p] + [o]]
    requires Queued(l, p) && Backed(l, id) && l.index[id] == o
    ensures PriceOf(l, id) == p
    ensures l.queues[p := Without(l.queues[p], Place(l, id))] == queues
  {
    assert l.queues[p][|queues[p]|] == o;
    assert l.mem[o].order.price == p;
    assert Place(l, id) == |queues[p]|;
    assert Without(l.queues[p], |queues[p]|) == queues[p];
  }

  /** The real engine: after resting and cancelling, every level, best price, count, index entry and
      the free list are exactly as before. */
  method RestAndCancel(engine: MatchingEngine, m: NewOrder)
    requires engine.Valid() && Rests(engine.Model(), m) && Swept(engine.Model(), m).fills == []
    modifies engine, engine.book, engine.book.levels, engine.pool, engine.pool.store
    ensures engine.Valid() && engine.Model() == old(engine.Model())
    ensures engine.book.queues == old(engine.book.queues) && engine.book.orderMap == old(engine.book.orderMap)
    ensures engine.pool.free == old(engine.pool.free) && engine.pool.available == old(engine.pool.available)
    ensures engine.book.bestBid == old(engine.book.bestBid) && engine.book.bestAsk == old(engine.book.bestAsk)
    ensures engine.book.bidCount == old(engine.book.bidCount) && engine.book.askCount == old(engine.book.askCount)
    ensures forall p :: 0 <= p < |engine.book.levels| ==>
              var level := engine.book.levels[p];
              && level.head == old(level.head) && level.tail == old(level.tail)
              && level.totalQuantity == old(level.totalQuantity) && level.orderCount == old(level.orderCount)
  {
    ghost var b, free, queues, index := engine.Model(), engine.pool.free, engine.book.queues, engine.book.orderMap;
    RestThenCancel(b, m);
    IndexKnows(engine.book.LayoutIn(engine.Mem()), b, m.id);
    engine.ProcessNewOrder(m);
    CancelLast(engine, m, free, queues, index);
    LevelFieldsAgree(engine);
  }

  /** Cancelling the newest order of its level gives back the queues, index and free list it came from. */
  method CancelLast(engine: MatchingEngine, m: NewOrder, ghost free: seq<Ptr>, ghost queues: seq<seq<Ptr>>,
                    ghost index: map<OrderId, Ptr>)
    requires engine.Valid() && InRange(m.price) && m.id !in index
    requires Took(queues, index, free, m, engine.book.queues, engine.book.orderMap) && engine.pool.free == free[1..]
    modifies engine.book, engine.book.levels, engine.pool, engine.pool.store
    ensures engine.Valid() && engine.Model() == ProcessCancel(old(engine.Model()), m.id)
    ensures engine.book.queues == queues && engine.book.orderMap == index && engine.pool.free == free
  {
    ghost var l := engine.book.LayoutIn(engine.Mem());
    assert Queued(l, m.price);
    IndexedBacks(l, m.id);
    UnqueueLast(l, queues, m.price, free[0], m.id);
    assert l.index - {m.id} == index;
    assert [free[0]] + free[1..] == free;
    var ok := engine.ProcessCancelMessage(m.id);
  }

  twostate lemma LevelFieldsAgree(engine: MatchingEngine)
    requires old(engine.Valid()) && engine.Valid()
    requires engine.book.queues == old(engine.book.queues) && engine.Model() == old(engine.Model())
    ensures forall p :: 0 <= p < |engine.book.levels| ==>
              var level := engine.book.levels[p];
              && level.head == old(level.head) && level.tail == old(level.tail)
              && level.totalQuantity == old(level.totalQuantity) && level.orderCount == old(level.orderCount)
  {
    ghost var book := engine.book;
    forall p | 0 <= p < |book.levels|
      ensures book.levels[p].head == old(book.levels[p].head) && book.levels[p].tail == old(book.levels[p].tail)
      ensures book.levels[p].totalQuantity == old(book.levels[p].totalQuantity)
      ensures book.levels[p].orderCount == old(book.levels[p].orderCount)
    {
      assert old(book.LevelAgrees(engine.Mem(), p)) && book.LevelAgrees(engine.Mem(), p);
      assert old(HoldsAt(book.LayoutIn(engine.Mem()), book.model, p));
      assert HoldsAt(book.LayoutIn(engine.Mem()), book.model, p);
    }
  }
}
