/** Price-time priority matching over the flat book and the slot pool. */
module MatchingEngines {
  import opened Types
  import opened BookSpec
  import opened BookTheory
  import opened Slots
  import opened PriceLevels
  import opened Layouts
  import opened OrderBooks
  import opened MemoryPools
  import opened OrderLaws

  // ---- Slots are either free or resting ----

  predicate Owned(l: Layout, free: seq<Ptr>, p: Ptr) {
    (p in free) != InUse(l, p)
  }

  /** The free list and the resting orders partition the pool. */
  predicate Partitioned(l: Layout, free: seq<Ptr>) {
    forall p {:trigger Owned(l, free, p)} :: 0 <= p < |l.mem| ==> Owned(l, free, p)
  }

  lemma PartitionAfterRemove(l: Layout, mem': Memory, id: OrderId, free: seq<Ptr>)
    requires Indexed(l) && Backed(l, id) && Partitioned(l, free) && |mem'| == |l.mem|
    ensures l.index[id] !in free && !InUse(Removed(l, mem', id), l.index[id])
    ensures Partitioned(Removed(l, mem', id), [l.index[id]] + free)
  {
    var o, l' := l.index[id], Removed(l, mem', id);
    assert Owned(l, free, o);
    forall other | other in l'.index ensures l'.index[other] != o {
      IndexedBacks(l, other);
    }
    forall p | 0 <= p < |l'.mem| ensures Owned(l', [o] + free, p) {
      assert Owned(l, free, p);
      if InUse(l, p) && p != o {
        var other :| other in l.index && l.index[other] == p;
        assert other in l'.index;
      }
    }
  }

  lemma PartitionAfterAdd(l: Layout, mem': Memory, free: seq<Ptr>)
    requires Indexed(l) && Partitioned(l, free) && |mem'| == |l.mem|
    requires free != [] && Distinct(free) && IsOrder(l.mem, free[0]) && InRange(l.mem[free[0]].order.price)
    requires l.mem[free[0]].order.id !in l.index
    ensures Partitioned(Added(l, mem', free[0]), free[1..])
  {
    var o, l' := free[0], Added(l, mem', free[0]);
    forall p | 0 <= p < |l'.mem| ensures Owned(l', free[1..], p) {
      assert Owned(l, free, p);
      if p == o {
        assert l'.index[l.mem[o].order.id] == o;
      } else if InUse(l, p) {
        var other :| other in l.index && l.index[other] == p;
        assert l'.index[other] == p;
      }
    }
  }

  lemma PartitionKept(l: Layout, mem': Memory, free: seq<Ptr>)
    requires Partitioned(l, free) && |mem'| == |l.mem|
    ensures Partitioned(l.(mem := mem'), free)
  {
    forall p | 0 <= p < |mem'| ensures Owned(l.(mem := mem'), free, p) {
      assert Owned(l, free, p);
    }
  }

  /** After an order is unlinked its slot is neither free nor resting, and one order fewer rests. */
  lemma SlotReleased(l: Layout, l': Layout, b: Book, id: OrderId, free: seq<Ptr>, freeHead: Ptr)
    requires BookOk(l, b) && Backed(l, id) && Partitioned(l, free) && FreeChain(l.mem, free, freeHead)
    requires SameViews(l.mem, l'.mem) && l' == Removed(l, l'.mem, id)
    ensures 0 <= l.index[id] < |l'.mem| && l.index[id] !in free && !InUse(l', l.index[id])
    ensures Partitioned(l', [l.index[id]] + free) && FreeChain(l'.mem, free, freeHead)
    ensures |Remove(b.bids, id)| + |Remove(b.asks, id)| + 1 == |b.bids| + |b.asks|
  {
    ChainKeptByViews(l.mem, l'.mem, free, freeHead);
    PartitionAfterRemove(l, l'.mem, id, free);
    IndexKnows(l, b, id);
    CancelCount(b, id);
  }

  /** After an order is queued its slot counts as resting, and one order more rests. */
  lemma SlotTaken(l: Layout, l': Layout, b: Book, free: seq<Ptr>, freeHead: Ptr)
    requires Indexed(l) && Partitioned(l, free) && free != [] && Distinct(free) && FreeChain(l.mem, free[1..], freeHead)
    requires IsOrder(l.mem, free[0]) && InRange(l.mem[free[0]].order.price) && l.mem[free[0]].order.id !in l.index
    requires SameViews(l.mem, l'.mem) && l' == Added(l, l'.mem, free[0])
    requires Open(b.bids) && Open(b.asks) && l.mem[free[0]].order.filled < l.mem[free[0]].order.quantity
    ensures Partitioned(l', free[1..]) && FreeChain(l'.mem, free[1..], freeHead)
    ensures var b' := Joined(b, l.mem[free[0]].order.View());
            Open(b'.bids) && Open(b'.asks) && |b'.bids| + |b'.asks| == |b.bids| + |b.asks| + 1
  {
    ChainKeptByViews(l.mem, l'.mem, free[1..], freeHead);
    PartitionAfterAdd(l, l'.mem, free);
    JoinedOpen(b, l.mem[free[0]].order.View());
  }

  // ---- The engine ----

  /** Cancelling the front order of a side drops it and nothing else. */
  lemma CancelFront(b: Book, side: Side)
    requires Structured(b.bids, b.asks) && b.Of(side) != []
    ensures ProcessCancel(b, b.Of(side)[0].id) == b.With(side, b.Of(side)[1..])
  {
  }

  /** While `price` was the best of `side`, its level holds only that side, and any order there is the best. */
  lemma BestLevel(b: Book, side: Side, price: int)
    requires Structured(b.bids, b.asks) && QueueAt(b.Of(Opposite(side)), price) == []
    requires NoBetter(b.Of(side), side, price)
    ensures LevelAt(b.bids, b.asks, price) != [] <==> b.Of(side) != [] && b.Of(side)[0].price == price
  {
    QueueAtNone(b.Of(side), price);
  }

  lemma FillParts(b: Book, side: Side, qty: nat)
    requires b.Of(side) != [] && b.Of(side)[0].filled < b.Of(side)[0].quantity && qty <= b.Of(side)[0].Remaining()
    ensures var traded := Traded(b, side, qty); var e := traded.Of(side)[0];
            (if e.filled >= e.quantity then traded.With(side, traded.Of(side)[1..]) else traded) ==
            b.With(side, AfterFill(b.Of(side), qty))
  {
  }

  lemma JoinedOpen(b: Book, e: Resting)
    requires Open(b.bids) && Open(b.asks) && e.filled < e.quantity < WORD
    ensures Open(Joined(b, e).bids) && Open(Joined(b, e).asks)
  {
    var t := Insert(b.Of(e.side), e);
    forall i | 0 <= i < |t| ensures t[i].filled < t[i].quantity < WORD {
      InsertAt(b.Of(e.side), e, i);
    }
  }

  lemma CancelUnknown(b: Book, id: OrderId)
    requires !b.Knows(id)
    ensures ProcessCancel(b, id) == b
  {
  }

  lemma ProcessCancelKeepsOpen(b: Book, id: OrderId)
    requires Structured(b.bids, b.asks) && Open(b.bids) && Open(b.asks)
    ensures var b' := ProcessCancel(b, id); Open(b'.bids) && Open(b'.asks)
  {
    RemoveKeepsSide(b.bids, Bid, id);
    RemoveKeepsSide(b.asks, Ask, id);
  }

  lemma CancelCount(b: Book, id: OrderId)
    requires Structured(b.bids, b.asks)
    ensures |Remove(b.bids, id)| + |Remove(b.asks, id)| == |b.bids| + |b.asks| - (if b.Knows(id) then 1 else 0)
  {
  }

  /** The order of `m` took the first free slot, joined the back of its level and was indexed. */
  predicate Took(queues: seq<seq<Ptr>>, index: map<OrderId, Ptr>, free: seq<Ptr>, m: NewOrder,
                 queues': seq<seq<Ptr>>, index': map<OrderId, Ptr>) {
    && free != [] && 0 <= m.price < |queues|
    && queues' == queues[m.price := queues[m.price] + [free[0]]]
    && index' == index[m.id := free[0]]
  }

  class MatchingEngine {
    const book: OrderBook
    const pool: MemoryPool
    var fills: seq<Fill>

    /** The pool's memory. */
    ghost function Mem(): Memory
      reads pool.store
    {
      pool.store[..]
    }

    /** The two sorted queues this engine stands for. */
    ghost function Model(): Book
      reads book
    {
      book.model
    }

    /** Everything but `Open`, which lapses for a moment inside a fill. */
    ghost predicate Sound()
      reads this, book, book.levels, pool, pool.store
    {
      && pool.Valid()
      && book.Valid(Mem())
      && Partitioned(book.LayoutIn(Mem()), pool.free)
      && pool.available + book.bidCount + book.askCount == pool.store.Length == book.model.capacity
    }

    ghost predicate Valid()
      reads this, book, book.levels, pool, pool.store
    {
      Sound() && Open(book.model.bids) && Open(book.model.asks)
    }

    constructor (poolSize: nat)
      ensures Valid() && fresh(book) && fresh(book.levels) && fresh(pool) && fresh(pool.store)
      ensures Model() == EmptyBook(poolSize) && pool.available == poolSize && fills == []
    {
      pool := new MemoryPool(poolSize);
      book := new OrderBook(poolSize);
      fills := [];
      new;
      assert book.Valid(Mem());
      forall p | 0 <= p < |Mem()| ensures Owned(book.LayoutIn(Mem()), pool.free, p) {
        assert pool.free[p] == p;
      }
    }

    /** Takes a resting order out of the book; its slot is then neither resting nor free. */
    method Detach(id: OrderId) returns (order: Ptr)
      requires Sound() && id in book.orderMap
      modifies book, book.levels, pool.store
      ensures pool.Valid() && book.Valid(Mem())
      ensures order == old(book.orderMap)[id] && 0 <= order < pool.store.Length && order !in pool.free
      ensures !InUse(book.LayoutIn(Mem()), order) && Partitioned(book.LayoutIn(Mem()), [order] + pool.free)
      ensures pool.available + 1 + book.bidCount + book.askCount == pool.store.Length == book.model.capacity
      ensures book.model == ProcessCancel(old(book.model), id)
      ensures old(Backed(book.LayoutIn(Mem()), id))
      ensures book.LayoutIn(Mem()) == Removed(old(book.LayoutIn(Mem())), Mem(), id)
    {
      ghost var l, b := book.LayoutIn(Mem()), book.model;
      IndexedBacks(l, id);
      order := book.GetOrder(id);
      var ok := book.CancelOrder(pool.store, id);
      SlotReleased(l, book.LayoutIn(Mem()), b, id, pool.free, pool.freeHead);
    }

    /** Removes a resting order and recycles its slot. */
    method Release(id: OrderId)
      requires Sound() && id in book.orderMap
      modifies book, book.levels, pool, pool.store
      ensures Sound()
      ensures book.model == ProcessCancel(old(book.model), id)
      ensures pool.free == [old(book.orderMap)[id]] + old(pool.free)
      ensures old(Backed(book.LayoutIn(Mem()), id))
      ensures book.LayoutIn(Mem()) == Removed(old(book.LayoutIn(Mem())), Mem(), id)
    {
      var order := Detach(id);
      Discard(order);
    }

    /** The first half of a fill keeps everything but, for a moment, `Open`. */
    method Trade(price: int, passive: Ptr, qty: Quantity, ghost side: Side)
      requires Sound() && InRange(price)
      requires book.model.Of(side) != [] && book.model.Of(side)[0].price == price && passive == book.levels[price].head
      requires qty <= book.model.Of(side)[0].Remaining()
      modifies book, book.levels, pool.store
      ensures Sound()
      ensures 0 <= passive < pool.store.Length && pool.store[passive].Occupied?
      ensures pool.store[passive].order.View() == Reduce(old(book.model).Of(side)[0], qty)
      ensures book.model == Traded(old(book.model), side, qty) && book.orderMap == old(book.orderMap)
    {
      ghost var l, free := book.LayoutIn(Mem()), pool.free;
      book.TradeFront(pool.store, price, passive, qty, side);
      ghost var mem' := Mem();
      ChainKeptByFill(l.mem, free, pool.freeHead, passive, qty);
      PartitionKept(l, mem', free);
      assert book.LayoutIn(mem') == l.(mem := mem');
    }

    /** The second half of a fill: a maker with nothing left leaves the book and its slot is recycled. */
    method Retire(passive: Ptr, ghost side: Side)
      requires Sound() && book.model.Of(side) != []
      requires 0 <= passive < pool.store.Length && pool.store[passive].Occupied?
      requires pool.store[passive].order.View() == book.model.Of(side)[0]
      modifies book, book.levels, pool, pool.store
      ensures Sound()
      ensures var s := old(book.model.Of(side));
        book.model == if s[0].filled >= s[0].quantity then old(book.model).With(side, s[1..]) else old(book.model)
    {
      if pool.store[passive].order.IsFilled() {
        ghost var b := book.model;
        assert HasId(b.Of(side), b.Of(side)[0].id);
        IndexKnows(book.LayoutIn(Mem()), b, b.Of(side)[0].id);
        CancelFront(b, side);
        Release(pool.store[passive].order.id);
      }
    }

    /** The front of the best level is the best order, with its remaining quantity in 32 bits. */
    lemma FrontMaker(side: Side, price: int)
      requires Valid() && InRange(price) && book.model.Of(side) != [] && book.model.Of(side)[0].price == price
      ensures |book.levels| == MAX_PRICE_TICKS
      ensures var passive, e := book.levels[price].head, book.model.Of(side)[0];
              && 0 <= passive < pool.store.Length && pool.store[passive].Occupied?
              && pool.store[passive].order.RemainingQuantity() == e.Remaining() && e.filled < e.quantity
    {
      FrontOfLevel(book.LayoutIn(Mem()), book.model, side);
      assert book.LevelAgrees(Mem(), price);
    }

    /** One fill at the front of the best level. */
    method FillOnce(price: int, m: NewOrder, remaining: Quantity) returns (left: Quantity)
      requires Valid() && InRange(price) && remaining > 0
      requires book.model.Of(Opposite(m.side)) != [] && book.model.Of(Opposite(m.side))[0].price == price
      modifies this, book, book.levels, pool, pool.store
      ensures Valid()
      ensures
        var opp := old(book.model.Of(Opposite(m.side)));
        var qty := Min(remaining, opp[0].Remaining());
        && left == remaining - qty
        && fills == old(fills) + [FillOf(m, opp[0], qty)]
        && book.model == old(book.model).With(Opposite(m.side), AfterFill(opp, qty))
    {
      ghost var side, b := Opposite(m.side), book.model;
      ghost var e := b.Of(side)[0];
      FrontMaker(side, price);
      var passive := book.levels[price].Front();
      var qty := Min(remaining, pool.store[passive].order.RemainingQuantity());
      Trade(price, passive, qty, side);
      left := remaining - qty;
      fills := fills + [Fill(m.id, pool.store[passive].order.id, price, qty, m.timestamp, m.side)];
      OpenAfterFill(b.Of(side), qty);
      FillParts(b, side, qty);
      Retire(passive, side);
    }

    /** One turn of the level loop, in the terms of the sweep it belongs to. */
    method FillNext(price: int, m: NewOrder, remaining: Quantity, ghost opp0: seq<Resting>, ghost quantity: nat)
      returns (left: Quantity)
      requires Valid() && InRange(price) && remaining > 0 && Crosses(m, price) && !book.levels[price].Empty()
      requires QueueAt(book.model.Of(m.side), price) == []
      requires NoBetter(book.model.Of(Opposite(m.side)), Opposite(m.side), price)
      requires Resumes(opp0, m, quantity, fills, book.model.Of(Opposite(m.side)), remaining)
      modifies this, book, book.levels, pool, pool.store
      ensures Valid() && left < remaining
      ensures book.model == old(book.model).With(Opposite(m.side), book.model.Of(Opposite(m.side)))
      ensures NoBetter(book.model.Of(Opposite(m.side)), Opposite(m.side), price)
      ensures Resumes(opp0, m, quantity, fills, book.model.Of(Opposite(m.side)), left) && fills != []
    {
      ghost var side, done := Opposite(m.side), fills;
      ghost var opp := book.model.Of(side);
      LevelIsBest(side, price);
      left := FillOnce(price, m, remaining);
      ghost var qty := Min(remaining, opp[0].Remaining());
      assert fills == done + [FillOf(m, opp[0], qty)] && book.model.Of(side) == AfterFill(opp, qty);
      FillAdvances(opp0, m, quantity, done, opp, remaining, price);
    }

    /** Fills at one level until the taker is satisfied or the level is empty. `opp0` and `quantity`
        describe the sweep this level is part of. */
    method FillLevel(price: int, m: NewOrder, start: Quantity, ghost opp0: seq<Resting>, ghost quantity: nat)
      returns (remaining: Quantity)
      requires Valid() && InRange(price) && start > 0 && Crosses(m, price)
      requires book.model.Of(Opposite(m.side)) != [] && book.model.Of(Opposite(m.side))[0].price == price
      requires Resumes(opp0, m, quantity, fills, book.model.Of(Opposite(m.side)), start)
      modifies this, book, book.levels, pool, pool.store
      ensures Valid() && remaining < start
      ensures book.model == old(book.model).With(Opposite(m.side), book.model.Of(Opposite(m.side)))
      ensures Resumes(opp0, m, quantity, fills, book.model.Of(Opposite(m.side)), remaining) && fills != []
    {
      ghost var side, b := Opposite(m.side), book.model;
      QueueAtNone(b.Of(m.side), price);
      remaining := start;
      while remaining > 0 && !book.levels[price].Empty()
        invariant Valid() && remaining <= start
        invariant book.model == b.With(side, book.model.Of(side))
        invariant NoBetter(book.model.Of(side), side, price)
        invariant Resumes(opp0, m, quantity, fills, book.model.Of(side), remaining)
        invariant if remaining == start then book.model == b else fills != []
        decreases remaining
      {
        remaining := FillNext(price, m, remaining, opp0, quantity);
      }
      LevelIsBest(side, price);
    }

    lemma LevelIsBest(side: Side, price: int)
      requires Sound() && InRange(price)
      requires QueueAt(book.model.Of(Opposite(side)), price) == [] && NoBetter(book.model.Of(side), side, price)
      ensures !book.levels[price].Empty() <==> book.model.Of(side) != [] && book.model.Of(side)[0].price == price
    {
      book.LevelEmpty(Mem(), price);
      BestLevel(book.model, side, price);
    }

    /** Matches against the opposite side, best price first, until the taker is done or stops crossing. */
    method Sweep(m: NewOrder) returns (remaining: Quantity)
      requires Valid() && fills == []
      modifies this, book, book.levels, pool, pool.store
      ensures Valid()
      ensures var s := Swept(old(book.model), m); s.fills == fills && s.remaining == remaining
      ensures book.model == AfterSweep(old(book.model), m)
      ensures fills == [] ==> pool.free == old(pool.free) && book.LayoutIn(Mem()) == old(book.LayoutIn(Mem()))
    {
      if m.side.Bid? {
        remaining := SweepAsks(m);
      } else {
        remaining := SweepBids(m);
      }
    }

    /** The sweep of a bid, from the lowest ask price on. */
    method SweepAsks(m: NewOrder) returns (remaining: Quantity)
      requires Valid() && fills == [] && m.side.Bid?
      modifies this, book, book.levels, pool, pool.store
      ensures Valid()
      ensures Swept(old(book.model), m) == BookSpec.Sweep(fills, book.model.asks, remaining)
      ensures book.model == old(book.model).With(Ask, book.model.asks)
      ensures fills == [] ==> pool.free == old(pool.free) && book.LayoutIn(Mem()) == old(book.LayoutIn(Mem()))
    {
      ghost var b := book.model;
      remaining := m.quantity;
      SweepStarts(b.asks, m, remaining);
      while remaining > 0 && book.askCount > 0
        invariant Valid() && book.model == b.With(Ask, book.model.asks)
        invariant Resumes(b.asks, m, m.quantity, fills, book.model.asks, remaining)
        invariant fills == [] ==> pool.free == old(pool.free) && book.LayoutIn(Mem()) == old(book.LayoutIn(Mem()))
        decreases remaining
      {
        var price := book.bestAsk;
        assert InRange(price) && book.model.asks[0].price == price;
        if m.typ.Limit? && price > m.price {
          break;
        }
        remaining := FillLevel(price, m, remaining, b.asks, m.quantity);
      }
      SweepEnds(b.asks, m, m.quantity, fills, book.model.asks, remaining);
    }

    /** The sweep of a ask, from the highest bid price on. */
    method SweepBids(m: NewOrder) returns (remaining: Quantity)
      requires Valid() && fills == [] && m.side.Ask?
      modifies this, book, book.levels, pool, pool.store
      ensures Valid()
      ensures Swept(old(book.model), m) == BookSpec.Sweep(fills, book.model.bids, remaining)
      ensures book.model == old(book.model).With(Bid, book.model.bids)
      ensures fills == [] ==> pool.free == old(pool.free) && book.LayoutIn(Mem()) == old(book.LayoutIn(Mem()))
    {
      ghost var b := book.model;
      remaining := m.quantity;
      SweepStarts(b.bids, m, remaining);
      while remaining > 0 && book.bidCount > 0
        invariant Valid() && book.model == b.With(Bid, book.model.bids)
        invariant Resumes(b.bids, m, m.quantity, fills, book.model.bids, remaining)
        invariant fills == [] ==> pool.free == old(pool.free) && book.LayoutIn(Mem()) == old(book.LayoutIn(Mem()))
        decreases remaining
      {
        var price := book.bestBid;
        assert InRange(price) && book.model.bids[0].price == price;
        if m.typ.Limit? && price < m.price {
          break;
        }
        remaining := FillLevel(price, m, remaining, b.bids, m.quantity);
      }
      SweepEnds(b.bids, m, m.quantity, fills, book.model.bids, remaining);
    }

    /** Places a new order in an unused slot. */
    method Construct(p: Ptr, order: Order)
      requires pool.Valid() && 0 <= p < pool.store.Length && p !in pool.free
      requires book.Valid(Mem()) && !InUse(book.LayoutIn(Mem()), p)
      modifies pool.store
      ensures pool.Valid() && book.Valid(Mem())
      ensures Mem() == old(Mem())[p := Occupied(order)]
    {
      ChainKeptByWrite(Mem(), pool.free, pool.freeHead, p, Occupied(order));
      book.UnusedWriteKeepsValid(Mem(), p, Occupied(order));
      pool.store[p] := Occupied(order);
    }

    /** Returns a slot that is in use by nobody. */
    method Discard(p: Ptr)
      requires pool.Valid() && 0 <= p < pool.store.Length && p !in pool.free
      requires book.Valid(Mem()) && !InUse(book.LayoutIn(Mem()), p)
      requires Partitioned(book.LayoutIn(Mem()), [p] + pool.free)
      requires pool.available + 1 + book.bidCount + book.askCount == pool.store.Length == book.model.capacity
      modifies pool, pool.store
      ensures Sound()
      ensures pool.free == [p] + old(pool.free)
    {
      ghost var l := book.LayoutIn(Mem());
      book.UnusedWriteKeepsValid(Mem(), p, FreeNode(pool.freeHead));
      pool.Deallocate(p);
      PartitionKept(l, Mem(), pool.free);
      assert book.LayoutIn(Mem()) == l.(mem := Mem());
    }

    /** Offers a freshly constructed order to the book, which refuses it when its id is taken. */
    method Admit(order: Ptr, ghost free: seq<Ptr>) returns (added: bool)
      requires pool.Valid() && book.Valid(Mem()) && Open(book.model.bids) && Open(book.model.asks)
      requires Partitioned(book.LayoutIn(Mem()), free) && !InUse(book.LayoutIn(Mem()), order)
      requires free != [] && Distinct(free) && order == free[0] && pool.free == free[1..] && IsOrder(Mem(), order)
      requires var o := pool.store[order].order; InRange(o.price) && o.typ.Limit? && o.filled < o.quantity
      requires NonCrossing(book.model, pool.store[order].order.View())
      modifies book, book.levels, pool.store
      ensures pool.Valid() && book.Valid(Mem()) && Open(book.model.bids) && Open(book.model.asks)
      ensures var l, b := old(book.LayoutIn(Mem())), old(book.model);
        && added == (l.mem[order].order.id !in l.index)
        && (!added ==> book.LayoutIn(Mem()) == l && book.model == b)
        && (added ==> book.LayoutIn(Mem()) == Added(l, Mem(), order) && Partitioned(book.LayoutIn(Mem()), free[1..]))
        && (added ==> book.model == Joined(b, l.mem[order].order.View()))
        && (added ==> book.bidCount + book.askCount == |b.bids| + |b.asks| + 1)
    {
      ghost var l, b := book.LayoutIn(Mem()), book.model;
      added := book.AddOrder(pool.store, order);
      if added {
        SlotTaken(l, book.LayoutIn(Mem()), b, free, pool.freeHead);
      }
    }

    /** Queues a freshly constructed order, or gives its slot back when its id is taken. `free` is the
        free list before the slot was taken. */
    method Enlist(order: Ptr, ghost free: seq<Ptr>)
      requires pool.Valid() && book.Valid(Mem()) && Open(book.model.bids) && Open(book.model.asks)
      requires Partitioned(book.LayoutIn(Mem()), free) && !InUse(book.LayoutIn(Mem()), order)
      requires free != [] && Distinct(free) && order == free[0] && pool.free == free[1..] && IsOrder(Mem(), order)
      requires pool.available + 1 + book.bidCount + book.askCount == pool.store.Length == book.model.capacity
      requires var o := pool.store[order].order; InRange(o.price) && o.typ.Limit? && o.filled < o.quantity
      requires NonCrossing(book.model, pool.store[order].order.View())
      modifies book, book.levels, pool, pool.store
      ensures Valid()
      ensures var l, e := old(book.LayoutIn(Mem())), old(pool.store[order].order.View());
        var rests := e.id !in l.index;
        && book.model == (if rests then Joined(old(book.model), e) else old(book.model))
        && pool.free == (if rests then free[1..] else free)
        && (rests ==> book.queues == l.queues[e.price := l.queues[e.price] + [order]])
        && (rests ==> book.orderMap == l.index[e.id := order])
    {
      var added := Admit(order, free);
      if !added {
        assert [order] + pool.free == free;
        Discard(order);
      }
    }

    /** Rests the unfilled remainder of a limit order if a slot is free and the id is unused. */
    method Rest(m: NewOrder, remaining: Quantity)
      requires Valid() && m.typ.Limit? && InRange(m.price) && 0 < remaining <= m.quantity
      requires NonCrossing(Model(), Remainder(m, remaining))
      modifies book, book.levels, pool, pool.store
      ensures Valid()
      ensures var rests := old(Model()).HasRoom() && !old(Model()).Knows(m.id);
        && Model() == (if rests then Joined(old(Model()), Remainder(m, remaining)) else old(Model()))
        && pool.free == (if rests then old(pool.free)[1..] else old(pool.free))
        && (rests ==> Took(old(book.queues), old(book.orderMap), old(pool.free), m, book.queues, book.orderMap))
    {
      ghost var l, free := book.LayoutIn(Mem()), pool.free;
      IndexKnows(l, book.model, m.id);
      var order := pool.Allocate();
      if order == NULL {
        return;
      }
      assert Owned(l, free, order);
      Construct(order, Order(m.id, m.side, m.typ, m.price, m.quantity, m.quantity - remaining, m.timestamp,
                             NULL, NULL));
      PartitionKept(l, Mem(), free);
      assert book.LayoutIn(Mem()) == l.(mem := Mem());
      Enlist(order, free);
    }

    method ProcessNewOrder(m: NewOrder)
      requires Valid()
      modifies this, book, book.levels, pool, pool.store
      ensures Valid()
      ensures Outcome(Model(), fills) == ProcessNew(old(Model()), m)
      ensures IsAnswer(old(Model()), m, Outcome(Model(), fills))
      ensures Rests(old(Model()), m) && fills == [] ==>
                && Took(old(book.queues), old(book.orderMap), old(pool.free), m, book.queues, book.orderMap)
                && pool.free == old(pool.free)[1..]
    {
      AnswerIff(Model(), m, ProcessNew(Model(), m));
      fills := [];
      if m.quantity == 0 {
        return;
      }
      var isLimit := m.typ.Limit?;
      if isLimit && (m.price < 0 || m.price >= MAX_PRICE_TICKS) {
        return;
      }
      MatchAndRest(m);
    }

    /** A new order that passed the checks: it trades, and what is left of a limit order rests. */
    method MatchAndRest(m: NewOrder)
      requires Valid() && !Rejected(m) && fills == []
      modifies this, book, book.levels, pool, pool.store
      ensures Valid()
      ensures Outcome(Model(), fills) == ProcessNew(old(Model()), m)
      ensures Rests(old(Model()), m) && fills == [] ==>
                && Took(old(book.queues), old(book.orderMap), old(pool.free), m, book.queues, book.orderMap)
                && pool.free == old(pool.free)[1..]
    {
      ghost var b := Model();
      ProcessNewParts(b, m);
      var remaining := Sweep(m);
      if remaining > 0 && m.typ.Limit? {
        RemainderNonCrossing(b, m);
        Rest(m, remaining);
      }
    }

    method ProcessCancelMessage(id: OrderId) returns (ok: bool)
      requires Valid()
      modifies book, book.levels, pool, pool.store
      ensures Valid()
      ensures ok == old(Model()).Knows(id) == (id in old(book.orderMap))
      ensures Model() == ProcessCancel(old(Model()), id)
      ensures pool.free == if ok then [old(book.orderMap)[id]] + old(pool.free) else old(pool.free)
      ensures ok ==> old(Backed(book.LayoutIn(Mem()), id))
      ensures ok ==> book.LayoutIn(Mem()) == Removed(old(book.LayoutIn(Mem())), Mem(), id)
    {
      ghost var b := Model();
      IndexKnows(book.LayoutIn(Mem()), b, id);
      var order := book.GetOrder(id);
      assert id in book.orderMap ==> Backed(book.LayoutIn(Mem()), id);
      if order == NULL {
        CancelUnknown(b, id);
        return false;
      }
      ProcessCancelKeepsOpen(b, id);
      Release(id);
      ok := true;
    }

    /** One message from the input queue; the fills are those of this message. A new order gets the one right
        answer, and a cancel takes out that order and no other. */
    method ProcessMessage(msg: Message)
      requires Valid()
      modifies this, book, book.levels, pool, pool.store
      ensures Valid()
      ensures Outcome(Model(), fills) == Process(old(Model()), msg)
      ensures msg.New? ==> IsAnswer(old(Model()), msg.order, Outcome(Model(), fills))
      ensures msg.Cancel? ==> IsCancelled(old(Model()), msg.id, Outcome(Model(), fills))
    {
      ghost var b := Model();
      ProcessIff(b, msg);
      match msg
      case New(m) =>
        ProcessNewOrder(m);
      case Cancel(id, _) =>
        fills := [];
        var _ := ProcessCancelMessage(id);
    }
  }
}
