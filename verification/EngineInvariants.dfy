/** What the flat structures say in every reachable state, in their own terms: slots, ticks, cached
    prices and counts. `Sound` holds between messages and between the fills of a sweep. */
module EngineInvariants {
  import opened Types
  import opened BookSpec
  import opened BookTheory
  import opened Slots
  import opened PriceLevels
  import opened Layouts
  import opened OrderBooks
  import opened MatchingEngines

  /** Slot `x` is queued at tick `p`. */
  ghost predicate QueuedAt(engine: MatchingEngine, p: int, x: Ptr)
    reads engine, engine.book
  {
    0 <= p < |engine.book.queues| && x in engine.book.queues[p]
  }

  /** A queued slot holds an order of that price, indexed under its id and resting on its own side. */
  lemma QueuedOrder(engine: MatchingEngine, p: int, x: Ptr)
    requires engine.Sound() && QueuedAt(engine, p, x)
    ensures IsOrder(engine.Mem(), x)
    ensures var o := engine.Mem()[x].order;
            && o.price == p && o.id in engine.book.orderMap && engine.book.orderMap[o.id] == x
            && o.View() in engine.Model().Of(o.side)
  {
    var l := engine.book.LayoutIn(engine.Mem());
    assert Queued(l, p);
    var i :| 0 <= i < |l.queues[p]| && l.queues[p][i] == x;
    IndexedRests(l, engine.Model(), l.mem[x].order.id);
  }

  /** The cached best prices bound every queued order of their side, and the book is uncrossed. */
  lemma BestBounds(engine: MatchingEngine, p: int, x: Ptr)
    requires engine.Sound() && QueuedAt(engine, p, x)
    ensures IsOrder(engine.Mem(), x)
    ensures engine.Mem()[x].order.side.Bid? ==>
              && p <= engine.book.bestBid && engine.book.bidCount > 0
              && (engine.book.askCount > 0 ==> p < engine.book.bestAsk)
    ensures engine.Mem()[x].order.side.Ask? ==>
              && engine.book.bestAsk <= p && engine.book.askCount > 0
              && (engine.book.bidCount > 0 ==> engine.book.bestBid < p)
  {
    QueuedOrder(engine, p, x);
    var b, e := engine.Model(), engine.Mem()[x].order.View();
    var i :| 0 <= i < |b.Of(e.side)| && b.Of(e.side)[i] == e;
  }

  /** The best order of a side is at the front of the level at the cached best price. */
  lemma BestIsHeld(engine: MatchingEngine, side: Side)
    requires engine.Sound() && (if side.Bid? then engine.book.bidCount else engine.book.askCount) > 0
    ensures var p := if side.Bid? then engine.book.bestBid else engine.book.bestAsk;
            && InRange(p) && |engine.book.levels| == MAX_PRICE_TICKS && !engine.book.levels[p].Empty()
            && QueuedAt(engine, p, engine.book.levels[p].head)
            && IsOrder(engine.Mem(), engine.book.levels[p].head)
            && engine.Mem()[engine.book.levels[p].head].order.View() == engine.Model().Of(side)[0]
  {
    var b := engine.Model();
    FrontOfLevel(engine.book.LayoutIn(engine.Mem()), b, side);
    assert engine.book.LevelAgrees(engine.Mem(), b.Of(side)[0].price);
  }

  /** A side without orders has its sentinel as cached price: the lowest tick for bids, the highest for asks. */
  lemma EmptySideSentinels(engine: MatchingEngine)
    requires engine.Sound()
    ensures engine.book.bidCount == 0 ==> engine.book.bestBid == 0
    ensures engine.book.askCount == 0 ==> engine.book.bestAsk == MAX_PRICE_TICKS - 1
    ensures engine.book.bidCount == 0 <==> engine.Model().bids == []
    ensures engine.book.askCount == 0 <==> engine.Model().asks == []
  {
  }

  /** No level holds orders of both sides. */
  lemma OneSidePerTick(engine: MatchingEngine, p: int, x: Ptr, y: Ptr)
    requires engine.Sound() && QueuedAt(engine, p, x) && QueuedAt(engine, p, y)
    ensures IsOrder(engine.Mem(), x) && IsOrder(engine.Mem(), y)
    ensures engine.Mem()[x].order.side == engine.Mem()[y].order.side
  {
    QueuedOrder(engine, p, x);
    QueuedOrder(engine, p, y);
    var b, e, f := engine.Model(), engine.Mem()[x].order.View(), engine.Mem()[y].order.View();
    var i :| 0 <= i < |b.Of(e.side)| && b.Of(e.side)[i] == e;
    var j :| 0 <= j < |b.Of(f.side)| && b.Of(f.side)[j] == f;
  }

  /** The id map is exactly the union of the level queues. */
  lemma IndexIsUnion(engine: MatchingEngine, id: OrderId)
    requires engine.Sound()
    ensures id in engine.book.orderMap <==>
            exists p, x :: QueuedAt(engine, p, x) && IsOrder(engine.Mem(), x) && engine.Mem()[x].order.id == id
  {
    var l := engine.book.LayoutIn(engine.Mem());
    if id in l.index {
      IndexedBacks(l, id);
      assert QueuedAt(engine, PriceOf(l, id), l.index[id]);
    }
    forall p, x | QueuedAt(engine, p, x) && IsOrder(engine.Mem(), x) && engine.Mem()[x].order.id == id
      ensures id in l.index
    {
      QueuedOrder(engine, p, x);
    }
  }

  /** Every slot is on the free list or queued at one tick, never both and never neither. */
  lemma SlotsPartitioned(engine: MatchingEngine, x: Ptr)
    requires engine.Sound() && 0 <= x < engine.pool.store.Length
    ensures x in engine.pool.free <==> !exists p :: QueuedAt(engine, p, x)
    ensures Distinct(engine.pool.free)
    ensures |engine.pool.free| + engine.book.bidCount + engine.book.askCount == engine.pool.store.Length
  {
    var l := engine.book.LayoutIn(engine.Mem());
    assert Owned(l, engine.pool.free, x);
    if InUse(l, x) {
      var id :| id in l.index && l.index[id] == x;
      IndexedBacks(l, id);
      assert QueuedAt(engine, PriceOf(l, id), x);
    } else {
      UnusedIsUnqueued(l, x);
    }
  }

  /** A level's aggregate is the outstanding quantity of its queue, modulo 2^32, and exact when that fits. */
  lemma AggregateTracks(engine: MatchingEngine, p: int)
    requires engine.Sound() && InRange(p)
    ensures |engine.book.levels| == |engine.book.queues| == MAX_PRICE_TICKS
    ensures AllOrders(engine.Mem(), engine.book.queues[p])
    ensures var s := Contents(engine.Mem(), engine.book.queues[p]);
            && engine.book.levels[p].totalQuantity == Outstanding(s) % WORD
            && (engine.book.levels[p].totalQuantity == Outstanding(s) <==> Outstanding(s) < WORD)
            && engine.book.levels[p].orderCount == |s| % WORD
  {
    assert engine.book.LevelAgrees(engine.Mem(), p);
    var level := engine.book.levels[p];
    TotalsFit(Contents(engine.Mem(), engine.book.queues[p]), level.totalQuantity, level.orderCount);
  }

  lemma TotalsFit(s: seq<Resting>, totalQuantity: Quantity, orderCount: Quantity)
    requires Totals(s, totalQuantity, orderCount)
    ensures totalQuantity == Outstanding(s) <==> Outstanding(s) < WORD
  {
  }

  // ---- Where the aggregate is not the sum ----

  function HugeBid(id: OrderId): NewOrder {
    NewOrder(id, Bid, Limit, 10, WORD - 1, 0)
  }

  lemma OutstandingPair(a: Resting, b: Resting)
    ensures Outstanding([a, b]) == a.Remaining() + b.Remaining()
  {
    assert [a, b] == [a] + [b];
    OutstandingAppend([a], [b]);
    assert Outstanding([a]) == a.Remaining() && Outstanding([b]) == b.Remaining();
  }

  /** Two orders of the largest size rest in one queue. */
  lemma HugePair()
    ensures var b1 := ProcessNew(EmptyBook(2), HugeBid(1)).book; var b2 := ProcessNew(b1, HugeBid(2)).book;
            && b2.asks == [] && QueueAt(b2.bids, 10) == b2.bids
            && b2.bids == [Remainder(HugeBid(1), WORD - 1), Remainder(HugeBid(2), WORD - 1)]
  {
    var e1, e2 := Remainder(HugeBid(1), WORD - 1), Remainder(HugeBid(2), WORD - 1);
    var b1 := ProcessNew(EmptyBook(2), HugeBid(1)).book;
    assert b1 == Book([e1], [], 2);
    assert !b1.Knows(2) && Position([e1], Bid, 10) == 1;
    assert [e1][..1] + [e2] + [e1][1..] == [e1, e2];
    assert Insert([e1], e2) == [e1, e2];
    assert ProcessNew(b1, HugeBid(2)).book == Book([e1, e2], [], 2);
    QueuePair(e1, e2, 10);
  }

  lemma QueuePair(a: Resting, b: Resting, price: int)
    requires a.price == b.price == price
    ensures QueueAt([a, b], price) == [a, b]
  {
    QueueAtCons(a, [b], price);
    QueueAtCons(b, [], price);
    assert [b] + [] == [b] && [a] + [b] == [a, b];
  }

  /** Together they are more than 32 bits hold. */
  lemma HugeLevel()
    ensures var b1 := ProcessNew(EmptyBook(2), HugeBid(1)).book; var b2 := ProcessNew(b1, HugeBid(2)).book;
            Outstanding(LevelAt(b2.bids, b2.asks, 10)) == 2 * WORD - 2
  {
    HugePair();
    var e1, e2 := Remainder(HugeBid(1), WORD - 1), Remainder(HugeBid(2), WORD - 1);
    OutstandingPair(e1, e2);
    assert QueueAt([], 10) == [] && [e1, e2] + [] == [e1, e2];
  }

  /** The stated invariant of a level fails here: two bids of 2^32 - 1 at one tick on a new engine of two
      slots leave an aggregate of 2^32 - 2 for an outstanding quantity of 2^33 - 2. */
  method AggregateWraps() returns (engine: MatchingEngine)
    ensures engine.Valid() && |engine.book.levels| == |engine.book.queues| == MAX_PRICE_TICKS
    ensures AllOrders(engine.Mem(), engine.book.queues[10])
    ensures engine.book.levels[10].totalQuantity == WORD - 2
    ensures Outstanding(Contents(engine.Mem(), engine.book.queues[10])) == 2 * WORD - 2
  {
    engine := new MatchingEngine(2);
    engine.ProcessNewOrder(HugeBid(1));
    engine.ProcessNewOrder(HugeBid(2));
    HugeLevel();
    WrapsAt10(engine);
  }

  lemma WrapsAt10(engine: MatchingEngine)
    requires engine.Valid() && Outstanding(LevelAt(engine.Model().bids, engine.Model().asks, 10)) == 2 * WORD - 2
    ensures |engine.book.levels| == |engine.book.queues| == MAX_PRICE_TICKS
    ensures AllOrders(engine.Mem(), engine.book.queues[10])
    ensures engine.book.levels[10].totalQuantity == WORD - 2
    ensures Outstanding(Contents(engine.Mem(), engine.book.queues[10])) == 2 * WORD - 2
  {
    assert HoldsAt(engine.book.LayoutIn(engine.Mem()), engine.Model(), 10);
    AggregateTracks(engine, 10);
  }

  // ---- Side counts ----

  function IdSet(s: seq<Resting>): set<OrderId> {
    set i | 0 <= i < |s| :: s[i].id
  }

  lemma {:induction false} IdSetSize(s: seq<Resting>)
    requires DistinctIds(s)
    ensures |IdSet(s)| == |s|
    decreases |s|
  {
    if s != [] {
      var n := |s| - 1;
      IdSetSize(s[..n]);
      IdSetSnoc(s[..n], s[n]);
      assert s[..n] + [s[n]] == s;
    }
  }

  lemma IdSetSnoc(s: seq<Resting>, e: Resting)
    requires DistinctIds(s + [e])
    ensures e.id !in IdSet(s) && IdSet(s + [e]) == IdSet(s) + {e.id}
  {
    var t := s + [e];
    assert t[|s|] == e && forall i :: 0 <= i < |s| ==> t[i] == s[i];
    forall id ensures id in IdSet(t) <==> id in IdSet(s) || id == e.id {
      if id in IdSet(s) {
        var i :| 0 <= i < |s| && s[i].id == id;
        assert t[i].id == id;
      }
    }
  }

  /** The ids of the orders stored with side `side`. */
  ghost function IdsOn(engine: MatchingEngine, side: Side): set<OrderId>
    reads engine, engine.book, engine.pool, engine.pool.store
  {
    set id | id in engine.book.orderMap && IsOrder(engine.Mem(), engine.book.orderMap[id])
             && engine.Mem()[engine.book.orderMap[id]].order.side == side
  }

  /** Each side's count is the number of indexed orders of that side. */
  lemma CountsExact(engine: MatchingEngine)
    requires engine.Sound()
    ensures engine.book.bidCount == |IdsOn(engine, Bid)| && engine.book.askCount == |IdsOn(engine, Ask)|
  {
    SideCount(engine, Bid);
    SideCount(engine, Ask);
  }

  lemma SideCount(engine: MatchingEngine, side: Side)
    requires engine.Sound()
    ensures |IdsOn(engine, side)| == |engine.Model().Of(side)|
  {
    var b, l := engine.Model(), engine.book.LayoutIn(engine.Mem());
    forall id ensures id in IdsOn(engine, side) <==> id in IdSet(b.Of(side)) {
      if id in IdsOn(engine, side) {
        IndexedRests(l, b, id);
      }
      if id in IdSet(b.Of(side)) {
        var i :| 0 <= i < |b.Of(side)| && b.Of(side)[i].id == id;
        RestsIndexed(l, b, b.Of(side)[i]);
      }
    }
    assert IdsOn(engine, side) == IdSet(b.Of(side));
    IdSetSize(b.Of(side));
  }
}
