/** The flat order book: one queue per tick, an id index, and cached best prices. */
module OrderBooks {
  import opened Types
  import opened BookSpec
  import opened BookTheory
  import opened Slots
  import opened PriceLevels
  import opened Layouts

  // ---- Best prices ----

  function BestBid(bids: seq<Resting>): int {
    if bids == [] then 0 else bids[0].price
  }

  function BestAsk(asks: seq<Resting>): int {
    if asks == [] then MAX_PRICE_TICKS - 1 else asks[0].price
  }

  /** Cached counts and best prices are the true ones, or the sentinels of an empty side. */
  predicate Caches(b: Book, bestBid: int, bestAsk: int, bidCount: nat, askCount: nat) {
    && bidCount == |b.bids| && askCount == |b.asks|
    && bestBid == BestBid(b.bids) && bestAsk == BestAsk(b.asks)
  }

  lemma AddKeepsCaches(b: Book, e: Resting, bestBid: int, bestAsk: int, bidCount: nat, askCount: nat)
    requires Caches(b, bestBid, bestAsk, bidCount, askCount) && SideOk(b.Of(e.side), e.side)
    ensures e.side.Bid? ==>
      Caches(Joined(b, e), if bidCount == 0 || e.price > bestBid then e.price else bestBid, bestAsk,
             bidCount + 1, askCount)
    ensures e.side.Ask? ==>
      Caches(Joined(b, e), bestBid, if askCount == 0 || e.price < bestAsk then e.price else bestAsk,
             bidCount, askCount + 1)
  {
  }

  lemma TradedCaches(b: Book, side: Side, qty: nat, bestBid: int, bestAsk: int, bidCount: nat, askCount: nat)
    requires Caches(b, bestBid, bestAsk, bidCount, askCount) && b.Of(side) != []
    ensures Caches(Traded(b, side, qty), bestBid, bestAsk, bidCount, askCount)
  {
  }

  /** Taking the order `e` out of its side: the other side stays, the count drops by one, and the best
      price moves only if `e` was the last order at the best level. */
  lemma RemoveFromSide(b: Book, e: Resting)
    requires Structured(b.bids, b.asks) && e in b.Of(e.side)
    ensures var b' := ProcessCancel(b, e.id);
            && b'.Of(Opposite(e.side)) == b.Of(Opposite(e.side))
            && |b'.Of(e.side)| == |b.Of(e.side)| - 1
            && (e.price != b.Of(e.side)[0].price || LevelAt(b'.bids, b'.asks, e.price) != [] ==>
                  b'.Of(e.side) != [] && b'.Of(e.side)[0].price == b.Of(e.side)[0].price)
            && (e.price == b.Of(e.side)[0].price && LevelAt(b'.bids, b'.asks, e.price) == [] ==>
                  forall x :: x in b'.Of(e.side) ==> Rank(e.side, x.price) > Rank(e.side, e.price))
  {
    var s, t := b.Of(e.side), b.Of(Opposite(e.side));
    RemoveAbsent(t, e.id);
    RemoveKeepsSide(s, e.side, e.id);
    QueueAtNone(t, e.price);
    RemoveMovesBest(s, e);
  }

  lemma RemoveBid(b: Book, e: Resting)
    requires Structured(b.bids, b.asks) && e.side.Bid? && e in b.bids
    ensures var b' := ProcessCancel(b, e.id);
            && b'.asks == b.asks && |b'.bids| == |b.bids| - 1
            && (e.price == BestBid(b.bids) && LevelAt(b'.bids, b'.asks, e.price) == [] ==>
                  && (forall x :: x in b'.bids ==> x.price < e.price)
                  && (forall x :: x in b'.asks ==> x.price > e.price))
            && (e.price != BestBid(b.bids) || LevelAt(b'.bids, b'.asks, e.price) != [] ==>
                  BestBid(b'.bids) == BestBid(b.bids))
  {
    RemoveFromSide(b, e);
  }

  lemma RemoveAsk(b: Book, e: Resting)
    requires Structured(b.bids, b.asks) && e.side.Ask? && e in b.asks
    ensures var b' := ProcessCancel(b, e.id);
            && b'.bids == b.bids && |b'.asks| == |b.asks| - 1
            && (e.price == BestAsk(b.asks) && LevelAt(b'.bids, b'.asks, e.price) == [] ==>
                  && (forall x :: x in b'.asks ==> x.price > e.price)
                  && (forall x :: x in b'.bids ==> x.price < e.price))
            && (e.price != BestAsk(b.asks) || LevelAt(b'.bids, b'.asks, e.price) != [] ==>
                  BestAsk(b'.asks) == BestAsk(b.asks))
  {
    RemoveFromSide(b, e);
  }

  lemma RemoveMovesBest(s: seq<Resting>, e: Resting)
    requires SideOk(s, e.side) && e in s
    ensures var s' := Remove(s, e.id);
            && (e.price != s[0].price || QueueAt(s', e.price) != [] ==> s' != [] && s'[0].price == s[0].price)
            && (e.price == s[0].price && QueueAt(s', e.price) == [] ==>
                  forall x :: x in s' ==> Rank(e.side, x.price) > Rank(e.side, e.price))
  {
    var s' := Remove(s, e.id);
    RemoveKeepsSide(s, e.side, e.id);
    QueueAtNone(s', e.price);
    if e.price != s[0].price {
      assert s'[0] == s[0];
    } else {
      forall x | x in s' ensures Rank(e.side, x.price) >= Rank(e.side, e.price) {
        RemoveMembers(s, e.id, x);
      }
    }
  }

  /** Every level strictly between two ticks is empty. */
  predicate NoneBetween(bids: seq<Resting>, asks: seq<Resting>, lo: int, hi: int) {
    forall y :: lo < y < hi ==> LevelAt(bids, asks, y) == []
  }

  /** The first non-empty level below an exhausted best bid is the next best bid: asks lie above. */
  lemma ScanFindsBid(bids: seq<Resting>, asks: seq<Resting>, removed: int, x: int)
    requires Structured(bids, asks) && x < removed
    requires forall e :: e in bids ==> e.price < removed
    requires forall e :: e in asks ==> e.price > removed
    requires NoneBetween(bids, asks, x, removed)
    ensures LevelAt(bids, asks, x) != [] ==> bids != [] && bids[0].price == x
    ensures LevelAt(bids, asks, x) == [] ==>
              NoneBetween(bids, asks, x - 1, removed) && (bids != [] ==> bids[0].price < x)
  {
    QueueAtNone(bids, x);
    QueueAtNone(asks, x);
    if bids != [] {
      QueueAtNone(bids, bids[0].price);
      assert bids[0].price <= x || LevelAt(bids, asks, bids[0].price) == [];
    }
  }

  lemma ScanFindsAsk(bids: seq<Resting>, asks: seq<Resting>, removed: int, x: int)
    requires Structured(bids, asks) && removed < x
    requires forall e :: e in asks ==> removed < e.price
    requires forall e :: e in bids ==> e.price < removed
    requires NoneBetween(bids, asks, removed, x)
    ensures LevelAt(bids, asks, x) != [] ==> asks != [] && asks[0].price == x
    ensures LevelAt(bids, asks, x) == [] ==>
              NoneBetween(bids, asks, removed, x + 1) && (asks != [] ==> x < asks[0].price)
  {
    QueueAtNone(bids, x);
    QueueAtNone(asks, x);
    if asks != [] {
      QueueAtNone(asks, asks[0].price);
      assert x <= asks[0].price || LevelAt(bids, asks, asks[0].price) == [];
    }
  }

  class OrderBook {
    const levels: seq<PriceLevel>
    var bestBid: int
    var bestAsk: int
    var bidCount: nat
    var askCount: nat
    var orderMap: map<OrderId, Ptr>

    ghost var queues: seq<seq<Ptr>>   // the queue of every level
    ghost var model: Book             // the two sorted queues this book stands for

    ghost function LayoutIn(mem: Memory): Layout
      reads `queues, `orderMap
    {
      Layout(mem, queues, orderMap)
    }

    /** The fields of the level at tick `p` describe its queue. */
    ghost predicate LevelAgrees(mem: Memory, p: int)
      reads `queues, levels
    {
      && 0 <= p < |levels| && p < |queues|
      && levels[p].queue == queues[p] && levels[p].Valid(mem)
    }

    ghost predicate LevelsOk(mem: Memory)
      reads `queues, levels
    {
      && |levels| == |queues| == MAX_PRICE_TICKS
      && (forall p, q :: 0 <= p < q < |levels| ==> levels[p] != levels[q])
      && (forall p :: 0 <= p < |levels| ==> LevelAgrees(mem, p))
    }

    ghost predicate Valid(mem: Memory)
      reads this, levels
    {
      && LevelsOk(mem)
      && BookOk(LayoutIn(mem), model)
      && Caches(model, bestBid, bestAsk, bidCount, askCount)
    }

    constructor (ghost capacity: nat)
      ensures fresh(levels) && model == EmptyBook(capacity) && orderMap == map[]
      ensures bestBid == 0 && bestAsk == MAX_PRICE_TICKS - 1 && bidCount == askCount == 0
      ensures forall mem :: Valid(mem)
    {
      var ls: seq<PriceLevel> := [];
      while |ls| < MAX_PRICE_TICKS
        invariant |ls| <= MAX_PRICE_TICKS && fresh(ls)
        invariant forall p, q :: 0 <= p < q < |ls| ==> ls[p] != ls[q]
        invariant forall p :: 0 <= p < |ls| ==> ls[p].IsNew()
      {
        var level := new PriceLevel();
        ls := ls + [level];
      }
      levels := ls;
      bestBid, bestAsk, bidCount, askCount, orderMap := 0, MAX_PRICE_TICKS - 1, 0, 0, map[];
      queues, model := seq(MAX_PRICE_TICKS, _ => []), EmptyBook(capacity);
      new;
      forall mem ensures Valid(mem) {
        EmptyBookOk(mem, capacity);
        forall p | 0 <= p < |levels| ensures LevelAgrees(mem, p) {
        }
      }
    }

    method AddOrder(store: array<Slot>, order: Ptr) returns (ok: bool)
      requires Valid(store[..]) && IsOrder(store[..], order) && !InUse(LayoutIn(store[..]), order)
      requires store[order].order.filled <= store[order].order.quantity && store[order].order.typ.Limit?
      requires NonCrossing(model, store[order].order.View())
      modifies this, levels, store
      ensures Valid(store[..])
      ensures ok == (InRange(old(store[order].order.price)) && old(store[order].order.id) !in old(orderMap))
      ensures !ok ==> LayoutIn(store[..]) == old(LayoutIn(store[..])) && model == old(model)
      ensures ok ==> SameViews(old(store[..]), store[..])
      ensures ok ==> SameExcept(old(store[..]), store[..], old(queues)[old(store[order].order.price)], order)
      ensures ok ==> LayoutIn(store[..]) == Added(old(LayoutIn(store[..])), store[..], order)
      ensures ok ==> model == Joined(old(model), old(store[order].order.View()))
    {
      var o := store[order].order;
      if o.price < 0 || o.price >= MAX_PRICE_TICKS {
        return false;
      }
      if o.id in orderMap {
        return false;
      }
      ghost var b := model;
      LinkOrder(store, order);
      CountOrder(o.side, o.price, b, o.View());
      ok := true;
    }

    /** Index and queue updates of `AddOrder`. */
    method LinkOrder(store: array<Slot>, order: Ptr)
      requires LevelsOk(store[..]) && BookOk(LayoutIn(store[..]), model)
      requires IsOrder(store[..], order) && !InUse(LayoutIn(store[..]), order)
      requires store[order].order.filled <= store[order].order.quantity && store[order].order.typ.Limit?
      requires InRange(store[order].order.price) && store[order].order.id !in orderMap
      requires NonCrossing(model, store[order].order.View())
      modifies `orderMap, `queues, `model, levels, store
      ensures LevelsOk(store[..]) && BookOk(LayoutIn(store[..]), model)
      ensures SameViews(old(store[..]), store[..])
      ensures SameExcept(old(store[..]), store[..], old(queues)[old(store[order].order.price)], order)
      ensures LayoutIn(store[..]) == Added(old(LayoutIn(store[..])), store[..], order)
      ensures model == Joined(old(model), old(store[order].order.View()))
    {
      ghost var l, b, e := LayoutIn(store[..]), model, store[order].order.View();
      IndexedIsIsolated(l, e.price);
      UnusedIsUnqueued(l, order);
      orderMap := orderMap[store[order].order.id := order];
      PushAt(store, order, store[order].order.price);
      AddKeepsBook(l, store[..], b, order);
      model := Joined(b, e);
    }

    /** Appends to one level; no other level's memory moves. */
    method PushAt(store: array<Slot>, order: Ptr, price: int)
      requires LevelsOk(store[..]) && IsOrder(store[..], order) && InRange(price)
      requires Isolated(queues, price) && forall p :: 0 <= p < |queues| ==> order !in queues[p]
      requires store[order].order.filled <= store[order].order.quantity
      modifies `queues, levels, store
      ensures LevelsOk(store[..])
      ensures SameViews(old(store[..]), store[..])
      ensures SameExcept(old(store[..]), store[..], old(queues[price]), order)
      ensures queues == old(queues)[price := old(queues)[price] + [order]]
    {
      ghost var mem, q := store[..], queues[price];
      assert LevelAgrees(mem, price);
      levels[price].PushBack(store, order);
      queues := queues[price := q + [order]];
      forall p | 0 <= p < |levels| ensures LevelAgrees(store[..], p) {
        if p != price {
          assert old(LevelAgrees(mem, p));
          LevelKept(mem, store[..], queues[p], levels[p].head, levels[p].tail,
                    levels[p].totalQuantity, levels[p].orderCount);
        }
      }
    }

    /** Count and best-price updates of `AddOrder`. */
    method CountOrder(side: Side, price: int, ghost before: Book, ghost e: Resting)
      requires Caches(before, bestBid, bestAsk, bidCount, askCount) && SideOk(before.Of(side), side)
      requires e.side == side && e.price == price
      modifies `bestBid, `bestAsk, `bidCount, `askCount
      ensures Caches(Joined(before, e), bestBid, bestAsk, bidCount, askCount)
    {
      AddKeepsCaches(before, e, bestBid, bestAsk, bidCount, askCount);
      if side.Bid? {
        bidCount := bidCount + 1;
        if bidCount == 1 || price > bestBid {
          bestBid := price;
        }
      } else {
        askCount := askCount + 1;
        if askCount == 1 || price < bestAsk {
          bestAsk := price;
        }
      }
    }

    method CancelOrder(store: array<Slot>, id: OrderId) returns (ok: bool)
      requires Valid(store[..])
      modifies this, levels, store
      ensures Valid(store[..])
      ensures ok == (id in old(orderMap))
      ensures !ok ==> LayoutIn(store[..]) == old(LayoutIn(store[..])) && model == old(model)
      ensures ok ==> old(Backed(LayoutIn(store[..]), id)) && SameViews(old(store[..]), store[..])
      ensures ok ==> SameExcept(old(store[..]), store[..], old(queues)[old(PriceOf(LayoutIn(store[..]), id))],
                                old(orderMap)[id])
      ensures ok ==> LayoutIn(store[..]) == Removed(old(LayoutIn(store[..])), store[..], id)
      ensures ok ==> model == ProcessCancel(old(model), id)
    {
      if id !in orderMap {
        return false;
      }
      ghost var l, b := LayoutIn(store[..]), model;
      IndexedRests(l, b, id);
      var order := orderMap[id];
      var price, side := store[order].order.price, store[order].order.side;
      ghost var e := store[order].order.View();
      UnlinkOrder(store, id);
      UncountOrder(side, price, b, e);
      ok := true;
    }

    /** Queue and index updates of `CancelOrder`. */
    method UnlinkOrder(store: array<Slot>, id: OrderId)
      requires LevelsOk(store[..]) && BookOk(LayoutIn(store[..]), model) && Backed(LayoutIn(store[..]), id)
      modifies `orderMap, `queues, `model, levels, store
      ensures LevelsOk(store[..]) && BookOk(LayoutIn(store[..]), model)
      ensures SameViews(old(store[..]), store[..])
      ensures SameExcept(old(store[..]), store[..], old(queues)[old(PriceOf(LayoutIn(store[..]), id))],
                         old(orderMap)[id])
      ensures LayoutIn(store[..]) == Removed(old(LayoutIn(store[..])), store[..], id)
      ensures model == ProcessCancel(old(model), id)
      ensures EmptyAgrees()
    {
      ghost var l, b := LayoutIn(store[..]), model;
      var order := orderMap[id];
      IndexedIsIsolated(l, PriceOf(l, id));
      RemoveAt(store, order, store[order].order.price, Place(l, id));
      assert orderMap == l.index;
      orderMap := orderMap - {id};
      RemoveKeepsBook(l, store[..], b, id);
      model := ProcessCancel(b, id);
      LevelsEmpty(store[..]);
    }

    /** Unlinks from one level; no other level's memory moves. */
    method RemoveAt(store: array<Slot>, order: Ptr, price: int, ghost k: nat)
      requires LevelsOk(store[..]) && InRange(price) && Isolated(queues, price)
      requires k < |queues[price]| && queues[price][k] == order
      modifies `queues, levels, store
      ensures LevelsOk(store[..])
      ensures SameViews(old(store[..]), store[..])
      ensures SameExcept(old(store[..]), store[..], old(queues[price]), order)
      ensures queues == old(queues)[price := Without(old(queues)[price], k)]
    {
      ghost var mem, q := store[..], queues[price];
      assert LevelAgrees(mem, price);
      levels[price].Remove(store, order, k);
      queues := queues[price := Without(q, k)];
      forall p | 0 <= p < |levels| ensures LevelAgrees(store[..], p) {
        if p != price {
          assert old(LevelAgrees(mem, p));
          LevelKept(mem, store[..], queues[p], levels[p].head, levels[p].tail,
                    levels[p].totalQuantity, levels[p].orderCount);
        }
      }
    }

    /** A level is empty exactly when neither side has an order there. */
    ghost predicate EmptyAgrees()
      reads `model, levels
    {
      && |levels| == MAX_PRICE_TICKS
      && forall p :: 0 <= p < |levels| ==> (levels[p].Empty() <==> LevelAt(model.bids, model.asks, p) == [])
    }

    lemma LevelEmpty(mem: Memory, p: int)
      requires LevelsOk(mem) && BookOk(LayoutIn(mem), model) && InRange(p)
      ensures levels[p].Empty() <==> LevelAt(model.bids, model.asks, p) == []
    {
      assert LevelAgrees(mem, p) && HoldsAt(LayoutIn(mem), model, p);
    }

    lemma LevelsEmpty(mem: Memory)
      requires LevelsOk(mem) && BookOk(LayoutIn(mem), model)
      ensures EmptyAgrees()
    {
      forall p | 0 <= p < |levels| ensures levels[p].Empty() <==> LevelAt(model.bids, model.asks, p) == [] {
        LevelEmpty(mem, p);
      }
    }

    /** Count and best-price updates of `CancelOrder`. */
    method UncountOrder(side: Side, price: int, ghost before: Book, ghost e: Resting)
      requires EmptyAgrees() && InRange(price) && Caches(before, bestBid, bestAsk, bidCount, askCount)
      requires Structured(before.bids, before.asks) && Structured(model.bids, model.asks)
      requires e.side == side && e.price == price && e in before.Of(side) && model == ProcessCancel(before, e.id)
      modifies `bestBid, `bestAsk, `bidCount, `askCount
      ensures Caches(model, bestBid, bestAsk, bidCount, askCount)
    {
      if side.Bid? {
        UncountBid(price, before, e);
      } else {
        UncountAsk(price, before, e);
      }
    }

    method UncountBid(price: int, ghost before: Book, ghost e: Resting)
      requires EmptyAgrees() && InRange(price) && Caches(before, bestBid, bestAsk, bidCount, askCount)
      requires Structured(before.bids, before.asks) && Structured(model.bids, model.asks)
      requires e.side.Bid? && e.price == price && e in before.bids && model == ProcessCancel(before, e.id)
      modifies `bestBid, `bidCount
      ensures Caches(model, bestBid, bestAsk, bidCount, askCount)
    {
      RemoveBid(before, e);
      bidCount := bidCount - 1;
      if levels[price].Empty() && price == bestBid {
        UpdateBestBidAfterRemove(price);
      }
    }

    method UncountAsk(price: int, ghost before: Book, ghost e: Resting)
      requires EmptyAgrees() && InRange(price) && Caches(before, bestBid, bestAsk, bidCount, askCount)
      requires Structured(before.bids, before.asks) && Structured(model.bids, model.asks)
      requires e.side.Ask? && e.price == price && e in before.asks && model == ProcessCancel(before, e.id)
      modifies `bestAsk, `askCount
      ensures Caches(model, bestBid, bestAsk, bidCount, askCount)
    {
      RemoveAsk(before, e);
      askCount := askCount - 1;
      if levels[price].Empty() && price == bestAsk {
        UpdateBestAskAfterRemove(price);
      }
    }

    method UpdateBestBidAfterRemove(removed: int)
      requires EmptyAgrees() && Structured(model.bids, model.asks)
      requires bidCount == |model.bids| && InRange(removed)
      requires forall x :: x in model.bids ==> x.price < removed
      requires forall x :: x in model.asks ==> x.price > removed
      modifies `bestBid
      ensures bestBid == if model.bids == [] then 0 else model.bids[0].price
    {
      if bidCount == 0 {
        bestBid := 0;
        return;
      }
      var p := removed - 1;
      while p >= 0
        invariant -1 <= p < removed
        invariant NoneBetween(model.bids, model.asks, p, removed)
        invariant model.bids[0].price <= p
      {
        ScanFindsBid(model.bids, model.asks, removed, p);
        if !levels[p].Empty() {
          bestBid := p;
          return;
        }
        p := p - 1;
      }
    }

    method UpdateBestAskAfterRemove(removed: int)
      requires EmptyAgrees() && Structured(model.bids, model.asks)
      requires askCount == |model.asks| && InRange(removed)
      requires forall x :: x in model.asks ==> removed < x.price
      requires forall x :: x in model.bids ==> x.price < removed
      modifies `bestAsk
      ensures bestAsk == if model.asks == [] then MAX_PRICE_TICKS - 1 else model.asks[0].price
    {
      if askCount == 0 {
        bestAsk := MAX_PRICE_TICKS - 1;
        return;
      }
      var p := removed + 1;
      while p < MAX_PRICE_TICKS
        invariant removed < p <= MAX_PRICE_TICKS
        invariant NoneBetween(model.bids, model.asks, removed, p)
        invariant p <= model.asks[0].price
      {
        ScanFindsAsk(model.bids, model.asks, removed, p);
        if !levels[p].Empty() {
          bestAsk := p;
          return;
        }
        p := p + 1;
      }
    }

    /** The first half of a fill: the best order of `side` trades `qty`, and its level's aggregate follows. */
    method TradeFront(store: array<Slot>, price: int, order: Ptr, qty: Quantity, ghost side: Side)
      requires Valid(store[..]) && InRange(price)
      requires model.Of(side) != [] && model.Of(side)[0].price == price && order == levels[price].head
      requires qty <= model.Of(side)[0].Remaining()
      modifies `model, levels, store
      ensures Valid(store[..])
      ensures IsOrder(old(store[..]), order) && old(store[..])[order].order.View() == old(model).Of(side)[0]
      ensures old(store[..])[order].order.filled + qty < WORD
      ensures store[..] == AddFilled(old(store[..]), order, qty)
      ensures model == Traded(old(model), side, qty)
    {
      ghost var l, b := LayoutIn(store[..]), model;
      FrontOfLevel(l, b, side);
      IndexedIsIsolated(l, price);
      assert LevelAgrees(l.mem, price);
      TradeAt(store, price, order, qty);
      model := Traded(b, side, qty);
      TradedCaches(b, side, qty, bestBid, bestAsk, bidCount, askCount);
      TradeKeepsBook(l, b, side, qty, order);
      assert LayoutIn(store[..]) == l.(mem := store[..]);
    }

    /** Writes one order's filled quantity and one level's aggregate. */
    method TradeAt(store: array<Slot>, price: int, order: Ptr, qty: Quantity)
      requires LevelsOk(store[..]) && InRange(price) && Isolated(queues, price)
      requires queues[price] != [] && order == queues[price][0]
      requires IsOrder(store[..], order) && qty <= store[order].order.View().Remaining()
      modifies levels, store
      ensures LevelsOk(store[..])
      ensures old(store[..])[order].order.filled + qty < WORD
      ensures store[..] == AddFilled(old(store[..]), order, qty)
    {
      ghost var mem, q := store[..], queues[price];
      assert LevelAgrees(mem, price);
      TradeKeepsLevel(mem, q, levels[price].head, levels[price].tail, levels[price].totalQuantity,
                      levels[price].orderCount, qty);
      WriteFilled(store, order, qty);
      levels[price].ReduceQuantity(qty);
      forall p | 0 <= p < |levels| ensures LevelAgrees(store[..], p) {
        if p != price {
          assert old(LevelAgrees(mem, p));
          LevelKept(mem, store[..], queues[p], levels[p].head, levels[p].tail,
                    levels[p].totalQuantity, levels[p].orderCount);
        }
      }
    }

    /** Writing a slot that holds no resting order leaves the book valid. */
    lemma UnusedWriteKeepsValid(mem: Memory, p: Ptr, value: Slot)
      requires Valid(mem) && 0 <= p < |mem| && !InUse(LayoutIn(mem), p)
      ensures Valid(mem[p := value])
    {
      UnusedWriteKeepsBook(LayoutIn(mem), model, p, value);
      UnusedIsUnqueued(LayoutIn(mem), p);
      var mem' := mem[p := value];
      forall x | 0 <= x < |levels| ensures LevelAgrees(mem', x) {
        assert LevelAgrees(mem, x) && p !in queues[x];
        LevelKept(mem, mem', queues[x], levels[x].head, levels[x].tail,
                  levels[x].totalQuantity, levels[x].orderCount);
      }
    }

    /** The pointer stored for an id, or null. */
    function GetOrder(id: OrderId): Ptr
      reads `orderMap
    {
      if id in orderMap then orderMap[id] else NULL
    }
  }
}
