/** The FIFO queue of one price, threaded through the orders themselves. */
module PriceLevels {
  import opened Types
  import opened BookSpec
  import opened Slots

  /** Quantity still to trade over a queue. */
  function Outstanding(s: seq<Resting>): nat {
    if s == [] then 0 else s[0].Remaining() + Outstanding(s[1..])
  }

  lemma {:induction false} OutstandingAppend(a: seq<Resting>, b: seq<Resting>)
    ensures Outstanding(a + b) == Outstanding(a) + Outstanding(b)
  {
    if a == [] {
      assert a + b == b;
    } else {
      assert (a + b)[1..] == a[1..] + b;
      OutstandingAppend(a[1..], b);
    }
  }

  /** The aggregate fields of a level: exact up to multiples of 2^32. */
  predicate Totals(s: seq<Resting>, totalQuantity: Quantity, orderCount: Quantity) {
    && (forall i :: 0 <= i < |s| ==> s[i].filled <= s[i].quantity < WORD)
    && totalQuantity == Outstanding(s) % WORD
    && orderCount == |s| % WORD
  }

  lemma PushTotals(s: seq<Resting>, e: Resting, totalQuantity: Quantity, orderCount: Quantity)
    requires Totals(s, totalQuantity, orderCount) && e.filled <= e.quantity < WORD
    ensures Totals(s + [e], Add32(totalQuantity, e.Remaining()), Add32(orderCount, 1))
  {
    OutstandingAppend(s, [e]);
    Add32Tracks(Outstanding(s), e.Remaining());
    Add32Tracks(|s|, 1);
  }

  lemma RemoveTotals(s: seq<Resting>, k: nat, totalQuantity: Quantity, orderCount: Quantity)
    requires Totals(s, totalQuantity, orderCount) && k < |s|
    ensures s[k].Remaining() < WORD
    ensures Totals(s[..k] + s[k + 1..], Sub32(totalQuantity, s[k].Remaining()), Sub32(orderCount, 1))
  {
    OutstandingAppend(s[..k], s[k + 1..]);
    OutstandingAppend(s[..k], s[k..]);
    assert s == s[..k] + s[k..] && s[k..][1..] == s[k + 1..];
    Sub32Tracks(Outstanding(s), s[k].Remaining());
    Sub32Tracks(|s|, 1);
  }

  lemma FillTotals(s: seq<Resting>, qty: Quantity, totalQuantity: Quantity, orderCount: Quantity)
    requires Totals(s, totalQuantity, orderCount) && s != [] && qty <= s[0].Remaining()
    ensures Totals([Reduce(s[0], qty)] + s[1..], Sub32(totalQuantity, qty), orderCount)
  {
    Sub32Tracks(Outstanding(s), qty);
    assert ([Reduce(s[0], qty)] + s[1..])[1..] == s[1..];
  }

  /** The fields of a level describe the queue `q` as it lies in memory. */
  predicate LevelOk(mem: Memory, q: seq<Ptr>, head: Ptr, tail: Ptr, totalQuantity: Quantity, orderCount: Quantity) {
    && Linked(mem, q)
    && head == At(q, 0)
    && tail == At(q, |q| - 1)
    && Totals(Contents(mem, q), totalQuantity, orderCount)
  }

  lemma LevelKept(mem: Memory, mem': Memory, q: seq<Ptr>, head: Ptr, tail: Ptr, total: Quantity, count: Quantity)
    requires LevelOk(mem, q, head, tail, total, count) && SameQueue(mem, mem', q)
    ensures LevelOk(mem', q, head, tail, total, count)
  {
    SameQueueStaysLinked(mem, mem', q);
  }

  /** Filling the front order and subtracting the amount from the aggregate keeps the level in step. */
  lemma TradeKeepsLevel(mem: Memory, q: seq<Ptr>, head: Ptr, tail: Ptr, total: Quantity, count: Quantity, qty: Quantity)
    requires LevelOk(mem, q, head, tail, total, count) && q != []
    requires qty <= mem[q[0]].order.View().Remaining()
    ensures IsOrder(mem, q[0]) && mem[q[0]].order.filled + qty < WORD
    ensures SameExcept(mem, AddFilled(mem, q[0], qty), q, q[0])
    ensures LevelOk(AddFilled(mem, q[0], qty), q, head, tail, Sub32(total, qty), count)
  {
    var s := Contents(mem, q);
    assert s[0].filled <= s[0].quantity < WORD;
    FillTotals(s, qty, total, count);
    TradeLinks(mem, q, qty);
    TradeContents(mem, q, qty);
  }

  /** Contents and aggregates after an append, whatever the append did to the pointers. */
  lemma PushKeepsTotals(mem: Memory, mem': Memory, q: seq<Ptr>, p: Ptr, total: Quantity, count: Quantity)
    requires AllOrders(mem, q) && IsOrder(mem, p) && SameViews(mem, mem')
    requires Totals(Contents(mem, q), total, count) && mem[p].order.filled <= mem[p].order.quantity
    ensures AllOrders(mem', q + [p])
    ensures Contents(mem', q + [p]) == Contents(mem, q) + [mem[p].order.View()]
    ensures Totals(Contents(mem', q + [p]), Add32(total, mem[p].order.RemainingQuantity()), Add32(count, 1))
  {
    PushTotals(Contents(mem, q), mem[p].order.View(), total, count);
    ContentsKept(mem, mem', q);
    ContentsAppend(mem', q, p);
  }

  lemma UnlinkKeepsTotals(mem: Memory, mem': Memory, q: seq<Ptr>, k: nat, total: Quantity, count: Quantity)
    requires AllOrders(mem, q) && k < |q| && SameViews(mem, mem')
    requires Totals(Contents(mem, q), total, count)
    ensures AllOrders(mem', Without(q, k))
    ensures Contents(mem', Without(q, k)) == Contents(mem, q)[..k] + Contents(mem, q)[k + 1..]
    ensures Totals(Contents(mem', Without(q, k)),
                   Sub32(total, mem[q[k]].order.RemainingQuantity()), Sub32(count, 1))
  {
    var s := Contents(mem, q);
    RemoveTotals(s, k, total, count);
    ContentsKept(mem, mem', q);
    ContentsWithout(mem', q, k);
  }

  /** The fields of a level after the order at `p` was bypassed, from those before. */
  predicate FieldsAfter(mem: Memory, p: Ptr, head: Ptr, tail: Ptr, total: Quantity, count: Quantity,
                        head': Ptr, tail': Ptr, total': Quantity, count': Quantity)
    requires IsOrder(mem, p)
  {
    var o := mem[p].order;
    && head' == (if o.prev == NULL then o.next else head)
    && tail' == (if o.next == NULL then o.prev else tail)
    && total' == Sub32(total, o.RemainingQuantity()) && count' == Sub32(count, 1)
  }

  /** The level after the unlinking writes and the two subtractions. */
  lemma RemoveKeepsLevel(mem: Memory, mem': Memory, q: seq<Ptr>, k: nat,
                         head: Ptr, tail: Ptr, total: Quantity, count: Quantity,
                         head': Ptr, tail': Ptr, total': Quantity, count': Quantity)
    requires LevelOk(mem, q, head, tail, total, count) && k < |q|
    requires LinksApart(mem, q[k]) && Bypassing(mem, mem', q[k])
    requires FieldsAfter(mem, q[k], head, tail, total, count, head', tail', total', count')
    ensures LevelOk(mem', Without(q, k), head', tail', total', count')
    ensures SameViews(mem, mem') && SameExcept(mem, mem', q, q[k]) && Unqueued(mem', q[k])
  {
    BypassLinks(mem, mem', q, k);
    UnlinkKeepsTotals(mem, mem', q, k, total, count);
  }

  method WritePrev(store: array<Slot>, p: Ptr, value: Ptr)
    requires IsOrder(store[..], p)
    modifies store
    ensures store[..] == SetPrev(old(store[..]), p, value)
  {
    store[p] := Occupied(store[p].order.(prev := value));
  }

  method WriteNext(store: array<Slot>, p: Ptr, value: Ptr)
    requires IsOrder(store[..], p)
    modifies store
    ensures store[..] == SetNext(old(store[..]), p, value)
  {
    store[p] := Occupied(store[p].order.(next := value));
  }

  method WriteFilled(store: array<Slot>, p: Ptr, qty: Quantity)
    requires IsOrder(store[..], p) && store[p].order.filled + qty < WORD
    modifies store
    ensures store[..] == AddFilled(old(store[..]), p, qty)
  {
    store[p] := Occupied(store[p].order.(filled := store[p].order.filled + qty));
  }

  class PriceLevel {
    var head: Ptr
    var tail: Ptr
    var totalQuantity: Quantity
    var orderCount: Quantity
    ghost var queue: seq<Ptr>   // the linked orders, oldest first

    constructor ()
      ensures IsNew()
    {
      head, tail, totalQuantity, orderCount := NULL, NULL, 0, 0;
      queue := [];
    }

    ghost predicate IsNew()
      reads this
      ensures IsNew() ==> queue == [] && forall mem :: Valid(mem)
    {
      queue == [] && head == NULL && tail == NULL && totalQuantity == 0 && orderCount == 0
    }

    ghost predicate Valid(mem: Memory)
      reads this
    {
      LevelOk(mem, queue, head, tail, totalQuantity, orderCount)
    }

    /** The pointer half of `PushBack`. */
    method LinkBack(store: array<Slot>, order: Ptr)
      requires Linked(store[..], queue) && head == At(queue, 0) && tail == At(queue, |queue| - 1)
      requires IsOrder(store[..], order) && order !in queue
      modifies `head, `tail, `queue, store
      ensures queue == old(queue) + [order] && Linked(store[..], queue)
      ensures head == At(queue, 0) && tail == order
      ensures SameViews(old(store[..]), store[..]) && SameExcept(old(store[..]), store[..], old(queue), order)
    {
      AppendLinks(store[..], queue, order);
      WritePrev(store, order, tail);
      WriteNext(store, order, NULL);
      if tail != NULL {
        WriteNext(store, tail, order);
      } else {
        head := order;
      }
      tail := order;
      queue := queue + [order];
      assert store[..] == AppendNode(old(store[..]), old(queue), order);
    }

    /** Appends to the back of the queue: newest order, lowest time priority. */
    method PushBack(store: array<Slot>, order: Ptr)
      requires Valid(store[..]) && IsOrder(store[..], order) && order !in queue
      requires store[order].order.filled <= store[order].order.quantity
      modifies this, store
      ensures Valid(store[..]) && queue == old(queue) + [order]
      ensures SameViews(old(store[..]), store[..]) && SameExcept(old(store[..]), store[..], old(queue), order)
    {
      ghost var mem, q := store[..], queue;
      LinkBack(store, order);
      ghost var mem' := store[..];
      PushKeepsTotals(mem, mem', q, order, totalQuantity, orderCount);
      totalQuantity := Add32(totalQuantity, store[order].order.RemainingQuantity());
      orderCount := Add32(orderCount, 1);
      assert store[..] == mem';
    }

    /** The pointer writes of `Remove`. */
    method Rewire(store: array<Slot>, order: Ptr)
      requires LinksApart(store[..], order)
      modifies `head, `tail, store
      ensures Bypassing(old(store[..]), store[..], order)
      ensures head == if old(store[order].order.prev) == NULL then old(store[order].order.next) else old(head)
      ensures tail == if old(store[order].order.next) == NULL then old(store[order].order.prev) else old(tail)
    {
      var prev, next := store[order].order.prev, store[order].order.next;
      if prev != NULL {
        WriteNext(store, prev, next);
      } else {
        head := next;
      }
      if next != NULL {
        WritePrev(store, next, prev);
      } else {
        tail := prev;
      }
      WritePrev(store, order, NULL);
      WriteNext(store, order, NULL);
    }

    /** Unlinks an order anywhere in the queue. `k` is where it stands; the code needs only the pointer. */
    method Remove(store: array<Slot>, order: Ptr, ghost k: nat)
      requires Valid(store[..]) && k < |queue| && queue[k] == order
      modifies this, store
      ensures Valid(store[..]) && queue == Without(old(queue), k)
      ensures SameViews(old(store[..]), store[..]) && SameExcept(old(store[..]), store[..], old(queue), order)
      ensures Unqueued(store[..], order)
    {
      ghost var mem, q, h, t, total, count := store[..], queue, head, tail, totalQuantity, orderCount;
      QueuedApart(mem, q, k);
      Rewire(store, order);
      Uncount(store[order].order.RemainingQuantity());
      queue := Without(q, k);
      RemoveKeepsLevel(mem, store[..], q, k, h, t, total, count, head, tail, totalQuantity, orderCount);
    }

    /** The aggregate and count updates of a removal. */
    method Uncount(qty: Quantity)
      modifies `totalQuantity, `orderCount
      ensures totalQuantity == Sub32(old(totalQuantity), qty) && orderCount == Sub32(old(orderCount), 1)
    {
      totalQuantity := Sub32(totalQuantity, qty);
      orderCount := Sub32(orderCount, 1);
    }

    /** Removes and returns the oldest order, or null. */
    method PopFront(store: array<Slot>) returns (order: Ptr)
      requires Valid(store[..])
      modifies this, store
      ensures Valid(store[..])
      ensures order == At(old(queue), 0)
      ensures old(queue) == [] ==> queue == [] && store[..] == old(store[..])
      ensures old(queue) != [] ==>
        && queue == Without(old(queue), 0)
        && SameViews(old(store[..]), store[..]) && SameExcept(old(store[..]), store[..], old(queue), order)
        && Unqueued(store[..], order)
    {
      if head == NULL {
        return NULL;
      }
      order := head;
      ghost var mem, q, h, t, total, count := store[..], queue, head, tail, totalQuantity, orderCount;
      QueuedApart(mem, q, 0);
      RewireFront(store, order);
      Uncount(store[order].order.RemainingQuantity());
      queue := Without(q, 0);
      RemoveKeepsLevel(mem, store[..], q, 0, h, t, total, count, head, tail, totalQuantity, orderCount);
    }

    /** The pointer writes of `PopFront`. */
    method RewireFront(store: array<Slot>, order: Ptr)
      requires LinksApart(store[..], order) && store[order].order.prev == NULL
      modifies `head, `tail, store
      ensures Bypassing(old(store[..]), store[..], order)
      ensures head == old(store[order].order.next)
      ensures tail == if head == NULL then NULL else old(tail)
    {
      head := store[order].order.next;
      if head != NULL {
        WritePrev(store, head, NULL);
      } else {
        tail := NULL;
      }
      WritePrev(store, order, NULL);
      WriteNext(store, order, NULL);
    }

    method ReduceQuantity(qty: Quantity)
      modifies `totalQuantity
      ensures totalQuantity == Sub32(old(totalQuantity), qty)
    {
      totalQuantity := Sub32(totalQuantity, qty);
    }

    function Front(): Ptr
      reads `head
    {
      head
    }

    predicate Empty()
      reads `head
    {
      head == NULL
    }
  }
}
