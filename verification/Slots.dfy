/** The memory behind the order pool, and the two kinds of list threaded through it.
    A pointer to an order is the index of its slot. */
module Slots {
  import opened Types
  import opened BookSpec

  type Ptr = int
  const NULL: Ptr := -1

  /** An order is its own list node. */
  datatype Order = Order(id: OrderId, side: Side, typ: OrderType, price: int, quantity: Quantity,
                         filled: Quantity, timestamp: nat, prev: Ptr, next: Ptr)
  {
    /** The 32-bit subtraction of the source, exact while `filled <= quantity`. */
    function RemainingQuantity(): (r: Quantity)
      ensures filled <= quantity ==> r == View().Remaining()
    {
      Sub32(quantity, filled)
    }

    predicate IsFilled() {
      filled >= quantity
    }

    function View(): Resting {
      Resting(id, side, typ, price, quantity, filled, timestamp)
    }
  }

  /** The bytes of one slot: a free-list node or an order. */
  datatype Slot = FreeNode(nextFree: Ptr) | Occupied(order: Order)

  type Memory = seq<Slot>

  predicate IsOrder(mem: Memory, p: Ptr) {
    0 <= p < |mem| && mem[p].Occupied?
  }

  /** An order that is in no queue. */
  predicate Unqueued(mem: Memory, p: Ptr) {
    IsOrder(mem, p) && mem[p].order.prev == NULL && mem[p].order.next == NULL
  }

  function SetPrev(mem: Memory, p: Ptr, value: Ptr): Memory
    requires IsOrder(mem, p)
  {
    mem[p := Occupied(mem[p].order.(prev := value))]
  }

  function SetNext(mem: Memory, p: Ptr, value: Ptr): Memory
    requires IsOrder(mem, p)
  {
    mem[p := Occupied(mem[p].order.(next := value))]
  }

  /** The memory after the order at `p` trades `qty`. */
  function AddFilled(mem: Memory, p: Ptr, qty: nat): Memory
    requires IsOrder(mem, p) && mem[p].order.filled + qty < WORD
  {
    mem[p := Occupied(mem[p].order.(filled := mem[p].order.filled + qty))]
  }

  // ---- Doubly linked queues ----

  /** The pointer at position `i`, or null past either end. */
  function At(q: seq<Ptr>, i: int): Ptr {
    if 0 <= i < |q| then q[i] else NULL
  }

  predicate AllOrders(mem: Memory, q: seq<Ptr>) {
    && (forall i :: 0 <= i < |q| ==> 0 <= q[i] < |mem|)
    && (forall i {:trigger mem[q[i]]} :: 0 <= i < |q| ==> mem[q[i]].Occupied?)
  }

  /** The orders in `q` form a doubly linked list in that order. */
  predicate Linked(mem: Memory, q: seq<Ptr>) {
    && Distinct(q) && AllOrders(mem, q)
    && forall i {:trigger mem[q[i]]} :: 0 <= i < |q| ==>
         && mem[q[i]].order.prev == At(q, i - 1)
         && mem[q[i]].order.next == At(q, i + 1)
  }

  /** What the queue's users see, oldest first. */
  function Contents(mem: Memory, q: seq<Ptr>): (s: seq<Resting>)
    requires AllOrders(mem, q)
    ensures |s| == |q|
    ensures forall i {:trigger s[i]} :: 0 <= i < |q| ==> s[i] == mem[q[i]].order.View()
  {
    seq(|q|, i requires 0 <= i < |q| => mem[q[i]].order.View())
  }

  /** Memory outside `q` and `p` is untouched. */
  predicate SameExcept(mem: Memory, mem': Memory, q: seq<Ptr>, p: Ptr) {
    |mem'| == |mem| && forall x :: 0 <= x < |mem| && x !in q && x != p ==> mem'[x] == mem[x]
  }

  /** The orders of `q` are bit for bit the same. */
  predicate SameQueue(mem: Memory, mem': Memory, q: seq<Ptr>)
    requires AllOrders(mem, q)
  {
    |mem'| == |mem| && forall i {:trigger mem'[q[i]]} :: 0 <= i < |q| ==> mem'[q[i]] == mem[q[i]]
  }

  lemma SameQueueStaysLinked(mem: Memory, mem': Memory, q: seq<Ptr>)
    requires Linked(mem, q) && SameQueue(mem, mem', q)
    ensures Linked(mem', q) && Contents(mem', q) == Contents(mem, q)
  {
  }

  /** Every order keeps its fields; only list pointers may have moved. */
  predicate SameViews(mem: Memory, mem': Memory) {
    |mem'| == |mem| &&
    forall p :: 0 <= p < |mem| ==>
      if mem[p].Occupied? then mem'[p].Occupied? && mem'[p].order.View() == mem[p].order.View()
      else mem'[p] == mem[p]
  }

  lemma ContentsKept(mem: Memory, mem': Memory, q: seq<Ptr>)
    requires AllOrders(mem, q) && SameViews(mem, mem')
    ensures AllOrders(mem', q) && Contents(mem', q) == Contents(mem, q)
  {
  }

  lemma ContentsAppend(mem: Memory, q: seq<Ptr>, p: Ptr)
    requires AllOrders(mem, q) && IsOrder(mem, p)
    ensures AllOrders(mem, q + [p]) && Contents(mem, q + [p]) == Contents(mem, q) + [mem[p].order.View()]
  {
  }

  function Without(q: seq<Ptr>, k: nat): (r: seq<Ptr>)
    requires k < |q|
    ensures |r| == |q| - 1
    ensures forall i :: 0 <= i < |r| ==> r[i] == if i < k then q[i] else q[i + 1]
  {
    q[..k] + q[k + 1..]
  }

  lemma ContentsWithout(mem: Memory, q: seq<Ptr>, k: nat)
    requires AllOrders(mem, q) && k < |q|
    ensures AllOrders(mem, Without(q, k))
    ensures Contents(mem, Without(q, k)) == Contents(mem, q)[..k] + Contents(mem, q)[k + 1..]
  {
  }

  /** A fill moves no pointer and changes only the front order's view. */
  lemma TradeLinks(mem: Memory, q: seq<Ptr>, qty: nat)
    requires Linked(mem, q) && q != [] && mem[q[0]].order.filled + qty < WORD
    ensures Linked(AddFilled(mem, q[0], qty), q)
    ensures SameExcept(mem, AddFilled(mem, q[0], qty), q, q[0])
  {
  }

  lemma TradeContents(mem: Memory, q: seq<Ptr>, qty: nat)
    requires AllOrders(mem, q) && Distinct(q) && q != [] && mem[q[0]].order.filled + qty < WORD
    ensures AllOrders(AddFilled(mem, q[0], qty), q)
    ensures var s := Contents(mem, q); Contents(AddFilled(mem, q[0], qty), q) == [Reduce(s[0], qty)] + s[1..]
  {
  }

  function AppendNode(mem: Memory, q: seq<Ptr>, p: Ptr): Memory
    requires Linked(mem, q) && IsOrder(mem, p) && p !in q
  {
    var mem1 := SetNext(SetPrev(mem, p, At(q, |q| - 1)), p, NULL);
    if q == [] then mem1 else SetNext(mem1, q[|q| - 1], p)
  }

  /** The pointers and neighbours of position `k`. */
  lemma Neighbours(mem: Memory, q: seq<Ptr>, k: nat)
    requires Linked(mem, q) && k < |q|
    ensures IsOrder(mem, q[k]) && mem[q[k]].order.prev == At(q, k - 1) && mem[q[k]].order.next == At(q, k + 1)
    ensures k > 0 ==> IsOrder(mem, q[k - 1]) && q[k - 1] != q[k]
    ensures k + 1 < |q| ==> IsOrder(mem, q[k + 1]) && q[k + 1] != q[k]
  {
  }

  lemma AppendViews(mem: Memory, q: seq<Ptr>, p: Ptr)
    requires Linked(mem, q) && IsOrder(mem, p) && p !in q
    ensures SameViews(mem, AppendNode(mem, q, p)) && SameExcept(mem, AppendNode(mem, q, p), q, p)
  {
  }

  /** What appending `p` does to the order at position `j`. */
  lemma AppendAt(mem: Memory, q: seq<Ptr>, p: Ptr, j: nat)
    requires Linked(mem, q) && IsOrder(mem, p) && p !in q && j <= |q|
    ensures var r, mem' := q + [p], AppendNode(mem, q, p);
            && |mem'| == |mem| && IsOrder(mem', r[j])
            && mem'[r[j]].order.prev == At(r, j - 1)
            && mem'[r[j]].order.next == At(r, j + 1)
  {
  }

  lemma AppendLinks(mem: Memory, q: seq<Ptr>, p: Ptr)
    requires Linked(mem, q) && IsOrder(mem, p) && p !in q
    ensures Linked(AppendNode(mem, q, p), q + [p])
    ensures SameViews(mem, AppendNode(mem, q, p))
    ensures SameExcept(mem, AppendNode(mem, q, p), q, p)
  {
    forall j | 0 <= j < |q + [p]|
      ensures var r, mem' := q + [p], AppendNode(mem, q, p);
              && IsOrder(mem', r[j])
              && mem'[r[j]].order.prev == At(r, j - 1)
              && mem'[r[j]].order.next == At(r, j + 1)
    {
      AppendAt(mem, q, p, j);
    }
    AppendViews(mem, q, p);
  }

  function UnlinkNode(mem: Memory, q: seq<Ptr>, k: nat): Memory
    requires Linked(mem, q) && k < |q|
  {
    var mem1 := if k > 0 then SetNext(mem, q[k - 1], At(q, k + 1)) else mem;
    var mem2 := if k + 1 < |q| then SetPrev(mem1, q[k + 1], At(q, k - 1)) else mem1;
    SetNext(SetPrev(mem2, q[k], NULL), q[k], NULL)
  }

  predicate NullOrOrder(mem: Memory, p: Ptr) {
    p == NULL || IsOrder(mem, p)
  }

  /** The order at `p` and its neighbours are three different orders, as far as they exist. */
  predicate LinksApart(mem: Memory, p: Ptr) {
    && IsOrder(mem, p)
    && var prev, next := mem[p].order.prev, mem[p].order.next;
       && NullOrOrder(mem, prev) && NullOrOrder(mem, next)
       && prev != p && next != p && (prev == next ==> prev == NULL)
  }

  /** The same writes, found from the order's own pointers: its neighbours point at each other. */
  predicate Bypassing(mem: Memory, mem': Memory, p: Ptr)
    requires LinksApart(mem, p)
  {
    var prev, next := mem[p].order.prev, mem[p].order.next;
    && |mem'| == |mem|
    && (forall x :: 0 <= x < |mem| && x != p && x != prev && x != next ==> mem'[x] == mem[x])
    && mem'[p] == Occupied(mem[p].order.(prev := NULL, next := NULL))
    && (prev != NULL ==> mem'[prev] == Occupied(mem[prev].order.(next := next)))
    && (next != NULL ==> mem'[next] == Occupied(mem[next].order.(prev := prev)))
  }

  lemma QueuedApart(mem: Memory, q: seq<Ptr>, k: nat)
    requires Linked(mem, q) && k < |q|
    ensures LinksApart(mem, q[k]) && (k == 0 ==> mem[q[k]].order.prev == NULL)
  {
    Neighbours(mem, q, k);
  }

  lemma BypassIsUnlink(mem: Memory, mem': Memory, q: seq<Ptr>, k: nat)
    requires Linked(mem, q) && k < |q| && LinksApart(mem, q[k]) && Bypassing(mem, mem', q[k])
    ensures mem' == UnlinkNode(mem, q, k)
  {
    Neighbours(mem, q, k);
  }

  /** What unlinking position `k` does to the order at position `j`. */
  lemma UnlinkAt(mem: Memory, q: seq<Ptr>, k: nat, j: nat)
    requires Linked(mem, q) && k < |q| && j < |q| && j != k
    ensures var mem' := UnlinkNode(mem, q, k);
            && |mem'| == |mem| && mem'[q[j]].Occupied?
            && mem'[q[j]].order.prev == At(q, if j == k + 1 then k - 1 else j - 1)
            && mem'[q[j]].order.next == At(q, if j == k - 1 then k + 1 else j + 1)
  {
  }

  lemma UnlinkViews(mem: Memory, q: seq<Ptr>, k: nat)
    requires Linked(mem, q) && k < |q|
    ensures SameViews(mem, UnlinkNode(mem, q, k)) && SameExcept(mem, UnlinkNode(mem, q, k), q, q[k])
  {
  }

  /** The neighbours of position `k` point past it and everyone else is linked as before. */
  predicate Bypassed(mem: Memory, q: seq<Ptr>, k: nat) {
    && AllOrders(mem, q)
    && forall j {:trigger mem[q[j]]} :: 0 <= j < |q| && j != k ==>
      && mem[q[j]].order.prev == At(q, if j == k + 1 then k - 1 else j - 1)
      && mem[q[j]].order.next == At(q, if j == k - 1 then k + 1 else j + 1)
  }

  lemma WithoutDistinct(q: seq<Ptr>, k: nat)
    requires Distinct(q) && k < |q|
    ensures Distinct(Without(q, k))
  {
  }

  /** Both ends of a queue that has lost position `k`. */
  lemma WithoutEnds(q: seq<Ptr>, k: nat)
    requires k < |q|
    ensures At(Without(q, k), 0) == At(q, if k == 0 then 1 else 0)
    ensures At(Without(q, k), |q| - 2) == At(q, if k == |q| - 1 then k - 1 else |q| - 1)
  {
  }

  /** Neighbours in the shortened queue, in terms of the original. */
  lemma WithoutNeighbours(q: seq<Ptr>, k: nat, j: nat)
    requires k < |q| && j < |q| && j != k
    ensures var i := if j < k then j else j - 1;
            && 0 <= i < |q| - 1 && Without(q, k)[i] == q[j]
            && At(Without(q, k), i - 1) == At(q, if j == k + 1 then k - 1 else j - 1)
            && At(Without(q, k), i + 1) == At(q, if j == k - 1 then k + 1 else j + 1)
  {
  }

  lemma BypassedIsLinked(mem: Memory, q: seq<Ptr>, k: nat)
    requires Distinct(q) && k < |q| && Bypassed(mem, q, k)
    ensures Linked(mem, Without(q, k))
  {
    var r := Without(q, k);
    WithoutDistinct(q, k);
    forall i | 0 <= i < |r|
      ensures IsOrder(mem, r[i])
      ensures mem[r[i]].order.prev == At(r, i - 1) && mem[r[i]].order.next == At(r, i + 1)
    {
      var j := if i < k then i else i + 1;
      WithoutNeighbours(q, k, j);
      assert mem[r[i]] == mem[q[j]];
    }
  }

  lemma UnlinkLinks(mem: Memory, q: seq<Ptr>, k: nat)
    requires Linked(mem, q) && k < |q|
    ensures Linked(UnlinkNode(mem, q, k), Without(q, k))
    ensures SameViews(mem, UnlinkNode(mem, q, k))
    ensures SameExcept(mem, UnlinkNode(mem, q, k), q, q[k])
  {
    var mem' := UnlinkNode(mem, q, k);
    assert Bypassed(mem', q, k) by {
      forall j | 0 <= j < |q| && j != k
        ensures IsOrder(mem', q[j])
        ensures mem'[q[j]].order.prev == At(q, if j == k + 1 then k - 1 else j - 1)
        ensures mem'[q[j]].order.next == At(q, if j == k - 1 then k + 1 else j + 1)
      {
        UnlinkAt(mem, q, k, j);
      }
    }
    BypassedIsLinked(mem', q, k);
    UnlinkViews(mem, q, k);
  }

  /** Everything the unlinking writes achieve, whatever the position: the queue without it, in both
      directions, with its ends. */
  lemma BypassLinks(mem: Memory, mem': Memory, q: seq<Ptr>, k: nat)
    requires Linked(mem, q) && k < |q| && LinksApart(mem, q[k]) && Bypassing(mem, mem', q[k])
    ensures Linked(mem', Without(q, k)) && SameViews(mem, mem') && SameExcept(mem, mem', q, q[k])
    ensures At(Without(q, k), 0) == if mem[q[k]].order.prev == NULL then mem[q[k]].order.next else At(q, 0)
    ensures At(Without(q, k), |q| - 2) == if mem[q[k]].order.next == NULL then mem[q[k]].order.prev else At(q, |q| - 1)
  {
    BypassIsUnlink(mem, mem', q, k);
    UnlinkLinks(mem, q, k);
    Neighbours(mem, q, k);
    WithoutEnds(q, k);
  }
}
