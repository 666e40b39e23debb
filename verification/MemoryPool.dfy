/** The fixed pool of order slots with its free list threaded through the unused slots. */
module MemoryPools {
  import opened Types
  import opened BookSpec
  import opened Slots

  /** `free` is the acyclic chain of free nodes starting at `head`. */
  predicate FreeChain(mem: Memory, free: seq<Ptr>, head: Ptr) {
    && Distinct(free)
    && head == At(free, 0)
    && (forall i :: 0 <= i < |free| ==> 0 <= free[i] < |mem|)
    && (forall i {:trigger mem[free[i]]} :: 0 <= i < |free| ==> mem[free[i]] == FreeNode(At(free, i + 1)))
  }

  lemma ChainKeptByViews(mem: Memory, mem': Memory, free: seq<Ptr>, head: Ptr)
    requires FreeChain(mem, free, head) && SameViews(mem, mem')
    ensures FreeChain(mem', free, head)
  {
  }

  lemma ChainKeptByFill(mem: Memory, free: seq<Ptr>, head: Ptr, p: Ptr, qty: nat)
    requires FreeChain(mem, free, head) && IsOrder(mem, p) && mem[p].order.filled + qty < WORD
    ensures FreeChain(AddFilled(mem, p, qty), free, head)
  {
  }

  lemma ChainKeptByWrite(mem: Memory, free: seq<Ptr>, head: Ptr, p: Ptr, value: Slot)
    requires FreeChain(mem, free, head) && 0 <= p < |mem| && p !in free
    ensures FreeChain(mem[p := value], free, head)
  {
  }

  lemma ChainPush(mem: Memory, free: seq<Ptr>, head: Ptr, p: Ptr)
    requires FreeChain(mem, free, head) && 0 <= p < |mem| && p !in free
    ensures FreeChain(mem[p := FreeNode(head)], [p] + free, p)
  {
  }

  lemma ChainPop(mem: Memory, free: seq<Ptr>, head: Ptr)
    requires FreeChain(mem, free, head) && free != []
    ensures mem[head] == FreeNode(At(free, 1))
    ensures FreeChain(mem, free[1..], At(free, 1))
  {
  }

  class MemoryPool {
    const store: array<Slot>
    var freeHead: Ptr
    var available: nat
    ghost var free: seq<Ptr>   // the free list, next to be handed out first

    ghost predicate Valid()
      reads this, store
    {
      FreeChain(store[..], free, freeHead) && available == |free|
    }

    /** Links every slot so that the lowest index is handed out first. */
    constructor (poolSize: nat)
      ensures Valid() && fresh(store) && store.Length == poolSize
      ensures free == seq(poolSize, i => i)
    {
      var slots := new Slot[poolSize];
      var head := NULL;
      ghost var chain: seq<Ptr> := [];
      var i := poolSize;
      while i > 0
        invariant 0 <= i <= poolSize
        invariant |chain| == poolSize - i && forall k :: 0 <= k < |chain| ==> chain[k] == i + k
        invariant FreeChain(slots[..], chain, head)
      {
        ChainPush(slots[..], chain, head, i - 1);
        slots[i - 1] := FreeNode(head);
        head := i - 1;
        chain := [i - 1] + chain;
        i := i - 1;
      }
      store := slots;
      freeHead, available, free := head, poolSize, chain;
    }

    /** Pops a slot, or null when exhausted. */
    method Allocate() returns (p: Ptr)
      requires Valid()
      modifies `freeHead, `available, `free
      ensures Valid()
      ensures old(free) == [] ==> p == NULL && free == []
      ensures old(free) != [] ==> p == old(free)[0] && free == old(free)[1..] && 0 <= p < store.Length && p !in free
    {
      if freeHead == NULL {
        return NULL;
      }
      ChainPop(store[..], free, freeHead);
      p := freeHead;
      freeHead := store[p].nextFree;
      available := available - 1;
      free := free[1..];
    }

    /** Pushes a slot back; its contents become the free-list link. */
    method Deallocate(p: Ptr)
      requires Valid() && 0 <= p < store.Length && p !in free
      modifies `freeHead, `available, `free, store
      ensures Valid() && free == [p] + old(free)
      ensures store[..] == old(store[..])[p := FreeNode(old(freeHead))]
    {
      ChainPush(store[..], free, freeHead, p);
      store[p] := FreeNode(freeHead);
      freeHead := p;
      available := available + 1;
      free := [p] + free;
    }
  }
}
