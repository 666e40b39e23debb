/** The single-producer single-consumer ring as a transition system: one step per atomic load, slot
    access or atomic store, in any interleaving of the two threads. Indices are masked; the history
    variables `pushed`, `popped`, `tailSeen` and `headSeen` record what they stand for. */
module Spsc {
  import opened Bits

  /** Where the producer is inside try_push. */
  datatype Producer<T> =
    | NotPushing
    | HeadLoaded(item: T, head: nat)
    | MayWrite(item: T, head: nat)
    | SlotWritten(item: T, head: nat)

  /** Where the consumer is inside try_pop. */
  datatype Consumer<T> =
    | NotPopping
    | TailLoaded(tail: nat)
    | MayRead(tail: nat)
    | SlotRead(tail: nat, value: T)

  datatype Ring<T> = Ring(
    bits: nat, buffer: seq<T>, head: nat, tail: nat, tailCache: nat, headCache: nat,
    producer: Producer<T>, consumer: Consumer<T>,
    pushed: seq<T>, popped: seq<T>,   // everything published at head, and everything released at tail
    tailSeen: nat, headSeen: nat)     // how many pops and pushes the two caches reflect
  {
    function Capacity(): (c: nat)
      ensures c >= 1
    {
      Pow2(bits)
    }

    /** The index after `i`, wrapped by the mask. */
    function Next(i: nat): nat {
      And(i + 1, Capacity() - 1)
    }

    function Size(): int {
      |pushed| - |popped|
    }
  }

  datatype Step<T> =
    | LoadHead(item: T)
    | TrustTailCache
    | ReloadTail(seen: nat)
    | WriteSlot
    | StoreHead
    | LoadTail
    | TrustHeadCache
    | ReloadHead(seen: nat)
    | ReadSlot
    | StoreTail

  /** A reload observes some published index at least as new as the cached one; a fresh load observes
      the latest. */
  predicate Enabled<T>(r: Ring<T>, step: Step<T>) {
    match step
    case LoadHead(_) => r.producer.NotPushing?
    case TrustTailCache => r.producer.HeadLoaded? && r.Next(r.producer.head) != r.tailCache
    case ReloadTail(seen) =>
      r.producer.HeadLoaded? && r.Next(r.producer.head) == r.tailCache && r.tailSeen <= seen <= |r.popped|
    case WriteSlot => r.producer.MayWrite? && r.producer.head < |r.buffer|
    case StoreHead => r.producer.SlotWritten?
    case LoadTail => r.consumer.NotPopping?
    case TrustHeadCache => r.consumer.TailLoaded? && r.consumer.tail != r.headCache
    case ReloadHead(seen) =>
      r.consumer.TailLoaded? && r.consumer.tail == r.headCache && r.headSeen <= seen <= |r.pushed|
    case ReadSlot => r.consumer.MayRead? && r.consumer.tail < |r.buffer|
    case StoreTail => r.consumer.SlotRead?
  }

  function Apply<T>(r: Ring<T>, step: Step<T>): Ring<T>
    requires Enabled(r, step)
  {
    match step
    case LoadHead(item) => r.(producer := HeadLoaded(item, r.head))
    case TrustTailCache => r.(producer := MayWrite(r.producer.item, r.producer.head))
    case ReloadTail(seen) =>
      var cache := seen % r.Capacity();
      r.(tailCache := cache, tailSeen := seen,
         producer := if r.Next(r.producer.head) == cache then NotPushing
                     else MayWrite(r.producer.item, r.producer.head))
    case WriteSlot =>
      r.(buffer := r.buffer[r.producer.head := r.producer.item],
         producer := SlotWritten(r.producer.item, r.producer.head))
    case StoreHead =>
      r.(head := r.Next(r.producer.head), pushed := r.pushed + [r.producer.item], producer := NotPushing)
    case LoadTail => r.(consumer := TailLoaded(r.tail))
    case TrustHeadCache => r.(consumer := MayRead(r.consumer.tail))
    case ReloadHead(seen) =>
      var cache := seen % r.Capacity();
      r.(headCache := cache, headSeen := seen,
         consumer := if r.consumer.tail == cache then NotPopping else MayRead(r.consumer.tail))
    case ReadSlot => r.(consumer := SlotRead(r.consumer.tail, r.buffer[r.consumer.tail]))
    case StoreTail =>
      r.(tail := r.Next(r.consumer.tail), popped := r.popped + [r.consumer.value], consumer := NotPopping)
  }

  /** The steps of try_push; the others are those of try_pop. */
  predicate IsPush<T>(step: Step<T>) {
    step.LoadHead? || step.TrustTailCache? || step.ReloadTail? || step.WriteSlot? || step.StoreHead?
  }

  function Fresh<T>(bits: nat, buffer: seq<T>): Ring<T> {
    Ring(bits, buffer, 0, 0, 0, 0, NotPushing, NotPopping, [], [], 0, 0)
  }

  // ---- Masked indices ----

  /** Within one lap, counters that differ have different slots. */
  lemma SlotsApart(i: nat, j: nat, capacity: nat)
    requires 0 < capacity && i <= j < i + capacity
    ensures i % capacity == j % capacity <==> i == j
  {
    if i % capacity == j % capacity {
      var a, b := i / capacity, j / capacity;
      assert i == a * capacity + i % capacity && j == b * capacity + j % capacity;
      QuotientUnique(capacity, 0, j - i, b - a, 0);
    }
  }

  lemma NextSlot<T>(r: Ring<T>, i: nat)
    ensures r.Next(i % r.Capacity()) == (i + 1) % r.Capacity()
  {
    var c := r.Capacity();
    MaskIsMod(i % c + 1, r.bits);
    NextMod(i, c);
  }

  lemma NextMod(i: nat, c: nat)
    requires c > 0
    ensures (i % c + 1) % c == (i + 1) % c
  {
    var q, s := i / c, i % c;
    assert i == q * c + s;
    if s + 1 < c {
      ModUnique(i + 1, c, q, s + 1);
      ModUnique(s + 1, c, 0, s + 1);
    } else {
      assert i + 1 == (q + 1) * c;
      ModUnique(i + 1, c, q + 1, 0);
      ModUnique(c, c, 1, 0);
    }
  }

  // ---- The invariant ----

  /** Masked indices and caches are the counters they stand for. */
  ghost predicate Indices<T>(r: Ring<T>) {
    && |r.buffer| == r.Capacity() && r.bits > 0
    && r.head == |r.pushed| % r.Capacity() && r.tail == |r.popped| % r.Capacity()
    && r.tailCache == r.tailSeen % r.Capacity() && r.headCache == r.headSeen % r.Capacity()
  }

  /** Each cache lags in the safe direction, and one slot always stays unused. */
  ghost predicate Lag<T>(r: Ring<T>) {
    && r.tailSeen <= |r.popped| <= r.headSeen <= |r.pushed|
    && |r.pushed| - r.tailSeen < r.Capacity()
  }

  /** What was popped is a prefix of what was pushed, and the live slots hold the rest. */
  ghost predicate Data<T>(r: Ring<T>) {
    && |r.buffer| == r.Capacity()
    && |r.popped| <= |r.pushed|
    && r.popped == r.pushed[..|r.popped|]
    && forall i {:trigger r.pushed[i]} :: |r.popped| <= i < |r.pushed| ==> r.buffer[i % r.Capacity()] == r.pushed[i]
  }

  ghost predicate ProducerOk<T>(r: Ring<T>) {
    match r.producer
    case NotPushing => true
    case HeadLoaded(_, h) => h == r.head
    case MayWrite(_, h) => h == r.head && |r.pushed| + 1 - r.tailSeen < r.Capacity()
    case SlotWritten(item, h) =>
      && h == r.head && |r.pushed| + 1 - r.tailSeen < r.Capacity()
      && h < |r.buffer| && r.buffer[h] == item
  }

  ghost predicate ConsumerOk<T>(r: Ring<T>) {
    match r.consumer
    case NotPopping => true
    case TailLoaded(t) => t == r.tail
    case MayRead(t) => t == r.tail && |r.popped| < r.headSeen
    case SlotRead(t, value) =>
      && t == r.tail && |r.popped| < r.headSeen
      && |r.popped| < |r.pushed| && value == r.pushed[|r.popped|]
  }

  ghost predicate Inv<T>(r: Ring<T>) {
    Indices(r) && Lag(r) && Data(r) && ProducerOk(r) && ConsumerOk(r)
  }

  // ---- Every step keeps it ----

  /** The ring looks full exactly when one more push would lap the tail that was seen. */
  lemma FullTest<T>(r: Ring<T>, seen: nat)
    requires Indices(r) && seen <= |r.pushed| < seen + r.Capacity()
    ensures r.Next(r.head) == seen % r.Capacity() <==> |r.pushed| + 1 - seen == r.Capacity()
  {
    var c := r.Capacity();
    NextSlot(r, |r.pushed|);
    if |r.pushed| + 1 - seen == c {
      assert |r.pushed| + 1 == seen + c;
      AddLap(seen, c);
    } else {
      SlotsApart(seen, |r.pushed| + 1, c);
    }
  }

  lemma AddLap(x: nat, c: nat)
    requires c > 0
    ensures (x + c) % c == x % c
  {
    assert x == (x / c) * c + x % c;
    ModUnique(x + c, c, x / c + 1, x % c);
  }

  /** The ring looks empty exactly when every push that was seen has been popped. */
  lemma EmptyTest<T>(r: Ring<T>, seen: nat)
    requires Indices(r) && Lag(r) && |r.popped| <= seen <= |r.pushed|
    ensures r.tail == seen % r.Capacity() <==> |r.popped| == seen
  {
    SlotsApart(|r.popped|, seen, r.Capacity());
  }

  lemma ReloadTailKeeps<T>(r: Ring<T>, seen: nat)
    requires Inv(r) && Enabled(r, ReloadTail(seen))
    ensures Inv(Apply(r, ReloadTail(seen)))
  {
  }

  lemma TrustTailKeeps<T>(r: Ring<T>)
    requires Inv(r) && Enabled(r, TrustTailCache)
    ensures Inv(Apply(r, TrustTailCache))
  {
    FullTest(r, r.tailSeen);
  }

  /** No live slot is the one the producer is about to write. */
  lemma HeadIsFree<T>(r: Ring<T>, i: nat)
    requires Indices(r) && Lag(r) && |r.popped| <= i < |r.pushed|
    ensures i % r.Capacity() != r.head
  {
    SlotsApart(i, |r.pushed|, r.Capacity());
  }

  lemma WriteKeeps<T>(r: Ring<T>)
    requires Inv(r) && Enabled(r, WriteSlot)
    ensures Inv(Apply(r, WriteSlot))
  {
    var r' := Apply(r, WriteSlot);
    forall i {:trigger r'.pushed[i]} | |r.popped| <= i < |r.pushed|
      ensures r'.buffer[i % r.Capacity()] == r'.pushed[i]
    {
      HeadIsFree(r, i);
      assert r.buffer[i % r.Capacity()] == r.pushed[i];
    }
  }

  lemma StoreHeadKeeps<T>(r: Ring<T>)
    requires Inv(r) && Enabled(r, StoreHead)
    ensures Inv(Apply(r, StoreHead))
  {
    var r' := Apply(r, StoreHead);
    NextSlot(r, |r.pushed|);
    assert r'.popped == r'.pushed[..|r'.popped|];
    forall i {:trigger r'.pushed[i]} | |r'.popped| <= i < |r'.pushed|
      ensures r'.buffer[i % r.Capacity()] == r'.pushed[i]
    {
      if i < |r.pushed| {
        assert r.buffer[i % r.Capacity()] == r.pushed[i];
      }
    }
  }

  lemma TrustHeadKeeps<T>(r: Ring<T>)
    requires Inv(r) && Enabled(r, TrustHeadCache)
    ensures Inv(Apply(r, TrustHeadCache))
  {
  }

  lemma ReloadHeadKeeps<T>(r: Ring<T>, seen: nat)
    requires Inv(r) && Enabled(r, ReloadHead(seen))
    ensures Inv(Apply(r, ReloadHead(seen)))
  {
  }

  lemma ReadKeeps<T>(r: Ring<T>)
    requires Inv(r) && Enabled(r, ReadSlot)
    ensures Inv(Apply(r, ReadSlot))
  {
  }

  lemma StoreTailKeeps<T>(r: Ring<T>)
    requires Inv(r) && Enabled(r, StoreTail)
    ensures Inv(Apply(r, StoreTail))
  {
    var r' := Apply(r, StoreTail);
    NextSlot(r, |r.popped|);
    assert r'.popped == r.pushed[..|r.popped| + 1];
  }

  lemma StepKeeps<T>(r: Ring<T>, step: Step<T>)
    requires Inv(r) && Enabled(r, step)
    ensures Inv(Apply(r, step))
  {
    match step
    case LoadHead(_) =>
    case TrustTailCache => TrustTailKeeps(r);
    case ReloadTail(seen) => ReloadTailKeeps(r, seen);
    case WriteSlot => WriteKeeps(r);
    case StoreHead => StoreHeadKeeps(r);
    case LoadTail =>
    case TrustHeadCache => TrustHeadKeeps(r);
    case ReloadHead(seen) => ReloadHeadKeeps(r, seen);
    case ReadSlot => ReadKeeps(r);
    case StoreTail => StoreTailKeeps(r);
  }

  // ---- Every interleaving ----

  predicate Possible<T>(r: Ring<T>, steps: seq<Step<T>>)
    decreases |steps|
  {
    steps == [] || (Enabled(r, steps[0]) && Possible(Apply(r, steps[0]), steps[1..]))
  }

  function After<T>(r: Ring<T>, steps: seq<Step<T>>): Ring<T>
    requires Possible(r, steps)
    decreases |steps|
  {
    if steps == [] then r else After(Apply(r, steps[0]), steps[1..])
  }

  lemma {:induction false} RunKeeps<T>(r: Ring<T>, steps: seq<Step<T>>)
    requires Inv(r) && Possible(r, steps)
    ensures Inv(After(r, steps))
    decreases |steps|
  {
    if steps != [] {
      StepKeeps(r, steps[0]);
      RunKeeps(Apply(r, steps[0]), steps[1..]);
    }
  }

  /** The slots between tail and head, oldest first. */
  function Window<T>(r: Ring<T>): seq<T>
    requires |r.buffer| == r.Capacity() && |r.popped| <= |r.pushed|
  {
    seq(|r.pushed| - |r.popped|, k requires 0 <= k < |r.pushed| - |r.popped| =>
      r.buffer[(|r.popped| + k) % r.Capacity()])
  }

  lemma WindowIsRest<T>(r: Ring<T>)
    requires Inv(r)
    ensures r.popped + Window(r) == r.pushed
  {
  }

  /** Under every interleaving: what was popped followed by the live slots is what was pushed; never more
      than capacity - 1 items; the caches lag safely; and a slot about to be written is not live. */
  lemma EveryRunIsFifo<T>(bits: nat, buffer: seq<T>, steps: seq<Step<T>>)
    requires bits > 0 && |buffer| == Pow2(bits) && Possible(Fresh(bits, buffer), steps)
    ensures var r := After(Fresh(bits, buffer), steps);
            && Inv(r) && r.popped + Window(r) == r.pushed && r.Size() < r.Capacity()
            && r.tailSeen <= |r.popped| <= r.headSeen <= |r.pushed|
            && (r.producer.MayWrite? ==>
                  && (forall i :: |r.popped| <= i < |r.pushed| ==> i % r.Capacity() != r.producer.head)
                  && (r.consumer.MayRead? || r.consumer.SlotRead? ==> r.consumer.tail != r.producer.head))
  {
    assert Pow2(bits) >= 2 by {
      Pow2Grows(1, bits);
      assert Pow2(1) == 2;
    }
    RunKeeps(Fresh(bits, buffer), steps);
    var r := After(Fresh(bits, buffer), steps);
    WindowIsRest(r);
    if r.producer.MayWrite? {
      forall i | |r.popped| <= i < |r.pushed| ensures i % r.Capacity() != r.producer.head {
        HeadIsFree(r, i);
      }
    }
  }

  /** A refused push: the ring held exactly capacity - 1 items when the tail that was observed was
      published. With a fresh load, that is now, and only then is a push refused. */
  lemma RefusedPush<T>(r: Ring<T>, seen: nat)
    requires Inv(r) && Enabled(r, ReloadTail(seen))
    ensures Apply(r, ReloadTail(seen)).producer.NotPushing? <==> |r.pushed| - seen == r.Capacity() - 1
    ensures seen == |r.popped| ==>
              (Apply(r, ReloadTail(seen)).producer.NotPushing? <==> r.Size() == r.Capacity() - 1)
  {
    FullTest(r, seen);
  }

  /** A refused pop: every push that was observed had been popped. With a fresh load, the ring is empty,
      and only then is a pop refused. */
  lemma RefusedPop<T>(r: Ring<T>, seen: nat)
    requires Inv(r) && Enabled(r, ReloadHead(seen))
    ensures Apply(r, ReloadHead(seen)).consumer.NotPopping? <==> seen == |r.popped|
    ensures seen == |r.pushed| ==> (Apply(r, ReloadHead(seen)).consumer.NotPopping? <==> r.Size() == 0)
  {
    EmptyTest(r, seen);
  }

  // ---- No thread is ever stuck ----

  /** What the code of try_push does next, loading the latest tail if it has to. */
  function ProducerNext<T>(r: Ring<T>, item: T): Step<T> {
    match r.producer
    case NotPushing => LoadHead(item)
    case HeadLoaded(_, h) => if r.Next(h) != r.tailCache then TrustTailCache else ReloadTail(|r.popped|)
    case MayWrite(_, _) => WriteSlot
    case SlotWritten(_, _) => StoreHead
  }

  /** What the code of try_pop does next, loading the latest head if it has to. */
  function ConsumerNext<T>(r: Ring<T>): Step<T> {
    match r.consumer
    case NotPopping => LoadTail
    case TailLoaded(t) => if t != r.headCache then TrustHeadCache else ReloadHead(|r.pushed|)
    case MayRead(_) => ReadSlot
    case SlotRead(_, _) => StoreTail
  }

  /** While the invariant holds both threads can take their next step: in particular every slot access is
      within the buffer. */
  lemma NeverStuck<T>(r: Ring<T>, item: T)
    requires Inv(r)
    ensures Enabled(r, ProducerNext(r, item)) && IsPush(ProducerNext(r, item))
    ensures Enabled(r, ConsumerNext(r)) && !IsPush(ConsumerNext(r))
    ensures r.producer.MayWrite? ==> r.producer.head < |r.buffer|
    ensures r.consumer.MayRead? ==> r.consumer.tail < |r.buffer|
  {
  }

  /** In every reachable state neither thread is stuck, and the slot it is about to access exists. */
  lemma EveryRunContinues<T>(bits: nat, buffer: seq<T>, steps: seq<Step<T>>, item: T)
    requires bits > 0 && |buffer| == Pow2(bits) && Possible(Fresh(bits, buffer), steps)
    ensures var r := After(Fresh(bits, buffer), steps);
            && Enabled(r, ProducerNext(r, item)) && Enabled(r, ConsumerNext(r))
            && (r.producer.MayWrite? ==> r.producer.head < |r.buffer|)
            && (r.consumer.MayRead? ==> r.consumer.tail < |r.buffer|)
  {
    EveryRunIsFifo(bits, buffer, steps);
    NeverStuck(After(Fresh(bits, buffer), steps), item);
  }

  /** What a producer step may touch. */
  lemma PushTouches<T>(r: Ring<T>, step: Step<T>)
    requires Enabled(r, step) && IsPush(step)
    ensures var r' := Apply(r, step);
            && r'.popped == r.popped && r'.consumer == r.consumer
            && (step.LoadHead? || r.producer.HeadLoaded? || r.producer.MayWrite? || r.producer.SlotWritten?)
            && r'.pushed == (if step.StoreHead? then r.pushed + [r.producer.item] else r.pushed)
            && (r'.producer.NotPushing? <==> step.StoreHead? || (step.ReloadTail? && r'.producer.NotPushing?))
            && (!r'.producer.NotPushing? ==> r'.producer.item == if step.LoadHead? then step.item else r.producer.item)
  {
  }

  /** What a consumer step may touch. */
  lemma PopTouches<T>(r: Ring<T>, step: Step<T>)
    requires Enabled(r, step) && !IsPush(step)
    ensures Apply(r, step).pushed == r.pushed && Apply(r, step).producer == r.producer
  {
  }

  // ---- size() ----

  /** Unsigned subtraction in words of `word` bits. */
  function Unsigned(d: int, word: nat): (r: nat)
    ensures r < Pow2(word)
  {
    Remainder(d, Pow2(word))
  }

  function Remainder(d: int, m: nat): (r: nat)
    requires m > 0
    ensures r < m
  {
    d % m
  }

  /** The size read from one consistent pair of indices; `word` is 64 in the source. */
  function MaskedSize(head: nat, tail: nat, bits: nat, word: nat): nat {
    And(Unsigned(head - tail, word), Pow2(bits) - 1)
  }

  lemma WrapTwice(d: int, c: nat, k: nat)
    requires c > 0 && k > 0 && 0 < d + c < 2 * c
    ensures k * c >= c && Remainder(d, k * c) % c == d % c
  {
    var m := k * c;
    MulAtLeast(k, c);
    if d >= 0 {
      ModUnique(d, m, 0, d);
    } else {
      ModUnique(d, m, -1, d + m);
      ModUnique(d, c, -1, d + c);
      assert d + m == (k - 1) * c + (d + c);
      ModUnique(d + m, c, k - 1, d + c);
    }
  }

  lemma DifferenceMod(h: nat, t: nat, c: nat)
    requires c > 0
    ensures (h % c - t % c) % c == (h - t) % c
  {
    var a, b := h / c, t / c;
    assert h == a * c + h % c && t == b * c + t % c;
    var q, d := (h - t) / c, (h - t) % c;
    assert h - t == q * c + d;
    assert h % c - t % c == (q - (a - b)) * c + d;
    ModUnique(h % c - t % c, c, q - (a - b), d);
  }

  /** The masked difference of any two counters is their difference modulo the capacity. */
  lemma MaskedDifference(h: nat, t: nat, bits: nat, word: nat)
    requires bits <= word
    ensures MaskedSize(h % Pow2(bits), t % Pow2(bits), bits, word) == Remainder(h - t, Pow2(bits))
  {
    var c := Pow2(bits);
    MaskIsMod(Unsigned(h % c - t % c, word), bits);
    Pow2Add(word - bits, bits);
    IndexSpread(h, t, c);
    WrapTwice(h % c - t % c, c, Pow2(word - bits));
    DifferenceMod(h, t, c);
  }

  lemma {:induction false} HistoryGrows<T>(r: Ring<T>, steps: seq<Step<T>>)
    requires Possible(r, steps)
    ensures var r' := After(r, steps);
            r'.bits == r.bits && |r.popped| <= |r'.popped| && |r.pushed| <= |r'.pushed|
    decreases |steps|
  {
    if steps != [] {
      HistoryGrows(Apply(r, steps[0]), steps[1..]);
    }
  }

  /** `size()` loads the head and, any number of steps later, the tail. While the tail has not passed that
      head the result is exactly how many of the pushes it saw were still queued; once the tail is `over`
      pops past it the result is the capacity less `over`, modulo the capacity. With no step in between it
      is the size. */
  lemma SizeOfTwoLoads<T>(r: Ring<T>, steps: seq<Step<T>>, word: nat)
    requires Inv(r) && r.bits <= word && Possible(r, steps)
    ensures var r' := After(r, steps);
            var size, over := MaskedSize(r.head, r'.tail, r.bits, word), |r'.popped| - |r.pushed|;
            && (over <= 0 ==> size == |r.pushed| - |r'.popped|)
            && (over > 0 ==> size == Remainder(-over, r.Capacity()))
            && (steps == [] ==> size == r.Size())
  {
    var r' := After(r, steps);
    HistoryGrows(r, steps);
    RunKeeps(r, steps);
    MaskedDifference(|r.pushed|, |r'.popped|, r.bits, word);
    if |r'.popped| <= |r.pushed| {
      ModUnique(|r.pushed| - |r'.popped|, r.Capacity(), 0, |r.pushed| - |r'.popped|);
    }
  }

  lemma IndexSpread(h: nat, t: nat, c: nat)
    requires c > 0
    ensures 0 < h % c - t % c + c < 2 * c
  {
  }
}
