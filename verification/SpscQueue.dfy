/** The ring as code. Each atomic step of try_push and try_pop is a method that does what the transition
    system says; a call is interrupted between any two of them by any number of the other thread's steps. */
module SpscQueues {
  import opened Bits
  import opened Spsc

  class SpscQueue<T(0)> {
    const bits: nat
    const buffer: array<T>
    var head: nat
    var tailCache: nat           // producer's view of tail
    var tail: nat
    var headCache: nat           // consumer's view of head
    var producer: Producer<T>    // where each thread is, with its locals
    var consumer: Consumer<T>

    ghost var pushed: seq<T>
    ghost var popped: seq<T>
    ghost var tailSeen: nat
    ghost var headSeen: nat

    ghost function State(): Ring<T>
      reads this, buffer
    {
      Ring(bits, buffer[..], head, tail, tailCache, headCache, producer, consumer, pushed, popped, tailSeen, headSeen)
    }

    ghost predicate Valid()
      reads this, buffer
    {
      Inv(State())
    }

    constructor (bits: nat)
      requires bits > 0
      ensures Valid() && fresh(buffer) && this.bits == bits && pushed == popped == []
      ensures producer.NotPushing? && consumer.NotPopping?
    {
      this.bits := bits;
      buffer := new T[Pow2(bits)];
      head, tail, tailCache, headCache := 0, 0, 0, 0;
      producer, consumer := NotPushing, NotPopping;
      pushed, popped, tailSeen, headSeen := [], [], 0, 0;
      new;
      Pow2Grows(1, bits);
      assert Pow2(1) == 2;
    }

    // ---- The producer's steps ----

    method LoadHeadStep(item: T)
      requires producer.NotPushing?
      modifies `producer
      ensures State() == Apply(old(State()), LoadHead(item))
    {
      producer := HeadLoaded(item, head);
    }

    /** Compares with the cached tail, and with the real one before giving up. */
    method CheckTailStep()
      requires Indices(State()) && producer.HeadLoaded?
      requires Enabled(State(), ProducerNext(State(), producer.item))
      modifies `producer, `tailCache, `tailSeen
      ensures State() == Apply(old(State()), old(ProducerNext(State(), producer.item)))
    {
      var item, h := producer.item, producer.head;
      var next := And(h + 1, Pow2(bits) - 1);
      if next == tailCache {
        tailCache := tail;
        tailSeen := |popped|;
        if next == tailCache {
          producer := NotPushing;
          return;
        }
      }
      producer := MayWrite(item, h);
    }

    method WriteSlotStep()
      requires producer.MayWrite? && producer.head < buffer.Length
      modifies `producer, buffer
      ensures State() == Apply(old(State()), WriteSlot)
    {
      buffer[producer.head] := producer.item;
      producer := SlotWritten(producer.item, producer.head);
    }

    method StoreHeadStep()
      requires producer.SlotWritten?
      modifies `producer, `head, `pushed
      ensures State() == Apply(old(State()), StoreHead)
    {
      head := And(producer.head + 1, Pow2(bits) - 1);
      pushed := pushed + [producer.item];
      producer := NotPushing;
    }

    /** Whatever the producer does next, starting a push of `item` if it is between calls. */
    method ProducerStep(item: T)
      requires Valid()
      modifies `producer, `tailCache, `tailSeen, `head, `pushed, buffer
      ensures Valid() && old(pushed) <= pushed
      ensures State() == Apply(old(State()), old(ProducerNext(State(), item)))
    {
      ghost var r := State();
      NeverStuck(r, item);
      StepKeeps(r, ProducerNext(r, item));
      match producer
      case NotPushing => LoadHeadStep(item);
      case HeadLoaded(_, _) => CheckTailStep();
      case MayWrite(_, _) => WriteSlotStep();
      case SlotWritten(_, _) => StoreHeadStep();
    }

    /** Any number of producer steps, pushing any items. */
    method Produce()
      requires Valid()
      modifies `producer, `tailCache, `tailSeen, `head, `pushed, buffer
      ensures Valid() && old(pushed) <= pushed
    {
      var n :| 0 <= n;
      for i := 0 to n
        invariant Valid() && old(pushed) <= pushed
      {
        var item: T := *;
        ProducerStep(item);
      }
    }

    // ---- The consumer's steps ----

    method LoadTailStep()
      requires consumer.NotPopping?
      modifies `consumer
      ensures State() == Apply(old(State()), LoadTail)
    {
      consumer := TailLoaded(tail);
    }

    /** Compares with the cached head, and with the real one before giving up. */
    method CheckHeadStep()
      requires Indices(State()) && consumer.TailLoaded? && Enabled(State(), ConsumerNext(State()))
      modifies `consumer, `headCache, `headSeen
      ensures State() == Apply(old(State()), old(ConsumerNext(State())))
    {
      var t := consumer.tail;
      if t == headCache {
        headCache := head;
        headSeen := |pushed|;
        if t == headCache {
          consumer := NotPopping;
          return;
        }
      }
      consumer := MayRead(t);
    }

    method ReadSlotStep()
      requires consumer.MayRead? && consumer.tail < buffer.Length
      modifies `consumer
      ensures State() == Apply(old(State()), ReadSlot)
    {
      consumer := SlotRead(consumer.tail, buffer[consumer.tail]);
    }

    method StoreTailStep()
      requires consumer.SlotRead?
      modifies `consumer, `tail, `popped
      ensures State() == Apply(old(State()), StoreTail)
    {
      tail := And(consumer.tail + 1, Pow2(bits) - 1);
      popped := popped + [consumer.value];
      consumer := NotPopping;
    }

    /** Whatever the consumer does next, starting a pop if it is between calls. */
    method ConsumerStep()
      requires Valid()
      modifies `consumer, `headCache, `headSeen, `tail, `popped
      ensures Valid() && old(popped) <= popped
      ensures State() == Apply(old(State()), old(ConsumerNext(State())))
    {
      ghost var r := State();
      NeverStuck(r, buffer[0]);
      StepKeeps(r, ConsumerNext(r));
      match consumer
      case NotPopping => LoadTailStep();
      case TailLoaded(_) => CheckHeadStep();
      case MayRead(_) => ReadSlotStep();
      case SlotRead(_, _) => StoreTailStep();
    }

    /** Any number of consumer steps. */
    method Consume()
      requires Valid()
      modifies `consumer, `headCache, `headSeen, `tail, `popped
      ensures Valid() && old(popped) <= popped
    {
      var n :| 0 <= n;
      for i := 0 to n
        invariant Valid() && old(popped) <= popped
      {
        ConsumerStep();
      }
    }

    // ---- Whole calls, interrupted at will ----

    /** The first half of a push: up to the decision. */
    method OpenPush(item: T) returns (ghost refusedAt: nat)
      requires Valid() && producer.NotPushing?
      modifies `producer, `tailCache, `tailSeen, `head, `pushed, buffer
      modifies `consumer, `headCache, `headSeen, `tail, `popped
      ensures Valid() && old(popped) <= popped && pushed == old(pushed)
      ensures producer.NotPushing? || (producer.MayWrite? && producer.item == item)
      ensures producer.NotPushing? ==>
                |old(popped)| <= refusedAt <= |popped| && |pushed| - refusedAt == Pow2(bits) - 1
    {
      Consume();
      ProducerStep(item);
      Consume();
      refusedAt := |popped|;
      Decide(State());
      ProducerStep(item);
    }

    /** The second half of a push: write the slot, then publish it. */
    method ClosePush()
      requires Valid() && producer.MayWrite?
      modifies `producer, `tailCache, `tailSeen, `head, `pushed, buffer
      modifies `consumer, `headCache, `headSeen, `tail, `popped
      ensures Valid() && producer.NotPushing? && old(popped) <= popped && pushed == old(pushed) + [old(producer.item)]
    {
      var item := producer.item;
      Consume();
      ProducerStep(item);
      Consume();
      ProducerStep(item);
    }

    /** One push while the consumer runs. Pushed exactly once or not at all; refused only if at some moment
        of the call, `refusedAt` pops in, capacity - 1 items were queued. */
    method TryPush(item: T) returns (ok: bool, ghost refusedAt: nat)
      requires Valid() && producer.NotPushing?
      modifies this, buffer
      ensures Valid() && producer.NotPushing? && old(popped) <= popped
      ensures pushed == if ok then old(pushed) + [item] else old(pushed)
      ensures !ok ==> |old(popped)| <= refusedAt <= |popped| && |pushed| - refusedAt == Pow2(bits) - 1
      ensures |old(pushed)| - |old(popped)| < Pow2(bits) - 1 ==> ok
    {
      refusedAt := OpenPush(item);
      ok := producer.MayWrite?;
      if ok {
        ClosePush();
      }
      Consume();
    }

    /** The first half of a pop: up to the decision. */
    method OpenPop() returns (ghost refusedAt: nat)
      requires Valid() && consumer.NotPopping?
      modifies `producer, `tailCache, `tailSeen, `head, `pushed, buffer
      modifies `consumer, `headCache, `headSeen, `tail, `popped
      ensures Valid() && old(pushed) <= pushed && popped == old(popped)
      ensures consumer.MayRead? || consumer.NotPopping?
      ensures consumer.NotPopping? ==> |old(pushed)| <= refusedAt <= |pushed| && refusedAt == |popped|
    {
      Produce();
      ConsumerStep();
      Produce();
      refusedAt := |pushed|;
      Decide(State());
      ConsumerStep();
    }

    /** The second half of a pop: read the slot, then release it. */
    method ClosePop() returns (item: T)
      requires Valid() && consumer.MayRead?
      modifies `producer, `tailCache, `tailSeen, `head, `pushed, buffer
      modifies `consumer, `headCache, `headSeen, `tail, `popped
      ensures Valid() && consumer.NotPopping? && old(pushed) <= pushed && popped == old(popped) + [item]
      ensures |old(popped)| < |pushed| && item == pushed[|old(popped)|]
    {
      Produce();
      ConsumerStep();
      item := consumer.value;
      Produce();
      ConsumerStep();
    }

    /** One pop while the producer runs. The oldest item leaves, or nothing does; refused only if at some
        moment of the call, `refusedAt` pushes in, nothing was queued. */
    method TryPop() returns (ok: bool, item: T, ghost refusedAt: nat)
      requires Valid() && consumer.NotPopping?
      modifies this, buffer
      ensures Valid() && consumer.NotPopping? && old(pushed) <= pushed
      ensures ok ==> |old(popped)| < |pushed| && item == pushed[|old(popped)|] && popped == old(popped) + [item]
      ensures !ok ==> popped == old(popped) && |old(pushed)| <= refusedAt <= |pushed| && refusedAt == |popped|
      ensures |old(popped)| < |old(pushed)| ==> ok
    {
      item := buffer[0];
      refusedAt := OpenPop();
      ok := consumer.MayRead?;
      if ok {
        item := ClosePop();
      }
      Produce();
    }
  }

  /** What the test of either thread decides when it loads the latest index. */
  lemma Decide<T>(r: Ring<T>)
    requires Inv(r)
    ensures r.producer.HeadLoaded? ==>
              var step := ProducerNext(r, r.producer.item);
              && Enabled(r, step)
              && (Apply(r, step).producer.NotPushing? ==> r.Size() == r.Capacity() - 1)
    ensures r.consumer.TailLoaded? ==>
              Enabled(r, ConsumerNext(r)) && (Apply(r, ConsumerNext(r)).consumer.NotPopping? ==> r.Size() == 0)
  {
    if r.producer.HeadLoaded? && r.Next(r.producer.head) == r.tailCache {
      RefusedPush(r, |r.popped|);
    }
    if r.consumer.TailLoaded? && r.consumer.tail == r.headCache {
      RefusedPop(r, |r.pushed|);
    }
  }
}
