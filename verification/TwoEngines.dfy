/** The flat engine and the textbook engine side by side on one message stream. */
module TwoEngines {
  import opened Types
  import opened BookSpec
  import opened BookTheory
  import opened EngineRuns
  import opened Slots
  import opened Layouts
  import opened MatchingEngines
  import opened MapBooks
  import opened MapEngines
  import opened Workload

  /** Every new order is acceptable when its turn comes. */
  predicate AcceptableStream(b: Book, msgs: seq<Message>) {
    forall k :: 0 <= k < |msgs| ==> AcceptableMessage(Run(b, msgs[..k]).book, msgs[k])
  }

  /** The number of fills of each message. */
  function FillCounts(b: Book, msgs: seq<Message>): (counts: seq<nat>)
    ensures |counts| == |msgs|
    decreases |msgs|
  {
    if msgs == [] then []
    else
      var init := msgs[..|msgs| - 1];
      FillCounts(b, init) + [|Process(Run(b, init).book, msgs[|msgs| - 1]).fills|]
  }

  /** Tick by tick, the textbook lists hold the ids and remaining quantities of the flat level, in order. */
  ghost predicate SameContents(flat: MatchingEngine, textbook: MapBookEngine)
    reads flat, flat.book, flat.book.levels, flat.pool, flat.pool.store, textbook
  {
    && (forall p :: 0 <= p < |flat.book.queues| ==> SameTick(flat, textbook, p))
    && (forall p :: p in textbook.bids || p in textbook.asks ==> InRange(p))
  }

  ghost predicate SameTick(flat: MatchingEngine, textbook: MapBookEngine, p: int)
    reads flat, flat.book, flat.pool.store, textbook
  {
    && 0 <= p < |flat.book.queues| && AllOrders(flat.Mem(), flat.book.queues[p])
    && SameLine(NodesAt(textbook.bids, p) + NodesAt(textbook.asks, p), Contents(flat.Mem(), flat.book.queues[p]))
  }

  lemma LinesJoin(a: Level, b: Level, qa: seq<Resting>, qb: seq<Resting>)
    requires SameLine(a, qa) && SameLine(b, qb)
    ensures SameLine(a + b, qa + qb)
  {
  }

  lemma KeysInRange(levels: Levels, s: seq<Resting>, side: Side)
    requires SideOk(s, side) && Mirrors(levels, s) && NoEmpty(levels)
    ensures forall p :: p in levels ==> InRange(p)
  {
    forall p | p in levels ensures InRange(p) {
      assert MirrorsAt(levels, s, p);
      QueueAtNone(s, p);
    }
  }

  lemma SameModelSameContents(flat: MatchingEngine, textbook: MapBookEngine)
    requires flat.Valid() && textbook.Valid() && flat.Model() == textbook.model
    ensures SameContents(flat, textbook)
  {
    var b := flat.Model();
    forall p | 0 <= p < |flat.book.queues| ensures SameTick(flat, textbook, p) {
      assert HoldsAt(flat.book.LayoutIn(flat.Mem()), b, p);
      assert MirrorsAt(textbook.bids, b.bids, p) && MirrorsAt(textbook.asks, b.asks, p);
      LinesJoin(NodesAt(textbook.bids, p), NodesAt(textbook.asks, p), QueueAt(b.bids, p), QueueAt(b.asks, p));
    }
    KeysInRange(textbook.bids, b.bids, Bid);
    KeysInRange(textbook.asks, b.asks, Ask);
  }

  /** The stream up to and including message `i`. */
  lemma StreamStep(b: Book, msgs: seq<Message>, i: nat)
    requires i < |msgs|
    ensures var step := Process(Run(b, msgs[..i]).book, msgs[i]);
            && Run(b, msgs[..i + 1]).book == step.book
            && FillCounts(b, msgs[..i + 1]) == FillCounts(b, msgs[..i]) + [|step.fills|]
  {
    assert msgs[..i + 1][..i] == msgs[..i];
  }

  /** Both programs on the same stream: the same number of fills for every message, and equal contents. */
  method RunBoth(flat: MatchingEngine, textbook: MapBookEngine, msgs: seq<Message>)
    returns (flatCounts: seq<nat>, textbookCounts: seq<nat>)
    requires flat.Valid() && textbook.Valid() && flat.Model() == textbook.model
    requires AcceptableStream(flat.Model(), msgs)
    modifies flat, flat.book, flat.book.levels, flat.pool, flat.pool.store, textbook
    ensures flat.Valid() && textbook.Valid() && SameContents(flat, textbook)
    ensures flat.Model() == textbook.model == Run(old(flat.Model()), msgs).book
    ensures flatCounts == textbookCounts == FillCounts(old(flat.Model()), msgs)
  {
    ghost var b := flat.Model();
    flatCounts, textbookCounts := [], [];
    for i := 0 to |msgs|
      invariant flat.Valid() && textbook.Valid()
      invariant flat.Model() == textbook.model == Run(b, msgs[..i]).book
      invariant flatCounts == textbookCounts == FillCounts(b, msgs[..i])
    {
      StreamStep(b, msgs, i);
      var n := Both(flat, textbook, msgs[i]);
      flatCounts := flatCounts + [|flat.fills|];
      textbookCounts := textbookCounts + [n];
    }
    assert msgs[..|msgs|] == msgs;
    SameModelSameContents(flat, textbook);
  }

  // ---- Exactly when they agree ----

  /** The flat level and the textbook lists at one tick have different lengths. */
  lemma LengthsDiffer(flat: MatchingEngine, textbook: MapBookEngine, b: Book, p: int)
    requires flat.Valid() && InRange(p) && Shows(textbook.State(), b)
    requires |LevelAt(b.bids, b.asks, p)| != |LevelAt(flat.Model().bids, flat.Model().asks, p)|
    ensures !SameContents(flat, textbook)
  {
    assert HoldsAt(flat.book.LayoutIn(flat.Mem()), flat.Model(), p);
    assert MirrorsAt(textbook.bids, b.bids, p) && MirrorsAt(textbook.asks, b.asks, p);
    assert !SameTick(flat, textbook, p);
  }

  /** A remainder the flat engine refuses leaves one more node in the textbook lists. */
  lemma RefusedDiffers(flat: MatchingEngine, textbook: MapBookEngine, b: Book, m: NewOrder)
    requires WellFormed(b) && m.typ.Limit? && InRange(m.price) && Swept(b, m).remaining > 0
    requires flat.Valid() && flat.Model() == AfterSweep(b, m)
    requires Shows(textbook.State(), TextbookNew(b, m).book)
    ensures !SameContents(flat, textbook)
  {
    RemainderNonCrossing(b, m);
    SweepKeepsWellFormed(b, m);
    LevelAfterInsert(AfterSweep(b, m), Remainder(m, Swept(b, m).remaining), m.price);
    LengthsDiffer(flat, textbook, TextbookNew(b, m).book, m.price);
  }

  /** An order priced out of range that trades with nobody leaves a textbook key out of range. */
  lemma OutOfRangeDiffers(flat: MatchingEngine, textbook: MapBookEngine, b: Book, m: NewOrder)
    requires WellFormed(b) && m.typ.Limit? && !InRange(m.price) && Swept(b, m).remaining > 0
    requires Shows(textbook.State(), TextbookNew(b, m).book)
    ensures !SameContents(flat, textbook)
  {
    SweepKeepsWellFormed(b, m);
    MatchRemaining(b.Of(Opposite(m.side)), m, m.quantity);
    var swept, e := AfterSweep(b, m), Remainder(m, Swept(b, m).remaining);
    QueueAtInsert(swept.Of(m.side), e, m.price);
    assert MirrorsAt(textbook.State().Of(m.side), TextbookNew(b, m).book.Of(m.side), m.price);
    assert m.price in textbook.State().Of(m.side);
  }

  lemma SomethingHappens(b: Book, m: NewOrder)
    requires m.quantity > 0
    ensures Swept(b, m).fills != [] || Swept(b, m).remaining > 0
  {
  }

  /** On an unacceptable order the fill counts or the contents differ. */
  lemma UnacceptableDiffers(flat: MatchingEngine, textbook: MapBookEngine, b: Book, m: NewOrder)
    requires WellFormed(b) && !Acceptable(b, m)
    requires flat.Valid() && Outcome(flat.Model(), flat.fills) == ProcessNew(b, m)
    requires Shows(textbook.State(), TextbookNew(b, m).book)
    ensures |TextbookNew(b, m).fills| != |flat.fills| || !SameContents(flat, textbook)
  {
    if InRange(m.price) {
      RefusedDiffers(flat, textbook, b, m);
    } else if TextbookNew(b, m).fills == [] {
      SomethingHappens(b, m);
      OutOfRangeDiffers(flat, textbook, b, m);
    }
  }

  /** One message through both programs. They report the same number of fills and hold the same contents
      if and only if the message was acceptable; then they also stay in step. */
  method Both(flat: MatchingEngine, textbook: MapBookEngine, msg: Message) returns (n: nat)
    requires flat.Valid() && textbook.Valid() && flat.Model() == textbook.model
    modifies flat, flat.book, flat.book.levels, flat.pool, flat.pool.store, textbook
    ensures flat.Valid() && Outcome(flat.Model(), flat.fills) == Process(old(flat.Model()), msg)
    ensures (n == |flat.fills| && SameContents(flat, textbook)) <==> AcceptableMessage(old(flat.Model()), msg)
    ensures AcceptableMessage(old(flat.Model()), msg) ==> textbook.Valid() && flat.Model() == textbook.model
  {
    ghost var b := flat.Model();
    n := textbook.Handle(msg);
    flat.ProcessMessage(msg);
    Compare(flat, textbook, b, msg);
  }

  lemma Compare(flat: MatchingEngine, textbook: MapBookEngine, b: Book, msg: Message)
    requires WellFormed(b) && flat.Valid() && Outcome(flat.Model(), flat.fills) == Process(b, msg)
    requires Shows(textbook.State(), Textbook(b, msg).book)
    requires AcceptableMessage(b, msg) ==> textbook.Valid() && flat.Model() == textbook.model
    ensures (|Textbook(b, msg).fills| == |flat.fills| && SameContents(flat, textbook)) <==> AcceptableMessage(b, msg)
  {
    if AcceptableMessage(b, msg) {
      SameModelSameContents(flat, textbook);
      if msg.New? {
        AcceptableOutcome(b, msg.order);
      }
    } else {
      UnacceptableDiffers(flat, textbook, b, msg.order);
    }
  }

  // ---- Three inputs on which they do not ----

  function Bid1(id: OrderId, price: int): NewOrder {
    NewOrder(id, Bid, Limit, price, 1, 0)
  }

  method NewPair(poolSize: nat) returns (flat: MatchingEngine, textbook: MapBookEngine)
    ensures fresh(flat) && fresh(flat.book) && fresh(flat.book.levels) && fresh(flat.pool) && fresh(flat.pool.store)
    ensures fresh(textbook) && flat.Valid() && textbook.Valid()
    ensures flat.Model() == textbook.model == EmptyBook(poolSize)
  {
    flat := new MatchingEngine(poolSize);
    textbook := new MapBookEngine(poolSize);
  }

  /** Two new engines that have both processed `first`. */
  method AfterFirst(poolSize: nat, first: NewOrder) returns (flat: MatchingEngine, textbook: MapBookEngine)
    requires Acceptable(EmptyBook(poolSize), first)
    ensures fresh(flat) && fresh(flat.book) && fresh(flat.book.levels) && fresh(flat.pool) && fresh(flat.pool.store)
    ensures fresh(textbook) && flat.Valid() && textbook.Valid()
    ensures flat.Model() == textbook.model == ProcessNew(EmptyBook(poolSize), first).book
  {
    flat, textbook := NewPair(poolSize);
    var n := Both(flat, textbook, New(first));
  }

  lemma FirstBid(capacity: nat, price: int)
    requires capacity > 0 && InRange(price)
    ensures Acceptable(EmptyBook(capacity), Bid1(1, price))
    ensures ProcessNew(EmptyBook(capacity), Bid1(1, price)).book == Book([Remainder(Bid1(1, price), 1)], [], capacity)
  {
  }

  lemma DuplicateRefused(b: Book, m: NewOrder)
    requires b.asks == [] && m.side.Bid? && m.typ.Limit? && m.quantity > 0 && b.bids != [] && b.bids[0].id == m.id
    ensures !Acceptable(b, m)
  {
    assert AfterSweep(b, m) == b && b.Knows(m.id);
  }

  lemma FullRefused(b: Book, m: NewOrder)
    requires b.asks == [] && m.side.Bid? && m.typ.Limit? && m.quantity > 0 && !b.HasRoom()
    ensures !Acceptable(b, m)
  {
    assert AfterSweep(b, m) == b;
  }

  method Disagree(flat: MatchingEngine, textbook: MapBookEngine, m: NewOrder) returns (n: nat)
    requires flat.Valid() && textbook.Valid() && flat.Model() == textbook.model && !Acceptable(flat.Model(), m)
    modifies flat, flat.book, flat.book.levels, flat.pool, flat.pool.store, textbook
    ensures !(n == |flat.fills| && SameContents(flat, textbook))
  {
    n := Both(flat, textbook, New(m));
  }

  /** A second order under a resting id: the flat engine drops it, the textbook engine queues it. */
  method DuplicateId() returns (flat: MatchingEngine, textbook: MapBookEngine, n: nat)
    ensures !(n == |flat.fills| && SameContents(flat, textbook))
  {
    FirstBid(2, 10);
    flat, textbook := AfterFirst(2, Bid1(1, 10));
    DuplicateRefused(flat.Model(), Bid1(1, 11));
    n := Disagree(flat, textbook, Bid1(1, 11));
  }

  /** A pool of one slot: the flat engine drops the second order, the textbook engine has no limit. */
  method ExhaustedPool() returns (flat: MatchingEngine, textbook: MapBookEngine, n: nat)
    ensures !(n == |flat.fills| && SameContents(flat, textbook))
  {
    FirstBid(1, 10);
    flat, textbook := AfterFirst(1, Bid1(1, 10));
    FullRefused(flat.Model(), Bid1(2, 11));
    n := Disagree(flat, textbook, Bid1(2, 11));
  }

  /** The first tick past the last level: the flat engine rejects it, the textbook engine rests it. */
  method OutOfRange() returns (flat: MatchingEngine, textbook: MapBookEngine, n: nat)
    ensures !(n == |flat.fills| && SameContents(flat, textbook))
  {
    flat, textbook := NewPair(1);
    assert Rejected(Bid1(1, MAX_PRICE_TICKS));
    n := Disagree(flat, textbook, Bid1(1, MAX_PRICE_TICKS));
  }

  // ---- Generated streams meet the conditions ----

  /** Whenever a generated limit order has something left to rest, a slot is free. */
  predicate RoomThroughout(b: Book, msgs: seq<Message>) {
    forall k :: 0 <= k < |msgs| && msgs[k].New? && msgs[k].order.typ.Limit? ==>
      var m, before := msgs[k].order, Run(b, msgs[..k]).book;
      Swept(before, m).remaining > 0 ==> AfterSweep(before, m).HasRoom()
  }

  lemma UnknownStaysUnknown(b: Book, m: NewOrder)
    requires !b.Knows(m.id)
    ensures !AfterSweep(b, m).Knows(m.id)
  {
    MatchTakes(b.Of(Opposite(m.side)), m, m.quantity);
  }

  /** A fresh id is not resting. */
  lemma FreshIsUnknown(capacity: nat, msgs: seq<Message>, id: OrderId)
    requires DistinctSubmissions(msgs)
    requires forall i :: 0 <= i < |msgs| && msgs[i].New? ==> msgs[i].order.id != id
    ensures !Run(EmptyBook(capacity), msgs).book.Knows(id)
  {
    var b := Run(EmptyBook(capacity), msgs).book;
    NotSubmitted(msgs, id);
    OrdersSettle(capacity, msgs, id);
    EntryAbsent(b.bids, id);
    EntryAbsent(b.asks, id);
  }

  /** Any generated stream that never runs the pool dry satisfies both engines' agreement. */
  lemma GeneratedIsAcceptable(capacity: nat, msgs: seq<Message>, minQuantity: Quantity, maxQuantity: Quantity)
    requires WellGenerated(msgs, minQuantity, maxQuantity) && RoomThroughout(EmptyBook(capacity), msgs)
    ensures AcceptableStream(EmptyBook(capacity), msgs)
  {
    GeneratedDistinct(msgs, minQuantity, maxQuantity);
    forall k | 0 <= k < |msgs| && msgs[k].New?
      ensures Acceptable(Run(EmptyBook(capacity), msgs[..k]).book, msgs[k].order)
    {
      var m := msgs[k].order;
      assert Extends(msgs[..k], msgs[k], minQuantity, maxQuantity);
      assert forall i :: 0 <= i < k ==> msgs[..k][i] == msgs[i];
      FreshIsUnknown(capacity, msgs[..k], m.id);
      UnknownStaysUnknown(Run(EmptyBook(capacity), msgs[..k]).book, m);
    }
  }

  function Submissions(msgs: seq<Message>): nat
    decreases |msgs|
  {
    if msgs == [] then 0
    else Submissions(msgs[..|msgs| - 1]) + (if msgs[|msgs| - 1].New? then 1 else 0)
  }

  function RestingCount(b: Book): nat {
    |b.bids| + |b.asks|
  }

  lemma SweepShrinks(b: Book, m: NewOrder)
    requires WellFormed(b)
    ensures RestingCount(AfterSweep(b, m)) <= RestingCount(b)
  {
    MatchLeavesTail(b.Of(Opposite(m.side)), m, m.quantity);
  }

  lemma StepCounts(b: Book, msg: Message)
    requires WellFormed(b)
    ensures RestingCount(Process(b, msg).book) <= RestingCount(b) + (if msg.New? then 1 else 0)
  {
    match msg
    case New(m) =>
      if !Rejected(m) {
        ProcessNewParts(b, m);
        SweepShrinks(b, m);
      }
    case Cancel(id, _) =>
      RemoveKeepsSide(b.bids, Bid, id);
      RemoveKeepsSide(b.asks, Ask, id);
  }

  lemma {:induction false} RunCounts(capacity: nat, msgs: seq<Message>)
    ensures RestingCount(Run(EmptyBook(capacity), msgs).book) <= Submissions(msgs)
    decreases |msgs|
  {
    if msgs != [] {
      var init := msgs[..|msgs| - 1];
      RunCounts(capacity, init);
      RunKeepsWellFormed(EmptyBook(capacity), init);
      StepCounts(Run(EmptyBook(capacity), init).book, msgs[|msgs| - 1]);
    }
  }

  lemma {:induction false} SubmissionsGrow(msgs: seq<Message>, k: nat)
    requires k < |msgs| && msgs[k].New?
    ensures Submissions(msgs[..k]) < Submissions(msgs)
    decreases |msgs|
  {
    var init := msgs[..|msgs| - 1];
    if k < |msgs| - 1 {
      assert init[..k] == msgs[..k] && init[k] == msgs[k];
      SubmissionsGrow(init, k);
    }
  }

  /** No stream with at most as many submissions as slots can run the pool dry. */
  lemma FewSubmissionsFit(capacity: nat, msgs: seq<Message>)
    requires Submissions(msgs) <= capacity
    ensures RoomThroughout(EmptyBook(capacity), msgs)
  {
    forall k | 0 <= k < |msgs| && msgs[k].New? && msgs[k].order.typ.Limit?
      ensures AfterSweep(Run(EmptyBook(capacity), msgs[..k]).book, msgs[k].order).HasRoom()
    {
      var b := Run(EmptyBook(capacity), msgs[..k]).book;
      RunCounts(capacity, msgs[..k]);
      RunKeepsWellFormed(EmptyBook(capacity), msgs[..k]);
      SweepShrinks(b, msgs[k].order);
      SubmissionsGrow(msgs, k);
    }
  }

  /** The benchmark's claim: a generated stream that fits the pool drives both engines to the same fills
      and contents. */
  method Benchmark(flat: MatchingEngine, textbook: MapBookEngine, msgs: seq<Message>,
                   minQuantity: Quantity, maxQuantity: Quantity)
    returns (flatCounts: seq<nat>, textbookCounts: seq<nat>)
    requires flat.Valid() && textbook.Valid() && flat.Model() == textbook.model == EmptyBook(flat.Model().capacity)
    requires WellGenerated(msgs, minQuantity, maxQuantity) && RoomThroughout(flat.Model(), msgs)
    modifies flat, flat.book, flat.book.levels, flat.pool, flat.pool.store, textbook
    ensures |flatCounts| == |msgs| && flatCounts == textbookCounts
    ensures flat.Valid() && textbook.Valid() && SameContents(flat, textbook)
  {
    GeneratedIsAcceptable(flat.Model().capacity, msgs, minQuantity, maxQuantity);
    flatCounts, textbookCounts := RunBoth(flat, textbook, msgs);
  }

  lemma {:induction false} SubmissionsBound(msgs: seq<Message>)
    ensures Submissions(msgs) <= |msgs|
    decreases |msgs|
  {
    if msgs != [] {
      SubmissionsBound(msgs[..|msgs| - 1]);
    }
  }

  /** Generator, pool and both engines together: any stream of at most as many messages as slots. */
  method GenerateAndRun(n: nat, poolSize: nat, minQuantity: Quantity, maxQuantity: Quantity)
    returns (flat: MatchingEngine, textbook: MapBookEngine, flatCounts: seq<nat>, textbookCounts: seq<nat>)
    requires n <= poolSize && minQuantity <= maxQuantity
    ensures |flatCounts| == n && flatCounts == textbookCounts
    ensures flat.Valid() && textbook.Valid() && SameContents(flat, textbook)
  {
    var generator := new WorkloadGenerator(minQuantity, maxQuantity);
    var msgs := generator.Generate(n);
    assert [] + msgs == msgs;
    SubmissionsBound(msgs);
    FewSubmissionsFit(poolSize, msgs);
    flat, textbook := NewPair(poolSize);
    flatCounts, textbookCounts := Benchmark(flat, textbook, msgs, minQuantity, maxQuantity);
  }
}
