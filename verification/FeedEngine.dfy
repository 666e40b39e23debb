/** The feed and the engine together: every frame's messages processed without loss. */
module FeedEngine {
  import opened Types
  import opened BookSpec
  import opened BookTheory
  import opened EngineRuns
  import opened MatchingEngines
  import opened EngineDriver
  import opened Feed
  import opened FeedHandlers
  import Layouts

  predicate ListedAs(table: Table, e: Resting) {
    e.id in table && table[e.id].key == LevelKey(e.price, e.side) && table[e.id].quantity == e.quantity
  }

  predicate SideCovered(s: seq<Resting>, table: Table) {
    forall i :: 0 <= i < |s| ==> ListedAs(table, s[i])
  }

  /** Everything that rests is listed under its own side, price and size. */
  predicate Covered(b: Book, table: Table) {
    SideCovered(b.bids, table) && SideCovered(b.asks, table)
  }

  lemma {:induction false} ReplayIds(msgs: seq<Message>, nextId: OrderId)
    requires IdsBelow(msgs, nextId)
    ensures forall id :: id in Replay(msgs) ==> id < nextId
    decreases |msgs|
  {
    if msgs != [] {
      ReplayIds(msgs[..|msgs| - 1], nextId);
    }
  }

  lemma TailCovered(left: seq<Resting>, opp: seq<Resting>, table: Table)
    requires TailOf(left, opp) && SideCovered(opp, table)
    ensures SideCovered(left, table)
  {
  }

  lemma SweepCovered(b: Book, m: NewOrder, table: Table)
    requires WellFormed(b) && Covered(b, table)
    ensures Covered(AfterSweep(b, m), table)
  {
    MatchLeavesTail(b.Of(Opposite(m.side)), m, m.quantity);
    TailCovered(Swept(b, m).left, b.Of(Opposite(m.side)), table);
  }

  lemma ListingAdded(s: seq<Resting>, table: Table, m: NewOrder)
    requires SideCovered(s, table) && m.id !in table
    ensures SideCovered(s, Post(table, New(m)))
  {
  }

  lemma JoinCovered(b: Book, e: Resting, table: Table)
    requires Covered(b, table) && ListedAs(table, e)
    ensures Covered(Joined(b, e), table)
  {
  }

  lemma NewCovered(b: Book, m: NewOrder, table: Table)
    requires WellFormed(b) && Covered(b, table) && m.id !in table && !Rejected(m)
    ensures Covered(ProcessNew(b, m).book, Post(table, New(m)))
  {
    SweepCovered(b, m, table);
    var swept := AfterSweep(b, m);
    ListingAdded(swept.bids, table, m);
    ListingAdded(swept.asks, table, m);
    ProcessNewParts(b, m);
    if Rests(b, m) {
      JoinCovered(swept, Remainder(m, Swept(b, m).remaining), Post(table, New(m)));
    }
  }

  lemma CancelCovered(s: seq<Resting>, table: Table, id: OrderId)
    requires DistinctIds(s) && SideCovered(s, table)
    ensures SideCovered(Remove(s, id), table - {id})
  {
  }

  /** Over every good stream, whatever rests is what the replayed table says is live. */
  lemma {:induction false} RestingIsListed(capacity: nat, msgs: seq<Message>)
    requires GoodStream(msgs)
    ensures Covered(Run(EmptyBook(capacity), msgs).book, Replay(msgs))
    decreases |msgs|
  {
    if msgs != [] {
      var n := |msgs| - 1;
      var init, last := msgs[..n], msgs[n];
      var b := Run(EmptyBook(capacity), init).book;
      assert GoodAt(msgs, n);
      GoodPrefix(msgs, n);
      RestingIsListed(capacity, init);
      RunKeepsWellFormed(EmptyBook(capacity), init);
      match last {
        case New(m) =>
          ReplayIds(init, m.id);
          NewCovered(b, m, Replay(init));
        case Cancel(id, _) =>
          CancelCovered(b.bids, Replay(init), id);
          CancelCovered(b.asks, Replay(init), id);
      }
    }
  }

  lemma UnlistedIsUnknown(b: Book, table: Table, id: OrderId)
    requires Covered(b, table) && id !in table
    ensures !b.Knows(id)
  {
  }

  /** No add of a good stream is rejected, out of range, or refused as a duplicate. */
  lemma NoAddRefused(capacity: nat, msgs: seq<Message>, k: nat)
    requires GoodStream(msgs) && k < |msgs| && msgs[k].New?
    ensures var b, m := Run(EmptyBook(capacity), msgs[..k]).book, msgs[k].order;
            !Rejected(m) && InRange(m.price) && !b.Knows(m.id) && !AfterSweep(b, m).Knows(m.id)
  {
    var b, m, table := Run(EmptyBook(capacity), msgs[..k]).book, msgs[k].order, Replay(msgs[..k]);
    assert GoodAt(msgs, k);
    GoodPrefix(msgs, k);
    RestingIsListed(capacity, msgs[..k]);
    RunKeepsWellFormed(EmptyBook(capacity), msgs[..k]);
    ReplayIds(msgs[..k], m.id);
    UnlistedIsUnknown(b, table, m.id);
    SweepCovered(b, m, table);
    UnlistedIsUnknown(AfterSweep(b, m), table, m.id);
  }

  lemma NotCovered(s: seq<Resting>)
    requires s != []
    ensures !SideCovered(s, map[])
  {
    assert !ListedAs(map[], s[0]);
  }

  /** Once everything listed has been cancelled, the book is empty. */
  lemma NothingListedNothingRests(capacity: nat, msgs: seq<Message>)
    requires GoodStream(msgs) && Replay(msgs) == map[]
    ensures Run(EmptyBook(capacity), msgs).book == EmptyBook(capacity)
  {
    RestingIsListed(capacity, msgs);
    RunKeepsWellFormed(EmptyBook(capacity), msgs);
    var b := Run(EmptyBook(capacity), msgs).book;
    if b.bids != [] {
      NotCovered(b.bids);
    }
    if b.asks != [] {
      NotCovered(b.asks);
    }
  }

  // ---- The two programs ----

  /** Every resting order stands for the level the feed has it under. */
  predicate StandsFor(live: Live, e: Resting) {
    LevelKey(e.price, e.side) in live && live[LevelKey(e.price, e.side)] == e.id
  }

  ghost predicate InStep(feed: FeedHandler, engine: MatchingEngine)
    reads feed, engine, engine.book, engine.book.levels, engine.pool, engine.pool.store
  {
    && feed.Valid() && engine.Valid()
    && engine.Model() == Run(EmptyBook(engine.Model().capacity), feed.emitted).book
  }

  lemma RestingIsLive(feed: FeedHandler, engine: MatchingEngine)
    requires InStep(feed, engine)
    ensures forall e :: e in engine.Model().bids || e in engine.Model().asks ==> StandsFor(feed.live, e)
  {
    var b, table := engine.Model(), Replay(feed.emitted);
    RestingIsListed(b.capacity, feed.emitted);
    forall e | e in b.bids || e in b.asks ensures StandsFor(feed.live, e) {
      assert ListedAs(table, e);
    }
  }

  /** The engine catches up with what the feed has emitted. */
  method Absorb(engine: MatchingEngine, ghost sent: seq<Message>, out: seq<Message>)
    requires engine.Valid() && engine.Model() == Run(EmptyBook(engine.Model().capacity), sent).book
    modifies engine, engine.book, engine.book.levels, engine.pool, engine.pool.store
    ensures engine.Valid() && engine.Model().capacity == old(engine.Model().capacity)
    ensures engine.Model() == Run(EmptyBook(engine.Model().capacity), sent + out).book
  {
    RunOn(EmptyBook(engine.Model().capacity), sent, out);
    var fills := Drive(engine, out);
  }

  /** One frame through both: the engine ends up having processed everything the feed emitted. */
  method PlayFrame(feed: FeedHandler, engine: MatchingEngine, frame: Frame, ts: nat)
    requires InStep(feed, engine)
    modifies feed, engine, engine.book, engine.book.levels, engine.pool, engine.pool.store
    ensures InStep(feed, engine) && engine.Model().capacity == old(engine.Model().capacity)
    ensures feed.depth == DepthFrame(old(feed.depth), frame)
  {
    ghost var sent := feed.emitted;
    assert sent + [] == sent;
    var out, n := feed.Parse(frame, ts, [], sent);
    Absorb(engine, sent, out);
  }

  method Play(feed: FeedHandler, engine: MatchingEngine, frames: seq<Frame>, ts: seq<nat>)
    requires |ts| == |frames| && InStep(feed, engine) && feed.depth == map[]
    modifies feed, engine, engine.book, engine.book.levels, engine.pool, engine.pool.store
    ensures InStep(feed, engine) && feed.depth == DepthAfter(frames)
  {
    for i := 0 to |frames|
      invariant InStep(feed, engine) && feed.depth == DepthAfter(frames[..i])
    {
      DepthSnoc(frames, i);
      PlayFrame(feed, engine, frames[i], ts[i]);
    }
    assert frames[..|frames|] == frames;
  }

  /** Whole sessions: after any sequence of frames the book holds only what the feed considers live. */
  method Session(frames: seq<Frame>, ts: seq<nat>, poolSize: nat) returns (feed: FeedHandler, engine: MatchingEngine)
    requires |ts| == |frames|
    ensures InStep(feed, engine) && feed.depth == DepthAfter(frames)
    ensures forall e :: e in engine.Model().bids || e in engine.Model().asks ==> StandsFor(feed.live, e)
  {
    feed := new FeedHandler();
    engine := new MatchingEngine(poolSize);
    Play(feed, engine, frames, ts);
    RestingIsLive(feed, engine);
  }

  /** The cancels of a snapshot reset leave the book empty and the pool whole. */
  method Reset(feed: FeedHandler, engine: MatchingEngine, ts: nat)
    requires InStep(feed, engine)
    modifies feed, engine, engine.book, engine.book.levels, engine.pool, engine.pool.store
    ensures InStep(feed, engine) && feed.live == map[]
    ensures engine.Model() == EmptyBook(old(engine.Model().capacity))
    ensures engine.book.bidCount == engine.book.askCount == 0 && engine.book.orderMap == map[]
    ensures engine.pool.available == engine.pool.store.Length
  {
    ghost var sent := feed.emitted;
    assert sent + [] == sent;
    var out := feed.ResetBook(ts, [], sent);
    assert feed.Valid();
    Absorb(engine, sent, out);
    EmptyEngine(engine, feed.emitted);
  }

  /** An engine that has processed a stream with nothing left listed is empty and has every slot free. */
  lemma EmptyEngine(engine: MatchingEngine, msgs: seq<Message>)
    requires engine.Valid() && engine.Model() == Run(EmptyBook(engine.Model().capacity), msgs).book
    requires GoodStream(msgs) && Replay(msgs) == map[]
    ensures engine.Model() == EmptyBook(engine.Model().capacity)
    ensures engine.book.orderMap == map[] && engine.book.bidCount == engine.book.askCount == 0
    ensures engine.pool.available == engine.pool.store.Length
  {
    NothingListedNothingRests(engine.Model().capacity, msgs);
    forall id ensures id !in engine.book.orderMap {
      IndexKnows(engine, id);
    }
  }

  lemma IndexKnows(engine: MatchingEngine, id: OrderId)
    requires engine.Valid()
    ensures id in engine.book.orderMap <==> engine.Model().Knows(id)
  {
    Layouts.IndexKnows(engine.book.LayoutIn(engine.Mem()), engine.Model(), id);
  }

}
