/** The engine fed a whole stream: the real structures end where the simple book ends. */
module EngineDriver {
  import opened Types
  import opened BookSpec
  import opened BookTheory
  import opened EngineRuns
  import opened MatchingEngines

  /** A run continued; the capacity never changes. */
  lemma RunOn(b: Book, first: seq<Message>, second: seq<Message>)
    requires WellFormed(b)
    ensures Run(b, first + second).book == Run(Run(b, first).book, second).book
    ensures Run(b, first + second).book.capacity == b.capacity
  {
    RunAppend(b, first, second);
    RunKeepsWellFormed(b, first + second);
  }

  /** Processes messages in order and collects every fill. */
  method Drive(engine: MatchingEngine, msgs: seq<Message>) returns (fills: seq<Fill>)
    requires engine.Valid()
    modifies engine, engine.book, engine.book.levels, engine.pool, engine.pool.store
    ensures engine.Valid() && Outcome(engine.Model(), fills) == Run(old(engine.Model()), msgs)
  {
    ghost var b := engine.Model();
    fills := [];
    for i := 0 to |msgs|
      invariant engine.Valid() && Outcome(engine.Model(), fills) == Run(b, msgs[..i])
    {
      assert msgs[..i + 1] == msgs[..i] + [msgs[i]];
      RunSnoc(b, msgs[..i], msgs[i]);
      engine.ProcessMessage(msgs[i]);
      fills := fills + engine.fills;
    }
    assert msgs[..|msgs|] == msgs;
  }

  /** A new engine after any stream: every unit submitted is traded twice, resting, cancelled or discarded. */
  method DriveNew(poolSize: nat, msgs: seq<Message>) returns (engine: MatchingEngine, fills: seq<Fill>)
    ensures engine.Valid() && Outcome(engine.Model(), fills) == Run(EmptyBook(poolSize), msgs)
    ensures var l := Books(EmptyBook(poolSize), msgs);
            Submitted(msgs) == 2 * Volume(fills) + RestingVolume(engine.Model()) + l.cancelled
                             + (l.rejected + l.marketRemainder + l.poolExhausted + l.duplicateId)
    ensures engine.pool.available + engine.book.bidCount + engine.book.askCount == poolSize
  {
    engine := new MatchingEngine(poolSize);
    fills := Drive(engine, msgs);
    QuantityConserved(poolSize, msgs);
    LedgerIsTrue(EmptyBook(poolSize), msgs);
    RunKeepsWellFormed(EmptyBook(poolSize), msgs);
  }
}
