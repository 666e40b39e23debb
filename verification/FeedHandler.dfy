/** The feed handler: turns frames of aggregated depth into cancels and new orders. */
module FeedHandlers {
  import opened Types
  import opened Feed
  import opened FeedLaws

  class FeedHandler {
    var live: Live
    var nextId: OrderId
    var lastSequence: nat
    var haveSequence: bool
    var malformed: nat
    var sequenceGaps: nat
    var ignored: nat
    var skipped: nat
    ghost var depth: Depth            // the depth the frames describe
    ghost var emitted: seq<Message>   // everything ever appended to an output vector
    ghost var sequences: seq<nat>     // every sequence number noted

    /** The live orders say what the frames say. */
    ghost predicate Synced()
      reads this
    {
      Faithful(live, depth, emitted, nextId)
    }

    ghost predicate Valid()
      reads this
    {
      Synced() && Noted(sequences, haveSequence, lastSequence, sequenceGaps)
    }

    ghost function CurrentIds(): Ids
      reads this
    {
      Ids(live, nextId)
    }

    constructor ()
      ensures Valid() && depth == map[] && emitted == [] && sequences == [] && CurrentIds() == Ids(map[], 1)
      ensures !haveSequence && malformed == sequenceGaps == ignored == skipped == 0
    {
      live, nextId, lastSequence, haveSequence := map[], 1, 0, false;
      malformed, sequenceGaps, ignored, skipped := 0, 0, 0, 0;
      depth, emitted, sequences := map[], [], [];
    }

    /** A gap is any sequence number other than the successor of the last one seen. */
    method NoteSequence(seqNo: nat)
      requires Noted(sequences, haveSequence, lastSequence, sequenceGaps)
      modifies `sequenceGaps, `haveSequence, `lastSequence, `sequences
      ensures sequences == old(sequences) + [seqNo] && Noted(sequences, haveSequence, lastSequence, sequenceGaps)
    {
      GapsSnoc(sequences, seqNo);
      sequences := sequences + [seqNo];
      if haveSequence && seqNo != lastSequence + 1 {
        sequenceGaps := sequenceGaps + 1;
      }
      haveSequence := true;
      lastSequence := seqNo;
    }

    /** The cancel half of `ApplyLevel`. */
    method CancelLevel(key: LevelKey, ts: nat, out: seq<Message>, ghost sent: seq<Message>) returns (out': seq<Message>)
      requires Synced() && emitted == sent + out
      modifies `live, `depth, `emitted
      ensures Synced() && live == old(live) - {key} && depth == old(depth) - {key}
      ensures Appended(out, out', ts) && emitted == sent + out'
    {
      if key in live {
        CancelFaithful(live, depth, emitted, nextId, key, ts);
        out' := out + [Cancel(live[key], ts)];
        emitted := emitted + [Cancel(live[key], ts)];
        live := live - {key};
        depth := depth - {key};
      } else {
        assert depth - {key} == depth && live - {key} == live;
        out' := out;
      }
    }

    /** The new-order half of `ApplyLevel`. */
    method AddLevel(side: Side, price: int, qty: Quantity, ts: nat, out: seq<Message>, ghost sent: seq<Message>)
      returns (out': seq<Message>)
      requires Synced() && emitted == sent + out && Tradable(price) && qty > 0 && LevelKey(price, side) !in live
      modifies `live, `nextId, `depth, `emitted
      ensures Synced() && nextId == old(nextId) + 1
      ensures live == old(live)[LevelKey(price, side) := old(nextId)]
      ensures depth == old(depth)[LevelKey(price, side) := qty]
      ensures Appended(out, out', ts) && emitted == sent + out'
    {
      var key := LevelKey(price, side);
      var m := NewOrder(nextId, side, Limit, price, qty, ts);
      NewFaithful(live, depth, emitted, nextId, m);
      nextId := nextId + 1;
      live := live[key := m.id];
      depth := depth[key := qty];
      out' := out + [New(m)];
      emitted := emitted + [New(m)];
    }

    /** Replaces whatever stands for a level by an order of the new size, or by nothing. */
    method ApplyLevel(side: Side, price: int, qty: Quantity, ts: nat, out: seq<Message>, ghost sent: seq<Message>)
      returns (out': seq<Message>)
      requires Synced() && emitted == sent + out && Tradable(price)
      modifies `live, `nextId, `depth, `emitted
      ensures Synced() && depth == SetLevel(old(depth), LevelKey(price, side), qty)
      ensures CurrentIds() == IdsLevel(old(CurrentIds()), LevelKey(price, side), qty)
      ensures Appended(out, out', ts) && emitted == sent + out'
    {
      var key := LevelKey(price, side);
      out' := CancelLevel(key, ts, out, sent);
      if qty == 0 {
        return;
      }
      out' := AddLevel(side, price, qty, ts, out', sent);
      assert depth == old(depth)[key := qty] && live == old(live)[key := old(nextId)];
    }

    /** Cancels every live order, in whatever order the map is walked. */
    method ResetBook(ts: nat, out: seq<Message>, ghost sent: seq<Message>) returns (out': seq<Message>)
      requires Synced() && emitted == sent + out
      modifies `live, `depth, `emitted
      ensures Synced() && live == map[] && depth == map[] && Replay(emitted) == map[]
      ensures emitted == sent + out' && CancelsAdded(out, out', |old(live)|, ts)
    {
      var todo := live;
      out' := out;
      while todo != map[]
        invariant Faithful(todo, depth, emitted, nextId) && live == old(live) && |todo| <= |live|
        invariant emitted == sent + out' && CancelsAdded(out, out', |live| - |todo|, ts)
        decreases |todo|
      {
        todo, out' := CancelOne(todo, ts, out', sent, out);
      }
      AllCancelled(depth, emitted, nextId);
      live := map[];
    }

    /** One turn of the reset loop: cancels any of the orders still to do. */
    method CancelOne(todo: Live, ts: nat, out: seq<Message>, ghost sent: seq<Message>, ghost start: seq<Message>)
      returns (todo': Live, out': seq<Message>)
      requires Faithful(todo, depth, emitted, nextId) && emitted == sent + out && todo != map[]
      requires |todo| <= |live| && CancelsAdded(start, out, |live| - |todo|, ts)
      modifies `depth, `emitted
      ensures Faithful(todo', depth, emitted, nextId) && |todo'| == |todo| - 1
      ensures emitted == sent + out' && CancelsAdded(start, out', |live| - |todo'|, ts)
    {
      var key :| key in todo;
      CancelFaithful(todo, depth, emitted, nextId, key, ts);
      CancelsMore(start, out, |live| - |todo|, todo[key], ts);
      out' := out + [Cancel(todo[key], ts)];
      emitted := emitted + [Cancel(todo[key], ts)];
      depth := depth - {key};
      todo' := todo - {key};
      assert todo'.Keys == todo.Keys - {key};
    }

    /** Applies the rows of an update, or of one side of a snapshot. */
    method ConsumeRows(rows: seq<Row>, ts: nat, out: seq<Message>, skipZero: bool, ghost sent: seq<Message>)
      returns (out': seq<Message>)
      requires Synced() && emitted == sent + out
      modifies `live, `nextId, `depth, `emitted, `malformed, `skipped
      ensures Synced() && depth == DepthRows(old(depth), rows, skipZero)
      ensures CurrentIds() == IdsRows(old(CurrentIds()), rows, skipZero)
      ensures skipped == old(skipped) + CountSkipped(rows) && malformed == old(malformed) + CountMalformed(rows)
      ensures Appended(out, out', ts) && emitted == sent + out'
    {
      out' := out;
      for i := 0 to |rows|
        invariant Synced() && depth == DepthRows(old(depth), rows[..i], skipZero)
        invariant CurrentIds() == IdsRows(old(CurrentIds()), rows[..i], skipZero)
        invariant skipped == old(skipped) + CountSkipped(rows[..i])
        invariant malformed == old(malformed) + CountMalformed(rows[..i])
        invariant Appended(out, out', ts) && emitted == sent + out'
      {
        RowsSnoc(old(depth), old(CurrentIds()), rows, i, skipZero);
        out' := ConsumeRow(rows[i], ts, out', skipZero, sent);
      }
      assert rows[..|rows|] == rows;
    }

    method ConsumeRow(row: Row, ts: nat, out: seq<Message>, skipZero: bool, ghost sent: seq<Message>)
      returns (out': seq<Message>)
      requires Synced() && emitted == sent + out
      modifies `live, `nextId, `depth, `emitted, `malformed, `skipped
      ensures Synced() && depth == DepthRow(old(depth), row, skipZero)
      ensures CurrentIds() == if Applies(row, skipZero)
                              then IdsLevel(old(CurrentIds()), LevelKey(row.ticks, row.side), row.size.value)
                              else old(CurrentIds())
      ensures skipped == old(skipped) + (if IsSkipped(row) then 1 else 0)
      ensures malformed == old(malformed) + (if IsMalformed(row) then 1 else 0)
      ensures Appended(out, out', ts) && emitted == sent + out'
    {
      out' := out;
      if row.Unreadable? {
        malformed := malformed + 1;
        return;
      }
      if row.ticks <= 0 || row.ticks >= MAX_PRICE_TICKS {
        skipped := skipped + 1;
        return;
      }
      if row.size.None? {
        malformed := malformed + 1;
        return;
      }
      if skipZero && row.size.value == 0 {
        return;
      }
      out' := ApplyLevel(row.side, row.ticks, row.size.value, ts, out, sent);
    }

    /** One frame; returns how many messages it appended. */
    method Parse(frame: Frame, ts: nat, out: seq<Message>, ghost sent: seq<Message>)
      returns (out': seq<Message>, n: nat)
      requires Valid() && emitted == sent + out
      modifies this
      ensures Valid() && Describes(old(depth), frame, depth) && depth == DepthFrame(old(depth), frame)
      ensures CurrentIds() == IdsFrame(old(CurrentIds()), frame)
      ensures Appended(out, out', ts) && emitted == sent + out' && n == |out'| - |out|
      ensures skipped == old(skipped) + FrameSkipped(frame) && malformed == old(malformed) + FrameMalformed(frame)
      ensures ignored == old(ignored) + (if frame.Trade? || frame.Other? then 1 else 0)
      ensures sequences == old(sequences)
                         + (if frame.Trade? && frame.sequence.Some? then [frame.sequence.value] else [])
    {
      out', n := out, 0;
      FrameDescribes(depth, frame);
      match frame
      case Malformed =>
        malformed := malformed + 1;
      case L2Update(changes) =>
        out' := ConsumeRows(changes, ts, out, false, sent);
        n := |out'| - |out|;
      case Snapshot(bids, asks) =>
        out' := TakeSnapshot(bids, asks, ts, out, sent);
        n := |out'| - |out|;
      case Trade(sequence) =>
        if sequence.Some? {
          NoteSequence(sequence.value);
        }
        ignored := ignored + 1;
      case Other =>
        ignored := ignored + 1;
    }

    method TakeSnapshot(bids: Option<seq<Row>>, asks: Option<seq<Row>>, ts: nat, out: seq<Message>,
                        ghost sent: seq<Message>)
      returns (out': seq<Message>)
      requires Synced() && emitted == sent + out
      modifies `live, `nextId, `depth, `emitted, `malformed, `skipped
      ensures Synced() && depth == DepthFrame(old(depth), Snapshot(bids, asks))
      ensures CurrentIds() == IdsFrame(old(CurrentIds()), Snapshot(bids, asks))
      ensures skipped == old(skipped) + FrameSkipped(Snapshot(bids, asks))
      ensures malformed == old(malformed) + FrameMalformed(Snapshot(bids, asks))
      ensures Appended(out, out', ts) && emitted == sent + out'
    {
      var cancels := ResetBook(ts, out, sent);
      out' := TakeArrays(bids, asks, ts, cancels, sent);
      AppendedTwice(out, cancels, out', ts);
    }

    /** Both arrays of a snapshot, bids first. */
    method TakeArrays(bids: Option<seq<Row>>, asks: Option<seq<Row>>, ts: nat, out: seq<Message>,
                      ghost sent: seq<Message>)
      returns (out': seq<Message>)
      requires Synced() && emitted == sent + out
      modifies `live, `nextId, `depth, `emitted, `malformed, `skipped
      ensures var b, a := OnSide(RowsOf(bids), Bid), OnSide(RowsOf(asks), Ask);
        && Synced() && depth == DepthRows(DepthRows(old(depth), b, true), a, true)
        && CurrentIds() == IdsRows(IdsRows(old(CurrentIds()), b, true), a, true)
        && skipped == old(skipped) + CountSkipped(b) + CountSkipped(a)
        && malformed == old(malformed) + CountMalformed(b) + CountMalformed(a)
      ensures Appended(out, out', ts) && emitted == sent + out'
    {
      var added := ConsumeSide(bids, Bid, ts, out, sent);
      out' := ConsumeSide(asks, Ask, ts, added, sent);
      AppendedTwice(out, added, out', ts);
    }

    /** One array of a snapshot, which may be missing. */
    method ConsumeSide(rows: Option<seq<Row>>, side: Side, ts: nat, out: seq<Message>, ghost sent: seq<Message>)
      returns (out': seq<Message>)
      requires Synced() && emitted == sent + out
      modifies `live, `nextId, `depth, `emitted, `malformed, `skipped
      ensures var read := OnSide(RowsOf(rows), side);
        && Synced() && depth == DepthRows(old(depth), read, true)
        && CurrentIds() == IdsRows(old(CurrentIds()), read, true)
        && skipped == old(skipped) + CountSkipped(read) && malformed == old(malformed) + CountMalformed(read)
      ensures Appended(out, out', ts) && emitted == sent + out'
    {
      out' := out;
      if rows.Some? {
        out' := ConsumeRows(OnSide(rows.value, side), ts, out, true, sent);
      }
    }
  }

  /** Any session from a new handler: the messages, replayed, are exactly the depth of the frames, and the
      gaps counted are the numbers that do not follow the one before them. */
  method Session(frames: seq<Frame>, ts: seq<nat>) returns (feed: FeedHandler, out: seq<Message>)
    requires |ts| == |frames|
    ensures fresh(feed) && feed.Valid() && out == feed.emitted && feed.depth == DepthAfter(frames)
    ensures forall depths :: Chronicle(frames, depths) ==> feed.depth == depths[|frames|]
    ensures Reflects(feed.live, DepthAfter(frames), Replay(out), feed.nextId) && GoodStream(out)
    ensures feed.sequenceGaps == |Gaps(Sequences(frames))|
  {
    feed := new FeedHandler();
    out := [];
    for i := 0 to |frames|
      invariant fresh(feed) && feed.Valid() && out == feed.emitted && feed.depth == DepthAfter(frames[..i])
      invariant feed.sequences == Sequences(frames[..i])
    {
      assert frames[..i + 1][..i] == frames[..i] && [] + out == out;
      var n;
      out, n := feed.Parse(frames[i], ts[i], out, []);
    }
    assert frames[..|frames|] == frames;
    forall depths | Chronicle(frames, depths) ensures feed.depth == depths[|frames|] {
      ChronicleAt(frames, depths, |frames|);
    }
  }
}
