/** The textbook engine as a program over its maps and index. */
module MapEngines {
  import opened Types
  import opened BookSpec
  import opened BookTheory
  import opened MapBooks

  /** What the textbook engine does with a new order: no range check, no id check, no capacity. */
  function TextbookNew(b: Book, m: NewOrder): Outcome {
    var s := Swept(b, m);
    MatchRemaining(b.Of(Opposite(m.side)), m, m.quantity);
    Outcome(if s.remaining > 0 && m.typ.Limit? then Joined(AfterSweep(b, m), Remainder(m, s.remaining))
            else AfterSweep(b, m),
            s.fills)
  }

  /** What a caller can check: a non-empty limit order is priced in range, and if any of it is left
      after matching then a slot is free and its id is not resting. */
  predicate Acceptable(b: Book, m: NewOrder) {
    m.quantity > 0 && m.typ.Limit? ==>
      && InRange(m.price)
      && (Swept(b, m).remaining > 0 ==> AfterSweep(b, m).HasRoom() && !AfterSweep(b, m).Knows(m.id))
  }

  predicate AcceptableMessage(b: Book, msg: Message) {
    msg.New? ==> Acceptable(b, msg.order)
  }

  function Textbook(b: Book, msg: Message): Outcome {
    match msg
    case New(m) => TextbookNew(b, m)
    case Cancel(id, _) => Outcome(ProcessCancel(b, id), [])
  }

  /** On an acceptable order none of the checks it lacks would have done anything. */
  lemma AcceptableOutcome(b: Book, m: NewOrder)
    requires Acceptable(b, m)
    ensures TextbookNew(b, m) == ProcessNew(b, m)
  {
  }

  /** Resting a remainder: the maps follow the sorted queues, and stay sound if it was acceptable. */
  lemma AppendTracks(st: MapState, b: Book, m: NewOrder, remaining: nat)
    requires Tracks(st, b) && NoEmpty(st.bids) && NoEmpty(st.asks)
    requires 0 < remaining <= m.quantity && m.typ.Limit? && NonCrossing(b, Remainder(m, remaining))
    ensures var st', b' := Pushed(st, m.side, m.price, m.id, remaining), Joined(b, Remainder(m, remaining));
            && Shows(st', b') && NoEmpty(st'.bids) && NoEmpty(st'.asks)
            && (InRange(m.price) && b.HasRoom() && !b.Knows(m.id) ==> Tracks(st', b'))
  {
    var e := Remainder(m, remaining);
    assert e.Remaining() == remaining;
    PushShows(st, b, e);
    if InRange(m.price) && b.HasRoom() && !b.Knows(m.id) {
      PushTracks(st, b, e);
    }
  }

  class MapBookEngine {
    var bids: Levels
    var asks: Levels
    var index: Index
    var next: nat            // address of the next list node
    ghost var model: Book    // the two sorted queues the maps stand for

    ghost function State(): MapState
      reads this
    {
      MapState(bids, asks, index, next)
    }

    /** The maps mirror the model, except that the level at `p` of `side` may be an empty list. */
    ghost predicate Working(side: Side, p: int)
      reads this
    {
      && Tracks(State(), model)
      && NoEmptyBut(State().Of(side), p) && NoEmpty(State().Of(Opposite(side)))
    }

    ghost predicate Valid()
      reads this
    {
      Tracks(State(), model) && NoEmpty(bids) && NoEmpty(asks)
    }

    constructor (ghost capacity: nat)
      ensures Valid() && model == EmptyBook(capacity)
    {
      bids, asks, index, next := map[], map[], map[], 0;
      model := EmptyBook(capacity);
      new;
      forall p ensures MirrorsAt(bids, model.bids, p) && MirrorsAt(asks, model.asks, p) {
      }
    }

    method Store(side: Side, levels: Levels)
      modifies `bids, `asks
      ensures State() == old(State()).With(side, levels)
    {
      if side.Bid? {
        bids := levels;
      } else {
        asks := levels;
      }
    }

    /** The writes of `Execute`. */
    method TradeTop(side: Side, p: int, remaining: Quantity) returns (executed: nat)
      requires NodesAt(State().Of(side), p) != []
      modifies `bids, `asks, `index
      ensures executed == Min(remaining, old(State()).Of(side)[p][0].qty)
      ensures State() == Executed(old(State()), side, p, executed)
    {
      var levels := if side.Bid? then bids else asks;
      var queue := levels[p];
      executed := Min(remaining, queue[0].qty);
      var top := queue[0].(qty := queue[0].qty - executed);
      if top.qty == 0 {
        index := index - {top.id};
        queue := queue[1..];
      } else {
        queue := [top] + queue[1..];
      }
      Store(side, levels[p := queue]);
    }

    /** One turn of the inner loop: trade with the front node, dropping it when nothing is left. */
    method Execute(side: Side, p: int, remaining: Quantity) returns (executed: nat)
      requires Working(side, p) && NodesAt(State().Of(side), p) != [] && NoBetter(model.Of(side), side, p)
      modifies this
      ensures Working(side, p) && NoBetter(model.Of(side), side, p) && p in State().Of(side)
      ensures var s := old(model.Of(side));
              && s != [] && s[0].price == p
              && executed == Min(remaining, s[0].Remaining())
              && model == old(model).With(side, AfterFill(s, executed))
    {
      ghost var st, b := State(), model;
      FrontNode(st.Of(side), b.Of(side), side, p);
      executed := TradeTop(side, p, remaining);
      ExecutionTracks(st, b, side, p, executed);
      NoBetterAfterFill(b.Of(side), side, p, executed);
      model := b.With(side, AfterFill(b.Of(side), executed));
    }

    /** One turn of the inner loop, in the terms of the sweep it belongs to. */
    method MatchNext(m: NewOrder, p: int, remaining: Quantity, ghost opp0: seq<Resting>, ghost quantity: nat,
                     ghost done: seq<Fill>)
      returns (left: Quantity, ghost done': seq<Fill>)
      requires var side := Opposite(m.side);
               Working(side, p) && NodesAt(State().Of(side), p) != [] && NoBetter(model.Of(side), side, p)
      requires remaining > 0 && Crosses(m, p)
      requires Resumes(opp0, m, quantity, done, model.Of(Opposite(m.side)), remaining)
      modifies this
      ensures var side := Opposite(m.side);
              Working(side, p) && NoBetter(model.Of(side), side, p) && p in State().Of(side)
      ensures model == old(model).With(Opposite(m.side), model.Of(Opposite(m.side)))
      ensures left < remaining && |done'| == |done| + 1
      ensures Resumes(opp0, m, quantity, done', model.Of(Opposite(m.side)), left)
    {
      ghost var s := model.Of(Opposite(m.side));
      var executed := Execute(Opposite(m.side), p, remaining);
      ResumesAfterFill(opp0, m, quantity, done, s, remaining);
      assert s[0].filled < s[0].quantity;
      done' := done + [FillOf(m, s[0], executed)];
      left := remaining - executed;
      assert model.Of(Opposite(m.side)) == AfterFill(s, executed);
    }

    /** The inner loop and the erasure of an emptied level. `opp0` and `quantity` describe the sweep this
        level is part of, and `done` its fills so far. */
    method MatchLevel(m: NewOrder, p: int, start: Quantity, ghost opp0: seq<Resting>, ghost quantity: nat,
                      ghost done: seq<Fill>)
      returns (fills: nat, remaining: Quantity, ghost done': seq<Fill>)
      requires Valid() && start > 0 && Crosses(m, p)
      requires var s := model.Of(Opposite(m.side)); s != [] && s[0].price == p
      requires Resumes(opp0, m, quantity, done, model.Of(Opposite(m.side)), start)
      modifies this
      ensures Valid() && remaining < start
      ensures model == old(model).With(Opposite(m.side), model.Of(Opposite(m.side)))
      ensures Resumes(opp0, m, quantity, done', model.Of(Opposite(m.side)), remaining)
      ensures |done'| == |done| + fills
    {
      var side := Opposite(m.side);
      ghost var b := model;
      QueueAtNone(b.Of(side), p);
      assert MirrorsAt(State().Of(side), b.Of(side), p) && NoBetter(b.Of(side), side, p);
      fills, remaining, done' := 0, start, done;
      while remaining > 0 && (if side.Bid? then bids else asks)[p] != []
        invariant Working(side, p) && p in State().Of(side) && remaining <= start
        invariant NoBetter(model.Of(side), side, p)
        invariant model == b.With(side, model.Of(side))
        invariant Resumes(opp0, m, quantity, done', model.Of(side), remaining)
        invariant |done'| == |done| + fills
        invariant remaining == start ==> State().Of(side)[p] != []
        decreases remaining
      {
        remaining, done' := MatchNext(m, p, remaining, opp0, quantity, done');
        fills := fills + 1;
      }
      DropIfEmpty(side, p);
    }

    /** Erases a level whose list became empty. */
    method DropIfEmpty(side: Side, p: int)
      requires Working(side, p) && p in State().Of(side)
      modifies `bids, `asks
      ensures Valid()
    {
      var levels := if side.Bid? then bids else asks;
      if levels[p] == [] {
        EraseEmptyTracks(State(), model, side, p);
        Store(side, levels - {p});
      }
    }

    /** Matches against the opposite map, first key first. */
    method Match(m: NewOrder) returns (fills: nat, remaining: Quantity)
      requires Valid()
      modifies this
      ensures Valid() && model == AfterSweep(old(model), m)
      ensures fills == |Swept(old(model), m).fills| && remaining == Swept(old(model), m).remaining
    {
      var side := Opposite(m.side);
      ghost var b := model;
      ghost var done: seq<Fill> := [];
      fills, remaining := 0, m.quantity;
      SweepStarts(b.Of(side), m, remaining);
      while remaining > 0 && (if side.Bid? then bids else asks).Keys != {}
        invariant Valid() && model == b.With(side, model.Of(side))
        invariant Resumes(b.Of(side), m, m.quantity, done, model.Of(side), remaining)
        invariant |done| == fills
        decreases remaining
      {
        var levels := if side.Bid? then bids else asks;
        var p := Begin(levels, side);
        BeginIsBest(levels, model.Of(side), side, p);
        if !m.typ.Market? && (if m.side.Bid? then p > m.price else p < m.price) {
          break;
        }
        var n;
        n, remaining, done := MatchLevel(m, p, remaining, b.Of(side), m.quantity, done);
        fills := fills + n;
      }
      EmptyMirrors(State().Of(side), model.Of(side));
      SweepEnds(b.Of(side), m, m.quantity, done, model.Of(side), remaining);
    }

    method HandleNew(m: NewOrder) returns (fills: nat)
      requires Valid()
      modifies this
      ensures Shows(State(), TextbookNew(old(model), m).book) && fills == |TextbookNew(old(model), m).fills|
      ensures Acceptable(old(model), m) ==> Valid() && model == ProcessNew(old(model), m).book
    {
      ghost var b := model;
      MatchRemaining(b.Of(Opposite(m.side)), m, m.quantity);
      if Acceptable(b, m) {
        AcceptableOutcome(b, m);
      }
      var remaining;
      fills, remaining := Match(m);
      if remaining > 0 && !m.typ.Market? {
        RemainderNonCrossing(b, m);
        Append(m, remaining);
      }
    }

    /** Rests a remainder at the back of its list. */
    method Append(m: NewOrder, remaining: Quantity)
      requires Valid() && 0 < remaining <= m.quantity && m.typ.Limit?
      requires NonCrossing(model, Remainder(m, remaining))
      modifies this
      ensures model == Joined(old(model), Remainder(m, remaining)) && Shows(State(), model)
      ensures InRange(m.price) && old(model).HasRoom() && !old(model).Knows(m.id) ==> Valid()
    {
      AppendTracks(State(), model, m, remaining);
      PushNode(m.side, m.price, m.id, remaining);
      model := Joined(model, Remainder(m, remaining));
    }

    /** The writes of `Append`. */
    method PushNode(side: Side, price: int, id: OrderId, qty: nat)
      modifies `bids, `asks, `index, `next
      ensures State() == Pushed(old(State()), side, price, id, qty)
    {
      var levels := if side.Bid? then bids else asks;
      var level := if price in levels then levels[price] else [];
      Store(side, levels[price := level + [Node(next, id, qty)]]);
      if id !in index {
        index := index[id := Location(side, price, next)];
      }
      next := next + 1;
    }

    method HandleCancel(id: OrderId)
      requires Valid()
      modifies this
      ensures Valid() && model == ProcessCancel(old(model), id)
    {
      if id !in index {
        assert !model.Knows(id);
        RemoveAbsent(model.bids, id);
        RemoveAbsent(model.asks, id);
        return;
      }
      var loc := index[id];
      assert Resolves(State(), id);
      var levels := if loc.side.Bid? then bids else asks;
      var k := Seek(levels[loc.price], loc.it);
      SeekFinds(levels[loc.price], next, loc.it, id);
      EraseFrom(loc.side, loc.price, k, id);
      DropIfEmpty(loc.side, loc.price);
    }

    /** Unlinks the located node and forgets its index entry. */
    method EraseFrom(side: Side, p: int, k: nat, id: OrderId)
      requires Valid() && k < |NodesAt(State().Of(side), p)| && State().Of(side)[p][k].id == id
      modifies this
      ensures Working(side, p) && p in State().Of(side) && model == ProcessCancel(old(model), id)
    {
      CancelTracks(State(), model, side, p, k, id);
      DropNode(side, p, k, id);
      model := ProcessCancel(model, id);
    }

    /** The writes of `EraseFrom`. */
    method DropNode(side: Side, p: int, k: nat, id: OrderId)
      requires k < |NodesAt(State().Of(side), p)|
      modifies `bids, `asks, `index
      ensures State() == Erased(old(State()), side, p, k, id)
    {
      var levels := if side.Bid? then bids else asks;
      Store(side, levels[p := Unlinked(levels[p], k)]);
      index := index - {id};
    }

    /** One message; returns the number of fills it caused. */
    method Handle(msg: Message) returns (fills: nat)
      requires Valid()
      modifies this
      ensures Shows(State(), Textbook(old(model), msg).book) && fills == |Textbook(old(model), msg).fills|
      ensures AcceptableMessage(old(model), msg) ==>
                Valid() && model == Process(old(model), msg).book && fills == |Process(old(model), msg).fills|
    {
      match msg
      case New(m) =>
        if Acceptable(model, m) {
          AcceptableOutcome(model, m);
        }
        fills := HandleNew(m);
      case Cancel(id, _) =>
        HandleCancel(id);
        fills := 0;
    }
  }
}
