/** What an order is promised, in terms of prices, quantities and times alone: one message has exactly one
    right answer, every fill honours both limits, and price-time priority holds over whole runs. */
module OrderLaws {
  import opened Types
  import opened BookSpec
  import opened BookTheory
  import opened EngineRuns

  // ---- One new order ----

  /** `s'` is `s` with `e` in front of the first order at a worse price, behind everyone else. */
  predicate PlacedAt(s: seq<Resting>, e: Resting, s': seq<Resting>, k: int) {
    && 0 <= k <= |s| && s' == s[..k] + [e] + s[k..]
    && (forall i :: 0 <= i < k ==> if e.side.Bid? then s[i].price >= e.price else s[i].price <= e.price)
    && (forall i :: k <= i < |s| ==> if e.side.Bid? then s[i].price < e.price else s[i].price > e.price)
  }

  ghost predicate Placed(s: seq<Resting>, e: Resting, s': seq<Resting>) {
    exists k :: PlacedAt(s, e, s', k)
  }

  lemma PlacedIff(s: seq<Resting>, e: Resting, s': seq<Resting>)
    requires SideOk(s, e.side)
    ensures Placed(s, e, s') <==> s' == Insert(s, e)
  {
    var n := Position(s, e.side, e.price);
    forall i | n <= i < |s| ensures Rank(e.side, s[i].price) > Rank(e.side, e.price) {
    }
    assert PlacedAt(s, e, Insert(s, e), n);
    forall k | PlacedAt(s, e, s', k) ensures k == n {
      assert k < |s| ==> Rank(e.side, s[k].price) > Rank(e.side, e.price);
    }
  }

  /** What is left of `m` after a sweep may rest: a limit order, a free slot, and an id nobody carries. */
  predicate MayRest(own: seq<Resting>, opp: seq<Resting>, capacity: nat, m: NewOrder, left: int) {
    && m.typ.Limit? && left > 0 && |own| + |opp| < capacity
    && (forall i :: 0 <= i < |own| ==> own[i].id != m.id) && (forall i :: 0 <= i < |opp| ==> opp[i].id != m.id)
  }

  /** The fills are those of a greedy sweep that leaves `left` units and the other side as it is now. */
  predicate TradesGreedily(b: Book, m: NewOrder, o: Outcome, left: int) {
    left >= 0 && IsGreedy(b.Of(Opposite(m.side)), m, m.quantity, Sweep(o.fills, o.book.Of(Opposite(m.side)), left))
  }

  /** What is left rests, with all it was submitted with, behind every order at its price or better. */
  ghost predicate RestsInOrder(b: Book, m: NewOrder, b': Book, left: int)
    requires left <= m.quantity
  {
    if MayRest(b.Of(m.side), b'.Of(Opposite(m.side)), b.capacity, m, left) then
      Placed(b.Of(m.side), Resting(m.id, m.side, m.typ, m.price, m.quantity, m.quantity - left, m.timestamp),
             b'.Of(m.side))
    else
      b'.Of(m.side) == b.Of(m.side)
  }

  /** The whole meaning of a new order. A zero quantity or a limit price off the book changes nothing.
      Otherwise the order trades greedily, and what is left of it rests if it may. */
  ghost predicate IsAnswer(b: Book, m: NewOrder, o: Outcome) {
    if m.quantity == 0 || (m.typ.Limit? && !(0 <= m.price < MAX_PRICE_TICKS)) then
      o == Outcome(b, [])
    else
      var left := m.quantity - Volume(o.fills);
      o.book.capacity == b.capacity && TradesGreedily(b, m, o, left) && RestsInOrder(b, m, o.book, left)
  }

  /** A new order has exactly one right answer, and it is the specified one. */
  lemma AnswerIff(b: Book, m: NewOrder, o: Outcome)
    requires WellFormed(b)
    ensures IsAnswer(b, m, o) <==> o == ProcessNew(b, m)
  {
    if !Rejected(m) {
      GreedyIff(b, m, o);
      if o.book.Of(Opposite(m.side)) == Swept(b, m).left {
        RestIff(b, m, o.book);
      }
      AfterNewIff(b, m, o.book);
    }
  }

  lemma GreedyIff(b: Book, m: NewOrder, o: Outcome)
    requires WellFormed(b)
    ensures Volume(Swept(b, m).fills) + Swept(b, m).remaining == m.quantity
    ensures TradesGreedily(b, m, o, m.quantity - Volume(o.fills)) <==>
            o.fills == Swept(b, m).fills && o.book.Of(Opposite(m.side)) == Swept(b, m).left
  {
    SweepIff(b.Of(Opposite(m.side)), m, o.fills, o.book.Of(Opposite(m.side)));
  }

  lemma SweepIff(opp: seq<Resting>, m: NewOrder, fills: seq<Fill>, opp': seq<Resting>)
    requires Open(opp)
    ensures var s, left := Match(opp, m, m.quantity), m.quantity - Volume(fills);
            && Volume(s.fills) + s.remaining == m.quantity
            && (left >= 0 && IsGreedy(opp, m, m.quantity, Sweep(fills, opp', left)) <==>
                fills == s.fills && opp' == s.left)
  {
    var s, left := Match(opp, m, m.quantity), m.quantity - Volume(fills);
    MatchConserves(opp, m, m.quantity);
    if left >= 0 {
      MatchIsGreedy(opp, m, m.quantity, Sweep(fills, opp', left));
    }
  }

  lemma RestIff(b: Book, m: NewOrder, b': Book)
    requires WellFormed(b) && !Rejected(m) && b'.Of(Opposite(m.side)) == Swept(b, m).left
    ensures Swept(b, m).remaining <= m.quantity
    ensures RestsInOrder(b, m, b', Swept(b, m).remaining) <==>
            b'.Of(m.side) ==
            if Rests(b, m) then Insert(b.Of(m.side), Remainder(m, Swept(b, m).remaining)) else b.Of(m.side)
  {
    ProcessNewParts(b, m);
    PlacedIff(b.Of(m.side), Remainder(m, Swept(b, m).remaining), b'.Of(m.side));
    MayRestIff(b, m);
  }

  lemma MayRestIff(b: Book, m: NewOrder)
    requires !Rejected(m)
    ensures MayRest(b.Of(m.side), Swept(b, m).left, b.capacity, m, Swept(b, m).remaining) <==> Rests(b, m)
  {
    var swept := AfterSweep(b, m);
    assert swept.Of(m.side) == b.Of(m.side) && swept.Of(Opposite(m.side)) == Swept(b, m).left;
  }

  /** The book after a new order that was not rejected, side by side. */
  lemma AfterNewIff(b: Book, m: NewOrder, b': Book)
    requires !Rejected(m)
    ensures Swept(b, m).remaining <= m.quantity && ProcessNew(b, m).fills == Swept(b, m).fills
    ensures b' == ProcessNew(b, m).book <==>
            && b'.capacity == b.capacity && b'.Of(Opposite(m.side)) == Swept(b, m).left
            && b'.Of(m.side) ==
               if Rests(b, m) then Insert(b.Of(m.side), Remainder(m, Swept(b, m).remaining)) else b.Of(m.side)
  {
    ProcessNewParts(b, m);
  }

  // ---- Why quantity is discarded ----

  /** What a new order adds to each column of the ledger: what it traded, and the rest under the one reason
      that kept it from resting, if any did. */
  lemma DiscardReasons(b: Book, m: NewOrder, l: Ledger)
    requires WellFormed(b)
    ensures var o, l' := ProcessNew(b, m), Entered(b, New(m), l);
            var left := m.quantity - Volume(o.fills);
            var off := m.typ.Limit? && !(0 <= m.price < MAX_PRICE_TICKS);
            var full := |b.Of(m.side)| + |o.book.Of(Opposite(m.side))| >= b.capacity;
            var rests := MayRest(b.Of(m.side), o.book.Of(Opposite(m.side)), b.capacity, m, left);
            && l'.submitted == l.submitted + m.quantity && l'.filled == l.filled + Volume(o.fills)
            && l'.cancelled == l.cancelled
            && l'.rejected == l.rejected + (if off then left else 0)
            && l'.marketRemainder == l.marketRemainder + (if m.typ.Market? then left else 0)
            && l'.poolExhausted == l.poolExhausted + (if m.typ.Limit? && !off && full then left else 0)
            && l'.duplicateId == l.duplicateId + (if m.typ.Limit? && !off && !full && !rests then left else 0)
  {
    if !Rejected(m) {
      ProcessNewParts(b, m);
      MatchConserves(b.Of(Opposite(m.side)), m, m.quantity);
      MayRestIff(b, m);
      SidesAfterNew(b, m);
    }
  }

  /** Resting adds to the taker's own side only. */
  lemma SidesAfterNew(b: Book, m: NewOrder)
    requires !Rejected(m)
    ensures var s, o := Swept(b, m), ProcessNew(b, m);
            && o.book.Of(Opposite(m.side)) == s.left && o.fills == s.fills
            && (AfterSweep(b, m).HasRoom() <==> |b.Of(m.side)| + |s.left| < b.capacity)
  {
    ProcessNewParts(b, m);
  }

  // ---- One cancel ----

  /** The order of `id` is taken out of `s`, wherever it is, or nothing is. */
  ghost predicate TakenOut(s: seq<Resting>, id: OrderId, s': seq<Resting>) {
    if exists k :: 0 <= k < |s| && s[k].id == id then
      exists k :: 0 <= k < |s| && s[k].id == id && s' == s[..k] + s[k + 1..]
    else
      s' == s
  }

  lemma TakenOutIff(s: seq<Resting>, id: OrderId, s': seq<Resting>)
    requires DistinctIds(s)
    ensures TakenOut(s, id, s') <==> s' == Remove(s, id)
  {
    forall k | 0 <= k < |s| && s[k].id == id ensures IndexOf(s, id) == k {
      IndexOfAt(s, id, k);
    }
  }

  /** The whole meaning of a cancel: no fills, that order leaves, and nothing else moves. */
  ghost predicate IsCancelled(b: Book, id: OrderId, o: Outcome) {
    && o.fills == [] && o.book.capacity == b.capacity
    && TakenOut(b.bids, id, o.book.bids) && TakenOut(b.asks, id, o.book.asks)
  }

  /** A cancel has exactly one right answer, and it is the specified one. */
  lemma CancelIff(b: Book, id: OrderId, timestamp: nat, o: Outcome)
    requires WellFormed(b)
    ensures IsCancelled(b, id, o) <==> o == Process(b, Cancel(id, timestamp))
  {
    TakenOutIff(b.bids, id, o.book.bids);
    TakenOutIff(b.asks, id, o.book.asks);
  }

  lemma ProcessIff(b: Book, msg: Message)
    requires WellFormed(b)
    ensures msg.New? ==> IsAnswer(b, msg.order, Process(b, msg))
    ensures msg.Cancel? ==> IsCancelled(b, msg.id, Process(b, msg))
  {
    match msg
    case New(m) => AnswerIff(b, m, ProcessNew(b, m));
    case Cancel(id, timestamp) => CancelIff(b, id, timestamp, Process(b, msg));
  }

  // ---- Where resting orders come from, over whole runs ----

  /** `e` is what message `a` submitted, whatever has been filled of it since. */
  predicate Came(msgs: seq<Message>, e: Resting, a: int) {
    && 0 <= a < |msgs| && msgs[a].New?
    && var m := msgs[a].order;
       e == Resting(m.id, m.side, m.typ, m.price, m.quantity, e.filled, m.timestamp)
  }

  ghost predicate Submits(msgs: seq<Message>, e: Resting) {
    exists a :: Came(msgs, e, a)
  }

  /** `x` was submitted before `y`. */
  ghost predicate Earlier(msgs: seq<Message>, x: Resting, y: Resting) {
    exists a, c :: a < c && Came(msgs, x, a) && Came(msgs, y, c)
  }

  /** Every order of the queue was submitted as it stands, and equal prices stand in order of submission. */
  ghost predicate InArrivalOrder(msgs: seq<Message>, s: seq<Resting>) {
    && (forall i :: 0 <= i < |s| ==> Submits(msgs, s[i]))
    && (forall i, j :: 0 <= i < j < |s| && s[i].price == s[j].price ==> Earlier(msgs, s[i], s[j]))
  }

  lemma SubmitsMore(msgs: seq<Message>, msg: Message, x: Resting, x': Resting)
    requires Submits(msgs, x) && x' == x.(filled := x'.filled)
    ensures Submits(msgs + [msg], x')
  {
    var a :| Came(msgs, x, a);
    assert Came(msgs + [msg], x', a);
  }

  lemma EarlierMore(msgs: seq<Message>, msg: Message, x: Resting, y: Resting, x': Resting, y': Resting)
    requires Earlier(msgs, x, y) && x' == x.(filled := x'.filled) && y' == y.(filled := y'.filled)
    ensures Earlier(msgs + [msg], x', y')
  {
    var a, c :| a < c && Came(msgs, x, a) && Came(msgs, y, c);
    assert Came(msgs + [msg], x', a) && Came(msgs + [msg], y', c);
  }

  /** Dropping orders and filling others keeps the order of arrival. */
  lemma ArrivalThinned(msgs: seq<Message>, msg: Message, s: seq<Resting>, t: seq<Resting>, from: seq<nat>)
    requires InArrivalOrder(msgs, s) && |from| == |t|
    requires forall i :: 0 <= i < |t| ==> from[i] < |s| && t[i] == s[from[i]].(filled := t[i].filled)
    requires forall i, j :: 0 <= i < j < |t| ==> from[i] < from[j]
    ensures InArrivalOrder(msgs + [msg], t)
  {
    forall i | 0 <= i < |t| ensures Submits(msgs + [msg], t[i]) {
      SubmitsMore(msgs, msg, s[from[i]], t[i]);
    }
    forall i, j | 0 <= i < j < |t| && t[i].price == t[j].price ensures Earlier(msgs + [msg], t[i], t[j]) {
      EarlierMore(msgs, msg, s[from[i]], s[from[j]], t[i], t[j]);
    }
  }

  lemma ArrivalKept(msgs: seq<Message>, msg: Message, s: seq<Resting>)
    requires InArrivalOrder(msgs, s)
    ensures InArrivalOrder(msgs + [msg], s)
  {
    ArrivalThinned(msgs, msg, s, s, seq(|s|, i => i));
  }

  lemma ArrivalAfterSweep(msgs: seq<Message>, msg: Message, left: seq<Resting>, s: seq<Resting>)
    requires InArrivalOrder(msgs, s) && TailOf(left, s)
    ensures InArrivalOrder(msgs + [msg], left)
  {
    ArrivalThinned(msgs, msg, s, left, seq(|left|, i requires 0 <= i => i + (|s| - |left|)));
  }

  lemma ArrivalAfterCancel(msgs: seq<Message>, msg: Message, s: seq<Resting>, id: OrderId)
    requires InArrivalOrder(msgs, s)
    ensures InArrivalOrder(msgs + [msg], Remove(s, id))
  {
    var k, t := IndexOf(s, id), Remove(s, id);
    ArrivalThinned(msgs, msg, s, t, seq(|t|, i requires 0 <= i => if i < k then i else i + 1));
  }

  /** A newcomer stands behind everyone at its price. */
  lemma ArrivalAfterRest(msgs: seq<Message>, m: NewOrder, s: seq<Resting>, e: Resting)
    requires InArrivalOrder(msgs, s) && SideOk(s, e.side) && Came(msgs + [New(m)], e, |msgs|)
    ensures InArrivalOrder(msgs + [New(m)], Insert(s, e))
  {
    var all, k, t := msgs + [New(m)], Position(s, e.side, e.price), Insert(s, e);
    ArrivalKept(msgs, New(m), s);
    forall i | 0 <= i < |t| ensures Submits(all, t[i]) {
      InsertAt(s, e, i);
    }
    forall i, j | 0 <= i < j < |t| && t[i].price == t[j].price ensures Earlier(all, t[i], t[j]) {
      InsertAt(s, e, i);
      InsertAt(s, e, j);
      if j == k {
        EarlierThanLast(msgs, New(m), s[i], e);
      }
    }
  }

  lemma EarlierThanLast(msgs: seq<Message>, msg: Message, x: Resting, e: Resting)
    requires Submits(msgs, x) && Came(msgs + [msg], e, |msgs|)
    ensures Earlier(msgs + [msg], x, e)
  {
    var a :| Came(msgs, x, a);
    assert Came(msgs + [msg], x, a);
  }

  lemma StepArrives(msgs: seq<Message>, b: Book, msg: Message, side: Side)
    requires WellFormed(b) && InArrivalOrder(msgs, b.Of(side))
    ensures InArrivalOrder(msgs + [msg], Process(b, msg).book.Of(side))
  {
    var s := b.Of(side);
    ArrivalKept(msgs, msg, s);
    match msg
    case Cancel(id, _) =>
      ArrivalAfterCancel(msgs, msg, s, id);
    case New(m) =>
      if !Rejected(m) {
        ProcessNewParts(b, m);
        MatchLeavesTail(b.Of(Opposite(m.side)), m, m.quantity);
        if side != m.side {
          ArrivalAfterSweep(msgs, msg, Swept(b, m).left, s);
        } else if Rests(b, m) {
          ArrivalAfterRest(msgs, m, s, Remainder(m, Swept(b, m).remaining));
        }
      }
  }

  /** In every reachable book each order is as it was submitted, and orders at one price stand in the order
      in which they were submitted. */
  lemma {:induction false} EveryBookInArrivalOrder(capacity: nat, msgs: seq<Message>, side: Side)
    ensures InArrivalOrder(msgs, Run(EmptyBook(capacity), msgs).book.Of(side))
    decreases |msgs|
  {
    if msgs != [] {
      var init, last := msgs[..|msgs| - 1], msgs[|msgs| - 1];
      assert init + [last] == msgs;
      RunSnoc(EmptyBook(capacity), init, last);
      RunKeepsWellFormed(EmptyBook(capacity), init);
      EveryBookInArrivalOrder(capacity, init, side);
      StepArrives(init, Run(EmptyBook(capacity), init).book, last, side);
    }
  }

  // ---- Every fill of a run ----

  /** The taker of `f` was submitted as message `a` and its maker earlier, as `c`: a limit order on the other
      side whose price is the price of the trade, which is no worse than the taker's limit. */
  predicate HonoursAt(msgs: seq<Message>, f: Fill, a: int, c: int) {
    && 0 <= c < a < |msgs| && msgs[a].New? && msgs[c].New?
    && var taker, maker := msgs[a].order, msgs[c].order;
       && taker.id == f.aggressiveId && taker.side == f.aggressorSide && taker.timestamp == f.timestamp
       && maker.id == f.passiveId && maker.side != taker.side
       && maker.typ.Limit? && maker.price == f.price && 0 <= f.price < MAX_PRICE_TICKS
       && 0 < f.quantity <= taker.quantity && f.quantity <= maker.quantity
       && (taker.typ.Limit? ==> if taker.side.Bid? then f.price <= taker.price else f.price >= taker.price)
  }

  ghost predicate Honours(msgs: seq<Message>, f: Fill) {
    exists a, c :: HonoursAt(msgs, f, a, c)
  }

  lemma HonoursMore(msgs: seq<Message>, msg: Message, f: Fill)
    requires Honours(msgs, f)
    ensures Honours(msgs + [msg], f)
  {
    var a, c :| HonoursAt(msgs, f, a, c);
    assert HonoursAt(msgs + [msg], f, a, c);
  }

  lemma FillWithinVolume(fills: seq<Fill>, i: nat)
    requires i < |fills|
    ensures fills[i].quantity <= Volume(fills)
  {
    if i > 0 {
      FillWithinVolume(fills[1..], i - 1);
    }
  }

  lemma StepHonours(msgs: seq<Message>, b: Book, m: NewOrder, i: nat)
    requires WellFormed(b) && InArrivalOrder(msgs, b.Of(Opposite(m.side))) && i < |ProcessNew(b, m).fills|
    ensures Honours(msgs + [New(m)], ProcessNew(b, m).fills[i])
  {
    var opp, all, f := b.Of(Opposite(m.side)), msgs + [New(m)], ProcessNew(b, m).fills[i];
    ProcessNewParts(b, m);
    MatchIsGreedy(opp, m, m.quantity, Swept(b, m));
    FillWithinVolume(Swept(b, m).fills, i);
    assert Trades(m, opp[i], f);
    var c :| Came(msgs, opp[i], c);
    assert HonoursAt(all, f, |msgs|, c);
  }

  ghost predicate AllHonour(msgs: seq<Message>, fills: seq<Fill>) {
    forall k :: 0 <= k < |fills| ==> Honours(msgs, fills[k])
  }

  /** More fills after one more message. */
  lemma AllHonourMore(msgs: seq<Message>, msg: Message, fills: seq<Fill>, more: seq<Fill>)
    requires AllHonour(msgs, fills) && AllHonour(msgs + [msg], more)
    ensures AllHonour(msgs + [msg], fills + more)
  {
    forall k | 0 <= k < |fills + more| ensures Honours(msgs + [msg], (fills + more)[k]) {
      if k < |fills| {
        HonoursMore(msgs, msg, fills[k]);
      }
    }
  }

  /** Over every run, every fill names an order submitted now and one submitted before it, on opposite sides,
      at the maker's limit and within the taker's. */
  lemma {:induction false} FillsHonourLimits(capacity: nat, msgs: seq<Message>)
    ensures AllHonour(msgs, Run(EmptyBook(capacity), msgs).fills)
    decreases |msgs|
  {
    if msgs != [] {
      var init, last := msgs[..|msgs| - 1], msgs[|msgs| - 1];
      assert init + [last] == msgs;
      RunSnoc(EmptyBook(capacity), init, last);
      FillsHonourLimits(capacity, init);
      var before := Run(EmptyBook(capacity), init);
      NewFillsHonour(capacity, init, last);
      AllHonourMore(init, last, before.fills, Process(before.book, last).fills);
    }
  }

  lemma NewFillsHonour(capacity: nat, msgs: seq<Message>, msg: Message)
    ensures AllHonour(msgs + [msg], Process(Run(EmptyBook(capacity), msgs).book, msg).fills)
  {
    var b := Run(EmptyBook(capacity), msgs).book;
    RunKeepsWellFormed(EmptyBook(capacity), msgs);
    match msg
    case Cancel(_, _) =>
    case New(m) =>
      EveryBookInArrivalOrder(capacity, msgs, Opposite(m.side));
      forall i | 0 <= i < |ProcessNew(b, m).fills| ensures Honours(msgs + [msg], ProcessNew(b, m).fills[i]) {
        StepHonours(msgs, b, m, i);
      }
  }

  // ---- Price-time priority ----

  /** `x` has priority over `y`: a better price, or the same price and submitted before. */
  ghost predicate Precedes(msgs: seq<Message>, x: Resting, y: Resting) {
    || (if x.side.Bid? then x.price > y.price else x.price < y.price)
    || (x.price == y.price && Earlier(msgs, x, y))
  }

  /** With distinct ids nobody is both earlier and later. */
  lemma EarlierIsStrict(msgs: seq<Message>, x: Resting, y: Resting)
    requires DistinctSubmissions(msgs) && Earlier(msgs, x, y)
    ensures !Earlier(msgs, y, x)
  {
  }

  /** Whoever has priority stands in front. */
  lemma PriorityIsPlace(msgs: seq<Message>, s: seq<Resting>, side: Side, i: nat, j: nat)
    requires DistinctSubmissions(msgs) && SideOk(s, side) && InArrivalOrder(msgs, s)
    requires i < |s| && j < |s| && Precedes(msgs, s[i], s[j])
    ensures i < j
  {
    if Earlier(msgs, s[i], s[j]) {
      EarlierIsStrict(msgs, s[i], s[j]);
    }
  }

  /** Price-time priority in every reachable book: when a new order trades with `y`, everyone with priority
      over `y` trades first and is filled completely. */
  lemma PriceTimePriority(capacity: nat, msgs: seq<Message>, m: NewOrder, i: nat, j: nat)
    requires DistinctSubmissions(msgs)
    requires var b := Run(EmptyBook(capacity), msgs).book; var opp := b.Of(Opposite(m.side));
             i < |opp| && j < |opp| && j < |ProcessNew(b, m).fills| && Precedes(msgs, opp[i], opp[j])
    ensures var b := Run(EmptyBook(capacity), msgs).book;
            var opp, fills := b.Of(Opposite(m.side)), ProcessNew(b, m).fills;
            && i < j && fills[j].passiveId == opp[j].id
            && fills[i].passiveId == opp[i].id && fills[i].quantity == opp[i].Remaining()
  {
    var b := Run(EmptyBook(capacity), msgs).book;
    RunKeepsWellFormed(EmptyBook(capacity), msgs);
    EveryBookInArrivalOrder(capacity, msgs, Opposite(m.side));
    PriorityIsPlace(msgs, b.Of(Opposite(m.side)), Opposite(m.side), i, j);
    ProcessNewParts(b, m);
    MatchIsGreedy(b.Of(Opposite(m.side)), m, m.quantity, Swept(b, m));
  }
}
