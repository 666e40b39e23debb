/** Whole runs of the engine on any message stream: what every reachable book keeps, where every unit
    of quantity goes, and what each order is owed. */
module EngineRuns {
  import opened Types
  import opened BookSpec
  import opened BookTheory
  import opened PriceLevels

  /** One more message. */
  function Then(r: Outcome, msg: Message): Outcome {
    var step := Process(r.book, msg);
    Outcome(step.book, r.fills + step.fills)
  }

  /** The book and all fills after a message stream. */
  function Run(b: Book, msgs: seq<Message>): Outcome
    decreases |msgs|
  {
    if msgs == [] then Outcome(b, []) else Then(Run(b, msgs[..|msgs| - 1]), msgs[|msgs| - 1])
  }

  lemma RunSnoc(b: Book, msgs: seq<Message>, msg: Message)
    ensures Run(b, msgs + [msg]) == Then(Run(b, msgs), msg)
  {
  }

  function Prefixed(fills: seq<Fill>, r: Outcome): Outcome {
    Outcome(r.book, fills + r.fills)
  }

  lemma ThenPrefixed(fills: seq<Fill>, r: Outcome, msg: Message)
    ensures Then(Prefixed(fills, r), msg) == Prefixed(fills, Then(r, msg))
  {
  }

  lemma {:induction false} RunAppend(b: Book, first: seq<Message>, second: seq<Message>)
    ensures var r := Run(b, first); Run(b, first + second) == Prefixed(r.fills, Run(r.book, second))
    decreases |second|
  {
    var r := Run(b, first);
    if second == [] {
      assert first + second == first;
      assert r.fills + [] == r.fills;
    } else {
      var init, last := second[..|second| - 1], second[|second| - 1];
      assert first + second == (first + init) + [last] && second == init + [last];
      RunAppend(b, first, init);
      RunSnoc(b, first + init, last);
      RunSnoc(r.book, init, last);
      ThenPrefixed(r.fills, Run(r.book, init), last);
    }
  }

  /** Every reachable book is sorted, uncrossed, free of duplicate ids and within its pool. */
  lemma {:induction false} RunKeepsWellFormed(b: Book, msgs: seq<Message>)
    requires WellFormed(b)
    ensures WellFormed(Run(b, msgs).book) && Run(b, msgs).book.capacity == b.capacity
    decreases |msgs|
  {
    if msgs != [] {
      RunKeepsWellFormed(b, msgs[..|msgs| - 1]);
      ProcessKeepsWellFormed(Run(b, msgs[..|msgs| - 1]).book, msgs[|msgs| - 1]);
    }
  }

  // ---- Conservation of quantity ----

  /** Where submitted quantity has gone: traded, cancelled, or discarded for one of four reasons. */
  datatype Ledger = Ledger(submitted: nat, filled: nat, cancelled: nat,
                           rejected: nat, marketRemainder: nat, poolExhausted: nat, duplicateId: nat)

  function EntryIn(s: seq<Resting>, id: OrderId): Option<Resting> {
    var k := IndexOf(s, id);
    if k < |s| then Some(s[k]) else None
  }

  function EntryOf(b: Book, id: OrderId): Option<Resting> {
    if EntryIn(b.bids, id).Some? then EntryIn(b.bids, id) else EntryIn(b.asks, id)
  }

  /** The ledger after one message. */
  function Entered(b: Book, msg: Message, l: Ledger): Ledger {
    match msg
    case Cancel(id, _) =>
      var e := EntryOf(b, id);
      if e.Some? then l.(cancelled := l.cancelled + e.value.Remaining()) else l
    case New(m) =>
      var l1 := l.(submitted := l.submitted + m.quantity);
      if Rejected(m) then
        l1.(rejected := l1.rejected + m.quantity)
      else
        var s, swept := Swept(b, m), AfterSweep(b, m);
        var l2 := l1.(filled := l1.filled + Volume(s.fills));
        if s.remaining == 0 then l2
        else if m.typ.Market? then l2.(marketRemainder := l2.marketRemainder + s.remaining)
        else if !swept.HasRoom() then l2.(poolExhausted := l2.poolExhausted + s.remaining)
        else if swept.Knows(m.id) then l2.(duplicateId := l2.duplicateId + s.remaining)
        else l2
  }

  /** The ledger of a whole run. */
  function Books(b: Book, msgs: seq<Message>): Ledger
    decreases |msgs|
  {
    if msgs == [] then Ledger(0, 0, 0, 0, 0, 0, 0)
    else Entered(Run(b, msgs[..|msgs| - 1]).book, msgs[|msgs| - 1], Books(b, msgs[..|msgs| - 1]))
  }

  function RestingVolume(b: Book): nat {
    Outstanding(b.bids) + Outstanding(b.asks)
  }

  function Spent(l: Ledger): int {
    2 * l.filled + l.cancelled + l.rejected + l.marketRemainder + l.poolExhausted + l.duplicateId
  }

  lemma {:induction false} MatchConserves(opp: seq<Resting>, m: NewOrder, quantity: nat)
    ensures var s := Match(opp, m, quantity);
            && quantity == Volume(s.fills) + s.remaining
            && (Open(opp) ==> Outstanding(opp) == Volume(s.fills) + Outstanding(s.left))
    decreases |opp|
  {
    if quantity > 0 && opp != [] && Crosses(m, opp[0].price) {
      var qty := Min(quantity, opp[0].Remaining());
      if qty < opp[0].Remaining() {
        assert ([Reduce(opp[0], qty)] + opp[1..])[1..] == opp[1..];
        assert Volume([FillOf(m, opp[0], qty)]) == qty;
      } else {
        MatchConserves(opp[1..], m, quantity - qty);
        var rest := Match(opp[1..], m, quantity - qty);
        assert ([FillOf(m, opp[0], qty)] + rest.fills)[1..] == rest.fills;
      }
    }
  }

  lemma InsertOutstanding(s: seq<Resting>, e: Resting)
    ensures Outstanding(Insert(s, e)) == Outstanding(s) + e.Remaining()
  {
    var k := Position(s, e.side, e.price);
    OutstandingAppend(s[..k] + [e], s[k..]);
    OutstandingAppend(s[..k], [e]);
    OutstandingAppend(s[..k], s[k..]);
    assert s == s[..k] + s[k..];
  }

  lemma RemoveOutstanding(s: seq<Resting>, id: OrderId)
    ensures Outstanding(s) == Outstanding(Remove(s, id))
                            + (var e := EntryIn(s, id); if e.Some? then e.value.Remaining() else 0)
  {
    var k := IndexOf(s, id);
    if k < |s| {
      OutstandingAppend(s[..k], s[k + 1..]);
      OutstandingAppend(s[..k], s[k..]);
      assert s == s[..k] + s[k..] && s[k..][1..] == s[k + 1..];
    }
  }

  lemma CancelConserves(b: Book, id: OrderId)
    requires Structured(b.bids, b.asks)
    ensures RestingVolume(b) == RestingVolume(ProcessCancel(b, id))
                              + (var e := EntryOf(b, id); if e.Some? then e.value.Remaining() else 0)
  {
    RemoveOutstanding(b.bids, id);
    RemoveOutstanding(b.asks, id);
  }

  lemma SweepConserves(b: Book, m: NewOrder)
    requires WellFormed(b)
    ensures var s := Swept(b, m);
            && m.quantity == Volume(s.fills) + s.remaining
            && RestingVolume(b) == Volume(s.fills) + RestingVolume(AfterSweep(b, m))
  {
    MatchConserves(b.Of(Opposite(m.side)), m, m.quantity);
  }

  lemma JoinConserves(b: Book, e: Resting)
    ensures RestingVolume(Joined(b, e)) == RestingVolume(b) + e.Remaining()
  {
    InsertOutstanding(b.Of(e.side), e);
  }

  /** One message moves quantity between columns and loses none. */
  lemma {:induction false} StepConserves(b: Book, msg: Message, l: Ledger)
    requires WellFormed(b)
    requires l.submitted == Spent(l) + RestingVolume(b)
    ensures var l' := Entered(b, msg, l); l'.submitted == Spent(l') + RestingVolume(Process(b, msg).book)
  {
    match msg
    case Cancel(id, _) =>
      CancelConserves(b, id);
    case New(m) =>
      if !Rejected(m) {
        NewConserves(b, m, l);
      }
  }

  lemma NewConserves(b: Book, m: NewOrder, l: Ledger)
    requires WellFormed(b) && !Rejected(m) && l.submitted == Spent(l) + RestingVolume(b)
    ensures var l' := Entered(b, New(m), l); l'.submitted == Spent(l') + RestingVolume(ProcessNew(b, m).book)
  {
    SweepConserves(b, m);
    ProcessNewParts(b, m);
    var l', swept, left := Entered(b, New(m), l), AfterSweep(b, m), Swept(b, m).remaining;
    if Rests(b, m) {
      JoinConserves(swept, Remainder(m, left));
      assert Spent(l') == Spent(l) + 2 * Volume(Swept(b, m).fills);
    } else {
      assert Spent(l') == Spent(l) + 2 * Volume(Swept(b, m).fills) + left;
    }
  }

  /** Over every run from an empty engine, everything submitted is traded (once as taker and once as
      maker), still resting, cancelled, or discarded for a stated reason. */
  lemma {:induction false} QuantityConserved(capacity: nat, msgs: seq<Message>)
    ensures var b, l := Run(EmptyBook(capacity), msgs).book, Books(EmptyBook(capacity), msgs);
            l.submitted == 2 * l.filled + RestingVolume(b) + l.cancelled
                         + (l.rejected + l.marketRemainder + l.poolExhausted + l.duplicateId)
    decreases |msgs|
  {
    if msgs != [] {
      var before := msgs[..|msgs| - 1];
      QuantityConserved(capacity, before);
      RunKeepsWellFormed(EmptyBook(capacity), before);
      StepConserves(Run(EmptyBook(capacity), before).book, msgs[|msgs| - 1], Books(EmptyBook(capacity), before));
    }
  }

  /** Total quantity of the new orders in a stream. */
  function Submitted(msgs: seq<Message>): nat
    decreases |msgs|
  {
    if msgs == [] then 0
    else Submitted(msgs[..|msgs| - 1]) + (if msgs[|msgs| - 1].New? then msgs[|msgs| - 1].order.quantity else 0)
  }

  lemma {:induction false} VolumeAppend(a: seq<Fill>, b: seq<Fill>)
    ensures Volume(a + b) == Volume(a) + Volume(b)
  {
    if a == [] {
      assert a + b == b;
    } else {
      assert (a + b)[1..] == a[1..] + b;
      VolumeAppend(a[1..], b);
    }
  }

  lemma EnteredTotals(b: Book, msg: Message, l: Ledger)
    ensures Entered(b, msg, l).submitted == l.submitted + (if msg.New? then msg.order.quantity else 0)
    ensures Entered(b, msg, l).filled == l.filled + Volume(Process(b, msg).fills)
  {
  }

  /** The ledger's totals are the stream's submitted quantity and the volume of the emitted fills. */
  lemma {:induction false} LedgerIsTrue(b: Book, msgs: seq<Message>)
    ensures Books(b, msgs).submitted == Submitted(msgs) && Books(b, msgs).filled == Volume(Run(b, msgs).fills)
    decreases |msgs|
  {
    if msgs != [] {
      var init, last := msgs[..|msgs| - 1], msgs[|msgs| - 1];
      LedgerIsTrue(b, init);
      EnteredTotals(Run(b, init).book, last, Books(b, init));
      VolumeAppend(Run(b, init).fills, Process(Run(b, init).book, last).fills);
    }
  }

  // ---- What each order is owed ----

  /** Quantity traded by `id`, as taker or as maker. */
  function TradedBy(fills: seq<Fill>, id: OrderId): nat {
    if fills == [] then 0
    else
      (if fills[0].aggressiveId == id then fills[0].quantity else 0)
      + (if fills[0].passiveId == id then fills[0].quantity else 0)
      + TradedBy(fills[1..], id)
  }

  lemma {:induction false} TradedByAppend(a: seq<Fill>, b: seq<Fill>, id: OrderId)
    ensures TradedBy(a + b, id) == TradedBy(a, id) + TradedBy(b, id)
  {
    if a == [] {
      assert a + b == b;
    } else {
      assert (a + b)[1..] == a[1..] + b;
      TradedByAppend(a[1..], b, id);
    }
  }

  /** How a side's entry for `id` went from `before` to `after` while trading `traded` as maker. */
  predicate MakerStep(before: Option<Resting>, after: Option<Resting>, traded: nat) {
    match (before, after)
    case (None, None) => traded == 0
    case (Some(e), Some(e')) => e' == Reduce(e, traded)
    case (Some(e), None) => traded == e.Remaining()
    case (None, Some(_)) => false
  }

  lemma {:induction false} MatchTrades(opp: seq<Resting>, m: NewOrder, quantity: nat, id: OrderId)
    requires DistinctIds(opp) && Open(opp) && id != m.id
    ensures var s := Match(opp, m, quantity);
            MakerStep(EntryIn(opp, id), EntryIn(s.left, id), TradedBy(s.fills, id))
    decreases |opp|
  {
    if quantity > 0 && opp != [] && Crosses(m, opp[0].price) {
      var qty := Min(quantity, opp[0].Remaining());
      var fill := FillOf(m, opp[0], qty);
      if qty < opp[0].Remaining() {
        EntryTail(opp, id);
        EntryTail([Reduce(opp[0], qty)] + opp[1..], id);
        assert ([Reduce(opp[0], qty)] + opp[1..])[1..] == opp[1..];
        assert [fill][1..] == [];
      } else {
        var rest := Match(opp[1..], m, quantity - qty);
        MatchTrades(opp[1..], m, quantity - qty, id);
        EntryTail(opp, id);
        assert ([fill] + rest.fills)[1..] == rest.fills;
        if opp[0].id == id {
          EntryAbsent(opp[1..], id);
        }
      }
    } else {
      EntryAbsentOrSame(opp, id);
    }
  }

  lemma EntryTail(s: seq<Resting>, id: OrderId)
    requires s != []
    ensures EntryIn(s, id) == if s[0].id == id then Some(s[0]) else EntryIn(s[1..], id)
  {
  }

  lemma EntryAbsent(s: seq<Resting>, id: OrderId)
    ensures EntryIn(s, id).None? <==> forall i :: 0 <= i < |s| ==> s[i].id != id
  {
  }

  lemma EntryAbsentOrSame(s: seq<Resting>, id: OrderId)
    ensures MakerStep(EntryIn(s, id), EntryIn(s, id), 0)
  {
  }

  lemma {:induction false} MatchTakes(opp: seq<Resting>, m: NewOrder, quantity: nat)
    requires !HasId(opp, m.id)
    ensures var s := Match(opp, m, quantity);
            TradedBy(s.fills, m.id) == quantity - s.remaining && !HasId(s.left, m.id)
    decreases |opp|
  {
    if quantity > 0 && opp != [] && Crosses(m, opp[0].price) {
      var qty := Min(quantity, opp[0].Remaining());
      var fill := FillOf(m, opp[0], qty);
      assert opp[0].id != m.id;
      if qty < opp[0].Remaining() {
        assert TradedBy([fill], m.id) == qty;
        var left := [Reduce(opp[0], qty)] + opp[1..];
        assert forall i :: 0 <= i < |left| ==> left[i].id == opp[i].id;
      } else {
        var rest := Match(opp[1..], m, quantity - qty);
        assert forall i :: 0 <= i < |opp[1..]| ==> opp[1..][i] == opp[i + 1];
        MatchTakes(opp[1..], m, quantity - qty);
        assert ([fill] + rest.fills)[1..] == rest.fills;
      }
    }
  }

  // ---- From one sweep to one message to whole runs ----

  lemma EntryAfterInsert(s: seq<Resting>, e: Resting, id: OrderId)
    requires !HasId(s, e.id)
    ensures EntryIn(Insert(s, e), id) == if id == e.id then Some(e) else EntryIn(s, id)
  {
    var k, t := Position(s, e.side, e.price), Insert(s, e);
    if id == e.id {
      IndexOfAt(t, id, k);
    } else {
      var j := IndexOf(s, id);
      if j < |s| {
        IndexOfAt(t, id, if j < k then j else j + 1);
      } else {
        EntryAbsent(t, id);
      }
    }
  }

  lemma EntryAfterRemove(s: seq<Resting>, gone: OrderId, id: OrderId)
    requires DistinctIds(s)
    ensures EntryIn(Remove(s, gone), id) == if id == gone then None else EntryIn(s, id)
  {
    var k, t := IndexOf(s, gone), Remove(s, gone);
    var j := IndexOf(s, id);
    if k < |s| {
      if id != gone && j < |s| {
        IndexOfAt(t, id, if j < k then j else j - 1);
      } else {
        EntryAbsent(t, id);
      }
    }
  }

  /** A message from anyone else changes `id` only as a maker. */
  lemma {:induction false} OthersTrade(b: Book, m: NewOrder, id: OrderId)
    requires WellFormed(b) && id != m.id
    ensures var o := ProcessNew(b, m); MakerStep(EntryOf(b, id), EntryOf(o.book, id), TradedBy(o.fills, id))
  {
    if Rejected(m) {
      EntryAbsentOrSame(b.bids, id);
      EntryAbsentOrSame(b.asks, id);
    } else {
      ProcessNewParts(b, m);
      SweepTrades(b, m, id);
      if Rests(b, m) {
        EntryAfterJoin(AfterSweep(b, m), Remainder(m, Swept(b, m).remaining), id);
      }
    }
  }

  lemma SweepTrades(b: Book, m: NewOrder, id: OrderId)
    requires WellFormed(b) && id != m.id
    ensures MakerStep(EntryOf(b, id), EntryOf(AfterSweep(b, m), id), TradedBy(Swept(b, m).fills, id))
  {
    MatchTrades(b.Of(Opposite(m.side)), m, m.quantity, id);
    EntryAbsentOrSame(b.bids, id);
    EntryAbsentOrSame(b.asks, id);
    EntryAbsent(b.bids, id);
    EntryAbsent(b.asks, id);
  }

  lemma EntryAfterJoin(b: Book, e: Resting, id: OrderId)
    requires !b.Knows(e.id) && id != e.id
    ensures EntryOf(Joined(b, e), id) == EntryOf(b, id)
  {
    EntryAfterInsert(b.Of(e.side), e, id);
  }

  /** A newcomer trades at most its quantity, and rests with exactly that much filled. */
  lemma NewcomerTrades(b: Book, m: NewOrder)
    requires WellFormed(b) && !b.Knows(m.id)
    ensures var o := ProcessNew(b, m); var e := EntryOf(o.book, m.id);
            && TradedBy(o.fills, m.id) <= m.quantity
            && (e.Some? ==> e.value.quantity == m.quantity && e.value.filled == TradedBy(o.fills, m.id))
  {
    EntryAbsent(b.bids, m.id);
    EntryAbsent(b.asks, m.id);
    if !Rejected(m) {
      var opp := Opposite(m.side);
      MatchTakes(b.Of(opp), m, m.quantity);
      MatchRemaining(b.Of(opp), m, m.quantity);
      EntryAbsent(Swept(b, m).left, m.id);
      if Rests(b, m) {
        EntryAfterInsert(b.Of(m.side), Remainder(m, Swept(b, m).remaining), m.id);
      }
    }
  }

  /** The quantity `id` was submitted with, if it was. */
  function SubmittedAs(msgs: seq<Message>, id: OrderId): Option<nat>
    decreases |msgs|
  {
    if msgs == [] then None
    else
      var last := msgs[|msgs| - 1];
      if last.New? && last.order.id == id then Some(last.order.quantity)
      else SubmittedAs(msgs[..|msgs| - 1], id)
  }

  /** No id is submitted twice. */
  predicate DistinctSubmissions(msgs: seq<Message>) {
    forall i, j :: 0 <= i < j < |msgs| && msgs[i].New? && msgs[j].New? ==> msgs[i].order.id != msgs[j].order.id
  }

  lemma {:induction false} NotSubmitted(msgs: seq<Message>, id: OrderId)
    requires forall i :: 0 <= i < |msgs| && msgs[i].New? ==> msgs[i].order.id != id
    ensures SubmittedAs(msgs, id).None?
    decreases |msgs|
  {
    if msgs != [] {
      NotSubmitted(msgs[..|msgs| - 1], id);
    }
  }

  /** `id` has traded no more than it was submitted with, and its resting entry says exactly how much. */
  predicate Settled(submitted: Option<nat>, o: Outcome, id: OrderId) {
    var e, traded := EntryOf(o.book, id), TradedBy(o.fills, id);
    match submitted
    case None => e.None? && traded == 0
    case Some(quantity) =>
      traded <= quantity && (e.Some? ==> e.value.quantity == quantity && e.value.filled == traded)
  }

  /** Over every run with distinct ids, the fills naming an order never exceed its quantity and equal
      its filled quantity while it rests. */
  lemma {:induction false} OrdersSettle(capacity: nat, msgs: seq<Message>, id: OrderId)
    requires DistinctSubmissions(msgs)
    ensures Settled(SubmittedAs(msgs, id), Run(EmptyBook(capacity), msgs), id)
    decreases |msgs|
  {
    if msgs != [] {
      var init, last := msgs[..|msgs| - 1], msgs[|msgs| - 1];
      var before := Run(EmptyBook(capacity), init);
      OrdersSettle(capacity, init, id);
      RunKeepsWellFormed(EmptyBook(capacity), init);
      TradedByAppend(before.fills, Process(before.book, last).fills, id);
      if last.New? && last.order.id == id {
        NotSubmitted(init, id);
      }
      StepSettles(SubmittedAs(init, id), before, last, id);
    }
  }

  lemma StepSettles(submitted: Option<nat>, before: Outcome, msg: Message, id: OrderId)
    requires WellFormed(before.book) && Settled(submitted, before, id)
    requires msg.New? && msg.order.id == id ==> submitted.None?
    requires TradedBy(before.fills + Process(before.book, msg).fills, id)
          == TradedBy(before.fills, id) + TradedBy(Process(before.book, msg).fills, id)
    ensures var step := Process(before.book, msg);
            Settled(if msg.New? && msg.order.id == id then Some(msg.order.quantity) else submitted,
                    Outcome(step.book, before.fills + step.fills), id)
  {
    var b := before.book;
    match msg
    case New(m) =>
      if m.id == id {
        EntryAbsent(b.bids, id);
        EntryAbsent(b.asks, id);
        NewcomerTrades(b, m);
      } else {
        OthersTrade(b, m, id);
        ProcessNewKeepsWellFormed(b, m);
        EntryOpen(b, id);
        EntryOpen(ProcessNew(b, m).book, id);
      }
    case Cancel(gone, _) =>
      EntryAfterRemove(b.bids, gone, id);
      EntryAfterRemove(b.asks, gone, id);
  }

  lemma EntryOpen(b: Book, id: OrderId)
    requires Open(b.bids) && Open(b.asks)
    ensures var e := EntryOf(b, id); e.Some? ==> e.value.filled < e.value.quantity
  {
  }

  /** Once an order is neither resting nor submitted again, it never trades again. */
  lemma {:induction false} GoneStaysGone(b: Book, msgs: seq<Message>, id: OrderId)
    requires WellFormed(b) && !b.Knows(id)
    requires forall i :: 0 <= i < |msgs| && msgs[i].New? ==> msgs[i].order.id != id
    ensures TradedBy(Run(b, msgs).fills, id) == 0 && !Run(b, msgs).book.Knows(id)
    decreases |msgs|
  {
    if msgs == [] {
    } else {
      var init, last := msgs[..|msgs| - 1], msgs[|msgs| - 1];
      var before := Run(b, init);
      GoneStaysGone(b, init, id);
      RunKeepsWellFormed(b, init);
      TradedByAppend(before.fills, Process(before.book, last).fills, id);
      EntryAbsent(before.book.bids, id);
      EntryAbsent(before.book.asks, id);
      var b' := Process(before.book, last).book;
      match last {
        case New(m) =>
          OthersTrade(before.book, m, id);
        case Cancel(gone, _) =>
          EntryAfterRemove(before.book.bids, gone, id);
          EntryAfterRemove(before.book.asks, gone, id);
      }
      EntryAbsent(b'.bids, id);
      EntryAbsent(b'.asks, id);
    }
  }

  /** Fills naming an order stop for good once it is filled or cancelled. */
  lemma FillsStop(capacity: nat, first: seq<Message>, second: seq<Message>, id: OrderId)
    requires DistinctSubmissions(first + second)
    requires SubmittedAs(first, id).Some? && !Run(EmptyBook(capacity), first).book.Knows(id)
    ensures var r1, r := Run(EmptyBook(capacity), first), Run(EmptyBook(capacity), first + second);
            TradedBy(r.fills, id) == TradedBy(r1.fills, id) && !r.book.Knows(id)
  {
    var r1 := Run(EmptyBook(capacity), first);
    var k := SubmittedAt(first, id);
    forall i | 0 <= i < |second| && second[i].New? ensures second[i].order.id != id {
      assert (first + second)[k] == first[k] && (first + second)[|first| + i] == second[i];
    }
    RunKeepsWellFormed(EmptyBook(capacity), first);
    GoneStaysGone(r1.book, second, id);
    RunAppend(EmptyBook(capacity), first, second);
    TradedByAppend(r1.fills, Run(r1.book, second).fills, id);
  }

  lemma {:induction false} SubmittedAt(msgs: seq<Message>, id: OrderId) returns (k: nat)
    requires SubmittedAs(msgs, id).Some?
    ensures k < |msgs| && msgs[k].New? && msgs[k].order.id == id
    decreases |msgs|
  {
    var last := msgs[|msgs| - 1];
    if last.New? && last.order.id == id {
      k := |msgs| - 1;
    } else {
      k := SubmittedAt(msgs[..|msgs| - 1], id);
    }
  }
}
