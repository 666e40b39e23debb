/** The simple meaning of the order book: two price-sorted FIFO queues, and what
    one message does to them. Everything faster is proved against this module. */
module BookSpec {
  import opened Types

  /** A resting order as the book's users see it. */
  datatype Resting = Resting(id: OrderId, side: Side, typ: OrderType, price: int,
                             quantity: nat, filled: nat, timestamp: nat)
  {
    function Remaining(): nat {
      if filled < quantity then quantity - filled else 0
    }
  }

  /** Each side is one queue, best price first and oldest first within a price.
      `capacity` is the number of pool slots: no more orders than that can rest. */
  datatype Book = Book(bids: seq<Resting>, asks: seq<Resting>, capacity: nat)
  {
    function Of(side: Side): seq<Resting> {
      if side.Bid? then bids else asks
    }

    function With(side: Side, queue: seq<Resting>): Book {
      if side.Bid? then this.(bids := queue) else this.(asks := queue)
    }

    predicate HasRoom() {
      |bids| + |asks| < capacity
    }

    predicate Knows(id: OrderId) {
      HasId(bids, id) || HasId(asks, id)
    }
  }

  /** Smaller rank is better: asks ascend in price, bids descend. */
  function Rank(side: Side, price: int): int {
    if side.Ask? then price else -price
  }

  predicate HasId(s: seq<Resting>, id: OrderId) {
    exists i :: 0 <= i < |s| && s[i].id == id
  }

  // ---- Well-formed books ----

  predicate SideOk(s: seq<Resting>, side: Side) {
    && (forall i :: 0 <= i < |s| ==> s[i].side == side && s[i].typ.Limit? && InRange(s[i].price))
    && (forall i, j :: 0 <= i < j < |s| ==> Rank(side, s[i].price) <= Rank(side, s[j].price))
    && (forall i, j :: 0 <= i < j < |s| ==> s[i].id != s[j].id)
  }

  /** Quantity left in every order, which is what makes a sweep terminate. */
  predicate Open(s: seq<Resting>) {
    forall i :: 0 <= i < |s| ==> s[i].filled < s[i].quantity < WORD
  }

  predicate Apart(bids: seq<Resting>, asks: seq<Resting>) {
    forall i, j :: 0 <= i < |bids| && 0 <= j < |asks| ==>
      bids[i].price < asks[j].price && bids[i].id != asks[j].id
  }

  /** Sorted, uncrossed, with distinct ids: what holds even between the two halves of a fill. */
  predicate Structured(bids: seq<Resting>, asks: seq<Resting>) {
    SideOk(bids, Bid) && SideOk(asks, Ask) && Apart(bids, asks)
  }

  predicate WellFormed(b: Book) {
    && Structured(b.bids, b.asks)
    && Open(b.bids) && Open(b.asks)
    && |b.bids| + |b.asks| <= b.capacity
  }

  // ---- Queue operations ----

  /** How many orders keep priority over a newcomer at `price`: all at least as good. */
  function Position(s: seq<Resting>, side: Side, price: int): (k: nat)
    ensures k <= |s|
    ensures forall i :: 0 <= i < k ==> Rank(side, s[i].price) <= Rank(side, price)
    ensures k < |s| ==> Rank(side, s[k].price) > Rank(side, price)
  {
    if s == [] || Rank(side, s[0].price) > Rank(side, price) then 0
    else 1 + Position(s[1..], side, price)
  }

  function Insert(s: seq<Resting>, e: Resting): seq<Resting> {
    var k := Position(s, e.side, e.price);
    s[..k] + [e] + s[k..]
  }

  /** The book after `e` queues up behind its own price. */
  function Joined(b: Book, e: Resting): Book {
    b.With(e.side, Insert(b.Of(e.side), e))
  }

  function IndexOf(s: seq<Resting>, id: OrderId): (k: nat)
    ensures k <= |s|
    ensures k < |s| ==> s[k].id == id
    ensures forall i :: 0 <= i < k ==> s[i].id != id
  {
    if s == [] || s[0].id == id then 0 else 1 + IndexOf(s[1..], id)
  }

  function Remove(s: seq<Resting>, id: OrderId): seq<Resting> {
    var k := IndexOf(s, id);
    if k < |s| then s[..k] + s[k + 1..] else s
  }

  // ---- Matching ----

  predicate Crosses(m: NewOrder, price: int) {
    m.typ.Market? || (if m.side.Bid? then price <= m.price else price >= m.price)
  }

  datatype Sweep = Sweep(fills: seq<Fill>, left: seq<Resting>, remaining: nat)

  function FillOf(m: NewOrder, maker: Resting, quantity: nat): Fill {
    Fill(m.id, maker.id, maker.price, quantity, m.timestamp, m.side)
  }

  function Reduce(e: Resting, quantity: nat): Resting {
    e.(filled := e.filled + quantity)
  }

  /** Takes liquidity from the front of the opposite queue, one maker at a time. */
  function Match(opp: seq<Resting>, m: NewOrder, remaining: nat): Sweep
    decreases |opp|
  {
    if remaining == 0 || opp == [] || !Crosses(m, opp[0].price) then
      Sweep([], opp, remaining)
    else
      var qty := Min(remaining, opp[0].Remaining());
      var fill := FillOf(m, opp[0], qty);
      if qty < opp[0].Remaining() then
        Sweep([fill], [Reduce(opp[0], qty)] + opp[1..], remaining - qty)
      else
        var rest := Match(opp[1..], m, remaining - qty);
        Sweep([fill] + rest.fills, rest.left, rest.remaining)
  }

  // ---- One message ----

  datatype Outcome = Outcome(book: Book, fills: seq<Fill>)

  predicate Rejected(m: NewOrder) {
    m.quantity == 0 || (m.typ.Limit? && !InRange(m.price))
  }

  function Swept(b: Book, m: NewOrder): Sweep {
    Match(b.Of(Opposite(m.side)), m, m.quantity)
  }

  function AfterSweep(b: Book, m: NewOrder): Book {
    b.With(Opposite(m.side), Swept(b, m).left)
  }

  /** The remainder rests only if it is a limit order, a slot is free, and the id is unused. */
  predicate Rests(b: Book, m: NewOrder) {
    && !Rejected(m)
    && Swept(b, m).remaining > 0
    && m.typ.Limit?
    && AfterSweep(b, m).HasRoom()
    && !AfterSweep(b, m).Knows(m.id)
  }

  function Remainder(m: NewOrder, remaining: nat): Resting
    requires remaining <= m.quantity
  {
    Resting(m.id, m.side, m.typ, m.price, m.quantity, m.quantity - remaining, m.timestamp)
  }

  function ProcessNew(b: Book, m: NewOrder): Outcome {
    if Rejected(m) then
      Outcome(b, [])
    else
      var s := Swept(b, m);
      var swept := AfterSweep(b, m);
      MatchRemaining(b.Of(Opposite(m.side)), m, m.quantity);
      if Rests(b, m) then
        Outcome(Joined(swept, Remainder(m, s.remaining)), s.fills)
      else
        Outcome(swept, s.fills)
  }

  function ProcessCancel(b: Book, id: OrderId): Book {
    b.(bids := Remove(b.bids, id), asks := Remove(b.asks, id))
  }

  function Process(b: Book, msg: Message): Outcome {
    match msg
    case New(m) => ProcessNew(b, m)
    case Cancel(id, _) => Outcome(ProcessCancel(b, id), [])
  }

  function EmptyBook(capacity: nat): Book {
    Book([], [], capacity)
  }

  lemma MatchRemaining(opp: seq<Resting>, m: NewOrder, remaining: nat)
    ensures Match(opp, m, remaining).remaining <= remaining
    decreases |opp|
  {
  }

  // ---- A sweep is exactly the greedy prefix ----

  function Volume(fills: seq<Fill>): nat {
    if fills == [] then 0 else fills[0].quantity + Volume(fills[1..])
  }

  /** A fill between a taker and a maker: at the maker's price, which is no worse than the taker's limit,
      for some of what the maker has left. */
  predicate Trades(m: NewOrder, maker: Resting, fill: Fill) {
    && (m.typ.Limit? ==> if m.side.Bid? then maker.price <= m.price else maker.price >= m.price)
    && fill == Fill(m.id, maker.id, maker.price, fill.quantity, m.timestamp, m.side)
    && 0 < fill.quantity <= maker.Remaining()
  }

  /** The declarative meaning of a sweep, without following any loop: the fills name the makers
      from the front of the queue at their own prices, none beyond a limit, all but the last consume
      their maker, every unit is accounted for, and the sweep stops only when it must: a market order
      never with somebody left, a limit order only at a price beyond its own. */
  predicate IsGreedy(opp: seq<Resting>, m: NewOrder, quantity: nat, s: Sweep) {
    var n := |s.fills|;
    && n <= |opp|
    && (forall i :: 0 <= i < n ==> Trades(m, opp[i], s.fills[i]))
    && (forall i :: 0 <= i < n - 1 ==> s.fills[i].quantity == opp[i].Remaining())
    && Volume(s.fills) + s.remaining == quantity
    && (if n > 0 && s.fills[n - 1].quantity < opp[n - 1].Remaining() then
          s.remaining == 0 && s.left == [opp[n - 1].(filled := opp[n - 1].filled + s.fills[n - 1].quantity)] + opp[n..]
        else
          s.left == opp[n..])
    && (s.remaining > 0 && n < |opp| ==>
          m.typ.Limit? && if m.side.Bid? then opp[n].price > m.price else opp[n].price < m.price)
  }

  /** The recursive sweep meets the declarative meaning, and nothing else does. */
  lemma MatchIsGreedy(opp: seq<Resting>, m: NewOrder, quantity: nat, s: Sweep)
    requires Open(opp)
    ensures IsGreedy(opp, m, quantity, s) <==> s == Match(opp, m, quantity)
  {
    MatchMeetsGreedy(opp, m, quantity);
    if IsGreedy(opp, m, quantity, s) {
      GreedyIsUnique(opp, m, quantity, s);
    }
  }

  lemma {:induction false} MatchMeetsGreedy(opp: seq<Resting>, m: NewOrder, quantity: nat)
    requires Open(opp)
    ensures IsGreedy(opp, m, quantity, Match(opp, m, quantity))
    decreases |opp|
  {
    if quantity == 0 || opp == [] || !Crosses(m, opp[0].price) {
      GreedyNone(opp, m, quantity, Sweep([], opp, quantity));
    } else if quantity >= opp[0].Remaining() {
      var qty := opp[0].Remaining();
      var rest := Match(opp[1..], m, quantity - qty);
      assert Match(opp, m, quantity) == Sweep([FillOf(m, opp[0], qty)] + rest.fills, rest.left, rest.remaining);
      MatchMeetsGreedy(opp[1..], m, quantity - qty);
      GreedyCons(opp, m, quantity, rest);
    } else {
      GreedyPartial(opp, m, quantity);
    }
  }

  /** Nothing to take, or nobody to take it from: the only greedy sweep is the idle one. */
  lemma GreedyNone(opp: seq<Resting>, m: NewOrder, quantity: nat, s: Sweep)
    requires quantity == 0 || opp == [] || !Crosses(m, opp[0].price)
    ensures IsGreedy(opp, m, quantity, s) <==> s == Sweep([], opp, quantity)
  {
  }

  lemma GreedyPartial(opp: seq<Resting>, m: NewOrder, quantity: nat)
    requires opp != [] && Crosses(m, opp[0].price) && 0 < quantity < opp[0].Remaining()
    ensures IsGreedy(opp, m, quantity,
                     Sweep([FillOf(m, opp[0], quantity)], [Reduce(opp[0], quantity)] + opp[1..], 0))
  {
  }

  lemma {:induction false} GreedyIsUnique(opp: seq<Resting>, m: NewOrder, quantity: nat, s: Sweep)
    requires Open(opp) && IsGreedy(opp, m, quantity, s)
    ensures s == Match(opp, m, quantity)
    decreases |opp|
  {
    if quantity == 0 || opp == [] || !Crosses(m, opp[0].price) {
      GreedyNone(opp, m, quantity, s);
    } else {
      GreedyHead(opp, m, quantity, s);
      if quantity >= opp[0].Remaining() {
        GreedyTail(opp, m, quantity, s);
        GreedyIsUnique(opp[1..], m, quantity - opp[0].Remaining(), Sweep(s.fills[1..], s.left, s.remaining));
        MatchFull(opp, m, quantity, s);
      } else {
        GreedyShort(opp, m, quantity, s);
      }
    }
  }

  /** A greedy sweep that must trade opens with as much of the first maker as it can take. */
  lemma GreedyHead(opp: seq<Resting>, m: NewOrder, quantity: nat, s: Sweep)
    requires Open(opp) && IsGreedy(opp, m, quantity, s)
    requires quantity > 0 && opp != [] && Crosses(m, opp[0].price)
    ensures s.fills != [] && s.fills[0] == FillOf(m, opp[0], Min(quantity, opp[0].Remaining()))
    ensures quantity < opp[0].Remaining() ==> |s.fills| == 1
  {
    assert s.fills != [];
    assert Volume(s.fills) == s.fills[0].quantity + Volume(s.fills[1..]);
    if |s.fills| > 1 {
      assert Volume(s.fills[1..]) >= s.fills[1].quantity;
    }
  }

  lemma MatchFull(opp: seq<Resting>, m: NewOrder, quantity: nat, s: Sweep)
    requires quantity > 0 && opp != [] && Crosses(m, opp[0].price) && quantity >= opp[0].Remaining()
    requires s.fills != [] && s.fills[0] == FillOf(m, opp[0], opp[0].Remaining())
    requires Sweep(s.fills[1..], s.left, s.remaining) == Match(opp[1..], m, quantity - opp[0].Remaining())
    ensures s == Match(opp, m, quantity)
  {
  }

  /** A taker smaller than the first maker leaves the rest of that maker in front. */
  lemma GreedyShort(opp: seq<Resting>, m: NewOrder, quantity: nat, s: Sweep)
    requires IsGreedy(opp, m, quantity, s) && |s.fills| == 1 && opp != []
    requires s.fills[0] == FillOf(m, opp[0], quantity) && quantity < opp[0].Remaining()
    ensures s == Sweep([FillOf(m, opp[0], quantity)], [Reduce(opp[0], quantity)] + opp[1..], 0)
  {
  }

  lemma GreedyTail(opp: seq<Resting>, m: NewOrder, quantity: nat, s: Sweep)
    requires IsGreedy(opp, m, quantity, s) && s.fills != []
    requires s.fills[0].quantity == opp[0].Remaining() <= quantity
    ensures IsGreedy(opp[1..], m, quantity - opp[0].Remaining(), Sweep(s.fills[1..], s.left, s.remaining))
  {
    assert opp[1..][|s.fills| - 1..] == opp[|s.fills|..];
  }

  lemma GreedyCons(opp: seq<Resting>, m: NewOrder, quantity: nat, rest: Sweep)
    requires opp != [] && Crosses(m, opp[0].price)
    requires 0 < opp[0].Remaining() <= quantity
    requires IsGreedy(opp[1..], m, quantity - opp[0].Remaining(), rest)
    ensures IsGreedy(opp, m, quantity,
                     Sweep([FillOf(m, opp[0], opp[0].Remaining())] + rest.fills, rest.left, rest.remaining))
  {
    var fill := FillOf(m, opp[0], opp[0].Remaining());
    var fills := [fill] + rest.fills;
    assert fills[1..] == rest.fills;
    assert opp[1..][|rest.fills|..] == opp[|fills|..];
    forall i | 0 <= i < |fills|
      ensures Trades(m, opp[i], fills[i])
      ensures i < |fills| - 1 ==> fills[i].quantity == opp[i].Remaining()
    {
      if i > 0 {
        assert fills[i] == rest.fills[i - 1] && opp[i] == opp[1..][i - 1];
      }
    }
  }
}
