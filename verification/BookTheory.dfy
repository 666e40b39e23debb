/** What every message keeps true of the two sorted queues, and how the queues split into
    per-price levels. */
module BookTheory {
  import opened Types
  import opened BookSpec

  predicate DistinctIds(s: seq<Resting>) {
    forall i, j :: 0 <= i < j < |s| ==> s[i].id != s[j].id
  }

  // ---- Splitting a side into price levels ----

  /** The orders of `s` resting at `price`, oldest first. */
  function QueueAt(s: seq<Resting>, price: int): seq<Resting> {
    if s == [] then []
    else (if s[0].price == price then [s[0]] else []) + QueueAt(s[1..], price)
  }

  lemma {:induction false} QueueAtAppend(a: seq<Resting>, b: seq<Resting>, price: int)
    ensures QueueAt(a + b, price) == QueueAt(a, price) + QueueAt(b, price)
  {
    if a == [] {
      assert a + b == b;
    } else {
      var rest := a[1..];
      QueueAtAppend(rest, b, price);
      QueueAtCons(a[0], rest + b, price);
      QueueAtCons(a[0], rest, price);
      assert a + b == [a[0]] + (rest + b) && a == [a[0]] + rest;
    }
  }

  lemma QueueAtCons(e: Resting, s: seq<Resting>, price: int)
    ensures QueueAt([e] + s, price) == (if e.price == price then [e] else []) + QueueAt(s, price)
  {
  }

  lemma {:induction false} QueueAtNone(s: seq<Resting>, price: int)
    ensures QueueAt(s, price) == [] <==> forall i :: 0 <= i < |s| ==> s[i].price != price
  {
    if s != [] {
      QueueAtNone(s[1..], price);
      assert forall i :: 0 < i < |s| ==> s[i] == s[1..][i - 1];
    }
  }

  lemma {:induction false} QueueAtMembers(s: seq<Resting>, price: int, e: Resting)
    ensures e in QueueAt(s, price) <==> e in s && e.price == price
  {
    if s != [] {
      QueueAtMembers(s[1..], price, e);
    }
  }

  lemma QueueAtMiddle(before: seq<Resting>, e: Resting, after: seq<Resting>, price: int)
    ensures QueueAt(before + [e] + after, price) ==
            if e.price == price then QueueAt(before, price) + [e] + QueueAt(after, price)
            else QueueAt(before, price) + QueueAt(after, price)
  {
    QueueAtAppend(before + [e], after, price);
    QueueAtAppend(before, [e], price);
    QueueAtCons(e, [], price);
    assert [e] + [] == [e];
    assert QueueAt(before, price) + [] == QueueAt(before, price);
  }

  /** An order placed where nothing behind it shares its price is last of its level. */
  lemma QueueAtPlaced(s: seq<Resting>, k: nat, e: Resting, price: int)
    requires k <= |s| && QueueAt(s[k..], e.price) == []
    ensures QueueAt(s[..k] + [e] + s[k..], price) ==
            if price == e.price then QueueAt(s, price) + [e] else QueueAt(s, price)
  {
    QueueAtAppend(s[..k], s[k..], price);
    QueueAtMiddle(s[..k], e, s[k..], price);
    assert s[..k] + s[k..] == s;
    assert QueueAt(s[..k], price) + [] == QueueAt(s[..k], price);
    assert QueueAt(s[..k], price) + [e] + [] == QueueAt(s[..k], price) + [e];
  }

  /** A newcomer joins the back of its own level and no other. */
  lemma {:induction false} QueueAtInsert(s: seq<Resting>, e: Resting, price: int)
    requires SideOk(s, e.side)
    ensures QueueAt(Insert(s, e), price) ==
            if price == e.price then QueueAt(s, price) + [e] else QueueAt(s, price)
  {
    var k := Position(s, e.side, e.price);
    QueueAtNone(s[k..], e.price);
    QueueAtPlaced(s, k, e, price);
  }

  lemma {:induction false} QueueAtRemove(s: seq<Resting>, k: nat, price: int)
    requires k < |s|
    requires price != s[k].price
    ensures QueueAt(s[..k] + s[k + 1..], price) == QueueAt(s, price)
  {
    QueueAtAppend(s[..k], s[k + 1..], price);
    QueueAtAppend(s[..k], s[k..], price);
    assert s[..k] + s[k..] == s && s[k..][1..] == s[k + 1..];
  }

  /** An id that nobody in the level carries. */
  lemma QueueAtLacks(s: seq<Resting>, price: int, id: OrderId)
    requires forall e :: e in s && e.price == price ==> e.id != id
    ensures Remove(QueueAt(s, price), id) == QueueAt(s, price)
  {
    forall e | e in QueueAt(s, price) ensures e.id != id {
      QueueAtMembers(s, price, e);
    }
    RemoveAbsent(QueueAt(s, price), id);
  }

  lemma RemoveMiddle(before: seq<Resting>, e: Resting, after: seq<Resting>)
    requires forall x :: x in before ==> x.id != e.id
    ensures Remove(before + [e] + after, e.id) == before + after
  {
    IndexOfAt(before + [e] + after, e.id, |before|);
  }

  lemma QueueAtWithout(before: seq<Resting>, e: Resting, after: seq<Resting>)
    requires forall x :: x in before ==> x.id != e.id
    ensures QueueAt(before + after, e.price) == Remove(QueueAt(before + [e] + after, e.price), e.id)
  {
    QueueAtAppend(before, after, e.price);
    QueueAtMiddle(before, e, after, e.price);
    forall x | x in QueueAt(before, e.price) ensures x.id != e.id {
      QueueAtMembers(before, e.price, x);
    }
    RemoveMiddle(QueueAt(before, e.price), e, QueueAt(after, e.price));
  }

  lemma {:induction false} QueueAtDrop(s: seq<Resting>, k: nat)
    requires k < |s| && forall i :: 0 <= i < k ==> s[i].id != s[k].id
    ensures QueueAt(s[..k] + s[k + 1..], s[k].price) == Remove(QueueAt(s, s[k].price), s[k].id)
  {
    assert s == s[..k] + [s[k]] + s[k + 1..];
    QueueAtWithout(s[..k], s[k], s[k + 1..]);
  }

  /** Removing an id from a side removes it from its level's queue, in place. */
  lemma {:induction false} QueueAtRemoveId(s: seq<Resting>, side: Side, id: OrderId, price: int)
    requires SideOk(s, side)
    ensures QueueAt(Remove(s, id), price) == Remove(QueueAt(s, price), id)
  {
    var k := IndexOf(s, id);
    if k < |s| && s[k].price == price {
      QueueAtDrop(s, k);
    } else {
      if k < |s| {
        QueueAtRemove(s, k, price);
      }
      QueueAtLacks(s, price, id);
    }
  }

  /** All that rests at one price. In an uncrossed book this is one side's queue. */
  function LevelAt(bids: seq<Resting>, asks: seq<Resting>, price: int): seq<Resting> {
    QueueAt(bids, price) + QueueAt(asks, price)
  }

  lemma OneSidePerLevel(bids: seq<Resting>, asks: seq<Resting>, price: int)
    requires Apart(bids, asks)
    ensures QueueAt(bids, price) == [] || QueueAt(asks, price) == []
  {
    QueueAtNone(bids, price);
    QueueAtNone(asks, price);
  }

  lemma LevelJoined(bids: seq<Resting>, asks: seq<Resting>, e: Resting, price: int)
    requires price == e.price ==> (if e.side.Bid? then asks else bids) == []
    ensures var more := if price == e.price then [e] else [];
            (if e.side.Bid? then (bids + more) + asks else bids + (asks + more)) == (bids + asks) + more
    ensures bids + [] == bids && asks + [] == asks
  {
  }

  lemma {:induction false} LevelAfterInsert(b: Book, e: Resting, price: int)
    requires Structured(b.bids, b.asks) && NonCrossing(b, e)
    ensures var b' := Joined(b, e);
            LevelAt(b'.bids, b'.asks, price) ==
            LevelAt(b.bids, b.asks, price) + (if price == e.price then [e] else [])
  {
    QueueAtInsert(b.Of(e.side), e, price);
    if price == e.price {
      QueueAtNone(b.Of(Opposite(e.side)), price);
    }
    LevelJoined(QueueAt(b.bids, price), QueueAt(b.asks, price), e, price);
  }

  lemma RemoveFromOne(a: seq<Resting>, b: seq<Resting>, id: OrderId)
    requires a == [] || b == []
    ensures Remove(a + b, id) == Remove(a, id) + Remove(b, id)
  {
    assert a + b == if a == [] then b else a;
  }

  lemma {:induction false} LevelAfterRemove(bids: seq<Resting>, asks: seq<Resting>, id: OrderId, price: int)
    requires Structured(bids, asks)
    ensures LevelAt(Remove(bids, id), Remove(asks, id), price) == Remove(LevelAt(bids, asks, price), id)
  {
    QueueAtRemoveId(bids, Bid, id, price);
    QueueAtRemoveId(asks, Ask, id, price);
    OneSidePerLevel(bids, asks, price);
    RemoveFromOne(QueueAt(bids, price), QueueAt(asks, price), id);
  }

  lemma RemoveAbsent(s: seq<Resting>, id: OrderId)
    requires forall e :: e in s ==> e.id != id
    ensures Remove(s, id) == s
  {
  }

  lemma IndexOfAt(s: seq<Resting>, id: OrderId, k: nat)
    requires k < |s| && s[k].id == id
    requires forall i :: 0 <= i < k ==> s[i].id != id
    ensures IndexOf(s, id) == k
  {
  }

  ghost predicate SameLevels(s: seq<Resting>, t: seq<Resting>) {
    forall p :: QueueAt(s, p) == QueueAt(t, p)
  }

  /** A price held by one of two queues with the same levels is held by the other. */
  lemma SharedPrice(s: seq<Resting>, t: seq<Resting>, k: nat)
    requires SameLevels(s, t) && k < |s|
    ensures exists i :: 0 <= i < |t| && t[i].price == s[k].price
  {
    QueueAtNone(s, s[k].price);
    QueueAtNone(t, s[k].price);
  }

  lemma {:induction false} SameHeads(s: seq<Resting>, t: seq<Resting>, side: Side)
    requires SideOk(s, side) && SideOk(t, side) && SameLevels(s, t) && s != [] && t != []
    ensures s[0] == t[0]
  {
    SharedPrice(s, t, 0);
    SharedPrice(t, s, 0);
    assert QueueAt(s, s[0].price)[0] == s[0] && QueueAt(t, t[0].price)[0] == t[0];
  }

  lemma SameTails(s: seq<Resting>, t: seq<Resting>)
    requires SameLevels(s, t) && s != [] && t != [] && s[0] == t[0]
    ensures SameLevels(s[1..], t[1..])
  {
    forall p ensures QueueAt(s[1..], p) == QueueAt(t[1..], p) {
      var n := if s[0].price == p then 1 else 0;
      assert QueueAt(s[1..], p) == QueueAt(s, p)[n..];
      assert QueueAt(t[1..], p) == QueueAt(t, p)[n..];
    }
  }

  /** The levels determine the side: two sorted queues with the same levels are the same queue. */
  lemma {:induction false} LevelsDetermineSide(s: seq<Resting>, t: seq<Resting>, side: Side)
    requires SideOk(s, side) && SideOk(t, side) && SameLevels(s, t)
    ensures s == t
  {
    if s == [] {
      if t != [] {
        SharedPrice(t, s, 0);
      }
    } else {
      SharedPrice(s, t, 0);
      SameHeads(s, t, side);
      SameTails(s, t);
      LevelsDetermineSide(s[1..], t[1..], side);
      assert s == [s[0]] + s[1..] && t == [t[0]] + t[1..];
    }
  }

  // ---- Well-formedness is kept ----

  lemma {:induction false} InsertAt(s: seq<Resting>, e: Resting, i: nat)
    requires i <= |s|
    ensures var k := Position(s, e.side, e.price);
            Insert(s, e)[i] == if i < k then s[i] else if i == k then e else s[i - 1]
  {
  }

  lemma {:induction false} InsertKeepsSide(s: seq<Resting>, e: Resting)
    requires SideOk(s, e.side) && e.typ.Limit? && InRange(e.price) && !HasId(s, e.id)
    ensures SideOk(Insert(s, e), e.side)
  {
    var k := Position(s, e.side, e.price);
    var t := Insert(s, e);
    forall i, j | 0 <= i < j < |t|
      ensures Rank(e.side, t[i].price) <= Rank(e.side, t[j].price) && t[i].id != t[j].id
    {
      InsertAt(s, e, i);
      InsertAt(s, e, j);
      assert k < |s| ==> Rank(e.side, s[k].price) > Rank(e.side, e.price);
    }
    forall i | 0 <= i < |t| ensures t[i] == e || t[i] in s {
      InsertAt(s, e, i);
    }
  }

  lemma InsertMembers(s: seq<Resting>, e: Resting, x: Resting)
    ensures x in Insert(s, e) <==> x == e || x in s
  {
  }

  lemma RemoveMembers(s: seq<Resting>, id: OrderId, x: Resting)
    requires forall i, j :: 0 <= i < j < |s| ==> s[i].id != s[j].id
    ensures x in Remove(s, id) <==> x in s && x.id != id
  {
  }

  lemma DroppedKeepsSide(s: seq<Resting>, side: Side, k: nat)
    requires SideOk(s, side) && k < |s|
    ensures SideOk(s[..k] + s[k + 1..], side)
    ensures Open(s) ==> Open(s[..k] + s[k + 1..])
  {
  }

  lemma {:induction false} RemoveKeepsSide(s: seq<Resting>, side: Side, id: OrderId)
    requires SideOk(s, side)
    ensures SideOk(Remove(s, id), side)
    ensures Open(s) ==> Open(Remove(s, id))
    ensures |Remove(s, id)| == if HasId(s, id) then |s| - 1 else |s|
  {
    var k := IndexOf(s, id);
    if k < |s| {
      DroppedKeepsSide(s, side, k);
    }
  }

  /** `left` is a tail of `opp`, up to how much of each order is filled. */
  predicate TailOf(left: seq<Resting>, opp: seq<Resting>) {
    && |left| <= |opp|
    && forall i :: 0 <= i < |left| ==> left[i] == opp[i + (|opp| - |left|)].(filled := left[i].filled)
  }

  lemma {:induction false} TailOfRest(left: seq<Resting>, opp: seq<Resting>)
    requires opp != [] && TailOf(left, opp[1..])
    ensures TailOf(left, opp)
  {
  }

  lemma {:induction false} TailOfReduced(opp: seq<Resting>, qty: nat)
    requires opp != [] && Open(opp) && qty < opp[0].Remaining()
    ensures TailOf([Reduce(opp[0], qty)] + opp[1..], opp) && Open([Reduce(opp[0], qty)] + opp[1..])
  {
  }

  /** A sweep only shortens its side from the front and leaves every survivor open. */
  lemma {:induction false} MatchLeavesTail(opp: seq<Resting>, m: NewOrder, quantity: nat)
    requires Open(opp)
    ensures TailOf(Match(opp, m, quantity).left, opp)
    ensures Open(Match(opp, m, quantity).left)
    decreases |opp|
  {
    if quantity > 0 && opp != [] && Crosses(m, opp[0].price) {
      if quantity >= opp[0].Remaining() {
        MatchLeavesTail(opp[1..], m, quantity - opp[0].Remaining());
        TailOfRest(Match(opp[1..], m, quantity - opp[0].Remaining()).left, opp);
      } else {
        TailOfReduced(opp, quantity);
      }
    }
  }

  lemma {:induction false} TailKeepsSide(left: seq<Resting>, opp: seq<Resting>, side: Side)
    requires SideOk(opp, side) && TailOf(left, opp)
    ensures SideOk(left, side)
  {
  }

  /** Every order is priced beyond the limit of `m`; a market order has none. */
  predicate AllBeyond(s: seq<Resting>, m: NewOrder) {
    forall i :: 0 <= i < |s| ==> m.typ.Limit? && if m.side.Bid? then s[i].price > m.price else s[i].price < m.price
  }

  /** An unsatisfied market order leaves nobody, and an unsatisfied limit order only prices beyond its own. */
  lemma {:induction false} MatchExhausts(opp: seq<Resting>, m: NewOrder, quantity: nat)
    requires SideOk(opp, Opposite(m.side))
    ensures var s := Match(opp, m, quantity); s.remaining > 0 ==> AllBeyond(s.left, m)
    decreases |opp|
  {
    if quantity > 0 && opp != [] && Crosses(m, opp[0].price) && quantity >= opp[0].Remaining() {
      var rest := Match(opp[1..], m, quantity - opp[0].Remaining());
      MatchExhausts(opp[1..], m, quantity - opp[0].Remaining());
      assert Match(opp, m, quantity).left == rest.left && Match(opp, m, quantity).remaining == rest.remaining;
    } else if quantity > 0 && opp != [] && !Crosses(m, opp[0].price) {
      BeyondLimit(opp, m);
      assert Match(opp, m, quantity).left == opp;
    }
  }

  /** When the best price is beyond a limit, all are. */
  lemma BeyondLimit(opp: seq<Resting>, m: NewOrder)
    requires SideOk(opp, Opposite(m.side)) && opp != [] && !Crosses(m, opp[0].price)
    ensures AllBeyond(opp, m)
  {
    forall i | 0 <= i < |opp|
      ensures if m.side.Bid? then opp[i].price > m.price else opp[i].price < m.price
    {
      assert Rank(Opposite(m.side), opp[0].price) <= Rank(Opposite(m.side), opp[i].price);
    }
  }

  /** What is left of one side stays apart from the other. */
  lemma {:induction false} TailKeepsWellFormed(b: Book, side: Side, left: seq<Resting>)
    requires WellFormed(b) && TailOf(left, b.Of(side)) && Open(left)
    ensures WellFormed(b.With(side, left))
  {
    TailKeepsSide(left, b.Of(side), side);
    var n := |b.Of(side)| - |left|;
    assert forall i :: 0 <= i < |left| ==>
      left[i].price == b.Of(side)[i + n].price && left[i].id == b.Of(side)[i + n].id;
  }

  lemma {:induction false} SweepKeepsWellFormed(b: Book, m: NewOrder)
    requires WellFormed(b)
    ensures WellFormed(AfterSweep(b, m))
  {
    var opp := Opposite(m.side);
    MatchLeavesTail(b.Of(opp), m, m.quantity);
    TailKeepsWellFormed(b, opp, Swept(b, m).left);
  }

  /** Matching runs before resting, so what is left of a limit order crosses nothing. */
  lemma RemainderNonCrossing(b: Book, m: NewOrder)
    requires SideOk(b.Of(Opposite(m.side)), Opposite(m.side)) && m.typ.Limit?
    ensures Swept(b, m).remaining <= m.quantity
    ensures Swept(b, m).remaining > 0 ==> NonCrossing(AfterSweep(b, m), Remainder(m, Swept(b, m).remaining))
  {
    MatchRemaining(b.Of(Opposite(m.side)), m, m.quantity);
    MatchExhausts(b.Of(Opposite(m.side)), m, m.quantity);
  }

  /** A new order is a sweep, then a rest if the remainder may rest. */
  lemma ProcessNewParts(b: Book, m: NewOrder)
    requires !Rejected(m)
    ensures Swept(b, m).remaining <= m.quantity
    ensures var s, swept := Swept(b, m), AfterSweep(b, m);
            var rests := m.typ.Limit? && s.remaining > 0 && swept.HasRoom() && !swept.Knows(m.id);
            ProcessNew(b, m) == Outcome(if rests then Joined(swept, Remainder(m, s.remaining)) else swept, s.fills)
  {
    MatchRemaining(b.Of(Opposite(m.side)), m, m.quantity);
  }

  lemma ProcessNewKeepsWellFormed(b: Book, m: NewOrder)
    requires WellFormed(b)
    ensures WellFormed(ProcessNew(b, m).book)
    ensures ProcessNew(b, m).book.capacity == b.capacity
  {
    if !Rejected(m) {
      SweepKeepsWellFormed(b, m);
      MatchRemaining(b.Of(Opposite(m.side)), m, m.quantity);
      if Rests(b, m) {
        var e := Remainder(m, Swept(b, m).remaining);
        RemainderNonCrossing(b, m);
        RestKeepsWellFormed(AfterSweep(b, m), e);
      }
    }
  }

  /** `e` would trade against nobody on the other side. */
  predicate NonCrossing(b: Book, e: Resting) {
    forall x :: x in b.Of(Opposite(e.side)) ==>
      if e.side.Bid? then e.price < x.price else x.price < e.price
  }

  lemma {:induction false} RestKeepsWellFormed(b: Book, e: Resting)
    requires WellFormed(b) && b.HasRoom() && !b.Knows(e.id) && NonCrossing(b, e)
    requires e.typ.Limit? && InRange(e.price) && e.filled < e.quantity < WORD
    ensures WellFormed(Joined(b, e))
  {
    var s, t := b.Of(e.side), Insert(b.Of(e.side), e);
    InsertKeepsSide(s, e);
    forall i | 0 <= i < |t| ensures t[i] == e || t[i] in s {
      InsertMembers(s, e, t[i]);
    }
    InsertKeepsApart(b, e);
  }

  lemma InsertKeepsApart(b: Book, e: Resting)
    requires Structured(b.bids, b.asks) && !b.Knows(e.id) && NonCrossing(b, e)
    ensures var b' := Joined(b, e); Apart(b'.bids, b'.asks)
  {
    var b' := Joined(b, e);
    forall i, j | 0 <= i < |b'.bids| && 0 <= j < |b'.asks|
      ensures b'.bids[i].price < b'.asks[j].price && b'.bids[i].id != b'.asks[j].id
    {
      InsertMembers(b.Of(e.side), e, if e.side.Bid? then b'.bids[i] else b'.asks[j]);
      assert b'.bids[i] == e || b'.bids[i] in b.bids;
      assert b'.asks[j] == e || b'.asks[j] in b.asks;
    }
  }

  lemma ProcessCancelKeepsWellFormed(b: Book, id: OrderId)
    requires WellFormed(b)
    ensures WellFormed(ProcessCancel(b, id))
  {
    RemoveKeepsSide(b.bids, Bid, id);
    RemoveKeepsSide(b.asks, Ask, id);
    var b' := ProcessCancel(b, id);
    forall i, j | 0 <= i < |b'.bids| && 0 <= j < |b'.asks|
      ensures b'.bids[i].price < b'.asks[j].price && b'.bids[i].id != b'.asks[j].id
    {
      RemoveMembers(b.bids, id, b'.bids[i]);
      RemoveMembers(b.asks, id, b'.asks[j]);
    }
  }

  /** Every message keeps the book sorted, uncrossed, with distinct ids, open orders and within capacity. */
  lemma ProcessKeepsWellFormed(b: Book, msg: Message)
    requires WellFormed(b)
    ensures WellFormed(Process(b, msg).book)
    ensures Process(b, msg).book.capacity == b.capacity
  {
    match msg
    case New(m) => ProcessNewKeepsWellFormed(b, m);
    case Cancel(id, _) => ProcessCancelKeepsWellFormed(b, id);
  }

  // ---- A sweep in progress ----

  /** After the fills `done`, sweeping `opp` for `remaining` finishes the sweep of `opp0` for `quantity`. */
  predicate Resumes(opp0: seq<Resting>, m: NewOrder, quantity: nat, done: seq<Fill>, opp: seq<Resting>,
                    remaining: nat) {
    var rest := Match(opp, m, remaining);
    Match(opp0, m, quantity) == Sweep(done + rest.fills, rest.left, rest.remaining)
  }

  /** What one fill leaves of the maker's queue. */
  function AfterFill(opp: seq<Resting>, qty: nat): seq<Resting>
    requires opp != []
  {
    if qty < opp[0].Remaining() then [Reduce(opp[0], qty)] + opp[1..] else opp[1..]
  }

  lemma ResumesAfterFill(opp0: seq<Resting>, m: NewOrder, quantity: nat, done: seq<Fill>, opp: seq<Resting>,
                         remaining: nat)
    requires Resumes(opp0, m, quantity, done, opp, remaining)
    requires opp != [] && remaining > 0 && Crosses(m, opp[0].price)
    ensures var qty := Min(remaining, opp[0].Remaining());
            Resumes(opp0, m, quantity, done + [FillOf(m, opp[0], qty)], AfterFill(opp, qty), remaining - qty)
  {
  }

  lemma SweepStarts(opp: seq<Resting>, m: NewOrder, quantity: nat)
    ensures Resumes(opp, m, quantity, [], opp, quantity)
  {
    assert [] + Match(opp, m, quantity).fills == Match(opp, m, quantity).fills;
  }

  lemma SweepEnds(opp0: seq<Resting>, m: NewOrder, quantity: nat, done: seq<Fill>, opp: seq<Resting>, remaining: nat)
    requires Resumes(opp0, m, quantity, done, opp, remaining)
    requires remaining == 0 || opp == [] || !Crosses(m, opp[0].price)
    ensures Match(opp0, m, quantity) == Sweep(done, opp, remaining)
  {
  }

  lemma OpenAfterFill(opp: seq<Resting>, qty: nat)
    requires Open(opp) && opp != [] && qty <= opp[0].Remaining()
    ensures Open(AfterFill(opp, qty))
  {
  }

  predicate NoBetter(s: seq<Resting>, side: Side, price: int) {
    forall i :: 0 <= i < |s| ==> Rank(side, s[i].price) >= Rank(side, price)
  }

  /** One fill against the best order makes progress and leaves the rest of the sweep to do. */
  lemma FillAdvances(opp0: seq<Resting>, m: NewOrder, quantity: nat, done: seq<Fill>, opp: seq<Resting>,
                     remaining: nat, price: int)
    requires Resumes(opp0, m, quantity, done, opp, remaining) && Open(opp)
    requires opp != [] && remaining > 0 && Crosses(m, opp[0].price) && NoBetter(opp, Opposite(m.side), price)
    ensures var qty := Min(remaining, opp[0].Remaining());
            && 0 < qty <= remaining && NoBetter(AfterFill(opp, qty), Opposite(m.side), price)
            && Resumes(opp0, m, quantity, done + [FillOf(m, opp[0], qty)], AfterFill(opp, qty), remaining - qty)
  {
  }

  lemma NoBetterAfterFill(s: seq<Resting>, side: Side, price: int, qty: nat)
    requires s != [] && NoBetter(s, side, price)
    ensures NoBetter(AfterFill(s, qty), side, price)
  {
  }
}
