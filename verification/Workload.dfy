/** The synthetic order flow: every random draw is a nondeterministic choice, and whatever is drawn the
    stream submits fresh ids at valid prices and cancels only orders it created. */
module Workload {
  import opened Types
  import opened BookSpec
  import opened BookTheory
  import opened EngineRuns

  predicate SubmitsLimit(msg: Message, id: OrderId) {
    msg.New? && msg.order.typ.Limit? && msg.order.id == id
  }

  /** `id` was submitted as a limit order and has not been cancelled. */
  predicate CancelCandidate(msgs: seq<Message>, id: OrderId) {
    && (exists j :: 0 <= j < |msgs| && SubmitsLimit(msgs[j], id))
    && (forall j :: 0 <= j < |msgs| && msgs[j].Cancel? ==> msgs[j].id != id)
  }

  /** What one more message promises about the stream before it. */
  predicate Extends(before: seq<Message>, msg: Message, minQuantity: Quantity, maxQuantity: Quantity) {
    match msg
    case New(m) =>
      && 1 <= m.price < MAX_PRICE_TICKS && minQuantity <= m.quantity <= maxQuantity
      && m.timestamp == |before| + 1
      && forall j :: 0 <= j < |before| && before[j].New? ==> before[j].order.id < m.id
    case Cancel(id, timestamp) =>
      CancelCandidate(before, id) && timestamp == |before| + 1
  }

  /** Increasing ids, valid prices and sizes, a logical clock, and cancels of live orders only. */
  predicate WellGenerated(msgs: seq<Message>, minQuantity: Quantity, maxQuantity: Quantity) {
    forall k :: 0 <= k < |msgs| ==> Extends(msgs[..k], msgs[k], minQuantity, maxQuantity)
  }

  lemma ExtendsSnoc(msgs: seq<Message>, msg: Message, minQuantity: Quantity, maxQuantity: Quantity)
    requires WellGenerated(msgs, minQuantity, maxQuantity) && Extends(msgs, msg, minQuantity, maxQuantity)
    ensures WellGenerated(msgs + [msg], minQuantity, maxQuantity)
  {
    forall k | 0 <= k < |msgs + [msg]|
      ensures Extends((msgs + [msg])[..k], (msgs + [msg])[k], minQuantity, maxQuantity)
    {
      assert (msgs + [msg])[..k] == msgs[..k];
      assert k == |msgs| ==> msgs[..k] == msgs;
    }
  }

  /** Who is a candidate after one more submission. */
  lemma CandidateAfterNew(msgs: seq<Message>, m: NewOrder, id: OrderId)
    requires Below(msgs, m.id)
    ensures CancelCandidate(msgs + [New(m)], id) <==> CancelCandidate(msgs, id) || (m.typ.Limit? && id == m.id)
  {
    var all := msgs + [New(m)];
    assert forall j :: 0 <= j < |msgs| ==> all[j] == msgs[j];
    if CancelCandidate(msgs, id) {
      var j :| 0 <= j < |msgs| && SubmitsLimit(msgs[j], id);
      assert SubmitsLimit(all[j], id);
    } else if m.typ.Limit? && id == m.id {
      assert SubmitsLimit(all[|msgs|], id);
      assert forall j :: 0 <= j < |msgs| ==> IdOf(msgs[j]) != id;
    }
  }

  /** Who is a candidate after one more cancel. */
  lemma CandidateAfterCancel(msgs: seq<Message>, gone: OrderId, timestamp: nat, id: OrderId)
    ensures CancelCandidate(msgs + [Cancel(gone, timestamp)], id) <==> CancelCandidate(msgs, id) && id != gone
  {
    var all := msgs + [Cancel(gone, timestamp)];
    assert forall j :: 0 <= j < |msgs| ==> all[j] == msgs[j];
    if CancelCandidate(msgs, id) {
      var j :| 0 <= j < |msgs| && SubmitsLimit(msgs[j], id);
      assert SubmitsLimit(all[j], id);
    }
    assert all[|msgs|] == Cancel(gone, timestamp);
  }

  function SwapPop(ids: seq<OrderId>, k: nat): seq<OrderId>
    requires k < |ids|
  {
    ids[k := ids[|ids| - 1]][..|ids| - 1]
  }

  /** Swap-and-pop removes exactly the chosen id. */
  lemma SwapPopRemoves(ids: seq<OrderId>, k: nat)
    requires k < |ids| && Distinct(ids)
    ensures Distinct(SwapPop(ids, k))
    ensures multiset(SwapPop(ids, k)) == multiset(ids) - multiset{ids[k]}
    ensures forall id :: id in SwapPop(ids, k) <==> id in ids && id != ids[k]
  {
    var n, r := |ids| - 1, SwapPop(ids, k);
    assert ids == ids[..n] + [ids[n]];
    if k < n {
      assert r == ids[..n][k := ids[n]];
    }
    forall id ensures id in r <==> id in ids && id != ids[k] {
      if id in ids && id != ids[k] {
        var i :| 0 <= i < |ids| && ids[i] == id;
        assert r[if i == n then k else i] == id;
      }
    }
  }

  function IdOf(msg: Message): OrderId {
    if msg.New? then msg.order.id else msg.id
  }

  /** Every id of the stream has been handed out. */
  predicate Below(msgs: seq<Message>, nextId: OrderId) {
    forall j :: 0 <= j < |msgs| ==> IdOf(msgs[j]) < nextId
  }

  /** The live ids are exactly the limit orders submitted and not cancelled, each once. */
  ghost predicate Candidates(msgs: seq<Message>, liveIds: seq<OrderId>) {
    Distinct(liveIds) && forall id: OrderId :: id in liveIds <==> CancelCandidate(msgs, id)
  }

  lemma CandidateBelow(msgs: seq<Message>, nextId: OrderId, id: OrderId)
    requires Below(msgs, nextId) && CancelCandidate(msgs, id)
    ensures id < nextId
  {
    var j :| 0 <= j < |msgs| && SubmitsLimit(msgs[j], id);
    assert IdOf(msgs[j]) == id;
  }

  lemma SomeCandidate(msgs: seq<Message>, liveIds: seq<OrderId>)
    requires Candidates(msgs, liveIds)
    ensures liveIds != [] <==> exists id: OrderId :: CancelCandidate(msgs, id)
  {
    if liveIds != [] {
      assert liveIds[0] in liveIds;
    }
  }

  lemma CandidatesAfterNew(msgs: seq<Message>, liveIds: seq<OrderId>, m: NewOrder)
    requires Below(msgs, m.id) && Candidates(msgs, liveIds)
    ensures Candidates(msgs + [New(m)], if m.typ.Limit? then liveIds + [m.id] else liveIds)
  {
    var liveIds' := if m.typ.Limit? then liveIds + [m.id] else liveIds;
    forall id: OrderId ensures id in liveIds' <==> CancelCandidate(msgs + [New(m)], id) {
      CandidateAfterNew(msgs, m, id);
    }
    forall i | 0 <= i < |liveIds| ensures liveIds[i] < m.id {
      assert liveIds[i] in liveIds;
      CandidateBelow(msgs, m.id, liveIds[i]);
    }
  }

  lemma CandidatesAfterCancel(msgs: seq<Message>, liveIds: seq<OrderId>, k: nat, timestamp: nat)
    requires Candidates(msgs, liveIds) && k < |liveIds|
    ensures Candidates(msgs + [Cancel(liveIds[k], timestamp)], SwapPop(liveIds, k))
  {
    SwapPopRemoves(liveIds, k);
    forall id: OrderId
      ensures id in SwapPop(liveIds, k) <==> CancelCandidate(msgs + [Cancel(liveIds[k], timestamp)], id)
    {
      CandidateAfterCancel(msgs, liveIds[k], timestamp, id);
    }
  }

  class WorkloadGenerator {
    const minQuantity: Quantity
    const maxQuantity: Quantity
    var liveIds: seq<OrderId>
    var nextId: OrderId
    var logicalClock: nat
    ghost var history: seq<Message>   // everything generated so far

    ghost predicate Valid()
      reads this
    {
      && minQuantity <= maxQuantity && logicalClock == |history|
      && WellGenerated(history, minQuantity, maxQuantity)
      && Below(history, nextId) && Candidates(history, liveIds)
    }

    constructor (minQuantity: Quantity, maxQuantity: Quantity)
      requires minQuantity <= maxQuantity
      ensures Valid() && history == [] && nextId == 1 && liveIds == []
      ensures this.minQuantity == minQuantity && this.maxQuantity == maxQuantity
    {
      this.minQuantity, this.maxQuantity := minQuantity, maxQuantity;
      liveIds, nextId, logicalClock, history := [], 1, 0, [];
    }

    /** The order made of what was drawn; `ticks` is the normal draw, converted. */
    method MakeNewOrder(side: Side, typ: OrderType, ticks: int, quantity: Quantity) returns (m: NewOrder)
      requires Valid() && minQuantity <= quantity <= maxQuantity
      modifies this
      ensures Valid() && history == old(history) + [New(m)]
      ensures m.id == old(nextId) && nextId == old(nextId) + 1
      ensures m.side == side && m.typ == typ && m.quantity == quantity && m.timestamp == |history|
      ensures 1 <= m.price < MAX_PRICE_TICKS && (1 <= ticks < MAX_PRICE_TICKS ==> m.price == ticks)
      ensures (ticks < 1 ==> m.price == 1) && (ticks >= MAX_PRICE_TICKS ==> m.price == MAX_PRICE_TICKS - 1)
      ensures liveIds == if typ.Limit? then old(liveIds) + [m.id] else old(liveIds)
    {
      var price := if ticks < 1 then 1 else if ticks > MAX_PRICE_TICKS - 1 then MAX_PRICE_TICKS - 1 else ticks;
      logicalClock := logicalClock + 1;
      m := NewOrder(nextId, side, typ, price, quantity, logicalClock);
      nextId := nextId + 1;
      ExtendsSnoc(history, New(m), minQuantity, maxQuantity);
      CandidatesAfterNew(history, liveIds, m);
      if typ.Limit? {
        liveIds := liveIds + [m.id];
      }
      history := history + [New(m)];
    }

    method MakeCancel() returns (id: OrderId, timestamp: nat)
      requires Valid() && liveIds != []
      modifies this
      ensures Valid() && history == old(history) + [Cancel(id, timestamp)]
      ensures id in old(liveIds) && nextId == old(nextId)
    {
      var k :| 0 <= k < |liveIds|;
      id := liveIds[k];
      logicalClock := logicalClock + 1;
      timestamp := logicalClock;
      ExtendsSnoc(history, Cancel(id, timestamp), minQuantity, maxQuantity);
      CandidateBelow(history, nextId, id);
      CandidatesAfterCancel(history, liveIds, k, timestamp);
      liveIds := SwapPop(liveIds, k);
      history := history + [Cancel(id, timestamp)];
    }

    /** The next message of the stream. */
    method Next(coin: bool) returns (msg: Message)
      requires Valid()
      modifies this
      ensures Valid() && history == old(history) + [msg]
      ensures msg.Cancel? <==> coin && exists id :: CancelCandidate(old(history), id)
      ensures msg.Cancel? ==> CancelCandidate(old(history), msg.id) && !CancelCandidate(history, msg.id)
    {
      SomeCandidate(history, liveIds);
      if |liveIds| > 0 && coin {
        ghost var before := history;
        var id, timestamp := MakeCancel();
        msg := Cancel(id, timestamp);
        CandidateAfterCancel(before, id, timestamp, id);
      } else {
        var side: Side := *;
        var typ: OrderType := *;
        var ticks: int := *;
        var quantity: Quantity :| minQuantity <= quantity <= maxQuantity;
        var m := MakeNewOrder(side, typ, ticks, quantity);
        msg := New(m);
      }
    }

    method Generate(n: nat) returns (out: seq<Message>)
      requires Valid()
      modifies this
      ensures Valid() && |out| == n && history == old(history) + out
    {
      out := [];
      for i := 0 to n
        invariant Valid() && |out| == i && history == old(history) + out
      {
        var coin: bool := *;
        var msg := Next(coin);
        out := out + [msg];
      }
    }
  }

  /** Generated ids are never submitted twice. */
  lemma GeneratedDistinct(msgs: seq<Message>, minQuantity: Quantity, maxQuantity: Quantity)
    requires WellGenerated(msgs, minQuantity, maxQuantity)
    ensures DistinctSubmissions(msgs)
  {
  }
}
