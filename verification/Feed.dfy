/** What the feed handler's cancel/new stream means: replayed into a plain table of ids it is exactly the
    depth the frames describe. */
module Feed {
  import opened Types

  datatype LevelKey = LevelKey(price: int, side: Side)

  /** Which order currently stands for each level. */
  type Live = map<LevelKey, OrderId>

  /** Aggregate quantity per level. */
  type Depth = map<LevelKey, Quantity>

  /** A plain table of ids, as anyone replaying the messages would keep it. */
  datatype Listing = Listing(key: LevelKey, quantity: Quantity)
  type Table = map<OrderId, Listing>

  // ---- Decoded input ----

  /** One row after text decoding. `Unreadable`: not an array of strings, too short, or a field before the
      size that does not parse. `ticks` may be out of range; `size` is absent if its text does not parse. */
  datatype Row = Unreadable | Priced(side: Side, ticks: int, size: Option<Quantity>)

  datatype Frame =
    | Malformed                                            // not JSON, no type, or an update without changes
    | L2Update(changes: seq<Row>)
    | Snapshot(bids: Option<seq<Row>>, asks: Option<seq<Row>>)
    | Trade(sequence: Option<nat>)
    | Other

  predicate Tradable(ticks: int) {
    0 < ticks < MAX_PRICE_TICKS
  }

  // ---- Depth, without any ids ----

  function SetLevel(depth: Depth, key: LevelKey, qty: Quantity): Depth {
    if qty == 0 then depth - {key} else depth[key := qty]
  }

  /** Whether a row reaches the book at all. */
  predicate Applies(row: Row, skipZero: bool) {
    row.Priced? && Tradable(row.ticks) && row.size.Some? && !(skipZero && row.size.value == 0)
  }

  function DepthRow(depth: Depth, row: Row, skipZero: bool): Depth {
    if Applies(row, skipZero) then SetLevel(depth, LevelKey(row.ticks, row.side), row.size.value) else depth
  }

  function DepthRows(depth: Depth, rows: seq<Row>, skipZero: bool): Depth
    decreases |rows|
  {
    if rows == [] then depth
    else DepthRow(DepthRows(depth, rows[..|rows| - 1], skipZero), rows[|rows| - 1], skipZero)
  }

  function RowsOf(rows: Option<seq<Row>>): seq<Row> {
    if rows.Some? then rows.value else []
  }

  /** The side of a snapshot array is given by its name, not by the row. */
  function OnSide(rows: seq<Row>, side: Side): (r: seq<Row>)
    ensures |r| == |rows|
  {
    seq(|rows|, i requires 0 <= i < |rows| => if rows[i].Priced? then rows[i].(side := side) else rows[i])
  }

  /** The depth table after one frame: updates apply, a snapshot starts over. */
  function DepthFrame(depth: Depth, frame: Frame): Depth {
    match frame
    case L2Update(changes) => DepthRows(depth, changes, false)
    case Snapshot(bids, asks) =>
      DepthRows(DepthRows(map[], OnSide(RowsOf(bids), Bid), true), OnSide(RowsOf(asks), Ask), true)
    case _ => depth
  }

  function DepthAfter(frames: seq<Frame>): Depth
    decreases |frames|
  {
    if frames == [] then map[] else DepthFrame(DepthAfter(frames[..|frames| - 1]), frames[|frames| - 1])
  }

  lemma DepthSnoc(frames: seq<Frame>, i: nat)
    requires i < |frames|
    ensures DepthAfter(frames[..i + 1]) == DepthFrame(DepthAfter(frames[..i]), frames[i])
  {
    assert frames[..i + 1][..i] == frames[..i];
  }

  // ---- Which ids are assigned ----

  datatype Ids = Ids(live: Live, nextId: OrderId)

  function IdsLevel(s: Ids, key: LevelKey, qty: Quantity): Ids {
    if qty == 0 then s.(live := s.live - {key}) else Ids(s.live[key := s.nextId], s.nextId + 1)
  }

  function IdsRows(s: Ids, rows: seq<Row>, skipZero: bool): Ids
    decreases |rows|
  {
    if rows == [] then s
    else
      var before, row := IdsRows(s, rows[..|rows| - 1], skipZero), rows[|rows| - 1];
      if Applies(row, skipZero) then IdsLevel(before, LevelKey(row.ticks, row.side), row.size.value) else before
  }

  /** The live ids after one frame depend on the frame alone, whatever order a reset cancels in. */
  function IdsFrame(s: Ids, frame: Frame): Ids {
    match frame
    case L2Update(changes) => IdsRows(s, changes, false)
    case Snapshot(bids, asks) =>
      IdsRows(IdsRows(Ids(map[], s.nextId), OnSide(RowsOf(bids), Bid), true), OnSide(RowsOf(asks), Ask), true)
    case _ => s
  }

  // ---- Rows that never reach the book ----

  predicate IsSkipped(row: Row) {
    row.Priced? && !Tradable(row.ticks)
  }

  predicate IsMalformed(row: Row) {
    row.Unreadable? || (Tradable(row.ticks) && row.size.None?)
  }

  function CountSkipped(rows: seq<Row>): nat
    decreases |rows|
  {
    if rows == [] then 0 else CountSkipped(rows[..|rows| - 1]) + (if IsSkipped(rows[|rows| - 1]) then 1 else 0)
  }

  function CountMalformed(rows: seq<Row>): nat
    decreases |rows|
  {
    if rows == [] then 0 else CountMalformed(rows[..|rows| - 1]) + (if IsMalformed(rows[|rows| - 1]) then 1 else 0)
  }

  function FrameSkipped(frame: Frame): nat {
    match frame
    case L2Update(changes) => CountSkipped(changes)
    case Snapshot(bids, asks) => CountSkipped(OnSide(RowsOf(bids), Bid)) + CountSkipped(OnSide(RowsOf(asks), Ask))
    case _ => 0
  }

  function FrameMalformed(frame: Frame): nat {
    match frame
    case Malformed => 1
    case L2Update(changes) => CountMalformed(changes)
    case Snapshot(bids, asks) => CountMalformed(OnSide(RowsOf(bids), Bid)) + CountMalformed(OnSide(RowsOf(asks), Ask))
    case _ => 0
  }

  /** One more row. */
  lemma RowsSnoc(depth: Depth, s: Ids, rows: seq<Row>, i: nat, skipZero: bool)
    requires i < |rows|
    ensures DepthRows(depth, rows[..i + 1], skipZero) ==
            DepthRow(DepthRows(depth, rows[..i], skipZero), rows[i], skipZero)
    ensures var before := IdsRows(s, rows[..i], skipZero);
            IdsRows(s, rows[..i + 1], skipZero) ==
            if Applies(rows[i], skipZero)
            then IdsLevel(before, LevelKey(rows[i].ticks, rows[i].side), rows[i].size.value)
            else before
    ensures CountSkipped(rows[..i + 1]) == CountSkipped(rows[..i]) + (if IsSkipped(rows[i]) then 1 else 0)
    ensures CountMalformed(rows[..i + 1]) == CountMalformed(rows[..i]) + (if IsMalformed(rows[i]) then 1 else 0)
  {
    assert rows[..i + 1][..i] == rows[..i];
  }

  // ---- Sequence numbers ----

  /** The sequence numbers carried by the trades of a session, in order. */
  function Sequences(frames: seq<Frame>): seq<nat>
    decreases |frames|
  {
    if frames == [] then []
    else
      var before, last := Sequences(frames[..|frames| - 1]), frames[|frames| - 1];
      if last.Trade? && last.sequence.Some? then before + [last.sequence.value] else before
  }

  /** The `i`th number is not the successor of the one before it. */
  predicate Breaks(s: seq<nat>, i: int) {
    0 < i < |s| && s[i] != s[i - 1] + 1
  }

  function Gaps(s: seq<nat>): set<int> {
    set i | 0 < i < |s| && Breaks(s, i)
  }

  lemma GapsSnoc(s: seq<nat>, x: nat)
    ensures |Gaps(s + [x])| == |Gaps(s)| + (if s != [] && x != s[|s| - 1] + 1 then 1 else 0)
  {
    var t := s + [x];
    assert forall i :: 0 < i < |s| ==> Breaks(t, i) == Breaks(s, i);
    if s != [] && x != s[|s| - 1] + 1 {
      assert Gaps(t) == Gaps(s) + {|s|};
    } else {
      assert Gaps(t) == Gaps(s);
    }
  }

  /** What the handler remembers of the numbers it has seen. */
  predicate Noted(s: seq<nat>, haveSequence: bool, lastSequence: nat, sequenceGaps: nat) {
    && haveSequence == (s != []) && (s != [] ==> lastSequence == s[|s| - 1])
    && sequenceGaps == |Gaps(s)|
  }

  // ---- Replaying messages ----

  function Post(table: Table, msg: Message): Table {
    match msg
    case New(m) => table[m.id := Listing(LevelKey(m.price, m.side), m.quantity)]
    case Cancel(id, _) => table - {id}
  }

  function Replay(msgs: seq<Message>): Table
    decreases |msgs|
  {
    if msgs == [] then map[] else Post(Replay(msgs[..|msgs| - 1]), msgs[|msgs| - 1])
  }

  lemma ReplaySnoc(msgs: seq<Message>, msg: Message)
    ensures Replay(msgs + [msg]) == Post(Replay(msgs), msg)
  {
  }

  /** One live id per level: the table, the live map and the depth describe the same levels. */
  predicate Reflects(live: Live, depth: Depth, table: Table, nextId: OrderId) {
    && live.Keys == depth.Keys
    && (forall key :: key in live ==> live[key] in table && table[live[key]] == Listing(key, depth[key]))
    && (forall id :: id in table ==> table[id].key in live && live[table[id].key] == id && id < nextId)
  }

  lemma CancelReflects(live: Live, depth: Depth, table: Table, nextId: OrderId, key: LevelKey)
    requires Reflects(live, depth, table, nextId) && key in live
    ensures Reflects(live - {key}, depth - {key}, table - {live[key]}, nextId)
  {
  }

  lemma NewReflects(live: Live, depth: Depth, table: Table, nextId: OrderId, key: LevelKey, qty: Quantity)
    requires Reflects(live, depth, table, nextId) && key !in live
    ensures Reflects(live[key := nextId], depth[key := qty], table[nextId := Listing(key, qty)], nextId + 1)
  {
  }

  // ---- What a consumer of the stream may rely on ----

  predicate FreshLimit(table: Table, m: NewOrder) {
    && m.typ.Limit? && Tradable(m.price) && m.quantity > 0
    && forall id :: id in table ==> table[id].key != LevelKey(m.price, m.side)
  }

  predicate IdsBelow(msgs: seq<Message>, nextId: OrderId) {
    forall j :: 0 <= j < |msgs| && msgs[j].New? ==> msgs[j].order.id < nextId
  }

  /** How many orders a stream adds. */
  function Adds(msgs: seq<Message>): nat
    decreases |msgs|
  {
    if msgs == [] then 0 else Adds(msgs[..|msgs| - 1]) + if msgs[|msgs| - 1].New? then 1 else 0
  }

  lemma AddsSnoc(msgs: seq<Message>, msg: Message)
    ensures Adds(msgs + [msg]) == Adds(msgs) + if msg.New? then 1 else 0
  {
    assert (msgs + [msg])[..|msgs|] == msgs;
  }

  /** A message that cancels a live id, or adds the next id at a level nobody stands for: ids are 1, 2, 3, ... */
  predicate Admits(before: seq<Message>, msg: Message) {
    if msg.Cancel? then msg.id in Replay(before)
    else
      && FreshLimit(Replay(before), msg.order) && IdsBelow(before, msg.order.id)
      && msg.order.id == Adds(before) + 1
  }

  predicate GoodAt(msgs: seq<Message>, k: nat)
    requires k < |msgs|
  {
    Admits(msgs[..k], msgs[k])
  }

  predicate GoodStream(msgs: seq<Message>) {
    forall k :: 0 <= k < |msgs| ==> GoodAt(msgs, k)
  }

  lemma GoodSnoc(msgs: seq<Message>, msg: Message)
    requires GoodStream(msgs) && Admits(msgs, msg)
    ensures GoodStream(msgs + [msg])
  {
    var all := msgs + [msg];
    forall k | 0 <= k < |all| ensures GoodAt(all, k) {
      assert all[..k] == msgs[..k];
      if k < |msgs| {
        assert GoodAt(msgs, k) && all[k] == msgs[k];
      } else {
        assert msgs[..k] == msgs;
      }
    }
  }

  /** A prefix of a good stream is good. */
  lemma GoodPrefix(msgs: seq<Message>, n: nat)
    requires GoodStream(msgs) && n <= |msgs|
    ensures GoodStream(msgs[..n])
  {
    forall k | 0 <= k < n ensures GoodAt(msgs[..n], k) {
      assert GoodAt(msgs, k);
      assert msgs[..n][..k] == msgs[..k];
    }
  }

  /** Everything the handler's state promises about what it has emitted. */
  predicate Faithful(live: Live, depth: Depth, emitted: seq<Message>, nextId: OrderId) {
    && Reflects(live, depth, Replay(emitted), nextId) && GoodStream(emitted) && IdsBelow(emitted, nextId)
    && nextId == Adds(emitted) + 1
  }

  function Stamp(msg: Message): nat {
    if msg.New? then msg.order.timestamp else msg.timestamp
  }

  /** `out'` is `out` followed by messages stamped `ts`. */
  predicate Appended(out: seq<Message>, out': seq<Message>, ts: nat) {
    out <= out' && forall i :: |out| <= i < |out'| ==> Stamp(out'[i]) == ts
  }

  /** `out'` is `out` followed by `n` cancels stamped `ts`. */
  predicate CancelsAdded(out: seq<Message>, out': seq<Message>, n: nat, ts: nat) {
    && Appended(out, out', ts) && |out'| == |out| + n
    && forall i :: |out| <= i < |out'| ==> out'[i].Cancel?
  }

  lemma CancelsMore(out: seq<Message>, out': seq<Message>, n: nat, id: OrderId, ts: nat)
    requires CancelsAdded(out, out', n, ts)
    ensures CancelsAdded(out, out' + [Cancel(id, ts)], n + 1, ts)
  {
  }

  lemma AppendedTwice(a: seq<Message>, b: seq<Message>, c: seq<Message>, ts: nat)
    requires Appended(a, b, ts) && Appended(b, c, ts)
    ensures Appended(a, c, ts)
  {
  }

  /** With no level left, neither the table nor the depth has anything in it. */
  lemma AllCancelled(depth: Depth, emitted: seq<Message>, nextId: OrderId)
    requires Faithful(map[], depth, emitted, nextId)
    ensures depth == map[] && Replay(emitted) == map[]
  {
  }

  lemma CancelFaithful(live: Live, depth: Depth, emitted: seq<Message>, nextId: OrderId, key: LevelKey, ts: nat)
    requires Faithful(live, depth, emitted, nextId) && key in live
    ensures Faithful(live - {key}, depth - {key}, emitted + [Cancel(live[key], ts)], nextId)
  {
    CancelReflects(live, depth, Replay(emitted), nextId, key);
    GoodSnoc(emitted, Cancel(live[key], ts));
    AddsSnoc(emitted, Cancel(live[key], ts));
    ReplaySnoc(emitted, Cancel(live[key], ts));
  }

  lemma NewFaithful(live: Live, depth: Depth, emitted: seq<Message>, nextId: OrderId, m: NewOrder)
    requires Faithful(live, depth, emitted, nextId) && LevelKey(m.price, m.side) !in live
    requires m.id == nextId && m.typ.Limit? && Tradable(m.price) && m.quantity > 0
    ensures var key := LevelKey(m.price, m.side);
            Faithful(live[key := m.id], depth[key := m.quantity], emitted + [New(m)], nextId + 1)
  {
    NewReflects(live, depth, Replay(emitted), nextId, LevelKey(m.price, m.side), m.quantity);
    GoodSnoc(emitted, New(m));
    AddsSnoc(emitted, New(m));
    ReplaySnoc(emitted, New(m));
  }
}
