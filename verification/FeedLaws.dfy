/** What a frame says about the depth, row by row and without running the handler's loops: which row has the
    last word on a level, and which rows are counted as out of range or malformed. */
module FeedLaws {
  import opened Types
  import opened Feed

  // ---- Updates ----

  /** The row gives a size for `key`: readable, in range, and naming its price and side. */
  predicate Names(row: Row, key: LevelKey) {
    && 0 < key.price < MAX_PRICE_TICKS
    && row.Priced? && row.ticks == key.price && row.side == key.side && row.size.Some?
  }

  predicate LastNaming(rows: seq<Row>, key: LevelKey, i: int) {
    0 <= i < |rows| && Names(rows[i], key) && forall j :: i < j < |rows| ==> !Names(rows[j], key)
  }

  /** After an update a level has the size of the last row naming it, is gone if that size is zero, and is as
      before if no row names it. */
  ghost predicate UpdateSays(rows: seq<Row>, key: LevelKey, before: Depth, after: Depth) {
    && (forall i :: LastNaming(rows, key, i) && rows[i].size.value == 0 ==> key !in after)
    && (forall i :: LastNaming(rows, key, i) && rows[i].size.value > 0 ==>
          key in after && after[key] == rows[i].size.value)
    && ((forall i :: !LastNaming(rows, key, i)) ==>
          (key in after <==> key in before) && (key in before ==> after[key] == before[key]))
  }

  // ---- Snapshots ----

  /** The row gives a size other than zero for price `p`, on whichever side its array is for. */
  predicate Offers(row: Row, p: int) {
    && 0 < p < MAX_PRICE_TICKS
    && row.Priced? && row.ticks == p && row.size.Some? && row.size.value > 0
  }

  predicate LastOffering(rows: seq<Row>, p: int, i: int) {
    0 <= i < |rows| && Offers(rows[i], p) && forall j :: i < j < |rows| ==> !Offers(rows[j], p)
  }

  /** After a snapshot a level has the size of the last row of its side's array offering its price, and is
      absent if there is no such row or no such array. */
  ghost predicate SnapshotSays(rows: Option<seq<Row>>, side: Side, p: int, after: Depth) {
    && (forall i :: rows.Some? && LastOffering(rows.value, p, i) ==>
          LevelKey(p, side) in after && after[LevelKey(p, side)] == rows.value[i].size.value)
    && ((rows.None? || forall i :: !LastOffering(rows.value, p, i)) ==> LevelKey(p, side) !in after)
  }

  /** The whole meaning of a frame for the depth. */
  ghost predicate Describes(before: Depth, frame: Frame, after: Depth) {
    match frame
    case L2Update(changes) => forall key :: UpdateSays(changes, key, before, after)
    case Snapshot(bids, asks) =>
      && (forall p :: SnapshotSays(bids, Bid, p, after))
      && (forall p :: SnapshotSays(asks, Ask, p, after))
    case _ => after == before
  }

  // ---- The table computed is the table described ----

  /** Whether a row counts for `key` in an array where sizes of zero may be skipped. */
  predicate Counts(row: Row, key: LevelKey, skipZero: bool) {
    Names(row, key) && !(skipZero && row.size.value == 0)
  }

  predicate LastCounting(rows: seq<Row>, key: LevelKey, skipZero: bool, i: int) {
    0 <= i < |rows| && Counts(rows[i], key, skipZero) && forall j :: i < j < |rows| ==> !Counts(rows[j], key, skipZero)
  }

  /** What the rows leave at `key`, given what was there. */
  ghost predicate RowsLeave(rows: seq<Row>, key: LevelKey, skipZero: bool, before: Depth, after: Depth) {
    || (exists i :: LastCounting(rows, key, skipZero, i) &&
          if rows[i].size.value == 0 then key !in after else key in after && after[key] == rows[i].size.value)
    || ((forall i :: 0 <= i < |rows| ==> !Counts(rows[i], key, skipZero))
        && (key in after <==> key in before) && (key in before ==> after[key] == before[key]))
  }

  lemma {:induction false} RowsLaw(rows: seq<Row>, key: LevelKey, skipZero: bool, before: Depth)
    ensures RowsLeave(rows, key, skipZero, before, DepthRows(before, rows, skipZero))
    decreases |rows|
  {
    if rows != [] {
      var n := |rows| - 1;
      var init, mid := rows[..n], DepthRows(before, rows[..n], skipZero);
      RowsLaw(init, key, skipZero, before);
      if Counts(rows[n], key, skipZero) {
        assert LastCounting(rows, key, skipZero, n);
      } else {
        OtherRow(mid, rows[n], key, skipZero);
        RowsLeaveMore(init, rows[n], key, skipZero, before, mid, DepthRows(before, rows, skipZero));
        assert init + [rows[n]] == rows;
      }
    }
  }

  /** A row that does not count for `key` leaves its level alone. */
  lemma OtherRow(depth: Depth, row: Row, key: LevelKey, skipZero: bool)
    requires !Counts(row, key, skipZero)
    ensures var after := DepthRow(depth, row, skipZero);
            (key in after <==> key in depth) && (key in depth ==> after[key] == depth[key])
  {
  }

  lemma RowsLeaveMore(init: seq<Row>, row: Row, key: LevelKey, skipZero: bool, before: Depth, mid: Depth, after: Depth)
    requires RowsLeave(init, key, skipZero, before, mid) && !Counts(row, key, skipZero)
    requires (key in after <==> key in mid) && (key in mid ==> after[key] == mid[key])
    ensures RowsLeave(init + [row], key, skipZero, before, after)
  {
    var rows := init + [row];
    assert forall j :: 0 <= j < |init| ==> rows[j] == init[j];
    if i :| LastCounting(init, key, skipZero, i) {
      assert LastCounting(rows, key, skipZero, i);
    }
  }

  lemma UpdateLaw(rows: seq<Row>, key: LevelKey, before: Depth)
    ensures UpdateSays(rows, key, before, DepthRows(before, rows, false))
  {
    RowsLaw(rows, key, false, before);
    assert forall j :: 0 <= j < |rows| ==> Counts(rows[j], key, false) == Names(rows[j], key);
    forall i, k | LastNaming(rows, key, i) && LastCounting(rows, key, false, k) ensures i == k {
    }
    forall i | LastCounting(rows, key, false, i) ensures LastNaming(rows, key, i) {
    }
  }

  /** One array of a snapshot decides the levels of its side and no others. */
  lemma ArrayLaw(rows: seq<Row>, side: Side, p: int, before: Depth)
    requires LevelKey(p, side) !in before
    ensures SnapshotSays(Some(rows), side, p, DepthRows(before, OnSide(rows, side), true))
  {
    var read, key := OnSide(rows, side), LevelKey(p, side);
    RowsLaw(read, key, true, before);
    assert forall j :: 0 <= j < |rows| ==> Counts(read[j], key, true) == Offers(rows[j], p);
    forall i, k | LastOffering(rows, p, i) && LastCounting(read, key, true, k) ensures i == k {
    }
    forall i | LastCounting(read, key, true, i) ensures LastOffering(rows, p, i) {
    }
  }

  lemma OtherSide(rows: seq<Row>, side: Side, key: LevelKey, before: Depth)
    requires key.side != side
    ensures var after := DepthRows(before, OnSide(rows, side), true);
            (key in after <==> key in before) && (key in before ==> after[key] == before[key])
  {
    RowsLaw(OnSide(rows, side), key, true, before);
  }

  lemma SnapshotLaw(bids: Option<seq<Row>>, asks: Option<seq<Row>>, p: int, before: Depth)
    ensures var after := DepthFrame(before, Snapshot(bids, asks));
            SnapshotSays(bids, Bid, p, after) && SnapshotSays(asks, Ask, p, after)
  {
    var mid := DepthRows(map[], OnSide(RowsOf(bids), Bid), true);
    ArrayLaw(RowsOf(bids), Bid, p, map[]);
    OtherSide(RowsOf(bids), Bid, LevelKey(p, Ask), map[]);
    ArrayLaw(RowsOf(asks), Ask, p, mid);
    OtherSide(RowsOf(asks), Ask, LevelKey(p, Bid), mid);
  }

  lemma FrameDescribes(before: Depth, frame: Frame)
    ensures Describes(before, frame, DepthFrame(before, frame))
  {
    match frame
    case L2Update(changes) =>
      forall key ensures UpdateSays(changes, key, before, DepthFrame(before, frame)) {
        UpdateLaw(changes, key, before);
      }
    case Snapshot(bids, asks) =>
      forall p ensures SnapshotSays(bids, Bid, p, DepthFrame(before, frame))
      {
        SnapshotLaw(bids, asks, p, before);
      }
      forall p ensures SnapshotSays(asks, Ask, p, DepthFrame(before, frame))
      {
        SnapshotLaw(bids, asks, p, before);
      }
    case _ =>
  }

  // ---- And no other table is ----

  lemma UpdateUnique(rows: seq<Row>, key: LevelKey, before: Depth, after: Depth, after': Depth)
    requires UpdateSays(rows, key, before, after) && UpdateSays(rows, key, before, after')
    ensures (key in after <==> key in after') && (key in after ==> after[key] == after'[key])
  {
    if i :| LastNaming(rows, key, i) {
      assert rows[i].size.value == 0 || rows[i].size.value > 0;
    }
  }

  lemma SnapshotUnique(rows: Option<seq<Row>>, side: Side, p: int, after: Depth, after': Depth)
    requires SnapshotSays(rows, side, p, after) && SnapshotSays(rows, side, p, after')
    ensures var key := LevelKey(p, side);
            (key in after <==> key in after') && (key in after ==> after[key] == after'[key])
  {
    if rows.Some? {
      if i :| LastOffering(rows.value, p, i) {
        assert LevelKey(p, side) in after;
      }
    }
  }

  /** What a frame says determines the depth: the table computed is the one described, and the only one. */
  lemma DescribesIff(before: Depth, frame: Frame, after: Depth)
    ensures Describes(before, frame, after) <==> after == DepthFrame(before, frame)
  {
    FrameDescribes(before, frame);
    if Describes(before, frame, after) {
      var after' := DepthFrame(before, frame);
      forall key ensures (key in after <==> key in after') && (key in after ==> after[key] == after'[key]) {
        match frame
        case L2Update(changes) => UpdateUnique(changes, key, before, after, after');
        case Snapshot(bids, asks) =>
          SnapshotUnique(if key.side.Bid? then bids else asks, key.side, key.price, after, after');
        case _ =>
      }
      SameTables(after, after');
    }
  }

  /** The depth after every frame of a session, starting from nothing. */
  ghost predicate Chronicle(frames: seq<Frame>, depths: seq<Depth>) {
    && |depths| == |frames| + 1 && depths[0] == map[]
    && forall i :: 0 <= i < |frames| ==> Describes(depths[i], frames[i], depths[i + 1])
  }

  /** A session has exactly one chronicle, and its entries are the depths computed. */
  lemma ChronicleIff(frames: seq<Frame>, depths: seq<Depth>)
    ensures Chronicle(frames, depths) <==>
            |depths| == |frames| + 1 && forall i :: 0 <= i <= |frames| ==> depths[i] == DepthAfter(frames[..i])
  {
    if |depths| == |frames| + 1 {
      if Chronicle(frames, depths) {
        forall i | 0 <= i <= |frames| ensures depths[i] == DepthAfter(frames[..i]) {
          ChronicleAt(frames, depths, i);
        }
      }
      if forall i :: 0 <= i <= |frames| ==> depths[i] == DepthAfter(frames[..i]) {
        forall i | 0 <= i < |frames| ensures Describes(depths[i], frames[i], depths[i + 1]) {
          DepthSnoc(frames, i);
          FrameDescribes(depths[i], frames[i]);
        }
      }
    }
  }

  lemma {:induction false} ChronicleAt(frames: seq<Frame>, depths: seq<Depth>, i: nat)
    requires Chronicle(frames, depths) && i <= |frames|
    ensures depths[i] == DepthAfter(frames[..i])
  {
    if i > 0 {
      ChronicleAt(frames, depths, i - 1);
      DepthSnoc(frames, i - 1);
      assert Describes(depths[i - 1], frames[i - 1], depths[i - 1 + 1]);
      DescribesIff(depths[i - 1], frames[i - 1], depths[i]);
    }
  }

  lemma SameTables(a: Depth, b: Depth)
    requires forall key :: (key in a <==> key in b) && (key in a ==> a[key] == b[key])
    ensures a == b
  {
  }

  // ---- Rows that are only counted ----

  /** Rows with a readable price off the book. */
  function OffBook(rows: seq<Row>): set<int> {
    set i | 0 <= i < |rows| && rows[i].Priced? && !(0 < rows[i].ticks < MAX_PRICE_TICKS)
  }

  /** Rows that cannot be read, or whose size cannot. */
  function Unreadables(rows: seq<Row>): set<int> {
    set i | 0 <= i < |rows|
            && (rows[i].Unreadable? || (0 < rows[i].ticks < MAX_PRICE_TICKS && rows[i].size.None?))
  }

  lemma {:induction false} RowCounts(rows: seq<Row>)
    ensures CountSkipped(rows) == |OffBook(rows)| && CountMalformed(rows) == |Unreadables(rows)|
    decreases |rows|
  {
    if rows != [] {
      var n := |rows| - 1;
      RowCounts(rows[..n]);
      OffBookSnoc(rows, n);
      UnreadablesSnoc(rows, n);
    }
  }

  lemma OffBookSnoc(rows: seq<Row>, n: nat)
    requires |rows| == n + 1
    ensures |OffBook(rows)| == |OffBook(rows[..n])| + if IsSkipped(rows[n]) then 1 else 0
  {
    assert OffBook(rows) == OffBook(rows[..n]) + (if IsSkipped(rows[n]) then {n} else {});
  }

  lemma UnreadablesSnoc(rows: seq<Row>, n: nat)
    requires |rows| == n + 1
    ensures |Unreadables(rows)| == |Unreadables(rows[..n])| + if IsMalformed(rows[n]) then 1 else 0
  {
    assert Unreadables(rows) == Unreadables(rows[..n]) + (if IsMalformed(rows[n]) then {n} else {});
  }

  /** The side an array is for changes nothing about which of its rows are counted. */
  lemma SideCounts(rows: seq<Row>, side: Side)
    ensures OffBook(OnSide(rows, side)) == OffBook(rows) && Unreadables(OnSide(rows, side)) == Unreadables(rows)
  {
  }

  /** What each frame adds to the counters of skipped and malformed input. */
  lemma FrameCounts(frame: Frame)
    ensures frame.L2Update? ==>
              FrameSkipped(frame) == |OffBook(frame.changes)| && FrameMalformed(frame) == |Unreadables(frame.changes)|
    ensures frame.Snapshot? ==>
              && FrameSkipped(frame) == |OffBook(RowsOf(frame.bids))| + |OffBook(RowsOf(frame.asks))|
              && FrameMalformed(frame) == |Unreadables(RowsOf(frame.bids))| + |Unreadables(RowsOf(frame.asks))|
    ensures !frame.L2Update? && !frame.Snapshot? ==>
              FrameSkipped(frame) == 0 && FrameMalformed(frame) == if frame.Malformed? then 1 else 0
  {
    match frame
    case L2Update(changes) =>
      RowCounts(changes);
    case Snapshot(bids, asks) =>
      RowCounts(OnSide(RowsOf(bids), Bid));
      RowCounts(OnSide(RowsOf(asks), Ask));
      SideCounts(RowsOf(bids), Bid);
      SideCounts(RowsOf(asks), Ask);
    case _ =>
  }
}
