/** The trade tape: fills pass through an overwriting ring between publishes and a second ring in the
    dashboard hub, and the reader still sees exactly the newest ones in order. */
module Tape {
  import opened Types

  const FILL_KEEP: nat := 48

  datatype FillRow = FillRow(seqNo: nat, tsMs: nat, price: int, qty: nat, takerIsBid: bool)

  /** The newest `n` rows, oldest first. */
  function Last(s: seq<FillRow>, n: nat): (r: seq<FillRow>)
    ensures |r| == if |s| <= n then |s| else n
  {
    if |s| <= n then s else s[|s| - n..]
  }

  lemma LastAt(s: seq<FillRow>, n: nat, i: nat)
    requires i < |Last(s, n)|
    ensures Last(s, n)[i] == s[|s| - |Last(s, n)| + i]
  {
  }

  // ---- The ring in the hub ----

  /** The ring holds the newest rows of `seen` at their index modulo the size. */
  predicate RingHolds(ring: seq<FillRow>, seen: seq<FillRow>) {
    && |ring| == FILL_KEEP
    && forall j {:trigger seen[j]} :: |seen| - FILL_KEEP <= j < |seen| && 0 <= j ==> ring[j % FILL_KEEP] == seen[j]
  }

  lemma RingPush(ring: seq<FillRow>, seen: seq<FillRow>, row: FillRow)
    requires RingHolds(ring, seen)
    ensures RingHolds(ring[|seen| % FILL_KEEP := row], seen + [row])
  {
  }

  lemma SnapshotIndex(n: nat, count: nat, i: nat)
    requires i < count <= n && count <= FILL_KEEP
    ensures (n % FILL_KEEP + FILL_KEEP - count + i) % FILL_KEEP == (n - count + i) % FILL_KEEP
  {
  }

  /** The index formula of the snapshot finds the `i`th newest row. */
  lemma SnapshotRow(ring: seq<FillRow>, seen: seq<FillRow>, i: nat)
    requires RingHolds(ring, seen) && i < |Last(seen, FILL_KEEP)|
    ensures var count := |Last(seen, FILL_KEEP)|;
            ring[(|seen| % FILL_KEEP + FILL_KEEP - count + i) % FILL_KEEP] == Last(seen, FILL_KEEP)[i]
  {
    var count := |Last(seen, FILL_KEEP)|;
    SnapshotIndex(|seen|, count, i);
    LastAt(seen, FILL_KEEP, i);
    assert ring[(|seen| - count + i) % FILL_KEEP] == seen[|seen| - count + i];
  }

  lemma NextHead(n: nat)
    ensures (n % FILL_KEEP + 1) % FILL_KEEP == (n + 1) % FILL_KEEP
  {
  }

  class DashboardHub {
    const fills: array<FillRow>
    var fillHead: nat    // next write position
    var fillCount: nat
    ghost var seen: seq<FillRow>   // every row ever published to the hub

    ghost predicate Valid()
      reads this, fills
    {
      && fills.Length == FILL_KEEP && RingHolds(fills[..], seen)
      && fillHead == |seen| % FILL_KEEP
      && fillCount == if |seen| < FILL_KEEP then |seen| else FILL_KEEP
    }

    constructor ()
      ensures Valid() && fresh(fills) && seen == []
    {
      fills := new FillRow[FILL_KEEP](_ => FillRow(0, 0, 0, 0, false));
      fillHead, fillCount, seen := 0, 0, [];
    }

    /** Batched rows, one lock per publish. */
    method PublishOutput(rows: seq<FillRow>)
      requires Valid()
      modifies this, fills
      ensures Valid() && seen == old(seen) + rows
    {
      for i := 0 to |rows|
        invariant Valid() && seen == old(seen) + rows[..i]
      {
        PublishRow(rows[i]);
        assert rows[..i + 1] == rows[..i] + [rows[i]];
      }
      assert rows[..|rows|] == rows;
    }

    /** One turn of the publish loop. */
    method PublishRow(row: FillRow)
      requires Valid()
      modifies this, fills
      ensures Valid() && seen == old(seen) + [row]
    {
      ghost var ring := fills[..];
      RingPush(ring, seen, row);
      fills[fillHead] := row;
      assert fills[..] == ring[fillHead := row];
      NextHead(|seen|);
      fillHead := (fillHead + 1) % FILL_KEEP;
      if fillCount < FILL_KEEP {
        fillCount := fillCount + 1;
      }
      seen := seen + [row];
    }

    /** The rows of one snapshot: the newest ones, oldest first. */
    method SnapshotRows() returns (rows: seq<FillRow>)
      requires Valid()
      ensures rows == Last(seen, FILL_KEEP)
    {
      rows := [];
      for i := 0 to fillCount
        invariant |rows| == i && rows == Last(seen, FILL_KEEP)[..i]
      {
        var idx := (fillHead + FILL_KEEP - fillCount + i) % FILL_KEEP;
        SnapshotRow(fills[..], seen, i);
        rows := rows + [fills[idx]];
      }
    }
  }

  // ---- The ring between publishes ----

  function Rotated(rows: seq<FillRow>, head: nat): seq<FillRow>
    requires head <= |rows|
  {
    rows[head..] + rows[..head]
  }

  /** Reading the pending rows from the oldest gives the newest rows since the last publish. */
  predicate PendingOk(rows: seq<FillRow>, head: nat, since: seq<FillRow>) {
    && |rows| <= FILL_KEEP && head <= |rows| && (|rows| < FILL_KEEP ==> head == 0) && head < FILL_KEEP
    && Rotated(rows, head) == Last(since, FILL_KEEP)
    && (|rows| == FILL_KEEP <==> |since| >= FILL_KEEP)
  }

  lemma PendingAppend(rows: seq<FillRow>, since: seq<FillRow>, row: FillRow)
    requires PendingOk(rows, 0, since) && |rows| < FILL_KEEP
    ensures PendingOk(rows + [row], 0, since + [row])
  {
  }

  lemma PendingOverwrite(rows: seq<FillRow>, head: nat, since: seq<FillRow>, row: FillRow)
    requires PendingOk(rows, head, since) && |rows| == FILL_KEEP
    ensures PendingOk(rows[head := row], (head + 1) % FILL_KEEP, since + [row])
  {
  }

  /** A new row belongs to the part after the split. */
  lemma SplitSnoc(s: seq<FillRow>, row: FillRow, n: nat)
    requires n <= |s|
    ensures (s + [row])[..n] == s[..n] && (s + [row])[n..] == s[n..] + [row]
  {
  }

  /** The output thread's side of the tape. */
  class OutputTape {
    const hub: DashboardHub
    var pending: seq<FillRow>
    var pendingHead: nat
    var fillSeq: nat
    ghost var all: seq<FillRow>         // every fill row so far
    ghost var published: seq<FillRow>   // those before the last publish

    ghost predicate Valid()
      reads this, hub, hub.fills
    {
      && hub.Valid() && fillSeq == |all|
      && (forall i :: 0 <= i < |all| ==> all[i].seqNo == i + 1)
      && |published| <= |all| && published == all[..|published|]
      && Last(hub.seen, FILL_KEEP) == Last(published, FILL_KEEP)
      && PendingOk(pending, pendingHead, all[|published|..])
    }

    constructor ()
      ensures Valid() && fresh(hub) && fresh(hub.fills) && all == []
    {
      hub := new DashboardHub();
      pending, pendingHead, fillSeq, all, published := [], 0, 0, [], [];
    }

    /** Holds one fill until the next publish, overwriting the oldest held row when full. */
    method OnFill(fill: Fill, nowMs: nat)
      requires Valid()
      modifies `pending, `pendingHead, `fillSeq, `all
      ensures Valid() && published == old(published)
      ensures all == old(all) + [FillRow(|old(all)| + 1, nowMs, fill.price, fill.quantity, fill.aggressorSide.Bid?)]
    {
      fillSeq := fillSeq + 1;
      var row := FillRow(fillSeq, nowMs, fill.price, fill.quantity, fill.aggressorSide.Bid?);
      Hold(row, all[|published|..]);
      SplitSnoc(all, row, |published|);
      all := all + [row];
    }

    /** Appends a row to the pending ring, or overwrites its oldest. */
    method Hold(row: FillRow, ghost since: seq<FillRow>)
      requires PendingOk(pending, pendingHead, since)
      modifies `pending, `pendingHead
      ensures PendingOk(pending, pendingHead, since + [row])
    {
      if |pending| < FILL_KEEP {
        PendingAppend(pending, since, row);
        pending := pending + [row];
      } else {
        PendingOverwrite(pending, pendingHead, since, row);
        pending := pending[pendingHead := row];
        pendingHead := (pendingHead + 1) % FILL_KEEP;
      }
    }

    /** Hands the held rows to the hub, oldest first. Afterwards the hub shows exactly the newest rows of
        the whole session, in order. */
    method PublishDashboard()
      requires Valid()
      modifies `pending, `pendingHead, `published, hub, hub.fills
      ensures Valid() && published == all == old(all) && pending == []
      ensures Last(hub.seen, FILL_KEEP) == Last(all, FILL_KEEP)
    {
      ghost var seen, since := hub.seen, all[|published|..];
      assert Rotated(pending, 0) == pending;
      if pendingHead != 0 && |pending| == FILL_KEEP {
        pending := pending[pendingHead..] + pending[..pendingHead];
      }
      assert pending == Last(since, FILL_KEEP);
      hub.PublishOutput(pending);
      PublishedNewest(seen, published, since, pending);
      assert published + since == all;
      pending := [];
      pendingHead := 0;
      published := all;
    }
  }

  lemma PublishedNewest(seen: seq<FillRow>, published: seq<FillRow>, since: seq<FillRow>, batch: seq<FillRow>)
    requires Last(seen, FILL_KEEP) == Last(published, FILL_KEEP) && batch == Last(since, FILL_KEEP)
    ensures Last(seen + batch, FILL_KEEP) == Last(published + since, FILL_KEEP)
  {
  }

  // ---- Any batching ----

  datatype Event = Filled(fill: Fill, nowMs: nat) | Publish

  function RowsOf(start: nat, events: seq<Event>): seq<FillRow>
    decreases |events|
  {
    if events == [] then []
    else
      var rows, last := RowsOf(start, events[..|events| - 1]), events[|events| - 1];
      if last.Publish? then rows
      else rows + [FillRow(start + |rows| + 1, last.nowMs, last.fill.price, last.fill.quantity,
                           last.fill.aggressorSide.Bid?)]
  }

  /** Fills and publishes in any order, then one more publish and a snapshot: the reader gets exactly the
      newest rows of all that happened. */
  method Session(tape: OutputTape, events: seq<Event>) returns (rows: seq<FillRow>)
    requires tape.Valid()
    modifies tape, tape.hub, tape.hub.fills
    ensures tape.Valid() && tape.all == old(tape.all) + RowsOf(|old(tape.all)|, events)
    ensures rows == Last(tape.all, FILL_KEEP)
  {
    ghost var start := |tape.all|;
    for i := 0 to |events|
      invariant tape.Valid() && tape.all == old(tape.all) + RowsOf(start, events[..i])
    {
      assert events[..i + 1][..i] == events[..i];
      match events[i]
      case Filled(fill, nowMs) =>
        tape.OnFill(fill, nowMs);
      case Publish =>
        tape.PublishDashboard();
    }
    assert events[..|events|] == events;
    tape.PublishDashboard();
    rows := tape.hub.SnapshotRows();
  }
}
