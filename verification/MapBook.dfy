/** The textbook engine: ordered maps of lists, node by node, with an index of list positions.
    It is a second program with the same semantics as the flat engine. */
module MapBooks {
  import opened Types
  import opened BookSpec
  import opened BookTheory

  /** A list node; `handle` stands for its address, which is what a list iterator holds. */
  datatype Node = Node(handle: nat, id: OrderId, qty: nat)
  datatype Location = Location(side: Side, price: int, it: nat)

  type Level = seq<Node>
  type Levels = map<int, Level>
  type Index = map<OrderId, Location>

  /** The two maps, the index and the next fresh node address. */
  datatype MapState = MapState(bids: Levels, asks: Levels, index: Index, next: nat)
  {
    function Of(side: Side): Levels {
      if side.Bid? then bids else asks
    }

    function With(side: Side, levels: Levels): MapState {
      if side.Bid? then this.(bids := levels) else this.(asks := levels)
    }
  }

  function NodesAt(levels: Levels, p: int): Level {
    if p in levels then levels[p] else []
  }

  // ---- What the maps always keep ----

  predicate LevelFine(level: Level, next: nat) {
    && (forall i :: 0 <= i < |level| ==> level[i].qty > 0 && level[i].handle < next)
    && (forall i, j :: 0 <= i < j < |level| ==> level[i].handle != level[j].handle)
  }

  predicate LevelsFine(levels: Levels, next: nat) {
    forall p :: p in levels ==> LevelFine(levels[p], next)
  }

  /** No empty list is kept under a price, except for a moment at `p`. */
  predicate NoEmptyBut(levels: Levels, p: int) {
    forall k :: k in levels && k != p ==> levels[k] != []
  }

  predicate NoEmpty(levels: Levels) {
    forall k :: k in levels ==> levels[k] != []
  }

  predicate HasNode(level: Level, handle: nat, id: OrderId) {
    exists i :: 0 <= i < |level| && level[i].handle == handle && level[i].id == id
  }

  /** The index entry of `id` points at a live node carrying that id. */
  predicate Resolves(st: MapState, id: OrderId) {
    id in st.index && HasNode(NodesAt(st.Of(st.index[id].side), st.index[id].price), st.index[id].it, id)
  }

  predicate IndexFine(st: MapState) {
    forall id {:trigger Resolves(st, id)} :: id in st.index ==> Resolves(st, id)
  }

  // ---- What they mean ----

  /** Same ids and remaining quantities, in the same order. */
  predicate SameLine(level: Level, q: seq<Resting>) {
    |level| == |q| && forall i :: 0 <= i < |level| ==> level[i].id == q[i].id && level[i].qty == q[i].Remaining()
  }

  predicate MirrorsAt(levels: Levels, s: seq<Resting>, p: int) {
    SameLine(NodesAt(levels, p), QueueAt(s, p))
  }

  /** Price by price, the map holds the sorted queue. */
  ghost predicate Mirrors(levels: Levels, s: seq<Resting>) {
    forall p :: MirrorsAt(levels, s, p)
  }

  ghost predicate Shows(st: MapState, b: Book) {
    Mirrors(st.bids, b.bids) && Mirrors(st.asks, b.asks)
  }

  ghost predicate IndexCovers(index: Index, b: Book) {
    forall id :: id in index <==> b.Knows(id)
  }

  /** The maps and the index are a faithful image of the well-formed sorted queues `b`. */
  ghost predicate Tracks(st: MapState, b: Book) {
    && WellFormed(b) && Shows(st, b)
    && LevelsFine(st.bids, st.next) && LevelsFine(st.asks, st.next)
    && IndexFine(st) && IndexCovers(st.index, b)
  }

  // ---- The first key of a map ordered best price first ----

  predicate IsBegin(levels: Levels, side: Side, p: int) {
    p in levels && forall k :: k in levels ==> Rank(side, p) <= Rank(side, k)
  }

  lemma NoKeys(keys: set<int>)
    requires forall k: int :: k !in keys
    ensures keys == {}
  {
    var none: set<int> := {};
    forall k: int ensures k in keys <==> k in none {
    }
    assert keys == none;
  }

  lemma SomeKey(keys: set<int>)
    requires keys != {}
    ensures exists k: int :: k in keys
  {
    if forall k: int :: k !in keys {
      NoKeys(keys);
    }
  }

  method Begin(levels: Levels, side: Side) returns (p: int)
    requires levels.Keys != {}
    ensures IsBegin(levels, side, p)
  {
    var keys := levels.Keys;
    SomeKey(keys);
    p :| p in keys;
    keys := keys - {p};
    while keys != {}
      invariant keys <= levels.Keys && p in levels
      invariant forall k :: k in levels && k !in keys ==> Rank(side, p) <= Rank(side, k)
      decreases |keys|
    {
      SomeKey(keys);
      var k :| k in keys;
      if Rank(side, k) < Rank(side, p) {
        p := k;
      }
      keys := keys - {k};
    }
  }

  /** The first key is the best price of the sorted queue. */
  lemma BeginIsBest(levels: Levels, s: seq<Resting>, side: Side, p: int)
    requires SideOk(s, side) && Mirrors(levels, s) && NoEmpty(levels) && IsBegin(levels, side, p)
    ensures s != [] && s[0].price == p
  {
    assert MirrorsAt(levels, s, p);
    QueueAtNone(s, p);
    assert s != [];
    assert MirrorsAt(levels, s, s[0].price);
    QueueAtNone(s, s[0].price);
    assert s[0].price in levels;
  }

  lemma EmptyMirrors(levels: Levels, s: seq<Resting>)
    requires Mirrors(levels, s) && NoEmpty(levels)
    ensures levels.Keys == {} <==> s == []
  {
    if s != [] {
      assert MirrorsAt(levels, s, s[0].price);
      assert s[0].price in levels;
    } else {
      forall p ensures p !in levels.Keys {
        assert MirrorsAt(levels, s, p);
      }
      NoKeys(levels.Keys);
    }
  }

  // ---- One execution against the front node ----

  function AfterExecution(queue: Level, qty: nat): Level
    requires queue != []
  {
    if qty < queue[0].qty then [queue[0].(qty := queue[0].qty - qty)] + queue[1..] else queue[1..]
  }

  function Executed(st: MapState, side: Side, p: int, qty: nat): MapState
    requires NodesAt(st.Of(side), p) != []
  {
    var queue := NodesAt(st.Of(side), p);
    st.With(side, st.Of(side)[p := AfterExecution(queue, qty)])
      .(index := if qty < queue[0].qty then st.index else st.index - {queue[0].id})
  }

  lemma QueueAtAfterFill(s: seq<Resting>, qty: nat, p: int)
    requires s != []
    ensures QueueAt(AfterFill(s, qty), p) ==
            if p != s[0].price then QueueAt(s, p)
            else if qty < s[0].Remaining() then [Reduce(s[0], qty)] + QueueAt(s, p)[1..]
            else QueueAt(s, p)[1..]
    ensures p == s[0].price ==> QueueAt(s, p) != [] && QueueAt(s, p)[0] == s[0]
  {
  }

  lemma FrontNode(levels: Levels, s: seq<Resting>, side: Side, p: int)
    requires SideOk(s, side) && Mirrors(levels, s) && NoBetter(s, side, p) && NodesAt(levels, p) != []
    ensures s != [] && s[0].price == p
    ensures NodesAt(levels, p)[0].id == s[0].id && NodesAt(levels, p)[0].qty == s[0].Remaining()
  {
    assert MirrorsAt(levels, s, p);
    QueueAtNone(s, p);
    QueueAtAfterFill(s, 0, p);
  }

  lemma ExecutionMirrorsHere(queue: Level, q: seq<Resting>, qty: nat)
    requires SameLine(queue, q) && q != [] && qty <= q[0].Remaining()
    ensures SameLine(AfterExecution(queue, qty), AfterFill(q, qty))
  {
    var queue', q' := AfterExecution(queue, qty), AfterFill(q, qty);
    forall i | 0 <= i < |q'| ensures queue'[i].id == q'[i].id && queue'[i].qty == q'[i].Remaining() {
      if qty < q[0].Remaining() {
        assert i > 0 ==> queue'[i] == queue[i] && q'[i] == q[i];
      } else {
        assert queue'[i] == queue[i + 1] && q'[i] == q[i + 1];
      }
    }
  }

  lemma {:induction false} ExecutionMirrors(levels: Levels, s: seq<Resting>, p: int, qty: nat)
    requires Open(s) && Mirrors(levels, s) && s != [] && s[0].price == p
    requires NodesAt(levels, p) != [] && qty <= s[0].Remaining()
    ensures Mirrors(levels[p := AfterExecution(NodesAt(levels, p), qty)], AfterFill(s, qty))
  {
    var levels' := levels[p := AfterExecution(NodesAt(levels, p), qty)];
    forall k ensures MirrorsAt(levels', AfterFill(s, qty), k) {
      assert MirrorsAt(levels, s, k);
      QueueAtAfterFill(s, qty, k);
      if k == p {
        ExecutionMirrorsHere(NodesAt(levels, p), QueueAt(s, p), qty);
      }
    }
  }

  lemma ExecutionFine(levels: Levels, p: int, qty: nat, next: nat)
    requires LevelsFine(levels, next) && NodesAt(levels, p) != []
    ensures LevelsFine(levels[p := AfterExecution(NodesAt(levels, p), qty)], next)
  {
  }

  lemma NodeKeptByExecution(queue: Level, qty: nat, handle: nat, id: OrderId)
    requires queue != [] && HasNode(queue, handle, id) && (qty < queue[0].qty || id != queue[0].id)
    ensures HasNode(AfterExecution(queue, qty), handle, id)
  {
    var i :| 0 <= i < |queue| && queue[i].handle == handle && queue[i].id == id;
    if qty < queue[0].qty {
      assert AfterExecution(queue, qty)[i].handle == handle && AfterExecution(queue, qty)[i].id == id;
    } else {
      assert AfterExecution(queue, qty)[i - 1] == queue[i];
    }
  }

  lemma ExecutionIndex(st: MapState, side: Side, p: int, qty: nat)
    requires IndexFine(st) && NodesAt(st.Of(side), p) != []
    ensures IndexFine(Executed(st, side, p, qty))
  {
    var st' := Executed(st, side, p, qty);
    forall id | id in st'.index ensures Resolves(st', id) {
      assert Resolves(st, id);
      var loc := st.index[id];
      if loc.side == side && loc.price == p {
        NodeKeptByExecution(NodesAt(st.Of(side), p), qty, loc.it, id);
      }
    }
  }

  lemma FilledIds(s: seq<Resting>, qty: nat, id: OrderId)
    requires s != [] && DistinctIds(s)
    ensures HasId(AfterFill(s, qty), id) <==> HasId(s, id) && (qty < s[0].Remaining() || id != s[0].id)
  {
    var t := AfterFill(s, qty);
    var d := |s| - |t|;
    assert forall i :: 0 <= i < |t| ==> t[i].id == s[i + d].id;
    if HasId(s, id) && (qty < s[0].Remaining() || id != s[0].id) {
      var i :| 0 <= i < |s| && s[i].id == id;
      assert t[i - d].id == id;
    }
  }

  lemma ExecutionCovers(index: Index, b: Book, side: Side, qty: nat)
    requires WellFormed(b) && IndexCovers(index, b) && b.Of(side) != []
    ensures var s := b.Of(side);
            IndexCovers(if qty < s[0].Remaining() then index else index - {s[0].id}, b.With(side, AfterFill(s, qty)))
  {
    var s := b.Of(side);
    var index' := if qty < s[0].Remaining() then index else index - {s[0].id};
    forall id ensures id in index' <==> b.With(side, AfterFill(s, qty)).Knows(id) {
      FilledIds(s, qty, id);
      assert id in index <==> b.Knows(id);
      assert id == s[0].id ==> !HasId(b.Of(Opposite(side)), id);
    }
  }

  lemma FillKeepsWellFormed(b: Book, side: Side, qty: nat)
    requires WellFormed(b) && b.Of(side) != [] && qty <= b.Of(side)[0].Remaining()
    ensures WellFormed(b.With(side, AfterFill(b.Of(side), qty)))
  {
    var s := b.Of(side);
    OpenAfterFill(s, qty);
    if qty < s[0].Remaining() {
      TailOfReduced(s, qty);
    }
    TailKeepsWellFormed(b, side, AfterFill(s, qty));
  }

  /** Trading against the front node keeps the maps in step with the sorted queues. */
  lemma ExecutionTracks(st: MapState, b: Book, side: Side, p: int, qty: nat)
    requires Tracks(st, b) && b.Of(side) != [] && b.Of(side)[0].price == p
    requires NodesAt(st.Of(side), p) != [] && qty <= b.Of(side)[0].Remaining()
    requires NodesAt(st.Of(side), p)[0].qty == b.Of(side)[0].Remaining()
    requires NodesAt(st.Of(side), p)[0].id == b.Of(side)[0].id
    ensures Tracks(Executed(st, side, p, qty), b.With(side, AfterFill(b.Of(side), qty)))
  {
    ExecutionMirrors(st.Of(side), b.Of(side), p, qty);
    ExecutionFine(st.Of(side), p, qty, st.next);
    ExecutionIndex(st, side, p, qty);
    ExecutionCovers(st.index, b, side, qty);
    FillKeepsWellFormed(b, side, qty);
    var st', b' := Executed(st, side, p, qty), b.With(side, AfterFill(b.Of(side), qty));
    assert Shows(st', b');
    assert LevelsFine(st'.bids, st'.next) && LevelsFine(st'.asks, st'.next);
    assert IndexFine(st');
    assert IndexCovers(st'.index, b');
  }

  /** Dropping a level whose list became empty changes nothing the maps mean. */
  lemma EraseEmptyTracks(st: MapState, b: Book, side: Side, p: int)
    requires Tracks(st, b) && NodesAt(st.Of(side), p) == []
    ensures Tracks(st.With(side, st.Of(side) - {p}), b)
  {
    var st' := st.With(side, st.Of(side) - {p});
    assert forall k :: NodesAt(st'.Of(side), k) == NodesAt(st.Of(side), k);
    forall k ensures MirrorsAt(st'.Of(side), b.Of(side), k) {
      assert MirrorsAt(st.Of(side), b.Of(side), k);
    }
    forall id | id in st'.index ensures Resolves(st', id) {
      assert Resolves(st, id);
    }
    assert Mirrors(st'.Of(side), b.Of(side)) && Mirrors(st'.Of(Opposite(side)), b.Of(Opposite(side)));
    assert LevelsFine(st'.Of(side), st'.next);
  }

  // ---- Resting a remainder ----

  /** Appends a node; as with a map's `emplace`, an id already indexed keeps its old location. */
  function Pushed(st: MapState, side: Side, price: int, id: OrderId, qty: nat): MapState {
    var levels := st.Of(side);
    st.With(side, levels[price := NodesAt(levels, price) + [Node(st.next, id, qty)]])
      .(index := if id in st.index then st.index else st.index[id := Location(side, price, st.next)],
        next := st.next + 1)
  }

  lemma PushMirrors(levels: Levels, s: seq<Resting>, e: Resting, handle: nat)
    requires SideOk(s, e.side) && Mirrors(levels, s)
    ensures Mirrors(levels[e.price := NodesAt(levels, e.price) + [Node(handle, e.id, e.Remaining())]], Insert(s, e))
  {
    var levels' := levels[e.price := NodesAt(levels, e.price) + [Node(handle, e.id, e.Remaining())]];
    forall p ensures MirrorsAt(levels', Insert(s, e), p) {
      assert MirrorsAt(levels, s, p);
      QueueAtInsert(s, e, p);
    }
  }

  lemma PushFine(levels: Levels, price: int, id: OrderId, qty: nat, next: nat)
    requires LevelsFine(levels, next) && qty > 0
    ensures LevelsFine(levels[price := NodesAt(levels, price) + [Node(next, id, qty)]], next + 1)
    ensures LevelsFine(levels, next + 1)
  {
  }

  lemma PushIndex(st: MapState, side: Side, price: int, id: OrderId, qty: nat)
    requires IndexFine(st)
    ensures IndexFine(Pushed(st, side, price, id, qty))
  {
    var st' := Pushed(st, side, price, id, qty);
    var level, level' := NodesAt(st.Of(side), price), NodesAt(st'.Of(side), price);
    assert level'[|level|] == Node(st.next, id, qty);
    forall x | x in st'.index ensures Resolves(st', x) {
      if x in st.index {
        assert Resolves(st, x);
        var loc := st.index[x];
        if loc.side == side && loc.price == price {
          var i :| 0 <= i < |level| && level[i].handle == loc.it && level[i].id == x;
          assert level'[i] == level[i];
        }
      }
    }
  }

  lemma JoinedKnows(b: Book, e: Resting, id: OrderId)
    ensures Joined(b, e).Knows(id) <==> id == e.id || b.Knows(id)
  {
    var s, t := b.Of(e.side), Insert(b.Of(e.side), e);
    InsertMembers(s, e, e);
    if HasId(s, id) {
      var i :| 0 <= i < |s| && s[i].id == id;
      InsertMembers(s, e, s[i]);
    }
    if HasId(t, id) {
      var i :| 0 <= i < |t| && t[i].id == id;
      InsertMembers(s, e, t[i]);
    }
  }

  lemma PushShows(st: MapState, b: Book, e: Resting)
    requires Structured(b.bids, b.asks) && Shows(st, b)
    ensures Shows(Pushed(st, e.side, e.price, e.id, e.Remaining()), Joined(b, e))
  {
    PushMirrors(st.Of(e.side), b.Of(e.side), e, st.next);
  }

  lemma PushTracks(st: MapState, b: Book, e: Resting)
    requires Tracks(st, b) && b.HasRoom() && !b.Knows(e.id) && NonCrossing(b, e)
    requires e.typ.Limit? && InRange(e.price) && e.filled < e.quantity < WORD
    ensures Tracks(Pushed(st, e.side, e.price, e.id, e.Remaining()), Joined(b, e))
  {
    PushShows(st, b, e);
    PushFine(st.Of(e.side), e.price, e.id, e.Remaining(), st.next);
    PushFine(st.Of(Opposite(e.side)), e.price, e.id, e.Remaining(), st.next);
    PushIndex(st, e.side, e.price, e.id, e.Remaining());
    RestKeepsWellFormed(b, e);
    var st' := Pushed(st, e.side, e.price, e.id, e.Remaining());
    forall id ensures id in st'.index <==> Joined(b, e).Knows(id) {
      JoinedKnows(b, e, id);
      assert id in st.index <==> b.Knows(id);
    }
    assert LevelsFine(st'.Of(e.side), st'.next) && LevelsFine(st'.Of(Opposite(e.side)), st'.next);
  }

  // ---- Cancelling ----

  /** Where the node at address `handle` stands in a list. */
  function Seek(level: Level, handle: nat): (k: nat)
    ensures k <= |level|
    ensures k < |level| ==> level[k].handle == handle
    ensures forall i :: 0 <= i < k ==> level[i].handle != handle
  {
    if level == [] || level[0].handle == handle then 0 else 1 + Seek(level[1..], handle)
  }

  function Unlinked(level: Level, k: nat): Level
    requires k < |level|
  {
    level[..k] + level[k + 1..]
  }

  lemma SeekFinds(level: Level, next: nat, handle: nat, id: OrderId)
    requires LevelFine(level, next) && HasNode(level, handle, id)
    ensures Seek(level, handle) < |level| && level[Seek(level, handle)].id == id
  {
  }

  lemma {:induction false} QueueAtDistinct(s: seq<Resting>, p: int)
    requires DistinctIds(s)
    ensures DistinctIds(QueueAt(s, p))
  {
    if s != [] {
      QueueAtDistinct(s[1..], p);
      var q := QueueAt(s[1..], p);
      forall i | 0 <= i < |q| ensures q[i].id != s[0].id {
        QueueAtMembers(s[1..], p, q[i]);
      }
    }
  }

  /** Unlinking the node of `id` is removing `id` from the queue the list mirrors. */
  lemma UnlinkMirrors(level: Level, q: seq<Resting>, k: nat)
    requires SameLine(level, q) && k < |level|
    requires DistinctIds(q)
    ensures SameLine(Unlinked(level, k), Remove(q, level[k].id))
  {
    IndexOfAt(q, level[k].id, k);
    var level', q' := Unlinked(level, k), Remove(q, level[k].id);
    assert q' == q[..k] + q[k + 1..];
    forall i | 0 <= i < |level'| ensures level'[i].id == q'[i].id && level'[i].qty == q'[i].Remaining() {
      assert level'[i] == level[if i < k then i else i + 1] && q'[i] == q[if i < k then i else i + 1];
    }
  }

  /** Every other price keeps its queue when `id` leaves. */
  lemma OtherPriceKept(s: seq<Resting>, side: Side, id: OrderId, price: int, p: int)
    requires SideOk(s, side) && HasId(QueueAt(s, price), id) && p != price
    ensures Remove(QueueAt(s, p), id) == QueueAt(s, p)
  {
    var q := QueueAt(s, price);
    var i :| 0 <= i < |q| && q[i].id == id;
    QueueAtMembers(s, price, q[i]);
    var a :| 0 <= a < |s| && s[a] == q[i];
    forall e | e in s && e.price == p ensures e.id != id {
      var c :| 0 <= c < |s| && s[c] == e;
      assert a < c || c < a;
    }
    QueueAtLacks(s, p, id);
  }

  lemma CancelMirrorsHere(level: Level, s: seq<Resting>, side: Side, p: int, k: nat)
    requires SideOk(s, side) && SameLine(level, QueueAt(s, p)) && k < |level|
    ensures SameLine(Unlinked(level, k), Remove(QueueAt(s, p), level[k].id))
  {
    QueueAtDistinct(s, p);
    UnlinkMirrors(level, QueueAt(s, p), k);
  }

  lemma CancelMirrorsAt(levels: Levels, s: seq<Resting>, side: Side, p: int, k: nat, x: int)
    requires SideOk(s, side) && k < |NodesAt(levels, p)| && MirrorsAt(levels, s, p) && MirrorsAt(levels, s, x)
    ensures MirrorsAt(levels[p := Unlinked(levels[p], k)], Remove(s, levels[p][k].id), x)
  {
    var id := levels[p][k].id;
    assert QueueAt(s, p)[k].id == id;
    QueueAtRemoveId(s, side, id, x);
    if x == p {
      CancelMirrorsHere(levels[p], s, side, p, k);
    } else {
      OtherPriceKept(s, side, id, p, x);
    }
  }

  lemma {:induction false} CancelMirrors(levels: Levels, s: seq<Resting>, side: Side, p: int, k: nat)
    requires SideOk(s, side) && Mirrors(levels, s) && k < |NodesAt(levels, p)|
    ensures Mirrors(levels[p := Unlinked(levels[p], k)], Remove(s, levels[p][k].id))
  {
    var levels', s' := levels[p := Unlinked(levels[p], k)], Remove(s, levels[p][k].id);
    forall x ensures MirrorsAt(levels', s', x) {
      CancelMirrorsAt(levels, s, side, p, k, x);
    }
  }

  function Erased(st: MapState, side: Side, p: int, k: nat, id: OrderId): MapState
    requires k < |NodesAt(st.Of(side), p)|
  {
    st.With(side, st.Of(side)[p := Unlinked(st.Of(side)[p], k)]).(index := st.index - {id})
  }

  lemma CancelFine(levels: Levels, p: int, k: nat, next: nat)
    requires LevelsFine(levels, next) && k < |NodesAt(levels, p)|
    ensures LevelsFine(levels[p := Unlinked(levels[p], k)], next)
  {
  }

  lemma CancelIndex(st: MapState, side: Side, p: int, k: nat, id: OrderId)
    requires IndexFine(st) && k < |NodesAt(st.Of(side), p)| && st.Of(side)[p][k].id == id
    ensures IndexFine(Erased(st, side, p, k, id))
  {
    var st', level := Erased(st, side, p, k, id), st.Of(side)[p];
    forall x | x in st'.index ensures Resolves(st', x) {
      assert Resolves(st, x);
      var loc := st.index[x];
      if loc.side == side && loc.price == p {
        var i :| 0 <= i < |level| && level[i].handle == loc.it && level[i].id == x;
        assert Unlinked(level, k)[if i < k then i else i - 1] == level[i];
      }
    }
  }

  lemma CancelKnows(b: Book, gone: OrderId, id: OrderId)
    requires WellFormed(b)
    ensures ProcessCancel(b, gone).Knows(id) <==> b.Knows(id) && id != gone
  {
    RemovedHasId(b.bids, gone, id);
    RemovedHasId(b.asks, gone, id);
  }

  lemma RemovedHasId(s: seq<Resting>, gone: OrderId, id: OrderId)
    requires DistinctIds(s)
    ensures HasId(Remove(s, gone), id) <==> HasId(s, id) && id != gone
  {
    var t := Remove(s, gone);
    if HasId(t, id) {
      var i :| 0 <= i < |t| && t[i].id == id;
      RemoveMembers(s, gone, t[i]);
    }
    if HasId(s, id) && id != gone {
      var i :| 0 <= i < |s| && s[i].id == id;
      RemoveMembers(s, gone, s[i]);
    }
  }

  /** Erasing the located node and its index entry cancels the order. */
  lemma CancelTracks(st: MapState, b: Book, side: Side, p: int, k: nat, id: OrderId)
    requires Tracks(st, b) && k < |NodesAt(st.Of(side), p)| && st.Of(side)[p][k].id == id
    ensures Tracks(Erased(st, side, p, k, id), ProcessCancel(b, id))
  {
    var st', b' := Erased(st, side, p, k, id), ProcessCancel(b, id);
    CancelMirrors(st.Of(side), b.Of(side), side, p, k);
    CancelOther(st, b, side, p, k, id);
    CancelFine(st.Of(side), p, k, st.next);
    CancelIndex(st, side, p, k, id);
    ProcessCancelKeepsWellFormed(b, id);
    forall x ensures x in st'.index <==> b'.Knows(x) {
      CancelKnows(b, id, x);
      assert x in st.index <==> b.Knows(x);
    }
    assert Mirrors(st'.Of(side), b'.Of(side)) && Mirrors(st'.Of(Opposite(side)), b'.Of(Opposite(side)));
  }

  /** The other side does not know an id that rests on this one. */
  lemma CancelOther(st: MapState, b: Book, side: Side, p: int, k: nat, id: OrderId)
    requires WellFormed(b) && Shows(st, b) && k < |NodesAt(st.Of(side), p)| && st.Of(side)[p][k].id == id
    ensures Remove(b.Of(Opposite(side)), id) == b.Of(Opposite(side))
  {
    var s := b.Of(side);
    assert MirrorsAt(st.Of(side), s, p);
    QueueAtMembers(s, p, QueueAt(s, p)[k]);
    var i :| 0 <= i < |s| && s[i] == QueueAt(s, p)[k];
    RemoveAbsent(b.Of(Opposite(side)), id);
  }
}
