/** The memory of an OrderBook as one value: the two slabs, the price maps, the id index, and (ghost) which slots
    form which level's FIFO. Inv says that these redundant structures agree; Abs is the abstract book they stand for. */
module BookStore {
  import opened Types
  import opened Pools
  import opened LinkedFifo
  import opened Book

  datatype LevelNode = LevelNode(price: int64, totalQty: uint64, orderCount: uint32, head: Ptr, tail: Ptr)

  /** One binding of a price map; a std::map is modelled by its bindings in iteration order. */
  datatype PriceEntry = PriceEntry(price: int64, level: Ptr)

  datatype IndexEntry = IndexEntry(order: Ptr, level: Ptr)

  datatype Fifo = Fifo(side: Side, slots: seq<Ptr>)

  datatype Store = Store(
    orders: Nodes,
    levels: map<Ptr, LevelNode>,
    bids: seq<PriceEntry>,
    asks: seq<PriceEntry>,
    index: map<uint64, IndexEntry>,
    lists: map<Ptr, Fifo>)

  function Slots(s: Store, l: Ptr): seq<Ptr> {
    if l in s.lists then s.lists[l].slots else []
  }

  function SideOf(s: Store, l: Ptr): Side {
    if l in s.lists then s.lists[l].side else BUY
  }

  function Entries(s: Store, side: Side): seq<PriceEntry> {
    if side.BUY? then s.bids else s.asks
  }

  function WithEntries(s: Store, side: Side, entries: seq<PriceEntry>): Store {
    if side.BUY? then s.(bids := entries) else s.(asks := entries)
  }

  function EntryPrices(entries: seq<PriceEntry>): (prices: seq<int64>)
    ensures |prices| == |entries|
    ensures forall i :: 0 <= i < |entries| ==> prices[i] == entries[i].price
  {
    seq(|entries|, i requires 0 <= i < |entries| => entries[i].price)
  }

  /** Where `price` is, or would go, among the entries of a side. */
  function Place(side: Side, entries: seq<PriceEntry>, price: int64): (i: nat)
    ensures i <= |entries|
  {
    LowerBound(side, EntryPrices(entries), price)
  }

  /** find(): the level filed under `price`, or NULL. */
  function LevelAt(side: Side, entries: seq<PriceEntry>, price: int64): Ptr {
    var i := Place(side, entries, price);
    if i < |entries| && entries[i].price == price then entries[i].level else NULL
  }

  // ---------- The abstract book ----------

  function AbsLevel(s: Store, e: PriceEntry): Level {
    Level(e.price, OrdersAt(s.orders, Slots(s, e.level)))
  }

  function AbsLevels(s: Store, entries: seq<PriceEntry>): (levels: seq<Level>)
    ensures |levels| == |entries|
    ensures forall i :: 0 <= i < |entries| ==> levels[i] == AbsLevel(s, entries[i])
  {
    seq(|entries|, i requires 0 <= i < |entries| => AbsLevel(s, entries[i]))
  }

  function Abs(s: Store): Book {
    Book(AbsLevels(s, s.bids), AbsLevels(s, s.asks))
  }

  // ---------- The invariant ----------

  ghost predicate HeaderOk(s: Store, l: Ptr)
    requires l in s.levels
  {
    var lv, f := s.levels[l], Slots(s, l);
    && lv.head == At(f, 0)
    && lv.tail == At(f, |f| - 1)
    && lv.orderCount == |f|
    && lv.totalQty == TotalQty(OrdersAt(s.orders, f))
  }

  ghost predicate LevelOkAt(s: Store, l: Ptr, hole: Ptr)
    requires l in s.levels
  {
    && HeaderOk(s, l)
    && Linked(s.orders, Slots(s, l))
    && (Slots(s, l) == [] ==> l == hole)
    && LevelAt(SideOf(s, l), Entries(s, SideOf(s, l)), s.levels[l].price) == l
  }

  /** Every level node is well linked, non-empty unless it is `hole`, and found in its side's map by its price. */
  ghost predicate LevelsOk(s: Store, hole: Ptr) {
    && s.lists.Keys == s.levels.Keys
    && NULL !in s.levels
    && forall l {:trigger LevelOkAt(s, l, hole)} :: l in s.levels ==> LevelOkAt(s, l, hole)
  }

  /** A chained order carries its level's price and side, and the index leads from its id to it. */
  ghost predicate PlacedAt(s: Store, l: Ptr, i: nat)
    requires l in s.levels && i < |Slots(s, l)|
  {
    var p := Slots(s, l)[i];
    && p in s.orders
    && s.orders[p].order.price == s.levels[l].price
    && s.orders[p].order.side == SideOf(s, l)
    && s.orders[p].order.orderId in s.index
    && s.index[s.orders[p].order.orderId] == IndexEntry(p, l)
  }

  ghost predicate PlacedOk(s: Store) {
    forall l, i {:trigger PlacedAt(s, l, i)} :: l in s.levels && 0 <= i < |Slots(s, l)| ==> PlacedAt(s, l, i)
  }

  ghost predicate IndexedAt(s: Store, id: uint64)
    requires id in s.index
  {
    var e := s.index[id];
    && e.level in s.levels
    && e.order in Slots(s, e.level)
    && OrderAt(s.orders, e.order).orderId == id
  }

  /** No live order is lost: the index knows each. */
  ghost predicate OwnedAt(s: Store, p: Ptr)
    requires p in s.orders
  {
    var id := s.orders[p].order.orderId;
    id in s.index && s.index[id].order == p
  }

  ghost predicate IndexOk(s: Store) {
    && (forall id {:trigger IndexedAt(s, id)} :: id in s.index ==> IndexedAt(s, id))
    && (forall p {:trigger OwnedAt(s, p)} :: p in s.orders ==> OwnedAt(s, p))
    && NULL !in s.orders
  }

  ghost predicate EntryAt(s: Store, side: Side, i: nat)
    requires i < |Entries(s, side)|
  {
    var e := Entries(s, side)[i];
    && e.level in s.levels
    && s.levels[e.level].price == e.price
    && SideOf(s, e.level) == side
  }

  ghost predicate EntriesOk(s: Store) {
    && SortedPrices(BUY, EntryPrices(s.bids))
    && SortedPrices(SELL, EntryPrices(s.asks))
    && forall side, i {:trigger EntryAt(s, side, i)} :: 0 <= i < |Entries(s, side)| ==> EntryAt(s, side, i)
  }

  ghost predicate CountsOk(s: Store) {
    && |s.orders| == OrderCount(Abs(s))
    && |s.levels| == |s.bids| + |s.asks|
    && |s.orders| <= ORDER_POOL_SIZE
  }

  /** The structures agree, except that level `hole` may be empty for a moment. */
  ghost predicate InvExcept(s: Store, hole: Ptr) {
    LevelsOk(s, hole) && PlacedOk(s) && IndexOk(s) && EntriesOk(s) && CountsOk(s)
  }

  /** The structures agree. Sealed (see Opened). */
  ghost predicate Inv(s: Store) {
    forall u {:trigger Opened(u)} :: Opened(u) ==> InvExcept(s, NULL)
  }

  // ---------- Consequences ----------

  lemma Unsealed(s: Store)
    requires Inv(s)
    ensures LevelsOk(s, NULL) && PlacedOk(s) && IndexOk(s) && EntriesOk(s) && CountsOk(s)
  {
    assert Opened(0);
  }

  /** Position of a level among the entries of its side. */
  function Pos(s: Store, l: Ptr): nat
    requires l in s.levels
  {
    Place(SideOf(s, l), Entries(s, SideOf(s, l)), s.levels[l].price)
  }

  lemma LevelFacts(s: Store, l: Ptr, hole: Ptr)
    requires LevelsOk(s, hole) && l in s.levels
    ensures l in s.lists && HeaderOk(s, l) && Linked(s.orders, Slots(s, l))
  {
    assert LevelOkAt(s, l, hole);
  }

  lemma PosOfLevel(s: Store, l: Ptr, hole: Ptr)
    requires LevelsOk(s, hole) && l in s.levels
    ensures Pos(s, l) < |Entries(s, SideOf(s, l))|
    ensures Entries(s, SideOf(s, l))[Pos(s, l)] == PriceEntry(s.levels[l].price, l)
  {
    assert LevelOkAt(s, l, hole);
  }

  /** An entry sits where lookup by its price looks. */
  lemma PosOfEntry(s: Store, side: Side, i: nat, hole: Ptr)
    requires LevelsOk(s, hole) && EntriesOk(s) && i < |Entries(s, side)|
    ensures var l := Entries(s, side)[i].level; l in s.levels && SideOf(s, l) == side && Pos(s, l) == i
  {
    assert EntryAt(s, side, i);
    var l := Entries(s, side)[i].level;
    PosOfLevel(s, l, hole);
    var j := Pos(s, l);
    assert EntryPrices(Entries(s, side))[i] == EntryPrices(Entries(s, side))[j];
  }

  lemma SlotsDisjoint(s: Store, l: Ptr, m: Ptr, i: nat, j: nat)
    requires PlacedOk(s) && l in s.levels && m in s.levels && l != m
    requires i < |Slots(s, l)| && j < |Slots(s, m)|
    ensures Slots(s, l)[i] != Slots(s, m)[j]
  {
    assert PlacedAt(s, l, i) && PlacedAt(s, m, j);
  }

  // ---------- Changes at one level ----------

  /** s2 differs from s only in what belongs to level l. */
  ghost predicate Local(s: Store, s2: Store, l: Ptr) {
    && s2.bids == s.bids
    && s2.asks == s.asks
    && l in s.levels && l in s2.levels && l in s.lists && l in s2.lists
    && s2.levels == s.levels[l := s2.levels[l]]
    && s2.lists == s.lists[l := s2.lists[l]]
    && s2.levels[l].price == s.levels[l].price
    && s2.lists[l].side == s.lists[l].side
    && (forall q :: q in s.orders && q !in Slots(s, l) ==> q in s2.orders && s2.orders[q] == s.orders[q])
    && (forall id :: id in s.index && s.index[id].level != l ==> id in s2.index && s2.index[id] == s.index[id])
  }

  lemma LocalNode(s: Store, s2: Store, l: Ptr, m: Ptr, i: nat)
    requires PlacedOk(s) && Local(s, s2, l) && m in s.levels && m != l && i < |Slots(s, m)|
    ensures var p := Slots(s, m)[i]; p in s.orders && p in s2.orders && s2.orders[p] == s.orders[p]
  {
    var p := Slots(s, m)[i];
    assert PlacedAt(s, m, i);
    if p in Slots(s, l) {
      var j :| 0 <= j < |Slots(s, l)| && Slots(s, l)[j] == p;
      SlotsDisjoint(s, m, l, i, j);
    }
  }

  /** The other levels keep their orders and their links. */
  lemma LocalLinked(s: Store, s2: Store, l: Ptr, m: Ptr, hole: Ptr)
    requires LevelsOk(s, hole) && PlacedOk(s) && Local(s, s2, l) && m in s.levels && m != l
    ensures Slots(s2, m) == Slots(s, m) && s2.levels[m] == s.levels[m] && SideOf(s2, m) == SideOf(s, m)
    ensures OrdersAt(s2.orders, Slots(s, m)) == OrdersAt(s.orders, Slots(s, m))
    ensures Linked(s2.orders, Slots(s, m))
  {
    var f := Slots(s, m);
    assert LevelOkAt(s, m, hole);
    assert m in s.lists;
    forall i | 0 <= i < |f|
      ensures OrderAt(s.orders, f[i]) == OrderAt(s2.orders, f[i])
      ensures LinkedAt(s2.orders, f, i)
    {
      LocalNode(s, s2, l, m, i);
      assert LinkedAt(s.orders, f, i);
    }
  }

  lemma LocalPlaced(s: Store, s2: Store, l: Ptr, m: Ptr, i: nat)
    requires s.lists.Keys == s.levels.Keys && PlacedOk(s) && Local(s, s2, l) && m in s.levels && m != l && i < |Slots(s, m)|
    ensures Slots(s2, m) == Slots(s, m) && PlacedAt(s2, m, i)
  {
    assert PlacedAt(s, m, i);
    assert m in s.lists;
    LocalNode(s, s2, l, m, i);
  }

  /** A local change keeps the invariant of all levels when it keeps that of the level it touches. */
  lemma LocalLevels(s: Store, s2: Store, l: Ptr, hole: Ptr, hole2: Ptr)
    requires LevelsOk(s, hole) && PlacedOk(s) && Local(s, s2, l) && (hole == NULL || hole == l)
    requires HeaderOk(s2, l) && Linked(s2.orders, Slots(s2, l)) && (Slots(s2, l) == [] ==> hole2 == l)
    ensures LevelsOk(s2, hole2)
  {
    forall m | m in s2.levels
      ensures LevelOkAt(s2, m, hole2)
    {
      assert LevelOkAt(s, m, hole);
      if m != l {
        LocalLinked(s, s2, l, m, hole);
      }
    }
  }

  lemma LocalPlacedAll(s: Store, s2: Store, l: Ptr)
    requires s.lists.Keys == s.levels.Keys && PlacedOk(s) && Local(s, s2, l)
    requires forall i {:trigger PlacedAt(s2, l, i)} :: 0 <= i < |Slots(s2, l)| ==> PlacedAt(s2, l, i)
    ensures PlacedOk(s2)
  {
    forall m, i {:trigger PlacedAt(s2, m, i)} | m in s2.levels && 0 <= i < |Slots(s2, m)|
      ensures PlacedAt(s2, m, i)
    {
      if m != l {
        LocalPlaced(s, s2, l, m, i);
      }
    }
  }

  lemma LocalEntries(s: Store, s2: Store, l: Ptr)
    requires s.lists.Keys == s.levels.Keys && EntriesOk(s) && Local(s, s2, l)
    ensures EntriesOk(s2)
  {
    forall side, i {:trigger EntryAt(s2, side, i)} | 0 <= i < |Entries(s2, side)|
      ensures EntryAt(s2, side, i)
    {
      assert EntryAt(s, side, i);
    }
  }

  /** Entries other than the touched level's stand for the same level as before. */
  lemma LocalAbsLevel(s: Store, s2: Store, l: Ptr, side: Side, i: nat, hole: Ptr)
    requires LevelsOk(s, hole) && PlacedOk(s) && EntriesOk(s) && Local(s, s2, l) && i < |Entries(s, side)|
    requires side != SideOf(s, l) || i != Pos(s, l)
    ensures AbsLevel(s2, Entries(s, side)[i]) == AbsLevel(s, Entries(s, side)[i])
  {
    PosOfEntry(s, side, i, hole);
    LocalLinked(s, s2, l, Entries(s, side)[i].level, hole);
  }

  /** The abstract book changes at that level's position only. */
  lemma LocalAbs(s: Store, s2: Store, l: Ptr, hole: Ptr)
    requires LevelsOk(s, hole) && PlacedOk(s) && EntriesOk(s) && Local(s, s2, l)
    ensures var side := SideOf(s, l);
            && Pos(s, l) < |Levels(Abs(s), side)|
            && Levels(Abs(s), side)[Pos(s, l)] == Level(s.levels[l].price, OrdersAt(s.orders, Slots(s, l)))
            && Abs(s2) == WithLevels(Abs(s), side, Levels(Abs(s), side)[
                  Pos(s, l) := Level(s.levels[l].price, OrdersAt(s2.orders, Slots(s2, l)))])
  {
    PosOfLevel(s, l, hole);
    var side, other := SideOf(s, l), Other(SideOf(s, l));
    forall i | 0 <= i < |Entries(s, side)| && i != Pos(s, l)
      ensures AbsLevel(s2, Entries(s, side)[i]) == AbsLevel(s, Entries(s, side)[i])
    {
      LocalAbsLevel(s, s2, l, side, i, hole);
    }
    forall i | 0 <= i < |Entries(s, other)|
      ensures AbsLevel(s2, Entries(s, other)[i]) == AbsLevel(s, Entries(s, other)[i])
    {
      LocalAbsLevel(s, s2, l, other, i, hole);
    }
    assert AbsLevels(s2, Entries(s, other)) == AbsLevels(s, Entries(s, other));
    assert AbsLevels(s2, Entries(s, side)) == AbsLevels(s, Entries(s, side))[
      Pos(s, l) := Level(s.levels[l].price, OrdersAt(s2.orders, Slots(s2, l)))];
  }
}
