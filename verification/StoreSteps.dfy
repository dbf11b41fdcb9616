/** The elementary changes that order_book.hpp makes to its memory, as functions on the store, each with the proof
    that it keeps the invariant and with what it means for the abstract book. */
module StoreSteps {
  import opened Types
  import opened Pools
  import opened LinkedFifo
  import opened Book
  import opened BookLemmas
  import opened BookStore

  // ---------- Unlinking an order ----------

  function UnlinkHeader(lv: LevelNode, n: OrderNode): LevelNode
    requires n.order.qty <= lv.totalQty && lv.orderCount > 0
  {
    LevelNode(
      lv.price,
      lv.totalQty - n.order.qty,
      lv.orderCount - 1,
      if n.prev == NULL then n.next else lv.head,
      if n.next == NULL then n.prev else lv.tail)
  }

  /** The k-th order of level l can be named and its level's counters will not wrap. */
  ghost predicate Names(s: Store, l: Ptr, k: nat) {
    && l in s.levels && l in s.lists
    && k < |Slots(s, l)|
    && Slots(s, l)[k] in s.orders
    && var n := s.orders[Slots(s, l)[k]];
    && (n.prev == NULL || n.prev in s.orders)
    && (n.next == NULL || n.next in s.orders)
    && n.order.qty <= s.levels[l].totalQty
    && s.levels[l].orderCount > 0
  }

  lemma NamesHold(s: Store, l: Ptr, k: nat, hole: Ptr)
    requires LevelsOk(s, hole) && l in s.levels && k < |Slots(s, l)|
    ensures Names(s, l, k)
  {
    assert LevelOkAt(s, l, hole);
    Neighbours(s.orders, Slots(s, l), k);
    MemberQty(OrdersAt(s.orders, Slots(s, l)), k);
  }

  /** unlink_from_level, erasure from the id index, and release of the slot. */
  function Unlinked(s: Store, l: Ptr, k: nat): Store
    requires Names(s, l, k)
  {
    var p := Slots(s, l)[k];
    var n := s.orders[p];
    s.(orders := UnlinkNode(s.orders, p) - {p},
       levels := s.levels[l := UnlinkHeader(s.levels[l], n)],
       index := s.index - {n.order.orderId},
       lists := s.lists[l := Fifo(s.lists[l].side, RemoveAt(Slots(s, l), k))])
  }

  lemma UnlinkedNode(s: Store, l: Ptr, k: nat, j: nat)
    requires Linked(s.orders, Slots(s, l)) && j < |Slots(s, l)| && j != k && Names(s, l, k)
    ensures OrderAt(Unlinked(s, l, k).orders, Slots(s, l)[j]) == OrderAt(s.orders, Slots(s, l)[j])
  {
    UnlinkFrame(s.orders, Slots(s, l), k);
    assert LinkedAt(s.orders, Slots(s, l), j);
  }

  lemma UnlinkedOrders(s: Store, l: Ptr, k: nat)
    requires LevelsOk(s, NULL) && l in s.levels && k < |Slots(s, l)|
    ensures Names(s, l, k)
    ensures OrdersAt(Unlinked(s, l, k).orders, RemoveAt(Slots(s, l), k)) == RemoveAt(OrdersAt(s.orders, Slots(s, l)), k)
  {
    NamesHold(s, l, k, NULL);
    hide LevelsOk, Linked, Names, Unlinked, OrderAt, Slots;
    LevelFacts(s, l, NULL);
    var g := RemoveAt(Slots(s, l), k);
    forall i | 0 <= i < |g|
      ensures OrderAt(Unlinked(s, l, k).orders, g[i]) == OrderAt(s.orders, g[i])
    {
      UnlinkedNode(s, l, k, if i < k then i else i + 1);
    }
  }

  lemma UnlinkedLocal(s: Store, l: Ptr, k: nat)
    requires LevelsOk(s, NULL) && PlacedOk(s) && l in s.levels && k < |Slots(s, l)|
    ensures Names(s, l, k) && Local(s, Unlinked(s, l, k), l)
  {
    assert PlacedAt(s, l, k);
    hide LevelsOk, PlacedOk, HeaderOk, TotalQty, OrdersAt, UnlinkNode, Linked;
    NamesHold(s, l, k, NULL);
    LevelFacts(s, l, NULL);
    UnlinkFrame(s.orders, Slots(s, l), k);
  }

  lemma UnlinkedHeader(s: Store, l: Ptr, k: nat)
    requires LevelsOk(s, NULL) && l in s.levels && k < |Slots(s, l)|
    ensures Names(s, l, k) && HeaderOk(Unlinked(s, l, k), l)
  {
    hide LevelsOk, TotalQty, OrdersAt, UnlinkNode, Linked, Names;
    UnlinkedOrders(s, l, k);
    LevelFacts(s, l, NULL);
    var f := Slots(s, l);
    assert LinkedAt(s.orders, f, k);
    Neighbours(s.orders, f, k);
    TotalRemove(OrdersAt(s.orders, f), k);
  }

  lemma UnlinkedLevels(s: Store, l: Ptr, k: nat)
    requires LevelsOk(s, NULL) && PlacedOk(s) && l in s.levels && k < |Slots(s, l)|
    ensures Names(s, l, k) && LevelsOk(Unlinked(s, l, k), l)
  {
    UnlinkedLocal(s, l, k);
    UnlinkedHeader(s, l, k);
    UnlinkLinked(s.orders, Slots(s, l), k) by {
      assert LevelOkAt(s, l, NULL);
    }
    LocalLevels(s, Unlinked(s, l, k), l, NULL, l);
  }

  lemma UnlinkedFacts(s: Store, l: Ptr, k: nat)
    requires LevelsOk(s, NULL) && l in s.levels && k < |Slots(s, l)|
    ensures Names(s, l, k)
    ensures var s2, p := Unlinked(s, l, k), Slots(s, l)[k];
            && s2.levels.Keys == s.levels.Keys && s2.levels[l].price == s.levels[l].price
            && Slots(s2, l) == RemoveAt(Slots(s, l), k) && (forall m :: SideOf(s2, m) == SideOf(s, m))
            && (forall m :: m != l ==> Slots(s2, m) == Slots(s, m))
            && s2.index == s.index - {s.orders[p].order.orderId}
            && s2.orders.Keys == s.orders.Keys - {p}
            && (forall q :: q in s2.orders ==> s2.orders[q].order == s.orders[q].order)
    ensures Distinct(Slots(s, l))
  {
    hide LevelsOk, TotalQty, OrdersAt, UnlinkNode;
    NamesHold(s, l, k, NULL);
    LevelFacts(s, l, NULL);
    UnlinkFrame(s.orders, Slots(s, l), k);
  }

  lemma UnlinkedPlacedAt(s: Store, l: Ptr, k: nat, j: nat)
    requires LevelsOk(s, NULL) && PlacedOk(s) && l in s.levels && k < |Slots(s, l)| && j < |Slots(s, l)| && j != k
    requires Names(s, l, k)
    ensures PlacedAt(Unlinked(s, l, k), l, if j < k then j else j - 1)
  {
    hide LevelsOk, Unlinked, Slots, SideOf, Names;
    UnlinkedFacts(s, l, k);
    assert PlacedAt(s, l, k) && PlacedAt(s, l, j);
  }

  lemma UnlinkedPlaced(s: Store, l: Ptr, k: nat)
    requires LevelsOk(s, NULL) && PlacedOk(s) && l in s.levels && k < |Slots(s, l)|
    ensures Names(s, l, k) && PlacedOk(Unlinked(s, l, k))
  {
    UnlinkedLocal(s, l, k);
    var s2 := Unlinked(s, l, k);
    forall i {:trigger PlacedAt(s2, l, i)} | 0 <= i < |Slots(s2, l)|
      ensures PlacedAt(s2, l, i)
    {
      UnlinkedPlacedAt(s, l, k, if i < k then i else i + 1);
    }
    LocalPlacedAll(s, s2, l);
  }

  lemma UnlinkedIndexedAt(s: Store, l: Ptr, k: nat, id: uint64)
    requires LevelsOk(s, NULL) && PlacedOk(s) && IndexOk(s) && l in s.levels && k < |Slots(s, l)|
    requires Names(s, l, k) && id in Unlinked(s, l, k).index
    ensures IndexedAt(Unlinked(s, l, k), id)
  {
    hide LevelsOk, Unlinked, Slots, SideOf, Names;
    UnlinkedFacts(s, l, k);
    assert PlacedAt(s, l, k) && IndexedAt(s, id);
    var e := s.index[id];
    var j :| 0 <= j < |Slots(s, e.level)| && Slots(s, e.level)[j] == e.order;
    assert PlacedAt(s, e.level, j);
    if e.level == l {
      assert RemoveAt(Slots(s, l), k)[if j < k then j else j - 1] == e.order;
    }
  }

  lemma UnlinkedIndex(s: Store, l: Ptr, k: nat)
    requires LevelsOk(s, NULL) && PlacedOk(s) && IndexOk(s) && l in s.levels && k < |Slots(s, l)|
    ensures Names(s, l, k) && IndexOk(Unlinked(s, l, k))
  {
    NamesHold(s, l, k, NULL);
    var s2 := Unlinked(s, l, k);
    UnlinkFrame(s.orders, Slots(s, l), k) by {
      assert LevelOkAt(s, l, NULL);
    }
    assert PlacedAt(s, l, k);
    forall id {:trigger IndexedAt(s2, id)} | id in s2.index
      ensures IndexedAt(s2, id)
    {
      UnlinkedIndexedAt(s, l, k, id);
    }
    forall p {:trigger OwnedAt(s2, p)} | p in s2.orders
      ensures OwnedAt(s2, p)
    {
      assert OwnedAt(s, p);
    }
  }

  lemma MinusOne<K, V>(m: map<K, V>, k: K)
    requires k in m
    ensures |m - {k}| == |m| - 1
  {
    assert (m - {k}).Keys == m.Keys - {k};
  }

  lemma SameSize<K, V, W>(m: map<K, V>, n: map<K, W>)
    requires m.Keys == n.Keys
    ensures |m| == |n|
  {
    assert |m.Keys| == |m| && |n.Keys| == |n|;
  }

  lemma UnlinkedSize(s: Store, l: Ptr, k: nat)
    requires LevelsOk(s, NULL) && l in s.levels && k < |Slots(s, l)|
    ensures Names(s, l, k)
    ensures |Unlinked(s, l, k).orders| == |s.orders| - 1
    ensures |Unlinked(s, l, k).levels| == |s.levels|
  {
    hide LevelsOk, HeaderOk;
    NamesHold(s, l, k, NULL);
    LevelFacts(s, l, NULL);
    UnlinkFrame(s.orders, Slots(s, l), k);
    var s2, p := Unlinked(s, l, k), Slots(s, l)[k];
    MinusOne(UnlinkNode(s.orders, p), p);
    SameSize(UnlinkNode(s.orders, p), s.orders);
    SameSize(s2.levels, s.levels);
  }

  /** A local change counts where it happens. */
  lemma LocalCount(s: Store, s2: Store, l: Ptr, hole: Ptr)
    requires LevelsOk(s, hole) && PlacedOk(s) && EntriesOk(s) && Local(s, s2, l)
    ensures OrderCount(Abs(s2)) == OrderCount(Abs(s)) - |Slots(s, l)| + |Slots(s2, l)|
    ensures s2.bids == s.bids && s2.asks == s.asks
  {
    hide LevelsOk, PlacedOk, EntriesOk, Local, AbsLevels, Slots, Pos;
    LocalFacts(s, s2, l);
    LocalAbs(s, s2, l, hole);
    CountUpdate(Levels(Abs(s), SideOf(s, l)), Pos(s, l), Level(s.levels[l].price, OrdersAt(s2.orders, Slots(s2, l))));
  }

  lemma LocalFacts(s: Store, s2: Store, l: Ptr)
    requires Local(s, s2, l)
    ensures l in s.levels && s2.bids == s.bids && s2.asks == s.asks
  {
  }

  lemma UnlinkedCounts(s: Store, l: Ptr, k: nat)
    requires Inv(s) && l in s.levels && k < |Slots(s, l)|
    ensures Names(s, l, k) && CountsOk(Unlinked(s, l, k))
    ensures |Unlinked(s, l, k).orders| == |s.orders| - 1
  {
    Unsealed(s);
    hide Inv, LevelsOk, PlacedOk, IndexOk, EntriesOk, Local, Abs;
    UnlinkedLocal(s, l, k);
    UnlinkedSize(s, l, k);
    LocalCount(s, Unlinked(s, l, k), l, NULL);
  }

  lemma UnlinkedInv(s: Store, l: Ptr, k: nat)
    requires Inv(s) && l in s.levels && k < |Slots(s, l)|
    ensures Names(s, l, k) && InvExcept(Unlinked(s, l, k), l)
  {
    assert Opened(0);
    UnlinkedLocal(s, l, k);
    UnlinkedLevels(s, l, k);
    UnlinkedPlaced(s, l, k);
    UnlinkedIndex(s, l, k);
    LocalEntries(s, Unlinked(s, l, k), l);
    UnlinkedCounts(s, l, k);
  }

  /** The abstract order disappears from its place. */
  lemma UnlinkedAbs(s: Store, l: Ptr, k: nat)
    requires Inv(s) && l in s.levels && k < |Slots(s, l)|
    ensures Names(s, l, k)
    ensures var side := SideOf(s, l);
            var levels := Levels(Abs(s), side);
            && Pos(s, l) < |levels|
            && levels[Pos(s, l)] == Level(s.levels[l].price, OrdersAt(s.orders, Slots(s, l)))
            && Abs(Unlinked(s, l, k)) == WithLevels(Abs(s), side, levels[
                  Pos(s, l) := Level(s.levels[l].price, RemoveAt(OrdersAt(s.orders, Slots(s, l)), k))])
  {
    assert Opened(0);
    UnlinkedLocal(s, l, k);
    UnlinkedOrders(s, l, k);
    LocalAbs(s, Unlinked(s, l, k), l, NULL);
  }

  // ---------- Changing a quantity ----------

  /** The k-th order of level l gets quantity q; the level's total follows. */
  function Requantified(s: Store, l: Ptr, k: nat, q: uint32): Store
    requires Names(s, l, k) && q <= s.orders[Slots(s, l)[k]].order.qty
  {
    var p := Slots(s, l)[k];
    var o := s.orders[p].order;
    s.(orders := s.orders[p := s.orders[p].(order := o.(qty := q))],
       levels := s.levels[l := s.levels[l].(totalQty := s.levels[l].totalQty - (o.qty - q))])
  }

  lemma RequantifiedNode(s: Store, l: Ptr, k: nat, q: uint32, i: nat)
    requires Linked(s.orders, Slots(s, l)) && i < |Slots(s, l)|
    requires Names(s, l, k) && q <= s.orders[Slots(s, l)[k]].order.qty
    ensures LinkedAt(Requantified(s, l, k, q).orders, Slots(s, l), i)
    ensures OrderAt(Requantified(s, l, k, q).orders, Slots(s, l)[i]) ==
            if i == k then s.orders[Slots(s, l)[k]].order.(qty := q) else OrderAt(s.orders, Slots(s, l)[i])
  {
    assert LinkedAt(s.orders, Slots(s, l), i);
  }

  lemma RequantifiedLinked(s: Store, l: Ptr, k: nat, q: uint32)
    requires LevelsOk(s, NULL) && l in s.levels && k < |Slots(s, l)|
    requires Names(s, l, k) && q <= s.orders[Slots(s, l)[k]].order.qty
    ensures Linked(Requantified(s, l, k, q).orders, Slots(s, l))
    ensures OrdersAt(Requantified(s, l, k, q).orders, Slots(s, l)) ==
            OrdersAt(s.orders, Slots(s, l))[k := s.orders[Slots(s, l)[k]].order.(qty := q)]
  {
    hide LevelsOk, HeaderOk, Requantified, LinkedAt, OrderAt, Slots;
    LevelFacts(s, l, NULL);
    forall i | 0 <= i < |Slots(s, l)|
      ensures LinkedAt(Requantified(s, l, k, q).orders, Slots(s, l), i)
      ensures OrderAt(Requantified(s, l, k, q).orders, Slots(s, l)[i]) ==
              if i == k then s.orders[Slots(s, l)[k]].order.(qty := q) else OrderAt(s.orders, Slots(s, l)[i])
    {
      RequantifiedNode(s, l, k, q, i);
    }
  }

  lemma RequantifiedLocal(s: Store, l: Ptr, k: nat, q: uint32)
    requires LevelsOk(s, NULL) && PlacedOk(s) && l in s.levels && k < |Slots(s, l)|
    requires Names(s, l, k) && q <= s.orders[Slots(s, l)[k]].order.qty
    ensures Local(s, Requantified(s, l, k, q), l)
  {
    assert s.lists == s.lists[l := s.lists[l]];
  }

  lemma RequantifiedPlaced(s: Store, l: Ptr, k: nat, q: uint32)
    requires LevelsOk(s, NULL) && PlacedOk(s) && l in s.levels && k < |Slots(s, l)|
    requires Names(s, l, k) && q <= s.orders[Slots(s, l)[k]].order.qty
    ensures PlacedOk(Requantified(s, l, k, q))
  {
    var s2 := Requantified(s, l, k, q);
    RequantifiedLocal(s, l, k, q);
    forall i {:trigger PlacedAt(s2, l, i)} | 0 <= i < |Slots(s2, l)|
      ensures PlacedAt(s2, l, i)
    {
      assert PlacedAt(s, l, i);
    }
    LocalPlacedAll(s, s2, l);
  }

  lemma RequantifiedIndex(s: Store, l: Ptr, k: nat, q: uint32)
    requires LevelsOk(s, NULL) && PlacedOk(s) && IndexOk(s) && l in s.levels && k < |Slots(s, l)|
    requires Names(s, l, k) && q <= s.orders[Slots(s, l)[k]].order.qty
    ensures IndexOk(Requantified(s, l, k, q))
  {
    var s2 := Requantified(s, l, k, q);
    forall id {:trigger IndexedAt(s2, id)} | id in s2.index
      ensures IndexedAt(s2, id)
    {
      assert IndexedAt(s, id);
    }
    forall p {:trigger OwnedAt(s2, p)} | p in s2.orders
      ensures OwnedAt(s2, p)
    {
      assert OwnedAt(s, p);
    }
  }

  lemma RequantifiedLevels(s: Store, l: Ptr, k: nat, q: uint32)
    requires LevelsOk(s, NULL) && PlacedOk(s) && l in s.levels && k < |Slots(s, l)|
    requires Names(s, l, k) && q <= s.orders[Slots(s, l)[k]].order.qty
    ensures LevelsOk(Requantified(s, l, k, q), NULL)
  {
    var s2 := Requantified(s, l, k, q);
    RequantifiedLinked(s, l, k, q);
    RequantifiedLocal(s, l, k, q);
    TotalUpdate(OrdersAt(s.orders, Slots(s, l)), k, s2.orders[Slots(s, l)[k]].order);
    assert HeaderOk(s2, l) && Slots(s2, l) != [] by {
      assert LevelOkAt(s, l, NULL);
    }
    LocalLevels(s, s2, l, NULL, NULL);
  }

  lemma RequantifiedInv(s: Store, l: Ptr, k: nat, q: uint32)
    requires Inv(s) && l in s.levels && k < |Slots(s, l)| && q <= OrderAt(s.orders, Slots(s, l)[k]).qty
    ensures Names(s, l, k) && Inv(Requantified(s, l, k, q))
  {
    assert Opened(0);
    NamesHold(s, l, k, NULL);
    RequantifiedLocal(s, l, k, q);
    RequantifiedLevels(s, l, k, q);
    RequantifiedPlaced(s, l, k, q);
    RequantifiedIndex(s, l, k, q);
    LocalEntries(s, Requantified(s, l, k, q), l);
    RequantifiedCounts(s, l, k, q);
  }

  lemma RequantifiedCounts(s: Store, l: Ptr, k: nat, q: uint32)
    requires Inv(s) && l in s.levels && k < |Slots(s, l)|
    requires Names(s, l, k) && q <= s.orders[Slots(s, l)[k]].order.qty
    ensures CountsOk(Requantified(s, l, k, q))
  {
    Unsealed(s);
    hide Inv, LevelsOk, PlacedOk, IndexOk, EntriesOk, Local, Abs;
    var s2 := Requantified(s, l, k, q);
    RequantifiedLocal(s, l, k, q);
    LocalCount(s, s2, l, NULL);
    SameSize(s2.orders, s.orders);
    SameSize(s2.levels, s.levels);
  }

  /** The abstract order changes in place. */
  lemma RequantifiedAbs(s: Store, l: Ptr, k: nat, q: uint32)
    requires Inv(s) && l in s.levels && k < |Slots(s, l)| && q <= OrderAt(s.orders, Slots(s, l)[k]).qty
    ensures Names(s, l, k)
    ensures var side := SideOf(s, l);
            var levels := Levels(Abs(s), side);
            && Pos(s, l) < |levels|
            && levels[Pos(s, l)] == Level(s.levels[l].price, OrdersAt(s.orders, Slots(s, l)))
            && Abs(Requantified(s, l, k, q)) == WithLevels(Abs(s), side, levels[
                  Pos(s, l) := Level(s.levels[l].price, levels[Pos(s, l)].orders[
                    k := levels[Pos(s, l)].orders[k].(qty := q)])])
  {
    assert Opened(0);
    NamesHold(s, l, k, NULL);
    RequantifiedLinked(s, l, k, q);
    RequantifiedLocal(s, l, k, q);
    LocalAbs(s, Requantified(s, l, k, q), l, NULL);
  }

  // ---------- Appending an order ----------

  function AppendHeader(lv: LevelNode, p: Ptr, o: Order): LevelNode
    requires lv.totalQty + o.qty < U64_LIMIT && lv.orderCount + 1 < U32_LIMIT
  {
    LevelNode(lv.price, lv.totalQty + o.qty, lv.orderCount + 1, if lv.tail == NULL then p else lv.head, p)
  }

  /** p is a fresh slot for o, which belongs at level l and whose id is new. */
  ghost predicate Appendable(s: Store, l: Ptr, p: Ptr, o: Order) {
    && l in s.levels && l in s.lists
    && (s.levels[l].tail == NULL || s.levels[l].tail in s.orders)
    && p != NULL && p !in s.orders
    && o.orderId !in s.index
    && o.price == s.levels[l].price && o.side == SideOf(s, l)
    && |s.orders| < ORDER_POOL_SIZE
    && s.levels[l].totalQty + o.qty < U64_LIMIT && s.levels[l].orderCount + 1 < U32_LIMIT
  }

  /** append_to_level and the entry in the id index. */
  function Appended(s: Store, l: Ptr, p: Ptr, o: Order): Store
    requires Appendable(s, l, p, o)
  {
    s.(orders := AppendNode(s.orders, s.levels[l].tail, p, o),
       levels := s.levels[l := AppendHeader(s.levels[l], p, o)],
       index := s.index[o.orderId := IndexEntry(p, l)],
       lists := s.lists[l := Fifo(s.lists[l].side, Slots(s, l) + [p])])
  }

  /** The counters of a level cannot wrap while its orders fit the pool. */
  lemma AppendableHolds(s: Store, l: Ptr, p: Ptr, o: Order, hole: Ptr)
    requires LevelsOk(s, hole) && CountsOk(s) && l in s.levels && p != NULL && p !in s.orders
    requires o.orderId !in s.index && |s.orders| < ORDER_POOL_SIZE
    requires o.price == s.levels[l].price && o.side == SideOf(s, l)
    ensures Appendable(s, l, p, o)
  {
    FewerThanLive(s, l, hole);
    hide LevelsOk, CountsOk, TotalQty, OrdersAt;
    LevelFacts(s, l, hole);
    var f, lv := Slots(s, l), s.levels[l];
    TotalBound(OrdersAt(s.orders, f));
    CapacityFits(|f|, lv.totalQty, o.qty);
    if f != [] {
      assert LinkedAt(s.orders, f, |f| - 1);
    }
  }

  lemma FewerThanLive(s: Store, l: Ptr, hole: Ptr)
    requires LevelsOk(s, hole) && CountsOk(s) && l in s.levels
    ensures |Slots(s, l)| <= |s.orders|
  {
    PosOfLevel(s, l, hole);
    CountMember(Levels(Abs(s), SideOf(s, l)), Pos(s, l));
  }

  lemma CapacityFits(n: nat, total: nat, q: uint32)
    requires n < ORDER_POOL_SIZE && total <= n * 0xFFFF_FFFF
    ensures total + q < U64_LIMIT && n + 1 < U32_LIMIT
  {
  }

  lemma AppendedLocal(s: Store, l: Ptr, p: Ptr, o: Order, hole: Ptr)
    requires LevelsOk(s, hole) && PlacedOk(s) && Appendable(s, l, p, o)
    ensures Local(s, Appended(s, l, p, o), l)
  {
    hide LevelsOk;
    LevelFacts(s, l, hole);
    AppendFrame(s.orders, Slots(s, l), p, o);
  }

  lemma AppendedNodes(s: Store, l: Ptr, p: Ptr, o: Order, hole: Ptr)
    requires LevelsOk(s, hole) && Appendable(s, l, p, o)
    ensures var after := Appended(s, l, p, o).orders;
            && p in after && after[p].order == o
            && (forall q :: q in s.orders ==> q in after && after[q].order == s.orders[q].order)
  {
    hide LevelsOk, Linked, AppendNode, TotalQty, OrdersAt;
    LevelFacts(s, l, hole);
    AppendFrame(s.orders, Slots(s, l), p, o);
  }

  lemma AppendedFacts(s: Store, l: Ptr, p: Ptr, o: Order, hole: Ptr)
    requires LevelsOk(s, hole) && Appendable(s, l, p, o)
    ensures var s2 := Appended(s, l, p, o);
            && l in s2.levels && s2.levels[l].price == s.levels[l].price
            && Slots(s2, l) == Slots(s, l) + [p] && SideOf(s2, l) == SideOf(s, l)
            && s2.index == s.index[o.orderId := IndexEntry(p, l)]
            && p in s2.orders && s2.orders[p].order == o
            && (forall q :: q in s.orders ==> q in s2.orders && s2.orders[q].order == s.orders[q].order)
            && s2.levels.Keys == s.levels.Keys && (forall m :: m != l ==> Slots(s2, m) == Slots(s, m))
  {
    hide LevelsOk, Linked, AppendNode, TotalQty, OrdersAt;
    AppendedNodes(s, l, p, o, hole);
  }

  lemma AppendedOrders(s: Store, l: Ptr, p: Ptr, o: Order, hole: Ptr)
    requires LevelsOk(s, hole) && Appendable(s, l, p, o)
    ensures OrdersAt(Appended(s, l, p, o).orders, Slots(s, l) + [p]) == OrdersAt(s.orders, Slots(s, l)) + [o]
  {
    var f, g, after := Slots(s, l), Slots(s, l) + [p], Appended(s, l, p, o).orders;
    hide LevelsOk, Appended, Appendable, HeaderOk;
    LevelFacts(s, l, hole);
    AppendedFacts(s, l, p, o, hole);
    forall i | 0 <= i < |g|
      ensures OrderAt(after, g[i]) == if i < |f| then OrderAt(s.orders, f[i]) else o
    {
      if i < |f| {
        assert LinkedAt(s.orders, f, i);
      }
    }
  }

  lemma AppendedLevels(s: Store, l: Ptr, p: Ptr, o: Order, hole: Ptr)
    requires LevelsOk(s, hole) && PlacedOk(s) && Appendable(s, l, p, o) && (hole == NULL || hole == l)
    ensures LevelsOk(Appended(s, l, p, o), NULL)
  {
    AppendedLocal(s, l, p, o, hole);
    AppendedOrders(s, l, p, o, hole);
    assert LevelOkAt(s, l, hole);
    AppendLinked(s.orders, Slots(s, l), p, o);
    TotalConcat(OrdersAt(s.orders, Slots(s, l)), [o]);
    LocalLevels(s, Appended(s, l, p, o), l, hole, NULL);
  }

  lemma AppendedPlacedAt(s: Store, l: Ptr, p: Ptr, o: Order, hole: Ptr, i: nat)
    requires LevelsOk(s, hole) && PlacedOk(s) && Appendable(s, l, p, o) && i < |Slots(Appended(s, l, p, o), l)|
    ensures PlacedAt(Appended(s, l, p, o), l, i)
  {
    hide LevelsOk, Appended, Slots;
    AppendedFacts(s, l, p, o, hole);
    if i < |Slots(s, l)| {
      assert PlacedAt(s, l, i);
    }
  }

  lemma AppendedPlaced(s: Store, l: Ptr, p: Ptr, o: Order, hole: Ptr)
    requires LevelsOk(s, hole) && PlacedOk(s) && Appendable(s, l, p, o)
    ensures PlacedOk(Appended(s, l, p, o))
  {
    AppendedLocal(s, l, p, o, hole);
    var s2 := Appended(s, l, p, o);
    forall i {:trigger PlacedAt(s2, l, i)} | 0 <= i < |Slots(s2, l)|
      ensures PlacedAt(s2, l, i)
    {
      AppendedPlacedAt(s, l, p, o, hole, i);
    }
    LocalPlacedAll(s, s2, l);
  }

  lemma AppendedIndex(s: Store, l: Ptr, p: Ptr, o: Order, hole: Ptr)
    requires LevelsOk(s, hole) && IndexOk(s) && Appendable(s, l, p, o)
    ensures IndexOk(Appended(s, l, p, o))
  {
    assert LevelOkAt(s, l, hole);
    AppendFrame(s.orders, Slots(s, l), p, o);
    var s2 := Appended(s, l, p, o);
    forall id {:trigger IndexedAt(s2, id)} | id in s2.index
      ensures IndexedAt(s2, id)
    {
      if id == o.orderId {
        assert Slots(s2, l)[|Slots(s, l)|] == p;
      } else {
        AppendedIndexedAt(s, l, p, o, id, hole);
      }
    }
    forall q {:trigger OwnedAt(s2, q)} | q in s2.orders
      ensures OwnedAt(s2, q)
    {
      if q != p {
        assert OwnedAt(s, q);
      }
    }
  }

  lemma AppendedIndexedAt(s: Store, l: Ptr, p: Ptr, o: Order, id: uint64, hole: Ptr)
    requires LevelsOk(s, hole) && IndexOk(s) && Appendable(s, l, p, o) && id in s.index
    ensures IndexedAt(Appended(s, l, p, o), id)
  {
    assert IndexedAt(s, id);
    var e := s.index[id];
    var j :| 0 <= j < |Slots(s, e.level)| && Slots(s, e.level)[j] == e.order;
    assert e.order in s.orders by {
      LevelFacts(s, e.level, hole);
      assert LinkedAt(s.orders, Slots(s, e.level), j);
    }
    hide LevelsOk, IndexOk, Appended, Appendable;
    AppendedFacts(s, l, p, o, hole);
    assert Slots(Appended(s, l, p, o), e.level)[j] == e.order;
  }

  lemma AppendedSize(s: Store, l: Ptr, p: Ptr, o: Order, hole: Ptr)
    requires LevelsOk(s, hole) && Appendable(s, l, p, o)
    ensures |Appended(s, l, p, o).orders| == |s.orders| + 1
    ensures |Appended(s, l, p, o).levels| == |s.levels|
  {
    hide LevelsOk;
    LevelFacts(s, l, hole);
    AppendFrame(s.orders, Slots(s, l), p, o);
    var s2 := Appended(s, l, p, o);
    MinusOne(s2.orders, p);
    SameSize(s2.orders - {p}, s.orders);
    SameSize(s2.levels, s.levels);
  }

  lemma AppendedCounts(s: Store, l: Ptr, p: Ptr, o: Order, hole: Ptr)
    requires InvExcept(s, hole) && Appendable(s, l, p, o)
    ensures CountsOk(Appended(s, l, p, o))
  {
    hide LevelsOk, PlacedOk, IndexOk, EntriesOk, Local, Abs;
    AppendedLocal(s, l, p, o, hole);
    AppendedSize(s, l, p, o, hole);
    LocalCount(s, Appended(s, l, p, o), l, hole);
  }

  lemma AppendedInv(s: Store, l: Ptr, p: Ptr, o: Order, hole: Ptr)
    requires InvExcept(s, hole) && Appendable(s, l, p, o) && (hole == NULL || hole == l)
    ensures Inv(Appended(s, l, p, o))
  {
    assert Opened(0);
    AppendedLevels(s, l, p, o, hole);
    AppendedPlaced(s, l, p, o, hole);
    AppendedIndex(s, l, p, o, hole);
    AppendedLocal(s, l, p, o, hole);
    LocalEntries(s, Appended(s, l, p, o), l);
    AppendedCounts(s, l, p, o, hole);
  }

  /** The abstract order joins the end of its level's queue. */
  lemma AppendedAbs(s: Store, l: Ptr, p: Ptr, o: Order, hole: Ptr)
    requires InvExcept(s, hole) && Appendable(s, l, p, o)
    ensures var side := SideOf(s, l);
            var levels := Levels(Abs(s), side);
            && Pos(s, l) < |levels|
            && Abs(Appended(s, l, p, o)) == WithLevels(Abs(s), side, levels[
                  Pos(s, l) := Level(s.levels[l].price, levels[Pos(s, l)].orders + [o])])
  {
    AppendedLocal(s, l, p, o, hole);
    AppendedOrders(s, l, p, o, hole);
    LocalAbs(s, Appended(s, l, p, o), l, hole);
  }
}
