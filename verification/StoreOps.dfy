/** Whole operations of order_book.hpp on the store, and the proof that each means the abstract book's operation. */
module StoreOps {
  import opened Types
  import opened Pools
  import opened LinkedFifo
  import opened Book
  import opened BookLemmas
  import opened BookStore
  import opened StoreSteps
  import opened StoreLevels

  function IndexOf(f: seq<Ptr>, p: Ptr): (k: nat)
    requires p in f
    ensures k < |f| && f[k] == p
  {
    if f[0] == p then 0 else 1 + IndexOf(f[1..], p)
  }

  /** cancel_order past the lookup: the k-th order of l goes, and l with it when it was the last. */
  function Removed(s: Store, l: Ptr, k: nat): Store
    requires Inv(s) && l in s.levels && k < |Slots(s, l)|
  {
    UnlinkedInv(s, l, k);
    var s2 := Unlinked(s, l, k);
    if Slots(s2, l) == [] then
      ErasedInv(s2, l);
      Erased(s2, l)
    else s2
  }

  lemma HoleFilled(s: Store, l: Ptr)
    requires InvExcept(s, l) && Slots(s, l) != []
    ensures Inv(s)
  {
    assert Opened(0);
    forall m {:trigger LevelOkAt(s, m, NULL)} | m in s.levels
      ensures LevelOkAt(s, m, NULL)
    {
      assert LevelOkAt(s, m, l);
    }
  }

  lemma RemovedInv(s: Store, l: Ptr, k: nat)
    requires Inv(s) && l in s.levels && k < |Slots(s, l)|
    ensures Inv(Removed(s, l, k))
  {
    assert Opened(0);
    UnlinkedInv(s, l, k);
    var s2 := Unlinked(s, l, k);
    if Slots(s2, l) == [] {
      ErasedInv(s2, l);
    } else {
      HoleFilled(s2, l);
    }
  }

  /** What a removal leaves of the concrete structures. */
  lemma RemovedShape(s: Store, l: Ptr, k: nat)
    requires Inv(s) && l in s.levels && k < |Slots(s, l)|
    ensures var side, s2 := SideOf(s, l), Removed(s, l, k);
            && Entries(s2, Other(side)) == Entries(s, Other(side))
            && Pos(s, l) < |Entries(s, side)|
            && (|Slots(s, l)| == 1 ==> Entries(s2, side) == RemoveAt(Entries(s, side), Pos(s, l)) && l !in s2.levels)
            && (|Slots(s, l)| > 1 ==> Entries(s2, side) == Entries(s, side) && l in s2.levels && SideOf(s2, l) == side
                                      && Slots(s2, l) == RemoveAt(Slots(s, l), k))
  {
    assert Opened(0);
    UnlinkedLocal(s, l, k);
    PosOfLevel(s, l, NULL);
    UnlinkedInv(s, l, k);
    var s2 := Unlinked(s, l, k);
    if Slots(s2, l) == [] {
      ErasedInv(s2, l);
    }
  }

  lemma EraseAfterUnlink(s: Store, l: Ptr, k: nat)
    requires Inv(s) && l in s.levels && |Slots(s, l)| == 1 && k == 0
    ensures Names(s, l, k) && InvExcept(Unlinked(s, l, k), l)
    ensures var s2 := Unlinked(s, l, k); l in s2.levels && Pos(s2, l) < |Entries(s2, SideOf(s2, l))|
    ensures Removed(s, l, k) == Erased(Unlinked(s, l, k), l)
    ensures var side, b := SideOf(s, l), Abs(Unlinked(s, l, k));
            && Pos(s, l) < |Levels(b, side)|
            && Levels(Abs(Removed(s, l, k)), side) == RemoveAt(Levels(b, side), Pos(s, l))
            && Levels(Abs(Removed(s, l, k)), Other(side)) == Levels(b, Other(side))
  {
    assert Opened(0);
    UnlinkedLocal(s, l, k);
    UnlinkedInv(s, l, k);
    ErasedInv(Unlinked(s, l, k), l);
    ErasedAbs(Unlinked(s, l, k), l);
  }

  lemma RemovedIs(s: Store, l: Ptr, k: nat)
    requires Inv(s) && l in s.levels && k < |Slots(s, l)|
    ensures Names(s, l, k)
    ensures |Slots(s, l)| > 1 ==> Removed(s, l, k) == Unlinked(s, l, k)
  {
    hide Inv, InvExcept;
    UnlinkedInv(s, l, k);
  }

  lemma RemovedAbs(s: Store, l: Ptr, k: nat)
    requires Inv(s) && l in s.levels && k < |Slots(s, l)|
    ensures var side := SideOf(s, l);
            var levels := Levels(Abs(s), side);
            && Pos(s, l) < |levels|
            && levels[Pos(s, l)] == Level(s.levels[l].price, OrdersAt(s.orders, Slots(s, l)))
            && Levels(Abs(Removed(s, l, k)), side) ==
               SetLevel(levels, Pos(s, l), RemoveAt(levels[Pos(s, l)].orders, k))
            && Levels(Abs(Removed(s, l, k)), Other(side)) == Levels(Abs(s), Other(side))
  {
    hide Inv, Abs, Unlinked, Removed, Pos;
    UnlinkedAbs(s, l, k);
    RemovedIs(s, l, k);
    var levels, at := Levels(Abs(s), SideOf(s, l)), Pos(s, l);
    if |Slots(s, l)| == 1 {
      EraseAfterUnlink(s, l, k);
      var left := Level(s.levels[l].price, RemoveAt(levels[at].orders, k));
      assert RemoveAt(levels[at := left], at) == RemoveAt(levels, at);
    }
  }

  // ---------- Ids ----------

  /** id names the k-th order of level i and no other. */
  ghost predicate OnlyAt(levels: seq<Level>, id: uint64, i: nat, k: nat) {
    && i < |levels| && k < |levels[i].orders|
    && levels[i].orders[k].orderId == id
    && (forall j :: 0 <= j < |levels[i].orders| && j != k ==> levels[i].orders[j].orderId != id)
    && (forall n :: 0 <= n < |levels| && n != i ==> NoId(levels[n].orders, id))
  }

  lemma {:induction false} WithoutOne(orders: seq<Order>, id: uint64, k: nat)
    requires k < |orders| && orders[k].orderId == id
    requires forall j :: 0 <= j < |orders| && j != k ==> orders[j].orderId != id
    ensures Without(orders, id) == RemoveAt(orders, k)
    ensures FindOrder(orders, id) == Some(orders[k])
    ensures forall q :: Requantify(orders, id, q) == orders[k := orders[k].(qty := q)]
  {
    if k == 0 {
      WithoutNone(orders[1..], id);
    } else {
      WithoutOne(orders[1..], id, k - 1);
      assert RemoveAt(orders, k) == [orders[0]] + RemoveAt(orders[1..], k - 1);
    }
  }

  lemma SetLevelTail(levels: seq<Level>, i: nat, orders: seq<Order>)
    requires 0 < i < |levels|
    ensures SetLevel(levels, i, orders) == [levels[0]] + SetLevel(levels[1..], i - 1, orders)
  {
  }

  lemma OnlyAtTail(levels: seq<Level>, id: uint64, i: nat, k: nat)
    requires OnlyAt(levels, id, i, k)
    ensures i == 0 ==> Nowhere(levels[1..], id)
    ensures i > 0 ==> NoId(levels[0].orders, id) && OnlyAt(levels[1..], id, i - 1, k)
  {
    assert i > 0 ==> levels[1..][i - 1] == levels[i];
  }

  lemma {:induction false} CancelAt(levels: seq<Level>, id: uint64, i: nat, k: nat)
    requires OnlyAt(levels, id, i, k) && forall n :: 0 <= n < |levels| ==> levels[n].orders != []
    ensures CancelLevels(levels, id) == SetLevel(levels, i, RemoveAt(levels[i].orders, k))
  {
    OnlyAtTail(levels, id, i, k);
    var left := RemoveAt(levels[i].orders, k);
    if i == 0 {
      WithoutOne(levels[0].orders, id, k);
      CancelNowhere(levels[1..], id);
      if left == [] {
        assert RemoveAt(levels, 0) == levels[1..];
      } else {
        assert levels[0 := Level(levels[0].price, left)] == [Level(levels[0].price, left)] + levels[1..];
      }
    } else {
      WithoutNone(levels[0].orders, id);
      CancelAt(levels[1..], id, i - 1, k);
      SetLevelTail(levels, i, left);
    }
  }

  /** Cancelling an id that names one order of the book removes that order. */
  lemma CancelInBook(b: Book, side: Side, id: uint64, i: nat, k: nat)
    requires OnlyAt(Levels(b, side), id, i, k) && Nowhere(Levels(b, Other(side)), id)
    requires forall n :: 0 <= n < |b.bids| ==> b.bids[n].orders != []
    requires forall n :: 0 <= n < |b.asks| ==> b.asks[n].orders != []
    ensures Cancel(b, id) == WithLevels(b, side, SetLevel(Levels(b, side), i, RemoveAt(Levels(b, side)[i].orders, k)))
  {
    CancelAt(Levels(b, side), id, i, k);
    CancelNowhere(Levels(b, Other(side)), id);
  }

  lemma OnlyAtLevel(levels: seq<Level>, id: uint64, i: nat, k: nat)
    requires OnlyAt(levels, id, i, k)
    ensures k < |levels[i].orders| && levels[i].orders[k].orderId == id
    ensures forall j :: 0 <= j < |levels[i].orders| && j != k ==> levels[i].orders[j].orderId != id
  {
  }

  lemma {:induction false} FindAt(levels: seq<Level>, id: uint64, i: nat, k: nat)
    requires OnlyAt(levels, id, i, k) && forall n :: 0 <= n < |levels| ==> levels[n].orders != []
    ensures i < |levels| && k < |levels[i].orders|
    ensures FindLevels(levels, id) == Some(levels[i].orders[k])
    ensures forall q :: RequantifyLevels(levels, id, q) ==
              levels[i := Level(levels[i].price, levels[i].orders[k := levels[i].orders[k].(qty := q)])]
  {
    OnlyAtTail(levels, id, i, k);
    OnlyAtLevel(levels, id, i, k);
    hide OnlyAt, FindOrder, Requantify, Nowhere, NoId;
    if i == 0 {
      WithoutOne(levels[0].orders, id, k);
      CancelNowhere(levels[1..], id);
    } else {
      WithoutNone(levels[0].orders, id);
      FindAt(levels[1..], id, i - 1, k);
    }
  }

  // ---------- The index and the abstract book ----------

  lemma AbsNonEmpty(s: Store, side: Side)
    requires Inv(s)
    ensures forall n :: 0 <= n < |Entries(s, side)| ==> AbsLevels(s, Entries(s, side))[n].orders != []
  {
    assert Opened(0);
    forall n | 0 <= n < |Entries(s, side)|
      ensures Slots(s, Entries(s, side)[n].level) != []
    {
      assert EntryAt(s, side, n);
      assert LevelOkAt(s, Entries(s, side)[n].level, NULL);
    }
  }

  /** Whatever order the abstract book shows with this id is the one the index names. */
  lemma IdPlaced(s: Store, side: Side, n: nat, j: nat)
    requires Inv(s) && n < |Entries(s, side)| && j < |Slots(s, Entries(s, side)[n].level)|
    ensures var l := Entries(s, side)[n].level;
            var p := Slots(s, l)[j];
            && l in s.levels && SideOf(s, l) == side && Pos(s, l) == n
            && OrderAt(s.orders, p).orderId in s.index
            && s.index[OrderAt(s.orders, p).orderId] == IndexEntry(p, l)
  {
    assert Opened(0);
    assert EntryAt(s, side, n);
    PosOfEntry(s, side, n, NULL);
    assert PlacedAt(s, Entries(s, side)[n].level, j);
  }

  lemma UnknownOnSide(s: Store, id: uint64, side: Side)
    requires Inv(s) && id !in s.index
    ensures Nowhere(AbsLevels(s, Entries(s, side)), id)
  {
    assert Opened(0);
    var levels := AbsLevels(s, Entries(s, side));
    forall n, j | 0 <= n < |levels| && 0 <= j < |levels[n].orders|
      ensures levels[n].orders[j].orderId != id
    {
      IdPlaced(s, side, n, j);
    }
  }

  /** An id the index does not know is nowhere in the book. */
  lemma UnknownId(s: Store, id: uint64)
    requires Inv(s) && id !in s.index
    ensures Find(Abs(s), id).None? && Cancel(Abs(s), id) == Abs(s)
  {
    hide Inv, AbsLevels, CancelLevels, FindLevels;
    UnknownOnSide(s, id, BUY);
    UnknownOnSide(s, id, SELL);
    AbsNonEmpty(s, BUY);
    AbsNonEmpty(s, SELL);
    CancelNowhere(Abs(s).bids, id);
    CancelNowhere(Abs(s).asks, id);
  }

  /** The position in level and queue of an order the index knows. */
  lemma KnownPlace(s: Store, id: uint64)
    requires Inv(s) && id in s.index
    ensures var e := s.index[id];
            && e.level in s.levels && e.order in Slots(s, e.level) && e.order in s.orders
            && s.orders[e.order].order.orderId == id
  {
    assert Opened(0);
    assert IndexedAt(s, id);
    var e := s.index[id];
    assert PlacedAt(s, e.level, IndexOf(Slots(s, e.level), e.order));
  }

  lemma NotElsewhere(s: Store, id: uint64, side: Side, n: nat, j: nat)
    requires Inv(s) && id in s.index && n < |Entries(s, side)| && j < |Slots(s, Entries(s, side)[n].level)|
    requires var e := s.index[id];
             && e.level in s.levels && e.order in Slots(s, e.level) && Distinct(Slots(s, e.level))
             && (side != SideOf(s, e.level) || n != Pos(s, e.level) || j != IndexOf(Slots(s, e.level), e.order))
    ensures OrderAt(s.orders, Slots(s, Entries(s, side)[n].level)[j]).orderId != id
  {
    hide Inv, Pos;
    IdPlaced(s, side, n, j);
  }

  lemma KnownSlots(s: Store, id: uint64)
    requires Inv(s) && id in s.index
    ensures var e := s.index[id];
            && e.level in s.levels && e.order in Slots(s, e.level) && Distinct(Slots(s, e.level))
            && Pos(s, e.level) < |Entries(s, SideOf(s, e.level))|
            && Entries(s, SideOf(s, e.level))[Pos(s, e.level)].level == e.level
            && OrderAt(s.orders, e.order).orderId == id
  {
    KnownPlace(s, id);
    Unsealed(s);
    hide Inv, LevelsOk, PlacedOk, IndexOk, EntriesOk, CountsOk, Pos;
    PosOfLevel(s, s.index[id].level, NULL);
    LevelFacts(s, s.index[id].level, NULL);
  }

  lemma KnownOnSides(s: Store, id: uint64)
    requires Inv(s) && id in s.index
    ensures var e := s.index[id];
            && e.level in s.levels && e.order in Slots(s, e.level)
            && OnlyAt(AbsLevels(s, Entries(s, SideOf(s, e.level))), id, Pos(s, e.level), IndexOf(Slots(s, e.level), e.order))
            && Nowhere(AbsLevels(s, Entries(s, Other(SideOf(s, e.level)))), id)
  {
    hide Inv, Pos, IndexOf, OrderAt;
    KnownSlots(s, id);
    var l := s.index[id].level;
    var side, other, k := SideOf(s, l), Other(SideOf(s, l)), IndexOf(Slots(s, l), s.index[id].order);
    forall n, j | 0 <= n < |Entries(s, side)| && 0 <= j < |Slots(s, Entries(s, side)[n].level)|
      && !(n == Pos(s, l) && j == k)
      ensures OrderAt(s.orders, Slots(s, Entries(s, side)[n].level)[j]).orderId != id
    {
      NotElsewhere(s, id, side, n, j);
    }
    forall n, j | 0 <= n < |Entries(s, other)| && 0 <= j < |Slots(s, Entries(s, other)[n].level)|
      ensures OrderAt(s.orders, Slots(s, Entries(s, other)[n].level)[j]).orderId != id
    {
      NotElsewhere(s, id, other, n, j);
    }
  }

  lemma OrderShown(s: Store, l: Ptr, p: Ptr)
    requires LevelsOk(s, NULL) && l in s.levels && p in Slots(s, l)
    ensures var levels := AbsLevels(s, Entries(s, SideOf(s, l)));
            && Pos(s, l) < |levels| && IndexOf(Slots(s, l), p) < |levels[Pos(s, l)].orders|
            && levels[Pos(s, l)].orders[IndexOf(Slots(s, l), p)] == OrderAt(s.orders, p)
  {
    PosOfLevel(s, l, NULL);
  }

  lemma KnownShown(s: Store, id: uint64)
    requires Inv(s) && id in s.index
    ensures var e := s.index[id];
            && FindLevels(AbsLevels(s, Entries(s, SideOf(s, e.level))), id) == Some(OrderAt(s.orders, e.order))
            && FindLevels(AbsLevels(s, Entries(s, Other(SideOf(s, e.level)))), id) == None
  {
    var e := s.index[id];
    var side, other := SideOf(s, e.level), Other(SideOf(s, e.level));
    KnownOnSides(s, id);
    AbsNonEmpty(s, side);
    AbsNonEmpty(s, other);
    Unsealed(s);
    hide Inv, LevelsOk, PlacedOk, IndexOk, EntriesOk, CountsOk, OnlyAt, Nowhere, Pos;
    OrderShown(s, e.level, e.order);
    FindAt(AbsLevels(s, Entries(s, side)), id, Pos(s, e.level), IndexOf(Slots(s, e.level), e.order));
    CancelNowhere(AbsLevels(s, Entries(s, other)), id);
  }

  /** find_order: the index finds exactly the abstract order with that id. */
  lemma FindMeans(s: Store, id: uint64)
    requires Inv(s)
    ensures Find(Abs(s), id) ==
            if id in s.index then Some(OrderAt(s.orders, s.index[id].order)) else None
  {
    hide Inv, FindLevels, AbsLevels;
    if id in s.index {
      KnownShown(s, id);
    } else {
      UnknownId(s, id);
    }
  }

  /** cancel_order. */
  function Cancelled(s: Store, id: uint64): Store
    requires Inv(s)
  {
    if id in s.index then
      KnownPlace(s, id);
      Removed(s, s.index[id].level, IndexOf(Slots(s, s.index[id].level), s.index[id].order))
    else s
  }

  lemma CancelKnownMeans(s: Store, id: uint64)
    requires Inv(s) && id in s.index
    ensures Abs(Cancelled(s, id)) == Cancel(Abs(s), id)
  {
    hide Inv, Removed, OnlyAt, Nowhere, Pos;
    KnownOnSides(s, id);
    var l := s.index[id].level;
    var k := IndexOf(Slots(s, l), s.index[id].order);
    AbsNonEmpty(s, BUY);
    AbsNonEmpty(s, SELL);
    CancelInBook(Abs(s), SideOf(s, l), id, Pos(s, l), k);
    RemovedAbs(s, l, k);
  }

  lemma CancelMeans(s: Store, id: uint64)
    requires Inv(s)
    ensures Inv(Cancelled(s, id)) && Abs(Cancelled(s, id)) == Cancel(Abs(s), id)
  {
    assert Opened(0);
    if id in s.index {
      KnownPlace(s, id);
      RemovedInv(s, s.index[id].level, IndexOf(Slots(s, s.index[id].level), s.index[id].order));
      CancelKnownMeans(s, id);
    } else {
      UnknownId(s, id);
    }
  }

  /** replace_order_in_place with a quantity no larger than before. */
  lemma SetQtyMeans(s: Store, id: uint64, q: uint32)
    requires Inv(s) && id in s.index && q <= OrderAt(s.orders, s.index[id].order).qty
    ensures var e := s.index[id];
            && e.level in s.levels && e.order in Slots(s, e.level)
            && Names(s, e.level, IndexOf(Slots(s, e.level), e.order))
            && Inv(Requantified(s, e.level, IndexOf(Slots(s, e.level), e.order), q))
            && Abs(Requantified(s, e.level, IndexOf(Slots(s, e.level), e.order), q)) == SetQty(Abs(s), id, q)
  {
    hide Inv, Requantified, Nowhere, OnlyAt, Pos;
    KnownOnSides(s, id);
    KnownPlace(s, id);
    var e := s.index[id];
    var k, side, other := IndexOf(Slots(s, e.level), e.order), SideOf(s, e.level), Other(SideOf(s, e.level));
    RequantifiedInv(s, e.level, k, q);
    RequantifiedAbs(s, e.level, k, q);
    AbsNonEmpty(s, BUY);
    AbsNonEmpty(s, SELL);
    FindAt(Levels(Abs(s), side), id, Pos(s, e.level), k);
    CancelNowhere(Levels(Abs(s), other), id);
  }

  // ---------- Adding ----------

  lemma SamePrices(s: Store, side: Side)
    ensures Prices(Levels(Abs(s), side)) == EntryPrices(Entries(s, side))
  {
  }

  lemma LevelOfEntry(s: Store, side: Side, j: nat)
    requires Inv(s) && j < |Entries(s, side)|
    ensures var l := Entries(s, side)[j].level;
            && l != NULL && l in s.levels && SideOf(s, l) == side
            && s.levels[l].price == Entries(s, side)[j].price == Levels(Abs(s), side)[j].price
            && Pos(s, l) == j
  {
    assert Opened(0);
    assert EntryAt(s, side, j);
    PosOfEntry(s, side, j, NULL);
  }

  /** `price` is the price of the n-th level of the side: those ahead are better and those behind worse. */
  ghost predicate RankedAt(side: Side, levels: seq<Level>, n: nat, price: int64) {
    && n < |levels| && levels[n].price == price
    && (forall i :: 0 <= i < n ==> Better(side, levels[i].price, price))
    && (forall i :: n < i < |levels| ==> Better(side, price, levels[i].price))
  }

  lemma LevelRanked(s: Store, side: Side, j: nat)
    requires Inv(s) && j < |Entries(s, side)|
    ensures RankedAt(side, Levels(Abs(s), side), j, Entries(s, side)[j].price)
  {
    Unsealed(s);
    hide Inv, LevelsOk, PlacedOk, IndexOk, CountsOk;
    SamePrices(s, side);
    var prices := EntryPrices(Entries(s, side));
    assert SortedPrices(side, prices);
    forall i | 0 <= i < |prices|
      ensures Levels(Abs(s), side)[i].price == prices[i]
    {
      assert Prices(Levels(Abs(s), side))[i] == prices[i];
    }
  }

  lemma NextRanked(s: Store, side: Side, price: int64)
    requires Inv(s)
    ensures var entries, i := Entries(s, side), Place(side, Entries(s, side), price);
            forall n: nat :: RankedAt(side, Levels(Abs(s), side), n, price) ==>
              && n == i < |entries| && entries[i].price == price
              && (if i + 1 == |entries| then n + 1 == |Levels(Abs(s), side)|
                  else var l := entries[i + 1].level;
                       l != NULL && l in s.levels && RankedAt(side, Levels(Abs(s), side), n + 1, s.levels[l].price))
  {
    forall n: nat | RankedAt(side, Levels(Abs(s), side), n, price)
      ensures var entries, i := Entries(s, side), Place(side, Entries(s, side), price);
              && n == i < |entries| && entries[i].price == price
              && (if i + 1 == |entries| then n + 1 == |Levels(Abs(s), side)|
                  else var l := entries[i + 1].level;
                       l != NULL && l in s.levels && RankedAt(side, Levels(Abs(s), side), n + 1, s.levels[l].price))
    {
      NextRankedAt(s, side, price, n);
    }
  }

  lemma NextRankedAt(s: Store, side: Side, price: int64, n: nat)
    requires Inv(s) && RankedAt(side, Levels(Abs(s), side), n, price)
    ensures var entries, i := Entries(s, side), Place(side, Entries(s, side), price);
            && n == i < |entries| && entries[i].price == price
            && (if i + 1 == |entries| then n + 1 == |Levels(Abs(s), side)|
                else var l := entries[i + 1].level;
                     l != NULL && l in s.levels && RankedAt(side, Levels(Abs(s), side), n + 1, s.levels[l].price))
  {
    LevelOfEntry(s, side, n);
    if n + 1 < |Entries(s, side)| {
      LevelOfEntry(s, side, n + 1);
      LevelRanked(s, side, n + 1);
    }
  }

  /** Both pools can serve the order. */
  ghost predicate RoomFor(s: Store, o: Order) {
    && o.orderId !in s.index
    && |s.orders| < ORDER_POOL_SIZE
    && (LevelAt(o.side, Entries(s, o.side), o.price) != NULL || |s.levels| < LEVEL_POOL_SIZE)
  }

  lemma LevelAtMeans(s: Store, side: Side, price: int64)
    requires Inv(s)
    ensures HasLevel(side, Levels(Abs(s), side), price) <==> LevelAt(side, Entries(s, side), price) != NULL
    ensures LevelAt(side, Entries(s, side), price) != NULL ==>
              var l := LevelAt(side, Entries(s, side), price);
              l in s.levels && SideOf(s, l) == side && s.levels[l].price == price
              && Pos(s, l) == LowerBound(side, Prices(Levels(Abs(s), side)), price)
  {
    assert Opened(0);
    SamePrices(s, side);
    var i := Place(side, Entries(s, side), price);
    if i < |Entries(s, side)| {
      assert EntryAt(s, side, i);
    }
  }

  lemma RoomMeans(s: Store, o: Order)
    requires Inv(s)
    ensures RoomFor(s, o) <==> CanAdd(Abs(s), o)
  {
    assert Opened(0);
    FindMeans(s, o.orderId);
    LevelAtMeans(s, o.side, o.price);
  }

  /** add_order at a level that exists. */
  lemma AddToLevelMeans(s: Store, p: Ptr, o: Order)
    requires Inv(s) && RoomFor(s, o) && p != NULL && p !in s.orders
    requires LevelAt(o.side, Entries(s, o.side), o.price) != NULL
    ensures var l := LevelAt(o.side, Entries(s, o.side), o.price);
            && Appendable(s, l, p, o)
            && Inv(Appended(s, l, p, o))
            && Abs(Appended(s, l, p, o)) == Add(Abs(s), o)
  {
    assert Opened(0);
    LevelAtMeans(s, o.side, o.price);
    RoomMeans(s, o);
    var l := LevelAt(o.side, Entries(s, o.side), o.price);
    AppendableHolds(s, l, p, o, NULL);
    AppendedInv(s, l, p, o, NULL);
    AppendedAbs(s, l, p, o, NULL);
  }

  /** add_order at a new level. */
  lemma AddNewLevelInv(s: Store, p: Ptr, l: Ptr, o: Order)
    requires Inv(s) && RoomFor(s, o) && p != NULL && p !in s.orders
    requires Creatable(s, o.side, o.price, l)
    ensures var s2 := Created(s, o.side, o.price, l);
            && InvExcept(s2, l)
            && Appendable(s2, l, p, o)
            && Inv(Appended(s2, l, p, o))
  {
    assert Opened(0);
    var s2 := Created(s, o.side, o.price, l);
    CreatedInv(s, o.side, o.price, l);
    AppendableHolds(s2, l, p, o, l);
    AppendedInv(s2, l, p, o, l);
  }

  lemma CreatedAbs(s: Store, side: Side, price: int64, l: Ptr)
    requires Inv(s) && Creatable(s, side, price, l)
    ensures var s2, at := Created(s, side, price, l), Place(side, Entries(s, side), price);
            && at <= |Levels(Abs(s), side)|
            && Levels(Abs(s2), side) == InsertAt(Levels(Abs(s), side), at, Level(price, []))
            && Levels(Abs(s2), Other(side)) == Levels(Abs(s), Other(side))
            && l in s2.levels && s2.levels[l].price == price && SideOf(s2, l) == side && Pos(s2, l) == at
  {
    NewLevelPos(s, side, price, l);
    Unsealed(s);
    hide Inv, LevelsOk, PlacedOk, IndexOk, EntriesOk, CountsOk, AbsLevels, Pos;
    PutAbs(s, side, Place(side, Entries(s, side), price), price, l);
  }

  lemma AppendedAtNewLevel(s: Store, p: Ptr, l: Ptr, o: Order)
    requires Inv(s) && Creatable(s, o.side, o.price, l)
    requires InvExcept(Created(s, o.side, o.price, l), l) && Appendable(Created(s, o.side, o.price, l), l, p, o)
    ensures var b := Abs(Appended(Created(s, o.side, o.price, l), l, p, o));
            var at := Place(o.side, Entries(s, o.side), o.price);
            && at <= |Levels(Abs(s), o.side)|
            && Levels(b, o.side) == InsertAt(Levels(Abs(s), o.side), at, Level(o.price, []))[at := Level(o.price, [o])]
            && Levels(b, Other(o.side)) == Levels(Abs(s), Other(o.side))
  {
    hide Inv, InvExcept, Abs, Appended, Appendable, Created, Creatable, Pos, Place;
    var s2, at := Created(s, o.side, o.price, l), Place(o.side, Entries(s, o.side), o.price);
    CreatedAbs(s, o.side, o.price, l);
    AppendedAbs(s2, l, p, o, l);
    assert Levels(Abs(s2), o.side)[at] == Level(o.price, []);
    assert [] + [o] == [o];
  }

  lemma AddNewLevelMeans(s: Store, p: Ptr, l: Ptr, o: Order)
    requires Inv(s) && RoomFor(s, o) && p != NULL && p !in s.orders
    requires Creatable(s, o.side, o.price, l)
    ensures Appendable(Created(s, o.side, o.price, l), l, p, o)
    ensures Abs(Appended(Created(s, o.side, o.price, l), l, p, o)) == Add(Abs(s), o)
  {
    assert Opened(0);
    var at := Place(o.side, Entries(s, o.side), o.price);
    AddNewLevelInv(s, p, l, o);
    AppendedAtNewLevel(s, p, l, o);
    InsertThenSet(Levels(Abs(s), o.side), at, o);
    AddToNewLevel(s, o, at);
  }

  lemma InsertThenSet(levels: seq<Level>, at: nat, o: Order)
    requires at <= |levels|
    ensures InsertAt(levels, at, Level(o.price, []))[at := Level(o.price, [o])] ==
            InsertAt(levels, at, Level(o.price, [o]))
  {
  }

  lemma AddToNewLevel(s: Store, o: Order, at: nat)
    requires Inv(s) && RoomFor(s, o) && LevelAt(o.side, Entries(s, o.side), o.price) == NULL
    requires at == Place(o.side, Entries(s, o.side), o.price)
    ensures var levels := Levels(Abs(s), o.side);
            Add(Abs(s), o) == WithLevels(Abs(s), o.side, InsertAt(levels, at, Level(o.price, [o])))
  {
    assert Opened(0);
    LevelAtMeans(s, o.side, o.price);
    RoomMeans(s, o);
    SamePrices(s, o.side);
  }

  lemma NewLevelPos(s: Store, side: Side, price: int64, l: Ptr)
    requires Inv(s) && Creatable(s, side, price, l)
    ensures Pos(Created(s, side, price, l), l) == Place(side, Entries(s, side), price)
  {
    assert Opened(0);
    var at := Place(side, Entries(s, side), price);
    CreatedSorted(s, side, price, l);
    LevelAtUnique(side, Entries(Created(s, side, price, l), side), at);
  }

  /** add_order once both slots are in hand, at an old or a new level. */
  lemma AddMeans(s: Store, p: Ptr, l: Ptr, o: Order)
    requires Inv(s) && RoomFor(s, o) && p != NULL && p !in s.orders
    requires l == LevelAt(o.side, Entries(s, o.side), o.price) || Creatable(s, o.side, o.price, l)
    requires l != NULL
    ensures var s1 := if l in s.levels then s else Created(s, o.side, o.price, l);
            && Appendable(s1, l, p, o)
            && Inv(Appended(s1, l, p, o))
            && Abs(Appended(s1, l, p, o)) == Add(Abs(s), o)
            && p in Appended(s1, l, p, o).orders && Appended(s1, l, p, o).orders[p].order == o
  {
    assert Opened(0);
    LevelAtMeans(s, o.side, o.price);
    if l in s.levels {
      AddToLevelMeans(s, p, o);
    } else {
      AddNewLevelInv(s, p, l, o);
      AddNewLevelMeans(s, p, l, o);
    }
  }

  /** Writing the order into its slot before linking it makes no difference. */
  lemma AppendToFresh(nodes: Nodes, tail: Ptr, p: Ptr, o: Order)
    requires (tail == NULL || tail in nodes) && p !in nodes
    ensures AppendNode(nodes[p := OrderNode(o, NULL, NULL)], tail, p, o) == AppendNode(nodes, tail, p, o)
  {
  }

  /** Creating a level does not look at the orders. */
  lemma CreateBeside(s: Store, nodes: Nodes, side: Side, price: int64, l: Ptr)
    ensures Entries(s.(orders := nodes), side) == Entries(s, side)
    ensures Created(s.(orders := nodes), side, price, l) == Created(s, side, price, l).(orders := nodes)
    ensures Created(s, side, price, l).orders == s.orders
  {
  }

  lemma AddThenRemove(nodes: Nodes, p: Ptr, n: OrderNode)
    requires p !in nodes
    ensures nodes[p := n] - {p} == nodes
  {
  }

  /** What cancel_order relies on when it unlinks. */
  lemma UnlinkFacts(s: Store, l: Ptr, k: nat)
    requires Inv(s) && l in s.levels && k < |Slots(s, l)|
    ensures Names(s, l, k)
    ensures var n := s.orders[Slots(s, l)[k]]; n.prev != Slots(s, l)[k] && n.next != Slots(s, l)[k]
    ensures s.orders[Slots(s, l)[k]].order.side == SideOf(s, l)
    ensures Unlinked(s, l, k).levels[l].orderCount == |Slots(s, l)| - 1
    ensures Place(SideOf(s, l), Entries(s, SideOf(s, l)), s.levels[l].price) < |Entries(s, SideOf(s, l))|
    ensures Entries(s, SideOf(s, l))[Pos(s, l)].price == s.levels[l].price
  {
    assert Opened(0);
    NamesHold(s, l, k, NULL);
    PosOfLevel(s, l, NULL);
    assert LevelOkAt(s, l, NULL) && PlacedAt(s, l, k);
    assert LinkedAt(s.orders, Slots(s, l), k);
  }

  lemma SetQtyUnknown(s: Store, id: uint64, q: uint32)
    requires Inv(s) && id !in s.index
    ensures SetQty(Abs(s), id, q) == Abs(s)
  {
    hide Inv, AbsLevels, RequantifyLevels;
    UnknownOnSide(s, id, BUY);
    UnknownOnSide(s, id, SELL);
    AbsNonEmpty(s, BUY);
    AbsNonEmpty(s, SELL);
    CancelNowhere(Abs(s).bids, id);
    CancelNowhere(Abs(s).asks, id);
  }

  // ---------- Accounting ----------

  function IdsOf(s: Store, slots: set<Ptr>): set<uint64>
    requires slots <= s.orders.Keys
  {
    set p | p in slots :: s.orders[p].order.orderId
  }

  lemma {:induction false} IdsAreDistinct(s: Store, slots: set<Ptr>)
    requires IndexOk(s) && slots <= s.orders.Keys
    ensures |IdsOf(s, slots)| == |slots|
  {
    if slots == {} {
      assert IdsOf(s, slots) == {};
    } else {
      var p := SomeElement(slots);
      IdsAreDistinct(s, slots - {p});
      var id := s.orders[p].order.orderId;
      forall q | q in slots && q != p
        ensures s.orders[q].order.orderId != id
      {
        assert OwnedAt(s, p) && OwnedAt(s, q);
      }
      assert IdsOf(s, slots) == IdsOf(s, slots - {p}) + {id};
    }
  }

  /** Live orders are as many as the index has ids and as the abstract book has orders; live levels are as many as the
      two price maps have prices. */
  lemma LiveCounts(s: Store)
    requires Inv(s)
    ensures |s.orders| == |s.index| == OrderCount(Abs(s))
    ensures |s.levels| == |s.bids| + |s.asks| == LevelCount(Abs(s))
  {
    assert Opened(0);
    IdsAreDistinct(s, s.orders.Keys);
    forall id
      ensures id in s.index <==> id in IdsOf(s, s.orders.Keys)
    {
      if id in s.index {
        assert IndexedAt(s, id);
        var e := s.index[id];
        var i := IndexOf(Slots(s, e.level), e.order);
        assert PlacedAt(s, e.level, i);
      }
      if id in IdsOf(s, s.orders.Keys) {
        var p :| p in s.orders && s.orders[p].order.orderId == id;
        assert OwnedAt(s, p);
      }
    }
    assert s.index.Keys == IdsOf(s, s.orders.Keys);
    assert |s.orders.Keys| == |s.orders| && |s.index.Keys| == |s.index|;
  }
}
