/** include/hydra/order_book.hpp: the resting-order state machine over two pools. Every method states its new memory
    as a function of the old one (StoreSteps, StoreLevels, StoreOps) and what that means for the abstract book. */
module OrderBooks {
  import opened Types
  import opened Pools
  import opened LinkedFifo
  import opened Book
  import opened BookStore
  import opened StoreSteps
  import opened StoreLevels
  import opened StoreOps

  class OrderBook {
    const orderPool: ObjectPool<OrderNode>
    const levelPool: ObjectPool<LevelNode>

    /** std::map in iteration order: bids from the highest price, asks from the lowest. */
    var bids: seq<PriceEntry>
    var asks: seq<PriceEntry>
    var orderIndex: map<uint64, IndexEntry>

    ghost var lists: map<Ptr, Fifo>

    ghost function State(): Store
      reads this, orderPool, levelPool
    {
      Store(orderPool.live, levelPool.live, bids, asks, orderIndex, lists)
    }

    /** The abstract book this memory stands for. */
    ghost function Contents(): Book
      reads this, orderPool, levelPool
    {
      Abs(State())
    }

    ghost const Memory: set<object> := {this, orderPool, orderPool.slab, levelPool, levelPool.slab}

    ghost predicate PoolsOk()
      reads Memory
    {
      && orderPool.Valid() && orderPool.slab.Length == ORDER_POOL_SIZE
      && levelPool.Valid() && levelPool.slab.Length == LEVEL_POOL_SIZE
      && orderPool as object != levelPool as object && orderPool.slab as object != levelPool.slab as object
    }

    ghost predicate Valid()
      reads Memory
    {
      PoolsOk() && Inv(State())
    }

    constructor (orders: ObjectPool<OrderNode>, levels: ObjectPool<LevelNode>)
      requires orders.Valid() && orders.slab.Length == ORDER_POOL_SIZE && orders.live == map[]
      requires levels.Valid() && levels.slab.Length == LEVEL_POOL_SIZE && levels.live == map[]
      requires orders as object != levels as object && orders.slab as object != levels.slab as object
      ensures orderPool == orders && levelPool == levels
      ensures Valid() && Contents() == EMPTY_BOOK
    {
      orderPool, levelPool := orders, levels;
      bids, asks, orderIndex, lists := [], [], map[], map[];
    }

    /** find_order. */
    method FindOrder(id: uint64) returns (p: Ptr)
      requires Valid()
      ensures p != NULL <==> Find(Contents(), id).Some?
      ensures p != NULL ==> p in orderPool.live && orderPool.live[p].order == Find(Contents(), id).value
      ensures p != NULL ==> id in orderIndex && orderIndex[id].order == p
    {
      FindMeans(State(), id);
      if id !in orderIndex {
        return NULL;
      }
      KnownPlace(State(), id);
      p := orderIndex[id].order;
    }

    /** best_bid_level and best_ask_level. */
    method BestLevel(side: Side) returns (l: Ptr)
      requires Valid()
      ensures l == if Entries(State(), side) == [] then NULL else Entries(State(), side)[0].level
      ensures l == NULL <==> Levels(Contents(), side) == []
      ensures l != NULL ==> l in levelPool.live && RankedAt(side, Levels(Contents(), side), 0, levelPool.live[l].price)
    {
      hide ObjectPool.Valid, Inv, RankedAt, Pos;
      if Entries(State(), side) != [] {
        LevelOfEntry(State(), side, 0);
        LevelRanked(State(), side, 0);
      }
      var entries := if side.BUY? then bids else asks;
      l := if entries == [] then NULL else entries[0].level;
    }

    /** next_bid_level and next_ask_level. */
    method NextLevel(side: Side, after: int64) returns (l: Ptr)
      requires Valid()
      ensures var entries := Entries(State(), side);
              var i := Place(side, entries, after);
              l == if i + 1 < |entries| && entries[i].price == after then entries[i + 1].level else NULL
      ensures forall n: nat :: RankedAt(side, Levels(Contents(), side), n, after) ==>
                if l == NULL then n + 1 == |Levels(Contents(), side)|
                else l in levelPool.live && RankedAt(side, Levels(Contents(), side), n + 1, levelPool.live[l].price)
    {
      hide ObjectPool.Valid, Inv, Abs, RankedAt, Pos, Place;
      NextRanked(State(), side, after);
      var entries := if side.BUY? then bids else asks;
      var i := Place(side, entries, after);
      if i == |entries| || entries[i].price != after || i + 1 == |entries| {
        return NULL;
      }
      l := entries[i + 1].level;
    }

    /** append_to_level. */
    method AppendToLevel(l: Ptr, p: Ptr)
      requires PoolsOk() && l in levelPool.live && p in orderPool.live
      requires var tail := levelPool.live[l].tail; tail == NULL || (tail in orderPool.live && tail != p)
      requires levelPool.live[l].totalQty + orderPool.live[p].order.qty < U64_LIMIT
      requires levelPool.live[l].orderCount + 1 < U32_LIMIT
      modifies orderPool, orderPool.slab, levelPool, levelPool.slab
      ensures PoolsOk()
      ensures var o := old(orderPool.live[p].order);
              && orderPool.live == AppendNode(old(orderPool.live), old(levelPool.live[l].tail), p, o)
              && levelPool.live == old(levelPool.live)[l := AppendHeader(old(levelPool.live[l]), p, o)]
    {
      hide ObjectPool.Valid;
      var lv, n := levelPool.Get(l), orderPool.Get(p);
      orderPool.Put(p, n.(prev := lv.tail, next := NULL));
      if lv.tail != NULL {
        var t := orderPool.Get(lv.tail);
        orderPool.Put(lv.tail, t.(next := p));
      } else {
        lv := lv.(head := p);
      }
      levelPool.Put(l, lv.(tail := p, totalQty := lv.totalQty + n.order.qty, orderCount := lv.orderCount + 1));
    }

    /** unlink_from_level. */
    method UnlinkFromLevel(l: Ptr, p: Ptr)
      requires PoolsOk() && l in levelPool.live && p in orderPool.live
      requires var n := orderPool.live[p];
               && (n.prev == NULL || (n.prev in orderPool.live && n.prev != p))
               && (n.next == NULL || (n.next in orderPool.live && n.next != p))
               && n.order.qty <= levelPool.live[l].totalQty && levelPool.live[l].orderCount > 0
      modifies orderPool, orderPool.slab, levelPool, levelPool.slab
      ensures PoolsOk()
      ensures orderPool.live == UnlinkNode(old(orderPool.live), p)
      ensures levelPool.live == old(levelPool.live)[l := UnlinkHeader(old(levelPool.live[l]), old(orderPool.live[p]))]
    {
      hide ObjectPool.Valid;
      var lv, n := levelPool.Get(l), orderPool.Get(p);
      if n.prev != NULL {
        var before := orderPool.Get(n.prev);
        orderPool.Put(n.prev, before.(next := n.next));
      } else {
        lv := lv.(head := n.next);
      }
      if n.next != NULL {
        var after := orderPool.Get(n.next);
        orderPool.Put(n.next, after.(prev := n.prev));
      } else {
        lv := lv.(tail := n.prev);
      }
      levelPool.Put(l, lv.(totalQty := lv.totalQty - n.order.qty, orderCount := lv.orderCount - 1));
    }

    /** find_or_create_level. */
    method FindOrCreateLevel(side: Side, price: int64) returns (l: Ptr)
      requires PoolsOk()
      modifies `bids, `asks, `lists, levelPool, levelPool.slab
      ensures PoolsOk()
      ensures var s := old(State());
              var found := LevelAt(side, Entries(s, side), price);
              if found != NULL then l == found && State() == s
              else if |s.levels| == LEVEL_POOL_SIZE then l == NULL && State() == s
              else l != NULL && l !in s.levels && State() == Created(s, side, price, l)
    {
      hide ObjectPool.Valid, Place;
      var entries := if side.BUY? then bids else asks;
      var i := Place(side, entries, price);
      if i < |entries| && entries[i].price == price && entries[i].level != NULL {
        return entries[i].level;
      }
      l := levelPool.Acquire(LevelNode(price, 0, 0, NULL, NULL));
      if l == NULL {
        return NULL;
      }
      if side.BUY? {
        bids := InsertAt(bids, i, PriceEntry(price, l));
      } else {
        asks := InsertAt(asks, i, PriceEntry(price, l));
      }
      lists := lists[l := Fifo(side, [])];
    }

    /** add_order: rests the order at the end of its level's queue, or changes nothing and returns NULL when the id is
        taken or a pool is exhausted. A slot acquired before the level pool turns out to be empty is given back. */
    method AddOrder(incoming: Order) returns (p: Ptr)
      requires Valid()
      modifies this, orderPool, orderPool.slab, levelPool, levelPool.slab
      ensures Valid()
      ensures p != NULL <==> CanAdd(old(Contents()), incoming)
      ensures Contents() == Add(old(Contents()), incoming)
      ensures p == NULL ==> State() == old(State())
      ensures p != NULL ==> p in orderPool.live && orderPool.live[p].order == incoming
    {
      ghost var s := State();
      RoomMeans(s, incoming);
      if incoming.orderId in orderIndex {
        return NULL;
      }
      p := orderPool.Acquire(OrderNode(incoming, NULL, NULL));
      if p != NULL {
        var added := AddAt(p, incoming, s);
        if !added {
          return NULL;
        }
      }
    }

    /** add_order once an order slot is in hand; the slot goes back when there is no level to be had. */
    method AddAt(p: Ptr, o: Order, ghost s: Store) returns (added: bool)
      requires PoolsOk() && Inv(s) && p != NULL && p !in s.orders
      requires State() == s.(orders := s.orders[p := OrderNode(o, NULL, NULL)])
      requires o.orderId !in s.index && |s.orders| < ORDER_POOL_SIZE
      modifies this, orderPool, orderPool.slab, levelPool, levelPool.slab
      ensures PoolsOk()
      ensures added <==> RoomFor(s, o)
      ensures !added ==> State() == s
      ensures added ==> Inv(State()) && Abs(State()) == Add(Abs(s), o) && p in orderPool.live && orderPool.live[p].order == o
    {
      hide Inv, Abs, Add, Appended, Appendable, LevelAt, Created, Entries, Pos;
      LevelAtMeans(s, o.side, o.price);
      var l := FindOrCreateLevel(o.side, o.price);
      CreateBeside(s, s.orders[p := OrderNode(o, NULL, NULL)], o.side, o.price, l);
      if l == NULL {
        orderPool.Release(p);
        AddThenRemove(s.orders, p, OrderNode(o, NULL, NULL));
        return false;
      }
      AddMeans(s, p, l, o);
      LinkAndIndex(l, p, o, if l in s.levels then s else Created(s, o.side, o.price, l));
      added := true;
    }

    /** The end of add_order: append to the level, then enter the id. */
    method LinkAndIndex(l: Ptr, p: Ptr, o: Order, ghost s: Store)
      requires PoolsOk() && Appendable(s, l, p, o)
      requires State() == s.(orders := s.orders[p := OrderNode(o, NULL, NULL)])
      modifies `orderIndex, `lists, orderPool, orderPool.slab, levelPool, levelPool.slab
      ensures PoolsOk() && State() == Appended(s, l, p, o)
    {
      hide ObjectPool.Valid;
      AppendToFresh(s.orders, s.levels[l].tail, p, o);
      AppendToLevel(l, p);
      orderIndex := orderIndex[o.orderId := IndexEntry(p, l)];
      lists := lists[l := Fifo(lists[l].side, lists[l].slots + [p])];
    }

    /** cancel_order: the order leaves its queue, and its level the book when it was the last. */
    method CancelOrder(id: uint64) returns (found: bool)
      requires Valid()
      modifies this, orderPool, orderPool.slab, levelPool, levelPool.slab
      ensures Valid()
      ensures found <==> Find(old(Contents()), id).Some?
      ensures State() == Cancelled(old(State()), id)
      ensures Contents() == Cancel(old(Contents()), id)
    {
      hide Inv, Abs, Cancel, ObjectPool.Valid;
      FindMeans(State(), id);
      CancelMeans(State(), id);
      if id !in orderIndex {
        return false;
      }
      KnownPlace(State(), id);
      var e := orderIndex[id];
      var side := orderPool.Get(e.order).order.side;
      ghost var s, k := State(), IndexOf(Slots(State(), e.level), e.order);
      UnlinkFacts(s, e.level, k);
      Detach(id, e, k);
      if levelPool.Get(e.level).orderCount == 0 {
        DropLevel(e.level, side);
      }
      found := true;
    }

    /** The first half of cancel_order: unlink, forget the id, release the slot. */
    method Detach(id: uint64, e: IndexEntry, ghost k: nat)
      requires PoolsOk() && Names(State(), e.level, k) && Slots(State(), e.level)[k] == e.order
      requires var n := orderPool.live[e.order]; n.order.orderId == id && n.prev != e.order && n.next != e.order
      modifies `orderIndex, `lists, orderPool, orderPool.slab, levelPool, levelPool.slab
      ensures PoolsOk() && State() == Unlinked(old(State()), e.level, k)
    {
      hide ObjectPool.Valid, UnlinkHeader;
      UnlinkFromLevel(e.level, e.order);
      orderIndex := orderIndex - {id};
      orderPool.Release(e.order);
      lists := lists[e.level := Fifo(lists[e.level].side, RemoveAt(lists[e.level].slots, k))];
    }

    /** The second half: an empty level leaves its price map and goes back to its pool. */
    method DropLevel(l: Ptr, side: Side)
      requires PoolsOk() && l in levelPool.live && SideOf(State(), l) == side
      requires Pos(State(), l) < |Entries(State(), side)|
      requires Entries(State(), side)[Pos(State(), l)].price == levelPool.live[l].price
      modifies `bids, `asks, `lists, levelPool, levelPool.slab
      ensures PoolsOk() && State() == Erased(old(State()), l)
    {
      hide ObjectPool.Valid;
      ErasePrice(side, levelPool.Get(l).price);
      levelPool.Release(l);
      lists := lists - {l};
    }

    /** bids_.erase(price) or asks_.erase(price). */
    method ErasePrice(side: Side, price: int64)
      modifies `bids, `asks
      ensures var entries := Entries(old(State()), side);
              var i := Place(side, entries, price);
              State() == if i < |entries| && entries[i].price == price
                         then WithEntries(old(State()), side, RemoveAt(entries, i)) else old(State())
    {
      var entries := if side.BUY? then bids else asks;
      var i := Place(side, entries, price);
      if i < |entries| && entries[i].price == price {
        if side.BUY? {
          bids := RemoveAt(bids, i);
        } else {
          asks := RemoveAt(asks, i);
        }
      }
    }

    /** replace_order_in_place, for a quantity that does not grow. */
    method ReplaceOrderInPlace(id: uint64, newQty: uint32) returns (found: bool)
      requires Valid()
      requires Find(Contents(), id).Some? ==> newQty <= Find(Contents(), id).value.qty
      modifies orderPool, orderPool.slab, levelPool, levelPool.slab
      ensures Valid()
      ensures found <==> Find(old(Contents()), id).Some?
      ensures Contents() == SetQty(old(Contents()), id, newQty)
    {
      hide ObjectPool.Valid, Inv, Abs, SetQty, Find;
      ghost var s := State();
      FindMeans(s, id);
      if id !in orderIndex {
        SetQtyUnknown(s, id, newQty);
        return false;
      }
      KnownPlace(s, id);
      SetQtyMeans(s, id, newQty);
      var e := orderIndex[id];
      Requantify(e.level, e.order, newQty);
      assert State() == Requantified(s, e.level, IndexOf(Slots(s, e.level), e.order), newQty);
      found := true;
    }

    /** The two writes that lower an order's quantity and its level's total together. */
    method Requantify(l: Ptr, p: Ptr, newQty: uint32)
      requires PoolsOk() && l in levelPool.live && p in orderPool.live
      requires newQty <= orderPool.live[p].order.qty
      requires orderPool.live[p].order.qty - newQty <= levelPool.live[l].totalQty
      modifies orderPool, orderPool.slab, levelPool, levelPool.slab
      ensures PoolsOk()
      ensures var n, lv := old(orderPool.live[p]), old(levelPool.live[l]);
              && orderPool.live == old(orderPool.live)[p := n.(order := n.order.(qty := newQty))]
              && levelPool.live == old(levelPool.live)[l := lv.(totalQty := lv.totalQty - (n.order.qty - newQty))]
    {
      hide ObjectPool.Valid;
      var n, lv := orderPool.Get(p), levelPool.Get(l);
      orderPool.Put(p, n.(order := n.order.(qty := newQty)));
      levelPool.Put(l, lv.(totalQty := lv.totalQty - (n.order.qty - newQty)));
    }

    /** reset: forgets every order and level. The slots are only free again once both pools are reset too. */
    method Reset()
      modifies `bids, `asks, `orderIndex, `lists
      ensures bids == [] && asks == [] && orderIndex == map[] && lists == map[]
    {
      bids, asks, orderIndex, lists := [], [], map[], map[];
    }
  }

  /** The reset between two trials of run_benchmark(): book first, then both pools. From any state whatsoever of the
      book and the pools' lists, the book is as good as new. */
  method ResetTrial(book: OrderBook)
    requires book.orderPool.slab.Length == ORDER_POOL_SIZE && book.levelPool.slab.Length == LEVEL_POOL_SIZE
    requires book.orderPool as object != book.levelPool as object
    requires book.orderPool.slab as object != book.levelPool.slab as object
    modifies book, book.orderPool, book.orderPool.slab, book.levelPool, book.levelPool.slab
    ensures book.Valid() && book.Contents() == EMPTY_BOOK
  {
    book.Reset();
    book.orderPool.Reset();
    book.levelPool.Reset();
  }
}
