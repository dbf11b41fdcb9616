/** What holds of the book after any stream of new, cancel and replace events, in any mix of matching modes. */
module Runs {
  import opened Types
  import opened Book
  import opened Allocation
  import opened MatchSpec
  import opened Sides
  import opened Conservation
  import opened Liquidity
  import opened ModesAgree
  import opened Upkeep

  /** What every resting order satisfies: something is left of it, and it was meant to rest. */
  predicate Rests(o: Order) {
    o.qty > 0 && o.tif.GTC? && o.eventTag.NEW_OR_CANCEL?
  }

  ghost predicate AllRest(orders: seq<Order>) {
    forall k :: 0 <= k < |orders| ==> Rests(orders[k])
  }

  /** A book as runs leave it: well formed, uncrossed, nothing but live GTC orders, within the pools. */
  ghost predicate Sound(b: Book) {
    && BookOk(b)
    && AllRest(Flat(b.bids)) && AllRest(Flat(b.asks))
    && (b.bids != [] && b.asks != [] ==> b.bids[0].price < b.asks[0].price)
    && OrderCount(b) <= ORDER_POOL_SIZE
    && LevelCount(b) <= LEVEL_POOL_SIZE
  }

  // ---------- Operations that only take away ----------

  /** No new price, id, order or level; what is left still rests. */
  ghost predicate Thinned(side: Side, before: seq<Level>, after: seq<Level>) {
    && SideOk(side, after) && PricesFrom(before, after) && |after| <= |before|
    && AllRest(Flat(after)) && |Flat(after)| <= |Flat(before)|
    && forall id :: CountId(Flat(after), id) <= CountId(Flat(before), id)
  }

  lemma ThinnedSelf(side: Side, levels: seq<Level>)
    requires SideOk(side, levels) && AllRest(Flat(levels))
    ensures Thinned(side, levels, levels)
  {
  }

  lemma ThinnedSound(b: Book, b2: Book)
    requires Sound(b) && Thinned(BUY, b.bids, b2.bids) && Thinned(SELL, b.asks, b2.asks)
    ensures Sound(b2)
  {
    if b2.bids != [] {
      BestNoBetter(BUY, b.bids, b2.bids);
    }
    if b2.asks != [] {
      BestNoBetter(SELL, b.asks, b2.asks);
    }
    FlatTotals(b.bids);
    FlatTotals(b.asks);
    FlatTotals(b2.bids);
    FlatTotals(b2.asks);
    forall id
      ensures CountIdInBook(b2, id) <= 1
    {
      FlatCount(b.bids, id);
      FlatCount(b.asks, id);
      FlatCount(b2.bids, id);
      FlatCount(b2.asks, id);
      assert CountIdInBook(b, id) <= 1;
    }
  }

  lemma CancelThins(side: Side, levels: seq<Level>, id: uint64)
    requires SideOk(side, levels) && AllRest(Flat(levels))
    ensures Thinned(side, levels, CancelLevels(levels, id))
  {
    var orders, left := Flat(levels), Without(Flat(levels), id);
    CancelOk(side, levels, id);
    CancelFlat(levels, id);
    WithoutAre(orders, id);
    forall k | 0 <= k < |left|
      ensures Rests(left[k])
    {
      assert left[k] in left;
    }
    forall other
      ensures CountId(left, other) <= CountId(orders, other)
    {
      WithoutCount(orders, id, other);
    }
  }

  lemma CancelSound(b: Book, id: uint64)
    requires Sound(b)
    ensures Sound(Cancel(b, id)) && Find(Cancel(b, id), id).None?
  {
    CancelThins(BUY, b.bids, id);
    CancelThins(SELL, b.asks, id);
    ThinnedSound(b, Cancel(b, id));
    CancelForgets(b, id);
  }

  lemma CancelForgets(b: Book, id: uint64)
    ensures Find(Cancel(b, id), id).None?
  {
    CancelFlat(b.bids, id);
    CancelFlat(b.asks, id);
    FlatFind(Cancel(b, id).bids, id);
    FlatFind(Cancel(b, id).asks, id);
    WithoutCount(Flat(b.bids), id, id);
    WithoutCount(Flat(b.asks), id, id);
    FindOrderMeans(Without(Flat(b.bids), id), id);
    FindOrderMeans(Without(Flat(b.asks), id), id);
  }

  lemma RequantifyRest(orders: seq<Order>, id: uint64, qty: uint32)
    requires AllRest(orders) && qty > 0
    ensures AllRest(Requantify(orders, id, qty)) && |Requantify(orders, id, qty)| == |orders|
  {
    RequantifyAre(orders, id, qty);
  }

  lemma RequantifyThins(side: Side, levels: seq<Level>, id: uint64, qty: uint32)
    requires SideOk(side, levels) && AllRest(Flat(levels)) && qty > 0
    ensures Thinned(side, levels, RequantifyLevels(levels, id, qty))
  {
    hide SideOk, Rests;
    var after := RequantifyLevels(levels, id, qty);
    RequantifyOk(side, levels, id, qty);
    RequantifyLevelsAre(levels, id, qty);
    RequantifyFlat(levels, id, qty);
    RequantifyRest(Flat(levels), id, qty);
    forall p | HasPrice(after, p)
      ensures HasPrice(levels, p)
    {
      var k :| 0 <= k < |after| && after[k].price == p;
      assert levels[k].price == p;
    }
    forall other
      ensures CountId(Flat(after), other) <= CountId(Flat(levels), other)
    {
      RequantifyCount(Flat(levels), id, qty, other);
    }
  }

  lemma SetQtySound(b: Book, id: uint64, qty: uint32)
    requires Sound(b) && qty > 0
    ensures Sound(SetQty(b, id, qty))
  {
    RequantifyThins(BUY, b.bids, id, qty);
    RequantifyThins(SELL, b.asks, id, qty);
    ThinnedSound(b, SetQty(b, id, qty));
  }

  lemma {:induction false} SweepPositive(mode: MatchingMode, levels: seq<Level>, inc: Order, rem: uint32)
    requires AllPositive(Flat(levels))
    ensures AllPositive(Flat(Sweep(mode, levels, inc, rem).levels))
  {
    hide AtLevel;
    if levels != [] && rem > 0 && Crosses(levels[0].price, inc) {
      var here := AtLevel(mode, levels[0].orders, inc, rem);
      PositiveParts(levels);
      LevelPositive(mode, levels[0].orders, inc, rem);
      SweepPositive(mode, levels[1..], inc, here.remaining);
      FlatKeep(levels[0].price, here.orders, Sweep(mode, levels[1..], inc, here.remaining).levels);
    }
  }

  lemma SweepThins(mode: MatchingMode, side: Side, levels: seq<Level>, inc: Order, rem: uint32)
    requires SideOk(side, levels) && AllRest(Flat(levels))
    ensures Thinned(side, levels, Sweep(mode, levels, inc, rem).levels)
  {
    hide Sweep, Shrunk, PricesFrom, SideOk;
    SweepOk(mode, side, levels, inc, rem);
    SweepTrades(mode, levels, inc, rem);
    SweepPositive(mode, levels, inc, rem);
    var before, after := Flat(levels), Flat(Sweep(mode, levels, inc, rem).levels);
    forall k | 0 <= k < |after|
      ensures Rests(after[k])
    {
      ShrunkFrom(before, after, k);
    }
    forall id
      ensures CountId(after, id) <= CountId(before, id) && |after| <= |before|
    {
      ShrunkCount(before, after, id);
    }
    ShrunkCount(before, after, 0);
  }

  // ---------- Resting a remainder ----------

  lemma AllRestInsert(a: seq<Order>, o: Order, b: seq<Order>)
    requires AllRest(a + b) && Rests(o)
    ensures AllRest(a + [o] + b)
  {
    assert forall k :: 0 <= k < |a| ==> (a + b)[k] == a[k];
    assert forall k :: 0 <= k < |b| ==> (a + b)[|a| + k] == b[k];
  }

  lemma RestSide(side: Side, levels: seq<Level>, o: Order)
    requires SideOk(side, levels) && AllRest(Flat(levels)) && o.side == side && Rests(o)
    ensures var after := InsertOrder(side, levels, o);
            && SideOk(side, after) && AllRest(Flat(after))
            && |after| == |levels| + (if HasLevel(side, levels, o.price) then 0 else 1)
            && CountOrders(after) == CountOrders(levels) + 1
            && (after[0].price == o.price || (levels != [] && after[0].price == levels[0].price))
  {
    hide InsertOrder, AllRest, SideOk;
    InsertOk(side, levels, o);
    InsertFlat(side, levels, o);
    FlatTotals(levels);
    FlatTotals(InsertOrder(side, levels, o));
    var j := Ahead(side, levels, o.price);
    AllRestInsert(Flat(levels[..j]), o, Flat(levels[j..]));
  }

  lemma RestSound(b: Book, o: Order)
    requires Sound(b) && CanAdd(b, o) && Rests(o) && !WouldRestCrossed(Levels(b, Other(o.side)), o)
    ensures Sound(Add(b, o))
  {
    hide InsertOrder, HasLevel, SideOk, AllRest, Find, CountIdInBook;
    RestSide(o.side, Levels(b, o.side), o);
    RestIds(b, o);
  }

  lemma RestIds(b: Book, o: Order)
    requires BookOk(b) && CanAdd(b, o)
    ensures forall id :: CountIdInBook(Add(b, o), id) <= 1
  {
    hide InsertOrder, LowerBound;
    var own, j := Levels(b, o.side), Ahead(o.side, Levels(b, o.side), o.price);
    InsertFlat(o.side, own, o);
    Sides.FindMeans(b, o.orderId);
    forall id
      ensures CountIdInBook(Add(b, o), id) <= 1
    {
      assert CountIdInBook(b, id) <= 1;
      FlatCount(own, id);
      FlatCount(InsertOrder(o.side, own, o), id);
      CountConcat(Flat(own[..j]) + [o], Flat(own[j..]), id);
      CountConcat(Flat(own[..j]), [o], id);
      CountConcat(Flat(own[..j]), Flat(own[j..]), id);
      assert [o][1..] == [];
    }
  }

  // ---------- Every event ----------

  lemma SweptSound(mode: MatchingMode, b: Book, inc: Order)
    requires Sound(b)
    ensures var opposite := Other(inc.side);
            Sound(WithLevels(b, opposite, Sweep(mode, Levels(b, opposite), inc, inc.qty).levels))
  {
    hide Sweep, Sound;
    var opposite := Other(inc.side);
    SoundParts(b, BUY);
    SoundParts(b, SELL);
    SweepThins(mode, opposite, Levels(b, opposite), inc, inc.qty);
    ThinnedSelf(inc.side, Levels(b, inc.side));
    ThinnedSound(b, WithLevels(b, opposite, Sweep(mode, Levels(b, opposite), inc, inc.qty).levels));
  }

  lemma SoundParts(b: Book, side: Side)
    requires Sound(b)
    ensures SideOk(side, Levels(b, side)) && AllRest(Flat(Levels(b, side))) && AllPositive(Flat(Levels(b, side)))
  {
  }

  lemma ExecuteSound(mode: MatchingMode, b: Book, inc: Order)
    requires Sound(b) && inc.eventTag.NEW_OR_CANCEL?
    ensures Sound(Execute(mode, b, inc).book)
  {
    hide Sweep, Sound, CanAdd;
    SweptSound(mode, b, inc);
    var opposite := Other(inc.side);
    var swept := Sweep(mode, Levels(b, opposite), inc, inc.qty);
    var b1, rest := WithLevels(b, opposite, swept.levels), inc.(qty := swept.remaining);
    if inc.tif.GTC? && swept.remaining > 0 && !WouldRestCrossed(swept.levels, inc) && CanAdd(b1, rest) {
      RestSound(b1, rest);
    }
  }

  lemma MatchSound(mode: MatchingMode, b: Book, inc: Order)
    requires Sound(b) && inc.eventTag.NEW_OR_CANCEL?
    ensures Sound(Match(mode, b, inc).book)
  {
    hide Sweep, Sound, DrySweep, Execute;
    ExecuteSound(mode, b, inc);
  }

  lemma DispatchSound(mode: MatchingMode, b: Book, o: Order)
    requires Sound(b)
    ensures Sound(Dispatch(mode, b, o).book)
  {
    hide Sound, MatchSpec.Match, Find;
    CancelSound(b, o.orderId);
    if o.eventTag.NEW_OR_CANCEL? {
      MatchSound(mode, b, o);
    } else if o.qty > 0 {
      SetQtySound(b, o.orderId, o.qty);
      var found := Find(b, o.orderId);
      if found.Some? {
        MatchSound(mode, Cancel(b, o.orderId), Resubmitted(found.value, o.price, o.qty));
      }
    }
  }

  // ---------- Main results ----------

  /** Whatever arrives, in whatever modes: the book stays uncrossed and well formed, every resting order is a live GTC
      order, and the pools hold it. */
  lemma {:induction false} RunIsSound(events: seq<Event>)
    ensures Sound(Run(EMPTY_BOOK, events))
  {
    hide Dispatch;
    if events == [] {
      assert Sound(EMPTY_BOOK);
    } else {
      var last := events[|events| - 1];
      RunIsSound(events[..|events| - 1]);
      DispatchSound(last.mode, Run(EMPTY_BOOK, events[..|events| - 1]), last.order);
    }
  }

  /** In every reachable book the two modes agree on the next order: see ModesAgree.MatchesAgree. */
  lemma RunsMatchAlike(events: seq<Event>, inc: Order)
    ensures var b := Run(EMPTY_BOOK, events);
            var pt, pr := Match(PRICE_TIME, b, inc), Match(PRO_RATA, b, inc);
            && pt.stats.remainingQty == pr.stats.remainingQty
            && pt.stats.levelsConsumed == pr.stats.levelsConsumed
            && Ladder(pt.book.bids) == Ladder(pr.book.bids)
            && Ladder(pt.book.asks) == Ladder(pr.book.asks)
            && (forall price :: TradedAt(pt.fills, price) == TradedAt(pr.fills, price))
            && (pt.stats.remainingQty > 0 ==> pt.book == pr.book)
  {
    hide Run, Match, Ladder, TradedAt;
    var b := Run(EMPTY_BOOK, events);
    RunIsSound(events);
    SoundParts(b, Other(inc.side));
    MatchesAgree(b, inc);
  }
}
