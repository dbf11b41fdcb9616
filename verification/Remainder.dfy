/** What becomes of the unfilled part of a GTC order, decided by what the book looked like before; and what the counters
    of a match count. */
module Remainder {
  import opened Types
  import opened Book
  import opened Allocation
  import opened MatchSpec
  import opened Sides
  import opened Conservation
  import opened Liquidity
  import opened ModesAgree
  import opened Upkeep
  import opened Runs

  /** An order of the incoming client rests on the other side at a price that crosses. */
  ghost predicate OwnInTheWay(opposite: seq<Level>, inc: Order) {
    exists k {:trigger Flat(opposite)[k]} :: 0 <= k < |Flat(opposite)|
      && Crosses(Flat(opposite)[k].price, inc) && IsSelfTrade(Flat(opposite)[k], inc)
  }

  // ---------- What a sweep that runs dry leaves ----------

  lemma {:induction false} OwnConcat(a: seq<Order>, b: seq<Order>, inc: Order)
    ensures OwnOrders(a + b, inc) == OwnOrders(a, inc) + OwnOrders(b, inc)
  {
    if a == [] {
      assert a + b == b;
    } else {
      OwnConcat(a[1..], b, inc);
      assert (a + b)[1..] == a[1..] + b;
      Regroup(if IsSelfTrade(a[0], inc) then [a[0]] else [], OwnOrders(a[1..], inc), OwnOrders(b, inc));
    }
  }

  lemma {:induction false} OwnAre(orders: seq<Order>, inc: Order)
    ensures forall o :: o in OwnOrders(orders, inc) <==> o in orders && IsSelfTrade(o, inc)
  {
    if orders != [] {
      OwnAre(orders[1..], inc);
      forall o
        ensures o in OwnOrders(orders, inc) <==> o in orders && IsSelfTrade(o, inc)
      {
        assert o in orders <==> o == orders[0] || o in orders[1..];
      }
    }
  }

  /** Of the crossing levels only the incoming client's orders are left, and the others are untouched. */
  lemma {:induction false} SweepLeavesOwn(mode: MatchingMode, levels: seq<Level>, inc: Order, rem: uint32)
    requires AllPositive(Flat(levels)) && Sweep(mode, levels, inc, rem).remaining > 0
    ensures Flat(Sweep(mode, levels, inc, rem).levels) == OwnOrders(Flat(Crossing(levels, inc)), inc) + Flat(Beyond(levels, inc))
  {
    hide AtLevel;
    if levels != [] && Crosses(levels[0].price, inc) {
      var here := AtLevel(mode, levels[0].orders, inc, rem);
      PositiveParts(levels);
      LevelLeavesOwn(mode, levels[0].orders, inc, rem);
      SweepLeavesOwn(mode, levels[1..], inc, here.remaining);
      FlatKeep(levels[0].price, here.orders, Sweep(mode, levels[1..], inc, here.remaining).levels);
      FlatCons(levels[0], Crossing(levels[1..], inc));
      OwnConcat(levels[0].orders, Flat(Crossing(levels[1..], inc)), inc);
      Regroup(here.orders, OwnOrders(Flat(Crossing(levels[1..], inc)), inc), Flat(Beyond(levels[1..], inc)));
    }
  }

  /** The best level decides whether a well-formed side crosses at all. */
  lemma CrossedMeans(levels: seq<Level>, inc: Order)
    requires SideOk(Other(inc.side), levels)
    ensures WouldRestCrossed(levels, inc) <==> !NoneCross(Flat(levels), inc)
  {
    if WouldRestCrossed(levels, inc) {
      assert LevelOk(Other(inc.side), levels[0]);
      assert Flat(levels)[0] == levels[0].orders[0];
    } else {
      NoneBehind(levels, inc);
    }
  }

  lemma CrossingOwn(levels: seq<Level>, inc: Order, left: seq<Order>)
    requires SideOk(Other(inc.side), levels)
    requires left == OwnOrders(Flat(Crossing(levels, inc)), inc) + Flat(Beyond(levels, inc))
    ensures !NoneCross(left, inc) <==> OwnInTheWay(levels, inc)
    ensures forall k :: 0 <= k < |left| && Crosses(left[k].price, inc) ==> IsSelfTrade(left[k], inc)
  {
    hide Crosses, IsSelfTrade, Crossing, Beyond, Flat, OwnOrders, SideOk;
    var front, back := Flat(Crossing(levels, inc)), Flat(Beyond(levels, inc));
    CrossingSplits(levels, inc);
    CrossingAll(levels, inc);
    BeyondNone(levels, inc);
    OwnAre(front, inc);
    var own := OwnOrders(front, inc);
    assert forall k :: |own| <= k < |left| ==> left[k] == back[k - |own|];
    assert forall k :: |front| <= k < |Flat(levels)| ==> Flat(levels)[k] == back[k - |front|];
    forall k | 0 <= k < |left| && Crosses(left[k].price, inc)
      ensures k < |own| && IsSelfTrade(left[k], inc) && OwnInTheWay(levels, inc)
    {
      assert own[k] in front;
      var i :| 0 <= i < |front| && front[i] == own[k];
      assert Flat(levels)[i] == own[k];
    }
    if OwnInTheWay(levels, inc) {
      var k :| 0 <= k < |Flat(levels)| && Crosses(Flat(levels)[k].price, inc) && IsSelfTrade(Flat(levels)[k], inc);
      assert Flat(levels)[k] in front;
      assert Flat(levels)[k] in own;
      var i :| 0 <= i < |own| && own[i] == Flat(levels)[k];
      assert left[i] == own[i];
    }
  }

  // ---------- Main results ----------

  /** With something left over, the opposite side still crosses exactly when one of the incoming client's own orders
      crossed to begin with, and then only such orders are left at crossing prices. */
  lemma OnlyOwnOrdersBlock(mode: MatchingMode, opposite: seq<Level>, inc: Order, rem: uint32)
    requires SideOk(Other(inc.side), opposite) && AllPositive(Flat(opposite))
    requires Sweep(mode, opposite, inc, rem).remaining > 0
    ensures var left := Sweep(mode, opposite, inc, rem).levels;
            && (WouldRestCrossed(left, inc) <==> OwnInTheWay(opposite, inc))
            && (forall k :: 0 <= k < |Flat(left)| && Crosses(Flat(left)[k].price, inc) ==> IsSelfTrade(Flat(left)[k], inc))
  {
    hide Sweep, OwnInTheWay, WouldRestCrossed, NoneCross;
    var left := Sweep(mode, opposite, inc, rem).levels;
    SweepOk(mode, Other(inc.side), opposite, inc, rem);
    SweepLeavesOwn(mode, opposite, inc, rem);
    CrossedMeans(left, inc);
    CrossingOwn(opposite, inc, Flat(left));
  }

  /** A GTC order that the book cannot fill: its remainder is what the tradeable orders leave of it, and that is
      discarded if the client's own order is in the way, and handed to add_order otherwise. */
  lemma RemainderFate(mode: MatchingMode, b: Book, inc: Order)
    requires Sound(b) && inc.tif.GTC? && Find(b, inc.orderId).None?
    requires Tradeables(Levels(b, Other(inc.side)), inc) < inc.qty
    ensures var r, opposite := Match(mode, b, inc), Levels(b, Other(inc.side));
            var left := inc.qty - Tradeables(opposite, inc);
            var swept := WithLevels(b, Other(inc.side), Sweep(mode, opposite, inc, inc.qty).levels);
            && r.stats.remainingQty == left
            && r.book == if OwnInTheWay(opposite, inc) then swept else Add(swept, inc.(qty := left))
  {
    hide Sweep, Tradeables, OwnInTheWay, WouldRestCrossed, Sound, Add, Find;
    SoundParts(b, Other(inc.side));
    SweepTakesAll(mode, Levels(b, Other(inc.side)), inc, inc.qty);
    OnlyOwnOrdersBlock(mode, Levels(b, Other(inc.side)), inc, inc.qty);
  }

  lemma SweptForgets(mode: MatchingMode, b: Book, inc: Order, id: uint64)
    requires Find(b, id).None?
    ensures Find(WithLevels(b, Other(inc.side), Sweep(mode, Levels(b, Other(inc.side)), inc, inc.qty).levels), id).None?
  {
    hide Sweep, Shrunk;
    var levels := Levels(b, Other(inc.side));
    var after := Sweep(mode, levels, inc, inc.qty).levels;
    SweepTrades(mode, levels, inc, inc.qty);
    ShrunkCount(Flat(levels), Flat(after), id);
    FlatCount(levels, id);
    FlatCount(after, id);
    Sides.FindMeans(b, id);
    Sides.FindMeans(WithLevels(b, Other(inc.side), after), id);
  }

  /** An order that add_order took can be found again. */
  lemma AddedIsFound(b: Book, o: Order)
    requires CanAdd(b, o)
    ensures Find(Add(b, o), o.orderId) == Some(o)
  {
    hide InsertOrder, LowerBound;
    var own, j := Levels(b, o.side), Ahead(o.side, Levels(b, o.side), o.price);
    InsertFlat(o.side, own, o);
    FlatFind(b.bids, o.orderId);
    FlatFind(b.asks, o.orderId);
    FlatFind(InsertOrder(o.side, own, o), o.orderId);
    FindConcat(Flat(own[..j]) + [o], Flat(own[j..]), o.orderId);
    FindConcat(Flat(own[..j]), [o], o.orderId);
    FindConcat(Flat(own[..j]), Flat(own[j..]), o.orderId);
  }

  /** Nothing is left of a level of which everything may trade. */
  lemma {:induction false} SweepClears(mode: MatchingMode, levels: seq<Level>, inc: Order, rem: uint32)
    requires AllPositive(Flat(levels)) && Sweep(mode, levels, inc, rem).remaining > 0
    requires OwnOrders(Flat(Crossing(levels, inc)), inc) == []
    ensures Sweep(mode, levels, inc, rem).levels == Beyond(levels, inc)
  {
    hide AtLevel;
    if levels != [] && Crosses(levels[0].price, inc) {
      var here := AtLevel(mode, levels[0].orders, inc, rem);
      PositiveParts(levels);
      LevelLeavesOwn(mode, levels[0].orders, inc, rem);
      FlatCons(levels[0], Crossing(levels[1..], inc));
      OwnConcat(levels[0].orders, Flat(Crossing(levels[1..], inc)), inc);
      SweepClears(mode, levels[1..], inc, here.remaining);
      assert Keep(levels[0].price, here.orders) == [];
    }
  }

  lemma NoOwnInFront(opposite: seq<Level>, inc: Order)
    requires SideOk(Other(inc.side), opposite) && !OwnInTheWay(opposite, inc)
    ensures OwnOrders(Flat(Crossing(opposite, inc)), inc) == []
  {
    hide Flat, OwnOrders, Crosses, IsSelfTrade, SideOk;
    var front := Flat(Crossing(opposite, inc));
    CrossingSplits(opposite, inc);
    CrossingAll(opposite, inc);
    forall k | 0 <= k < |front|
      ensures !IsSelfTrade(front[k], inc)
    {
      assert Flat(opposite)[k] == front[k];
    }
    NoOwnOrders(front, inc);
  }

  lemma {:induction false} NoOwnOrders(orders: seq<Order>, inc: Order)
    requires forall k :: 0 <= k < |orders| ==> !IsSelfTrade(orders[k], inc)
    ensures OwnOrders(orders, inc) == []
  {
    if orders != [] {
      NoOwnOrders(orders[1..], inc);
    }
  }

  lemma {:induction false} AllAreCandidates(orders: seq<Order>, inc: Order)
    requires AllCross(orders, inc) && OwnOrders(orders, inc) == []
    ensures Candidates(orders, inc) == orders
  {
    if orders != [] {
      AllAreCandidates(orders[1..], inc);
    }
  }

  /** Without an own order in the way, a sweep that runs dry removes every candidate and every crossing level. */
  lemma SweptCounts(mode: MatchingMode, opposite: seq<Level>, inc: Order)
    requires SideOk(Other(inc.side), opposite) && AllPositive(Flat(opposite)) && !OwnInTheWay(opposite, inc)
    requires Sweep(mode, opposite, inc, inc.qty).remaining > 0
    ensures var left := Sweep(mode, opposite, inc, inc.qty).levels;
            && |left| == |opposite| - |Crossing(opposite, inc)|
            && CountOrders(left) == CountOrders(opposite) - |Candidates(Flat(opposite), inc)|
  {
    hide Sweep, Flat, Crossing, Beyond, CountOrders, Candidates, SideOk, OwnInTheWay;
    NoOwnInFront(opposite, inc);
    SweepClears(mode, opposite, inc, inc.qty);
    CrossingSplits(opposite, inc);
    CrossingAll(opposite, inc);
    AllAreCandidates(Flat(Crossing(opposite, inc)), inc);
    CandidatesInFront(opposite, inc);
    FlatTotals(opposite);
    FlatTotals(Beyond(opposite, inc));
  }

  /** Room for a remainder, told from the book as it is before the match: every candidate frees its slot, and every
      crossing level its own. */
  predicate RoomToRest(b: Book, inc: Order) {
    var opposite := Levels(b, Other(inc.side));
    && OrderCount(b) - |Candidates(Flat(opposite), inc)| < ORDER_POOL_SIZE
    && (HasLevel(inc.side, Levels(b, inc.side), inc.price)
        || LevelCount(b) - |Crossing(opposite, inc)| < LEVEL_POOL_SIZE)
  }

  /** The remainder rests exactly when no own order is in the way and the pools will have room; all of it can be told
      before the match. */
  lemma RestsExactlyWhen(mode: MatchingMode, b: Book, inc: Order)
    requires Sound(b) && inc.tif.GTC? && Find(b, inc.orderId).None?
    requires Tradeables(Levels(b, Other(inc.side)), inc) < inc.qty
    ensures var opposite := Levels(b, Other(inc.side));
            Find(Match(mode, b, inc).book, inc.orderId) ==
            if !OwnInTheWay(opposite, inc) && RoomToRest(b, inc)
            then Some(inc.(qty := inc.qty - Tradeables(opposite, inc))) else None
  {
    hide Sweep, Tradeables, OwnInTheWay, MatchSpec.Match, Find, CountOrders, HasLevel, Sound, InsertOrder, Flat, Crossing;
    hide Candidates;
    var opposite := Levels(b, Other(inc.side));
    var left := inc.qty - Tradeables(opposite, inc);
    var swept := WithLevels(b, Other(inc.side), Sweep(mode, opposite, inc, inc.qty).levels);
    RemainderFate(mode, b, inc);
    SweptForgets(mode, b, inc, inc.orderId);
    SoundParts(b, Other(inc.side));
    SweepTakesAll(mode, opposite, inc, inc.qty);
    assert Levels(swept, inc.side) == Levels(b, inc.side);
    if !OwnInTheWay(opposite, inc) {
      SweptCounts(mode, opposite, inc);
      if CanAdd(swept, inc.(qty := left)) {
        AddedIsFound(swept, inc.(qty := left));
      }
    }
  }

  // ---------- Counters ----------

  lemma {:induction false} ShareFillsFew(orders: seq<Order>, inc: Order, shares: seq<int>)
    requires Tradable(orders, shares)
    ensures |ShareFills(orders, inc, shares)| <= |orders|
  {
    if orders != [] {
      ShareFillsFew(orders[1..], inc, shares[1..]);
    }
  }

  lemma {:induction false} TakeCounters(orders: seq<Order>, inc: Order, rem: uint32)
    ensures var r := TakeLevel(orders, inc, rem); |r.fills| <= r.examined <= |orders|
  {
    if orders != [] && rem > 0 {
      TakeCounters(orders[1..], inc, if IsSelfTrade(orders[0], inc) then rem else rem - Min(rem, orders[0].qty));
    }
  }

  lemma LevelCounters(mode: MatchingMode, orders: seq<Order>, inc: Order, rem: uint32)
    ensures var r := AtLevel(mode, orders, inc, rem); |r.fills| <= r.examined <= |orders|
  {
    hide LevelShares, ShareFill, ShareFills, Largest;
    if mode.PRICE_TIME? {
      TakeCounters(orders, inc, rem);
    } else if EligibleTotal(orders, inc) > 0 {
      LargestExists(orders, inc);
      var shares, m := LevelShares(orders, inc, Min(rem, EligibleTotal(orders, inc))), Largest(orders, inc, |orders|);
      DeferredFill(orders, inc, shares, m, EVERY);
      ShareFillsFew(orders, inc, shares);
    }
  }

  lemma {:induction false} SweepCounters(mode: MatchingMode, levels: seq<Level>, inc: Order, rem: uint32)
    ensures var r := Sweep(mode, levels, inc, rem);
            |r.fills| <= r.examined <= CountOrders(levels) && r.entered <= |levels|
  {
    hide AtLevel;
    if levels != [] && rem > 0 && Crosses(levels[0].price, inc) {
      LevelCounters(mode, levels[0].orders, inc, rem);
      SweepCounters(mode, levels[1..], inc, AtLevel(mode, levels[0].orders, inc, rem).remaining);
    }
  }

  /** No counter of MatchStats exceeds the number of resting orders, so none wraps in uint32; and every order examined
      is counted once, as eligible or as a self-trade. */
  lemma StatsFitTheirCounters(mode: MatchingMode, b: Book, inc: Order)
    requires Sound(b)
    ensures var stats := Match(mode, b, inc).stats;
            && stats.fillsGenerated <= stats.restingExamined <= ORDER_POOL_SIZE < U32_LIMIT
            && stats.levelsConsumed <= LEVEL_POOL_SIZE < U32_LIMIT
            && stats.eligibleExamined + stats.selfTradeSkips == stats.restingExamined
            && stats.fillsGenerated == |Match(mode, b, inc).fills|
  {
    hide Sweep, DrySweep, Find, Add;
    SweepCounters(mode, Levels(b, Other(inc.side)), inc, inc.qty);
  }

  /** Price-time counts an order as eligible exactly when it reports a fill with it. */
  lemma {:induction false} TakeEligible(orders: seq<Order>, inc: Order, rem: uint32)
    ensures TakeLevel(orders, inc, rem).eligible == |TakeLevel(orders, inc, rem).fills|
  {
    if orders != [] && rem > 0 {
      TakeEligible(orders[1..], inc, if IsSelfTrade(orders[0], inc) then rem else rem - Min(rem, orders[0].qty));
    }
  }

  lemma {:induction false} SweepEligible(levels: seq<Level>, inc: Order, rem: uint32)
    ensures Sweep(PRICE_TIME, levels, inc, rem).eligible == |Sweep(PRICE_TIME, levels, inc, rem).fills|
  {
    hide TakeLevel;
    if levels != [] && rem > 0 && Crosses(levels[0].price, inc) {
      TakeEligible(levels[0].orders, inc, rem);
      SweepEligible(levels[1..], inc, TakeLevel(levels[0].orders, inc, rem).remaining);
    }
  }

  /** Pro-rata looks at every order of every level it enters, once. */
  lemma {:induction false} SweepExamines(levels: seq<Level>, inc: Order, rem: uint32)
    ensures var r := Sweep(PRO_RATA, levels, inc, rem);
            r.entered <= |levels| && r.examined == CountOrders(levels[..r.entered])
  {
    hide LevelShares, ShareFills, Largest, CountEligible;
    if levels != [] && rem > 0 && Crosses(levels[0].price, inc) {
      var rest := Sweep(PRO_RATA, levels[1..], inc, ProRataLevel(levels[0].orders, inc, rem).remaining);
      SweepExamines(levels[1..], inc, ProRataLevel(levels[0].orders, inc, rem).remaining);
      assert levels[..rest.entered + 1][1..] == levels[1..][..rest.entered];
    }
  }

  lemma InReachFront(levels: seq<Level>, inc: Order, i: nat)
    requires i < |levels| && Crosses(levels[0].price, inc)
    ensures InReach(levels[..i + 1], inc) == EligibleTotal(levels[0].orders, inc) + InReach(levels[1..][..i], inc)
  {
    assert levels[..i + 1][1..] == levels[1..][..i];
  }

  /** n levels are entered: each crosses and is reached with something to trade, and the next is not. */
  ghost predicate Enters(levels: seq<Level>, inc: Order, rem: uint32, n: nat) {
    && n <= |Crossing(levels, inc)| <= |levels|
    && (forall i :: 0 <= i < n ==> InReach(levels[..i], inc) < rem)
    && (n < |Crossing(levels, inc)| ==> InReach(levels[..n], inc) >= rem)
  }

  lemma EntersOneMore(levels: seq<Level>, inc: Order, rem: uint32, n: nat)
    requires levels != [] && rem > 0 && Crosses(levels[0].price, inc)
    requires Enters(levels[1..], inc, rem - Min(rem, EligibleTotal(levels[0].orders, inc)), n)
    ensures Enters(levels, inc, rem, n + 1)
  {
    hide EligibleTotal;
    forall i | 0 <= i <= n
      ensures InReach(levels[..i], inc) < rem
    {
      if i > 0 {
        InReachFront(levels, inc, i - 1);
      }
    }
    InReachFront(levels, inc, n);
  }

  /** In both modes a sweep enters a level exactly when it crosses and the levels before it could not fill the order. */
  lemma {:induction false} LevelsEntered(mode: MatchingMode, levels: seq<Level>, inc: Order, rem: uint32)
    ensures Enters(levels, inc, rem, Sweep(mode, levels, inc, rem).entered)
  {
    hide AtLevel, EligibleTotal, InReach, Enters;
    if levels != [] && rem > 0 && Crosses(levels[0].price, inc) {
      var here := AtLevel(mode, levels[0].orders, inc, rem);
      LevelTakes(mode, levels[0].orders, inc, rem);
      LevelsEntered(mode, levels[1..], inc, here.remaining);
      EntersOneMore(levels, inc, rem, Sweep(mode, levels[1..], inc, here.remaining).entered);
    } else {
      EntersNone(levels, inc, rem);
    }
  }

  lemma EntersNone(levels: seq<Level>, inc: Order, rem: uint32)
    requires levels == [] || rem == 0 || !Crosses(levels[0].price, inc)
    ensures Enters(levels, inc, rem, 0)
  {
    CrossingSplits(levels, inc);
  }

  lemma {:induction false} TakeSkips(orders: seq<Order>, inc: Order, rem: uint32)
    requires TakeLevel(orders, inc, rem).remaining > 0
    ensures var r := TakeLevel(orders, inc, rem); r.examined - r.eligible == |OwnOrders(orders, inc)|
  {
    if orders != [] {
      TakeSkips(orders[1..], inc, if IsSelfTrade(orders[0], inc) then rem else rem - Min(rem, orders[0].qty));
    }
  }

  lemma {:induction false} OthersAreEligible(orders: seq<Order>, inc: Order, k: nat)
    requires k <= |orders|
    ensures CountEligible(orders, inc, k) == k - |OwnOrders(orders[..k], inc)|
  {
    if k > 0 {
      OthersAreEligible(orders, inc, k - 1);
      assert orders[..k] == orders[..k - 1] + [orders[k - 1]];
      OwnConcat(orders[..k - 1], [orders[k - 1]], inc);
      assert [orders[k - 1]][1..] == [];
    }
  }

  lemma LevelSkips(mode: MatchingMode, orders: seq<Order>, inc: Order, rem: uint32)
    requires AtLevel(mode, orders, inc, rem).remaining > 0
    ensures var r := AtLevel(mode, orders, inc, rem); r.examined - r.eligible == |OwnOrders(orders, inc)|
  {
    hide LevelShares, ShareFills, Largest, CountEligible, OwnOrders;
    if mode.PRICE_TIME? {
      TakeSkips(orders, inc, rem);
    } else {
      OthersAreEligible(orders, inc, |orders|);
      assert orders[..|orders|] == orders;
    }
  }

  /** A sweep that runs dry skips the incoming client's orders at crossing prices, each once, and no other. */
  lemma {:induction false} SweepSkips(mode: MatchingMode, levels: seq<Level>, inc: Order, rem: uint32)
    requires Sweep(mode, levels, inc, rem).remaining > 0
    ensures var r := Sweep(mode, levels, inc, rem);
            r.examined - r.eligible == |OwnOrders(Flat(Crossing(levels, inc)), inc)|
  {
    hide AtLevel;
    if levels != [] && Crosses(levels[0].price, inc) {
      var here := AtLevel(mode, levels[0].orders, inc, rem);
      LevelSkips(mode, levels[0].orders, inc, rem);
      SweepSkips(mode, levels[1..], inc, here.remaining);
      FlatCons(levels[0], Crossing(levels[1..], inc));
      OwnConcat(levels[0].orders, Flat(Crossing(levels[1..], inc)), inc);
    }
  }

  lemma OwnInFront(opposite: seq<Level>, inc: Order)
    requires SideOk(Other(inc.side), opposite)
    ensures OwnInTheWay(opposite, inc) <==> OwnOrders(Flat(Crossing(opposite, inc)), inc) != []
  {
    hide Flat, OwnOrders, Crosses, IsSelfTrade, SideOk, Crossing, OwnInTheWay;
    var front := Flat(Crossing(opposite, inc));
    if !OwnInTheWay(opposite, inc) {
      NoOwnInFront(opposite, inc);
    } else {
      CrossingOwn(opposite, inc, OwnOrders(front, inc) + Flat(Beyond(opposite, inc)));
      BeyondNone(opposite, inc);
      assert OwnOrders(front, inc) == [] ==> OwnOrders(front, inc) + Flat(Beyond(opposite, inc)) == Flat(Beyond(opposite, inc));
    }
  }

  /** An accepted order that is not filled has met every own order at a crossing price, and its result says so: the
      self-trades it counts are those orders, so a remainder discarded because of one can be told from the counters. */
  lemma OwnOrdersShow(mode: MatchingMode, b: Book, inc: Order)
    requires BookOk(b) && Accepts(mode, b, inc) && Match(mode, b, inc).stats.remainingQty > 0
    ensures var stats, opposite := Match(mode, b, inc).stats, Levels(b, Other(inc.side));
            && stats.selfTradeSkips == |OwnOrders(Flat(Crossing(opposite, inc)), inc)|
            && (stats.selfTradeSkips > 0 <==> OwnInTheWay(opposite, inc))
  {
    hide Sweep, DrySweep, Find, Add, Crossing, Flat, OwnOrders, OwnInTheWay, SideOk;
    SweepSkips(mode, Levels(b, Other(inc.side)), inc, inc.qty);
    OwnInFront(Levels(b, Other(inc.side)), inc);
  }

  /** What the counters of a match that is not turned away count. */
  lemma CountersMean(mode: MatchingMode, b: Book, inc: Order)
    requires Accepts(mode, b, inc)
    ensures var stats, opposite := Match(mode, b, inc).stats, Levels(b, Other(inc.side));
            && (mode.PRICE_TIME? ==> stats.eligibleExamined == stats.fillsGenerated)
            && Enters(opposite, inc, inc.qty, stats.levelsConsumed)
            && (mode.PRO_RATA? ==> stats.restingExamined == CountOrders(opposite[..stats.levelsConsumed]))
  {
    hide Sweep, DrySweep, Find, Add, InReach, Crossing;
    LevelsEntered(mode, Levels(b, Other(inc.side)), inc, inc.qty);
    SweepEligible(Levels(b, Other(inc.side)), inc, inc.qty);
    SweepExamines(Levels(b, Other(inc.side)), inc, inc.qty);
  }
}
