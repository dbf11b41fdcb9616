/** Price-time and pro-rata compared from the same book: they differ in who trades at a price, never in how much. */
module ModesAgree {
  import opened Types
  import opened Book
  import opened Allocation
  import opened MatchSpec
  import opened Sides
  import opened Conservation
  import opened Liquidity

  /** The price ladder: each price with the quantity resting there. */
  function Ladder(levels: seq<Level>): seq<(int64, nat)> {
    if levels == [] then [] else [(levels[0].price, TotalQty(levels[0].orders))] + Ladder(levels[1..])
  }

  /** Quantity traded at one price. */
  function TradedAt(fills: seq<FillEvent>, price: int64): nat {
    if fills == [] then 0 else (if fills[0].price == price then fills[0].qty else 0) + TradedAt(fills[1..], price)
  }

  /** The orders of the incoming client, which no sweep touches. */
  function OwnOrders(orders: seq<Order>, inc: Order): seq<Order> {
    if orders == [] then []
    else (if IsSelfTrade(orders[0], inc) then [orders[0]] else []) + OwnOrders(orders[1..], inc)
  }

  // ---------- One level ----------

  lemma {:induction false} TakePositive(orders: seq<Order>, inc: Order, rem: uint32)
    requires AllPositive(orders)
    ensures AllPositive(TakeLevel(orders, inc, rem).orders)
  {
    if orders != [] && rem > 0 {
      TakePositive(orders[1..], inc, if IsSelfTrade(orders[0], inc) then rem else rem - Min(rem, orders[0].qty));
    }
  }

  lemma {:induction false} SharesPositive(orders: seq<Order>, shares: seq<int>)
    requires AllPositive(orders) && Tradable(orders, shares)
    ensures AllPositive(ApplyShares(orders, shares))
  {
    if orders != [] {
      SharesPositive(orders[1..], shares[1..]);
    }
  }

  lemma LevelPositive(mode: MatchingMode, orders: seq<Order>, inc: Order, rem: uint32)
    requires AllPositive(orders)
    ensures AllPositive(AtLevel(mode, orders, inc, rem).orders)
  {
    hide LevelShares, EligibleTotal, Largest;
    if mode.PRICE_TIME? {
      TakePositive(orders, inc, rem);
    } else if EligibleTotal(orders, inc) > 0 {
      SharesPositive(orders, LevelShares(orders, inc, Min(rem, EligibleTotal(orders, inc))));
    }
  }

  lemma EmptyMeansZero(orders: seq<Order>)
    requires AllPositive(orders)
    ensures orders == [] <==> TotalQty(orders) == 0
  {
  }

  lemma {:induction false} TakeAllButOwn(orders: seq<Order>, inc: Order, rem: uint32)
    requires rem > EligibleTotal(orders, inc)
    ensures TakeLevel(orders, inc, rem).orders == OwnOrders(orders, inc)
  {
    if orders != [] {
      EligibleCons(orders, inc);
      TakeAllButOwn(orders[1..], inc, if IsSelfTrade(orders[0], inc) then rem else rem - Min(rem, orders[0].qty));
    }
  }

  lemma {:induction false} FullShares(orders: seq<Order>, inc: Order)
    requires AllPositive(orders) && Tradable(orders, Caps(orders, inc))
    ensures ApplyShares(orders, Caps(orders, inc)) == OwnOrders(orders, inc)
  {
    if orders != [] {
      assert Caps(orders, inc)[1..] == Caps(orders[1..], inc);
      FullShares(orders[1..], inc);
    }
  }

  lemma {:induction false} NothingEligible(orders: seq<Order>, inc: Order)
    requires AllPositive(orders) && EligibleTotal(orders, inc) == 0
    ensures OwnOrders(orders, inc) == orders
  {
    if orders != [] {
      EligibleCons(orders, inc);
      NothingEligible(orders[1..], inc);
    }
  }

  lemma ProRataAllButOwn(orders: seq<Order>, inc: Order, rem: uint32)
    requires AllPositive(orders) && rem > EligibleTotal(orders, inc)
    ensures ProRataLevel(orders, inc, rem).orders == OwnOrders(orders, inc)
  {
    if EligibleTotal(orders, inc) == 0 {
      NothingEligible(orders, inc);
    } else {
      LargestExists(orders, inc);
      WholeLevel(Caps(orders, inc), Largest(orders, inc, |orders|));
      assert LevelShares(orders, inc, EligibleTotal(orders, inc)) == Caps(orders, inc);
      FullShares(orders, inc);
    }
  }

  /** A level that is swept and leaves something to trade keeps the incoming client's orders and nothing else. */
  lemma LevelLeavesOwn(mode: MatchingMode, orders: seq<Order>, inc: Order, rem: uint32)
    requires AllPositive(orders) && AtLevel(mode, orders, inc, rem).remaining > 0
    ensures AtLevel(mode, orders, inc, rem).orders == OwnOrders(orders, inc)
  {
    LevelTakes(mode, orders, inc, rem);
    if mode.PRICE_TIME? {
      TakeAllButOwn(orders, inc, rem);
    } else {
      ProRataAllButOwn(orders, inc, rem);
    }
  }

  lemma {:induction false} TradedAtConcat(a: seq<FillEvent>, b: seq<FillEvent>, price: int64)
    ensures TradedAt(a + b, price) == TradedAt(a, price) + TradedAt(b, price)
  {
    if a == [] {
      assert a + b == b;
    } else {
      TradedAtConcat(a[1..], b, price);
      assert (a + b)[1..] == a[1..] + b;
    }
  }

  lemma {:induction false} TradedAtOne(fills: seq<FillEvent>, p: int64, price: int64)
    requires forall f :: f in fills ==> f.price == p
    ensures TradedAt(fills, price) == if p == price then SumFills(fills) else 0
  {
    if fills != [] {
      TradedAtOne(fills[1..], p, price);
    }
  }

  lemma LevelTradedAt(mode: MatchingMode, side: Side, level: Level, inc: Order, rem: uint32, price: int64)
    requires LevelOk(side, level)
    ensures var r := AtLevel(mode, level.orders, inc, rem);
            TradedAt(r.fills, price) == if level.price == price then rem - r.remaining else 0
  {
    LevelTrades(mode, level.orders, inc, rem);
    var r := AtLevel(mode, level.orders, inc, rem);
    forall f | f in r.fills
      ensures f.price == level.price
    {
      assert FillFrom(level.orders, inc, f);
    }
    TradedAtOne(r.fills, level.price, price);
  }

  lemma LevelTotal(mode: MatchingMode, orders: seq<Order>, inc: Order, rem: uint32)
    ensures var r := AtLevel(mode, orders, inc, rem); TotalQty(orders) - TotalQty(r.orders) == rem - r.remaining
  {
    hide AtLevel, Traded;
    var r := AtLevel(mode, orders, inc, rem);
    LevelTrades(mode, orders, inc, rem);
    TradedTotal(orders, r.orders, inc, r.fills, rem, r.remaining);
  }

  /** Both policies empty a level, or neither does. */
  lemma LevelsAgree(orders: seq<Order>, inc: Order, rem: uint32)
    requires AllPositive(orders)
    ensures var pt, pr := AtLevel(PRICE_TIME, orders, inc, rem), AtLevel(PRO_RATA, orders, inc, rem);
            && pt.remaining == pr.remaining
            && TotalQty(pt.orders) == TotalQty(pr.orders)
            && (pt.orders == [] <==> pr.orders == [])
            && (pt.remaining > 0 ==> pt.orders == pr.orders)
  {
    LevelTakes(PRICE_TIME, orders, inc, rem);
    LevelTakes(PRO_RATA, orders, inc, rem);
    LevelTotal(PRICE_TIME, orders, inc, rem);
    LevelTotal(PRO_RATA, orders, inc, rem);
    LevelPositive(PRICE_TIME, orders, inc, rem);
    LevelPositive(PRO_RATA, orders, inc, rem);
    EmptyMeansZero(AtLevel(PRICE_TIME, orders, inc, rem).orders);
    EmptyMeansZero(AtLevel(PRO_RATA, orders, inc, rem).orders);
    if AtLevel(PRICE_TIME, orders, inc, rem).remaining > 0 {
      LevelLeavesOwn(PRICE_TIME, orders, inc, rem);
      LevelLeavesOwn(PRO_RATA, orders, inc, rem);
    }
  }

  // ---------- A whole side ----------

  lemma LadderKeep(price: int64, a: seq<Order>, b: seq<Order>, la: seq<Level>, lb: seq<Level>)
    requires TotalQty(a) == TotalQty(b) && (a == [] <==> b == []) && Ladder(la) == Ladder(lb)
    ensures Ladder(Keep(price, a) + la) == Ladder(Keep(price, b) + lb)
  {
    if a == [] {
      assert Keep(price, a) + la == la && Keep(price, b) + lb == lb;
    } else {
      assert (Keep(price, a) + la)[1..] == la && (Keep(price, b) + lb)[1..] == lb;
    }
  }

  /** What the modes have in common: how far they get, what is left to trade, the ladder they leave, and what they trade
      at each price. If the order is not filled they leave the very same orders. */
  ghost predicate Agree(pt: SideOutcome, pr: SideOutcome) {
    && pt.remaining == pr.remaining
    && pt.entered == pr.entered
    && Ladder(pt.levels) == Ladder(pr.levels)
    && (forall price :: TradedAt(pt.fills, price) == TradedAt(pr.fills, price))
    && (pt.remaining > 0 ==> pt.levels == pr.levels)
  }

  lemma AgreeNext(side: Side, level: Level, inc: Order, rem: uint32, pt: SideOutcome, pr: SideOutcome)
    requires LevelOk(side, level) && AllPositive(level.orders) && Agree(pt, pr)
    requires pt.remaining <= AtLevel(PRICE_TIME, level.orders, inc, rem).remaining
    ensures var ptHere, prHere := AtLevel(PRICE_TIME, level.orders, inc, rem), AtLevel(PRO_RATA, level.orders, inc, rem);
            Agree(SideOutcome(Keep(level.price, ptHere.orders) + pt.levels, ptHere.fills + pt.fills, pt.remaining,
                              pt.entered + 1, ptHere.examined + pt.examined, ptHere.eligible + pt.eligible),
                  SideOutcome(Keep(level.price, prHere.orders) + pr.levels, prHere.fills + pr.fills, pr.remaining,
                              pr.entered + 1, prHere.examined + pr.examined, prHere.eligible + pr.eligible))
  {
    hide AtLevel;
    var ptHere, prHere := AtLevel(PRICE_TIME, level.orders, inc, rem), AtLevel(PRO_RATA, level.orders, inc, rem);
    LevelsAgree(level.orders, inc, rem);
    LadderKeep(level.price, ptHere.orders, prHere.orders, pt.levels, pr.levels);
    forall price
      ensures TradedAt(ptHere.fills + pt.fills, price) == TradedAt(prHere.fills + pr.fills, price)
    {
      TradedAtConcat(ptHere.fills, pt.fills, price);
      TradedAtConcat(prHere.fills, pr.fills, price);
      LevelTradedAt(PRICE_TIME, side, level, inc, rem, price);
      LevelTradedAt(PRO_RATA, side, level, inc, rem, price);
    }
  }

  lemma {:induction false} SweepsAgree(levels: seq<Level>, inc: Order, rem: uint32)
    requires SideOk(Other(inc.side), levels) && AllPositive(Flat(levels))
    ensures Agree(Sweep(PRICE_TIME, levels, inc, rem), Sweep(PRO_RATA, levels, inc, rem))
  {
    hide AtLevel, Agree;
    if levels == [] || rem == 0 || !Crosses(levels[0].price, inc) {
      AgreeSelf(Sweep(PRICE_TIME, levels, inc, rem));
    } else {
      PositiveParts(levels);
      TailOk(Other(inc.side), levels);
      assert LevelOk(Other(inc.side), levels[0]);
      LevelsAgree(levels[0].orders, inc, rem);
      var left := AtLevel(PRICE_TIME, levels[0].orders, inc, rem).remaining;
      SweepsAgree(levels[1..], inc, left);
      AgreeNext(Other(inc.side), levels[0], inc, rem, Sweep(PRICE_TIME, levels[1..], inc, left), Sweep(PRO_RATA, levels[1..], inc, left));
    }
  }

  lemma AgreeSelf(r: SideOutcome)
    ensures Agree(r, r)
  {
  }

  lemma PositiveParts(levels: seq<Level>)
    requires levels != [] && AllPositive(Flat(levels))
    ensures AllPositive(levels[0].orders) && AllPositive(Flat(levels[1..]))
  {
    var rest := Flat(levels[1..]);
    forall k | 0 <= k < |levels[0].orders|
      ensures levels[0].orders[k].qty > 0
    {
      assert Flat(levels)[k] == levels[0].orders[k];
    }
    forall k | 0 <= k < |rest|
      ensures rest[k].qty > 0
    {
      assert Flat(levels)[|levels[0].orders| + k] == rest[k];
    }
  }

  // ---------- Main result ----------

  /** The same order, matched in either mode against the same book of positive orders, is accepted or rejected alike,
      leaves the same unfilled quantity, enters the same number of levels, leaves the same ladder on both sides, and
      trades the same quantity at every price; unless it is filled, even the books are identical. */
  lemma MatchesAgree(b: Book, inc: Order)
    requires BookOk(b) && AllPositive(Flat(Levels(b, Other(inc.side))))
    ensures var pt, pr := Match(PRICE_TIME, b, inc), Match(PRO_RATA, b, inc);
            && pt.stats.remainingQty == pr.stats.remainingQty
            && pt.stats.levelsConsumed == pr.stats.levelsConsumed
            && Ladder(pt.book.bids) == Ladder(pr.book.bids)
            && Ladder(pt.book.asks) == Ladder(pr.book.asks)
            && (forall price :: TradedAt(pt.fills, price) == TradedAt(pr.fills, price))
            && (pt.stats.remainingQty > 0 ==> pt.book == pr.book)
  {
    hide Sweep, Find, Add, DrySweep, Crosses;
    var opposite := Levels(b, Other(inc.side));
    SweepsAgree(opposite, inc, inc.qty);
    DryRunPredicts(PRICE_TIME, opposite, inc, inc.qty);
    DryRunPredicts(PRO_RATA, opposite, inc, inc.qty);
  }

  const STALE := Order(1, 100, 0, SELL, GTC, NEW_OR_CANCEL, 0, 7, "")
  const BUYER := Order(2, 100, 5, BUY, GTC, NEW_OR_CANCEL, 0, 8, "")

  /** Positive quantities are needed. An order of quantity zero, which add_order itself would take, trades zero and goes
      in price-time mode, and stays in pro-rata mode. */
  lemma ZeroQuantitySplitsTheModes()
    ensures TakeLevel([STALE], BUYER, 5).orders == [] && TakeLevel([STALE], BUYER, 5).fills == [Fill(STALE, BUYER, 0)]
    ensures ProRataLevel([STALE], BUYER, 5).orders == [STALE] && ProRataLevel([STALE], BUYER, 5).fills == []
  {
    EligibleCons([STALE], BUYER);
    assert [STALE][1..] == [] && Caps([], BUYER) == [];
    assert EligibleTotal([STALE], BUYER) == 0;
  }
}
