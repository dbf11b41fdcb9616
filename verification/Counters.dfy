/** What the six counters of MatchStats say, exactly, in both modes. */
module Counters {
  import opened Types
  import opened Book
  import opened MatchSpec
  import opened Sides
  import opened Liquidity
  import opened PriceTime
  import opened ModesAgree
  import opened Remainder

  /** The first n orders of the queue are those that an order for `rem` reaches before it is full. */
  ghost predicate ReachedUnfilled(queue: seq<Order>, inc: Order, rem: nat, n: nat) {
    && n <= |queue|
    && (forall j :: 0 <= j < n ==> EligibleTotal(queue[..j], inc) < rem)
    && (n < |queue| ==> EligibleTotal(queue[..n], inc) >= rem)
  }

  /** The sweep looks at the first n orders of the queue: in price-time at those that are reached before the order is
      full, in pro-rata at the levels entered. */
  ghost predicate LooksAt(mode: MatchingMode, opposite: seq<Level>, inc: Order, entered: nat, n: nat) {
    && n <= |Flat(opposite)|
    && match mode
       case PRICE_TIME =>
         ReachedUnfilled(Flat(Crossing(opposite, inc)), inc, inc.qty, n)
       case PRO_RATA => entered <= |opposite| && n == CountOrders(opposite[..entered])
  }

  /** All six counters. */
  ghost predicate Counted(mode: MatchingMode, opposite: seq<Level>, inc: Order, r: MatchOutcome) {
    && r.stats.fillsGenerated == |r.fills|
    && Enters(opposite, inc, inc.qty, r.stats.levelsConsumed)
    && LooksAt(mode, opposite, inc, r.stats.levelsConsumed, r.stats.restingExamined)
    && r.stats.selfTradeSkips == |OwnOrders(Flat(opposite)[..r.stats.restingExamined], inc)|
    && r.stats.eligibleExamined == r.stats.restingExamined - r.stats.selfTradeSkips
    && r.stats.remainingQty == inc.qty - Min(inc.qty, Tradeables(opposite, inc))
  }

  // ---------- Price-time ----------

  lemma FrontCons(orders: seq<Order>, inc: Order, j: nat)
    requires j < |orders|
    ensures EligibleTotal(orders[..j + 1], inc) ==
            (if IsSelfTrade(orders[0], inc) then 0 else orders[0].qty) + EligibleTotal(orders[1..][..j], inc)
    ensures OwnOrders(orders[..j + 1], inc) ==
            (if IsSelfTrade(orders[0], inc) then [orders[0]] else []) + OwnOrders(orders[1..][..j], inc)
  {
    hide EligibleTotal;
    EligibleCons(orders[..j + 1], inc);
    assert orders[..j + 1][1..] == orders[1..][..j];
  }

  lemma ReachedOneMore(orders: seq<Order>, inc: Order, rem: uint32, n: nat)
    requires orders != [] && rem > 0
    requires var cap := if IsSelfTrade(orders[0], inc) then 0 else orders[0].qty;
             ReachedUnfilled(orders[1..], inc, rem - Min(rem, cap), n)
    ensures ReachedUnfilled(orders, inc, rem, n + 1)
  {
    hide EligibleTotal, OwnOrders;
    forall j | 0 <= j <= n
      ensures EligibleTotal(orders[..j], inc) < rem
    {
      if j > 0 {
        FrontCons(orders, inc, j - 1);
      } else {
        NothingToTrade(orders, inc);
      }
    }
    FrontCons(orders, inc, n);
  }

  lemma NothingToTrade(orders: seq<Order>, inc: Order)
    ensures EligibleTotal(orders[..0], inc) == 0
  {
    assert Caps(orders[..0], inc) == [];
  }

  lemma {:induction false} TakeLooks(orders: seq<Order>, inc: Order, rem: uint32)
    ensures var r := TakeLevel(orders, inc, rem);
            && ReachedUnfilled(orders, inc, rem, r.examined)
            && r.examined - r.eligible == |OwnOrders(orders[..r.examined], inc)|
  {
    hide ReachedUnfilled, OwnOrders, EligibleTotal;
    if orders == [] || rem == 0 {
      ReachedNothing(orders, inc, rem);
    } else {
      var left := if IsSelfTrade(orders[0], inc) then rem else rem - Min(rem, orders[0].qty);
      TakeLooks(orders[1..], inc, left);
      ReachedOneMore(orders, inc, rem, TakeLevel(orders[1..], inc, left).examined);
      ReachedFits(orders[1..], inc, left, TakeLevel(orders[1..], inc, left).examined);
      FrontCons(orders, inc, TakeLevel(orders[1..], inc, left).examined);
    }
  }

  lemma ReachedFits(orders: seq<Order>, inc: Order, rem: nat, n: nat)
    requires ReachedUnfilled(orders, inc, rem, n)
    ensures n <= |orders|
  {
  }

  lemma ReachedNothing(orders: seq<Order>, inc: Order, rem: uint32)
    requires orders == [] || rem == 0
    ensures ReachedUnfilled(orders, inc, rem, 0) && OwnOrders(orders[..0], inc) == []
  {
    NothingToTrade(orders, inc);
  }

  // ---------- Pro-rata ----------

  /** A level that is entered is looked at whole. */
  lemma LevelLooks(orders: seq<Order>, inc: Order, rem: uint32)
    ensures var r := ProRataLevel(orders, inc, rem);
            r.examined == |orders| && r.examined - r.eligible == |OwnOrders(orders, inc)|
  {
    hide LevelShares, ShareFills, Largest, CountEligible, OwnOrders;
    OthersAreEligible(orders, inc, |orders|);
    assert orders[..|orders|] == orders;
  }

  lemma {:induction false} SweepSkipsOwn(levels: seq<Level>, inc: Order, rem: uint32)
    ensures var r := Sweep(PRO_RATA, levels, inc, rem);
            r.entered <= |levels| && r.examined - r.eligible == |OwnOrders(Flat(levels[..r.entered]), inc)|
  {
    hide ProRataLevel, OwnOrders, Crosses;
    if levels != [] && rem > 0 && Crosses(levels[0].price, inc) {
      var here := ProRataLevel(levels[0].orders, inc, rem);
      var rest := Sweep(PRO_RATA, levels[1..], inc, here.remaining);
      LevelLooks(levels[0].orders, inc, rem);
      SweepSkipsOwn(levels[1..], inc, here.remaining);
      assert levels[..rest.entered + 1] == [levels[0]] + levels[1..][..rest.entered];
      FlatCons(levels[0], levels[1..][..rest.entered]);
      OwnConcat(levels[0].orders, Flat(levels[1..][..rest.entered]), inc);
    } else {
      assert levels[..0] == [] && OwnOrders(Flat([]), inc) == [] by {
        NothingOwn(inc);
      }
    }
  }

  lemma NothingOwn(inc: Order)
    ensures OwnOrders(Flat([]), inc) == []
  {
  }

  /** The queue of the first n levels is the front of the whole queue. */
  lemma FrontQueue(levels: seq<Level>, n: nat)
    requires n <= |levels|
    ensures CountOrders(levels[..n]) <= |Flat(levels)|
    ensures Flat(levels)[..CountOrders(levels[..n])] == Flat(levels[..n])
  {
    assert levels == levels[..n] + levels[n..];
    FlatConcat(levels[..n], levels[n..]);
    FlatTotals(levels[..n]);
  }

  lemma FrontCrossing(levels: seq<Level>, inc: Order, n: nat)
    requires n <= |Flat(Crossing(levels, inc))|
    ensures n <= |Flat(levels)| && Flat(Crossing(levels, inc))[..n] == Flat(levels)[..n]
  {
    CrossingSplits(levels, inc);
  }

  // ---------- Main result ----------

  /** In every match that is not turned away: how many levels and orders were looked at, how many of these were the
      client's own, how many could trade, and what remains. */
  lemma EveryCounterMeans(mode: MatchingMode, b: Book, inc: Order)
    requires BookOk(b)
    ensures Counted(mode, Levels(b, Other(inc.side)), inc, Execute(mode, b, inc))
  {
    hide Sweep, Add, Flat, Crossing, Enters, ReachedUnfilled, OwnOrders, TakeLevel, WouldRestCrossed, Tradeables;
    var opposite := Levels(b, Other(inc.side));
    LevelsEntered(mode, opposite, inc, inc.qty);
    SweepTakesAll(mode, opposite, inc, inc.qty);
    match mode
    case PRICE_TIME =>
      var queue := Flat(Crossing(opposite, inc));
      SweepIsOneQueue(opposite, inc, inc.qty);
      TakeLooks(queue, inc, inc.qty);
      ReachedFits(queue, inc, inc.qty, TakeLevel(queue, inc, inc.qty).examined);
      FrontCrossing(opposite, inc, TakeLevel(queue, inc, inc.qty).examined);
    case PRO_RATA =>
      SweepExamines(opposite, inc, inc.qty);
      SweepSkipsOwn(opposite, inc, inc.qty);
      FrontQueue(opposite, Sweep(PRO_RATA, opposite, inc, inc.qty).entered);
  }
}
