/** How much an order can trade: the dry runs of fill-or-kill foresee the sweep exactly, in both modes, and both
    come to the same figure, the total of the orders the incoming one may trade with. */
module Liquidity {
  import opened Types
  import opened Book
  import BookLemmas
  import opened Allocation
  import opened MatchSpec
  import opened Sides
  import opened Conservation

  /** What `inc` can trade on the opposite side. */
  function Tradeables(levels: seq<Level>, inc: Order): nat {
    TotalQty(Candidates(Flat(levels), inc))
  }

  lemma EligibleCons(orders: seq<Order>, inc: Order)
    requires orders != []
    ensures EligibleTotal(orders, inc) ==
            (if IsSelfTrade(orders[0], inc) then 0 else orders[0].qty) + EligibleTotal(orders[1..], inc)
  {
    assert Caps(orders, inc)[1..] == Caps(orders[1..], inc);
  }

  lemma {:induction false} DryTakeMeans(orders: seq<Order>, inc: Order, rem: uint32)
    ensures DryTake(orders, inc, rem) == rem - Min(rem, EligibleTotal(orders, inc))
  {
    if orders != [] {
      EligibleCons(orders, inc);
      if rem > 0 {
        DryTakeMeans(orders[1..], inc, if IsSelfTrade(orders[0], inc) then rem else rem - Min(rem, orders[0].qty));
      }
    }
  }

  lemma {:induction false} TakeMeans(orders: seq<Order>, inc: Order, rem: uint32)
    ensures TakeLevel(orders, inc, rem).remaining == rem - Min(rem, EligibleTotal(orders, inc))
  {
    if orders != [] {
      EligibleCons(orders, inc);
      if rem > 0 {
        TakeMeans(orders[1..], inc, if IsSelfTrade(orders[0], inc) then rem else rem - Min(rem, orders[0].qty));
      }
    }
  }

  /** Either policy takes as much as there is. */
  lemma LevelTakes(mode: MatchingMode, orders: seq<Order>, inc: Order, rem: uint32)
    ensures AtLevel(mode, orders, inc, rem).remaining == rem - Min(rem, EligibleTotal(orders, inc))
    ensures DryLevel(mode, orders, inc, rem) == rem - Min(rem, EligibleTotal(orders, inc))
  {
    hide LevelShares;
    TakeMeans(orders, inc, rem);
    DryTakeMeans(orders, inc, rem);
  }

  lemma {:induction false} EligibleAre(orders: seq<Order>, inc: Order)
    requires AllCross(orders, inc)
    ensures EligibleTotal(orders, inc) == TotalQty(Candidates(orders, inc))
  {
    if orders != [] {
      EligibleCons(orders, inc);
      EligibleAre(orders[1..], inc);
      var rest := Candidates(orders[1..], inc);
      assert ([orders[0]] + rest)[1..] == rest && [] + rest == rest;
    }
  }

  /** Level by level. */
  function InReach(levels: seq<Level>, inc: Order): nat {
    if levels == [] || !Crosses(levels[0].price, inc) then 0
    else EligibleTotal(levels[0].orders, inc) + InReach(levels[1..], inc)
  }

  lemma {:induction false} InReachAre(levels: seq<Level>, inc: Order)
    requires SideOk(Other(inc.side), levels)
    ensures InReach(levels, inc) == Tradeables(levels, inc)
  {
    if levels == [] || !Crosses(levels[0].price, inc) {
      NoneBehind(levels, inc);
      NoCandidates(Flat(levels), inc);
    } else {
      TailOk(Other(inc.side), levels);
      InReachAre(levels[1..], inc);
      assert LevelOk(Other(inc.side), levels[0]);
      EligibleAre(levels[0].orders, inc);
      CandidatesConcat(levels[0].orders, Flat(levels[1..]), inc);
      BookLemmas.TotalConcat(Candidates(levels[0].orders, inc), Candidates(Flat(levels[1..]), inc));
    }
  }


  lemma {:induction false} SweepTakes(mode: MatchingMode, levels: seq<Level>, inc: Order, rem: uint32)
    ensures Sweep(mode, levels, inc, rem).remaining == rem - Min(rem, InReach(levels, inc))
  {
    hide AtLevel, EligibleTotal, Crosses;
    if levels != [] && Crosses(levels[0].price, inc) && rem > 0 {
      LevelTakes(mode, levels[0].orders, inc, rem);
      SweepTakes(mode, levels[1..], inc, rem - Min(rem, EligibleTotal(levels[0].orders, inc)));
    }
  }

  lemma {:induction false} DrySweepTakes(mode: MatchingMode, levels: seq<Level>, inc: Order, rem: uint32)
    ensures DrySweep(mode, levels, inc, rem) == rem - Min(rem, InReach(levels, inc))
  {
    hide DryLevel, EligibleTotal, Crosses;
    if levels != [] && Crosses(levels[0].price, inc) && rem > 0 {
      LevelTakes(mode, levels[0].orders, inc, rem);
      DrySweepTakes(mode, levels[1..], inc, rem - Min(rem, EligibleTotal(levels[0].orders, inc)));
    }
  }

  // ---------- Main results ----------

  /** The dry run predicts the sweep, in both modes, on any side whatsoever. */
  lemma DryRunPredicts(mode: MatchingMode, levels: seq<Level>, inc: Order, rem: uint32)
    ensures DrySweep(mode, levels, inc, rem) == Sweep(mode, levels, inc, rem).remaining
  {
    hide Sweep, DrySweep, InReach;
    SweepTakes(mode, levels, inc, rem);
    DrySweepTakes(mode, levels, inc, rem);
  }

  /** A sweep stops only when the order is filled or nothing is left to trade with. */
  lemma SweepTakesAll(mode: MatchingMode, levels: seq<Level>, inc: Order, rem: uint32)
    requires SideOk(Other(inc.side), levels)
    ensures Sweep(mode, levels, inc, rem).remaining == rem - Min(rem, Tradeables(levels, inc))
    ensures SumFills(Sweep(mode, levels, inc, rem).fills) == Min(rem, Tradeables(levels, inc))
  {
    SweepTakes(mode, levels, inc, rem);
    InReachAre(levels, inc);
    SweepTrades(mode, levels, inc, rem);
  }

  /** Fill or kill is all or nothing, and the mode has no say in it: with enough to trade, the fills add up to exactly
      the whole order and nothing of it rests; with too little, the book is untouched and there is no fill. */
  lemma FokAllOrNothing(mode: MatchingMode, b: Book, inc: Order)
    requires BookOk(b) && inc.tif.FOK? && Find(b, inc.orderId).None?
    ensures var r, opposite := Match(mode, b, inc), Levels(b, Other(inc.side));
            if Tradeables(opposite, inc) >= inc.qty then
              && SumFills(r.fills) == inc.qty
              && r.stats.remainingQty == 0
              && r.book == WithLevels(b, Other(inc.side), Sweep(mode, opposite, inc, inc.qty).levels)
            else
              r == MatchOutcome(b, [], NO_STATS.(remainingQty := inc.qty))
  {
    hide Sweep, DrySweep, Tradeables;
    SweepTakesAll(mode, Levels(b, Other(inc.side)), inc, inc.qty);
    DryRunPredicts(mode, Levels(b, Other(inc.side)), inc, inc.qty);
  }
}
