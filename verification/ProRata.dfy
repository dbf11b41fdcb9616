/** The pro-rata policy at one level, in terms of its orders. */
module ProRata {
  import opened Types
  import opened Book
  import opened Allocation
  import opened MatchSpec
  import opened Sides
  import opened Conservation

  /** What a level gives an order that wants `rem`: its shares are the one allocation that hands out
      min(rem, eligible total) exactly, gives each order at least the floor of its proportion and at most its quantity,
      and tops up the largest order first and then the others in FIFO order. The sources of the residual are fewer than
      the orders that may trade, and if anything trades the largest order does. */
  lemma SharesAreExact(orders: seq<Order>, inc: Order, rem: uint32)
    requires EligibleTotal(orders, inc) > 0
    ensures var E, L, m := EligibleTotal(orders, inc), Min(rem, EligibleTotal(orders, inc)), Largest(orders, inc, |orders|);
            var shares := LevelShares(orders, inc, L);
            && ProRataLevel(orders, inc, rem).orders == ApplyShares(orders, shares)
            && SumFills(ProRataLevel(orders, inc, rem).fills) == L
            && 0 <= m && IsAllocation(Caps(orders, inc), m, L, shares)
            && (forall a {:trigger IsAllocation(Caps(orders, inc), m, L, a)} ::
                  IsAllocation(Caps(orders, inc), m, L, a) ==> a == shares)
            && (forall k :: 0 <= k < |orders| ==>
                  if IsSelfTrade(orders[k], inc) then shares[k] == 0
                  else FloorShare(L, orders[k].qty, E) <= shares[k] <= orders[k].qty)
            && 0 <= L - Sum(Floors(Caps(orders, inc), L, E)) < Positive(Caps(orders, inc))
            && (L > 0 ==> shares[m] > 0)
  {
    hide Sum, Walk, FloorShare, CountEligible;
    var caps, L := Caps(orders, inc), Min(rem, EligibleTotal(orders, inc));
    LargestExists(orders, inc);
    var m := Largest(orders, inc, |orders|);
    SharesAreAllocation(caps, m, L);
    ResidualBounds(caps, L);
    if L > 0 {
      LargestTrades(caps, m, L);
    }
    forall a | IsAllocation(caps, m, L, a)
      ensures a == LevelShares(orders, inc, L)
    {
      AllocationIsUnique(caps, m, L, a, Shares(caps, m, L));
    }
    ProRataLevelTrades(orders, inc, rem);
  }
}
