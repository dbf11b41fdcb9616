/** match() as a whole: conservation of quantity, and what every fill it reports is. */
module Settlement {
  import opened Types
  import opened Book
  import BookLemmas
  import opened MatchSpec
  import opened Sides
  import opened Conservation
  import opened Upkeep
  import opened PriceTime

  lemma AddTotal(b: Book, o: Order)
    ensures var added := if CanAdd(b, o) then o.qty else 0;
            && SideQty(Levels(Add(b, o), o.side)) == SideQty(Levels(b, o.side)) + added
            && Levels(Add(b, o), Other(o.side)) == Levels(b, Other(o.side))
  {
    if CanAdd(b, o) {
      hide InsertOrder, LowerBound;
      var own, j := Levels(b, o.side), Ahead(o.side, Levels(b, o.side), o.price);
      InsertFlat(o.side, own, o);
      FlatTotals(own);
      FlatTotals(InsertOrder(o.side, own, o));
      BookLemmas.TotalConcat(Flat(own[..j]) + [o], Flat(own[j..]));
      BookLemmas.TotalConcat(Flat(own[..j]), [o]);
      BookLemmas.TotalConcat(Flat(own[..j]), Flat(own[j..]));
      assert [o][1..] == [];
    }
  }

  /** The sweep of an order, in the terms of the whole match. */
  lemma SweepSettles(mode: MatchingMode, b: Book, inc: Order)
    ensures var opposite := Levels(b, Other(inc.side));
            var swept := Sweep(mode, opposite, inc, inc.qty);
            && inc.qty == SumFills(swept.fills) + swept.remaining
            && SideQty(opposite) == SideQty(swept.levels) + SumFills(swept.fills)
            && (forall which :: QtyOf(Flat(opposite), which) == QtyOf(Flat(swept.levels), which) + FilledOf(swept.fills, which))
  {
    hide Sweep, Shrunk;
    var opposite := Levels(b, Other(inc.side));
    var swept := Sweep(mode, opposite, inc, inc.qty);
    SweepTrades(mode, opposite, inc, inc.qty);
    TradedTotal(Flat(opposite), Flat(swept.levels), inc, swept.fills, inc.qty, swept.remaining);
    FlatTotals(opposite);
    FlatTotals(swept.levels);
  }

  /** In every match, accepted or not: the incoming quantity is traded or reported as remaining; the opposite side loses
      exactly what was traded, maker by maker for any set of ids; and the own side gains the remainder or nothing. */
  lemma MatchConserves(mode: MatchingMode, b: Book, inc: Order)
    ensures var r, opposite := Match(mode, b, inc), Other(inc.side);
            && inc.qty == SumFills(r.fills) + r.stats.remainingQty
            && SideQty(Levels(b, opposite)) == SideQty(Levels(r.book, opposite)) + SumFills(r.fills)
            && (forall which :: QtyOf(Flat(Levels(b, opposite)), which)
                                == QtyOf(Flat(Levels(r.book, opposite)), which) + FilledOf(r.fills, which))
            && (SideQty(Levels(r.book, inc.side)) == SideQty(Levels(b, inc.side))
                || SideQty(Levels(r.book, inc.side)) == SideQty(Levels(b, inc.side)) + r.stats.remainingQty)
  {
    hide Sweep, DrySweep, Find, Add, CanAdd, Crosses, SideQty;
    var opposite := Levels(b, Other(inc.side));
    var swept := Sweep(mode, opposite, inc, inc.qty);
    SweepSettles(mode, b, inc);
    AddTotal(WithLevels(b, Other(inc.side), swept.levels), inc.(qty := swept.remaining));
  }

  /** The fill that `inc` and the resting order `maker` may report. */
  predicate Legitimate(maker: Order, inc: Order, f: FillEvent) {
    && f.makerOrderId == maker.orderId && f.takerOrderId == inc.orderId
    && f.price == maker.price && f.timestampNs == inc.timestampNs
    && f.qty <= maker.qty
    && (if inc.side.BUY? then maker.price <= inc.price else maker.price >= inc.price)
    && maker.clientId != inc.clientId && maker.orderId != inc.orderId
  }

  lemma InFront(levels: seq<Level>, inc: Order, o: Order)
    requires SideOk(Other(inc.side), levels) && o in Flat(Crossing(levels, inc))
    ensures o in Flat(levels) && Crosses(o.price, inc)
  {
    CrossingSplits(levels, inc);
    CrossingAll(levels, inc);
  }

  /** Every fill is at the resting order's price, no worse than the limit, between different orders of different
      clients, and the maker rested in the book before. */
  lemma FillsAreLegitimate(mode: MatchingMode, b: Book, inc: Order, f: FillEvent)
    requires BookOk(b) && f in Match(mode, b, inc).fills
    ensures exists maker :: maker in Flat(Levels(b, Other(inc.side))) && Legitimate(maker, inc, f)
  {
    hide Sweep, DrySweep, Add;
    var opposite := Levels(b, Other(inc.side));
    SweepTrades(mode, opposite, inc, inc.qty);
    assert FillFrom(Flat(Crossing(opposite, inc)), inc, f);
    var front := Flat(Crossing(opposite, inc));
    var k :| 0 <= k < |front| && !IsSelfTrade(front[k], inc) && f.qty <= front[k].qty && f == Fill(front[k], inc, f.qty);
    InFront(opposite, inc, front[k]);
    NotResting(b, inc, front[k]);
    assert Legitimate(front[k], inc, f);
  }

  lemma NotResting(b: Book, inc: Order, o: Order)
    requires Find(b, inc.orderId).None? && o in Flat(Levels(b, Other(inc.side)))
    ensures o.orderId != inc.orderId
  {
    var orders := Flat(Levels(b, Other(inc.side)));
    var k :| 0 <= k < |orders| && orders[k] == o;
    CountAt(orders, k);
    FlatCount(Levels(b, Other(inc.side)), o.orderId);
    Sides.FindMeans(b, o.orderId);
  }

  /** A price-time match that is not turned away: its fills are the greedy prefix allocation of the incoming quantity over
      every crossing order of another client, in price order and then in order of arrival, and nobody who could have
      traded is overtaken. */
  lemma MatchIsPriceTime(b: Book, inc: Order)
    requires BookOk(b) && Accepts(PRICE_TIME, b, inc)
    ensures var c, fills := Candidates(Flat(Levels(b, Other(inc.side))), inc), Match(PRICE_TIME, b, inc).fills;
            && IsGreedy(c, inc, inc.qty, fills)
            && InPriority(Other(inc.side), c)
            && (forall i :: 0 <= i < |fills| - 1 ==> fills[i] == Fill(c[i], inc, c[i].qty))
  {
    hide Sweep, DrySweep, Find, Candidates, Add, Crosses, SideOk;
    FillsAreGreedy(Levels(b, Other(inc.side)), inc, inc.qty);
    PriorityIsKept(Levels(b, Other(inc.side)), inc, inc.qty);
  }
}
