/** Nothing is created or lost by a sweep, in either matching mode: what leaves the makers is what the fills report,
    order by order and in total, and every fill is legitimate. */
module Conservation {
  import opened Types
  import opened Book
  import opened BookLemmas
  import opened Allocation
  import opened MatchSpec
  import opened Sides

  /** Quantity resting under the ids that `which` selects. */
  function QtyOf(orders: seq<Order>, which: uint64 -> bool): nat {
    if orders == [] then 0 else (if which(orders[0].orderId) then orders[0].qty else 0) + QtyOf(orders[1..], which)
  }

  /** Quantity that the fills took from the makers that `which` selects. */
  function FilledOf(fills: seq<FillEvent>, which: uint64 -> bool): nat {
    if fills == [] then 0 else (if which(fills[0].makerOrderId) then fills[0].qty else 0) + FilledOf(fills[1..], which)
  }

  function SumFills(fills: seq<FillEvent>): nat {
    if fills == [] then 0 else fills[0].qty + SumFills(fills[1..])
  }

  /** A fill that `inc` may have with one of these orders: at that order's price, for no more than it offers. */
  ghost predicate FillFrom(orders: seq<Order>, inc: Order, f: FillEvent) {
    exists k {:trigger orders[k]} :: 0 <= k < |orders| && !IsSelfTrade(orders[k], inc)
                                     && f.qty <= orders[k].qty && f == Fill(orders[k], inc, f.qty)
  }

  ghost predicate FillsFrom(orders: seq<Order>, inc: Order, fills: seq<FillEvent>) {
    forall f {:trigger FillFrom(orders, inc, f)} :: f in fills ==> FillFrom(orders, inc, f)
  }

  /** `after` is what a trade may leave of `before`: some orders smaller, some gone, the rest in their old order. */
  ghost predicate Shrunk(before: seq<Order>, after: seq<Order>) {
    if before == [] then after == []
    else
      || Shrunk(before[1..], after)
      || (&& after != []
          && after[0].qty <= before[0].qty
          && after[0] == before[0].(qty := after[0].qty)
          && Shrunk(before[1..], after[1..]))
  }

  // ---------- Sums over queues and fills ----------

  lemma {:induction false} QtyConcat(a: seq<Order>, b: seq<Order>, which: uint64 -> bool)
    ensures QtyOf(a + b, which) == QtyOf(a, which) + QtyOf(b, which)
  {
    if a == [] {
      assert a + b == b;
    } else {
      QtyConcat(a[1..], b, which);
      assert (a + b)[1..] == a[1..] + b;
    }
  }

  lemma {:induction false} FilledConcat(a: seq<FillEvent>, b: seq<FillEvent>, which: uint64 -> bool)
    ensures FilledOf(a + b, which) == FilledOf(a, which) + FilledOf(b, which)
    ensures SumFills(a + b) == SumFills(a) + SumFills(b)
  {
    if a == [] {
      assert a + b == b;
    } else {
      FilledConcat(a[1..], b, which);
      assert (a + b)[1..] == a[1..] + b;
    }
  }

  const EVERY: uint64 -> bool := _ => true

  lemma {:induction false} QtyOfEvery(orders: seq<Order>)
    ensures QtyOf(orders, EVERY) == TotalQty(orders)
  {
    if orders != [] {
      QtyOfEvery(orders[1..]);
    }
  }

  lemma {:induction false} FilledOfEvery(fills: seq<FillEvent>)
    ensures FilledOf(fills, EVERY) == SumFills(fills)
  {
    if fills != [] {
      FilledOfEvery(fills[1..]);
    }
  }

  // ---------- Shrinking ----------

  lemma {:induction false} ShrunkSelf(orders: seq<Order>)
    ensures Shrunk(orders, orders)
  {
    if orders != [] {
      ShrunkSelf(orders[1..]);
    }
  }

  lemma {:induction false} ShrunkConcat(a: seq<Order>, a2: seq<Order>, b: seq<Order>, b2: seq<Order>)
    requires Shrunk(a, a2) && Shrunk(b, b2)
    ensures Shrunk(a + b, a2 + b2)
  {
    if a == [] {
      assert a + b == b && a2 + b2 == b2;
    } else {
      assert (a + b)[1..] == a[1..] + b;
      if Shrunk(a[1..], a2) {
        ShrunkConcat(a[1..], a2, b, b2);
      } else {
        ShrunkConcat(a[1..], a2[1..], b, b2);
        assert (a2 + b2)[1..] == a2[1..] + b2;
      }
    }
  }

  /** Every order that is left was there before, with at least that quantity. */
  lemma {:induction false} ShrunkFrom(before: seq<Order>, after: seq<Order>, k: nat)
    requires Shrunk(before, after) && k < |after|
    ensures exists i {:trigger before[i]} :: 0 <= i < |before| && after[k].qty <= before[i].qty
                                             && after[k] == before[i].(qty := after[k].qty)
  {
    if Shrunk(before[1..], after) {
      ShrunkFrom(before[1..], after, k);
      var i :| 0 <= i < |before[1..]| && after[k].qty <= before[1..][i].qty && after[k] == before[1..][i].(qty := after[k].qty);
      assert before[1..][i] == before[i + 1];
    } else if k == 0 {
      assert after[0] == before[0].(qty := after[0].qty);
    } else {
      ShrunkFrom(before[1..], after[1..], k - 1);
      var i :| 0 <= i < |before[1..]| && after[k].qty <= before[1..][i].qty && after[k] == before[1..][i].(qty := after[k].qty);
      assert before[1..][i] == before[i + 1];
    }
  }

  lemma {:induction false} ShrunkCount(before: seq<Order>, after: seq<Order>, id: uint64)
    requires Shrunk(before, after)
    ensures CountId(after, id) <= CountId(before, id) && |after| <= |before|
  {
    if before != [] {
      if Shrunk(before[1..], after) {
        ShrunkCount(before[1..], after, id);
      } else {
        ShrunkCount(before[1..], after[1..], id);
      }
    }
  }

  // ---------- One level ----------

  /** What a sweep does to a queue, whatever the policy. */
  ghost predicate Traded(before: seq<Order>, after: seq<Order>, inc: Order, fills: seq<FillEvent>, rem: nat, rem2: nat) {
    && rem == rem2 + SumFills(fills)
    && (forall which :: QtyOf(before, which) == QtyOf(after, which) + FilledOf(fills, which))
    && Shrunk(before, after)
    && FillsFrom(before, inc, fills)
  }

  /** So the queue as a whole loses what was traded. */
  lemma TradedTotal(before: seq<Order>, after: seq<Order>, inc: Order, fills: seq<FillEvent>, rem: nat, rem2: nat)
    requires Traded(before, after, inc, fills, rem, rem2)
    ensures TotalQty(before) == TotalQty(after) + SumFills(fills) && rem - rem2 == SumFills(fills)
  {
    hide Shrunk, FillsFrom, EVERY;
    QtyOfEvery(before);
    QtyOfEvery(after);
    FilledOfEvery(fills);
  }

  lemma FromOne(o: Order, inc: Order, q: uint32)
    requires !IsSelfTrade(o, inc) && q <= o.qty
    ensures FillsFrom([o], inc, [Fill(o, inc, q)])
  {
    assert [o][0] == o;
  }

  lemma FromConcat(a: seq<Order>, b: seq<Order>, inc: Order, fa: seq<FillEvent>, fb: seq<FillEvent>)
    requires FillsFrom(a, inc, fa) && FillsFrom(b, inc, fb)
    ensures FillsFrom(a + b, inc, fa + fb)
  {
    forall f | f in fa + fb
      ensures FillFrom(a + b, inc, f)
    {
      if f in fa {
        assert FillFrom(a, inc, f);
        var k :| 0 <= k < |a| && !IsSelfTrade(a[k], inc) && f.qty <= a[k].qty && f == Fill(a[k], inc, f.qty);
        assert (a + b)[k] == a[k];
      } else {
        assert FillFrom(b, inc, f);
        var k :| 0 <= k < |b| && !IsSelfTrade(b[k], inc) && f.qty <= b[k].qty && f == Fill(b[k], inc, f.qty);
        assert (a + b)[|a| + k] == b[k];
      }
    }
  }

  lemma TradedNothing(orders: seq<Order>, inc: Order, rem: nat)
    ensures Traded(orders, orders, inc, [], rem, rem)
  {
    ShrunkSelf(orders);
  }

  lemma TradedOne(o: Order, inc: Order, q: uint32, rem: nat)
    requires !IsSelfTrade(o, inc) && q <= o.qty && q <= rem
    ensures Traded([o], AfterFill(o, q), inc, [Fill(o, inc, q)], rem, rem - q)
  {
    FromOne(o, inc, q);
    var left := AfterFill(o, q);
    assert [o][1..] == [] && [Fill(o, inc, q)][1..] == [];
    assert left != [] ==> left[1..] == [];
  }

  /** Trades with the front of a queue and then with the rest add up. */
  lemma TradedConcat(a: seq<Order>, a2: seq<Order>, b: seq<Order>, b2: seq<Order>, inc: Order,
                     fa: seq<FillEvent>, fb: seq<FillEvent>, rem: nat, rem2: nat, rem3: nat)
    requires Traded(a, a2, inc, fa, rem, rem2) && Traded(b, b2, inc, fb, rem2, rem3)
    ensures Traded(a + b, a2 + b2, inc, fa + fb, rem, rem3)
  {
    FilledConcat(fa, fb, EVERY);
    ShrunkConcat(a, a2, b, b2);
    FromConcat(a, b, inc, fa, fb);
    forall which
      ensures QtyOf(a + b, which) == QtyOf(a2 + b2, which) + FilledOf(fa + fb, which)
    {
      QtyConcat(a, b, which);
      QtyConcat(a2, b2, which);
      FilledConcat(fa, fb, which);
    }
  }

  lemma {:induction false} TakeLevelTrades(orders: seq<Order>, inc: Order, rem: uint32)
    ensures var r := TakeLevel(orders, inc, rem); Traded(orders, r.orders, inc, r.fills, rem, r.remaining)
  {
    hide Traded;
    if orders == [] || rem == 0 {
      TradedNothing(orders, inc, rem);
    } else {
      var o, q := orders[0], Min(rem, orders[0].qty);
      assert orders == [o] + orders[1..];
      if IsSelfTrade(o, inc) {
        TakeLevelTrades(orders[1..], inc, rem);
        var rest := TakeLevel(orders[1..], inc, rem);
        TradedNothing([o], inc, rem);
        TradedConcat([o], [o], orders[1..], rest.orders, inc, [], rest.fills, rem, rem, rest.remaining);
        assert [] + rest.fills == rest.fills;
      } else {
        TakeLevelTrades(orders[1..], inc, rem - q);
        var rest := TakeLevel(orders[1..], inc, rem - q);
        TradedOne(o, inc, q, rem);
        TradedConcat([o], AfterFill(o, q), orders[1..], rest.orders, inc, [Fill(o, inc, q)], rest.fills,
                     rem, rem - q, rest.remaining);
      }
    }
  }

  /** Shares that only go to orders `inc` may trade with. */
  ghost predicate Payable(orders: seq<Order>, inc: Order, shares: seq<int>) {
    && Tradable(orders, shares)
    && forall k :: 0 <= k < |orders| && IsSelfTrade(orders[k], inc) ==> shares[k] == 0
  }

  lemma {:induction false} SharesTrade(orders: seq<Order>, inc: Order, shares: seq<int>, rem: nat)
    requires Payable(orders, inc, shares) && Sum(shares) <= rem
    ensures Traded(orders, ApplyShares(orders, shares), inc, ShareFills(orders, inc, shares), rem, rem - Sum(shares))
  {
    hide Traded;
    if orders == [] {
      TradedNothing(orders, inc, rem);
    } else {
      var o, q := orders[0], shares[0];
      assert orders == [o] + orders[1..];
      SumNonNegative(shares[1..]);
      SharesTrade(orders[1..], inc, shares[1..], rem - q);
      if q > 0 {
        TradedOne(o, inc, q, rem);
      } else {
        TradedNothing([o], inc, rem);
      }
      TradedConcat([o], AfterShare(o, q), orders[1..], ApplyShares(orders[1..], shares[1..]), inc, ShareFill(o, inc, q),
                   ShareFills(orders[1..], inc, shares[1..]), rem, rem - q, rem - Sum(shares));
    }
  }

  /** Sending out one fill last instead of in its turn changes no sum and no fill. */
  lemma {:induction false} DeferredFill(orders: seq<Order>, inc: Order, shares: seq<int>, m: nat, which: uint64 -> bool)
    requires Tradable(orders, shares) && m < |orders|
    ensures var inTurn, deferred := ShareFills(orders, inc, shares),
                                    ShareFills(orders, inc, shares[m := 0]) + ShareFill(orders[m], inc, shares[m]);
            && FilledOf(deferred, which) == FilledOf(inTurn, which)
            && SumFills(deferred) == SumFills(inTurn)
            && |deferred| == |inTurn|
            && (forall f :: f in deferred ==> f in inTurn)
  {
    hide ShareFill, FilledOf, SumFills;
    var first, rest := ShareFill(orders[0], inc, shares[0]), ShareFills(orders[1..], inc, shares[1..]);
    if m == 0 {
      assert shares[0 := 0][1..] == shares[1..];
      NoFill(orders[0], inc);
      assert ShareFills(orders, inc, shares[0 := 0]) == [] + rest == rest;
      FilledConcat(first, rest, which);
      FilledConcat(rest, first, which);
    } else {
      assert shares[m := 0][1..] == shares[1..][m - 1 := 0];
      DeferredFill(orders[1..], inc, shares[1..], m - 1, which);
      var others, last := ShareFills(orders[1..], inc, shares[1..][m - 1 := 0]), ShareFill(orders[m], inc, shares[m]);
      assert first + others + last == first + (others + last);
      FilledConcat(first, rest, which);
      FilledConcat(first, others + last, which);
    }
  }

  lemma NoFill(o: Order, inc: Order)
    ensures ShareFill(o, inc, 0) == []
  {
  }

  lemma SharesPayable(orders: seq<Order>, inc: Order, L: nat)
    requires EligibleTotal(orders, inc) > 0 && L <= EligibleTotal(orders, inc)
    ensures Payable(orders, inc, LevelShares(orders, inc, L)) && Sum(LevelShares(orders, inc, L)) == L
  {
    LargestExists(orders, inc);
    SharesAreAllocation(Caps(orders, inc), Largest(orders, inc, |orders|), L);
  }

  lemma ProRataLevelTrades(orders: seq<Order>, inc: Order, rem: uint32)
    ensures var r := ProRataLevel(orders, inc, rem); Traded(orders, r.orders, inc, r.fills, rem, r.remaining)
  {
    hide LevelShares, Largest, CountEligible;
    if EligibleTotal(orders, inc) == 0 {
      TradedNothing(orders, inc, rem);
    } else {
      LargestExists(orders, inc);
      var L, m := Min(rem, EligibleTotal(orders, inc)), Largest(orders, inc, |orders|);
      SharesPayable(orders, inc, L);
      var shares := LevelShares(orders, inc, L);
      SharesTrade(orders, inc, shares, rem);
      TradedInAnyOrder(orders, inc, shares, m, rem);
    }
  }

  lemma TradedInAnyOrder(orders: seq<Order>, inc: Order, shares: seq<int>, m: nat, rem: nat)
    requires Payable(orders, inc, shares) && Sum(shares) <= rem && m < |orders|
    requires Traded(orders, ApplyShares(orders, shares), inc, ShareFills(orders, inc, shares), rem, rem - Sum(shares))
    ensures Traded(orders, ApplyShares(orders, shares), inc,
                   ShareFills(orders, inc, shares[m := 0]) + ShareFill(orders[m], inc, shares[m]), rem, rem - Sum(shares))
  {
    hide ShareFills, ShareFill, ApplyShares;
    var inTurn, deferred := ShareFills(orders, inc, shares),
                            ShareFills(orders, inc, shares[m := 0]) + ShareFill(orders[m], inc, shares[m]);
    DeferredFill(orders, inc, shares, m, EVERY);
    forall which
      ensures FilledOf(deferred, which) == FilledOf(inTurn, which)
    {
      DeferredFill(orders, inc, shares, m, which);
    }
    forall f | f in deferred
      ensures FillFrom(orders, inc, f)
    {
      assert f in inTurn;
    }
  }

  lemma LevelTrades(mode: MatchingMode, orders: seq<Order>, inc: Order, rem: uint32)
    ensures var r := AtLevel(mode, orders, inc, rem); Traded(orders, r.orders, inc, r.fills, rem, r.remaining)
  {
    if mode.PRICE_TIME? {
      TakeLevelTrades(orders, inc, rem);
    } else {
      ProRataLevelTrades(orders, inc, rem);
    }
  }

  // ---------- A whole side ----------

  /** The sweep only trades, and only with levels that cross. */
  lemma {:induction false} SweepTrades(mode: MatchingMode, levels: seq<Level>, inc: Order, rem: uint32)
    ensures var r := Sweep(mode, levels, inc, rem);
            && Traded(Flat(levels), Flat(r.levels), inc, r.fills, rem, r.remaining)
            && FillsFrom(Flat(Crossing(levels, inc)), inc, r.fills)
  {
    hide AtLevel, Traded, FillsFrom;
    var r := Sweep(mode, levels, inc, rem);
    if levels == [] || rem == 0 || !Crosses(levels[0].price, inc) {
      TradedNothing(Flat(levels), inc, rem);
      FromNothing(Flat(Crossing(levels, inc)), inc);
    } else {
      var here := AtLevel(mode, levels[0].orders, inc, rem);
      var rest := Sweep(mode, levels[1..], inc, here.remaining);
      LevelTrades(mode, levels[0].orders, inc, rem);
      SweepTrades(mode, levels[1..], inc, here.remaining);
      TradedConcat(levels[0].orders, here.orders, Flat(levels[1..]), Flat(rest.levels), inc, here.fills, rest.fills,
                   rem, here.remaining, rest.remaining);
      FlatKeep(levels[0].price, here.orders, rest.levels);
      FlatCons(levels[0], Crossing(levels[1..], inc));
      TradedFrom(levels[0].orders, here.orders, inc, here.fills, rem, here.remaining);
      FromConcat(levels[0].orders, Flat(Crossing(levels[1..], inc)), inc, here.fills, rest.fills);
    }
  }

  lemma FromNothing(orders: seq<Order>, inc: Order)
    ensures FillsFrom(orders, inc, [])
  {
  }

  lemma TradedFrom(before: seq<Order>, after: seq<Order>, inc: Order, fills: seq<FillEvent>, rem: nat, rem2: nat)
    requires Traded(before, after, inc, fills, rem, rem2)
    ensures FillsFrom(before, inc, fills)
  {
  }
}
