/** Price-time priority. The sweep over levels and queues is one greedy pass over the orders that the incoming one may
    trade with, sorted by price and then by arrival, and its fills are given in closed form. */
module PriceTime {
  import opened Types
  import opened Book
  import BookLemmas
  import opened MatchSpec
  import opened Sides

  /** The i-th fill is with the i-th candidate: those before it leave something, and it takes what they leave up to its
      own quantity. */
  ghost predicate GreedyAt(c: seq<Order>, inc: Order, rem: uint32, fills: seq<FillEvent>, i: nat) {
    && i < |fills| && i < |c|
    && TotalQty(c[..i]) < rem
    && fills[i] == Fill(c[i], inc, Min(c[i].qty, rem - TotalQty(c[..i])))
  }

  /** The fills of `inc` for `rem` against the candidates c, taken strictly in order, as long as there is something left
      to take and somebody to take it from. */
  ghost predicate IsGreedy(c: seq<Order>, inc: Order, rem: uint32, fills: seq<FillEvent>) {
    && (forall i :: 0 <= i < |fills| ==> GreedyAt(c, inc, rem, fills, i))
    && |fills| <= |c|
    && (|fills| < |c| ==> rem <= TotalQty(c[..|fills|]))
  }

  // ---------- One queue ----------

  /** Taking from a queue is taking from its front and then, with what is left, from its back. */
  ghost predicate TakenTogether(a: seq<Order>, b: seq<Order>, inc: Order, rem: uint32) {
    var ra := TakeLevel(a, inc, rem);
    var rb := TakeLevel(b, inc, ra.remaining);
    TakeLevel(a + b, inc, rem) ==
    LevelOutcome(ra.orders + rb.orders, ra.fills + rb.fills, rb.remaining, ra.examined + rb.examined, ra.eligible + rb.eligible)
  }

  lemma {:induction false} TakeConcat(a: seq<Order>, b: seq<Order>, inc: Order, rem: uint32)
    ensures TakenTogether(a, b, inc, rem)
    decreases |a|, 1
  {
    hide AfterFill, Fill;
    if a == [] {
      assert a + b == b;
    } else if rem > 0 {
      assert (a + b)[1..] == a[1..] + b;
      if IsSelfTrade(a[0], inc) {
        TakeConcat(a[1..], b, inc, rem);
        var ra := TakeLevel(a[1..], inc, rem);
        Regroup([a[0]], ra.orders, TakeLevel(b, inc, ra.remaining).orders);
      } else {
        TakeConcatFill(a, b, inc, rem);
      }
    }
  }

  lemma TakeConcatFill(a: seq<Order>, b: seq<Order>, inc: Order, rem: uint32)
    requires a != [] && rem > 0 && !IsSelfTrade(a[0], inc) && (a + b)[1..] == a[1..] + b
    ensures TakenTogether(a, b, inc, rem)
    decreases |a|, 0
  {
    hide AfterFill, Fill;
    var q := Min(rem, a[0].qty);
    TakeConcat(a[1..], b, inc, rem - q);
    var ra := TakeLevel(a[1..], inc, rem - q);
    var rb := TakeLevel(b, inc, ra.remaining);
    Regroup(AfterFill(a[0], q), ra.orders, rb.orders);
    Regroup([Fill(a[0], inc, q)], ra.fills, rb.fills);
  }

  /** Sweeping level by level is taking from one long queue. */
  lemma {:induction false} SweepIsOneQueue(levels: seq<Level>, inc: Order, rem: uint32)
    ensures var r, one := Sweep(PRICE_TIME, levels, inc, rem), TakeLevel(Flat(Crossing(levels, inc)), inc, rem);
            && r.fills == one.fills && r.remaining == one.remaining
            && r.examined == one.examined && r.eligible == one.eligible
            && Flat(r.levels) == one.orders + Flat(Beyond(levels, inc))
  {
    hide TakeLevel;
    var queue := Flat(Crossing(levels, inc));
    if levels == [] || !Crosses(levels[0].price, inc) || rem == 0 {
      CrossingSplits(levels, inc);
      TakeNothing(queue, inc, rem);
    } else {
      var here := TakeLevel(levels[0].orders, inc, rem);
      var rest := Sweep(PRICE_TIME, levels[1..], inc, here.remaining);
      SweepIsOneQueue(levels[1..], inc, here.remaining);
      FlatCons(levels[0], Crossing(levels[1..], inc));
      TakeConcat(levels[0].orders, Flat(Crossing(levels[1..], inc)), inc, rem);
      FlatKeep(levels[0].price, here.orders, rest.levels);
    }
  }

  lemma TakeNothing(queue: seq<Order>, inc: Order, rem: uint32)
    requires queue == [] || rem == 0
    ensures TakeLevel(queue, inc, rem) == LevelOutcome(queue, [], rem, 0, 0)
  {
  }

  lemma PrefixTotal(c: seq<Order>, i: nat)
    requires i < |c|
    ensures c[..i + 1][1..] == c[1..][..i]
    ensures TotalQty(c[..i + 1]) == c[0].qty + TotalQty(c[1..][..i])
  {
    assert c[..i + 1][1..] == c[1..][..i];
  }

  lemma GreedyConsAt(o: Order, c: seq<Order>, inc: Order, rem: uint32, fills: seq<FillEvent>, i: nat)
    requires rem > 0 && IsGreedy(c, inc, rem - Min(rem, o.qty), fills) && i <= |fills|
    ensures GreedyAt([o] + c, inc, rem, [Fill(o, inc, Min(rem, o.qty))] + fills, i)
  {
    var all := [o] + c;
    assert all[1..] == c;
    if i > 0 {
      PrefixTotal(all, i - 1);
      assert GreedyAt(c, inc, rem - Min(rem, o.qty), fills, i - 1);
    }
  }

  /** One more candidate in front. */
  lemma GreedyCons(o: Order, c: seq<Order>, inc: Order, rem: uint32, fills: seq<FillEvent>)
    requires rem > 0 && IsGreedy(c, inc, rem - Min(rem, o.qty), fills)
    ensures IsGreedy([o] + c, inc, rem, [Fill(o, inc, Min(rem, o.qty))] + fills)
  {
    hide GreedyAt;
    var all, out := [o] + c, [Fill(o, inc, Min(rem, o.qty))] + fills;
    forall i | 0 <= i < |out|
      ensures GreedyAt(all, inc, rem, out, i)
    {
      GreedyConsAt(o, c, inc, rem, fills, i);
    }
    if |out| < |all| {
      PrefixTotal(all, |fills|);
      assert all[1..] == c;
    }
  }

  lemma {:induction false} TakeIsGreedy(queue: seq<Order>, inc: Order, rem: uint32)
    requires AllCross(queue, inc)
    ensures IsGreedy(Candidates(queue, inc), inc, rem, TakeLevel(queue, inc, rem).fills)
  {
    if queue != [] && rem > 0 {
      var o := queue[0];
      if IsSelfTrade(o, inc) {
        TakeIsGreedy(queue[1..], inc, rem);
        assert [] + Candidates(queue[1..], inc) == Candidates(queue[1..], inc);
      } else {
        TakeIsGreedy(queue[1..], inc, rem - Min(rem, o.qty));
        GreedyCons(o, Candidates(queue[1..], inc), inc, rem, TakeLevel(queue[1..], inc, rem - Min(rem, o.qty)).fills);
      }
    }
  }

  // ---------- Main results ----------

  /** The fills of a price-time sweep are the greedy ones over all resting orders that cross and are not the incoming
      client's own. */
  lemma FillsAreGreedy(levels: seq<Level>, inc: Order, rem: uint32)
    requires SideOk(Other(inc.side), levels)
    ensures IsGreedy(Candidates(Flat(levels), inc), inc, rem, Sweep(PRICE_TIME, levels, inc, rem).fills)
  {
    SweepIsOneQueue(levels, inc, rem);
    CrossingAll(levels, inc);
    CandidatesInFront(levels, inc);
    TakeIsGreedy(Flat(Crossing(levels, inc)), inc, rem);
  }

  /** There is only one greedy list of fills. */
  lemma GreedyIsUnique(c: seq<Order>, inc: Order, rem: uint32, f: seq<FillEvent>, g: seq<FillEvent>)
    requires IsGreedy(c, inc, rem, f) && IsGreedy(c, inc, rem, g)
    ensures f == g
  {
    if |f| < |g| {
      GreedyReaches(c, inc, rem, g, |f|);
    } else if |g| < |f| {
      GreedyReaches(c, inc, rem, f, |g|);
    }
    forall i | 0 <= i < |f| && i < |g|
      ensures f[i] == g[i]
    {
      assert GreedyAt(c, inc, rem, f, i) && GreedyAt(c, inc, rem, g, i);
    }
  }

  lemma GreedyReaches(c: seq<Order>, inc: Order, rem: uint32, fills: seq<FillEvent>, i: nat)
    requires IsGreedy(c, inc, rem, fills) && i < |fills|
    ensures TotalQty(c[..i]) < rem
  {
    assert GreedyAt(c, inc, rem, fills, i);
  }

  lemma TotalPrefix(c: seq<Order>, i: nat, j: nat)
    requires i <= j <= |c|
    ensures TotalQty(c[..i]) <= TotalQty(c[..j])
    ensures i < j ==> TotalQty(c[..i]) + c[i].qty <= TotalQty(c[..j])
  {
    assert c[..j] == c[..i] + c[i..j];
    BookLemmas.TotalConcat(c[..i], c[i..j]);
    if i < j {
      assert c[i..j][0] == c[i];
    }
  }

  /** Nobody is overtaken: if a later candidate trades, every earlier one has traded all it had. */
  lemma NobodyIsOvertaken(c: seq<Order>, inc: Order, rem: uint32, fills: seq<FillEvent>, i: nat, j: nat)
    requires IsGreedy(c, inc, rem, fills) && i < j < |fills|
    ensures fills[i] == Fill(c[i], inc, c[i].qty)
  {
    TotalPrefix(c, i, j);
    GreedyReaches(c, inc, rem, fills, j);
    assert GreedyAt(c, inc, rem, fills, i);
  }

  ghost predicate InPriority(side: Side, orders: seq<Order>) {
    forall i, j :: 0 <= i < j < |orders| ==> !Better(side, orders[j].price, orders[i].price)
  }

  lemma {:induction false} FlatNoBetter(side: Side, levels: seq<Level>, price: int64)
    requires SideOk(side, levels)
    requires forall k :: 0 <= k < |levels| ==> !Better(side, levels[k].price, price)
    ensures forall k :: 0 <= k < |Flat(levels)| ==> !Better(side, Flat(levels)[k].price, price)
  {
    if levels != [] {
      TailOk(side, levels);
      FlatNoBetter(side, levels[1..], price);
      assert LevelOk(side, levels[0]);
    }
  }

  /** A well-formed side is sorted by price. */
  lemma {:induction false} FlatInPriority(side: Side, levels: seq<Level>)
    requires SideOk(side, levels)
    ensures InPriority(side, Flat(levels))
  {
    if levels != [] {
      TailOk(side, levels);
      FlatInPriority(side, levels[1..]);
      forall k | 0 <= k < |levels[1..]|
        ensures !Better(side, levels[1..][k].price, levels[0].price)
      {
        assert Better(side, Prices(levels)[0], Prices(levels)[k + 1]);
      }
      FlatNoBetter(side, levels[1..], levels[0].price);
      assert LevelOk(side, levels[0]);
    }
  }

  lemma {:induction false} CandidatesInPriority(side: Side, orders: seq<Order>, inc: Order)
    requires InPriority(side, orders)
    ensures InPriority(side, Candidates(orders, inc))
  {
    if orders != [] {
      assert forall i, j :: 0 <= i < j < |orders[1..]| ==> orders[1..][i] == orders[i + 1] && orders[1..][j] == orders[j + 1];
      CandidatesInPriority(side, orders[1..], inc);
      CandidatesAre(orders[1..], inc);
      forall i, j | 0 <= i < j < |Candidates(orders, inc)|
        ensures !Better(side, Candidates(orders, inc)[j].price, Candidates(orders, inc)[i].price)
      {
        if i == 0 && Tradeable(orders[0], inc) {
          var later := Candidates(orders, inc)[j];
          assert later in Candidates(orders[1..], inc);
          var k :| 0 <= k < |orders[1..]| && orders[1..][k] == later;
          assert orders[k + 1] == later;
        }
      }
    }
  }

  /** Price-time priority in one statement: the candidates are in price order, and every fill but the last takes all
      that its maker had, so whoever trades did not jump a better-priced or earlier order that still has quantity. */
  lemma PriorityIsKept(levels: seq<Level>, inc: Order, rem: uint32)
    requires SideOk(Other(inc.side), levels)
    ensures var c, fills := Candidates(Flat(levels), inc), Sweep(PRICE_TIME, levels, inc, rem).fills;
            && InPriority(Other(inc.side), c)
            && |fills| <= |c|
            && (forall i :: 0 <= i < |fills| - 1 ==> fills[i] == Fill(c[i], inc, c[i].qty))
  {
    FillsAreGreedy(levels, inc, rem);
    FlatInPriority(Other(inc.side), levels);
    CandidatesInPriority(Other(inc.side), Flat(levels), inc);
    var c, fills := Candidates(Flat(levels), inc), Sweep(PRICE_TIME, levels, inc, rem).fills;
    forall i | 0 <= i < |fills| - 1
      ensures fills[i] == Fill(c[i], inc, c[i].qty)
    {
      NobodyIsOvertaken(c, inc, rem, fills, i, |fills| - 1);
    }
  }
}
