/** One side of the book seen as a single queue in priority order, and how its totals, counts and ids read there. */
module Sides {
  import opened Types
  import opened Book
  import opened BookLemmas
  import opened MatchSpec

  function Flat(levels: seq<Level>): seq<Order> {
    if levels == [] then [] else levels[0].orders + Flat(levels[1..])
  }

  /** The leading levels that cross the limit of `inc`, and the levels behind them. */
  function Crossing(levels: seq<Level>, inc: Order): seq<Level> {
    if levels == [] || !Crosses(levels[0].price, inc) then [] else [levels[0]] + Crossing(levels[1..], inc)
  }

  function Beyond(levels: seq<Level>, inc: Order): seq<Level> {
    if levels == [] || !Crosses(levels[0].price, inc) then levels else Beyond(levels[1..], inc)
  }

  /** A resting order that `inc` may trade with. */
  predicate Tradeable(o: Order, inc: Order) {
    Crosses(o.price, inc) && !IsSelfTrade(o, inc)
  }

  /** The orders of a queue that `inc` may trade with, in queue order. */
  function Candidates(orders: seq<Order>, inc: Order): seq<Order> {
    if orders == [] then []
    else (if Tradeable(orders[0], inc) then [orders[0]] else []) + Candidates(orders[1..], inc)
  }

  ghost predicate AllCross(orders: seq<Order>, inc: Order) {
    forall k :: 0 <= k < |orders| ==> Crosses(orders[k].price, inc)
  }

  ghost predicate NoneCross(orders: seq<Order>, inc: Order) {
    forall k :: 0 <= k < |orders| ==> !Crosses(orders[k].price, inc)
  }

  ghost predicate AllPositive(orders: seq<Order>) {
    forall k :: 0 <= k < |orders| ==> orders[k].qty > 0
  }

  // ---------- Flat ----------

  lemma FlatCons(level: Level, levels: seq<Level>)
    ensures Flat([level] + levels) == level.orders + Flat(levels)
  {
    assert ([level] + levels)[1..] == levels;
  }

  lemma FlatKeep(price: int64, orders: seq<Order>, levels: seq<Level>)
    ensures Flat(Keep(price, orders) + levels) == orders + Flat(levels)
  {
    if orders == [] {
      assert Keep(price, orders) + levels == levels;
    } else {
      FlatCons(Level(price, orders), levels);
    }
  }

  lemma {:induction false} FlatConcat(a: seq<Level>, b: seq<Level>)
    ensures Flat(a + b) == Flat(a) + Flat(b)
  {
    if a == [] {
      assert a + b == b;
    } else {
      FlatConcat(a[1..], b);
      assert (a + b)[1..] == a[1..] + b;
      Regroup(a[0].orders, Flat(a[1..]), Flat(b));
    }
  }

  lemma {:induction false} FlatTotals(levels: seq<Level>)
    ensures SideQty(levels) == TotalQty(Flat(levels))
    ensures CountOrders(levels) == |Flat(levels)|
  {
    if levels != [] {
      FlatTotals(levels[1..]);
      TotalConcat(levels[0].orders, Flat(levels[1..]));
    }
  }

  lemma {:induction false} CountConcat(a: seq<Order>, b: seq<Order>, id: uint64)
    ensures CountId(a + b, id) == CountId(a, id) + CountId(b, id)
  {
    if a == [] {
      assert a + b == b;
    } else {
      CountConcat(a[1..], b, id);
      assert (a + b)[1..] == a[1..] + b;
    }
  }

  lemma {:induction false} FlatCount(levels: seq<Level>, id: uint64)
    ensures CountIdOnSide(levels, id) == CountId(Flat(levels), id)
  {
    if levels != [] {
      FlatCount(levels[1..], id);
      CountConcat(levels[0].orders, Flat(levels[1..]), id);
    }
  }

  lemma {:induction false} CountAt(orders: seq<Order>, k: nat)
    requires k < |orders|
    ensures CountId(orders, orders[k].orderId) > 0
  {
    if k > 0 {
      CountAt(orders[1..], k - 1);
    }
  }

  lemma {:induction false} FindConcat(a: seq<Order>, b: seq<Order>, id: uint64)
    ensures FindOrder(a + b, id) == if FindOrder(a, id).Some? then FindOrder(a, id) else FindOrder(b, id)
  {
    if a == [] {
      assert a + b == b;
    } else {
      FindConcat(a[1..], b, id);
      assert (a + b)[1..] == a[1..] + b;
    }
  }

  lemma {:induction false} FlatFind(levels: seq<Level>, id: uint64)
    ensures FindLevels(levels, id) == FindOrder(Flat(levels), id)
  {
    if levels != [] {
      FlatFind(levels[1..], id);
      FindConcat(levels[0].orders, Flat(levels[1..]), id);
    }
  }

  /** find_order succeeds exactly for the ids that rest, and finds an order with that id. */
  lemma {:induction false} FindOrderMeans(orders: seq<Order>, id: uint64)
    ensures FindOrder(orders, id).Some? <==> CountId(orders, id) > 0
    ensures FindOrder(orders, id).Some? ==> FindOrder(orders, id).value in orders && FindOrder(orders, id).value.orderId == id
  {
    if orders != [] {
      FindOrderMeans(orders[1..], id);
    }
  }

  lemma FindMeans(b: Book, id: uint64)
    ensures Find(b, id).Some? <==> CountIdInBook(b, id) > 0
    ensures Find(b, id).Some? ==> Find(b, id).value.orderId == id
                                  && (Find(b, id).value in Flat(b.bids) || Find(b, id).value in Flat(b.asks))
  {
    FlatFind(b.bids, id);
    FlatFind(b.asks, id);
    FlatCount(b.bids, id);
    FlatCount(b.asks, id);
    FindOrderMeans(Flat(b.bids), id);
    FindOrderMeans(Flat(b.asks), id);
  }

  // ---------- Crossing levels ----------

  lemma {:induction false} CrossingSplits(levels: seq<Level>, inc: Order)
    ensures Crossing(levels, inc) + Beyond(levels, inc) == levels
    ensures Flat(levels) == Flat(Crossing(levels, inc)) + Flat(Beyond(levels, inc))
    ensures forall k :: 0 <= k < |Crossing(levels, inc)| ==> Crosses(Crossing(levels, inc)[k].price, inc)
    ensures Beyond(levels, inc) == [] || !Crosses(Beyond(levels, inc)[0].price, inc)
  {
    hide Crosses, Flat;
    if levels != [] && Crosses(levels[0].price, inc) {
      CrossingSplits(levels[1..], inc);
      assert levels == [levels[0]] + levels[1..];
    }
    FlatConcat(Crossing(levels, inc), Beyond(levels, inc));
  }

  lemma TailOk(side: Side, levels: seq<Level>)
    requires SideOk(side, levels) && levels != []
    ensures SideOk(side, levels[1..])
  {
    assert forall i :: 0 <= i < |levels| - 1 ==> Prices(levels[1..])[i] == Prices(levels)[i + 1];
  }

  /** Behind a level that does not cross, none does. */
  lemma {:induction false} NoneBehind(levels: seq<Level>, inc: Order)
    requires SideOk(Other(inc.side), levels)
    requires levels == [] || !Crosses(levels[0].price, inc)
    ensures NoneCross(Flat(levels), inc)
    ensures forall k :: 0 <= k < |levels| ==> !Crosses(levels[k].price, inc)
  {
    if levels != [] {
      TailOk(Other(inc.side), levels);
      if levels[1..] != [] {
        assert Better(Other(inc.side), Prices(levels)[0], Prices(levels)[1]);
      }
      assert LevelOk(Other(inc.side), levels[0]);
      NoneBehind(levels[1..], inc);
    }
  }

  lemma {:induction false} BeyondNone(levels: seq<Level>, inc: Order)
    requires SideOk(Other(inc.side), levels)
    ensures SideOk(Other(inc.side), Beyond(levels, inc)) && NoneCross(Flat(Beyond(levels, inc)), inc)
    ensures forall k :: 0 <= k < |Beyond(levels, inc)| ==> !Crosses(Beyond(levels, inc)[k].price, inc)
  {
    if levels == [] || !Crosses(levels[0].price, inc) {
      NoneBehind(levels, inc);
    } else {
      TailOk(Other(inc.side), levels);
      BeyondNone(levels[1..], inc);
    }
  }

  lemma {:induction false} CrossingAll(levels: seq<Level>, inc: Order)
    requires SideOk(Other(inc.side), levels)
    ensures AllCross(Flat(Crossing(levels, inc)), inc)
  {
    if levels != [] && Crosses(levels[0].price, inc) {
      TailOk(Other(inc.side), levels);
      CrossingAll(levels[1..], inc);
      assert LevelOk(Other(inc.side), levels[0]);
      FlatCons(levels[0], Crossing(levels[1..], inc));
    }
  }

  // ---------- Candidates ----------

  lemma {:induction false} CandidatesConcat(a: seq<Order>, b: seq<Order>, inc: Order)
    ensures Candidates(a + b, inc) == Candidates(a, inc) + Candidates(b, inc)
  {
    if a == [] {
      assert a + b == b;
    } else {
      CandidatesConcat(a[1..], b, inc);
      assert (a + b)[1..] == a[1..] + b;
      Regroup(if Tradeable(a[0], inc) then [a[0]] else [], Candidates(a[1..], inc), Candidates(b, inc));
    }
  }

  lemma {:induction false} NoCandidates(orders: seq<Order>, inc: Order)
    requires NoneCross(orders, inc)
    ensures Candidates(orders, inc) == []
  {
    if orders != [] {
      NoCandidates(orders[1..], inc);
    }
  }

  /** On a well-formed side only the leading crossing levels matter. */
  lemma CandidatesInFront(levels: seq<Level>, inc: Order)
    requires SideOk(Other(inc.side), levels)
    ensures Candidates(Flat(levels), inc) == Candidates(Flat(Crossing(levels, inc)), inc)
  {
    CrossingSplits(levels, inc);
    BeyondNone(levels, inc);
    NoCandidates(Flat(Beyond(levels, inc)), inc);
    CandidatesConcat(Flat(Crossing(levels, inc)), Flat(Beyond(levels, inc)), inc);
  }

  /** Candidates are orders of the queue, in queue order. */
  lemma {:induction false} CandidatesAre(orders: seq<Order>, inc: Order)
    ensures forall c :: c in Candidates(orders, inc) <==> c in orders && Tradeable(c, inc)
  {
    if orders != [] {
      CandidatesAre(orders[1..], inc);
      forall c
        ensures c in Candidates(orders, inc) <==> c in orders && Tradeable(c, inc)
      {
        assert c in orders <==> c == orders[0] || c in orders[1..];
      }
    }
  }
}
