/** What each operation on the abstract book does to a side seen as one queue, and that the side stays well formed. */
module Upkeep {
  import opened Types
  import opened Book
  import BookLemmas
  import opened MatchSpec
  import opened Sides
  import opened Conservation

  // ---------- Building a side ----------

  ghost predicate AllBehind(side: Side, price: int64, levels: seq<Level>) {
    forall k :: 0 <= k < |levels| ==> Better(side, price, levels[k].price)
  }

  lemma SideCons(side: Side, level: Level, rest: seq<Level>)
    requires LevelOk(side, level) && SideOk(side, rest) && AllBehind(side, level.price, rest)
    ensures SideOk(side, [level] + rest)
  {
    var all := [level] + rest;
    forall i, j | 0 <= i < j < |all|
      ensures Better(side, Prices(all)[i], Prices(all)[j])
    {
      if i > 0 {
        assert Better(side, Prices(rest)[i - 1], Prices(rest)[j - 1]);
      }
    }
  }

  lemma SideUncons(side: Side, levels: seq<Level>)
    requires SideOk(side, levels) && levels != []
    ensures LevelOk(side, levels[0]) && SideOk(side, levels[1..]) && AllBehind(side, levels[0].price, levels[1..])
  {
    TailOk(side, levels);
    forall k | 0 <= k < |levels[1..]|
      ensures Better(side, levels[0].price, levels[1..][k].price)
    {
      assert Better(side, Prices(levels)[0], Prices(levels)[k + 1]);
    }
  }

  /** No new price appears. */
  ghost predicate PricesFrom(before: seq<Level>, after: seq<Level>) {
    forall p: int64 {:trigger HasPrice(after, p)} :: HasPrice(after, p) ==> HasPrice(before, p)
  }

  ghost predicate HasPrice(levels: seq<Level>, price: int64) {
    exists k :: 0 <= k < |levels| && levels[k].price == price
  }

  /** Fewer or the same prices stay behind what they were behind. */
  lemma StillBehind(side: Side, price: int64, before: seq<Level>, after: seq<Level>)
    requires AllBehind(side, price, before) && PricesFrom(before, after)
    ensures AllBehind(side, price, after)
  {
    forall k | 0 <= k < |after|
      ensures Better(side, price, after[k].price)
    {
      assert HasPrice(after, after[k].price);
      assert HasPrice(before, after[k].price);
    }
  }

  lemma PricesCons(level: Level, price: int64, levels: seq<Level>)
    ensures HasPrice([level] + levels, price) <==> level.price == price || HasPrice(levels, price)
  {
    var all := [level] + levels;
    assert all[0] == level;
    if k :| 0 <= k < |levels| && levels[k].price == price {
      assert all[k + 1].price == price;
    }
    if k :| 0 <= k < |all| && all[k].price == price {
      assert k > 0 ==> levels[k - 1].price == price;
    }
  }

  /** A level that keeps some orders in front of what is left behind it. */
  lemma KeepOk(side: Side, level: Level, orders: seq<Order>, before: seq<Level>, after: seq<Level>)
    requires LevelOk(side, level) && AllBehind(side, level.price, before)
    requires orders != [] ==> LevelOk(side, Level(level.price, orders))
    requires SideOk(side, after) && PricesFrom(before, after) && |after| <= |before|
    ensures SideOk(side, Keep(level.price, orders) + after)
    ensures PricesFrom([level] + before, Keep(level.price, orders) + after)
    ensures |Keep(level.price, orders) + after| <= |before| + 1
  {
    StillBehind(side, level.price, before, after);
    forall p {:trigger HasPrice(Keep(level.price, orders) + after, p)} | HasPrice(Keep(level.price, orders) + after, p)
      ensures HasPrice([level] + before, p)
    {
      PricesCons(level, p, before);
      PricesCons(Level(level.price, orders), p, after);
      assert orders == [] ==> Keep(level.price, orders) + after == after;
      assert HasPrice(after, p) ==> HasPrice(before, p);
    }
    if orders == [] {
      assert Keep(level.price, orders) + after == after;
    } else {
      SideCons(side, Level(level.price, orders), after);
    }
  }

  /** The best price cannot improve when no price is added. */
  lemma BestNoBetter(side: Side, before: seq<Level>, after: seq<Level>)
    requires SideOk(side, before) && PricesFrom(before, after) && after != []
    ensures before != [] && !Better(side, after[0].price, before[0].price)
  {
    assert HasPrice(after, after[0].price);
    assert HasPrice(before, after[0].price);
    var k :| 0 <= k < |before| && before[k].price == after[0].price;
    if k > 0 {
      assert Better(side, Prices(before)[0], Prices(before)[k]);
    }
  }

  // ---------- Trading ----------

  /** Orders keep everything but their quantity, so a level that trades stays well formed. */
  lemma ShrunkOk(side: Side, level: Level, after: seq<Order>)
    requires LevelOk(side, level) && Shrunk(level.orders, after) && after != []
    ensures LevelOk(side, Level(level.price, after))
  {
    forall k | 0 <= k < |after|
      ensures after[k].price == level.price && after[k].side == side
    {
      ShrunkFrom(level.orders, after, k);
    }
  }

  lemma {:induction false} SweepOk(mode: MatchingMode, side: Side, levels: seq<Level>, inc: Order, rem: uint32)
    requires SideOk(side, levels)
    ensures var r := Sweep(mode, levels, inc, rem);
            SideOk(side, r.levels) && PricesFrom(levels, r.levels) && |r.levels| <= |levels|
  {
    hide AtLevel, LevelOk, SideOk, PricesFrom, Keep;
    if levels == [] || rem == 0 || !Crosses(levels[0].price, inc) {
      SamePrices(levels);
    } else {
      var here := AtLevel(mode, levels[0].orders, inc, rem);
      SideUncons(side, levels);
      SweepOk(mode, side, levels[1..], inc, here.remaining);
      LevelTrades(mode, levels[0].orders, inc, rem);
      if here.orders != [] {
        ShrunkOk(side, levels[0], here.orders);
      }
      KeepOk(side, levels[0], here.orders, levels[1..], Sweep(mode, levels[1..], inc, here.remaining).levels);
      assert [levels[0]] + levels[1..] == levels;
    }
  }

  lemma SamePrices(levels: seq<Level>)
    ensures PricesFrom(levels, levels)
  {
  }

  // ---------- Cancelling ----------

  lemma {:induction false} WithoutConcat(a: seq<Order>, b: seq<Order>, id: uint64)
    ensures Without(a + b, id) == Without(a, id) + Without(b, id)
  {
    if a == [] {
      assert a + b == b;
    } else {
      WithoutConcat(a[1..], b, id);
      assert (a + b)[1..] == a[1..] + b;
      Regroup(if a[0].orderId == id then [] else [a[0]], Without(a[1..], id), Without(b, id));
    }
  }

  /** Cancelling drops one id from the queue and leaves the rest in their order. */
  lemma {:induction false} CancelFlat(levels: seq<Level>, id: uint64)
    ensures Flat(CancelLevels(levels, id)) == Without(Flat(levels), id)
  {
    if levels != [] {
      CancelFlat(levels[1..], id);
      FlatKeep(levels[0].price, Without(levels[0].orders, id), CancelLevels(levels[1..], id));
      WithoutConcat(levels[0].orders, Flat(levels[1..]), id);
    }
  }

  lemma {:induction false} WithoutAre(orders: seq<Order>, id: uint64)
    ensures forall o :: o in Without(orders, id) <==> o in orders && o.orderId != id
    ensures |Without(orders, id)| <= |orders|
  {
    if orders != [] {
      WithoutAre(orders[1..], id);
      forall o
        ensures o in Without(orders, id) <==> o in orders && o.orderId != id
      {
        assert o in orders <==> o == orders[0] || o in orders[1..];
      }
    }
  }

  lemma {:induction false} WithoutCount(orders: seq<Order>, id: uint64, other: uint64)
    ensures CountId(Without(orders, id), other) == if other == id then 0 else CountId(orders, other)
    ensures |Without(orders, id)| == |orders| - CountId(orders, id)
  {
    if orders != [] {
      WithoutCount(orders[1..], id, other);
      var rest := Without(orders[1..], id);
      assert ([orders[0]] + rest)[1..] == rest && [] + rest == rest;
    }
  }

  lemma CancelledLevelOk(side: Side, level: Level, id: uint64)
    requires LevelOk(side, level) && Without(level.orders, id) != []
    ensures LevelOk(side, Level(level.price, Without(level.orders, id)))
  {
    WithoutAre(level.orders, id);
    var left := Without(level.orders, id);
    assert forall k :: 0 <= k < |left| ==> left[k] in left;
  }

  lemma {:induction false} CancelOk(side: Side, levels: seq<Level>, id: uint64)
    requires SideOk(side, levels)
    ensures var after := CancelLevels(levels, id);
            SideOk(side, after) && PricesFrom(levels, after) && |after| <= |levels|
  {
    hide LevelOk, SideOk, PricesFrom, Keep, Without;
    if levels == [] {
      SamePrices(levels);
    } else {
      SideUncons(side, levels);
      CancelOk(side, levels[1..], id);
      if Without(levels[0].orders, id) != [] {
        CancelledLevelOk(side, levels[0], id);
      }
      KeepOk(side, levels[0], Without(levels[0].orders, id), levels[1..], CancelLevels(levels[1..], id));
      assert [levels[0]] + levels[1..] == levels;
    }
  }

  // ---------- Changing a quantity ----------

  lemma {:induction false} RequantifyAre(orders: seq<Order>, id: uint64, qty: uint32)
    ensures |Requantify(orders, id, qty)| == |orders|
    ensures forall k :: 0 <= k < |orders| ==>
              Requantify(orders, id, qty)[k] == if orders[k].orderId == id then orders[k].(qty := qty) else orders[k]
  {
    if orders != [] {
      RequantifyAre(orders[1..], id, qty);
    }
  }

  /** Only quantities change: the ladder of levels and every queue keep their shape. */
  lemma {:induction false} RequantifyLevelsAre(levels: seq<Level>, id: uint64, qty: uint32)
    ensures var after := RequantifyLevels(levels, id, qty);
            && |after| == |levels|
            && (forall k :: 0 <= k < |levels| ==> after[k] == Level(levels[k].price, Requantify(levels[k].orders, id, qty)))
  {
    if levels != [] {
      RequantifyLevelsAre(levels[1..], id, qty);
    }
  }

  lemma {:induction false} RequantifyConcat(a: seq<Order>, b: seq<Order>, id: uint64, qty: uint32)
    ensures Requantify(a + b, id, qty) == Requantify(a, id, qty) + Requantify(b, id, qty)
  {
    if a == [] {
      assert a + b == b;
    } else {
      RequantifyConcat(a[1..], b, id, qty);
      assert (a + b)[1..] == a[1..] + b;
    }
  }

  lemma {:induction false} RequantifyFlat(levels: seq<Level>, id: uint64, qty: uint32)
    ensures Flat(RequantifyLevels(levels, id, qty)) == Requantify(Flat(levels), id, qty)
  {
    if levels != [] {
      RequantifyFlat(levels[1..], id, qty);
      FlatCons(Level(levels[0].price, Requantify(levels[0].orders, id, qty)), RequantifyLevels(levels[1..], id, qty));
      RequantifyConcat(levels[0].orders, Flat(levels[1..]), id, qty);
    }
  }

  lemma {:induction false} RequantifyCount(orders: seq<Order>, id: uint64, qty: uint32, other: uint64)
    ensures CountId(Requantify(orders, id, qty), other) == CountId(orders, other)
  {
    if orders != [] {
      RequantifyCount(orders[1..], id, qty, other);
    }
  }

  lemma RequantifyOk(side: Side, levels: seq<Level>, id: uint64, qty: uint32)
    requires SideOk(side, levels)
    ensures SideOk(side, RequantifyLevels(levels, id, qty))
  {
    RequantifyLevelsAre(levels, id, qty);
    var after := RequantifyLevels(levels, id, qty);
    assert Prices(after) == Prices(levels);
    forall i | 0 <= i < |after|
      ensures LevelOk(side, after[i])
    {
      assert LevelOk(side, levels[i]);
      RequantifyAre(levels[i].orders, id, qty);
    }
  }

  // ---------- Resting an order ----------

  /** Number of levels that stay ahead of a new order: those at its price or a better one. */
  function Ahead(side: Side, levels: seq<Level>, price: int64): (j: nat)
    ensures j <= |levels|
  {
    LowerBound(side, Prices(levels), price) + if HasLevel(side, levels, price) then 1 else 0
  }

  lemma AheadSplits(side: Side, levels: seq<Level>, price: int64)
    requires SideOk(side, levels)
    ensures forall k :: 0 <= k < Ahead(side, levels, price) ==> !Better(side, price, levels[k].price)
    ensures forall k :: Ahead(side, levels, price) <= k < |levels| ==> Better(side, price, levels[k].price)
  {
    var i := LowerBound(side, Prices(levels), price);
    forall k | Ahead(side, levels, price) <= k < |levels|
      ensures Better(side, price, levels[k].price)
    {
      if k > i {
        assert Better(side, Prices(levels)[i], Prices(levels)[k]);
      }
    }
  }

  /** A new order goes behind every order at its price or a better one, and ahead of every worse one. */
  lemma InsertFlat(side: Side, levels: seq<Level>, o: Order)
    ensures var j := Ahead(side, levels, o.price);
            && Flat(InsertOrder(side, levels, o)) == Flat(levels[..j]) + [o] + Flat(levels[j..])
            && Flat(levels) == Flat(levels[..j]) + Flat(levels[j..])
  {
    var i, j := LowerBound(side, Prices(levels), o.price), Ahead(side, levels, o.price);
    assert levels == levels[..j] + levels[j..];
    FlatConcat(levels[..j], levels[j..]);
    if HasLevel(side, levels, o.price) {
      InsertAtLevel(levels, i, o);
    } else {
      InsertNewLevel(levels, i, o);
    }
  }

  /** Time priority: a new order stands behind every order at its price or a better one and ahead of every worse one. */
  lemma NewOrderStandsLast(side: Side, levels: seq<Level>, o: Order)
    requires SideOk(side, levels)
    ensures var ahead, behind := Flat(levels[..Ahead(side, levels, o.price)]), Flat(levels[Ahead(side, levels, o.price)..]);
            && Flat(levels) == ahead + behind
            && Flat(InsertOrder(side, levels, o)) == ahead + [o] + behind
            && (forall k :: 0 <= k < |ahead| ==> !Better(side, o.price, ahead[k].price))
            && (forall k :: 0 <= k < |behind| ==> Better(side, o.price, behind[k].price))
  {
    hide InsertOrder, LowerBound, HasLevel, Flat, Ahead;
    var j := Ahead(side, levels, o.price);
    InsertFlat(side, levels, o);
    AheadSplits(side, levels, o.price);
    assert forall i :: 0 <= i < |levels| ==> LevelOk(side, levels[i]);
    var ahead, behind := levels[..j], levels[j..];
    FlatPrices(ahead);
    FlatPrices(behind);
    forall k | 0 <= k < |Flat(ahead)|
      ensures !Better(side, o.price, Flat(ahead)[k].price)
    {
      assert HasPrice(ahead, Flat(ahead)[k].price);
    }
    forall k | 0 <= k < |Flat(behind)|
      ensures Better(side, o.price, Flat(behind)[k].price)
    {
      assert HasPrice(behind, Flat(behind)[k].price);
    }
  }

  /** Every order of a queue is filed under one of the prices of its levels. */
  lemma {:induction false} FlatPrices(levels: seq<Level>)
    requires forall i, k :: 0 <= i < |levels| && 0 <= k < |levels[i].orders| ==> levels[i].orders[k].price == levels[i].price
    ensures forall k :: 0 <= k < |Flat(levels)| ==> HasPrice(levels, Flat(levels)[k].price)
  {
    if levels != [] {
      FlatPrices(levels[1..]);
      forall k | 0 <= k < |Flat(levels)|
        ensures HasPrice(levels, Flat(levels)[k].price)
      {
        if k < |levels[0].orders| {
          assert Flat(levels)[k] == levels[0].orders[k];
        } else {
          var p := Flat(levels[1..])[k - |levels[0].orders|].price;
          assert HasPrice(levels[1..], p);
          var i :| 0 <= i < |levels[1..]| && levels[1..][i].price == p;
          assert levels[i + 1].price == p;
        }
      }
    }
  }

  lemma InsertNewLevel(levels: seq<Level>, i: nat, o: Order)
    requires i <= |levels|
    ensures Flat(InsertAt(levels, i, Level(o.price, [o]))) == Flat(levels[..i]) + [o] + Flat(levels[i..])
  {
    var single := Level(o.price, [o]);
    assert InsertAt(levels, i, single) == levels[..i] + ([single] + levels[i..]);
    FlatConcat(levels[..i], [single] + levels[i..]);
    FlatCons(single, levels[i..]);
    assert Flat(levels[..i]) + ([o] + Flat(levels[i..])) == Flat(levels[..i]) + [o] + Flat(levels[i..]);
  }

  lemma InsertAtLevel(levels: seq<Level>, i: nat, o: Order)
    requires i < |levels|
    ensures Flat(levels[i := Level(o.price, levels[i].orders + [o])]) == Flat(levels[..i + 1]) + [o] + Flat(levels[i + 1..])
  {
    var fuller := Level(o.price, levels[i].orders + [o]);
    assert levels[i := fuller] == levels[..i] + ([fuller] + levels[i + 1..]);
    assert levels[..i + 1] == levels[..i] + [levels[i]];
    FlatConcat(levels[..i], [fuller] + levels[i + 1..]);
    FlatConcat(levels[..i], [levels[i]]);
    FlatCons(fuller, levels[i + 1..]);
    FlatCons(levels[i], []);
    assert [levels[i]] + [] == [levels[i]];
    var a, b, c := Flat(levels[..i]), levels[i].orders, Flat(levels[i + 1..]);
    assert a + (b + [o] + c) == a + b + [o] + c;
  }

  lemma InsertOk(side: Side, levels: seq<Level>, o: Order)
    requires SideOk(side, levels) && o.side == side
    ensures SideOk(side, InsertOrder(side, levels, o))
    ensures |InsertOrder(side, levels, o)| == |levels| + if HasLevel(side, levels, o.price) then 0 else 1
    ensures var best := InsertOrder(side, levels, o)[0].price;
            best == o.price || (levels != [] && best == levels[0].price)
  {
    var i := LowerBound(side, Prices(levels), o.price);
    if HasLevel(side, levels, o.price) {
      var fuller := Level(o.price, levels[i].orders + [o]);
      assert LevelOk(side, levels[i]);
      assert Prices(levels[i := fuller]) == Prices(levels);
    } else {
      InsertLevelOk(side, levels, i, o);
    }
  }

  lemma InsertLevelOk(side: Side, levels: seq<Level>, i: nat, o: Order)
    requires SideOk(side, levels) && o.side == side && i == LowerBound(side, Prices(levels), o.price)
    requires !HasLevel(side, levels, o.price)
    ensures SideOk(side, InsertAt(levels, i, Level(o.price, [o])))
  {
    var after := InsertAt(levels, i, Level(o.price, [o]));
    BookLemmas.InsertSorted(side, Prices(levels), i, o.price);
    assert Prices(after) == InsertAt(Prices(levels), i, o.price);
    forall m | 0 <= m < |after|
      ensures LevelOk(side, after[m])
    {
      if m != i {
        assert LevelOk(side, levels[if m < i then m else m - 1]);
      }
    }
  }
}
