/** Cancel and replace: what they change and, above all, what they leave exactly as it was. */
module Amendments {
  import opened Types
  import opened Book
  import opened BookLemmas
  import opened MatchSpec
  import opened Sides
  import opened Upkeep
  import opened Runs
  import opened Liquidity
  import opened Remainder
  import opened Settlement

  // ---------- Cancel ----------

  /** The one place of an id in a queue. */
  lemma {:induction false} WithoutOnce(orders: seq<Order>, id: uint64) returns (k: nat)
    requires CountId(orders, id) == 1
    ensures k < |orders| && orders[k].orderId == id
    ensures FindOrder(orders, id) == Some(orders[k])
    ensures Without(orders, id) == orders[..k] + orders[k + 1..]
  {
    if orders[0].orderId == id {
      k := 0;
      CountNone(orders[1..], id);
      WithoutNone(orders[1..], id);
    } else {
      var i := WithoutOnce(orders[1..], id);
      k := i + 1;
      assert [orders[0]] + (orders[1..][..i] + orders[1..][i + 1..]) == orders[..k] + orders[k + 1..];
    }
  }

  lemma {:induction false} CountNone(orders: seq<Order>, id: uint64)
    ensures CountId(orders, id) == 0 <==> NoId(orders, id)
  {
    if orders != [] {
      CountNone(orders[1..], id);
      assert NoId(orders, id) <==> orders[0].orderId != id && NoId(orders[1..], id);
    }
  }

  lemma {:induction false} CountNowhere(levels: seq<Level>, id: uint64)
    requires CountIdOnSide(levels, id) == 0
    ensures Nowhere(levels, id)
  {
    if levels != [] {
      CountNone(levels[0].orders, id);
      CountNowhere(levels[1..], id);
    }
  }

  /** On a well-formed book a cancel takes out exactly the order it names, from whichever side holds it: the queue
      closes up around that place and the other side does not change. */
  lemma CancelRemovesOne(b: Book, id: uint64)
    requires BookOk(b) && Find(b, id).Some?
    ensures exists side, k {:trigger Flat(Levels(b, side))[k]} ::
              && 0 <= k < |Flat(Levels(b, side))|
              && Find(b, id) == Some(Flat(Levels(b, side))[k])
              && Flat(Levels(Cancel(b, id), side)) == Flat(Levels(b, side))[..k] + Flat(Levels(b, side))[k + 1..]
              && Flat(Levels(Cancel(b, id), Other(side))) == Flat(Levels(b, Other(side)))
  {
    hide Without;
    assert CountIdInBook(b, id) <= 1;
    Sides.FindMeans(b, id);
    FlatCount(b.bids, id);
    FlatCount(b.asks, id);
    var side := if CountIdOnSide(b.bids, id) == 1 then BUY else SELL;
    assert CountId(Flat(Levels(b, side)), id) == 1 && CountId(Flat(Levels(b, Other(side))), id) == 0;
    CancelFlat(Levels(b, side), id);
    CancelFlat(Levels(b, Other(side)), id);
    var k := WithoutOnce(Flat(Levels(b, side)), id);
    CountNone(Flat(Levels(b, Other(side))), id);
    WithoutNone(Flat(Levels(b, Other(side))), id);
    FlatFind(b.bids, id);
    FlatFind(b.asks, id);
    FindOrderMeans(Flat(Levels(b, Other(side))), id);
    assert Find(b, id) == Some(Flat(Levels(b, side))[k]);
  }

  lemma {:induction false} CancelLevelsConcat(a: seq<Level>, b: seq<Level>, id: uint64)
    ensures CancelLevels(a + b, id) == CancelLevels(a, id) + CancelLevels(b, id)
  {
    if a == [] {
      assert a + b == b;
    } else {
      CancelLevelsConcat(a[1..], b, id);
      assert (a + b)[1..] == a[1..] + b;
      Regroup(Keep(a[0].price, Without(a[0].orders, id)), CancelLevels(a[1..], id), CancelLevels(b, id));
    }
  }

  lemma CancelAbsent(levels: seq<Level>, id: uint64)
    requires CountIdOnSide(levels, id) == 0 && forall k :: 0 <= k < |levels| ==> levels[k].orders != []
    ensures CancelLevels(levels, id) == levels
  {
    CountNowhere(levels, id);
    CancelNowhere(levels, id);
  }

  lemma {:induction false} AbsentParts(levels: seq<Level>, i: nat, id: uint64)
    requires i <= |levels|
    ensures CountIdOnSide(levels, id) == CountIdOnSide(levels[..i], id) + CountIdOnSide(levels[i..], id)
  {
    if i > 0 {
      assert levels[..i][1..] == levels[1..][..i - 1] && levels[i..] == levels[1..][i - 1..];
      AbsentParts(levels[1..], i - 1, id);
    }
  }

  lemma CancelLast(orders: seq<Order>, o: Order)
    requires CountId(orders, o.orderId) == 0
    ensures Without(orders + [o], o.orderId) == orders
  {
    WithoutConcat(orders, [o], o.orderId);
    CountNone(orders, o.orderId);
    WithoutNone(orders, o.orderId);
    assert [o][1..] == [];
  }

  /** One level between two stretches. */
  lemma CancelMiddle(front: seq<Level>, level: Level, back: seq<Level>, id: uint64)
    requires CountIdOnSide(front, id) == 0 && CountIdOnSide(back, id) == 0
    requires forall k :: 0 <= k < |front| ==> front[k].orders != []
    requires forall k :: 0 <= k < |back| ==> back[k].orders != []
    ensures CancelLevels(front + [level] + back, id) == front + Keep(level.price, Without(level.orders, id)) + back
  {
    CancelLevelsConcat(front + [level], back, id);
    CancelLevelsConcat(front, [level], id);
    CancelAbsent(front, id);
    CancelAbsent(back, id);
    assert [level][1..] == [];
  }

  ghost predicate NoEmptyLevel(levels: seq<Level>) {
    forall k :: 0 <= k < |levels| ==> levels[k].orders != []
  }

  lemma AbsentAround(levels: seq<Level>, i: nat, id: uint64)
    requires i < |levels| && CountIdOnSide(levels, id) == 0
    ensures CountIdOnSide(levels[..i], id) == 0 && CountId(levels[i].orders, id) == 0
    ensures CountIdOnSide(levels[i + 1..], id) == 0
  {
    AbsentParts(levels, i, id);
    assert levels[i..][0] == levels[i] && levels[i..][1..] == levels[i + 1..];
  }

  /** Added to the i-th level. */
  lemma JoinUndone(levels: seq<Level>, i: nat, o: Order)
    requires i < |levels| && levels[i].price == o.price && CountIdOnSide(levels, o.orderId) == 0 && NoEmptyLevel(levels)
    ensures CancelLevels(levels[i := Level(o.price, levels[i].orders + [o])], o.orderId) == levels
  {
    hide CancelLevels, Without, CountIdOnSide, CountId;
    var front, back, level := levels[..i], levels[i + 1..], Level(o.price, levels[i].orders + [o]);
    AbsentAround(levels, i, o.orderId);
    CancelLast(levels[i].orders, o);
    CancelMiddle(front, level, back, o.orderId);
    assert levels[i := level] == front + [level] + back;
    assert levels == front + [levels[i]] + back;
  }

  lemma WithoutItself(o: Order)
    ensures Without([o], o.orderId) == []
  {
    assert [] + [o] == [o];
    CancelLast([], o);
  }

  lemma InsertIs<T>(s: seq<T>, i: nat, x: T)
    requires i <= |s|
    ensures InsertAt(s, i, x) == s[..i] + [x] + s[i..] && s[..i] + [] + s[i..] == s
  {
  }

  /** Added as a new level at position i. */
  lemma OpenUndone(levels: seq<Level>, i: nat, o: Order)
    requires i <= |levels| && CountIdOnSide(levels, o.orderId) == 0 && NoEmptyLevel(levels)
    ensures CancelLevels(InsertAt(levels, i, Level(o.price, [o])), o.orderId) == levels
  {
    hide CancelLevels, Without, CountIdOnSide, CountId;
    AbsentParts(levels, i, o.orderId);
    WithoutItself(o);
    CancelMiddle(levels[..i], Level(o.price, [o]), levels[i..], o.orderId);
    InsertIs(levels, i, Level(o.price, [o]));
  }

  lemma InsertUndone(side: Side, levels: seq<Level>, o: Order)
    requires CountIdOnSide(levels, o.orderId) == 0 && NoEmptyLevel(levels)
    ensures CancelLevels(InsertOrder(side, levels, o), o.orderId) == levels
  {
    hide CancelLevels;
    var i := LowerBound(side, Prices(levels), o.price);
    if HasLevel(side, levels, o.price) {
      JoinUndone(levels, i, o);
    } else {
      OpenUndone(levels, i, o);
    }
  }

  /** Cancelling an order that was just added restores the book exactly. */
  lemma CancelUndoesAdd(b: Book, o: Order)
    requires BookOk(b) && CanAdd(b, o)
    ensures Cancel(Add(b, o), o.orderId) == b
  {
    hide InsertOrder, LowerBound, HasLevel, CancelLevels;
    Sides.FindMeans(b, o.orderId);
    forall side: Side, k: nat | k < |Levels(b, side)|
      ensures Levels(b, side)[k].orders != []
    {
      assert LevelOk(side, Levels(b, side)[k]);
    }
    InsertUndone(o.side, Levels(b, o.side), o);
    CancelAbsent(Levels(b, Other(o.side)), o.orderId);
  }

  // ---------- Replace ----------

  /** Nothing is reported and nothing is counted. */
  predicate Quiet(r: MatchOutcome) {
    && r.fills == []
    && r.stats.fillsGenerated == 0 && r.stats.levelsConsumed == 0 && r.stats.restingExamined == 0
    && r.stats.eligibleExamined == 0 && r.stats.selfTradeSkips == 0 && r.stats.remainingQty == 0
  }

  /** The same queue, place by place, except for the quantity of the order named. */
  ghost predicate SameQueue(before: seq<Order>, after: seq<Order>, id: uint64, qty: uint32) {
    && |after| == |before|
    && forall k :: 0 <= k < |before| ==>
         after[k] == if before[k].orderId == id then before[k].(qty := qty) else before[k]
  }

  ghost predicate SameSide(before: seq<Level>, after: seq<Level>, id: uint64, qty: uint32) {
    && Prices(after) == Prices(before)
    && forall i :: 0 <= i < |before| ==> SameQueue(before[i].orders, after[i].orders, id, qty)
  }

  lemma SideKept(levels: seq<Level>, id: uint64, qty: uint32)
    ensures SameSide(levels, RequantifyLevels(levels, id, qty), id, qty)
  {
    RequantifyLevelsAre(levels, id, qty);
    forall i | 0 <= i < |levels|
      ensures SameQueue(levels[i].orders, RequantifyLevels(levels, id, qty)[i].orders, id, qty)
    {
      RequantifyAre(levels[i].orders, id, qty);
    }
  }

  /** A replace that keeps the price and does not raise the quantity trades nothing and moves nothing: every order keeps
      its place in its queue, and only the named order's quantity differs. */
  lemma ReplaceKeepsPriority(mode: MatchingMode, b: Book, id: uint64, qty: uint32)
    requires Find(b, id).Some? && 0 < qty <= Find(b, id).value.qty
    ensures var r := Replace(mode, b, id, Find(b, id).value.price, qty);
            && SameSide(b.bids, r.book.bids, id, qty) && SameSide(b.asks, r.book.asks, id, qty)
            && Quiet(r)
  {
    hide RequantifyLevels, SameSide, Find;
    SideKept(b.bids, id, qty);
    SideKept(b.asks, id, qty);
  }

  /** A replace to quantity zero is a cancel. */
  lemma ReplaceToZeroCancels(mode: MatchingMode, b: Book, id: uint64, price: int64)
    requires Sound(b)
    ensures Replace(mode, b, id, price, 0).book == Cancel(b, id) && Quiet(Replace(mode, b, id, price, 0))
    ensures Find(Replace(mode, b, id, price, 0).book, id).None?
  {
    hide CancelLevels, Find, Sound;
    CancelForgets(b, id);
    if Find(b, id).None? {
      CancelUnknown(b, id);
    }
  }

  /** A replace of an id under which no order rests changes nothing, reports nothing and counts nothing. */
  lemma ReplaceOfUnknown(mode: MatchingMode, b: Book, id: uint64, price: int64, qty: uint32)
    requires forall o :: o in Flat(b.bids) || o in Flat(b.asks) ==> o.orderId != id
    ensures var r := Replace(mode, b, id, price, qty); r.book == b && Quiet(r)
  {
    hide Match, Cancel, SetQty, Flat;
    Sides.FindMeans(b, id);
  }

  lemma CancelUnknown(b: Book, id: uint64)
    requires Sound(b) && Find(b, id).None?
    ensures Cancel(b, id) == b
  {
    Sides.FindMeans(b, id);
    forall side: Side, k: nat | k < |Levels(b, side)|
      ensures Levels(b, side)[k].orders != []
    {
      assert LevelOk(side, Levels(b, side)[k]);
    }
    assert b.bids == Levels(b, BUY) && b.asks == Levels(b, SELL);
    CancelAbsent(b.bids, id);
    CancelAbsent(b.asks, id);
  }

  /** Any other replace is a cancel followed by a fresh order, with the old identity, that is never turned away: neither
      as a duplicate nor as an unfillable FOK. It is swept, and what is left of it rests by the usual rules. */
  lemma ReplaceResubmits(mode: MatchingMode, b: Book, id: uint64, price: int64, qty: uint32)
    requires Sound(b) && Find(b, id).Some? && qty > 0
    requires price != Find(b, id).value.price || qty > Find(b, id).value.qty
    ensures var order := Find(b, id).value.(price := price, qty := qty);
            && Replace(mode, b, id, price, qty) == Execute(mode, Cancel(b, id), order)
            && order.orderId == id && Rests(order)
  {
    hide Execute, DrySweep, CancelLevels;
    CancelForgets(b, id);
    FoundRests(b, id);
  }

  lemma FoundRests(b: Book, id: uint64)
    requires Sound(b) && Find(b, id).Some?
    ensures Rests(Find(b, id).value) && Find(b, id).value.orderId == id
  {
    Sides.FindMeans(b, id);
  }

  lemma {:induction false} FlatSides(side: Side, levels: seq<Level>)
    requires SideOk(side, levels)
    ensures forall k :: 0 <= k < |Flat(levels)| ==> Flat(levels)[k].side == side
  {
    if levels != [] {
      TailOk(side, levels);
      FlatSides(side, levels[1..]);
      assert LevelOk(side, levels[0]);
    }
  }

  lemma FoundOnSide(b: Book, side: Side, id: uint64)
    requires BookOk(b) && Find(b, id).Some? && Find(b, id).value in Flat(Levels(b, side))
    ensures Find(b, id).value.side == side
    ensures CountIdOnSide(Levels(b, side), id) == 1 && CountIdOnSide(Levels(b, Other(side)), id) == 0
  {
    hide SideOk, Flat;
    var orders := Flat(Levels(b, side));
    Sides.FindMeans(b, id);
    assert CountIdInBook(b, id) <= 1;
    FlatSides(side, Levels(b, side));
    var k :| 0 <= k < |orders| && orders[k] == Find(b, id).value;
    CountAt(orders, k);
    FlatCount(Levels(b, side), id);
  }

  /** A cancel does not touch the other side, and gives back one order. */
  lemma CancelOneSide(b: Book, id: uint64)
    requires BookOk(b) && Find(b, id).Some?
    ensures var opposite := Other(Find(b, id).value.side); Levels(Cancel(b, id), opposite) == Levels(b, opposite)
    ensures OrderCount(Cancel(b, id)) == OrderCount(b) - 1
  {
    hide Find, Flat, CountIdOnSide, CancelLevels, Without;
    Sides.FindMeans(b, id);
    var side := if Find(b, id).value in Flat(b.bids) then BUY else SELL;
    var own, other := Levels(b, side), Levels(b, Other(side));
    FoundOnSide(b, side, id);
    forall k | 0 <= k < |other|
      ensures other[k].orders != []
    {
      assert LevelOk(Other(side), other[k]);
    }
    CancelAbsent(other, id);
    CancelFlat(own, id);
    FlatTotals(own);
    FlatTotals(CancelLevels(own, id));
    FlatCount(own, id);
    WithoutCount(Flat(own), id, id);
  }

  /** Whatever a replace trades, it trades legitimately and never with the order replaced: every fill is with a resting
      order of another client, at that order's price and within the new limit. */
  lemma ReplaceFillsAreLegitimate(mode: MatchingMode, b: Book, id: uint64, price: int64, qty: uint32, f: FillEvent)
    requires Sound(b) && f in Replace(mode, b, id, price, qty).fills
    ensures Find(b, id).Some?
    ensures var order := Find(b, id).value.(price := price, qty := qty);
            exists maker :: maker in Flat(Levels(b, Other(order.side))) && maker.orderId != id && Legitimate(maker, order, f)
  {
    hide Sound, Find, Flat, Match, Cancel, BookOk;
    SoundCounts(b);
    var found := Find(b, id).value;
    var order := Resubmitted(found, price, qty);
    FoundRests(b, id);
    CancelOneSide(b, id);
    CancelSound(b, id);
    SoundCounts(Cancel(b, id));
    FillsAreLegitimate(mode, Cancel(b, id), order, f);
  }

  lemma FateInOne(mode: MatchingMode, b: Book, inc: Order)
    requires Sound(b) && Rests(inc) && Find(b, inc.orderId).None?
    requires Tradeables(Levels(b, Other(inc.side)), inc) < inc.qty
    ensures var r, opposite := Execute(mode, b, inc), Levels(b, Other(inc.side));
            && r.stats.remainingQty == inc.qty - Tradeables(opposite, inc)
            && (r.stats.selfTradeSkips > 0 <==> OwnInTheWay(opposite, inc))
            && Find(r.book, inc.orderId) ==
               if !OwnInTheWay(opposite, inc) && RoomToRest(b, inc)
               then Some(inc.(qty := inc.qty - Tradeables(opposite, inc))) else None
  {
    hide Execute, DrySweep, Find, Sound, Tradeables, OwnInTheWay, RoomToRest, Flat, Crossing;
    SoundCounts(b);
    RemainderFate(mode, b, inc);
    RestsExactlyWhen(mode, b, inc);
    OwnOrdersShow(mode, b, inc);
  }

  /** When a replace that loses priority also loses the order. If the tradeable orders cannot fill the new quantity, what
      is left rests under the old id unless the client's own order stands in the way on the other side, or the new price
      has no level and the level pool is full once the order is cancelled and the crossing levels are gone. An own order
      in the way shows in the result as self-trades; a full pool is not reported. */
  lemma ReplaceKeepsOrLoses(mode: MatchingMode, b: Book, id: uint64, price: int64, qty: uint32)
    requires Sound(b) && Find(b, id).Some? && qty > 0
    requires price != Find(b, id).value.price || qty > Find(b, id).value.qty
    requires var order := Find(b, id).value.(price := price, qty := qty);
             Tradeables(Levels(b, Other(order.side)), order) < qty
    ensures var order := Find(b, id).value.(price := price, qty := qty);
            var opposite, cancelled := Levels(b, Other(order.side)), Cancel(b, id);
            var left := qty - Tradeables(opposite, order);
            var kept := !OwnInTheWay(opposite, order)
                        && (HasLevel(order.side, Levels(cancelled, order.side), price)
                            || LevelCount(cancelled) - |Crossing(opposite, order)| < LEVEL_POOL_SIZE);
            var r := Replace(mode, b, id, price, qty);
            && r.stats.remainingQty == left
            && (r.stats.selfTradeSkips > 0 <==> OwnInTheWay(opposite, order))
            && Find(r.book, id) == if kept then Some(order.(qty := left)) else None
  {
    hide Execute, DrySweep, Find, Cancel, HasLevel, Sound, Tradeables, OwnInTheWay, Crossing, CountOrders, LevelCount, Candidates;
    var order := Find(b, id).value.(price := price, qty := qty);
    SoundCounts(b);
    CancelOneSide(b, id);
    CancelSound(b, id);
    FoundRests(b, id);
    FateInOne(mode, Cancel(b, id), order);
  }

  lemma SoundCounts(b: Book)
    requires Sound(b)
    ensures BookOk(b) && OrderCount(b) <= ORDER_POOL_SIZE
  {
  }
}
