/** What each operation does, told from the book before it and from what can be seen after it: who is found, how the
    queues stand, what was filled and what was counted. Every predicate of the first section can be read without the
    functions that compute the outcomes. */
module Outcomes {
  import opened Types
  import opened Book
  import opened MatchSpec
  import opened Sides
  import opened Conservation
  import opened Liquidity
  import opened PriceTime
  import opened Upkeep
  import opened Runs
  import opened Remainder
  import opened Amendments
  import opened ProRataMatch
  import opened Counters

  // ---------- Outcomes ----------

  /** The book without the order called id: it is not found any more, and every other order stands where it stood. */
  ghost predicate Removed(b: Book, id: uint64, after: Book) {
    && Find(after, id).None? && BookOk(after)
    && exists side, k {:trigger Flat(Levels(b, side))[k]} ::
         && 0 <= k < |Flat(Levels(b, side))| && Flat(Levels(b, side))[k].orderId == id
         && Flat(Levels(after, side)) == Flat(Levels(b, side))[..k] + Flat(Levels(b, side))[k + 1..]
         && Flat(Levels(after, Other(side))) == Flat(Levels(b, Other(side)))
  }

  /** The book with one more order: refused if the id rests or a pool cannot serve it, else last at its price. */
  ghost predicate Added(b: Book, o: Order, after: Book) {
    if Find(b, o.orderId).Some? || OrderCount(b) >= ORDER_POOL_SIZE
       || (!HasPrice(Levels(b, o.side), o.price) && LevelCount(b) >= LEVEL_POOL_SIZE)
    then after == b
    else
      && Find(after, o.orderId) == Some(o) && BookOk(after)
      && StandsLast(o.side, Flat(Levels(b, o.side)), o, Flat(Levels(after, o.side)))
      && Levels(after, Other(o.side)) == Levels(b, Other(o.side))
  }

  /** Turned away: the book is as it was and the whole quantity is reported as remaining. */
  predicate TurnedAway(b: Book, inc: Order, r: MatchOutcome) {
    && r.book == b && r.fills == [] && r.stats.remainingQty == inc.qty
    && r.stats.fillsGenerated == 0 && r.stats.levelsConsumed == 0 && r.stats.restingExamined == 0
    && r.stats.eligibleExamined == 0 && r.stats.selfTradeSkips == 0
  }

  /** A queue after fills: each order less what the fills took from it, the used-up ones gone. */
  function Reduced(orders: seq<Order>, fills: seq<FillEvent>): seq<Order> {
    if orders == [] then []
    else
      var received := Received(fills, orders[0].orderId);
      (if received < orders[0].qty then [orders[0].(qty := orders[0].qty - received)] else []) + Reduced(orders[1..], fills)
  }

  /** One queue is another with o in it, behind everything at its price or a better one and ahead of the rest. */
  ghost predicate StandsLast(side: Side, before: seq<Order>, o: Order, after: seq<Order>) {
    exists j {:trigger before[..j]} ::
      && 0 <= j <= |before| && after == before[..j] + [o] + before[j..]
      && (forall k :: 0 <= k < j ==> !Better(side, o.price, before[k].price))
      && (forall k :: j <= k < |before| ==> Better(side, o.price, before[k].price))
  }

  /** The fills of a whole order: greedy by price and then arrival, or level by level in proportion. */
  ghost predicate FilledBy(mode: MatchingMode, opposite: seq<Level>, inc: Order, entered: nat, fills: seq<FillEvent>) {
    match mode
    case PRICE_TIME => IsGreedy(Candidates(Flat(opposite), inc), inc, inc.qty, fills)
    case PRO_RATA => exists parts :: IsProRata(opposite, inc, inc.qty, entered, parts, fills)
  }

  /** Something is left of a GTC order, none of its client's orders is in the way, and the pools will have room. */
  ghost predicate LeavesARest(b: Book, inc: Order) {
    && inc.tif.GTC? && Tradeables(Levels(b, Other(inc.side)), inc) < inc.qty
    && !OwnInTheWay(Levels(b, Other(inc.side)), inc) && RoomToRest(b, inc)
  }

  /** The order's own side afterwards. */
  ghost predicate OwnSide(b: Book, inc: Order, after: Book) {
    if LeavesARest(b, inc) then
      var rest := inc.(qty := inc.qty - Tradeables(Levels(b, Other(inc.side)), inc));
      && Find(after, inc.orderId) == Some(rest)
      && StandsLast(inc.side, Flat(Levels(b, inc.side)), rest, Flat(Levels(after, inc.side)))
    else
      && Find(after, inc.orderId).None?
      && Levels(after, inc.side) == Levels(b, inc.side)
  }

  /** Executed: fills by the policy in force, the opposite queue shorter by the fills, the rest in the book or not. */
  ghost predicate Executed(mode: MatchingMode, b: Book, inc: Order, r: MatchOutcome) {
    var opposite := Levels(b, Other(inc.side));
    && FilledBy(mode, opposite, inc, r.stats.levelsConsumed, r.fills)
    && Counted(mode, opposite, inc, r)
    && Flat(Levels(r.book, Other(inc.side))) == Reduced(Flat(opposite), r.fills)
    && OwnSide(b, inc, r.book)
    && BookOk(r.book)
  }

  /** A cancel of an id, resting or not. */
  ghost predicate Cancelled(b: Book, id: uint64, r: MatchOutcome) {
    && Quiet(r)
    && if Find(b, id).None? then r.book == b else Removed(b, id, r.book)
  }

  /** A new order. */
  ghost predicate Submitted(mode: MatchingMode, b: Book, inc: Order, r: MatchOutcome) {
    if Find(b, inc.orderId).Some? || (inc.tif.FOK? && Tradeables(Levels(b, Other(inc.side)), inc) < inc.qty)
    then TurnedAway(b, inc, r)
    else Executed(mode, b, inc, r)
  }

  /** An amended order: unknown, cancelled, made smaller where it stands, or taken out and executed anew. */
  ghost predicate Amended(mode: MatchingMode, b: Book, id: uint64, price: int64, qty: uint32, r: MatchOutcome) {
    var found := Find(b, id);
    if found.None? then r.book == b && Quiet(r)
    else if qty == 0 then Removed(b, id, r.book) && Quiet(r)
    else if price == found.value.price && qty <= found.value.qty then
      SameSide(b.bids, r.book.bids, id, qty) && SameSide(b.asks, r.book.asks, id, qty) && Quiet(r)
    else
      exists without :: Removed(b, id, without) && Executed(mode, without, found.value.(price := price, qty := qty), r)
  }

  /** One event of the matching thread. */
  ghost predicate Dispatched(mode: MatchingMode, b: Book, o: Order, r: MatchOutcome) {
    if o.eventTag.REPLACE? then Amended(mode, b, o.orderId, o.price, o.qty, r)
    else if o.qty == 0 then Cancelled(b, o.orderId, r)
    else Submitted(mode, b, o, r)
  }

  // ---------- Queues determine sides ----------

  /** Behind the first level every order has a worse price. */
  lemma BehindFirst(side: Side, levels: seq<Level>, n: nat)
    requires SideOk(side, levels) && levels != [] && |levels[0].orders| <= n < |Flat(levels)|
    ensures Better(side, levels[0].price, Flat(levels)[n].price)
  {
    hide Better;
    SideUncons(side, levels);
    assert forall i :: 0 <= i < |levels[1..]| ==> LevelOk(side, levels[1..][i]);
    FlatPrices(levels[1..]);
    assert HasPrice(levels[1..], Flat(levels[1..])[n - |levels[0].orders|].price);
  }

  /** The first level is at the price of the first order, and ends before the other side's first level does, if not with
      it. */
  lemma FirstLevel(side: Side, a: seq<Level>, b: seq<Level>)
    requires SideOk(side, a) && SideOk(side, b) && Flat(a) == Flat(b) && a != [] && b != []
    ensures a[0].price == b[0].price && |a[0].orders| <= |b[0].orders|
  {
    assert LevelOk(side, a[0]) && LevelOk(side, b[0]);
    assert Flat(a)[0] == a[0].orders[0] && Flat(b)[0] == b[0].orders[0];
    var n := |b[0].orders|;
    if n < |a[0].orders| {
      assert Flat(a)[n] == a[0].orders[n];
      BehindFirst(side, b, n);
    }
  }

  /** Two well-formed sides with the same queue are the same. */
  lemma {:induction false} QueueDeterminesSide(side: Side, a: seq<Level>, b: seq<Level>)
    requires SideOk(side, a) && SideOk(side, b) && Flat(a) == Flat(b)
    ensures a == b
  {
    hide SideOk, LevelOk, Better;
    if a != [] && b != [] {
      SideUncons(side, a);
      SideUncons(side, b);
      FirstLevel(side, a, b);
      FirstLevel(side, b, a);
      assert a[0].orders == Flat(a)[..|a[0].orders|] && b[0].orders == Flat(b)[..|b[0].orders|];
      assert Flat(a[1..]) == Flat(a)[|a[0].orders|..] && Flat(b[1..]) == Flat(b)[|b[0].orders|..];
      QueueDeterminesSide(side, a[1..], b[1..]);
      assert a == [a[0]] + a[1..] && b == [b[0]] + b[1..];
    } else {
      NoQueue(side, a);
      NoQueue(side, b);
    }
  }

  lemma NoQueue(side: Side, levels: seq<Level>)
    requires SideOk(side, levels)
    ensures levels == [] <==> Flat(levels) == []
  {
    if levels != [] {
      assert LevelOk(side, levels[0]);
      assert Flat(levels)[0] == levels[0].orders[0];
    }
  }

  lemma {:induction false} WithoutAt(orders: seq<Order>, k: nat)
    requires k < |orders| && CountId(orders, orders[k].orderId) <= 1
    ensures orders[..k] + orders[k + 1..] == Without(orders, orders[k].orderId)
  {
    var id := orders[k].orderId;
    if k == 0 {
      CountNone(orders[1..], id);
      BookLemmas.WithoutNone(orders[1..], id);
    } else {
      CountAt(orders[1..], k - 1);
      WithoutAt(orders[1..], k - 1);
      assert orders[..k] + orders[k + 1..] == [orders[0]] + (orders[1..][..k - 1] + orders[1..][k..]);
    }
  }

  lemma RemovedFlat(b: Book, id: uint64, after: Book, side: Side)
    requires BookOk(b) && Removed(b, id, after)
    ensures Flat(Levels(after, side)) == Without(Flat(Levels(b, side)), id)
  {
    hide SideOk, Flat, Without, FindLevels;
    var side2, k :| 0 <= k < |Flat(Levels(b, side2))| && Flat(Levels(b, side2))[k].orderId == id
                    && Flat(Levels(after, side2)) == Flat(Levels(b, side2))[..k] + Flat(Levels(b, side2))[k + 1..]
                    && Flat(Levels(after, Other(side2))) == Flat(Levels(b, Other(side2)));
    assert CountIdInBook(b, id) <= 1;
    CountAt(Flat(Levels(b, side2)), k);
    FlatCount(b.bids, id);
    FlatCount(b.asks, id);
    if side == side2 {
      WithoutAt(Flat(Levels(b, side)), k);
    } else {
      CountNone(Flat(Levels(b, side)), id);
      BookLemmas.WithoutNone(Flat(Levels(b, side)), id);
    }
  }

  /** So there is only one book without the order. */
  lemma RemovedIsOne(b: Book, id: uint64, after: Book, after2: Book)
    requires BookOk(b) && Removed(b, id, after) && Removed(b, id, after2)
    ensures after == after2
  {
    RemovedFlat(b, id, after, BUY);
    RemovedFlat(b, id, after, SELL);
    RemovedFlat(b, id, after2, BUY);
    RemovedFlat(b, id, after2, SELL);
    assert BookOk(after) && BookOk(after2);
    hide Removed, SideOk, Flat, Find;
    QueueDeterminesSide(BUY, after.bids, after2.bids);
    QueueDeterminesSide(SELL, after.asks, after2.asks);
  }

  // ---------- The queue after fills ----------

  /** Id by id, what the second queue lacks is what the fills took. */
  ghost predicate Balanced(before: seq<Order>, after: seq<Order>, fills: seq<FillEvent>) {
    forall k {:trigger before[k]} :: 0 <= k < |before| ==>
      var id := before[k].orderId; QtyOf(before, Only(id)) == QtyOf(after, Only(id)) + Received(fills, id)
  }

  ghost predicate DistinctIds(orders: seq<Order>) {
    forall id :: CountId(orders, id) <= 1
  }

  lemma DistinctTail(orders: seq<Order>)
    requires DistinctIds(orders) && orders != []
    ensures DistinctIds(orders[1..]) && CountId(orders[1..], orders[0].orderId) == 0
    ensures forall k :: 1 <= k < |orders| ==> orders[k].orderId != orders[0].orderId
  {
    assert CountId(orders, orders[0].orderId) <= 1;
    forall id
      ensures CountId(orders[1..], id) <= 1
    {
      assert CountId(orders, id) <= 1;
    }
    forall k | 1 <= k < |orders|
      ensures orders[k].orderId != orders[0].orderId
    {
      CountAt(orders[1..], k - 1);
    }
  }

  /** The first order is used up. */
  lemma BalancedGone(before: seq<Order>, after: seq<Order>, fills: seq<FillEvent>)
    requires before != [] && DistinctIds(before) && Shrunk(before[1..], after) && Balanced(before, after, fills)
    ensures Received(fills, before[0].orderId) == before[0].qty && Balanced(before[1..], after, fills)
  {
    hide Shrunk;
    DistinctTail(before);
    ShrunkCount(before[1..], after, before[0].orderId);
    QtyOfNobody(before[1..], before[0].orderId);
    QtyOfNobody(after, before[0].orderId);
    forall k | 0 <= k < |before[1..]|
      ensures var id := before[1..][k].orderId; QtyOf(before[1..], Only(id)) == QtyOf(after, Only(id)) + Received(fills, id)
    {
      assert before[1..][k] == before[k + 1];
    }
  }

  /** The first order is smaller or as it was. */
  lemma BalancedLeft(before: seq<Order>, after: seq<Order>, fills: seq<FillEvent>)
    requires before != [] && after != [] && DistinctIds(before) && Shrunk(before[1..], after[1..])
    requires after[0].orderId == before[0].orderId && Balanced(before, after, fills)
    ensures Received(fills, before[0].orderId) == before[0].qty - after[0].qty && Balanced(before[1..], after[1..], fills)
  {
    hide Shrunk;
    DistinctTail(before);
    ShrunkCount(before[1..], after[1..], before[0].orderId);
    QtyOfNobody(before[1..], before[0].orderId);
    QtyOfNobody(after[1..], before[0].orderId);
    forall k | 0 <= k < |before[1..]|
      ensures var id := before[1..][k].orderId; QtyOf(before[1..], Only(id)) == QtyOf(after[1..], Only(id)) + Received(fills, id)
    {
      assert before[1..][k] == before[k + 1];
    }
  }

  lemma {:induction false} ShrunkIsReduced(before: seq<Order>, after: seq<Order>, fills: seq<FillEvent>)
    requires Shrunk(before, after) && Balanced(before, after, fills)
    requires DistinctIds(before) && AllPositive(after)
    ensures after == Reduced(before, fills)
  {
    hide Balanced, DistinctIds, Received;
    if before != [] {
      DistinctTail(before);
      if Shrunk(before[1..], after) {
        BalancedGone(before, after, fills);
        ShrunkIsReduced(before[1..], after, fills);
      } else {
        BalancedLeft(before, after, fills);
        ShrunkIsReduced(before[1..], after[1..], fills);
        assert after == [after[0]] + after[1..];
      }
    }
  }

  lemma SideDistinct(b: Book, side: Side)
    requires BookOk(b)
    ensures DistinctIds(Flat(Levels(b, side)))
  {
    forall id
      ensures CountId(Flat(Levels(b, side)), id) <= 1
    {
      assert CountIdInBook(b, id) <= 1;
      FlatCount(Levels(b, side), id);
    }
  }

  lemma SweepReduces(mode: MatchingMode, b: Book, inc: Order)
    requires Sound(b)
    ensures var opposite := Levels(b, Other(inc.side));
            var swept := Sweep(mode, opposite, inc, inc.qty);
            Flat(swept.levels) == Reduced(Flat(opposite), swept.fills)
  {
    hide Sweep, Flat, Shrunk, AllPositive, QtyOf, DistinctIds, SideOk;
    var opposite := Levels(b, Other(inc.side));
    var swept := Sweep(mode, opposite, inc, inc.qty);
    SoundParts(b, Other(inc.side));
    SideDistinct(b, Other(inc.side));
    SweepTrades(mode, opposite, inc, inc.qty);
    SweepPositive(mode, opposite, inc, inc.qty);
    assert Balanced(Flat(opposite), Flat(swept.levels), swept.fills);
    ShrunkIsReduced(Flat(opposite), Flat(swept.levels), swept.fills);
  }

  // ---------- The own side ----------

  lemma InsertedLast(side: Side, levels: seq<Level>, o: Order)
    requires SideOk(side, levels)
    ensures StandsLast(side, Flat(levels), o, Flat(InsertOrder(side, levels, o)))
  {
    hide InsertOrder, Flat, Ahead, SideOk, Better;
    NewOrderStandsLast(side, levels, o);
    var ahead, behind := Flat(levels[..Ahead(side, levels, o.price)]), Flat(levels[Ahead(side, levels, o.price)..]);
    var before, j := Flat(levels), |ahead|;
    assert before[..j] == ahead && before[j..] == behind;
    assert forall k :: j <= k < |before| ==> before[k] == behind[k - j];
  }

  lemma RestIsSeen(mode: MatchingMode, b: Book, inc: Order)
    requires Sound(b) && Find(b, inc.orderId).None?
    ensures OwnSide(b, inc, Execute(mode, b, inc).book)
  {
    hide Sweep, Find, WouldRestCrossed, CanAdd, InsertOrder, Sound, Tradeables, OwnInTheWay, RoomToRest, Flat, StandsLast, DrySweep;
    var opposite := Levels(b, Other(inc.side));
    var swept := Sweep(mode, opposite, inc, inc.qty);
    var b1, rest := WithLevels(b, Other(inc.side), swept.levels), inc.(qty := swept.remaining);
    SoundParts(b, Other(inc.side));
    SoundParts(b, inc.side);
    SweepTakesAll(mode, opposite, inc, inc.qty);
    SweptForgets(mode, b, inc, inc.orderId);
    InsertedLast(inc.side, Levels(b, inc.side), rest);
    if inc.tif.GTC? && Tradeables(opposite, inc) < inc.qty {
      RestsExactlyWhen(mode, b, inc);
    }
    if CanAdd(b1, rest) {
      AddedIsFound(b1, rest);
    }
  }

  lemma BoundIsThere(side: Side, prices: seq<int64>, k: nat)
    requires SortedPrices(side, prices) && k < |prices|
    ensures LowerBound(side, prices, prices[k]) == k
  {
    hide LowerBound;
    assert forall j :: 0 <= j < |prices| && j != k ==> Better(side, prices[j], prices[k]) || Better(side, prices[k], prices[j]);
  }

  lemma HasLevelMeans(side: Side, levels: seq<Level>, price: int64)
    requires SideOk(side, levels)
    ensures HasLevel(side, levels, price) <==> HasPrice(levels, price)
  {
    if HasPrice(levels, price) {
      var k :| 0 <= k < |levels| && levels[k].price == price;
      BoundIsThere(side, Prices(levels), k);
    }
  }

  // ---------- Main results ----------

  lemma AddedOk(b: Book, o: Order)
    requires BookOk(b) && CanAdd(b, o)
    ensures BookOk(Add(b, o))
  {
    InsertOk(o.side, Levels(b, o.side), o);
    RestIds(b, o);
    hide SideOk, CanAdd, InsertOrder, CountIdInBook;
  }

  /** add_order: when it succeeds, and where the order then stands. */
  lemma AddMeans(b: Book, o: Order)
    requires BookOk(b)
    ensures Added(b, o, Add(b, o))
  {
    HasLevelMeans(o.side, Levels(b, o.side), o.price);
    InsertedLast(o.side, Levels(b, o.side), o);
    hide BookOk, Find, Flat, InsertOrder, HasLevel, StandsLast, HasPrice, OrderCount, LevelCount;
    if CanAdd(b, o) {
      AddedOk(b, o);
      AddedIsFound(b, o);
    }
  }

  lemma ExecuteParts(mode: MatchingMode, b: Book, inc: Order)
    ensures var r, swept := Execute(mode, b, inc), Sweep(mode, Levels(b, Other(inc.side)), inc, inc.qty);
            && r.fills == swept.fills && r.stats.levelsConsumed == swept.entered
            && Levels(r.book, Other(inc.side)) == swept.levels
  {
    hide Sweep, CanAdd, InsertOrder, WouldRestCrossed;
  }

  lemma FillsFollow(mode: MatchingMode, b: Book, inc: Order)
    requires BookOk(b)
    ensures var r := Execute(mode, b, inc);
            FilledBy(mode, Levels(b, Other(inc.side)), inc, r.stats.levelsConsumed, r.fills)
  {
    hide Sweep, Execute, SideOk, IsGreedy, IsProRata, Candidates;
    var opposite := Levels(b, Other(inc.side));
    ExecuteParts(mode, b, inc);
    match mode
    case PRICE_TIME => FillsAreGreedy(opposite, inc, inc.qty);
    case PRO_RATA => var parts := SweepParts(opposite, inc, inc.qty);
  }

  /** An order that is not turned away. */
  lemma ExecuteMeans(mode: MatchingMode, b: Book, inc: Order)
    requires Sound(b) && Find(b, inc.orderId).None? && inc.eventTag.NEW_OR_CANCEL?
    ensures Executed(mode, b, inc, Execute(mode, b, inc))
  {
    SoundOk(b);
    ExecuteSound(mode, b, inc);
    SoundOk(Execute(mode, b, inc).book);
    hide Execute, Sweep, Find, Sound, BookOk, Flat, Reduced, OwnSide, Counted, FilledBy;
    EveryCounterMeans(mode, b, inc);
    SweepReduces(mode, b, inc);
    RestIsSeen(mode, b, inc);
    ExecuteParts(mode, b, inc);
    FillsFollow(mode, b, inc);
  }

  lemma SoundOk(b: Book)
    requires Sound(b)
    ensures BookOk(b)
  {
  }

  lemma CancelRemoves(b: Book, id: uint64)
    requires Sound(b) && Find(b, id).Some?
    ensures Removed(b, id, Cancel(b, id))
  {
    SoundOk(b);
    CancelSound(b, id);
    SoundOk(Cancel(b, id));
    Sides.FindMeans(b, id);
    hide Sound, BookOk, Find, Flat, Cancel;
    CancelRemovesOne(b, id);
  }

  /** A cancel: the id is not found any more, every other order stands where it stood, nothing is reported or counted;
      an unknown id changes nothing. */
  lemma CancelMeans(b: Book, id: uint64, r: MatchOutcome)
    requires Sound(b) && r == MatchOutcome(Cancel(b, id), [], NO_STATS)
    ensures Cancelled(b, id, r)
  {
    hide Sound, Removed, Cancel, Find;
    if Find(b, id).Some? {
      CancelRemoves(b, id);
    } else {
      CancelUnknown(b, id);
    }
  }

  lemma DryRunMeans(mode: MatchingMode, b: Book, inc: Order)
    requires BookOk(b)
    ensures var opposite := Levels(b, Other(inc.side));
            DrySweep(mode, opposite, inc, inc.qty) == inc.qty - Min(inc.qty, Tradeables(opposite, inc))
  {
    hide Sweep, DrySweep, Tradeables, SideOk;
    DryRunPredicts(mode, Levels(b, Other(inc.side)), inc, inc.qty);
    SweepTakesAll(mode, Levels(b, Other(inc.side)), inc, inc.qty);
  }

  /** When match() turns an order away. */
  lemma MatchCases(mode: MatchingMode, b: Book, inc: Order)
    requires BookOk(b)
    ensures Match(mode, b, inc) ==
            if Find(b, inc.orderId).Some? || (inc.tif.FOK? && Tradeables(Levels(b, Other(inc.side)), inc) < inc.qty)
            then Rejected(b, inc) else Execute(mode, b, inc)
  {
    DryRunMeans(mode, b, inc);
    hide Execute, Find, DrySweep, Tradeables, BookOk, Rejected;
  }

  /** match(): turned away as a duplicate or as a fill-or-kill order that the book cannot fill, or executed. */
  lemma MatchMeans(mode: MatchingMode, b: Book, inc: Order)
    requires Sound(b) && inc.eventTag.NEW_OR_CANCEL?
    ensures Submitted(mode, b, inc, Match(mode, b, inc))
  {
    SoundOk(b);
    MatchCases(mode, b, inc);
    hide Sound, Executed, Execute, Find, Match, Tradeables, BookOk;
    if Find(b, inc.orderId).None? {
      ExecuteMeans(mode, b, inc);
    }
  }

  /** replace(): an unknown id changes and reports nothing; quantity zero takes the order out; the same price and no more
      quantity change that order's quantity where it stands; everything else takes it out and executes it anew. */
  lemma ReplaceMeans(mode: MatchingMode, b: Book, id: uint64, price: int64, qty: uint32)
    requires Sound(b)
    ensures Amended(mode, b, id, price, qty, Replace(mode, b, id, price, qty))
  {
    hide Sound, Removed, Executed, Execute, Cancel, Find, Match, SameSide, SetQty;
    var found := Find(b, id);
    if found.Some? {
      CancelRemoves(b, id);
      if price != found.value.price || qty > found.value.qty {
        if qty > 0 {
          ReplaceResubmits(mode, b, id, price, qty);
          CancelSound(b, id);
          ExecuteMeans(mode, Cancel(b, id), found.value.(price := price, qty := qty));
        }
      } else if qty > 0 {
        ReplaceKeepsPriority(mode, b, id, qty);
      }
    }
  }

  /** Every event that the matching thread dispatches, in every reachable book. */
  lemma DispatchMeans(mode: MatchingMode, b: Book, o: Order)
    requires Sound(b)
    ensures Dispatched(mode, b, o, Dispatch(mode, b, o))
  {
    hide Sound, Amended, Cancelled, Submitted, Match, Replace, Cancel;
    if o.eventTag.REPLACE? {
      ReplaceMeans(mode, b, o.orderId, o.price, o.qty);
    } else if o.qty == 0 {
      CancelMeans(b, o.orderId, Dispatch(mode, b, o));
    } else {
      MatchMeans(mode, b, o);
    }
  }
}
