/** How the sweeps of MatchSpec unroll one order or one level at a time, for the loops of the Matcher. */
module SweepSteps {
  import opened Types
  import opened Pools
  import opened LinkedFifo
  import opened Book
  import opened BookStore
  import opened StoreSteps
  import opened StoreOps
  import opened StoreFill
  import opened MatchSpec

  // ---------- Price-time at one level, one order at a time ----------

  /** The outcome so far, once the next order has been visited. */
  function Visit(sofar: LevelOutcome, o: Order, inc: Order): LevelOutcome {
    if sofar.remaining == 0 then sofar.(orders := sofar.orders + [o])
    else if IsSelfTrade(o, inc) then sofar.(orders := sofar.orders + [o], examined := sofar.examined + 1)
    else
      var q := Min(sofar.remaining, o.qty);
      LevelOutcome(sofar.orders + AfterFill(o, q), sofar.fills + [Fill(o, inc, q)], sofar.remaining - q,
                   sofar.examined + 1, sofar.eligible + 1)
  }

  /** The outcome after the first k orders of the queue. */
  function Visited(queue: seq<Order>, inc: Order, rem: uint32, k: nat): (r: LevelOutcome)
    requires k <= |queue|
    ensures r.eligible <= r.examined
  {
    if k == 0 then LevelOutcome([], [], rem, 0, 0)
    else Visit(Visited(queue, inc, rem, k - 1), queue[k - 1], inc)
  }

  lemma {:induction false} VisitedFrom(queue: seq<Order>, inc: Order, rem: uint32, k: nat)
    requires k <= |queue|
    ensures var sofar := Visited(queue, inc, rem, k);
            var rest := TakeLevel(queue[k..], inc, sofar.remaining);
            TakeLevel(queue, inc, rem) ==
            LevelOutcome(sofar.orders + rest.orders, sofar.fills + rest.fills, rest.remaining,
                         sofar.examined + rest.examined, sofar.eligible + rest.eligible)
  {
    hide Visit, TakeLevel;
    if k == 0 {
      assert queue[0..] == queue;
    } else {
      VisitedFrom(queue, inc, rem, k - 1);
      assert queue[k - 1..][1..] == queue[k..] && queue[k - 1..][0] == queue[k - 1];
      VisitThenTake(Visited(queue, inc, rem, k - 1), queue[k - 1..], inc);
    }
  }

  lemma VisitThenTake(sofar: LevelOutcome, queue: seq<Order>, inc: Order)
    requires queue != []
    ensures var next, rest := Visit(sofar, queue[0], inc), TakeLevel(queue, inc, sofar.remaining);
            var tail := TakeLevel(queue[1..], inc, next.remaining);
            && sofar.orders + rest.orders == next.orders + tail.orders
            && sofar.fills + rest.fills == next.fills + tail.fills
            && rest.remaining == tail.remaining
            && sofar.examined + rest.examined == next.examined + tail.examined
            && sofar.eligible + rest.eligible == next.eligible + tail.eligible
  {
    hide Visit, TakeLevel;
    if sofar.remaining > 0 && !IsSelfTrade(queue[0], inc) {
      VisitThenTakeFill(sofar, queue, inc);
    } else {
      VisitThenTakePass(sofar, queue, inc);
    }
  }

  /** The order stays as it is. */
  lemma VisitThenTakePass(sofar: LevelOutcome, queue: seq<Order>, inc: Order)
    requires queue != [] && (sofar.remaining == 0 || IsSelfTrade(queue[0], inc))
    ensures var next, rest := Visit(sofar, queue[0], inc), TakeLevel(queue, inc, sofar.remaining);
            var tail := TakeLevel(queue[1..], inc, next.remaining);
            && sofar.orders + rest.orders == next.orders + tail.orders && next.fills == sofar.fills && rest.fills == tail.fills
            && rest.remaining == tail.remaining
            && sofar.examined + rest.examined == next.examined + tail.examined
            && sofar.eligible + rest.eligible == next.eligible + tail.eligible
  {
    assert queue == [queue[0]] + queue[1..];
    Regroup(sofar.orders, [queue[0]], TakeLevel(queue[1..], inc, sofar.remaining).orders);
  }

  lemma VisitThenTakeFill(sofar: LevelOutcome, queue: seq<Order>, inc: Order)
    requires queue != [] && sofar.remaining > 0 && !IsSelfTrade(queue[0], inc)
    ensures var next, rest := Visit(sofar, queue[0], inc), TakeLevel(queue, inc, sofar.remaining);
            var tail := TakeLevel(queue[1..], inc, next.remaining);
            && sofar.orders + rest.orders == next.orders + tail.orders && sofar.fills + rest.fills == next.fills + tail.fills
            && rest.remaining == tail.remaining
            && sofar.examined + rest.examined == next.examined + tail.examined
            && sofar.eligible + rest.eligible == next.eligible + tail.eligible
  {
    var q := Min(sofar.remaining, queue[0].qty);
    var tail := TakeLevel(queue[1..], inc, sofar.remaining - q);
    Regroup(sofar.orders, AfterFill(queue[0], q), tail.orders);
    Regroup(sofar.fills, [Fill(queue[0], inc, q)], tail.fills);
  }

  /** The loop may stop when the queue ends or nothing is left to trade. */
  lemma VisitedStop(queue: seq<Order>, inc: Order, rem: uint32, k: nat)
    requires k <= |queue| && (k == |queue| || Visited(queue, inc, rem, k).remaining == 0)
    ensures var sofar := Visited(queue, inc, rem, k);
            TakeLevel(queue, inc, rem) == sofar.(orders := sofar.orders + queue[k..])
  {
    VisitedFrom(queue, inc, rem, k);
  }

  // ---------- A side, one level at a time ----------

  function SweepNext(sofar: SideOutcome, price: int64, here: LevelOutcome): SideOutcome {
    SideOutcome(sofar.levels + Keep(price, here.orders), sofar.fills + here.fills, here.remaining,
                sofar.entered + 1, sofar.examined + here.examined, sofar.eligible + here.eligible)
  }

  /** The outcome after the first j levels, all of which were entered. */
  function SweptLevels(mode: MatchingMode, levels: seq<Level>, inc: Order, rem: uint32, j: nat): (r: SideOutcome)
    requires j <= |levels|
    ensures r.eligible <= r.examined
  {
    if j == 0 then SideOutcome([], [], rem, 0, 0, 0)
    else
      var sofar := SweptLevels(mode, levels, inc, rem, j - 1);
      SweepNext(sofar, levels[j - 1].price, AtLevel(mode, levels[j - 1].orders, inc, sofar.remaining))
  }

  /** Every level before the j-th was reached with something to trade, and crossed. */
  ghost predicate Entered(mode: MatchingMode, levels: seq<Level>, inc: Order, rem: uint32, j: nat)
    requires j <= |levels|
  {
    forall i :: 0 <= i < j ==> Crosses(levels[i].price, inc) && SweptLevels(mode, levels, inc, rem, i).remaining > 0
  }

  /** An outcome so far, followed by one for the levels still ahead. */
  function Then(sofar: SideOutcome, rest: SideOutcome): SideOutcome {
    SideOutcome(sofar.levels + rest.levels, sofar.fills + rest.fills, rest.remaining,
                sofar.entered + rest.entered, sofar.examined + rest.examined, sofar.eligible + rest.eligible)
  }

  lemma SweepThen(mode: MatchingMode, sofar: SideOutcome, levels: seq<Level>, inc: Order)
    requires levels != [] && sofar.remaining > 0 && Crosses(levels[0].price, inc)
    ensures var next := SweepNext(sofar, levels[0].price, AtLevel(mode, levels[0].orders, inc, sofar.remaining));
            Then(sofar, Sweep(mode, levels, inc, sofar.remaining)) == Then(next, Sweep(mode, levels[1..], inc, next.remaining))
  {
    var here := AtLevel(mode, levels[0].orders, inc, sofar.remaining);
    var rest := Sweep(mode, levels[1..], inc, here.remaining);
    Regroup(sofar.levels, Keep(levels[0].price, here.orders), rest.levels);
    Regroup(sofar.fills, here.fills, rest.fills);
  }

  lemma ThenNothing(r: SideOutcome, rem: uint32)
    ensures Then(SideOutcome([], [], rem, 0, 0, 0), r) == r
  {
  }

  lemma {:induction false} SweptFrom(mode: MatchingMode, levels: seq<Level>, inc: Order, rem: uint32, j: nat)
    requires j <= |levels| && Entered(mode, levels, inc, rem, j)
    ensures var sofar := SweptLevels(mode, levels, inc, rem, j);
            Sweep(mode, levels, inc, rem) == Then(sofar, Sweep(mode, levels[j..], inc, sofar.remaining))
  {
    if j == 0 {
      assert levels[0..] == levels;
      ThenNothing(Sweep(mode, levels, inc, rem), rem);
    } else {
      SweptFrom(mode, levels, inc, rem, j - 1);
      assert levels[j - 1..][1..] == levels[j..] && levels[j - 1..][0] == levels[j - 1];
      SweepThen(mode, SweptLevels(mode, levels, inc, rem, j - 1), levels[j - 1..], inc);
    }
  }

  lemma SweptStop(mode: MatchingMode, levels: seq<Level>, inc: Order, rem: uint32, j: nat)
    requires j <= |levels| && Entered(mode, levels, inc, rem, j)
    requires j == |levels| || SweptLevels(mode, levels, inc, rem, j).remaining == 0 || !Crosses(levels[j].price, inc)
    ensures var sofar := SweptLevels(mode, levels, inc, rem, j);
            Sweep(mode, levels, inc, rem) == sofar.(levels := sofar.levels + levels[j..])
  {
    SweptFrom(mode, levels, inc, rem, j);
  }

  /** Between two levels of a sweep that started in s0: `done` is what is left of the first j levels of the opposite
      side, the others are untouched, and l is the next level to sweep. */
  ghost predicate Between(s0: Store, s: Store, side: Side, done: seq<Level>, j: nat, l: Ptr) {
    forall u {:trigger Opened(u)} :: Opened(u) ==> BetweenOpen(s0, s, side, done, j, l)
  }

  ghost predicate BetweenOpen(s0: Store, s: Store, side: Side, done: seq<Level>, j: nat, l: Ptr) {
    && Inv(s0) && Inv(s)
    && j <= |Levels(Abs(s0), side)|
    && Levels(Abs(s), side) == done + Levels(Abs(s0), side)[j..]
    && Levels(Abs(s), Other(side)) == Levels(Abs(s0), Other(side))
    && l == (if j < |Levels(Abs(s0), side)| then Entries(s, side)[|done|].level else NULL)
  }

  lemma BetweenLevel(s0: Store, s: Store, side: Side, done: seq<Level>, j: nat, l: Ptr)
    requires Between(s0, s, side, done, j, l) && l != NULL
    ensures l in s.levels && SideOf(s, l) == side && Pos(s, l) == |done|
    ensures j < |Levels(Abs(s0), side)| && |done| < |Entries(s, side)|
    ensures s.levels[l].price == Levels(Abs(s0), side)[j].price == Entries(s, side)[|done|].price
    ensures Place(side, Entries(s, side), s.levels[l].price) == |done|
    ensures Queue(s, l) == Levels(Abs(s0), side)[j].orders
  {
    hide Inv, Abs, Between;
    BetweenFacts(s0, s, side, done, j, l);
    BetweenCount(s0, s, side, done, j, l);
    EntryLevel(s, side, |done|);
  }

  lemma BetweenLive(s0: Store, s: Store, side: Side, done: seq<Level>, j: nat, l: Ptr)
    requires Between(s0, s, side, done, j, l)
    ensures l == NULL <==> j == |Levels(Abs(s0), side)|
  {
    hide Inv, Abs, Between;
    BetweenFacts(s0, s, side, done, j, l);
    BetweenCount(s0, s, side, done, j, l);
    if j < |Levels(Abs(s0), side)| {
      EntryLevel(s, side, |done|);
    }
  }

  /** One level swept: its leftovers join `done`, and the saved next level is still the right one. */
  lemma BetweenStep(s0: Store, s: Store, s2: Store, side: Side, done: seq<Level>, j: nat, l: Ptr, next: Ptr, left: seq<Order>)
    requires Between(s0, s, side, done, j, l) && l != NULL && LevelDone(s, s2, l, left)
    requires next == (if |done| + 1 < |Entries(s, side)| then Entries(s, side)[|done| + 1].level else NULL)
    ensures j < |Levels(Abs(s0), side)|
    ensures Between(s0, s2, side, done + Keep(Levels(Abs(s0), side)[j].price, left), j + 1, next)
  {
    hide Inv, Abs, Between, LevelDone, Place, Queue;
    BetweenLevel(s0, s, side, done, j, l);
    BetweenStepAbs(s0, s, s2, side, done, j, l, left);
    BetweenStepNext(s0, s, s2, side, done, j, l, left);
    BetweenFacts(s0, s, side, done, j, l);
    LevelDoneFacts(s, s2, l, left);
    assert |Keep(Levels(Abs(s0), side)[j].price, left)| == |Keep(0, left)|;
    BetweenMake(s0, s2, side, done + Keep(Levels(Abs(s0), side)[j].price, left), j + 1, next);
  }

  lemma BetweenFacts(s0: Store, s: Store, side: Side, done: seq<Level>, j: nat, l: Ptr)
    requires Between(s0, s, side, done, j, l)
    ensures BetweenOpen(s0, s, side, done, j, l)
  {
    hide BetweenOpen;
    assert Opened(0);
  }

  lemma LevelDoneIs(s: Store, s2: Store, l: Ptr, left: seq<Order>)
    requires LevelDone(s, s2, l, left)
    ensures LevelDoneOpen(s, s2, l, left)
  {
    hide LevelDoneOpen;
    assert Opened(0);
  }

  lemma LevelDoneFacts(s: Store, s2: Store, l: Ptr, left: seq<Order>)
    requires LevelDone(s, s2, l, left)
    ensures Inv(s2) && Levels(Abs(s2), Other(SideOf(s, l))) == Levels(Abs(s), Other(SideOf(s, l)))
  {
    assert Opened(0);
  }

  lemma BetweenMake(s0: Store, s: Store, side: Side, done: seq<Level>, j: nat, l: Ptr)
    requires BetweenOpen(s0, s, side, done, j, l)
    ensures Between(s0, s, side, done, j, l)
  {
  }

  lemma BetweenStepAbs(s0: Store, s: Store, s2: Store, side: Side, done: seq<Level>, j: nat, l: Ptr, left: seq<Order>)
    requires Between(s0, s, side, done, j, l) && l != NULL && LevelDone(s, s2, l, left)
    ensures j < |Levels(Abs(s0), side)|
    ensures Levels(Abs(s2), side) ==
            done + Keep(Levels(Abs(s0), side)[j].price, left) + Levels(Abs(s0), side)[j + 1..]
  {
    hide Inv, Abs, Between, SetLevel;
    BetweenFacts(s0, s, side, done, j, l);
    BetweenLevel(s0, s, side, done, j, l);
    LevelDoneIs(s, s2, l, left);
    SetLevelSplit(done, Levels(Abs(s0), side), j, left);
  }

  lemma LevelDoneEntries(s: Store, s2: Store, l: Ptr, left: seq<Order>)
    requires LevelDone(s, s2, l, left)
    ensures l in s.levels && Pos(s, l) < |Entries(s, SideOf(s, l))|
    ensures Entries(s2, SideOf(s, l)) ==
            if left == [] then RemoveAt(Entries(s, SideOf(s, l)), Pos(s, l)) else Entries(s, SideOf(s, l))
  {
    assert Opened(0);
  }

  lemma BetweenCount(s0: Store, s: Store, side: Side, done: seq<Level>, j: nat, l: Ptr)
    requires Between(s0, s, side, done, j, l)
    ensures |Entries(s, side)| == |done| + |Levels(Abs(s0), side)| - j
  {
    hide Inv, Between;
    BetweenFacts(s0, s, side, done, j, l);
    assert |Entries(s, side)| == |Levels(Abs(s), side)|;
  }

  lemma BetweenStepNext(s0: Store, s: Store, s2: Store, side: Side, done: seq<Level>, j: nat, l: Ptr, left: seq<Order>)
    requires Between(s0, s, side, done, j, l) && l != NULL && LevelDone(s, s2, l, left)
    ensures |Entries(s, side)| == |done| + |Levels(Abs(s0), side)| - j
    ensures |done| + 1 < |Entries(s, side)| ==>
              && |done| + |Keep(0, left)| < |Entries(s2, side)|
              && Entries(s2, side)[|done| + |Keep(0, left)|] == Entries(s, side)[|done| + 1]
  {
    hide Inv, Abs, Between, LevelDone, Pos, Keep;
    BetweenLevel(s0, s, side, done, j, l);
    BetweenCount(s0, s, side, done, j, l);
    LevelDoneEntries(s, s2, l, left);
    NextStays(Entries(s, side), |done|, left, Entries(s2, side));
  }

  /** The entry behind the n-th keeps its level, whether the n-th goes or stays. */
  lemma NextStays(entries: seq<PriceEntry>, n: nat, left: seq<Order>, entries2: seq<PriceEntry>)
    requires n < |entries| && entries2 == if left == [] then RemoveAt(entries, n) else entries
    ensures n + 1 < |entries| ==>
              n + |Keep(0, left)| < |entries2| && entries2[n + |Keep(0, left)|] == entries[n + 1]
  {
  }

  lemma SetLevelSplit(done: seq<Level>, levels: seq<Level>, j: nat, left: seq<Order>)
    requires j < |levels|
    ensures SetLevel(done + levels[j..], |done|, left) == done + Keep(levels[j].price, left) + levels[j + 1..]
  {
    SplitNext(done, levels, j);
    var rest := levels[j + 1..];
    if left == [] {
      RemoveMiddle(done, levels[j], rest);
      assert done + [] == done;
    } else {
      UpdateMiddle(done, levels[j], rest, Level(levels[j].price, left));
    }
  }

  /** The sweep of level l took the store from s0 to s and left the orders `left` of it. */
  ghost predicate LevelDone(s0: Store, s: Store, l: Ptr, left: seq<Order>) {
    forall u {:trigger Opened(u)} :: Opened(u) ==> LevelDoneOpen(s0, s, l, left)
  }

  ghost predicate LevelDoneOpen(s0: Store, s: Store, l: Ptr, left: seq<Order>) {
    && Inv(s0) && Inv(s) && l in s0.levels
    && var side, at := SideOf(s0, l), Pos(s0, l);
    && at < |Levels(Abs(s0), side)|
    && Levels(Abs(s), side) == SetLevel(Levels(Abs(s0), side), at, left)
    && Levels(Abs(s), Other(side)) == Levels(Abs(s0), Other(side))
    && Entries(s, side) == (if left == [] then RemoveAt(Entries(s0, side), at) else Entries(s0, side))
  }

  lemma MidwayDone(s0: Store, s: Store, l: Ptr, stay: seq<Ptr>, kept: seq<Order>, k: nat)
    requires Midway(s0, s, l, stay, kept, k) && k <= |Queue(s0, l)|
    ensures LevelDone(s0, s, l, kept + Queue(s0, l)[k..])
  {
    assert Opened(0);
  }

  /** A level that is left alone. */
  lemma LevelUntouched(s: Store, l: Ptr)
    requires Inv(s) && l in s.levels
    ensures LevelDone(s, s, l, Queue(s, l))
  {
    MidwayStart(s, l);
    MidwayDone(s, s, l, [], [], 0);
    WholeSlice(Queue(s, l));
  }

  /** The slots of a level's queue, from its head on. */
  lemma QueueHead(s: Store, l: Ptr)
    requires Inv(s) && l in s.levels
    ensures s.levels[l].head == At(Slots(s, l), 0)
    ensures forall k :: 0 <= k <= |Slots(s, l)| ==> (At(Slots(s, l), k) == NULL <==> k == |Slots(s, l)|)
  {
    assert Opened(0);
    assert LevelOkAt(s, l, NULL);
  }

  /** The inner loop of sweep_price_time has stopped. */
  lemma TakeDone(s0: Store, s: Store, l: Ptr, stay: seq<Ptr>, sofar: LevelOutcome, k: nat, inc: Order, rem: uint32)
    requires l in s0.levels && k <= |Queue(s0, l)| && sofar == Visited(Queue(s0, l), inc, rem, k)
    requires Midway(s0, s, l, stay, sofar.orders, k) && (k == |Slots(s0, l)| || sofar.remaining == 0)
    ensures var r := TakeLevel(Queue(s0, l), inc, rem);
            && sofar.remaining == r.remaining && sofar.fills == r.fills
            && sofar.examined == r.examined && sofar.eligible == r.eligible
            && LevelDone(s0, s, l, r.orders)
  {
    VisitedStop(Queue(s0, l), inc, rem, k);
    MidwayDone(s0, s, l, stay, sofar.orders, k);
  }

  /** The k-th order of a level at rest. */
  lemma QueueNode(s: Store, l: Ptr, k: nat)
    requires Inv(s) && l in s.levels && k < |Slots(s, l)|
    ensures var p := Slots(s, l)[k];
            && p in s.orders && s.orders[p].order == Queue(s, l)[k] && s.orders[p].next == At(Slots(s, l), k + 1)
  {
    assert Opened(0);
    assert LevelOkAt(s, l, NULL);
    assert LinkedAt(s.orders, Slots(s, l), k);
  }

  lemma QueueSlot(s: Store, l: Ptr, m: int)
    requires Inv(s) && l in s.levels && m < |Slots(s, l)|
    ensures At(Slots(s, l), m) == NULL ==> m < 0
  {
    if m >= 0 {
      QueueHead(s, l);
    }
  }

  lemma SlotsDiffer(s: Store, l: Ptr, k: nat, m: nat)
    requires Inv(s) && l in s.levels && k < |Slots(s, l)| && m < |Slots(s, l)|
    ensures Slots(s, l)[k] == Slots(s, l)[m] <==> k == m
  {
    assert Opened(0);
    assert LevelOkAt(s, l, NULL);
  }

  /** A level holds no more orders than the pool. */
  lemma QueueFits(s: Store, l: Ptr)
    requires Inv(s) && l in s.levels
    ensures |Queue(s, l)| <= ORDER_POOL_SIZE
  {
    assert Opened(0);
    FewerThanLive(s, l, NULL);
  }

  lemma DryStep(orders: seq<Order>, k: nat, inc: Order, rem: uint32)
    requires k < |orders| && rem > 0
    ensures DryTake(orders[k..], inc, rem) ==
            DryTake(orders[k + 1..], inc, if IsSelfTrade(orders[k], inc) then rem else rem - Min(rem, orders[k].qty))
  {
    assert orders[k..][1..] == orders[k + 1..] && orders[k..][0] == orders[k];
  }

  lemma SameLength(s: Store, side: Side)
    ensures |Levels(Abs(s), side)| == |Entries(s, side)|
  {
  }

  /** The dry run stops where the sweep does. */
  lemma DryStop(mode: MatchingMode, levels: seq<Level>, inc: Order, rem: uint32)
    requires levels == [] || rem == 0 || !Crosses(levels[0].price, inc)
    ensures DrySweep(mode, levels, inc, rem) == rem
  {
  }

  /** The j-th level of a book at rest. */
  lemma EntryLevel(s: Store, side: Side, j: nat)
    requires Inv(s) && j < |Entries(s, side)|
    ensures |Levels(Abs(s), side)| == |Entries(s, side)|
    ensures var l, level := Entries(s, side)[j].level, Levels(Abs(s), side)[j];
            && l != NULL && l in s.levels && SideOf(s, l) == side
            && s.levels[l].price == level.price == Entries(s, side)[j].price
            && Queue(s, l) == level.orders
            && Place(side, Entries(s, side), level.price) == j
  {
    assert Opened(0);
    PosOfEntry(s, side, j, NULL);
    assert EntryAt(s, side, j);
  }

  lemma DryLevelStep(mode: MatchingMode, levels: seq<Level>, j: nat, inc: Order, rem: uint32)
    requires j < |levels| && rem > 0 && Crosses(levels[j].price, inc)
    ensures DrySweep(mode, levels[j..], inc, rem) ==
            DrySweep(mode, levels[j + 1..], inc, DryLevel(mode, levels[j].orders, inc, rem))
  {
    assert levels[j..][1..] == levels[j + 1..] && levels[j..][0] == levels[j];
  }

  /** A last fill, of an order that was passed over, ends the level. */
  lemma FillKept(s0: Store, s: Store, s2: Store, l: Ptr, stay: seq<Ptr>, kept: seq<Order>, n: nat, q: uint32)
    requires Midway(s0, s, l, stay, kept, |Slots(s0, l)|) && n < |kept| && FillStep(s, s2, l, n, q)
    ensures q <= kept[n].qty && LevelDone(s0, s2, l, FillQueue(kept, n, q))
  {
    MidwayKept(s0, s, l, stay, kept, n);
    assert Opened(0);
    assert kept + Queue(s0, l)[|Slots(s0, l)|..] == kept;
    MidwayPos(s0, s, l, stay, kept, |Slots(s0, l)|);
    SetTwice(Levels(Abs(s0), SideOf(s0, l)), Pos(s0, l), kept, FillQueue(kept, n, q));
  }

  /** Between, with the outcome of the sweep so far. */
  ghost predicate Sweeping(s0: Store, s: Store, mode: MatchingMode, inc: Order, j: nat, l: Ptr, sofar: SideOutcome) {
    && Between(s0, s, Other(inc.side), sofar.levels, j, l)
    && SweptTo(mode, Levels(Abs(s0), Other(inc.side)), inc, j, sofar)
  }

  /** The first j levels were all entered, with this outcome. */
  ghost predicate SweptTo(mode: MatchingMode, levels: seq<Level>, inc: Order, j: nat, sofar: SideOutcome) {
    && j <= |levels|
    && Entered(mode, levels, inc, inc.qty, j)
    && sofar == SweptLevels(mode, levels, inc, inc.qty, j)
  }

  lemma SweptOneMore(mode: MatchingMode, levels: seq<Level>, inc: Order, j: nat, sofar: SideOutcome)
    requires SweptTo(mode, levels, inc, j, sofar) && j < |levels|
    requires sofar.remaining > 0 && Crosses(levels[j].price, inc)
    ensures SweptTo(mode, levels, inc, j + 1, SweepNext(sofar, levels[j].price, AtLevel(mode, levels[j].orders, inc, sofar.remaining)))
  {
    hide AtLevel, SweepNext, Crosses;
  }

  lemma SweepingStart(s: Store, mode: MatchingMode, inc: Order, l: Ptr)
    requires Inv(s)
    requires var entries := Entries(s, Other(inc.side)); l == if entries == [] then NULL else entries[0].level
    ensures Sweeping(s, s, mode, inc, 0, l, SideOutcome([], [], inc.qty, 0, 0, 0))
  {
    BetweenStart(s, Other(inc.side), l);
  }

  lemma BetweenStart(s: Store, side: Side, l: Ptr)
    requires Inv(s)
    requires l == if Entries(s, side) == [] then NULL else Entries(s, side)[0].level
    ensures Between(s, s, side, [], 0, l)
  {
    assert [] + Levels(Abs(s), side)[0..] == Levels(Abs(s), side);
    assert |Levels(Abs(s), side)| == |Entries(s, side)|;
    BetweenMake(s, s, side, [], 0, l);
  }

  /** The level to sweep next is live, and looking past its price finds the one after it. */
  lemma SweepingLevel(s0: Store, s: Store, mode: MatchingMode, inc: Order, j: nat, l: Ptr, sofar: SideOutcome)
    requires Sweeping(s0, s, mode, inc, j, l, sofar)
    ensures Inv(s) && j <= |Levels(Abs(s0), Other(inc.side))|
    ensures l == NULL <==> j == |Levels(Abs(s0), Other(inc.side))|
    ensures l != NULL ==>
              var side := Other(inc.side);
              && l in s.levels && SideOf(s, l) == side
              && s.levels[l].price == Levels(Abs(s0), side)[j].price
              && Queue(s, l) == Levels(Abs(s0), side)[j].orders
              && Place(side, Entries(s, side), s.levels[l].price) == |sofar.levels| < |Entries(s, side)|
              && Entries(s, side)[|sofar.levels|].price == s.levels[l].price
  {
    hide Inv, Abs, Between;
    BetweenFacts(s0, s, Other(inc.side), sofar.levels, j, l);
    BetweenLive(s0, s, Other(inc.side), sofar.levels, j, l);
    if l != NULL {
      BetweenLevel(s0, s, Other(inc.side), sofar.levels, j, l);
    }
  }

  lemma SweepingStep(s0: Store, s: Store, s2: Store, mode: MatchingMode, inc: Order, j: nat, l: Ptr, next: Ptr,
                     sofar: SideOutcome, here: LevelOutcome)
    requires Sweeping(s0, s, mode, inc, j, l, sofar) && l != NULL && LevelDone(s, s2, l, here.orders)
    requires sofar.remaining > 0
    requires var side := Other(inc.side);
             && j < |Levels(Abs(s0), side)|
             && Crosses(Levels(Abs(s0), side)[j].price, inc)
             && here == AtLevel(mode, Levels(Abs(s0), side)[j].orders, inc, sofar.remaining)
             && next == (if |sofar.levels| + 1 < |Entries(s, side)| then Entries(s, side)[|sofar.levels| + 1].level else NULL)
    ensures Sweeping(s0, s2, mode, inc, j + 1, next, SweepNext(sofar, Levels(Abs(s0), Other(inc.side))[j].price, here))
  {
    hide AtLevel, SweptTo, Between, LevelDone, Inv, Abs, Levels, Entries, Other;
    SweptOneMore(mode, Levels(Abs(s0), Other(inc.side)), inc, j, sofar);
    BetweenStep(s0, s, s2, Other(inc.side), sofar.levels, j, l, next, here.orders);
  }

  /** The loop over levels has stopped: the opposite side is what the sweep leaves, the own side is as before. */
  lemma SweepingDone(s0: Store, s: Store, mode: MatchingMode, inc: Order, j: nat, l: Ptr, sofar: SideOutcome)
    requires Sweeping(s0, s, mode, inc, j, l, sofar)
    requires l != NULL && sofar.remaining > 0 ==>
               j < |Levels(Abs(s0), Other(inc.side))| && !Crosses(Levels(Abs(s0), Other(inc.side))[j].price, inc)
    ensures var r := Sweep(mode, Levels(Abs(s0), Other(inc.side)), inc, inc.qty);
            && Inv(s)
            && sofar.fills == r.fills && sofar.remaining == r.remaining && sofar.entered == r.entered
            && sofar.examined == r.examined && sofar.eligible == r.eligible
            && Abs(s) == WithLevels(Abs(s0), Other(inc.side), r.levels)
  {
    hide AtLevel, Between, Inv;
    var side := Other(inc.side);
    BetweenLive(s0, s, side, sofar.levels, j, l);
    BetweenFacts(s0, s, side, sofar.levels, j, l);
    SweptStop(mode, Levels(Abs(s0), side), inc, inc.qty, j);
  }
}
