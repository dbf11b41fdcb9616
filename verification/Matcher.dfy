/** include/hydra/matcher.hpp: sweeps over the linked book that unlink and free the orders and levels they pass. Each
    method is proved to compute what MatchSpec says of the abstract book; every pointer it follows is live. */
module Matchers {
  import opened Types
  import opened Pools
  import opened LinkedFifo
  import opened Book
  import opened BookStore
  import opened StoreSteps
  import opened StoreOps
  import opened StoreFill
  import opened SweepSteps
  import opened MatchSpec
  import opened Allocation
  import opened ProRataSteps
  import opened OrderBooks

  class Matcher {
    const book: OrderBook
    var mode: MatchingMode

    constructor (book: OrderBook, initialMode: MatchingMode)
      ensures this.book == book && mode == initialMode
    {
      this.book := book;
      mode := initialMode;
    }

    method SetMode(newMode: MatchingMode)
      modifies `mode
      ensures mode == newMode
    {
      mode := newMode;
    }

    /** The writes of apply_fill: the order and its level lose q together, and an order that is used up is cancelled.
        Its quantity is 0 by then, so the level's total is not lowered a second time. */
    method FillSlot(p: Ptr, l: Ptr, q: uint32, ghost k: nat)
      requires book.Valid() && l in book.levelPool.live
      requires k < |Slots(book.State(), l)| && Slots(book.State(), l)[k] == p
      requires q <= OrderAt(book.orderPool.live, p).qty
      modifies book.Memory
      ensures book.Valid() && book.State() == Filled(old(book.State()), l, k, q)
    {
      hide ObjectPool.Valid, Inv, Abs, Cancel, Find;
      ghost var s := book.State();
      UnlinkFacts(s, l, k);
      var maker := book.orderPool.Get(p).order;
      RequantifiedInv(s, l, k, maker.qty - q);
      book.Requantify(l, p, maker.qty - q);
      assert book.State() == Requantified(s, l, k, maker.qty - q);
      if maker.qty - q == 0 {
        CancelledIs(book.State(), l, k);
        var cancelled := book.CancelOrder(maker.orderId);
      }
    }

    /** apply_fill. */
    method ApplyFill(p: Ptr, l: Ptr, q: uint32, inc: Order, ghost k: nat) returns (fill: FillEvent)
      requires book.Valid() && l in book.levelPool.live
      requires k < |Slots(book.State(), l)| && Slots(book.State(), l)[k] == p
      requires p in book.orderPool.live && q <= book.orderPool.live[p].order.qty
      modifies book.Memory
      ensures book.PoolsOk() && FillStep(old(book.State()), book.State(), l, k, q)
      ensures fill == Fill(old(book.orderPool.live[p].order), inc, q)
    {
      hide ObjectPool.Valid;
      var maker := book.orderPool.Get(p).order;
      fill := FillEvent(maker.orderId, inc.orderId, maker.price, inc.timestampNs, q);
      FilledStep(book.State(), l, k, q);
      FillSlot(p, l, q, k);
    }

    /** One turn of the inner loop of sweep_price_time<false>: `resting` is the k-th order of the level's queue. */
    method TakeOne(l: Ptr, resting: Ptr, inc: Order, rem: uint32,
                   ghost s0: Store, ghost stay: seq<Ptr>, ghost sofar: LevelOutcome, ghost k: nat)
      returns (next: Ptr, rem2: uint32, fills: seq<FillEvent>, skipped: bool,
               ghost stay2: seq<Ptr>, ghost sofar2: LevelOutcome)
      requires book.PoolsOk() && Midway(s0, book.State(), l, stay, sofar.orders, k)
      requires k < |Slots(s0, l)| && resting == Slots(s0, l)[k] && rem == sofar.remaining > 0
      modifies book.Memory
      ensures book.PoolsOk() && Midway(s0, book.State(), l, stay2, sofar2.orders, k + 1)
      ensures sofar2 == Visit(sofar, Queue(s0, l)[k], inc) && skipped == IsSelfTrade(Queue(s0, l)[k], inc)
      ensures next == At(Slots(s0, l), k + 1) && rem2 == sofar2.remaining && sofar2.fills == sofar.fills + fills
    {
      hide ObjectPool.Valid, Midway, FillStep;
      ghost var s := book.State();
      MidwayNext(s0, s, l, stay, sofar.orders, k);
      var node := book.orderPool.Get(resting);
      next := node.next;
      sofar2 := Visit(sofar, node.order, inc);
      if IsSelfTrade(node.order, inc) {
        rem2, fills, skipped, stay2 := rem, [], true, stay + [resting];
        MidwaySkip(s0, s, l, stay, sofar.orders, k);
      } else {
        var q := Min(rem, node.order.qty);
        var fill := ApplyFill(resting, l, q, inc, |sofar.orders|);
        rem2, fills, skipped, stay2 := rem - q, [fill], false, stay + if node.order.qty == q then [] else [resting];
        MidwayFill(s0, s, book.State(), l, stay, sofar.orders, k, q);
      }
    }

    /** The inner loop of sweep_price_time<false>, at one level; it returns what it adds to the counters. */
    method TakeAtLevel(l: Ptr, inc: Order, rem: uint32)
      returns (rem2: uint32, fills: seq<FillEvent>, examined: nat, eligible: nat, skips: nat)
      requires book.Valid() && l in book.levelPool.live
      modifies book.Memory
      ensures var r := TakeLevel(Queue(old(book.State()), l), inc, rem);
              && rem2 == r.remaining && fills == r.fills && examined == r.examined && eligible == r.eligible
              && skips == r.examined - r.eligible
              && book.PoolsOk() && LevelDone(old(book.State()), book.State(), l, r.orders)
    {
      hide ObjectPool.Valid, Inv, Abs, Midway, TakeLevel, LevelDone;
      ghost var s0 := book.State();
      ghost var queue, stay, k, sofar := Queue(s0, l), [], 0, LevelOutcome([], [], rem, 0, 0);
      rem2, fills, examined, eligible, skips := rem, [], 0, 0, 0;
      QueueHead(s0, l);
      MidwayStart(s0, l);
      var resting := book.levelPool.Get(l).head;
      while resting != NULL && rem2 > 0
        invariant k <= |queue| && resting == At(Slots(s0, l), k) && sofar == Visited(queue, inc, rem, k)
        invariant book.PoolsOk() && Midway(s0, book.State(), l, stay, sofar.orders, k)
        invariant rem2 == sofar.remaining && fills == sofar.fills
        invariant examined == sofar.examined && eligible == sofar.eligible && skips == examined - eligible
        decreases |queue| - k
      {
        var here, skipped;
        resting, rem2, here, skipped, stay, sofar := TakeOne(l, resting, inc, rem2, s0, stay, sofar, k);
        examined := examined + 1;
        if skipped {
          skips := skips + 1;
        } else {
          eligible := eligible + 1;
        }
        fills := fills + here;
        k := k + 1;
      }
      TakeDone(s0, book.State(), l, stay, sofar, k, inc, rem);
    }

    // ---------- Pro-rata at one level ----------

    /** One turn of the first loop of pro_rata_at_level: is `r` eligible, and larger than the largest so far? */
    method MeasureOne(l: Ptr, r: Ptr, inc: Order, total: uint64, largest: Ptr, ghost k: nat, ghost m: int)
      returns (next: Ptr, self: bool, total2: uint64, bigger: bool)
      requires book.Valid() && l in book.levelPool.live
      requires k < |Slots(book.State(), l)| && r == Slots(book.State(), l)[k]
      requires -1 <= m < k && largest == At(Slots(book.State(), l), m)
      requires total == EligibleUpTo(Queue(book.State(), l), inc, k)
      requires EligibleUpTo(Queue(book.State(), l), inc, k + 1) < U64_LIMIT
      ensures var queue := Queue(book.State(), l);
              && next == At(Slots(book.State(), l), k + 1)
              && self == IsSelfTrade(queue[k], inc)
              && total2 == EligibleUpTo(queue, inc, k + 1)
              && bigger == (!self && (m < 0 || queue[k].qty > queue[m].qty))
    {
      hide ObjectPool.Valid, Inv;
      QueueNode(book.State(), l, k);
      var node := book.orderPool.Get(r);
      next, self, total2, bigger := node.next, IsSelfTrade(node.order, inc), total, false;
      if !self {
        total2 := total + node.order.qty;
        if largest == NULL {
          QueueSlot(book.State(), l, m);
          bigger := true;
        } else {
          QueueNode(book.State(), l, m);
          bigger := node.order.qty > book.orderPool.Get(largest).order.qty;
        }
      }
    }

    /** First loop of pro_rata_at_level: the eligible total, the first largest eligible order, and the counters. */
    method MeasureLevel(l: Ptr, inc: Order) returns (total: uint64, largest: Ptr, examined: nat, eligible: nat, skips: nat)
      requires book.Valid() && l in book.levelPool.live
      ensures var queue, slots := Queue(book.State(), l), Slots(book.State(), l);
              && |queue| == |slots|
              && total == EligibleTotal(queue, inc)
              && largest == At(slots, Largest(queue, inc, |queue|))
              && examined == |queue| && eligible == CountEligible(queue, inc, |queue|) && skips == examined - eligible
    {
      hide ObjectPool.Valid, Inv, Abs;
      ghost var s := book.State();
      ghost var queue, slots, k, m := Queue(s, l), Slots(s, l), 0, -1;
      total, largest, examined, eligible, skips := 0, NULL, 0, 0, 0;
      QueueHead(s, l);
      QueueFits(s, l);
      var r := book.levelPool.Get(l).head;
      while r != NULL
        invariant k <= |queue| && r == At(slots, k)
        invariant total == EligibleUpTo(queue, inc, k)
        invariant m == Largest(queue, inc, k) && largest == At(slots, m)
        invariant examined == k && eligible == CountEligible(queue, inc, k) && skips == examined - eligible
        decreases |queue| - k
      {
        EligibleFits(queue, inc, k + 1);
        var self, bigger;
        var current := r;
        r, self, total, bigger := MeasureOne(l, r, inc, total, largest, k, m);
        examined := examined + 1;
        if self {
          skips := skips + 1;
        } else {
          eligible := eligible + 1;
        }
        if bigger {
          largest, m := current, k;
        }
        k := k + 1;
      }
      EligibleUpToMeans(queue, inc, k);
    }

    /** floor(L * q / total), in uint64. */
    method Floor(L: uint32, q: uint32, total: uint64) returns (share: uint32)
      requires 0 < total && L <= total
      ensures share == FloorShare(L, q, total) <= q
    {
      ProductFits(L, q);
      FloorBounds(L, q, total);
      var product: uint64 := L * q;
      share := product / total;
    }

    /** Second loop of pro_rata_at_level: the sum of the floors, in uint32. */
    method SumFloors(l: Ptr, inc: Order, L: uint32, total: uint64) returns (floorTotal: uint32)
      requires book.Valid() && l in book.levelPool.live
      requires total == EligibleTotal(Queue(book.State(), l), inc) && 0 < total && L <= total
      ensures floorTotal == Sum(Floors(Caps(Queue(book.State(), l), inc), L, total))
    {
      hide ObjectPool.Valid, Inv, Abs;
      ghost var s := book.State();
      ghost var queue, slots, k := Queue(s, l), Slots(s, l), 0;
      ghost var caps, floors := Caps(queue, inc), Floors(Caps(queue, inc), L, total);
      floorTotal := 0;
      QueueHead(s, l);
      var r := book.levelPool.Get(l).head;
      while r != NULL
        invariant k <= |queue| && r == At(slots, k)
        invariant floorTotal == Sum(floors[..k])
        decreases |queue| - k
      {
        QueueNode(s, l, k);
        FloorStep(caps, L, k);
        FloorsFit(caps, L, k + 1);
        var node := book.orderPool.Get(r);
        if !IsSelfTrade(node.order, inc) {
          var share := Floor(L, node.order.qty, total);
          floorTotal := floorTotal + share;
        }
        r := node.next;
        k := k + 1;
      }
      assert floors[..k] == floors;
    }

    /** The share of one order in the third loop of pro_rata_at_level, and the residual left after it. */
    method ShareOf(L: uint32, q: uint32, total: uint64, residual: uint32) returns (share: uint32, residual2: uint32)
      requires 0 < total && L <= total
      ensures var floor := FloorShare(L, q, total);
              var extra := Min(residual, q - floor);
              floor <= q && share == floor + extra && residual2 == residual - extra
    {
      share := Floor(L, q, total);
      residual2 := residual;
      if residual > 0 {
        var extra := Min(residual, q - share);
        share, residual2 := share + extra, residual - extra;
      }
    }

    /** One turn of the third loop of pro_rata_at_level: pays the k-th order unless it is the largest or a self-trade. */
    method PayOne(l: Ptr, r: Ptr, inc: Order, L: uint32, total: uint64, largest: Ptr, residual: uint32,
                  ghost s0: Store, ghost m: nat, ghost floors: seq<int>, ghost walk: seq<int>, ghost last: int, ghost k: nat)
      returns (next: Ptr, share: uint32, residual2: uint32, fills: seq<FillEvent>)
      requires book.PoolsOk() && l in s0.levels && k < |Queue(s0, l)| && Inv(s0)
      requires total == EligibleTotal(Queue(s0, l), inc) && 0 < total && L <= total
      requires Splits(Queue(s0, l), inc, L, m, floors, walk, last) && Tradable(Queue(s0, l), walk)
      requires |floors| == |Queue(s0, l)| && m < |Queue(s0, l)|
      requires Paying(s0, book.State(), l, walk, k)
      requires r == Slots(s0, l)[k] && largest == Slots(s0, l)[m]
      requires WalkAt(Queue(s0, l), inc, floors, m, k, residual, walk)
      modifies book.Memory
      ensures book.PoolsOk() && Paying(s0, book.State(), l, walk, k + 1)
      ensures next == At(Slots(s0, l), k + 1) && share == walk[k] && fills == ShareFill(Queue(s0, l)[k], inc, walk[k])
      ensures WalkAt(Queue(s0, l), inc, floors, m, k + 1, residual2, walk)
    {
      hide ObjectPool.Valid, Inv, Abs, EligibleTotal, Paying, WalkAt, Splits, FloorShare, PaidOrders, FillStep, IsSelfTrade;
      ghost var s := book.State();
      PayingNext(s0, s, l, walk, k);
      SplitAt(Queue(s0, l), inc, L, m, floors, walk, last, k, residual);
      SlotsDiffer(s0, l, k, m);
      var node := book.orderPool.Get(r);
      next, share, residual2, fills := node.next, 0, residual, [];
      if r != largest && !IsSelfTrade(node.order, inc) {
        share, residual2 := ShareOf(L, node.order.qty, total, residual);
      }
      SplitOn(Queue(s0, l), inc, L, m, floors, walk, last, k, residual, residual2);
      if share > 0 {
        var fill := ApplyFill(r, l, share, inc, |PaidOrders(Queue(s0, l), walk, k)|);
        fills := [fill];
        PayingFill(s0, s, book.State(), l, walk, k);
      } else {
        PayingSkip(s0, s, l, walk, k);
      }
    }

    /** Third loop of pro_rata_at_level: walks the queue and pays everyone but the largest order. */
    method PayOthers(l: Ptr, inc: Order, rem: uint32, L: uint32, total: uint64, largest: Ptr, residual: uint32,
                     ghost m: nat, ghost floors: seq<int>, ghost walk: seq<int>, ghost last: int)
      returns (rem2: uint32, fills: seq<FillEvent>)
      requires book.Valid() && l in book.levelPool.live
      requires total == EligibleTotal(Queue(book.State(), l), inc) && 0 < total && L <= total && L <= rem
      requires Splits(Queue(book.State(), l), inc, L, m, floors, walk, last) && Tradable(Queue(book.State(), l), walk)
      requires |floors| == |Queue(book.State(), l)| && m < |Queue(book.State(), l)|
      requires largest == Slots(book.State(), l)[m]
      requires WalkAt(Queue(book.State(), l), inc, floors, m, 0, residual, walk)
      modifies book.Memory
      ensures var queue := Queue(old(book.State()), l);
              && book.PoolsOk() && Paying(old(book.State()), book.State(), l, walk, |queue|)
              && fills == PaidFills(queue, inc, walk, |queue|) && rem2 == rem - Sum(walk)
    {
      hide ObjectPool.Valid, Inv, Abs, Paying, WalkAt, Splits, ShareFill, Sum, EligibleTotal;
      ghost var s0 := book.State();
      ghost var slots, queue, k := Slots(s0, l), Queue(s0, l), 0;
      var left := residual;
      rem2, fills := rem, [];
      QueueHead(s0, l);
      PayingStart(s0, l, walk);
      WholeSum(walk);
      var r := book.levelPool.Get(l).head;
      while r != NULL
        invariant k <= |queue| && r == At(slots, k)
        invariant book.PoolsOk() && Paying(s0, book.State(), l, walk, k)
        invariant WalkAt(queue, inc, floors, m, k, left, walk)
        invariant fills == PaidFills(queue, inc, walk, k) && rem2 == rem - Sum(walk[..k])
        decreases |queue| - k
      {
        PaidBound(queue, inc, L, m, floors, walk, last, k);
        var share, here;
        r, share, left, here := PayOne(l, r, inc, L, total, largest, left, s0, m, floors, walk, last, k);
        rem2, fills := rem2 - share, fills + here;
        k := k + 1;
      }
    }

    /** The walk and then the fill that was put off: the largest order is paid only after every other node has been
        passed, because that fill may free its node and even the level. */
    method PayLevel(l: Ptr, inc: Order, rem: uint32, L: uint32, total: uint64, largest: Ptr, largestShare: uint32,
                    residual: uint32, ghost m: nat, ghost floors: seq<int>, ghost walk: seq<int>)
      returns (rem2: uint32, fills: seq<FillEvent>)
      requires book.Valid() && l in book.levelPool.live
      requires total == EligibleTotal(Queue(book.State(), l), inc) && 0 < total && L <= total && L <= rem
      requires Splits(Queue(book.State(), l), inc, L, m, floors, walk, largestShare) && Tradable(Queue(book.State(), l), walk)
      requires |floors| == |Queue(book.State(), l)| && m < |Queue(book.State(), l)|
      requires largest == Slots(book.State(), l)[m]
      requires WalkAt(Queue(book.State(), l), inc, floors, m, 0, residual, walk)
      modifies book.Memory
      ensures var queue := Queue(old(book.State()), l);
              && largestShare <= queue[m].qty
              && book.PoolsOk() && LevelDone(old(book.State()), book.State(), l, ApplyShares(queue, walk[m := largestShare]))
              && fills == ShareFills(queue, inc, walk) + ShareFill(queue[m], inc, largestShare)
              && rem2 == rem - L
    {
      hide ObjectPool.Valid, Inv, Abs, Paying, WalkAt, LevelDone, FillStep, PaidOrders;
      ghost var s0 := book.State();
      SplitShape(Queue(s0, l), inc, L, m, floors, walk, largestShare);
      rem2, fills := PayOthers(l, inc, rem, L, total, largest, residual, m, floors, walk, largestShare);
      ghost var s := book.State();
      PayDone(s0, s, l, inc, walk, m, largestShare);
      if largestShare > 0 {
        var fill := ApplyFill(largest, l, largestShare, inc, |PaidOrders(Queue(s0, l), walk, m)|);
        rem2, fills := rem2 - largestShare, fills + [fill];
        PayDoneLast(s0, s, book.State(), l, inc, walk, m, largestShare);
      }
    }

    /** pro_rata_at_level<false>; it returns what it adds to the counters. */
    method ProRataAtLevel(l: Ptr, inc: Order, rem: uint32)
      returns (rem2: uint32, fills: seq<FillEvent>, examined: nat, eligible: nat, skips: nat)
      requires book.Valid() && l in book.levelPool.live
      modifies book.Memory
      ensures var r := ProRataLevel(Queue(old(book.State()), l), inc, rem);
              && rem2 == r.remaining && fills == r.fills && examined == r.examined && eligible == r.eligible
              && skips == r.examined - r.eligible
              && book.PoolsOk() && LevelDone(old(book.State()), book.State(), l, r.orders)
    {
      hide ProRataLevel, LevelShares, Inv, Abs, LevelDone, Splits, WalkAt, Sum, Walk, Largest, CountEligible, Queue;
      hide ApplyShares, ShareFills, ShareFill, ObjectPool.Valid;
      ghost var s0 := book.State();
      ghost var queue := Queue(s0, l);
      var total, largest;
      total, largest, examined, eligible, skips := MeasureLevel(l, inc);
      if total == 0 {
        LevelUntouched(s0, l);
        ProRataNothing(queue, inc, rem);
        return rem, [], examined, eligible, skips;
      }
      var L: uint32 := Min(rem, total);
      SplitStart(queue, inc, L);
      ghost var m, floors := Largest(queue, inc, |queue|), Floors(Caps(queue, inc), L, total);
      var floorTotal := SumFloors(l, inc, L, total);
      QueueNode(s0, l, m);
      var q := book.orderPool.Get(largest).order.qty;
      var largestShare, residual := ShareOf(L, q, total, L - floorTotal);
      ghost var walk := Walk(Caps(queue, inc), floors, m, residual);
      WalkAtStart(queue, inc, floors, m, residual, walk);
      SplitShape(queue, inc, L, m, floors, walk, largestShare);
      ProRataMeans(queue, inc, rem, L, m, walk, largestShare);
      rem2, fills := PayLevel(l, inc, rem, L, total, largest, largestShare, residual, m, floors, walk);
    }

    // ---------- The sweeps ----------

    /** sweep_price_time<false> and pro_rata_sweep<false>, which differ only in what they do at a level. The next level
        is looked up before the current one is swept, since sweeping may free it. */
    method SweepSide(sweepMode: MatchingMode, inc: Order)
      returns (rem: uint32, fills: seq<FillEvent>, entered: nat, examined: nat, eligible: nat, skips: nat)
      requires book.Valid()
      modifies book.Memory
      ensures var r := Sweep(sweepMode, Levels(old(book.Contents()), Other(inc.side)), inc, inc.qty);
              && book.Valid()
              && book.Contents() == WithLevels(old(book.Contents()), Other(inc.side), r.levels)
              && rem == r.remaining && fills == r.fills && entered == r.entered && examined == r.examined
              && eligible == r.eligible && skips == r.examined - r.eligible
    {
      hide Sweep, Sweeping, Inv, Crosses, ObjectPool.Valid;
      ghost var s0 := book.State();
      ghost var j, sofar := 0, SideOutcome([], [], inc.qty, 0, 0, 0);
      rem, fills, entered, examined, eligible, skips := inc.qty, [], 0, 0, 0, 0;
      var level := book.BestLevel(Other(inc.side));
      SweepingStart(s0, sweepMode, inc, level);
      SweepingLevel(s0, s0, sweepMode, inc, j, level, sofar);
      while level != NULL && rem > 0 && Crosses(book.levelPool.Get(level).price, inc)
        invariant book.PoolsOk() && Sweeping(s0, book.State(), sweepMode, inc, j, level, sofar)
        invariant level != NULL ==> level in book.levelPool.live && j < |Levels(Abs(s0), Other(inc.side))|
                                    && book.levelPool.live[level].price == Levels(Abs(s0), Other(inc.side))[j].price
        invariant j <= |Levels(Abs(s0), Other(inc.side))|
        invariant rem == sofar.remaining && fills == sofar.fills && entered == sofar.entered
        invariant examined == sofar.examined && eligible == sofar.eligible && skips == examined - eligible
        decreases |Levels(Abs(s0), Other(inc.side))| - j
      {
        var next, here, seen, could, skipped;
        next, rem, here, seen, could, skipped, sofar := SweepOne(sweepMode, level, inc, rem, s0, j, sofar);
        fills := fills + here;
        entered, examined, eligible, skips := entered + 1, examined + seen, eligible + could, skips + skipped;
        level, j := next, j + 1;
        SweepingLevel(s0, book.State(), sweepMode, inc, j, level, sofar);
      }
      SweepingDone(s0, book.State(), sweepMode, inc, j, level, sofar);
    }

    /** One level of a sweep. */
    method SweepOne(sweepMode: MatchingMode, level: Ptr, inc: Order, rem: uint32,
                    ghost s0: Store, ghost j: nat, ghost sofar: SideOutcome)
      returns (next: Ptr, rem2: uint32, fills: seq<FillEvent>, examined: nat, eligible: nat, skips: nat,
               ghost sofar2: SideOutcome)
      requires book.PoolsOk() && Sweeping(s0, book.State(), sweepMode, inc, j, level, sofar)
      requires level != NULL && rem == sofar.remaining > 0 && j < |Levels(Abs(s0), Other(inc.side))|
      requires Crosses(Levels(Abs(s0), Other(inc.side))[j].price, inc)
      modifies book.Memory
      ensures book.PoolsOk() && Sweeping(s0, book.State(), sweepMode, inc, j + 1, next, sofar2)
      ensures rem2 == sofar2.remaining && sofar2.fills == sofar.fills + fills && sofar2.entered == sofar.entered + 1
      ensures sofar2.examined == sofar.examined + examined && sofar2.eligible == sofar.eligible + eligible
      ensures skips == examined - eligible
    {
      hide TakeLevel, ProRataLevel, Sweeping, Inv, LevelDone, Crosses, ObjectPool.Valid;
      ghost var s := book.State();
      SweepingLevel(s0, s, sweepMode, inc, j, level, sofar);
      next := book.NextLevel(Other(inc.side), book.levelPool.Get(level).price);
      if sweepMode.PRICE_TIME? {
        rem2, fills, examined, eligible, skips := TakeAtLevel(level, inc, rem);
      } else {
        rem2, fills, examined, eligible, skips := ProRataAtLevel(level, inc, rem);
      }
      ghost var here := AtLevel(sweepMode, Levels(Abs(s0), Other(inc.side))[j].orders, inc, rem);
      sofar2 := SweepNext(sofar, Levels(Abs(s0), Other(inc.side))[j].price, here);
      SweepingStep(s0, s, book.State(), sweepMode, inc, j, level, next, sofar, here);
    }

    // ---------- The dry runs ----------

    /** The inner loop of sweep_price_time<true>. */
    method DryTakeAtLevel(l: Ptr, inc: Order, rem: uint32) returns (rem2: uint32)
      requires book.Valid() && l in book.levelPool.live
      ensures rem2 == DryTake(Queue(book.State(), l), inc, rem)
    {
      hide Inv;
      ghost var s := book.State();
      ghost var queue, k := Queue(s, l), 0;
      rem2 := rem;
      QueueHead(s, l);
      assert queue[0..] == queue;
      var resting := book.levelPool.Get(l).head;
      while resting != NULL && rem2 > 0
        invariant k <= |queue| && resting == At(Slots(s, l), k)
        invariant DryTake(queue, inc, rem) == DryTake(queue[k..], inc, rem2)
        decreases |queue| - k
      {
        QueueNode(s, l, k);
        DryStep(queue, k, inc, rem2);
        var node := book.orderPool.Get(resting);
        if !IsSelfTrade(node.order, inc) {
          rem2 := rem2 - Min(rem2, node.order.qty);
        }
        resting := node.next;
        k := k + 1;
      }
    }

    /** pro_rata_at_level<true>. */
    method DryProRataAtLevel(l: Ptr, inc: Order, rem: uint32) returns (rem2: uint32)
      requires book.Valid() && l in book.levelPool.live
      ensures rem2 == rem - Min(rem, EligibleTotal(Queue(book.State(), l), inc))
    {
      hide Inv;
      var total, largest, examined, eligible, skips := MeasureLevel(l, inc);
      if total == 0 {
        return rem;
      }
      rem2 := rem - Min(rem, total);
    }

    /** available_price_time and available_pro_rata: what an order could trade, found without trading. */
    method Available(sweepMode: MatchingMode, inc: Order) returns (available: uint32)
      requires book.Valid()
      ensures available == inc.qty - DrySweep(sweepMode, Levels(book.Contents(), Other(inc.side)), inc, inc.qty)
    {
      hide Inv, Abs, Crosses, DryLevel, DrySweep, Queue, ObjectPool.Valid;
      ghost var s := book.State();
      ghost var side, j := Other(inc.side), 0;
      ghost var levels, entries := Levels(Abs(s), side), Entries(s, side);
      SameLength(s, side);
      assert levels[0..] == levels;
      var rem: uint32 := inc.qty;
      var level := book.BestLevel(Other(inc.side));
      if entries != [] {
        EntryLevel(s, side, 0);
      }
      while level != NULL && rem > 0 && Crosses(book.levelPool.Get(level).price, inc)
        invariant j <= |levels| == |entries| && level == if j < |entries| then entries[j].level else NULL
        invariant j < |entries| ==> level != NULL && level in s.levels && s.levels[level].price == levels[j].price
        invariant DrySweep(sweepMode, levels, inc, inc.qty) == DrySweep(sweepMode, levels[j..], inc, rem)
        decreases |levels| - j
      {
        EntryLevel(s, side, j);
        DryLevelStep(sweepMode, levels, j, inc, rem);
        var next := book.NextLevel(Other(inc.side), book.levelPool.Get(level).price);
        rem := DryAtLevel(sweepMode, level, inc, rem);
        level, j := next, j + 1;
        if j < |entries| {
          EntryLevel(s, side, j);
        }
      }
      DryStop(sweepMode, levels[j..], inc, rem);
      available := inc.qty - rem;
    }

    method DryAtLevel(sweepMode: MatchingMode, l: Ptr, inc: Order, rem: uint32) returns (rem2: uint32)
      requires book.Valid() && l in book.levelPool.live
      ensures rem2 == DryLevel(sweepMode, Queue(book.State(), l), inc, rem)
    {
      hide Inv;
      if sweepMode.PRICE_TIME? {
        rem2 := DryTakeAtLevel(l, inc, rem);
      } else {
        rem2 := DryProRataAtLevel(l, inc, rem);
      }
    }

    // ---------- match and replace ----------

    /** match(): a duplicate id or an unfillable FOK changes nothing; otherwise sweep, then rest what is left of a GTC
        order unless that would cross the book. The book is asked afresh for its best opposite level, because the
        sweep may have freed the one it started from. */
    method Match(inc: Order) returns (fills: seq<FillEvent>, stats: MatchStats)
      requires book.Valid()
      modifies book.Memory
      ensures book.Valid()
      ensures MatchOutcome(book.Contents(), fills, stats) == MatchSpec.Match(mode, old(book.Contents()), inc)
      ensures var b := old(book.Contents());
              Find(b, inc.orderId).Some? || (inc.tif.FOK? && DrySweep(mode, Levels(b, Other(inc.side)), inc, inc.qty) > 0)
              ==> unchanged(book.Memory)
    {
      hide Inv, Abs, Sweep, DrySweep, Find, Add, Crosses, ObjectPool.Valid;
      var resting := book.FindOrder(inc.orderId);
      if resting != NULL {
        return [], NO_STATS.(remainingQty := inc.qty);
      }
      if inc.tif.FOK? {
        var available := Available(mode, inc);
        if available < inc.qty {
          return [], NO_STATS.(remainingQty := inc.qty);
        }
      }
      var rem, entered, examined, eligible, skips;
      rem, fills, entered, examined, eligible, skips := SweepSide(mode, inc);
      if inc.tif.GTC? && rem > 0 {
        RestRemainder(inc, rem);
      }
      stats := MatchStats(|fills|, entered, examined, eligible, skips, rem);
    }

    /** The remainder rests unless the opposite best still crosses it. add_order may refuse it too, which match()
        ignores. */
    method RestRemainder(inc: Order, rem: uint32)
      requires book.Valid()
      modifies book.Memory
      ensures book.Valid()
      ensures var b := old(book.Contents());
              book.Contents() == if WouldRestCrossed(Levels(b, Other(inc.side)), inc) then b else Add(b, inc.(qty := rem))
    {
      hide Inv, Add, Crosses;
      ghost var entries := Entries(book.State(), Other(inc.side));
      var opposite := book.BestLevel(Other(inc.side));
      if entries != [] {
        EntryLevel(book.State(), Other(inc.side), 0);
      }
      if opposite == NULL || !Crosses(book.levelPool.Get(opposite).price, inc) {
        var rested := book.AddOrder(inc.(qty := rem));
      }
    }

    /** replace(). */
    method Replace(id: uint64, newPrice: int64, newQty: uint32) returns (fills: seq<FillEvent>, stats: MatchStats)
      requires book.Valid()
      modifies book.Memory
      ensures book.Valid()
      ensures MatchOutcome(book.Contents(), fills, stats) == MatchSpec.Replace(mode, old(book.Contents()), id, newPrice, newQty)
      ensures Find(old(book.Contents()), id).None? ==> unchanged(book.Memory)
    {
      hide Inv, Abs, Find, Cancel, SetQty, MatchSpec.Match, ObjectPool.Valid;
      var p := book.FindOrder(id);
      if p == NULL {
        return [], NO_STATS;
      }
      var existing := book.orderPool.Get(p).order;
      if newQty == 0 {
        var cancelled := book.CancelOrder(id);
        return [], NO_STATS;
      }
      if newPrice == existing.price && newQty <= existing.qty {
        var replaced := book.ReplaceOrderInPlace(id, newQty);
        return [], NO_STATS;
      }
      var inc := existing.(price := newPrice, qty := newQty, eventTag := NEW_OR_CANCEL);
      var cancelled := book.CancelOrder(id);
      fills, stats := Match(inc);
    }
  }
}
