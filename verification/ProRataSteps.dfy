/** How the pro-rata allocation of one level unrolls along the FIFO, for the three loops of pro_rata_at_level. */
module ProRataSteps {
  import opened Types
  import opened Pools
  import opened Book
  import opened Allocation
  import opened MatchSpec
  import opened BookStore
  import opened StoreFill
  import opened SweepSteps

  // ---------- Width of the accumulators ----------

  /** A product of two uint32 fits uint64. */
  lemma ProductFits(a: uint32, b: uint32)
    ensures 0 <= a * b < U64_LIMIT
  {
    MulMonotone(a, b, 0xFFFF_FFFF);
  }

  /** The eligible total of the first k orders of a level. */
  function EligibleUpTo(orders: seq<Order>, inc: Order, k: nat): (total: nat)
    requires k <= |orders|
    ensures total <= k * 0xFFFF_FFFF
  {
    if k == 0 then 0
    else EligibleUpTo(orders, inc, k - 1) + if IsSelfTrade(orders[k - 1], inc) then 0 else orders[k - 1].qty
  }

  lemma {:induction false} EligibleUpToMeans(orders: seq<Order>, inc: Order, k: nat)
    requires k <= |orders|
    ensures EligibleUpTo(orders, inc, k) == Sum(Caps(orders, inc)[..k])
    ensures k == |orders| ==> EligibleUpTo(orders, inc, k) == EligibleTotal(orders, inc)
  {
    if k > 0 {
      EligibleUpToMeans(orders, inc, k - 1);
      SumSnoc(Caps(orders, inc), k - 1);
    }
    if k == |orders| {
      assert Caps(orders, inc)[..k] == Caps(orders, inc);
    }
  }

  /** The accumulator of a level's eligible total fits uint64. */
  lemma EligibleFits(orders: seq<Order>, inc: Order, k: nat)
    requires k <= |orders| <= ORDER_POOL_SIZE
    ensures EligibleUpTo(orders, inc, k) < U64_LIMIT
  {
  }

  // ---------- The floors ----------

  lemma FloorStep(caps: seq<nat>, L: nat, k: nat)
    requires Sum(caps) > 0 && L <= Sum(caps) && k < |caps|
    ensures var floors := Floors(caps, L, Sum(caps));
            && Sum(floors[..k + 1]) == Sum(floors[..k]) + floors[k]
            && 0 <= floors[k] <= caps[k]
            && (caps[k] == 0 ==> floors[k] == 0)
  {
    SumSnoc(Floors(caps, L, Sum(caps)), k);
    FloorBounds(L, caps[k], Sum(caps));
  }

  lemma {:induction false} PrefixSum(floors: seq<int>, k: nat)
    requires k <= |floors| && forall i :: 0 <= i < |floors| ==> floors[i] >= 0
    ensures 0 <= Sum(floors[..k]) <= Sum(floors)
    decreases |floors| - k
  {
    if k == |floors| {
      assert floors[..k] == floors;
      SumNonNegative(floors);
    } else {
      PrefixSum(floors, k + 1);
      SumSnoc(floors, k);
      SumNonNegative(floors[..k]);
    }
  }

  /** total_floor never exceeds the quantity to be split. */
  lemma FloorsFit(caps: seq<nat>, L: nat, k: nat)
    requires Sum(caps) > 0 && L <= Sum(caps) && k <= |caps|
    ensures 0 <= Sum(Floors(caps, L, Sum(caps))[..k]) <= L
  {
    ResidualBounds(caps, L);
    FloorsWithin(caps, L);
    PrefixSum(Floors(caps, L, Sum(caps)), k);
  }

  // ---------- The walk ----------

  /** Position k of the walk: what it pays, and what it leaves. */
  lemma WalkStep(caps: seq<nat>, floors: seq<int>, m: int, k: nat, residual: int, walk: seq<int>)
    requires |floors| == |caps| == |walk| && k < |caps|
    requires Walk(caps[k..], floors[k..], m - k, residual) == walk[k..]
    ensures var extra := if k == m then 0 else Min(residual, caps[k] - floors[k]);
            && walk[k] == (if k == m then 0 else floors[k] + extra)
            && Walk(caps[k + 1..], floors[k + 1..], m - (k + 1), residual - extra) == walk[k + 1..]
  {
    assert caps[k..][1..] == caps[k + 1..] && floors[k..][1..] == floors[k + 1..] && walk[k..][1..] == walk[k + 1..];
    assert walk[k..][0] == walk[k] && caps[k..][0] == caps[k] && floors[k..][0] == floors[k];
  }

  /** What the first k orders keep, receive and occupy once each was paid its share. */
  function PaidOrders(queue: seq<Order>, shares: seq<int>, k: nat): seq<Order>
    requires Tradable(queue, shares) && k <= |queue|
  {
    if k == 0 then [] else PaidOrders(queue, shares, k - 1) + AfterShare(queue[k - 1], shares[k - 1])
  }

  function PaidFills(queue: seq<Order>, inc: Order, shares: seq<int>, k: nat): seq<FillEvent>
    requires Tradable(queue, shares) && k <= |queue|
  {
    if k == 0 then [] else PaidFills(queue, inc, shares, k - 1) + ShareFill(queue[k - 1], inc, shares[k - 1])
  }

  function PaidSlots(slots: seq<Ptr>, queue: seq<Order>, shares: seq<int>, k: nat): (stay: seq<Ptr>)
    requires Tradable(queue, shares) && k <= |queue| == |slots|
    ensures |stay| == |PaidOrders(queue, shares, k)|
  {
    if k == 0 then []
    else PaidSlots(slots, queue, shares, k - 1) +
         if AfterShare(queue[k - 1], shares[k - 1]) == [] then [] else [slots[k - 1]]
  }

  lemma {:induction false} PaidAll(queue: seq<Order>, inc: Order, shares: seq<int>, k: nat)
    requires Tradable(queue, shares) && k <= |queue|
    ensures PaidOrders(queue, shares, k) + ApplyShares(queue[k..], shares[k..]) == ApplyShares(queue, shares)
    ensures PaidFills(queue, inc, shares, k) + ShareFills(queue[k..], inc, shares[k..]) == ShareFills(queue, inc, shares)
  {
    if k == 0 {
      assert queue[0..] == queue && shares[0..] == shares;
    } else {
      PaidAll(queue, inc, shares, k - 1);
      assert queue[k - 1..][1..] == queue[k..] && shares[k - 1..][1..] == shares[k..];
      Regroup(PaidOrders(queue, shares, k - 1), AfterShare(queue[k - 1], shares[k - 1]), ApplyShares(queue[k..], shares[k..]));
      Regroup(PaidFills(queue, inc, shares, k - 1), ShareFill(queue[k - 1], inc, shares[k - 1]),
              ShareFills(queue[k..], inc, shares[k..]));
    }
  }

  // ---------- The deferred order ----------

  /** An order that was passed over is where its predecessors left it, and the rest follows it. */
  lemma {:induction false} PassedOver(slots: seq<Ptr>, queue: seq<Order>, shares: seq<int>, m: nat, k: nat)
    requires Tradable(queue, shares) && m < k <= |queue| == |slots| && shares[m] == 0
    ensures var at := |PaidOrders(queue, shares, m)|;
            && at < |PaidOrders(queue, shares, k)|
            && PaidOrders(queue, shares, k)[at] == queue[m]
            && PaidSlots(slots, queue, shares, k)[at] == slots[m]
  {
    if k > m + 1 {
      hide AfterShare;
      PassedOver(slots, queue, shares, m, k - 1);
    } else {
      assert AfterShare(queue[m], 0) == [queue[m]];
      hide AfterShare;
    }
  }

  lemma {:induction false} SameBefore(queue: seq<Order>, shares: seq<int>, m: nat, share: int, k: nat)
    requires Tradable(queue, shares) && k <= m < |queue| && 0 <= share <= queue[m].qty
    ensures PaidOrders(queue, shares[m := share], k) == PaidOrders(queue, shares, k)
  {
    if k > 0 {
      SameBefore(queue, shares, m, share, k - 1);
    }
  }

  /** Paying the deferred order in the end is as good as paying it in its turn. */
  lemma {:induction false} PayDeferred(queue: seq<Order>, shares: seq<int>, m: nat, share: int, k: nat)
    requires Tradable(queue, shares) && m < k <= |queue| && shares[m] == 0 && 0 < share <= queue[m].qty
    ensures var at := |PaidOrders(queue, shares, m)|;
            && at < |PaidOrders(queue, shares, k)| && PaidOrders(queue, shares, k)[at] == queue[m]
            && FillQueue(PaidOrders(queue, shares, k), at, share) == PaidOrders(queue, shares[m := share], k)
  {
    var before := PaidOrders(queue, shares, m);
    if k == m + 1 {
      SameBefore(queue, shares, m, share, m);
      assert PaidOrders(queue, shares, k) == before + [queue[m]];
      FillLast(before, queue[m], [], share);
      assert before + [queue[m]] + [] == before + [queue[m]];
      assert before + AfterFill(queue[m], share) + [] == before + AfterFill(queue[m], share);
    } else {
      PayDeferred(queue, shares, m, share, k - 1);
      FillPrefix(PaidOrders(queue, shares, k - 1), AfterShare(queue[k - 1], shares[k - 1]), |before|, share);
    }
  }

  lemma FillLast(before: seq<Order>, o: Order, after: seq<Order>, q: uint32)
    requires q <= o.qty
    ensures FillQueue(before + [o] + after, |before|, q) == before + AfterFill(o, q) + after
  {
    var all := before + [o] + after;
    assert all[|before|] == o;
    if o.qty == q {
      assert RemoveAt(all, |before|) == before + [] + after;
    } else {
      assert all[|before| := o.(qty := o.qty - q)] == before + [o.(qty := o.qty - q)] + after;
    }
  }

  lemma FillPrefix(a: seq<Order>, b: seq<Order>, at: nat, q: uint32)
    requires at < |a| && q <= a[at].qty
    ensures FillQueue(a + b, at, q) == FillQueue(a, at, q) + b
  {
    assert (a + b)[at] == a[at];
    if a[at].qty == q {
      assert RemoveAt(a + b, at) == RemoveAt(a, at) + b;
    } else {
      var o := a[at].(qty := a[at].qty - q);
      assert (a + b)[at := o] == a[at := o] + b;
    }
  }

  // ---------- The shares of a level, as the loops compute them ----------

  /** The vectors behind one level's allocation: the floors, the FIFO walk with order m passed over, and the share of
      order m. Sealed. */
  ghost predicate Splits(queue: seq<Order>, inc: Order, L: nat, m: nat, floors: seq<int>, walk: seq<int>, share: int) {
    forall u {:trigger Opened(u)} :: Opened(u) ==> SplitsOpen(queue, inc, L, m, floors, walk, share)
  }

  ghost predicate SplitsOpen(queue: seq<Order>, inc: Order, L: nat, m: nat, floors: seq<int>, walk: seq<int>, share: int) {
    var caps := Caps(queue, inc);
    && 0 < Sum(caps) && L <= Sum(caps)
    && m < |queue| && !IsSelfTrade(queue[m], inc)
    && floors == Floors(caps, L, Sum(caps))
    && |walk| == |queue| && Tradable(queue, walk)
    && walk[m] == 0 && 0 <= share <= queue[m].qty
    && Sum(walk) + share == L
  }

  lemma SplitShape(queue: seq<Order>, inc: Order, L: nat, m: nat, floors: seq<int>, walk: seq<int>, share: int)
    requires Splits(queue, inc, L, m, floors, walk, share)
    ensures Tradable(queue, walk) && |floors| == |queue| && m < |queue|
    ensures walk[m] == 0 && 0 <= share <= queue[m].qty && Sum(walk) + share == L
  {
    assert Opened(0);
  }

  /** From position k on, with this residual, the walk pays what is left of `walk`. Sealed. */
  ghost predicate WalkAt(queue: seq<Order>, inc: Order, floors: seq<int>, m: int, k: nat, residual: int, walk: seq<int>) {
    forall u {:trigger Opened(u)} :: Opened(u) ==>
      && |floors| == |walk| == |queue| && k <= |queue|
      && Walk(Caps(queue, inc)[k..], floors[k..], m - k, residual) == walk[k..]
  }

  lemma WalkAtStart(queue: seq<Order>, inc: Order, floors: seq<int>, m: int, residual: int, walk: seq<int>)
    requires |floors| == |queue| && Walk(Caps(queue, inc), floors, m, residual) == walk
    ensures WalkAt(queue, inc, floors, m, 0, residual, walk)
  {
    WholeVectors(Caps(queue, inc), floors, walk);
  }

  /** What the walk takes from the residual for its k-th order: nothing for order m or a self-trade. */
  function TopUp(queue: seq<Order>, inc: Order, L: nat, m: nat, k: nat, residual: nat): int
    requires k < |queue| && EligibleTotal(queue, inc) > 0
  {
    if k == m || IsSelfTrade(queue[k], inc) then 0
    else Min(residual, queue[k].qty - FloorShare(L, queue[k].qty, EligibleTotal(queue, inc)))
  }

  /** The walk pays nothing to order m or a self-trade, and a topped-up floor to every other order. */
  lemma SplitAt(queue: seq<Order>, inc: Order, L: nat, m: nat, floors: seq<int>, walk: seq<int>, share: int, k: nat, residual: nat)
    requires Splits(queue, inc, L, m, floors, walk, share) && k < |queue| == |walk|
    requires WalkAt(queue, inc, floors, m, k, residual, walk)
    ensures EligibleTotal(queue, inc) > 0
    ensures k != m && !IsSelfTrade(queue[k], inc) ==>
              var floor := FloorShare(L, queue[k].qty, EligibleTotal(queue, inc));
              0 <= floor <= queue[k].qty && walk[k] == floor + TopUp(queue, inc, L, m, k, residual)
    ensures k == m || IsSelfTrade(queue[k], inc) ==> walk[k] == 0
  {
    assert Opened(0);
    FloorBounds(L, Caps(queue, inc)[k], EligibleTotal(queue, inc));
    WalkStep(Caps(queue, inc), floors, m, k, residual, walk);
  }

  /** In the terms of the walk. */
  lemma TopUpIs(queue: seq<Order>, inc: Order, L: nat, m: nat, floors: seq<int>, walk: seq<int>, share: int, k: nat, residual: nat)
    requires Splits(queue, inc, L, m, floors, walk, share) && k < |queue| && EligibleTotal(queue, inc) > 0
    ensures |floors| == |queue|
    ensures TopUp(queue, inc, L, m, k, residual) == if k == m then 0 else Min(residual, Caps(queue, inc)[k] - floors[k])
  {
    hide FloorShare, Sum;
    assert Opened(0);
    FloorBounds(L, Caps(queue, inc)[k], EligibleTotal(queue, inc));
  }

  lemma SplitOn(queue: seq<Order>, inc: Order, L: nat, m: nat, floors: seq<int>, walk: seq<int>, share: int, k: nat,
                residual: nat, residual2: int)
    requires Splits(queue, inc, L, m, floors, walk, share) && k < |queue| == |walk| && EligibleTotal(queue, inc) > 0
    requires WalkAt(queue, inc, floors, m, k, residual, walk)
    requires residual2 == residual - TopUp(queue, inc, L, m, k, residual)
    ensures WalkAt(queue, inc, floors, m, k + 1, residual2, walk)
  {
    TopUpIs(queue, inc, L, m, floors, walk, share, k, residual);
    hide Splits, TopUp, Walk, Sum, EligibleTotal;
    assert Opened(0);
    WalkStep(Caps(queue, inc), floors, m, k, residual, walk);
  }

  /** One more order paid. */
  lemma PaidNext(slots: seq<Ptr>, queue: seq<Order>, walk: seq<int>, k: nat)
    requires Tradable(queue, walk) && k < |queue| == |slots|
    ensures walk[k] > 0 ==>
              && PaidOrders(queue, walk, k + 1) == PaidOrders(queue, walk, k) + AfterFill(queue[k], walk[k])
              && PaidSlots(slots, queue, walk, k + 1) ==
                 PaidSlots(slots, queue, walk, k) + if queue[k].qty == walk[k] then [] else [slots[k]]
    ensures walk[k] == 0 ==>
              && PaidOrders(queue, walk, k + 1) == PaidOrders(queue, walk, k) + [queue[k]]
              && PaidSlots(slots, queue, walk, k + 1) == PaidSlots(slots, queue, walk, k) + [slots[k]]
  {
  }

  /** The largest order's share is its floor and as much of the residual as it has room for; the rest walks on. */
  lemma SplitStart(queue: seq<Order>, inc: Order, L: nat)
    requires EligibleTotal(queue, inc) > 0 && L <= EligibleTotal(queue, inc)
    ensures var caps, m := Caps(queue, inc), Largest(queue, inc, |queue|);
            && 0 <= m < |queue|
            && var floors := Floors(caps, L, Sum(caps));
            var residual := L - Sum(floors);
            var extra := Min(residual, caps[m] - floors[m]);
            var walk := Walk(caps, floors, m, residual - extra);
            && 0 <= residual
            && 0 <= floors[m] <= caps[m] == queue[m].qty
            && LevelShares(queue, inc, L) == walk[m := floors[m] + extra]
            && Splits(queue, inc, L, m, floors, walk, floors[m] + extra)
  {
    hide Walk, Sum, FloorShare, Splits, LevelShares, Largest, Floors;
    LargestExists(queue, inc);
    FloorsWithin(Caps(queue, inc), L);
    ResidualBounds(Caps(queue, inc), L);
    SplitShares(queue, inc, L);
    var floors := Floors(Caps(queue, inc), L, EligibleTotal(queue, inc));
    SplitWalk(queue, inc, L, Largest(queue, inc, |queue|), floors, L - Sum(floors));
  }

  lemma SplitShares(queue: seq<Order>, inc: Order, L: nat)
    requires EligibleTotal(queue, inc) > 0 && L <= EligibleTotal(queue, inc)
    ensures var caps, m := Caps(queue, inc), Largest(queue, inc, |queue|);
            && 0 <= m < |queue|
            && LevelShares(queue, inc, L) == Spread(caps, Floors(caps, L, Sum(caps)), m, L - Sum(Floors(caps, L, Sum(caps))))
  {
    hide Walk, Sum, FloorShare, Spread;
    LargestExists(queue, inc);
  }

  lemma SplitWalk(queue: seq<Order>, inc: Order, L: nat, m: nat, floors: seq<int>, residual: int)
    requires m < |queue| && !IsSelfTrade(queue[m], inc)
    requires var caps := Caps(queue, inc);
             && 0 < Sum(caps) && L <= Sum(caps) && floors == Floors(caps, L, Sum(caps)) && Within(caps, floors)
             && 0 <= residual == L - Sum(floors)
    ensures var caps := Caps(queue, inc);
            var extra := Min(residual, caps[m] - floors[m]);
            Splits(queue, inc, L, m, floors, Walk(caps, floors, m, residual - extra), floors[m] + extra)
  {
    hide Walk, Sum, FloorShare, Splits;
    var extra := Min(residual, Caps(queue, inc)[m] - floors[m]);
    SplitSum(Caps(queue, inc), floors, m, residual);
    WalkTradable(queue, inc, floors, m, residual - extra);
    SplitsMake(queue, inc, L, m, floors, Walk(Caps(queue, inc), floors, m, residual - extra), floors[m] + extra);
  }

  /** The walk and the share of order m together pay the floors and the residual. */
  lemma SplitSum(caps: seq<nat>, floors: seq<int>, m: nat, residual: int)
    requires m < |caps| && Within(caps, floors) && 0 <= residual <= Sum(caps) - Sum(floors)
    ensures var extra := Min(residual, caps[m] - floors[m]);
            Sum(Walk(caps, floors, m, residual - extra)) + floors[m] + extra == Sum(floors) + residual
  {
    var extra := Min(residual, caps[m] - floors[m]);
    var walk := Walk(caps, floors, m, residual - extra);
    assert Spread(caps, floors, m, residual) == walk[m := floors[m] + extra];
    WalkSkips(caps, floors, m, residual - extra);
    hide Sum, Walk, Spread, Min, Within;
    SpreadSum(caps, floors, m, residual);
    SumUpdate(walk, m, floors[m] + extra);
  }

  lemma WalkSkips(caps: seq<nat>, floors: seq<int>, m: nat, residual: int)
    requires m < |caps| && Within(caps, floors) && 0 <= residual
    ensures Walk(caps, floors, m, residual)[m] == 0
  {
    hide Walk;
    WalkBounds(caps, floors, m, residual);
  }

  /** The outcome of the level, in terms of the walk and the share of order m. */
  lemma ProRataMeans(queue: seq<Order>, inc: Order, rem: uint32, L: nat, m: nat, walk: seq<int>, share: int)
    requires EligibleTotal(queue, inc) > 0 && L == Min(rem, EligibleTotal(queue, inc)) && m == Largest(queue, inc, |queue|)
    requires Tradable(queue, walk) && m < |walk| && walk[m] == 0 && 0 <= share <= queue[m].qty
    requires LevelShares(queue, inc, L) == walk[m := share]
    ensures ProRataLevel(queue, inc, rem) ==
            LevelOutcome(ApplyShares(queue, walk[m := share]), ShareFills(queue, inc, walk) + ShareFill(queue[m], inc, share),
                         rem - L, |queue|, CountEligible(queue, inc, |queue|))
  {
    hide LevelShares, EligibleTotal, Caps, Largest, CountEligible, ApplyShares, ShareFills, ShareFill, IsSelfTrade;
    assert walk[m := share][m := 0] == walk;
  }

  lemma ProRataNothing(queue: seq<Order>, inc: Order, rem: uint32)
    requires EligibleTotal(queue, inc) == 0
    ensures ProRataLevel(queue, inc, rem) == LevelOutcome(queue, [], rem, |queue|, CountEligible(queue, inc, |queue|))
  {
  }

  lemma WalkTradable(queue: seq<Order>, inc: Order, floors: seq<int>, m: nat, residual: int)
    requires m < |queue| && Within(Caps(queue, inc), floors) && 0 <= residual
    ensures var walk := Walk(Caps(queue, inc), floors, m, residual);
            Tradable(queue, walk) && walk[m] == 0
  {
    WalkBounds(Caps(queue, inc), floors, m, residual);
  }

  lemma SplitsMake(queue: seq<Order>, inc: Order, L: nat, m: nat, floors: seq<int>, walk: seq<int>, share: int)
    requires SplitsOpen(queue, inc, L, m, floors, walk, share)
    ensures Splits(queue, inc, L, m, floors, walk, share)
  {
  }

  /** What has been paid out after k orders, and what is still to come, never exceeds L. */
  lemma PaidBound(queue: seq<Order>, inc: Order, L: nat, m: nat, floors: seq<int>, walk: seq<int>, share: int, k: nat)
    requires Splits(queue, inc, L, m, floors, walk, share) && k <= |queue| == |walk|
    ensures 0 <= Sum(walk[..k]) <= Sum(walk) <= L
    ensures k < |queue| ==> Sum(walk[..k + 1]) == Sum(walk[..k]) + walk[k] <= L
  {
    assert Opened(0);
    PrefixSum(walk, k);
    if k < |queue| {
      SumSnoc(walk, k);
      PrefixSum(walk, k + 1);
    }
  }

  lemma WholeSum(walk: seq<int>)
    ensures Sum(walk[..|walk|]) == Sum(walk) && Sum(walk[..0]) == 0
  {
    assert walk[..|walk|] == walk;
  }

  lemma WholeVectors(caps: seq<nat>, floors: seq<int>, walk: seq<int>)
    ensures caps[0..] == caps && floors[0..] == floors && walk[0..] == walk && Sum(walk[..0]) == 0
  {
  }

  // ---------- The end of a level ----------

  /** The walk over level l, begun in s0, has passed k orders. Sealed. */
  ghost predicate Paying(s0: Store, s: Store, l: Ptr, walk: seq<int>, k: nat)
    requires Tradable(Queue(s0, l), walk) && k <= |Queue(s0, l)|
  {
    forall u {:trigger Opened(u)} :: Opened(u) ==>
      Midway(s0, s, l, PaidSlots(Slots(s0, l), Queue(s0, l), walk, k), PaidOrders(Queue(s0, l), walk, k), k)
  }

  lemma PayingMidway(s0: Store, s: Store, l: Ptr, walk: seq<int>, k: nat)
    requires Tradable(Queue(s0, l), walk) && k <= |Queue(s0, l)| && Paying(s0, s, l, walk, k)
    ensures Midway(s0, s, l, PaidSlots(Slots(s0, l), Queue(s0, l), walk, k), PaidOrders(Queue(s0, l), walk, k), k)
  {
    assert Opened(0);
  }

  lemma PayingMake(s0: Store, s: Store, l: Ptr, walk: seq<int>, k: nat)
    requires Tradable(Queue(s0, l), walk) && k <= |Queue(s0, l)|
    requires Midway(s0, s, l, PaidSlots(Slots(s0, l), Queue(s0, l), walk, k), PaidOrders(Queue(s0, l), walk, k), k)
    ensures Paying(s0, s, l, walk, k)
  {
  }

  /** After the walk: everything but order m has been paid, and order m is still where it was in the queue. */
  lemma PayDone(s0: Store, s: Store, l: Ptr, inc: Order, walk: seq<int>, m: nat, share: int)
    requires Inv(s0) && l in s0.levels && Tradable(Queue(s0, l), walk) && m < |walk| && walk[m] == 0
    requires Paying(s0, s, l, walk, |Queue(s0, l)|)
    ensures var queue, at := Queue(s0, l), |PaidOrders(Queue(s0, l), walk, m)|;
            && PaidFills(queue, inc, walk, |queue|) == ShareFills(queue, inc, walk)
            && Inv(s) && l in s.levels && at < |Slots(s, l)| && Slots(s, l)[at] == Slots(s0, l)[m]
            && Slots(s0, l)[m] in s.orders && s.orders[Slots(s0, l)[m]].order == queue[m]
            && (share == 0 ==> LevelDone(s0, s, l, ApplyShares(queue, walk[m := share])))
  {
    PayingMidway(s0, s, l, walk, |Queue(s0, l)|);
    assert walk[m := 0] == walk;
    var queue, n := Queue(s0, l), |Queue(s0, l)|;
    var stay, kept := PaidSlots(Slots(s0, l), queue, walk, n), PaidOrders(queue, walk, n);
    PassedOver(Slots(s0, l), queue, walk, m, n);
    MidwayKept(s0, s, l, stay, kept, |PaidOrders(queue, walk, m)|);
    MidwayDone(s0, s, l, stay, kept, n);
    PaidWhole(queue, inc, walk);
  }

  lemma PaidWhole(queue: seq<Order>, inc: Order, walk: seq<int>)
    requires Tradable(queue, walk)
    ensures PaidOrders(queue, walk, |queue|) == ApplyShares(queue, walk)
    ensures PaidOrders(queue, walk, |queue|) + queue[|queue|..] == ApplyShares(queue, walk)
    ensures PaidFills(queue, inc, walk, |queue|) == ShareFills(queue, inc, walk)
  {
    PaidAll(queue, inc, walk, |queue|);
    assert queue[|queue|..] == [] && walk[|queue|..] == [];
  }

  /** The deferred fill of order m ends the level. */
  lemma PayDoneLast(s0: Store, s: Store, s2: Store, l: Ptr, inc: Order, walk: seq<int>, m: nat, share: int)
    requires Inv(s0) && l in s0.levels && Tradable(Queue(s0, l), walk) && m < |walk| && walk[m] == 0
    requires Paying(s0, s, l, walk, |Queue(s0, l)|)
    requires 0 < share <= Queue(s0, l)[m].qty
    requires FillStep(s, s2, l, |PaidOrders(Queue(s0, l), walk, m)|, share)
    ensures LevelDone(s0, s2, l, ApplyShares(Queue(s0, l), walk[m := share]))
  {
    PayingMidway(s0, s, l, walk, |Queue(s0, l)|);
    var queue, n := Queue(s0, l), |Queue(s0, l)|;
    PayDeferred(queue, walk, m, share, n);
    FillKept(s0, s, s2, l, PaidSlots(Slots(s0, l), queue, walk, n), PaidOrders(queue, walk, n),
             |PaidOrders(queue, walk, m)|, share);
    PaidWhole(queue, inc, walk[m := share]);
  }

  lemma PayingStart(s: Store, l: Ptr, walk: seq<int>)
    requires Inv(s) && l in s.levels && Tradable(Queue(s, l), walk)
    ensures Paying(s, s, l, walk, 0)
  {
    MidwayStart(s, l);
  }

  /** The order to visit next is live and untouched. */
  lemma PayingNext(s0: Store, s: Store, l: Ptr, walk: seq<int>, k: nat)
    requires Tradable(Queue(s0, l), walk) && k < |Queue(s0, l)| && Paying(s0, s, l, walk, k)
    ensures var at, p := |PaidOrders(Queue(s0, l), walk, k)|, Slots(s0, l)[k];
            && Inv(s) && l in s.levels && at < |Slots(s, l)| && Slots(s, l)[at] == p
            && p in s.orders && s.orders[p].order == Queue(s0, l)[k] && s.orders[p].next == At(Slots(s0, l), k + 1)
  {
    PayingMidway(s0, s, l, walk, k);
    MidwayNext(s0, s, l, PaidSlots(Slots(s0, l), Queue(s0, l), walk, k), PaidOrders(Queue(s0, l), walk, k), k);
  }

  lemma PayingSkip(s0: Store, s: Store, l: Ptr, walk: seq<int>, k: nat)
    requires Tradable(Queue(s0, l), walk) && k < |Queue(s0, l)| && Paying(s0, s, l, walk, k) && walk[k] == 0
    ensures Paying(s0, s, l, walk, k + 1)
  {
    hide Midway, Inv, AfterShare;
    var queue, slots := Queue(s0, l), Slots(s0, l);
    PayingMidway(s0, s, l, walk, k);
    PaidNext(slots, queue, walk, k);
    MidwaySkip(s0, s, l, PaidSlots(slots, queue, walk, k), PaidOrders(queue, walk, k), k);
    PayingMake(s0, s, l, walk, k + 1);
  }

  lemma PayingFill(s0: Store, s: Store, s2: Store, l: Ptr, walk: seq<int>, k: nat)
    requires Tradable(Queue(s0, l), walk) && k < |Queue(s0, l)| && Paying(s0, s, l, walk, k) && walk[k] > 0
    requires FillStep(s, s2, l, |PaidOrders(Queue(s0, l), walk, k)|, walk[k])
    ensures Paying(s0, s2, l, walk, k + 1)
  {
    hide Midway, Inv, AfterShare;
    var queue, slots := Queue(s0, l), Slots(s0, l);
    PayingMidway(s0, s, l, walk, k);
    PaidNext(slots, queue, walk, k);
    MidwayFill(s0, s, s2, l, PaidSlots(slots, queue, walk, k), PaidOrders(queue, walk, k), k, walk[k]);
    PayingMake(s0, s2, l, walk, k + 1);
  }
}
