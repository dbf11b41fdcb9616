/** What one fill does to the store, and what a level looks like in the middle of a sweep: the orders already passed
    that stayed, followed by the untouched rest of the queue. */
module StoreFill {
  import opened Types
  import opened Pools
  import opened LinkedFifo
  import opened Book
  import opened BookStore
  import opened StoreSteps
  import opened StoreLevels
  import opened StoreOps
  import opened MatchSpec

  lemma RequantifiedPos(s: Store, l: Ptr, k: nat, q: uint32)
    requires Inv(s) && l in s.levels && k < |Slots(s, l)| && q <= OrderAt(s.orders, Slots(s, l)[k]).qty
    ensures Names(s, l, k)
    ensures var s2 := Requantified(s, l, k, q);
            && l in s2.levels && Pos(s2, l) == Pos(s, l) && SideOf(s2, l) == SideOf(s, l) && Slots(s2, l) == Slots(s, l)
            && s2.bids == s.bids && s2.asks == s.asks
  {
    assert Opened(0);
    NamesHold(s, l, k, NULL);
  }

  /** apply_fill: lower the quantity, and cancel the order when nothing is left of it. */
  function Filled(s: Store, l: Ptr, k: nat, q: uint32): Store
    requires Inv(s) && l in s.levels && k < |Slots(s, l)| && q <= OrderAt(s.orders, Slots(s, l)[k]).qty
  {
    var left := OrderAt(s.orders, Slots(s, l)[k]).qty - q;
    RequantifiedInv(s, l, k, left);
    RequantifiedPos(s, l, k, left);
    var s2 := Requantified(s, l, k, left);
    if left == 0 then Removed(s2, l, k) else s2
  }

  function Queue(s: Store, l: Ptr): seq<Order> {
    OrdersAt(s.orders, Slots(s, l))
  }

  /** A queue after its k-th order was filled by q. */
  function FillQueue(orders: seq<Order>, k: nat, q: uint32): seq<Order>
    requires k < |orders| && q <= orders[k].qty
  {
    if orders[k].qty == q then RemoveAt(orders, k) else orders[k := orders[k].(qty := orders[k].qty - q)]
  }

  lemma FilledInv(s: Store, l: Ptr, k: nat, q: uint32)
    requires Inv(s) && l in s.levels && k < |Slots(s, l)| && q <= OrderAt(s.orders, Slots(s, l)[k]).qty
    ensures Inv(Filled(s, l, k, q))
  {
    hide Inv, Requantified, Removed, Pos;
    var left := OrderAt(s.orders, Slots(s, l)[k]).qty - q;
    RequantifiedInv(s, l, k, left);
    RequantifiedPos(s, l, k, left);
    if left == 0 {
      RemovedInv(Requantified(s, l, k, left), l, k);
    }
  }

  /** The abstract queue is filled in place; the level goes when it empties. */
  lemma FilledAbs(s: Store, l: Ptr, k: nat, q: uint32)
    requires Inv(s) && l in s.levels && k < |Slots(s, l)| && q <= OrderAt(s.orders, Slots(s, l)[k]).qty
    ensures var side := SideOf(s, l);
            var levels := Levels(Abs(s), side);
            && Pos(s, l) < |levels|
            && levels[Pos(s, l)] == Level(s.levels[l].price, OrdersAt(s.orders, Slots(s, l)))
            && Levels(Abs(Filled(s, l, k, q)), side) ==
               SetLevel(levels, Pos(s, l), FillQueue(levels[Pos(s, l)].orders, k, q))
            && Levels(Abs(Filled(s, l, k, q)), Other(side)) == Levels(Abs(s), Other(side))
  {
    hide Inv, Filled, Pos, Abs, Requantified;
    RequantifiedAbs(s, l, k, 0);
    if q == OrderAt(s.orders, Slots(s, l)[k]).qty {
      FilledUpAbs(s, l, k);
    } else {
      FilledPartAbs(s, l, k, q);
    }
  }

  lemma FilledPartAbs(s: Store, l: Ptr, k: nat, q: uint32)
    requires Inv(s) && l in s.levels && k < |Slots(s, l)| && q < OrderAt(s.orders, Slots(s, l)[k]).qty
    ensures var side := SideOf(s, l);
            var levels := Levels(Abs(s), side);
            && Pos(s, l) < |levels| && k < |levels[Pos(s, l)].orders|
            && var o := levels[Pos(s, l)].orders[k];
            && q < o.qty
            && Levels(Abs(Filled(s, l, k, q)), side) ==
               levels[Pos(s, l) := Level(levels[Pos(s, l)].price, levels[Pos(s, l)].orders[k := o.(qty := o.qty - q)])]
            && Levels(Abs(Filled(s, l, k, q)), Other(side)) == Levels(Abs(s), Other(side))
  {
    hide Inv, Pos, Abs, Requantified, Removed;
    var left := OrderAt(s.orders, Slots(s, l)[k]).qty - q;
    RequantifiedInv(s, l, k, left);
    RequantifiedAbs(s, l, k, left);
    assert Filled(s, l, k, q) == Requantified(s, l, k, left);
  }

  lemma FilledUpAbs(s: Store, l: Ptr, k: nat)
    requires Inv(s) && l in s.levels && k < |Slots(s, l)|
    ensures var side, q := SideOf(s, l), OrderAt(s.orders, Slots(s, l)[k]).qty;
            var levels := Levels(Abs(s), side);
            && Pos(s, l) < |levels| && k < |levels[Pos(s, l)].orders|
            && Levels(Abs(Filled(s, l, k, q)), side) ==
               SetLevel(levels, Pos(s, l), RemoveAt(levels[Pos(s, l)].orders, k))
            && Levels(Abs(Filled(s, l, k, q)), Other(side)) == Levels(Abs(s), Other(side))
  {
    hide Inv, Pos, Abs, Requantified, Removed;
    RequantifiedInv(s, l, k, 0);
    RequantifiedAbs(s, l, k, 0);
    RequantifiedPos(s, l, k, 0);
    RemovedAbs(Requantified(s, l, k, 0), l, k);
    var levels, at := Levels(Abs(s), SideOf(s, l)), Pos(s, l);
    RemoveUpdated(levels[at].orders, k, levels[at].orders[k].(qty := 0));
    SetTwice(levels, at, levels[at].orders[k := levels[at].orders[k].(qty := 0)], RemoveAt(levels[at].orders, k));
  }

  lemma RemoveUpdated<T>(s: seq<T>, k: nat, x: T)
    requires k < |s|
    ensures RemoveAt(s[k := x], k) == RemoveAt(s, k)
  {
  }

  lemma SetTwice(levels: seq<Level>, i: nat, first: seq<Order>, second: seq<Order>)
    requires i < |levels| && first != []
    ensures i < |SetLevel(levels, i, first)|
    ensures SetLevel(SetLevel(levels, i, first), i, second) == SetLevel(levels, i, second)
  {
  }

  lemma FilledShape(s: Store, l: Ptr, k: nat, q: uint32)
    requires Inv(s) && l in s.levels && k < |Slots(s, l)| && q <= OrderAt(s.orders, Slots(s, l)[k]).qty
    ensures var side, s2, gone := SideOf(s, l), Filled(s, l, k, q), q == OrderAt(s.orders, Slots(s, l)[k]).qty;
            && Entries(s2, Other(side)) == Entries(s, Other(side))
            && Pos(s, l) < |Entries(s, side)|
            && (gone && |Slots(s, l)| == 1 ==> Entries(s2, side) == RemoveAt(Entries(s, side), Pos(s, l)))
            && (!(gone && |Slots(s, l)| == 1) ==>
                  && Entries(s2, side) == Entries(s, side) && l in s2.levels && SideOf(s2, l) == side
                  && Slots(s2, l) == if gone then RemoveAt(Slots(s, l), k) else Slots(s, l))
  {
    assert Opened(0);
    var left := OrderAt(s.orders, Slots(s, l)[k]).qty - q;
    RequantifiedInv(s, l, k, left);
    RequantifiedPos(s, l, k, left);
    PosOfLevel(s, l, NULL);
    if left == 0 {
      RemovedShape(Requantified(s, l, k, left), l, k);
    }
  }

  /** s2 is s after the k-th order of level l was filled by q. */
  ghost predicate FillStep(s: Store, s2: Store, l: Ptr, k: nat, q: uint32) {
    forall u {:trigger Opened(u)} :: Opened(u) ==> FillStepOpen(s, s2, l, k, q)
  }

  ghost predicate FillStepOpen(s: Store, s2: Store, l: Ptr, k: nat, q: uint32) {
    && Inv(s) && Inv(s2)
    && l in s.levels && k < |Slots(s, l)| && q <= Queue(s, l)[k].qty
    && var side, at, left := SideOf(s, l), Pos(s, l), FillQueue(Queue(s, l), k, q);
    && at < |Levels(Abs(s), side)|
    && Levels(Abs(s2), side) == SetLevel(Levels(Abs(s), side), at, left)
    && Levels(Abs(s2), Other(side)) == Levels(Abs(s), Other(side))
    && Entries(s2, Other(side)) == Entries(s, Other(side))
    && Entries(s2, side) == (if left == [] then RemoveAt(Entries(s, side), at) else Entries(s, side))
    && (left != [] ==> l in s2.levels && SideOf(s2, l) == side
                       && Slots(s2, l) == if q == Queue(s, l)[k].qty then RemoveAt(Slots(s, l), k) else Slots(s, l))
  }

  lemma FilledStep(s: Store, l: Ptr, k: nat, q: uint32)
    requires Inv(s) && l in s.levels && k < |Slots(s, l)| && q <= OrderAt(s.orders, Slots(s, l)[k]).qty
    ensures FillStep(s, Filled(s, l, k, q), l, k, q)
  {
    assert Opened(0);
    FilledInv(s, l, k, q);
    FilledAbs(s, l, k, q);
    FilledShape(s, l, k, q);
  }

  // ---------- In the middle of a sweep ----------

  /** The sweep of level l, which started in s0, has passed its first k orders and is now in s: the orders `kept` (in
      slots `stay`) are still there, and everything from the k-th on is untouched. */
  ghost predicate Midway(s0: Store, s: Store, l: Ptr, stay: seq<Ptr>, kept: seq<Order>, k: nat) {
    forall u {:trigger Opened(u)} :: Opened(u) ==> MidwayOpen(s0, s, l, stay, kept, k)
  }

  ghost predicate MidwayOpen(s0: Store, s: Store, l: Ptr, stay: seq<Ptr>, kept: seq<Order>, k: nat) {
    && Inv(s0) && Inv(s) && l in s0.levels
    && k <= |Slots(s0, l)| && |stay| == |kept|
    && var side, at, left := SideOf(s0, l), Pos(s0, l), kept + Queue(s0, l)[k..];
    && at < |Levels(Abs(s0), side)|
    && Levels(Abs(s), side) == SetLevel(Levels(Abs(s0), side), at, left)
    && Levels(Abs(s), Other(side)) == Levels(Abs(s0), Other(side))
    && Entries(s, Other(side)) == Entries(s0, Other(side))
    && Entries(s, side) == (if left == [] then RemoveAt(Entries(s0, side), at) else Entries(s0, side))
    && (left != [] ==> l in s.levels && SideOf(s, l) == side && Slots(s, l) == stay + Slots(s0, l)[k..])
  }

  lemma MidwayIs(s0: Store, s: Store, l: Ptr, stay: seq<Ptr>, kept: seq<Order>, k: nat)
    requires Midway(s0, s, l, stay, kept, k)
    ensures MidwayOpen(s0, s, l, stay, kept, k)
  {
    hide MidwayOpen;
    assert Opened(0);
  }

  lemma MidwaySealed(s0: Store, s: Store, l: Ptr, stay: seq<Ptr>, kept: seq<Order>, k: nat)
    requires MidwayOpen(s0, s, l, stay, kept, k)
    ensures Midway(s0, s, l, stay, kept, k)
  {
    hide MidwayOpen;
  }

  lemma FillStepIs(s: Store, s2: Store, l: Ptr, k: nat, q: uint32)
    requires FillStep(s, s2, l, k, q)
    ensures FillStepOpen(s, s2, l, k, q)
  {
    hide FillStepOpen;
    assert Opened(0);
  }

  lemma MidwayStart(s: Store, l: Ptr)
    requires Inv(s) && l in s.levels
    ensures Midway(s, s, l, [], [], 0)
  {
    assert Opened(0);
    PosOfLevel(s, l, NULL);
    assert LevelOkAt(s, l, NULL);
    WholeSlice(Queue(s, l));
    WholeSlice(Slots(s, l));
    SetSame(Levels(Abs(s), SideOf(s, l)), Pos(s, l));
  }

  lemma WholeSlice<T>(s: seq<T>)
    ensures [] + s[0..] == s
  {
  }

  lemma SplitNext<T>(kept: seq<T>, s: seq<T>, k: nat)
    requires k < |s|
    ensures kept + s[k..] == kept + [s[k]] + s[k + 1..]
  {
  }

  lemma SetSame(levels: seq<Level>, i: nat)
    requires i < |levels| && levels[i].orders != []
    ensures SetLevel(levels, i, levels[i].orders) == levels
  {
  }

  lemma MidwayPos(s0: Store, s: Store, l: Ptr, stay: seq<Ptr>, kept: seq<Order>, k: nat)
    requires Midway(s0, s, l, stay, kept, k) && k <= |Slots(s0, l)| && kept + Queue(s0, l)[k..] != []
    ensures l in s0.levels && l in s.levels
    ensures Pos(s, l) == Pos(s0, l)
    ensures Queue(s, l) == kept + Queue(s0, l)[k..]
  {
    assert Opened(0);
    PosOfLevel(s0, l, NULL);
    PosOfEntry(s, SideOf(s0, l), Pos(s0, l), NULL);
  }

  /** The next order to visit is live, still holds what it held, and links to the one after it. */
  lemma MidwayNext(s0: Store, s: Store, l: Ptr, stay: seq<Ptr>, kept: seq<Order>, k: nat)
    requires Midway(s0, s, l, stay, kept, k) && k < |Slots(s0, l)|
    ensures Inv(s) && l in s.levels && SideOf(s, l) == SideOf(s0, l) && |kept| < |Slots(s, l)|
    ensures var p := Slots(s0, l)[k];
            && Slots(s, l)[|kept|] == p
            && p in s.orders
            && s.orders[p].order == Queue(s0, l)[k]
            && s.orders[p].next == At(Slots(s0, l), k + 1)
  {
    MidwayIs(s0, s, l, stay, kept, k);
    MidwayPos(s0, s, l, stay, kept, k);
    Unsealed(s);
    hide Inv, Midway, LevelsOk, PlacedOk, IndexOk, EntriesOk, CountsOk, HeaderOk, Pos, Abs;
    LevelFacts(s, l, NULL);
    assert LinkedAt(s.orders, Slots(s, l), |kept|);
    assert Queue(s, l)[|kept|] == Queue(s0, l)[k];
  }

  lemma MidwaySkip(s0: Store, s: Store, l: Ptr, stay: seq<Ptr>, kept: seq<Order>, k: nat)
    requires Midway(s0, s, l, stay, kept, k) && k < |Slots(s0, l)|
    ensures Midway(s0, s, l, stay + [Slots(s0, l)[k]], kept + [Queue(s0, l)[k]], k + 1)
  {
    assert Opened(0);
    SplitNext(kept, Queue(s0, l), k);
    SplitNext(stay, Slots(s0, l), k);
  }

  /** Filling the order next to be visited. */
  lemma MidwayFill(s0: Store, s: Store, s2: Store, l: Ptr, stay: seq<Ptr>, kept: seq<Order>, k: nat, q: uint32)
    requires Midway(s0, s, l, stay, kept, k) && k < |Slots(s0, l)| && FillStep(s, s2, l, |kept|, q)
    ensures q <= Queue(s0, l)[k].qty
    ensures var o := Queue(s0, l)[k];
            Midway(s0, s2, l, stay + (if o.qty == q then [] else [Slots(s0, l)[k]]), kept + AfterFill(o, q), k + 1)
  {
    MidwayIs(s0, s, l, stay, kept, k);
    FillStepIs(s, s2, l, |kept|, q);
    MidwayNext(s0, s, l, stay, kept, k);
    MidwayPos(s0, s, l, stay, kept, k);
    hide Inv, Abs, Pos, Midway, FillStep, Slots;
    var queue, slots, o := Queue(s0, l), Slots(s0, l), Queue(s0, l)[k];
    FillQueueAt(kept, queue, k, q);
    FillSlotsAt(stay, slots, k);
    SetTwice(Levels(Abs(s0), SideOf(s0, l)), Pos(s0, l), kept + queue[k..], kept + AfterFill(o, q) + queue[k + 1..]);
    MidwaySealed(s0, s2, l, stay + (if o.qty == q then [] else [slots[k]]), kept + AfterFill(o, q), k + 1);
  }

  lemma RemoveMiddle<T>(a: seq<T>, x: T, b: seq<T>)
    ensures RemoveAt(a + [x] + b, |a|) == a + b
  {
  }

  lemma UpdateMiddle<T>(a: seq<T>, x: T, b: seq<T>, y: T)
    ensures (a + [x] + b)[|a|] == x && (a + [x] + b)[|a| := y] == a + [y] + b
  {
  }

  lemma FillQueueAt(kept: seq<Order>, queue: seq<Order>, k: nat, q: uint32)
    requires k < |queue| && q <= queue[k].qty
    ensures (kept + queue[k..])[|kept|] == queue[k]
    ensures FillQueue(kept + queue[k..], |kept|, q) == kept + AfterFill(queue[k], q) + queue[k + 1..]
  {
    var o, rest := queue[k], queue[k + 1..];
    SplitNext(kept, queue, k);
    UpdateMiddle(kept, o, rest, o.(qty := o.qty - q));
    if o.qty == q {
      RemoveMiddle(kept, o, rest);
      assert kept + [] == kept;
    }
  }

  lemma FillSlotsAt(stay: seq<Ptr>, slots: seq<Ptr>, k: nat)
    requires k < |slots|
    ensures RemoveAt(stay + slots[k..], |stay|) == stay + [] + slots[k + 1..]
    ensures stay + slots[k..] == stay + [slots[k]] + slots[k + 1..]
  {
  }

  /** Cancelling the k-th order of l by its id removes exactly that one. */
  lemma CancelledIs(s: Store, l: Ptr, k: nat)
    requires Inv(s) && l in s.levels && k < |Slots(s, l)|
    ensures Cancelled(s, OrderAt(s.orders, Slots(s, l)[k]).orderId) == Removed(s, l, k)
    ensures OrderAt(s.orders, Slots(s, l)[k]).orderId in s.index
  {
    assert Opened(0);
    assert PlacedAt(s, l, k) && LevelOkAt(s, l, NULL);
    var id := OrderAt(s.orders, Slots(s, l)[k]).orderId;
    KnownPlace(s, id);
  }

  /** At the end of the queue, the order at position n of what was kept. */
  lemma MidwayKept(s0: Store, s: Store, l: Ptr, stay: seq<Ptr>, kept: seq<Order>, n: nat)
    requires Midway(s0, s, l, stay, kept, |Slots(s0, l)|) && n < |kept|
    ensures Inv(s) && l in s.levels && |stay| == |kept| && Slots(s, l) == stay && Queue(s, l) == kept
    ensures stay[n] in s.orders && s.orders[stay[n]].order == kept[n]
  {
    assert Opened(0);
    assert kept + Queue(s0, l)[|Slots(s0, l)|..] == kept;
    assert stay + Slots(s0, l)[|Slots(s0, l)|..] == stay;
    MidwayPos(s0, s, l, stay, kept, |Slots(s0, l)|);
    assert PlacedAt(s, l, n);
  }
}
