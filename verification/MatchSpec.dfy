/** What include/hydra/matcher.hpp computes, as functions of the abstract book: both sweeps, the fill-or-kill dry
    runs, match and replace, and the dispatch of src/pipeline.cpp. The Matcher class is proved to compute exactly
    these; what they mean is said in PriceTime, ProRataMatch, Liquidity, ModesAgree, Settlement, Amendments, Remainder,
    Runs and, in full, Outcomes. */
module MatchSpec {
  import opened Types
  import opened Book
  import opened Allocation

  datatype MatchingMode = PRICE_TIME | PRO_RATA

  /** What a sweep leaves at one level, and what it did there. */
  datatype LevelOutcome = LevelOutcome(
    orders: seq<Order>,
    fills: seq<FillEvent>,
    remaining: uint32,
    examined: nat,
    eligible: nat)

  /** The same for a whole side, with the number of levels entered. */
  datatype SideOutcome = SideOutcome(
    levels: seq<Level>,
    fills: seq<FillEvent>,
    remaining: uint32,
    entered: nat,
    examined: nat,
    eligible: nat)

  datatype MatchOutcome = MatchOutcome(book: Book, fills: seq<FillEvent>, stats: MatchStats)

  /** The counters of a sweep: every order examined was either eligible or skipped as a self-trade. */
  function Stats(r: SideOutcome): MatchStats {
    var skips := if r.eligible <= r.examined then r.examined - r.eligible else 0;
    MatchStats(|r.fills|, r.entered, r.examined, r.eligible, skips, r.remaining)
  }

  function Fill(maker: Order, taker: Order, qty: uint32): FillEvent {
    FillEvent(maker.orderId, taker.orderId, maker.price, taker.timestampNs, qty)
  }

  /** A maker after a fill: gone when nothing is left of it. */
  function AfterFill(maker: Order, qty: uint32): seq<Order>
    requires qty <= maker.qty
  {
    if maker.qty == qty then [] else [maker.(qty := maker.qty - qty)]
  }

  // ---------- Price-time ----------

  function TakeLevel(orders: seq<Order>, inc: Order, rem: uint32): (r: LevelOutcome)
    ensures r.remaining <= rem && r.eligible <= r.examined
  {
    if orders == [] || rem == 0 then LevelOutcome(orders, [], rem, 0, 0)
    else if IsSelfTrade(orders[0], inc) then
      var rest := TakeLevel(orders[1..], inc, rem);
      rest.(orders := [orders[0]] + rest.orders, examined := rest.examined + 1)
    else
      var q := Min(rem, orders[0].qty);
      var rest := TakeLevel(orders[1..], inc, rem - q);
      LevelOutcome(
        AfterFill(orders[0], q) + rest.orders,
        [Fill(orders[0], inc, q)] + rest.fills,
        rest.remaining,
        rest.examined + 1,
        rest.eligible + 1)
  }

  // ---------- Pro-rata ----------

  /** What each order of a level may trade with `inc`. */
  function Caps(orders: seq<Order>, inc: Order): (caps: seq<nat>)
    ensures |caps| == |orders|
    ensures forall k :: 0 <= k < |orders| ==> caps[k] == (if IsSelfTrade(orders[k], inc) then 0 else orders[k].qty)
  {
    seq(|orders|, k requires 0 <= k < |orders| => if IsSelfTrade(orders[k], inc) then 0 else orders[k].qty)
  }

  function EligibleTotal(orders: seq<Order>, inc: Order): nat {
    SumNonNegative(Caps(orders, inc));
    Sum(Caps(orders, inc))
  }

  /** How many of the first n orders may trade. */
  function CountEligible(orders: seq<Order>, inc: Order, n: nat): (c: nat)
    requires n <= |orders|
    ensures c <= n
  {
    if n == 0 then 0
    else CountEligible(orders, inc, n - 1) + if IsSelfTrade(orders[n - 1], inc) then 0 else 1
  }

  /** Index of the first largest eligible order among the first n, or -1 when there is none. */
  function Largest(orders: seq<Order>, inc: Order, n: nat): (m: int)
    requires n <= |orders|
    ensures -1 <= m < n
    ensures m >= 0 ==> !IsSelfTrade(orders[m], inc)
    ensures forall i :: 0 <= i < n && !IsSelfTrade(orders[i], inc) ==> m >= 0 && orders[i].qty <= orders[m].qty
    ensures forall i :: 0 <= i < m && !IsSelfTrade(orders[i], inc) ==> orders[i].qty < orders[m].qty
  {
    if n == 0 then -1
    else
      var m := Largest(orders, inc, n - 1);
      if !IsSelfTrade(orders[n - 1], inc) && (m < 0 || orders[n - 1].qty > orders[m].qty) then n - 1 else m
  }

  /** An eligible total above zero means there is a largest eligible order. */
  lemma LargestExists(orders: seq<Order>, inc: Order)
    requires EligibleTotal(orders, inc) > 0
    ensures Largest(orders, inc, |orders|) >= 0
    ensures IsLargest(Caps(orders, inc), Largest(orders, inc, |orders|))
  {
    if Largest(orders, inc, |orders|) < 0 {
      SumMonotone(Caps(orders, inc), seq(|orders|, _ => 0));
      SumOfZeros(|orders|);
    }
  }

  /** The shares the source computes for a level that trades L. */
  function LevelShares(orders: seq<Order>, inc: Order, L: nat): (shares: seq<int>)
    requires EligibleTotal(orders, inc) > 0 && L <= EligibleTotal(orders, inc)
    ensures Tradable(orders, shares)
  {
    LargestExists(orders, inc);
    var m := Largest(orders, inc, |orders|);
    SharesAreAllocation(Caps(orders, inc), m, L);
    Shares(Caps(orders, inc), m, L)
  }

  /** Shares that can be traded: none negative, none above the order's quantity. */
  ghost predicate Tradable(orders: seq<Order>, shares: seq<int>) {
    && |shares| == |orders|
    && forall k :: 0 <= k < |orders| ==> 0 <= shares[k] <= orders[k].qty
  }

  /** Only a positive share is a fill. */
  function ShareFill(o: Order, inc: Order, share: int): seq<FillEvent>
    requires 0 <= share <= o.qty
  {
    if share > 0 then [Fill(o, inc, share)] else []
  }

  function AfterShare(o: Order, share: int): seq<Order>
    requires 0 <= share <= o.qty
  {
    if share > 0 then AfterFill(o, share) else [o]
  }

  function ShareFills(orders: seq<Order>, inc: Order, shares: seq<int>): seq<FillEvent>
    requires Tradable(orders, shares)
  {
    if orders == [] then []
    else ShareFill(orders[0], inc, shares[0]) + ShareFills(orders[1..], inc, shares[1..])
  }

  function ApplyShares(orders: seq<Order>, shares: seq<int>): seq<Order>
    requires Tradable(orders, shares)
  {
    if orders == [] then []
    else AfterShare(orders[0], shares[0]) + ApplyShares(orders[1..], shares[1..])
  }

  /** Fills go out in FIFO order, the largest order's fill last. */
  function ProRataLevel(orders: seq<Order>, inc: Order, rem: uint32): (r: LevelOutcome)
    ensures r.remaining <= rem && r.eligible <= r.examined
  {
    var E := EligibleTotal(orders, inc);
    if E == 0 then LevelOutcome(orders, [], rem, |orders|, CountEligible(orders, inc, |orders|))
    else
      LargestExists(orders, inc);
      var L := Min(rem, E);
      var m := Largest(orders, inc, |orders|);
      var shares := LevelShares(orders, inc, L);
      LevelOutcome(
        ApplyShares(orders, shares),
        ShareFills(orders, inc, shares[m := 0]) + ShareFill(orders[m], inc, shares[m]),
        rem - L,
        |orders|,
        CountEligible(orders, inc, |orders|))
  }

  // ---------- Sweeps ----------

  function AtLevel(mode: MatchingMode, orders: seq<Order>, inc: Order, rem: uint32): (r: LevelOutcome)
    ensures r.remaining <= rem && r.eligible <= r.examined
  {
    if mode.PRICE_TIME? then TakeLevel(orders, inc, rem) else ProRataLevel(orders, inc, rem)
  }

  /** sweep_price_time<false> and pro_rata_sweep<false>. */
  function Sweep(mode: MatchingMode, levels: seq<Level>, inc: Order, rem: uint32): (r: SideOutcome)
    ensures r.remaining <= rem && r.eligible <= r.examined
  {
    if levels == [] || rem == 0 || !Crosses(levels[0].price, inc) then SideOutcome(levels, [], rem, 0, 0, 0)
    else
      var here := AtLevel(mode, levels[0].orders, inc, rem);
      var rest := Sweep(mode, levels[1..], inc, here.remaining);
      SideOutcome(
        Keep(levels[0].price, here.orders) + rest.levels,
        here.fills + rest.fills,
        rest.remaining,
        rest.entered + 1,
        here.examined + rest.examined,
        here.eligible + rest.eligible)
  }

  function DryTake(orders: seq<Order>, inc: Order, rem: uint32): (r: uint32)
    ensures r <= rem
  {
    if orders == [] || rem == 0 then rem
    else if IsSelfTrade(orders[0], inc) then DryTake(orders[1..], inc, rem)
    else DryTake(orders[1..], inc, rem - Min(rem, orders[0].qty))
  }

  function DryLevel(mode: MatchingMode, orders: seq<Order>, inc: Order, rem: uint32): (r: uint32)
    ensures r <= rem
  {
    if mode.PRICE_TIME? then DryTake(orders, inc, rem) else rem - Min(rem, EligibleTotal(orders, inc))
  }

  /** What the <true> instances of the sweeps leave of `rem`, without touching the book. */
  function DrySweep(mode: MatchingMode, levels: seq<Level>, inc: Order, rem: uint32): (r: uint32)
    ensures r <= rem
  {
    if levels == [] || rem == 0 || !Crosses(levels[0].price, inc) then rem
    else DrySweep(mode, levels[1..], inc, DryLevel(mode, levels[0].orders, inc, rem))
  }

  // ---------- match, replace, dispatch ----------

  function Rejected(b: Book, inc: Order): MatchOutcome {
    MatchOutcome(b, [], NO_STATS.(remainingQty := inc.qty))
  }

  /** The opposite best still crosses what is left of the incoming order. */
  predicate WouldRestCrossed(opposite: seq<Level>, inc: Order) {
    opposite != [] && Crosses(opposite[0].price, inc)
  }

  /** The sweep and the resting of a GTC remainder: match() past its two rejections. */
  function Execute(mode: MatchingMode, b: Book, inc: Order): MatchOutcome {
    var swept := Sweep(mode, Levels(b, Other(inc.side)), inc, inc.qty);
    var b1 := WithLevels(b, Other(inc.side), swept.levels);
    var b2 :=
      if inc.tif.GTC? && swept.remaining > 0 && !WouldRestCrossed(swept.levels, inc)
      then Add(b1, inc.(qty := swept.remaining))
      else b1;
    MatchOutcome(b2, swept.fills, Stats(swept))
  }

  /** Matcher::match. */
  function Match(mode: MatchingMode, b: Book, inc: Order): MatchOutcome {
    if Find(b, inc.orderId).Some? then Rejected(b, inc)
    else if inc.tif.FOK? && inc.qty - DrySweep(mode, Levels(b, Other(inc.side)), inc, inc.qty) < inc.qty
    then Rejected(b, inc)
    else Execute(mode, b, inc)
  }

  /** match() turns an order away as a duplicate, or as a FOK order that the dry run cannot fill. */
  predicate Accepts(mode: MatchingMode, b: Book, inc: Order) {
    Find(b, inc.orderId).None? && (inc.tif.FOK? ==> DrySweep(mode, Levels(b, Other(inc.side)), inc, inc.qty) == 0)
  }

  /** The order that replace() submits after cancelling `existing`. */
  function Resubmitted(existing: Order, price: int64, qty: uint32): Order {
    existing.(price := price, qty := qty, eventTag := NEW_OR_CANCEL)
  }

  /** Matcher::replace. */
  function Replace(mode: MatchingMode, b: Book, id: uint64, price: int64, qty: uint32): MatchOutcome {
    var found := Find(b, id);
    if found.None? then MatchOutcome(b, [], NO_STATS)
    else if qty == 0 then MatchOutcome(Cancel(b, id), [], NO_STATS)
    else if price == found.value.price && qty <= found.value.qty then MatchOutcome(SetQty(b, id, qty), [], NO_STATS)
    else Match(mode, Cancel(b, id), Resubmitted(found.value, price, qty))
  }

  /** What matching_thread_fn does with one popped order. */
  function Dispatch(mode: MatchingMode, b: Book, o: Order): MatchOutcome {
    if o.eventTag.NEW_OR_CANCEL? && o.qty == 0 then MatchOutcome(Cancel(b, o.orderId), [], NO_STATS)
    else if o.eventTag.REPLACE? then Replace(mode, b, o.orderId, o.price, o.qty)
    else Match(mode, b, o)
  }

  /** One popped order, with the matching mode in force when it is dispatched. */
  datatype Event = Event(mode: MatchingMode, order: Order)

  /** The book after a whole stream of events. */
  function Run(b: Book, events: seq<Event>): Book {
    if events == [] then b
    else
      var last := events[|events| - 1];
      Dispatch(last.mode, Run(b, events[..|events| - 1]), last.order).book
  }
}
