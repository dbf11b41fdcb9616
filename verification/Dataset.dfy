/** generate() of include/hydra/dataset_generator.hpp. Random draws are arbitrary in-range inputs; what a dataset must
    satisfy is said of the list of events alone. */
module Datasets {
  import opened Types

  datatype Kind = NEW_ORDER | CANCEL | AMEND

  /** AMEND is EventType::REPLACE; `target` is the field cancel_order_id. */
  datatype DatasetEvent = DatasetEvent(kind: Kind, order: Order, target: uint64, arrivalNs: uint64)

  datatype Config = Config(midPrice: int64, spread: nat, minQty: uint32, maxQty: uint32, clientIdCount: uint64)

  /** What the generator draws for one event, whether or not it uses all of it. */
  datatype Draw = Draw(gapNs: nat, cancel: bool, amend: bool, pick: nat, side: Side, offset: int, qty: uint32, tif: TimeInForce)

  /** The constructor's checks, and prices that int64 can hold. */
  predicate ConfigOk(c: Config) {
    && 0 < c.minQty <= c.maxQty && c.clientIdCount > 0
    && -0x8000_0000_0000_0000 <= c.midPrice - c.spread
    && c.midPrice + c.spread < 0x8000_0000_0000_0000
  }

  predicate DrawOk(c: Config, d: Draw) {
    0 <= d.offset + c.spread <= 2 * c.spread && c.minQty <= d.qty <= c.maxQty
  }

  // ---------- What a dataset is ----------

  predicate MayRest(e: DatasetEvent) {
    e.kind.NEW_ORDER? && e.order.tif.GTC?
  }

  /** Ids that may be resting after these events: new GTC orders not cancelled since. */
  function Live(events: seq<DatasetEvent>): set<uint64> {
    if events == [] then {}
    else
      var front, last := events[..|events| - 1], events[|events| - 1];
      if MayRest(last) then Live(front) + {last.order.orderId}
      else if last.kind.CANCEL? then Live(front) - {last.target}
      else Live(front)
  }

  /** Number of new orders among these events. */
  function NewOrders(events: seq<DatasetEvent>): (n: nat)
    ensures n <= |events|
  {
    if events == [] then 0
    else NewOrders(events[..|events| - 1]) + if events[|events| - 1].kind.NEW_ORDER? then 1 else 0
  }

  /** e may follow `before`: a new order takes the next id, a cancel or replace names a live one, and prices and quantities
      are those the configuration allows. */
  predicate MayFollow(c: Config, before: seq<DatasetEvent>, e: DatasetEvent) {
    && (e.kind.NEW_ORDER? ==> e.order.orderId == 1 + NewOrders(before))
    && (!e.kind.NEW_ORDER? ==> e.target in Live(before))
    && (!e.kind.CANCEL? ==> c.minQty <= e.order.qty <= c.maxQty)
    && (!e.kind.CANCEL? ==> c.midPrice - c.spread <= e.order.price <= c.midPrice + c.spread)
  }

  ghost predicate IsDataset(c: Config, events: seq<DatasetEvent>) {
    forall i {:trigger events[i]} :: 0 <= i < |events| ==> MayFollow(c, events[..i], events[i])
  }

  // ---------- From draws to events ----------

  /** The gaps between arrivals up to now, added up. */
  function Elapsed(draws: seq<Draw>): nat {
    if draws == [] then 0 else Elapsed(draws[..|draws| - 1]) + draws[|draws| - 1].gapNs
  }

  /** The event that a draw makes of what came before: a cancel if one is drawn and an id is live, else an amendment if one
      is drawn and an id is live, else a new order with the drawn price, quantity, side and time in force. */
  predicate FromDraw(c: Config, before: seq<DatasetEvent>, arrivalNs: uint64, d: Draw, e: DatasetEvent) {
    && e.arrivalNs == arrivalNs
    && if Live(before) != {} && d.cancel then
         e.kind.CANCEL? && e.order == NO_ORDER
       else if Live(before) != {} && d.amend then
         && e.kind.AMEND? && e.order.price == c.midPrice + d.offset && e.order.qty == d.qty
         && e.order == NO_ORDER.(price := e.order.price, qty := d.qty)
       else
         && e.kind.NEW_ORDER? && e.target == 0
         && e.order.orderId == 1 + NewOrders(before)
         && e.order.price == c.midPrice + d.offset
         && e.order.qty == d.qty
         && e.order.side == d.side
         && e.order.tif == d.tif
         && e.order.eventTag == NEW_OR_CANCEL
         && e.order.timestampNs == arrivalNs
         && (c.clientIdCount > 0 ==> e.order.clientId == 1 + e.order.orderId % c.clientIdCount)
         && e.order.clientTag == ""
  }

  /** Event i comes from draw i and arrives after the first i + 1 gaps, in uint64. */
  ghost predicate AllDrawn(c: Config, draws: seq<Draw>, events: seq<DatasetEvent>) {
    && |events| == |draws|
    && forall i {:trigger events[i]} :: 0 <= i < |events| ==>
         FromDraw(c, events[..i], Elapsed(draws[..i + 1]) % U64_LIMIT, draws[i], events[i])
  }

  lemma DrawnSnoc(c: Config, draws: seq<Draw>, events: seq<DatasetEvent>, d: Draw, e: DatasetEvent)
    requires AllDrawn(c, draws, events)
    requires FromDraw(c, events, (Elapsed(draws) + d.gapNs) % U64_LIMIT, d, e)
    ensures AllDrawn(c, draws + [d], events + [e])
  {
    hide FromDraw;
    var all, allDraws := events + [e], draws + [d];
    assert allDraws[..|draws|] == draws;
    forall i | 0 <= i < |all|
      ensures FromDraw(c, all[..i], Elapsed(allDraws[..i + 1]) % U64_LIMIT, allDraws[i], all[i])
    {
      assert all[..i] == events[..i];
      if i < |events| {
        assert all[i] == events[i] && allDraws[..i + 1] == draws[..i + 1];
      } else {
        assert allDraws[..i + 1] == allDraws && events[..i] == events;
      }
    }
  }

  // ---------- The generator ----------

  function Members(ids: seq<uint64>): set<uint64> {
    set id | id in ids
  }

  ghost predicate NoDuplicates(ids: seq<uint64>) {
    forall i, j :: 0 <= i < j < |ids| ==> ids[i] != ids[j]
  }

  lemma DatasetSnoc(c: Config, events: seq<DatasetEvent>, e: DatasetEvent)
    requires IsDataset(c, events) && MayFollow(c, events, e)
    ensures IsDataset(c, events + [e])
    ensures NewOrders(events + [e]) == NewOrders(events) + if e.kind.NEW_ORDER? then 1 else 0
    ensures Live(events + [e]) ==
            if MayRest(e) then Live(events) + {e.order.orderId}
            else if e.kind.CANCEL? then Live(events) - {e.target} else Live(events)
  {
    hide MayFollow;
    var all := events + [e];
    assert all[..|events|] == events;
    forall i | 0 <= i < |all|
      ensures MayFollow(c, all[..i], all[i])
    {
      if i < |events| {
        assert all[..i] == events[..i] && all[i] == events[i];
      }
    }
  }

  lemma {:induction false} LiveAreOld(c: Config, events: seq<DatasetEvent>)
    requires IsDataset(c, events)
    ensures forall id :: id in Live(events) ==> 1 <= id <= NewOrders(events)
  {
    if events != [] {
      var front, last := events[..|events| - 1], events[|events| - 1];
      FrontIsDataset(c, events, |events| - 1);
      LiveAreOld(c, front);
      assert MayFollow(c, front, last);
    }
  }

  lemma FrontIsDataset(c: Config, events: seq<DatasetEvent>, n: nat)
    requires IsDataset(c, events) && n <= |events|
    ensures IsDataset(c, events[..n])
  {
    hide MayFollow;
    forall i | 0 <= i < n
      ensures MayFollow(c, events[..n][..i], events[..n][i])
    {
      assert events[..n][..i] == events[..i] && events[..n][i] == events[i];
    }
  }

  class DatasetGenerator {
    const config: Config
    var nextOrderId: uint64
    var restingIds: seq<uint64>

    constructor (config: Config)
      ensures this.config == config && nextOrderId == 1 && restingIds == []
    {
      this.config := config;
      nextOrderId, restingIds := 1, [];
    }

    method AddResting(id: uint64)
      modifies `restingIds
      ensures restingIds == old(restingIds) + [id]
    {
      restingIds := restingIds + [id];
    }

    /** remove_resting: the last id takes the place of the one that goes. */
    method RemoveResting(idx: nat)
      requires idx < |restingIds| && NoDuplicates(restingIds)
      modifies `restingIds
      ensures |restingIds| == |old(restingIds)| - 1
      ensures forall i :: 0 <= i < |restingIds| ==>
                restingIds[i] == old(restingIds)[if i == idx then |old(restingIds)| - 1 else i]
      ensures NoDuplicates(restingIds) && Members(restingIds) == Members(old(restingIds)) - {old(restingIds)[idx]}
    {
      var last := |restingIds| - 1;
      if idx != last {
        restingIds := restingIds[idx := restingIds[last]];
      }
      restingIds := restingIds[..last];
      SwapRemoved(old(restingIds), idx, restingIds);
    }

    /** The generator's memory agrees with the events it has produced. */
    ghost predicate Agrees(events: seq<DatasetEvent>)
      reads this
    {
      && IsDataset(config, events)
      && nextOrderId == 1 + NewOrders(events)
      && NoDuplicates(restingIds) && Members(restingIds) == Live(events)
    }

    /** generate(), from a fresh generator, whatever is drawn: the events form a dataset, and each is what its draw says. */
    method Generate(draws: seq<Draw>) returns (events: seq<DatasetEvent>)
      requires ConfigOk(config) && nextOrderId == 1 && restingIds == []
      requires forall d :: d in draws ==> DrawOk(config, d)
      requires |draws| + 1 < U64_LIMIT
      modifies this
      ensures IsDataset(config, events) && AllDrawn(config, draws, events)
    {
      hide FromDraw, IsDataset, AllDrawn, Elapsed, Agrees;
      events := [];
      var arrivalNs: uint64 := 0;
      var i := 0;
      StartsEmpty();
      while i < |draws|
        invariant 0 <= i <= |draws|
        invariant Agrees(events) && AllDrawn(config, draws[..i], events) && nextOrderId <= i + 1
        invariant arrivalNs == Elapsed(draws[..i]) % U64_LIMIT
      {
        OneMoreGap(draws, i);
        arrivalNs := (arrivalNs + draws[i].gapNs) % U64_LIMIT;
        var e := GenerateOne(draws[i], arrivalNs, events);
        DrawnSnoc(config, draws[..i], events, draws[i], e);
        assert draws[..i + 1] == draws[..i] + [draws[i]];
        events := events + [e];
        i := i + 1;
      }
      assert draws[..i] == draws;
      AgreesIsDataset(events);
    }

    lemma StartsEmpty()
      requires nextOrderId == 1 && restingIds == []
      ensures Agrees([]) && AllDrawn(config, [], []) && Elapsed([]) == 0
    {
    }

    lemma AgreesIsDataset(events: seq<DatasetEvent>)
      requires Agrees(events)
      ensures IsDataset(config, events)
    {
    }

    /** One turn of generate(). With no resting id there is nothing to cancel or replace. */
    method GenerateOne(d: Draw, arrivalNs: uint64, ghost events: seq<DatasetEvent>) returns (e: DatasetEvent)
      requires ConfigOk(config) && DrawOk(config, d) && Agrees(events) && nextOrderId + 1 < U64_LIMIT
      modifies this
      ensures Agrees(events + [e]) && nextOrderId <= old(nextOrderId) + 1
      ensures FromDraw(config, events, arrivalNs, d, e)
      ensures !e.kind.NEW_ORDER? ==> old(restingIds) != [] && e.target == old(restingIds)[d.pick % |old(restingIds)|]
    {
      hide Live, NewOrders, IsDataset;
      LiveAreOld(config, events);
      SomeLive(restingIds);
      var price := config.midPrice + d.offset;
      if restingIds != [] && d.cancel {
        var idx := d.pick % |restingIds|;
        var id := restingIds[idx];
        RemoveResting(idx);
        e := DatasetEvent(CANCEL, NO_ORDER, id, arrivalNs);
      } else if restingIds != [] && d.amend {
        var id := restingIds[d.pick % |restingIds|];
        e := DatasetEvent(AMEND, NO_ORDER.(price := price, qty := d.qty), id, arrivalNs);
      } else {
        var o := Order(nextOrderId, price, d.qty, d.side, d.tif, NEW_OR_CANCEL, arrivalNs,
                       1 + nextOrderId % config.clientIdCount, "");
        nextOrderId := nextOrderId + 1;
        if d.tif.GTC? {
          AddResting(o.orderId);
        }
        e := DatasetEvent(NEW_ORDER, o, 0, arrivalNs);
      }
      DatasetSnoc(config, events, e);
    }
  }

  lemma SomeLive(ids: seq<uint64>)
    ensures Members(ids) == {} <==> ids == []
  {
    if ids != [] {
      assert ids[0] in Members(ids);
    }
  }

  lemma OneMoreGap(draws: seq<Draw>, i: nat)
    requires i < |draws|
    ensures Elapsed(draws[..i + 1]) == Elapsed(draws[..i]) + draws[i].gapNs
    ensures (Elapsed(draws[..i]) % U64_LIMIT + draws[i].gapNs) % U64_LIMIT == Elapsed(draws[..i + 1]) % U64_LIMIT
  {
    assert draws[..i + 1][..i] == draws[..i];
    AddMod(Elapsed(draws[..i]), draws[i].gapNs);
  }

  lemma AddMod(a: nat, b: nat)
    ensures (a % U64_LIMIT + b) % U64_LIMIT == (a + b) % U64_LIMIT
  {
  }

  lemma SwapRemoved(before: seq<uint64>, idx: nat, after: seq<uint64>)
    requires idx < |before| && NoDuplicates(before)
    requires after == before[idx := before[|before| - 1]][..|before| - 1]
    ensures NoDuplicates(after) && Members(after) == Members(before) - {before[idx]}
  {
    forall id
      ensures id in after <==> id in before && id != before[idx]
    {
      if id in before && id != before[idx] {
        var i :| 0 <= i < |before| && before[i] == id;
        assert after[if i == |before| - 1 then idx else i] == id;
      }
    }
  }

  // ---------- Main results ----------

  lemma {:induction false} ElapsedGrows(draws: seq<Draw>, i: nat, j: nat)
    requires i <= j <= |draws|
    ensures Elapsed(draws[..i]) <= Elapsed(draws[..j])
  {
    if i < j {
      ElapsedGrows(draws, i, j - 1);
      OneMoreGap(draws, j - 1);
    }
  }

  lemma ArrivesAt(c: Config, draws: seq<Draw>, events: seq<DatasetEvent>, i: nat)
    requires AllDrawn(c, draws, events) && i < |events|
    ensures events[i].arrivalNs == Elapsed(draws[..i + 1]) % U64_LIMIT
  {
    hide Elapsed;
    assert FromDraw(c, events[..i], Elapsed(draws[..i + 1]) % U64_LIMIT, draws[i], events[i]);
  }

  /** While the gaps add up to less than 2^64, events arrive in order, each after exactly the gaps drawn so far. */
  lemma ArrivalsRise(c: Config, draws: seq<Draw>, events: seq<DatasetEvent>, i: nat, j: nat)
    requires AllDrawn(c, draws, events) && Elapsed(draws) < U64_LIMIT && i <= j < |events|
    ensures events[i].arrivalNs == Elapsed(draws[..i + 1]) <= Elapsed(draws[..j + 1]) == events[j].arrivalNs
  {
    ArrivesAt(c, draws, events, i);
    ArrivesAt(c, draws, events, j);
    ElapsedGrows(draws, i + 1, j + 1);
    ElapsedGrows(draws, j + 1, |draws|);
    hide Elapsed, FromDraw, AllDrawn;
    assert draws[..|draws|] == draws;
    SmallMod(Elapsed(draws[..i + 1]));
    SmallMod(Elapsed(draws[..j + 1]));
  }

  lemma SmallMod(v: nat)
    requires v < U64_LIMIT
    ensures v % U64_LIMIT == v
  {
  }

  /** The generator leaves client tags empty. */
  lemma NoTags(c: Config, draws: seq<Draw>, events: seq<DatasetEvent>)
    requires AllDrawn(c, draws, events)
    ensures forall e :: e in events ==> e.order.clientTag == ""
  {
    hide Live, NewOrders, Elapsed;
    forall i | 0 <= i < |events|
      ensures events[i].order.clientTag == ""
    {
      assert FromDraw(c, events[..i], Elapsed(draws[..i + 1]) % U64_LIMIT, draws[i], events[i]);
    }
  }

  lemma {:induction false} NewOrdersGrow(events: seq<DatasetEvent>, i: nat, j: nat)
    requires i < j <= |events|
    ensures NewOrders(events[..i]) + (if events[i].kind.NEW_ORDER? then 1 else 0) <= NewOrders(events[..j])
  {
    assert events[..j][..j - 1] == events[..j - 1];
    if i < j - 1 {
      NewOrdersGrow(events, i, j - 1);
    }
  }

  /** Ids are distinct and increasing. */
  lemma IdsIncrease(c: Config, events: seq<DatasetEvent>, i: nat, j: nat)
    requires IsDataset(c, events) && i < j < |events| && events[i].kind.NEW_ORDER? && events[j].kind.NEW_ORDER?
    ensures events[i].order.orderId < events[j].order.orderId
  {
    assert MayFollow(c, events[..i], events[i]) && MayFollow(c, events[..j], events[j]);
    NewOrdersGrow(events, i, j);
  }

  lemma {:induction false} LiveCameFrom(events: seq<DatasetEvent>, n: nat, id: uint64)
    requires n <= |events| && id in Live(events[..n])
    ensures exists j {:trigger events[j]} :: 0 <= j < n && MayRest(events[j]) && events[j].order.orderId == id
  {
    assert n > 0 && events[..n][..n - 1] == events[..n - 1];
    if !(MayRest(events[n - 1]) && events[n - 1].order.orderId == id) {
      LiveCameFrom(events, n - 1, id);
    }
  }

  lemma EventFollows(c: Config, events: seq<DatasetEvent>, i: nat)
    requires IsDataset(c, events) && i < |events|
    ensures MayFollow(c, events[..i], events[i])
  {
  }

  /** A cancel names an id below every id that a later new order takes. */
  lemma CancelledIsOld(c: Config, events: seq<DatasetEvent>, k: nat, n: nat)
    requires IsDataset(c, events) && k < n < |events| && events[k].kind.CANCEL?
    ensures events[n].kind.NEW_ORDER? ==> events[k].target < events[n].order.orderId
  {
    hide Live, NewOrders, IsDataset;
    FrontIsDataset(c, events, k);
    LiveAreOld(c, events[..k]);
    NewOrdersGrow(events, k, n);
    EventFollows(c, events, k);
    EventFollows(c, events, n);
  }

  /** A cancelled id is never live again, because new orders only take higher ids. */
  lemma {:induction false} CancelledStaysGone(c: Config, events: seq<DatasetEvent>, k: nat, n: nat)
    requires IsDataset(c, events) && k < n <= |events| && events[k].kind.CANCEL?
    ensures events[k].target !in Live(events[..n])
  {
    hide MayFollow, IsDataset;
    assert events[..n][..n - 1] == events[..n - 1];
    if k < n - 1 {
      CancelledStaysGone(c, events, k, n - 1);
      CancelledIsOld(c, events, k, n - 1);
    }
  }

  /** Every cancel and every replace names an earlier GTC order that no earlier cancel named. */
  lemma TargetsAreLive(c: Config, events: seq<DatasetEvent>, i: nat)
    requires IsDataset(c, events) && i < |events| && !events[i].kind.NEW_ORDER?
    ensures exists j {:trigger events[j]} :: 0 <= j < i && MayRest(events[j]) && events[j].order.orderId == events[i].target
    ensures forall k {:trigger events[k]} :: 0 <= k < i && events[k].kind.CANCEL? ==> events[k].target != events[i].target
  {
    assert MayFollow(c, events[..i], events[i]);
    LiveCameFrom(events, i, events[i].target);
    forall k | 0 <= k < i && events[k].kind.CANCEL?
      ensures events[k].target != events[i].target
    {
      CancelledStaysGone(c, events, k, i);
    }
  }
}
