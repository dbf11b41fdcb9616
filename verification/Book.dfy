/** The abstract order book: per side, the price levels in priority order, and per level the orders in FIFO order.
    It says what the linked slabs, price maps and id index of include/hydra/order_book.hpp stand for. */
module Book {
  import opened Types

  datatype Level = Level(price: int64, orders: seq<Order>)

  datatype Book = Book(bids: seq<Level>, asks: seq<Level>)

  const EMPTY_BOOK := Book([], [])

  function Other(side: Side): Side {
    if side.BUY? then SELL else BUY
  }

  function Levels(b: Book, side: Side): seq<Level> {
    if side.BUY? then b.bids else b.asks
  }

  function WithLevels(b: Book, side: Side, levels: seq<Level>): Book {
    if side.BUY? then b.(bids := levels) else b.(asks := levels)
  }

  /** The order of the price maps: std::greater for bids, std::less for asks. */
  predicate Better(side: Side, p: int, q: int) {
    if side.BUY? then p > q else p < q
  }

  /** A level resting on the other side crosses the incoming limit. */
  predicate Crosses(price: int64, incoming: Order) {
    if incoming.side.BUY? then price <= incoming.price else price >= incoming.price
  }

  predicate IsSelfTrade(resting: Order, incoming: Order) {
    resting.clientId == incoming.clientId
  }

  // ---------- Totals ----------

  function TotalQty(orders: seq<Order>): nat {
    if orders == [] then 0 else orders[0].qty + TotalQty(orders[1..])
  }

  function SideQty(levels: seq<Level>): nat {
    if levels == [] then 0 else TotalQty(levels[0].orders) + SideQty(levels[1..])
  }

  function CountOrders(levels: seq<Level>): nat {
    if levels == [] then 0 else |levels[0].orders| + CountOrders(levels[1..])
  }

  function OrderCount(b: Book): nat {
    CountOrders(b.bids) + CountOrders(b.asks)
  }

  function LevelCount(b: Book): nat {
    |b.bids| + |b.asks|
  }

  // ---------- Ids ----------

  /** How often an id occurs. */
  function CountId(orders: seq<Order>, id: uint64): nat {
    if orders == [] then 0 else (if orders[0].orderId == id then 1 else 0) + CountId(orders[1..], id)
  }

  function CountIdOnSide(levels: seq<Level>, id: uint64): nat {
    if levels == [] then 0 else CountId(levels[0].orders, id) + CountIdOnSide(levels[1..], id)
  }

  function CountIdInBook(b: Book, id: uint64): nat {
    CountIdOnSide(b.bids, id) + CountIdOnSide(b.asks, id)
  }

  function FindOrder(orders: seq<Order>, id: uint64): Option<Order> {
    if orders == [] then None
    else if orders[0].orderId == id then Some(orders[0])
    else FindOrder(orders[1..], id)
  }

  function FindLevels(levels: seq<Level>, id: uint64): Option<Order> {
    if levels == [] then None
    else
      var found := FindOrder(levels[0].orders, id);
      if found.Some? then found else FindLevels(levels[1..], id)
  }

  /** OrderBook::find_order. */
  function Find(b: Book, id: uint64): Option<Order> {
    var found := FindLevels(b.bids, id);
    if found.Some? then found else FindLevels(b.asks, id)
  }

  // ---------- Price lookup ----------

  function Prices(levels: seq<Level>): (prices: seq<int64>)
    ensures |prices| == |levels|
    ensures forall i :: 0 <= i < |levels| ==> prices[i] == levels[i].price
  {
    seq(|levels|, i requires 0 <= i < |levels| => levels[i].price)
  }

  /** Where a price map holds `price`, or would insert it: past the prices that come before it. */
  function LowerBound(side: Side, prices: seq<int64>, price: int64): (i: nat)
    ensures i <= |prices|
    ensures forall j :: 0 <= j < i ==> Better(side, prices[j], price)
    ensures i < |prices| ==> !Better(side, prices[i], price)
  {
    SkipBetter(side, prices, price, 0)
  }

  function SkipBetter(side: Side, prices: seq<int64>, price: int64, from: nat): (i: nat)
    requires from <= |prices|
    ensures from <= i <= |prices|
    ensures forall j :: from <= j < i ==> Better(side, prices[j], price)
    ensures i < |prices| ==> !Better(side, prices[i], price)
    decreases |prices| - from
  {
    if from == |prices| || !Better(side, prices[from], price) then from
    else SkipBetter(side, prices, price, from + 1)
  }

  ghost predicate SortedPrices(side: Side, prices: seq<int64>) {
    forall i, j :: 0 <= i < j < |prices| ==> Better(side, prices[i], prices[j])
  }

  // ---------- Updates ----------

  /** Stores `orders` at level i; a level never stays empty. */
  function SetLevel(levels: seq<Level>, i: nat, orders: seq<Order>): seq<Level>
    requires i < |levels|
  {
    if orders == [] then RemoveAt(levels, i)
    else levels[i := Level(levels[i].price, orders)]
  }

  function InsertOrder(side: Side, levels: seq<Level>, o: Order): seq<Level> {
    var i := LowerBound(side, Prices(levels), o.price);
    if i < |levels| && levels[i].price == o.price
    then levels[i := Level(o.price, levels[i].orders + [o])]
    else InsertAt(levels, i, Level(o.price, [o]))
  }

  predicate HasLevel(side: Side, levels: seq<Level>, price: int64) {
    var i := LowerBound(side, Prices(levels), price);
    i < |levels| && levels[i].price == price
  }

  /** OrderBook::add_order succeeds: the id is new and both pools can serve it. */
  predicate CanAdd(b: Book, o: Order) {
    && Find(b, o.orderId).None?
    && OrderCount(b) < ORDER_POOL_SIZE
    && (HasLevel(o.side, Levels(b, o.side), o.price) || LevelCount(b) < LEVEL_POOL_SIZE)
  }

  /** OrderBook::add_order. */
  function Add(b: Book, o: Order): Book {
    if CanAdd(b, o) then WithLevels(b, o.side, InsertOrder(o.side, Levels(b, o.side), o)) else b
  }

  function Without(orders: seq<Order>, id: uint64): seq<Order> {
    if orders == [] then []
    else (if orders[0].orderId == id then [] else [orders[0]]) + Without(orders[1..], id)
  }

  function Keep(price: int64, orders: seq<Order>): seq<Level> {
    if orders == [] then [] else [Level(price, orders)]
  }

  function CancelLevels(levels: seq<Level>, id: uint64): seq<Level> {
    if levels == [] then []
    else Keep(levels[0].price, Without(levels[0].orders, id)) + CancelLevels(levels[1..], id)
  }

  /** OrderBook::cancel_order: every other order stays where it was; emptied levels go. */
  function Cancel(b: Book, id: uint64): Book {
    Book(CancelLevels(b.bids, id), CancelLevels(b.asks, id))
  }

  function Requantify(orders: seq<Order>, id: uint64, qty: uint32): seq<Order> {
    if orders == [] then []
    else [if orders[0].orderId == id then orders[0].(qty := qty) else orders[0]] + Requantify(orders[1..], id, qty)
  }

  function RequantifyLevels(levels: seq<Level>, id: uint64, qty: uint32): seq<Level> {
    if levels == [] then []
    else [Level(levels[0].price, Requantify(levels[0].orders, id, qty))] + RequantifyLevels(levels[1..], id, qty)
  }

  /** OrderBook::replace_order_in_place. */
  function SetQty(b: Book, id: uint64, qty: uint32): Book {
    Book(RequantifyLevels(b.bids, id, qty), RequantifyLevels(b.asks, id, qty))
  }

  // ---------- Well-formed books ----------

  ghost predicate LevelOk(side: Side, level: Level) {
    && level.orders != []
    && forall k :: 0 <= k < |level.orders| ==> level.orders[k].price == level.price && level.orders[k].side == side
  }

  /** Levels in strict priority order, none empty, every order filed under its own price and side. */
  ghost predicate SideOk(side: Side, levels: seq<Level>) {
    && SortedPrices(side, Prices(levels))
    && forall i :: 0 <= i < |levels| ==> LevelOk(side, levels[i])
  }

  ghost predicate BookOk(b: Book) {
    && SideOk(BUY, b.bids)
    && SideOk(SELL, b.asks)
    && (forall id :: CountIdInBook(b, id) <= 1)
  }
}
