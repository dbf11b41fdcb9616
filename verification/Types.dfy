/** Value types of include/hydra/types.hpp: the orders, fills and counters that travel through the engine.
    Machine integers are subset types of `int`, so that every narrowing, sum or difference stored in one of
    them carries the obligation that it does not wrap. */
module Types {
  const U32_LIMIT := 0x1_0000_0000
  const U64_LIMIT := 0x1_0000_0000_0000_0000

  type uint8 = x: int | 0 <= x < 0x100
  type uint16 = x: int | 0 <= x < 0x1_0000
  type uint32 = x: int | 0 <= x < 0x1_0000_0000
  type uint64 = x: int | 0 <= x < 0x1_0000_0000_0000_0000
  type int64 = x: int | -0x8000_0000_0000_0000 <= x < 0x8000_0000_0000_0000

  datatype Option<+T> = None | Some(value: T)

  datatype Side = BUY | SELL

  datatype TimeInForce = GTC | IOC | FOK

  datatype OrderEventTag = NEW_OR_CANCEL | REPLACE

  /** The intrusive prev_/next_ links of the source's Order live in OrderNode (LinkedFifo.dfy). */
  datatype Order = Order(
    orderId: uint64,
    price: int64,
    qty: uint32,
    side: Side,
    tif: TimeInForce,
    eventTag: OrderEventTag,
    timestampNs: uint64,
    clientId: uint64,
    clientTag: string)

  /** `Order order{}`. */
  const NO_ORDER := Order(0, 0, 0, BUY, GTC, NEW_OR_CANCEL, 0, 0, "")

  datatype FillEvent = FillEvent(
    makerOrderId: uint64,
    takerOrderId: uint64,
    price: int64,
    timestampNs: uint64,
    qty: uint32)

  /** The counters are unbounded here; Remainder.StatsFitTheirCounters shows that they fit the source's uint32. */
  datatype MatchStats = MatchStats(
    fillsGenerated: nat,
    levelsConsumed: nat,
    restingExamined: nat,
    eligibleExamined: nat,
    selfTradeSkips: nat,
    remainingQty: uint32)

  const NO_STATS := MatchStats(0, 0, 0, 0, 0, 0)

  /** include/hydra/config.hpp:75-76. */
  const ORDER_POOL_SIZE: nat := 65536
  const LEVEL_POOL_SIZE: nat := 4096

  /** Always true. A definition of the form `forall u {:trigger Opened(u)} :: Opened(u) ==> body` means just `body`, but
      the verifier looks inside it only where a proof says `assert Opened(0);`. */
  predicate Opened(u: int) {
    true
  }

  function Min(a: int, b: int): int {
    if a <= b then a else b
  }

  function RemoveAt<T>(s: seq<T>, k: nat): (r: seq<T>)
    requires k < |s|
    ensures |r| == |s| - 1
    ensures forall i :: 0 <= i < k ==> r[i] == s[i]
    ensures forall i :: k <= i < |r| ==> r[i] == s[i + 1]
  {
    seq(|s| - 1, i requires 0 <= i < |s| - 1 => if i < k then s[i] else s[i + 1])
  }

  function InsertAt<T>(s: seq<T>, k: nat, x: T): (r: seq<T>)
    requires k <= |s|
    ensures |r| == |s| + 1
    ensures r[k] == x
    ensures forall i :: 0 <= i < k ==> r[i] == s[i]
    ensures forall i :: k < i < |r| ==> r[i] == s[i - 1]
  {
    seq(|s| + 1, i requires 0 <= i < |s| + 1 => if i < k then s[i] else if i == k then x else s[i - 1])
  }

  lemma Regroup<T>(a: seq<T>, b: seq<T>, c: seq<T>)
    ensures a + (b + c) == a + b + c
  {
  }
}
