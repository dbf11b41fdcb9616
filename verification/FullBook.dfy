/** A run that fills the level pool, after which a remainder that nothing stands in the way of does not rest. */
module FullBooks {
  import opened Types
  import opened Book
  import opened MatchSpec
  import opened Sides
  import opened Upkeep
  import opened MatchingLoops

  /** The k-th of a series of sellers, each at a price of its own. */
  function Seller(k: nat): Order
    requires k <= LEVEL_POOL_SIZE
  {
    Order(k + 1, k + 1, 1, SELL, GTC, NEW_OR_CANCEL, 0, 1, "")
  }

  function Rungs(n: nat): (levels: seq<Level>)
    requires n <= LEVEL_POOL_SIZE
    ensures |levels| == n
    ensures forall k :: 0 <= k < n ==> levels[k] == Level(k + 1, [Seller(k)])
  {
    seq(n, k requires 0 <= k < n => Level(k + 1, [Seller(k)]))
  }

  function Sellers(mode: MatchingMode, n: nat): (events: seq<Event>)
    requires n <= LEVEL_POOL_SIZE + 1
    ensures |events| == n
    ensures forall k :: 0 <= k < n ==> events[k] == Event(mode, Seller(k))
  {
    seq(n, k requires 0 <= k < n => Event(mode, Seller(k)))
  }

  lemma RungsCount(n: nat)
    requires n <= LEVEL_POOL_SIZE
    ensures CountOrders(Rungs(n)) == n
  {
    FlatTotals(Rungs(n));
    RungsFlat(n);
  }

  lemma {:induction false} RungsFlat(n: nat)
    requires n <= LEVEL_POOL_SIZE
    ensures |Flat(Rungs(n))| == n
    ensures forall k :: 0 <= k < n ==> Flat(Rungs(n))[k] == Seller(k)
  {
    if n > 0 {
      RungsFlat(n - 1);
      var last := [Level(n, [Seller(n - 1)])];
      assert Rungs(n) == Rungs(n - 1) + last;
      FlatConcat(Rungs(n - 1), last);
      assert last[1..] == [];
    }
  }

  /** The next seller is unknown. */
  lemma SellerIsNew(n: nat)
    requires n <= LEVEL_POOL_SIZE
    ensures Find(Book([], Rungs(n)), Seller(n).orderId).None?
  {
    hide FindOrder, Flat;
    RungsFlat(n);
    FlatFind(Rungs(n), Seller(n).orderId);
    FindOrderMeans(Flat(Rungs(n)), Seller(n).orderId);
    assert FindLevels([], Seller(n).orderId).None?;
  }

  lemma SellerGoesLast(n: nat)
    requires n <= LEVEL_POOL_SIZE
    ensures LowerBound(SELL, Prices(Rungs(n)), Seller(n).price) == n
    ensures !HasLevel(SELL, Rungs(n), Seller(n).price)
    ensures n < LEVEL_POOL_SIZE ==> InsertOrder(SELL, Rungs(n), Seller(n)) == Rungs(n + 1)
  {
  }

  lemma SellerIsAdded(n: nat)
    requires n <= LEVEL_POOL_SIZE
    ensures Add(Book([], Rungs(n)), Seller(n)) == Book([], if n < LEVEL_POOL_SIZE then Rungs(n + 1) else Rungs(n))
  {
    hide InsertOrder, HasLevel, Find, LowerBound, CountOrders, Rungs;
    SellerIsNew(n);
    SellerGoesLast(n);
    RungsCount(n);
    assert CountOrders([]) == 0 by { NothingCounts(); }
  }

  lemma NothingCounts()
    ensures CountOrders([]) == 0
  {
  }

  lemma NothingToTrade(mode: MatchingMode, b: Book, o: Order)
    requires b.bids == [] && o.side.SELL? && o.tif.GTC? && o.eventTag.NEW_OR_CANCEL? && o.qty > 0
    requires Find(b, o.orderId).None?
    ensures var r := MatchSpec.Dispatch(mode, b, o);
            r.book == Add(b, o) && r.fills == [] && r.stats.remainingQty == o.qty
  {
    hide Find, Add;
  }

  /** With no buyer in the book a seller trades nothing, and rests while the level pool has room. */
  lemma SellerRests(mode: MatchingMode, n: nat)
    requires n <= LEVEL_POOL_SIZE
    ensures var r := MatchSpec.Dispatch(mode, Book([], Rungs(n)), Seller(n));
            && r.fills == [] && r.stats.remainingQty == 1
            && r.book == Book([], if n < LEVEL_POOL_SIZE then Rungs(n + 1) else Rungs(n))
  {
    hide Add, Find, Rungs, MatchSpec.Dispatch;
    SellerIsNew(n);
    SellerIsAdded(n);
    NothingToTrade(mode, Book([], Rungs(n)), Seller(n));
  }

  lemma {:induction false} SellersRest(mode: MatchingMode, n: nat)
    requires n <= LEVEL_POOL_SIZE
    ensures Run(EMPTY_BOOK, Sellers(mode, n)) == Book([], Rungs(n))
  {
    hide MatchSpec.Dispatch;
    if n > 0 {
      SellersRest(mode, n - 1);
      SellerRests(mode, n - 1);
      assert Sellers(mode, n) == Sellers(mode, n - 1) + [Event(mode, Seller(n - 1))];
      RunSnoc(EMPTY_BOOK, Sellers(mode, n - 1), Event(mode, Seller(n - 1)));
    }
  }

  /** "The remainder rests" fails: after a run that has rested LEVEL_POOL_SIZE orders at as many prices, one more GTC
      order at a new price finds nothing to trade and nothing in its way; match() reports its whole quantity as
      remaining, and the order is nowhere. */
  lemma RemainderIsLost(mode: MatchingMode)
    ensures var b := Run(EMPTY_BOOK, Sellers(mode, LEVEL_POOL_SIZE));
            var o := Seller(LEVEL_POOL_SIZE);
            var r := MatchSpec.Dispatch(mode, b, o);
            && o.tif.GTC? && b.bids == []
            && r.stats.remainingQty == o.qty > 0
            && r.book == b && Find(r.book, o.orderId).None?
  {
    hide MatchSpec.Dispatch, Run, Find;
    SellersRest(mode, LEVEL_POOL_SIZE);
    SellerRests(mode, LEVEL_POOL_SIZE);
    SellerIsNew(LEVEL_POOL_SIZE);
  }
}
