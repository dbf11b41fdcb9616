/** How totals, counts and ids of the abstract book react to one change. */
module BookLemmas {
  import opened Types
  import opened Book
  import opened LinkedFifo

  lemma {:induction false} TotalConcat(a: seq<Order>, b: seq<Order>)
    ensures TotalQty(a + b) == TotalQty(a) + TotalQty(b)
  {
    if a == [] {
      assert a + b == b;
    } else {
      assert (a + b)[1..] == a[1..] + b;
      TotalConcat(a[1..], b);
    }
  }

  lemma {:induction false} TotalUpdate(a: seq<Order>, k: nat, o: Order)
    requires k < |a|
    ensures TotalQty(a[k := o]) == TotalQty(a) - a[k].qty + o.qty
  {
    if k == 0 {
      assert a[k := o][1..] == a[1..];
    } else {
      assert a[k := o][1..] == a[1..][k - 1 := o];
      TotalUpdate(a[1..], k - 1, o);
    }
  }

  lemma {:induction false} TotalRemove(a: seq<Order>, k: nat)
    requires k < |a|
    ensures TotalQty(RemoveAt(a, k)) == TotalQty(a) - a[k].qty
  {
    if k == 0 {
      assert RemoveAt(a, k) == a[1..];
    } else {
      assert RemoveAt(a, k)[1..] == RemoveAt(a[1..], k - 1);
      TotalRemove(a[1..], k - 1);
    }
  }

  /** A level's total never exceeds its order count times the largest uint32. */
  lemma {:induction false} TotalBound(a: seq<Order>)
    ensures TotalQty(a) <= |a| * 0xFFFF_FFFF
  {
    if a != [] {
      TotalBound(a[1..]);
    }
  }

  lemma {:induction false} MemberQty(a: seq<Order>, k: nat)
    requires k < |a|
    ensures a[k].qty <= TotalQty(a)
  {
    if k > 0 {
      MemberQty(a[1..], k - 1);
    }
  }

  lemma {:induction false} CountUpdate(levels: seq<Level>, i: nat, level: Level)
    requires i < |levels|
    ensures CountOrders(levels[i := level]) == CountOrders(levels) - |levels[i].orders| + |level.orders|
  {
    if i == 0 {
      assert levels[i := level][1..] == levels[1..];
    } else {
      assert levels[i := level][1..] == levels[1..][i - 1 := level];
      CountUpdate(levels[1..], i - 1, level);
    }
  }

  lemma {:induction false} CountMember(levels: seq<Level>, i: nat)
    requires i < |levels|
    ensures |levels[i].orders| <= CountOrders(levels)
  {
    if i > 0 {
      CountMember(levels[1..], i - 1);
    }
  }

  /** An empty level counts for nothing, wherever it is put in or taken out. */
  lemma {:induction false} CountEmptyLevel(levels: seq<Level>, i: nat, price: int64)
    requires i <= |levels|
    ensures CountOrders(InsertAt(levels, i, Level(price, []))) == CountOrders(levels)
  {
    var after := InsertAt(levels, i, Level(price, []));
    if i == 0 {
      assert after[1..] == levels;
    } else {
      assert after[1..] == InsertAt(levels[1..], i - 1, Level(price, []));
      CountEmptyLevel(levels[1..], i - 1, price);
    }
  }

  lemma {:induction false} CountRemoveEmpty(levels: seq<Level>, i: nat)
    requires i < |levels| && levels[i].orders == []
    ensures CountOrders(RemoveAt(levels, i)) == CountOrders(levels)
  {
    if i == 0 {
      assert RemoveAt(levels, i) == levels[1..];
    } else {
      assert RemoveAt(levels, i)[1..] == RemoveAt(levels[1..], i - 1);
      CountRemoveEmpty(levels[1..], i - 1);
    }
  }

  // ---------- Ids that are not there ----------

  ghost predicate NoId(orders: seq<Order>, id: uint64) {
    forall j :: 0 <= j < |orders| ==> orders[j].orderId != id
  }

  ghost predicate Nowhere(levels: seq<Level>, id: uint64) {
    forall n :: 0 <= n < |levels| ==> NoId(levels[n].orders, id)
  }

  lemma {:induction false} WithoutNone(orders: seq<Order>, id: uint64)
    requires NoId(orders, id)
    ensures Without(orders, id) == orders
    ensures FindOrder(orders, id).None?
    ensures forall q :: Requantify(orders, id, q) == orders
  {
    if orders != [] {
      WithoutNone(orders[1..], id);
    }
  }

  lemma {:induction false} CancelNowhere(levels: seq<Level>, id: uint64)
    requires Nowhere(levels, id) && forall n :: 0 <= n < |levels| ==> levels[n].orders != []
    ensures CancelLevels(levels, id) == levels
    ensures FindLevels(levels, id).None?
    ensures forall q :: RequantifyLevels(levels, id, q) == levels
  {
    if levels != [] {
      WithoutNone(levels[0].orders, id);
      CancelNowhere(levels[1..], id);
    }
  }

  // ---------- Prices ----------

  lemma InsertSortedAt(side: Side, before: seq<int64>, at: nat, price: int64, a: nat, b: nat)
    requires SortedPrices(side, before) && at <= |before| && a < b <= |before|
    requires forall i :: 0 <= i < at ==> Better(side, before[i], price)
    requires at < |before| ==> Better(side, price, before[at])
    ensures Better(side, InsertAt(before, at, price)[a], InsertAt(before, at, price)[b])
  {
    var x := InsertAt(before, at, price)[a];
    if b < at {
      assert x == before[a];
    } else if b == at {
      assert x == before[a];
    } else if a == at {
      assert before[b - 1] == before[at] || Better(side, before[at], before[b - 1]);
    } else {
      assert x == before[if a < at then a else a - 1];
    }
  }

  /** A new price in its place keeps a price map sorted. */
  lemma InsertSorted(side: Side, before: seq<int64>, at: nat, price: int64)
    requires SortedPrices(side, before) && at <= |before|
    requires forall i :: 0 <= i < at ==> Better(side, before[i], price)
    requires at < |before| ==> Better(side, price, before[at])
    ensures SortedPrices(side, InsertAt(before, at, price))
  {
    var after := InsertAt(before, at, price);
    forall a, b | 0 <= a < b < |after|
      ensures Better(side, after[a], after[b])
    {
      InsertSortedAt(side, before, at, price, a, b);
    }
  }
}
