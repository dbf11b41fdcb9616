/** The outcomes of Outcomes.dfy leave nothing open: for each event there is exactly one outcome that fits, and it is the
    one the engine computes. */
module Determined {
  import opened Types
  import opened Book
  import opened Allocation
  import opened MatchSpec
  import opened Sides
  import opened Liquidity
  import opened PriceTime
  import opened ModesAgree
  import opened Runs
  import opened Remainder
  import opened Amendments
  import opened ProRataMatch
  import opened Counters
  import opened Outcomes

  // ---------- Fills of a pro-rata match ----------

  ghost predicate TurnsRise(n: nat, m: nat, places: seq<nat>) {
    && (forall j :: 0 <= j < |places| ==> places[j] < n)
    && (forall i, j :: 0 <= i < j < |places| ==> Turn(n, m, places[i]) < Turn(n, m, places[j]))
  }

  /** In turn, a set of places can be listed in one way only. */
  lemma {:induction false} SamePlaces(n: nat, m: nat, p: seq<nat>, q: seq<nat>)
    requires TurnsRise(n, m, p) && TurnsRise(n, m, q) && forall k :: k in p <==> k in q
    ensures p == q
  {
    BothEmpty(p, q);
    if p != [] {
      assert p[0] in q;
      var i :| 0 <= i < |q| && q[i] == p[0];
      assert q[0] in p;
      var j :| 0 <= j < |p| && p[j] == q[0];
      assert p[0] == q[0];
      SameBehind(n, m, p, q);
      SamePlaces(n, m, p[1..], q[1..]);
      assert p == [p[0]] + p[1..] && q == [q[0]] + q[1..];
    }
  }

  lemma BothEmpty(p: seq<nat>, q: seq<nat>)
    requires forall k :: k in p <==> k in q
    ensures p == [] <==> q == []
  {
    if p != [] {
      assert p[0] in q;
    }
    if q != [] {
      assert q[0] in p;
    }
  }

  lemma SameBehind(n: nat, m: nat, p: seq<nat>, q: seq<nat>)
    requires TurnsRise(n, m, p) && TurnsRise(n, m, q) && forall k :: k in p <==> k in q
    requires p != [] && q != [] && p[0] == q[0]
    ensures TurnsRise(n, m, p[1..]) && TurnsRise(n, m, q[1..])
    ensures forall k :: k in p[1..] <==> k in q[1..]
  {
    assert p == [p[0]] + p[1..] && q == [q[0]] + q[1..];
    assert p[0] !in p[1..] && q[0] !in q[1..];
    forall k
      ensures k in p[1..] <==> k in q[1..]
    {
      assert k in p <==> k == p[0] || k in p[1..];
      assert k in q <==> k == q[0] || k in q[1..];
    }
  }

  lemma InTurnIsOne(a: seq<int>, m: nat, p: seq<nat>, q: seq<nat>)
    requires InTurn(a, m, p) && InTurn(a, m, q)
    ensures p == q
  {
    forall k
      ensures k in p <==> k in q
    {
      assert k in p ==> k < |a| && a[k] > 0;
      assert k in q ==> k < |a| && a[k] > 0;
    }
    SamePlaces(|a|, m, p, q);
  }

  lemma PaidIsOne(orders: seq<Order>, inc: Order, a: seq<int>, places: seq<nat>, f: seq<FillEvent>, g: seq<FillEvent>)
    requires PaidAt(orders, inc, a, places, f) && PaidAt(orders, inc, a, places, g)
    ensures f == g
  {
  }

  lemma LevelSplitIsOne(orders: seq<Order>, inc: Order, rem: int, f: seq<FillEvent>, g: seq<FillEvent>)
    requires LevelSplit(orders, inc, rem, f) && LevelSplit(orders, inc, rem, g)
    ensures f == g
  {
    hide EligibleTotal, IsFavoured, InTurn, PaidAt, IsAllocation;
    if EligibleTotal(orders, inc) > 0 {
      var m: nat, a, p :| SplitsLevel(orders, inc, rem, m, a) && InTurn(a, m, p) && PaidAt(orders, inc, a, p, f);
      var m2: nat, a2, q :| SplitsLevel(orders, inc, rem, m2, a2) && InTurn(a2, m2, q) && PaidAt(orders, inc, a2, q, g);
      FavouredIsOne(orders, inc, m, m2);
      SplitIsOne(orders, inc, rem, m, a, a2);
      InTurnIsOne(a, m, p, q);
      PaidIsOne(orders, inc, a, p, f, g);
    }
  }

  lemma SplitIsOne(orders: seq<Order>, inc: Order, rem: int, m: nat, a: seq<int>, a2: seq<int>)
    requires SplitsLevel(orders, inc, rem, m, a) && SplitsLevel(orders, inc, rem, m, a2)
    ensures a == a2
  {
    hide IsAllocation;
    AllocationIsUnique(Caps(orders, inc), m, Min(rem, EligibleTotal(orders, inc)), a, a2);
  }

  lemma ProRataIsOne(levels: seq<Level>, inc: Order, rem: nat, n: nat,
                     p: seq<seq<FillEvent>>, q: seq<seq<FillEvent>>, f: seq<FillEvent>, g: seq<FillEvent>)
    requires IsProRata(levels, inc, rem, n, p, f) && IsProRata(levels, inc, rem, n, q, g)
    ensures f == g
  {
    hide LevelSplit, Left;
    forall i | 0 <= i < n
      ensures p[i] == q[i]
    {
      LevelSplitIsOne(levels[i].orders, inc, Left(levels, inc, rem, i), p[i], q[i]);
    }
    assert p == q;
  }

  // ---------- Counters ----------

  lemma EntersIsOne(levels: seq<Level>, inc: Order, rem: uint32, n: nat, n2: nat)
    requires Enters(levels, inc, rem, n) && Enters(levels, inc, rem, n2)
    ensures n == n2
  {
    hide InReach, Crossing;
  }

  lemma ReachedIsOne(queue: seq<Order>, inc: Order, rem: nat, n: nat, n2: nat)
    requires ReachedUnfilled(queue, inc, rem, n) && ReachedUnfilled(queue, inc, rem, n2)
    ensures n == n2
  {
    hide EligibleTotal;
  }

  lemma FillsAreOne(mode: MatchingMode, opposite: seq<Level>, inc: Order, n: nat, f: seq<FillEvent>, g: seq<FillEvent>)
    requires FilledBy(mode, opposite, inc, n, f) && FilledBy(mode, opposite, inc, n, g)
    ensures f == g
  {
    hide IsGreedy, IsProRata, Candidates, Flat;
    match mode
    case PRICE_TIME => GreedyIsUnique(Candidates(Flat(opposite), inc), inc, inc.qty, f, g);
    case PRO_RATA =>
      var p :| IsProRata(opposite, inc, inc.qty, n, p, f);
      var q :| IsProRata(opposite, inc, inc.qty, n, q, g);
      ProRataIsOne(opposite, inc, inc.qty, n, p, q, f, g);
  }

  lemma StatsAreOne(mode: MatchingMode, opposite: seq<Level>, inc: Order, r: MatchOutcome, r2: MatchOutcome)
    requires Counted(mode, opposite, inc, r) && Counted(mode, opposite, inc, r2) && r.fills == r2.fills
    ensures r.stats == r2.stats
  {
    hide Enters, ReachedUnfilled, Flat, Crossing, OwnOrders, CountOrders, Tradeables;
    EntersIsOne(opposite, inc, inc.qty, r.stats.levelsConsumed, r2.stats.levelsConsumed);
    if mode.PRICE_TIME? {
      ReachedIsOne(Flat(Crossing(opposite, inc)), inc, inc.qty, r.stats.restingExamined, r2.stats.restingExamined);
    }
  }

  // ---------- The book ----------

  /** There is one place to stand last in. */
  lemma LastIsOne(side: Side, before: seq<Order>, o: Order, after: seq<Order>, after2: seq<Order>)
    requires StandsLast(side, before, o, after) && StandsLast(side, before, o, after2)
    ensures after == after2
  {
  }

  lemma BookIsOne(b: Book, inc: Order, r: MatchOutcome, r2: MatchOutcome)
    requires r.fills == r2.fills && BookOk(r.book) && BookOk(r2.book)
    requires OwnSide(b, inc, r.book) && OwnSide(b, inc, r2.book)
    requires var queue := Flat(Levels(b, Other(inc.side)));
             && Flat(Levels(r.book, Other(inc.side))) == Reduced(queue, r.fills)
             && Flat(Levels(r2.book, Other(inc.side))) == Reduced(queue, r2.fills)
    ensures r.book == r2.book
  {
    hide Flat, Reduced, SideOk, Find, LeavesARest, StandsLast, Tradeables;
    var opposite := Other(inc.side);
    QueueDeterminesSide(opposite, Levels(r.book, opposite), Levels(r2.book, opposite));
    if LeavesARest(b, inc) {
      var rest := inc.(qty := inc.qty - Tradeables(Levels(b, Other(inc.side)), inc));
      LastIsOne(inc.side, Flat(Levels(b, inc.side)), rest, Flat(Levels(r.book, inc.side)), Flat(Levels(r2.book, inc.side)));
      QueueDeterminesSide(inc.side, Levels(r.book, inc.side), Levels(r2.book, inc.side));
    }
  }

  lemma ExecutedIsOne(mode: MatchingMode, b: Book, inc: Order, r: MatchOutcome, r2: MatchOutcome)
    requires Executed(mode, b, inc, r) && Executed(mode, b, inc, r2)
    ensures r == r2
  {
    var opposite := Levels(b, Other(inc.side));
    assert Enters(opposite, inc, inc.qty, r.stats.levelsConsumed) && Enters(opposite, inc, inc.qty, r2.stats.levelsConsumed);
    hide Enters, FilledBy, Counted, OwnSide, BookOk, Flat, Reduced;
    EntersIsOne(opposite, inc, inc.qty, r.stats.levelsConsumed, r2.stats.levelsConsumed);
    FillsAreOne(mode, opposite, inc, r.stats.levelsConsumed, r.fills, r2.fills);
    StatsAreOne(mode, opposite, inc, r, r2);
    BookIsOne(b, inc, r, r2);
  }

  lemma SameSideIsOne(before: seq<Level>, a: seq<Level>, b: seq<Level>, id: uint64, qty: uint32)
    requires SameSide(before, a, id, qty) && SameSide(before, b, id, qty)
    ensures a == b
  {
    assert |a| == |Prices(a)| == |before| == |Prices(b)| == |b|;
    forall i | 0 <= i < |a|
      ensures a[i] == b[i]
    {
      assert SameQueue(before[i].orders, a[i].orders, id, qty) && SameQueue(before[i].orders, b[i].orders, id, qty);
      assert a[i].price == Prices(a)[i] && b[i].price == Prices(b)[i];
      assert a[i].orders == b[i].orders;
    }
  }

  lemma QuietIsOne(r: MatchOutcome, r2: MatchOutcome)
    requires Quiet(r) && Quiet(r2) && r.book == r2.book
    ensures r == r2
  {
  }

  lemma AmendedIsOne(mode: MatchingMode, b: Book, id: uint64, price: int64, qty: uint32, r: MatchOutcome, r2: MatchOutcome)
    requires BookOk(b) && Amended(mode, b, id, price, qty, r) && Amended(mode, b, id, price, qty, r2)
    ensures r == r2
  {
    hide BookOk, Removed, Executed, SameSide, Find, Quiet;
    var found := Find(b, id);
    if found.None? {
      QuietIsOne(r, r2);
    } else if qty == 0 {
      RemovedIsOne(b, id, r.book, r2.book);
      QuietIsOne(r, r2);
    } else if price == found.value.price && qty <= found.value.qty {
      SameSideIsOne(b.bids, r.book.bids, r2.book.bids, id, qty);
      SameSideIsOne(b.asks, r.book.asks, r2.book.asks, id, qty);
      QuietIsOne(r, r2);
    } else {
      var order := found.value.(price := price, qty := qty);
      var c :| Removed(b, id, c) && Executed(mode, c, order, r);
      var c2 :| Removed(b, id, c2) && Executed(mode, c2, order, r2);
      RemovedIsOne(b, id, c, c2);
      ExecutedIsOne(mode, c, order, r, r2);
    }
  }

  // ---------- Main result ----------

  /** In every reachable book an event has one outcome that fits its description, down to the last fill, counter and
      place in a queue, and that is the outcome of the dispatch. */
  lemma DispatchIsDetermined(mode: MatchingMode, b: Book, o: Order, r: MatchOutcome)
    requires Sound(b)
    ensures Dispatched(mode, b, o, r) <==> r == Dispatch(mode, b, o)
  {
    hide Sound, Amended, Executed, TurnedAway, Quiet, Removed, Find, Dispatch, Tradeables, BookOk;
    var d := Dispatch(mode, b, o);
    DispatchMeans(mode, b, o);
    SoundOk(b);
    if Dispatched(mode, b, o, r) {
      if o.eventTag.REPLACE? {
        AmendedIsOne(mode, b, o.orderId, o.price, o.qty, r, d);
      } else if o.qty == 0 {
        if Find(b, o.orderId).Some? {
          RemovedIsOne(b, o.orderId, r.book, d.book);
        }
        QuietIsOne(r, d);
      } else if TurnedAway(b, o, r) && TurnedAway(b, o, d) {
        TurnedAwayIsOne(b, o, r, d);
      } else {
        ExecutedIsOne(mode, b, o, r, d);
      }
    }
  }

  lemma TurnedAwayIsOne(b: Book, inc: Order, r: MatchOutcome, r2: MatchOutcome)
    requires TurnedAway(b, inc, r) && TurnedAway(b, inc, r2)
    ensures r == r2
  {
  }
}
