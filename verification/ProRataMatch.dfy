/** A whole pro-rata match, told from the fills it reports: who gets how much, and in which order the fills go out. The
    policy at one level is Allocation.IsAllocation; nothing here is said in terms of how the shares are computed. */
module ProRataMatch {
  import opened Types
  import opened Book
  import opened Allocation
  import opened MatchSpec
  import opened Sides
  import opened Conservation
  import opened Liquidity
  import opened Remainder
  import opened Settlement
  import opened ProRata

  /** The favoured order of a level: the first of the largest that `inc` may trade with. */
  ghost predicate IsFavoured(orders: seq<Order>, inc: Order, m: nat) {
    && m < |orders| && !IsSelfTrade(orders[m], inc)
    && (forall i :: 0 <= i < |orders| && !IsSelfTrade(orders[i], inc) ==> orders[i].qty <= orders[m].qty)
    && (forall i :: 0 <= i < m && !IsSelfTrade(orders[i], inc) ==> orders[i].qty < orders[m].qty)
  }

  /** `a` gives out, to the orders of a level, what an order wanting `rem` trades there, as the policy says. */
  ghost predicate SplitsLevel(orders: seq<Order>, inc: Order, rem: int, m: nat, a: seq<int>) {
    && rem >= 0 && EligibleTotal(orders, inc) > 0 && IsFavoured(orders, inc, m) && |a| == |orders|
    && IsAllocation(Caps(orders, inc), m, Min(rem, EligibleTotal(orders, inc)), a)
  }

  /** Whose turn comes when: first in, first out, but the favoured order after all others. */
  function Turn(n: nat, m: nat, k: nat): nat {
    if k == m then n else k
  }

  /** The places of the orders that get something, in turn. */
  ghost predicate InTurn(a: seq<int>, m: nat, places: seq<nat>) {
    && (forall j :: 0 <= j < |places| ==> places[j] < |a| && a[places[j]] > 0)
    && (forall i, j :: 0 <= i < j < |places| ==> Turn(|a|, m, places[i]) < Turn(|a|, m, places[j]))
    && (forall k: nat :: k < |a| && a[k] > 0 ==> k in places)
  }

  /** The j-th fill is with the order at the j-th place, for its share. */
  ghost predicate PaidAt(orders: seq<Order>, inc: Order, a: seq<int>, places: seq<nat>, fills: seq<FillEvent>) {
    && |fills| == |places| && |a| == |orders|
    && forall j :: 0 <= j < |places| ==>
         places[j] < |orders| && fills[j].qty == a[places[j]] && fills[j] == Fill(orders[places[j]], inc, fills[j].qty)
  }

  /** The fills of one level entered with `rem` to trade. */
  ghost predicate LevelSplit(orders: seq<Order>, inc: Order, rem: int, fills: seq<FillEvent>) {
    if EligibleTotal(orders, inc) == 0 then fills == []
    else exists m: nat, a, places :: SplitsLevel(orders, inc, rem, m, a) && InTurn(a, m, places) && PaidAt(orders, inc, a, places, fills)
  }

  /** What the levels before the i-th cannot give. */
  function Left(levels: seq<Level>, inc: Order, rem: nat, i: nat): int
    requires i <= |levels|
  {
    rem - InReach(levels[..i], inc)
  }

  function Joined(parts: seq<seq<FillEvent>>): seq<FillEvent> {
    if parts == [] then [] else parts[0] + Joined(parts[1..])
  }

  /** The fills, cut into one part for each of the first n levels, best price first; each level splits what the levels
      before it could not give. */
  ghost predicate IsProRata(levels: seq<Level>, inc: Order, rem: nat, n: nat, parts: seq<seq<FillEvent>>, fills: seq<FillEvent>) {
    && fills == Joined(parts) && |parts| == n <= |levels|
    && (forall i :: 0 <= i < n ==> LevelSplit(levels[i].orders, inc, Left(levels, inc, rem, i), parts[i]))
  }

  /** The selection of one id. */
  function Only(id: uint64): uint64 -> bool {
    x => x == id
  }

  /** What the fills took from the order with this id. */
  function Received(fills: seq<FillEvent>, id: uint64): nat {
    FilledOf(fills, Only(id))
  }

  // ---------- One level ----------

  /** The places with a positive share, first in, first out. */
  function PlacesFrom(shares: seq<int>, from: nat): (places: seq<nat>)
    requires from <= |shares|
    ensures forall j :: 0 <= j < |places| ==> from <= places[j] < |shares| && shares[places[j]] > 0
    ensures forall i, j :: 0 <= i < j < |places| ==> places[i] < places[j]
    ensures forall k: nat :: from <= k < |shares| && shares[k] > 0 ==> k in places
    decreases |shares| - from
  {
    if from == |shares| then []
    else (if shares[from] > 0 then [from] else []) + PlacesFrom(shares, from + 1)
  }

  lemma PaidAtCons(orders: seq<Order>, inc: Order, shares: seq<int>, p: nat, places: seq<nat>, fills: seq<FillEvent>)
    requires Tradable(orders, shares) && p < |orders| && PaidAt(orders, inc, shares, places, fills)
    ensures PaidAt(orders, inc, shares, (if shares[p] > 0 then [p] else []) + places, ShareFill(orders[p], inc, shares[p]) + fills)
  {
  }

  lemma TradableTail(orders: seq<Order>, shares: seq<int>, from: nat)
    requires Tradable(orders, shares) && from <= |orders|
    ensures Tradable(orders[from..], shares[from..])
  {
  }

  lemma {:induction false} FillsAtPlaces(orders: seq<Order>, inc: Order, shares: seq<int>, from: nat)
    requires Tradable(orders, shares) && from <= |orders| && Tradable(orders[from..], shares[from..])
    ensures PaidAt(orders, inc, shares, PlacesFrom(shares, from), ShareFills(orders[from..], inc, shares[from..]))
    decreases |orders| - from
  {
    hide PaidAt, ShareFill;
    if from < |orders| {
      TradableTail(orders, shares, from + 1);
      FillsAtPlaces(orders, inc, shares, from + 1);
      assert orders[from..][1..] == orders[from + 1..] && shares[from..][1..] == shares[from + 1..];
      PaidAtCons(orders, inc, shares, from, PlacesFrom(shares, from + 1), ShareFills(orders[from + 1..], inc, shares[from + 1..]));
    } else {
      PaidNothing(orders, inc, shares);
    }
  }

  lemma PaidNothing(orders: seq<Order>, inc: Order, shares: seq<int>)
    requires Tradable(orders, shares)
    ensures PaidAt(orders, inc, shares, [], [])
  {
  }

  /** The place of the favoured order, behind those of the others. */
  function LastPlace(shares: seq<int>, m: nat): seq<nat>
    requires m < |shares|
  {
    if shares[m] > 0 then [m] else []
  }

  lemma OthersPlaces(shares: seq<int>, m: nat, j: nat)
    requires m < |shares| && j < |PlacesFrom(shares[m := 0], 0)|
    ensures var p := PlacesFrom(shares[m := 0], 0)[j]; p < |shares| && p != m && shares[p] > 0
  {
    hide PlacesFrom;
    assert shares[m := 0][PlacesFrom(shares[m := 0], 0)[j]] > 0;
  }

  lemma EveryPlace(shares: seq<int>, m: nat, k: nat)
    requires m < |shares| && k < |shares| && shares[k] > 0
    ensures k in PlacesFrom(shares[m := 0], 0) + LastPlace(shares, m)
  {
    hide PlacesFrom;
    if k != m {
      assert shares[m := 0][k] > 0;
    }
  }

  /** The favoured order's place, moved to the end. */
  lemma FavouredLast(shares: seq<int>, m: nat)
    requires m < |shares|
    ensures InTurn(shares, m, PlacesFrom(shares[m := 0], 0) + LastPlace(shares, m))
  {
    hide PlacesFrom;
    var places := PlacesFrom(shares[m := 0], 0);
    assert forall i, j :: 0 <= i < j < |places| ==> places[i] < places[j];
    forall j | 0 <= j < |places|
      ensures places[j] < |shares| && places[j] != m && shares[places[j]] > 0
    {
      OthersPlaces(shares, m, j);
    }
    forall k: nat | k < |shares| && shares[k] > 0
      ensures k in places + LastPlace(shares, m)
    {
      EveryPlace(shares, m, k);
    }
  }

  /** And its fill. */
  lemma FavouredPaid(orders: seq<Order>, inc: Order, shares: seq<int>, m: nat)
    requires Tradable(orders, shares) && m < |orders| && Tradable(orders, shares[m := 0])
    ensures PaidAt(orders, inc, shares, PlacesFrom(shares[m := 0], 0) + LastPlace(shares, m),
                   ShareFills(orders, inc, shares[m := 0]) + ShareFill(orders[m], inc, shares[m]))
  {
    hide ShareFills, PlacesFrom;
    var others, places := shares[m := 0], PlacesFrom(shares[m := 0], 0);
    assert orders[0..] == orders && others[0..] == others;
    FillsAtPlaces(orders, inc, others, 0);
    assert forall j :: 0 <= j < |places| ==> others[places[j]] > 0 && places[j] != m;
  }

  lemma LargestIsFavoured(orders: seq<Order>, inc: Order)
    requires EligibleTotal(orders, inc) > 0
    ensures Largest(orders, inc, |orders|) >= 0 && IsFavoured(orders, inc, Largest(orders, inc, |orders|))
  {
    hide EligibleTotal;
    LargestExists(orders, inc);
  }

  lemma LevelIsSplit(orders: seq<Order>, inc: Order, rem: uint32)
    ensures LevelSplit(orders, inc, rem, ProRataLevel(orders, inc, rem).fills)
  {
    hide InTurn, PaidAt, IsFavoured, Largest, LevelShares, ShareFills, ShareFill, IsAllocation, EligibleTotal, CountEligible, PlacesFrom, ApplyShares;
    if EligibleTotal(orders, inc) > 0 {
      LargestIsFavoured(orders, inc);
      SharesAreExact(orders, inc, rem);
      var m, shares := Largest(orders, inc, |orders|), LevelShares(orders, inc, Min(rem, EligibleTotal(orders, inc)));
      FavouredLast(shares, m);
      FavouredPaid(orders, inc, shares, m);
      assert SplitsLevel(orders, inc, rem, m, shares);
    }
  }

  // ---------- A whole side ----------

  lemma {:induction false} SweepParts(levels: seq<Level>, inc: Order, rem: uint32) returns (parts: seq<seq<FillEvent>>)
    ensures var r := Sweep(PRO_RATA, levels, inc, rem); IsProRata(levels, inc, rem, r.entered, parts, r.fills)
  {
    hide ProRataLevel, EligibleTotal, InReach, LevelSplit, Crosses;
    parts := [];
    if levels != [] && Crosses(levels[0].price, inc) && rem > 0 {
      var here := ProRataLevel(levels[0].orders, inc, rem);
      LevelIsSplit(levels[0].orders, inc, rem);
      LevelTakes(PRO_RATA, levels[0].orders, inc, rem);
      LevelsEntered(PRO_RATA, levels[1..], inc, here.remaining);
      var rest := SweepParts(levels[1..], inc, here.remaining);
      parts := [here.fills] + rest;
      PartsCons(levels, inc, rem, here.fills, rest, Sweep(PRO_RATA, levels[1..], inc, here.remaining));
    }
  }

  lemma LeftFirst(levels: seq<Level>, inc: Order, rem: nat)
    ensures Left(levels, inc, rem, 0) == rem
  {
    assert levels[..0] == [];
  }

  /** For the levels entered, what is left can be told with or without the first level. */
  lemma LeftNext(levels: seq<Level>, inc: Order, rem: uint32, n: nat, i: nat)
    requires levels != [] && Crosses(levels[0].price, inc) && i < n
    requires Enters(levels[1..], inc, rem - Min(rem, EligibleTotal(levels[0].orders, inc)), n)
    ensures i < |levels[1..]|
    ensures Left(levels, inc, rem, i + 1) == Left(levels[1..], inc, rem - Min(rem, EligibleTotal(levels[0].orders, inc)), i)
  {
    hide EligibleTotal, Crosses;
    InReachFront(levels, inc, i);
  }

  lemma PartsCons(levels: seq<Level>, inc: Order, rem: uint32, here: seq<FillEvent>, rest: seq<seq<FillEvent>>, r: SideOutcome)
    requires levels != [] && Crosses(levels[0].price, inc) && rem > 0 && LevelSplit(levels[0].orders, inc, rem, here)
    requires var left := rem - Min(rem, EligibleTotal(levels[0].orders, inc));
             IsProRata(levels[1..], inc, left, r.entered, rest, r.fills) && Enters(levels[1..], inc, left, r.entered)
    ensures IsProRata(levels, inc, rem, r.entered + 1, [here] + rest, here + r.fills)
  {
    hide EligibleTotal, LevelSplit, Crosses, Left, Enters;
    var parts, left := [here] + rest, rem - Min(rem, EligibleTotal(levels[0].orders, inc));
    assert parts[1..] == rest;
    LeftFirst(levels, inc, rem);
    forall i | 0 <= i <= r.entered
      ensures LevelSplit(levels[i].orders, inc, Left(levels, inc, rem, i), parts[i])
    {
      if i > 0 {
        LeftNext(levels, inc, rem, r.entered, i - 1);
        assert LevelSplit(levels[1..][i - 1].orders, inc, Left(levels[1..], inc, left, i - 1), rest[i - 1]);
        assert levels[1..][i - 1] == levels[i];
      }
    }
  }

  // ---------- Maker by maker ----------

  lemma {:induction false} QtyOfNobody(orders: seq<Order>, id: uint64)
    requires CountId(orders, id) == 0
    ensures QtyOf(orders, Only(id)) == 0
  {
    if orders != [] {
      QtyOfNobody(orders[1..], id);
    }
  }

  /** With no order of that id around, no fill takes from it. */
  lemma ReceivesNothing(before: seq<Order>, after: seq<Order>, inc: Order, fills: seq<FillEvent>, rem: nat, rem2: nat, id: uint64)
    requires Traded(before, after, inc, fills, rem, rem2) && CountId(before, id) == 0
    ensures Received(fills, id) == 0
  {
    hide Shrunk, FillsFrom;
    QtyOfNobody(before, id);
  }

  lemma {:induction false} ShareReceived(orders: seq<Order>, inc: Order, shares: seq<int>, k: nat)
    requires Tradable(orders, shares) && k < |orders| && CountId(orders, orders[k].orderId) == 1
    ensures Received(ShareFills(orders, inc, shares), orders[k].orderId) == shares[k]
  {
    TradableTail(orders, shares, 1);
    var id, first, rest := orders[k].orderId, ShareFill(orders[0], inc, shares[0]), ShareFills(orders[1..], inc, shares[1..]);
    FilledConcat(first, rest, Only(id));
    OneReceived(orders[0], inc, shares[0], id);
    if k == 0 {
      NobodyReceives(orders[1..], inc, shares[1..], id);
    } else {
      CountAt(orders[1..], k - 1);
      ShareReceived(orders[1..], inc, shares[1..], k - 1);
    }
  }

  lemma OneReceived(o: Order, inc: Order, share: int, id: uint64)
    requires 0 <= share <= o.qty
    ensures Received(ShareFill(o, inc, share), id) == if o.orderId == id then share else 0
  {
    if share > 0 {
      var f := Fill(o, inc, share);
      assert ShareFill(o, inc, share) == [f] && [f][1..] == [];
      assert FilledOf([f], Only(id)) == if f.makerOrderId == id then f.qty else 0;
    }
  }

  lemma {:induction false} NobodyReceives(orders: seq<Order>, inc: Order, shares: seq<int>, id: uint64)
    requires Tradable(orders, shares) && CountId(orders, id) == 0
    ensures Received(ShareFills(orders, inc, shares), id) == 0
  {
    if orders != [] {
      TradableTail(orders, shares, 1);
      FilledConcat(ShareFill(orders[0], inc, shares[0]), ShareFills(orders[1..], inc, shares[1..]), Only(id));
      OneReceived(orders[0], inc, shares[0], id);
      NobodyReceives(orders[1..], inc, shares[1..], id);
    }
  }

  /** What one order receives at a level entered with `rem`, in any allocation that follows the policy. */
  ghost predicate GetsItsShare(orders: seq<Order>, inc: Order, rem: int, k: nat, received: nat)
    requires k < |orders|
  {
    if EligibleTotal(orders, inc) == 0 then received == 0
    else
      && (exists m: nat, a :: SplitsLevel(orders, inc, rem, m, a))
      && (forall m: nat, a {:trigger SplitsLevel(orders, inc, rem, m, a)} ::
            SplitsLevel(orders, inc, rem, m, a) ==> received == a[k])
  }

  lemma FavouredIsOne(orders: seq<Order>, inc: Order, m: nat, m2: nat)
    requires IsFavoured(orders, inc, m) && IsFavoured(orders, inc, m2)
    ensures m == m2
  {
  }

  lemma LevelReceives(orders: seq<Order>, inc: Order, rem: uint32, k: nat)
    requires k < |orders| && CountId(orders, orders[k].orderId) == 1
    ensures GetsItsShare(orders, inc, rem, k, Received(ProRataLevel(orders, inc, rem).fills, orders[k].orderId))
  {
    hide IsFavoured, Largest, LevelShares, ShareFills, ShareFill, IsAllocation, EligibleTotal, CountEligible, ApplyShares;
    if EligibleTotal(orders, inc) > 0 {
      LargestIsFavoured(orders, inc);
      SharesAreExact(orders, inc, rem);
      var m, shares := Largest(orders, inc, |orders|), LevelShares(orders, inc, Min(rem, EligibleTotal(orders, inc)));
      assert SplitsLevel(orders, inc, rem, m, shares);
      DeferredFill(orders, inc, shares, m, Only(orders[k].orderId));
      ShareReceived(orders, inc, shares, k);
      forall m2: nat, a | SplitsLevel(orders, inc, rem, m2, a)
        ensures a[k] == shares[k]
      {
        FavouredIsOne(orders, inc, m, m2);
        assert a == shares;
      }
    }
  }

  lemma {:induction false} CountsOnSide(levels: seq<Level>, i: nat, k: nat)
    requires i < |levels| && k < |levels[i].orders|
    ensures CountIdOnSide(levels, levels[i].orders[k].orderId) > 0
  {
    if i == 0 {
      CountAt(levels[0].orders, k);
    } else {
      CountsOnSide(levels[1..], i - 1, k);
    }
  }

  /** What the order gets in a sweep that enters n levels. */
  ghost predicate SweptShare(levels: seq<Level>, inc: Order, rem: nat, n: nat, i: nat, k: nat, fills: seq<FillEvent>)
    requires i < |levels| && k < |levels[i].orders|
  {
    var received := Received(fills, levels[i].orders[k].orderId);
    if i < n then GetsItsShare(levels[i].orders, inc, Left(levels, inc, rem, i), k, received) else received == 0
  }

  /** The first level gives, the others do not. */
  lemma ReceivesHere(levels: seq<Level>, inc: Order, rem: uint32, k: nat)
    requires levels != [] && Crosses(levels[0].price, inc) && rem > 0 && k < |levels[0].orders|
    requires CountIdOnSide(levels, levels[0].orders[k].orderId) == 1
    ensures var r := Sweep(PRO_RATA, levels, inc, rem); SweptShare(levels, inc, rem, r.entered, 0, k, r.fills)
  {
    hide ProRataLevel, EligibleTotal, GetsItsShare, Crosses, Traded, Left, CountId;
    var id, here := levels[0].orders[k].orderId, ProRataLevel(levels[0].orders, inc, rem);
    var rest := Sweep(PRO_RATA, levels[1..], inc, here.remaining);
    FilledConcat(here.fills, rest.fills, Only(id));
    CountAt(levels[0].orders, k);
    SweepTrades(PRO_RATA, levels[1..], inc, here.remaining);
    FlatCount(levels[1..], id);
    ReceivesNothing(Flat(levels[1..]), Flat(rest.levels), inc, rest.fills, here.remaining, rest.remaining, id);
    LevelReceives(levels[0].orders, inc, rem, k);
    LeftFirst(levels, inc, rem);
  }

  /** The first level does not, so what the order gets is what the sweep of the others gives it. */
  lemma ReceivesBehind(levels: seq<Level>, inc: Order, rem: uint32, i: nat, k: nat, rest: SideOutcome)
    requires i + 1 < |levels| && Crosses(levels[0].price, inc) && rem > 0 && k < |levels[i + 1].orders|
    requires CountIdOnSide(levels, levels[i + 1].orders[k].orderId) == 1
    requires var left := rem - Min(rem, EligibleTotal(levels[0].orders, inc));
             && Enters(levels[1..], inc, left, rest.entered)
             && SweptShare(levels[1..], inc, left, rest.entered, i, k, rest.fills)
    ensures SweptShare(levels, inc, rem, rest.entered + 1, i + 1, k, ProRataLevel(levels[0].orders, inc, rem).fills + rest.fills)
  {
    hide ProRataLevel, EligibleTotal, GetsItsShare, Crosses, Traded, Left, CountId, Enters;
    var id, here := levels[i + 1].orders[k].orderId, ProRataLevel(levels[0].orders, inc, rem);
    assert levels[1..][i] == levels[i + 1];
    FilledConcat(here.fills, rest.fills, Only(id));
    CountsOnSide(levels[1..], i, k);
    LevelTrades(PRO_RATA, levels[0].orders, inc, rem);
    ReceivesNothing(levels[0].orders, here.orders, inc, here.fills, rem, here.remaining, id);
    if i < rest.entered {
      LeftNext(levels, inc, rem, rest.entered, i);
    }
  }

  /** A sweep gives to each order what its level's split gives it, and nothing behind the levels it enters. */
  lemma {:induction false} SweepReceives(levels: seq<Level>, inc: Order, rem: uint32, i: nat, k: nat)
    requires i < |levels| && k < |levels[i].orders| && CountIdOnSide(levels, levels[i].orders[k].orderId) == 1
    ensures var r := Sweep(PRO_RATA, levels, inc, rem); SweptShare(levels, inc, rem, r.entered, i, k, r.fills)
  {
    hide ProRataLevel, EligibleTotal, GetsItsShare, Crosses, Left, CountId, Enters;
    if Crosses(levels[0].price, inc) && rem > 0 {
      if i == 0 {
        ReceivesHere(levels, inc, rem, k);
      } else {
        hide SweptShare;
        var left := ProRataLevel(levels[0].orders, inc, rem).remaining;
        LevelTakes(PRO_RATA, levels[0].orders, inc, rem);
        CountsOnSide(levels[1..], i - 1, k);
        SweepReceives(levels[1..], inc, left, i - 1, k);
        LevelsEntered(PRO_RATA, levels[1..], inc, left);
        ReceivesBehind(levels, inc, rem, i - 1, k, Sweep(PRO_RATA, levels[1..], inc, left));
      }
    }
  }

  lemma {:induction false} QtyOfOne(orders: seq<Order>, k: nat)
    requires k < |orders| && CountId(orders, orders[k].orderId) == 1
    ensures QtyOf(orders, Only(orders[k].orderId)) == orders[k].qty
  {
    if k == 0 {
      QtyOfNobody(orders[1..], orders[0].orderId);
    } else {
      CountAt(orders[1..], k - 1);
      QtyOfOne(orders[1..], k - 1);
    }
  }

  lemma {:induction false} QtyOnSide(levels: seq<Level>, i: nat, k: nat)
    requires i < |levels| && k < |levels[i].orders| && CountIdOnSide(levels, levels[i].orders[k].orderId) == 1
    ensures QtyOf(Flat(levels), Only(levels[i].orders[k].orderId)) == levels[i].orders[k].qty
  {
    var id := levels[i].orders[k].orderId;
    QtyConcat(levels[0].orders, Flat(levels[1..]), Only(id));
    FlatCount(levels[1..], id);
    if i == 0 {
      CountAt(levels[0].orders, k);
      QtyOfOne(levels[0].orders, k);
      QtyOfNobody(Flat(levels[1..]), id);
    } else {
      CountsOnSide(levels[1..], i - 1, k);
      QtyOnSide(levels[1..], i - 1, k);
      QtyOfNobody(levels[0].orders, id);
    }
  }

  // ---------- Main results ----------

  /** Every pro-rata match that is not turned away: level by level, best price first, what the better levels could not
      give is split by the policy over the orders of other clients; each order with a positive share reports one fill of
      that share, first in, first out, the favoured order last. */
  lemma MatchIsProRata(b: Book, inc: Order)
    requires Accepts(PRO_RATA, b, inc)
    ensures var r := Match(PRO_RATA, b, inc);
            exists parts :: IsProRata(Levels(b, Other(inc.side)), inc, inc.qty, r.stats.levelsConsumed, parts, r.fills)
  {
    hide Sweep, DrySweep, Find, Add, IsProRata;
    var parts := SweepParts(Levels(b, Other(inc.side)), inc, inc.qty);
    var r := Match(PRO_RATA, b, inc);
    assert IsProRata(Levels(b, Other(inc.side)), inc, inc.qty, r.stats.levelsConsumed, parts, r.fills);
  }

  /** Maker by maker, in every pro-rata match that is not turned away: the k-th order of the i-th level receives its part
      of any split that follows the policy, and keeps the rest; behind the levels entered nobody receives anything. */
  lemma MakersGetTheirShares(b: Book, inc: Order, i: nat, k: nat)
    requires BookOk(b) && Accepts(PRO_RATA, b, inc)
    requires i < |Levels(b, Other(inc.side))| && k < |Levels(b, Other(inc.side))[i].orders|
    ensures var r, levels := Match(PRO_RATA, b, inc), Levels(b, Other(inc.side));
            var maker := levels[i].orders[k];
            var received := Received(r.fills, maker.orderId);
            && (if i < r.stats.levelsConsumed
                then GetsItsShare(levels[i].orders, inc, Left(levels, inc, inc.qty, i), k, received)
                else received == 0)
            && QtyOf(Flat(Levels(r.book, Other(inc.side))), Only(maker.orderId)) == maker.qty - received
  {
    hide Sweep, DrySweep, Find, Add, GetsItsShare, SideOk, FilledOf, QtyOf, Flat, Left;
    var levels := Levels(b, Other(inc.side));
    var id := levels[i].orders[k].orderId;
    CountsOnSide(levels, i, k);
    assert CountIdInBook(b, id) <= 1;
    SweepReceives(levels, inc, inc.qty, i, k);
    QtyOnSide(levels, i, k);
    MatchConserves(PRO_RATA, b, inc);
    assert Match(PRO_RATA, b, inc) == Execute(PRO_RATA, b, inc);
  }
}
