/** Pro-rata allocation at one level (include/hydra/matcher.hpp:325-446) as arithmetic on vectors: `caps` holds the
    quantity of each order that may trade and 0 for a self-trade, and an allocation gives each order its share. */
module Allocation {
  import opened Types

  function Sum(s: seq<int>): int {
    if s == [] then 0 else s[0] + Sum(s[1..])
  }

  /** floor(L * q / E), the share computed in the source's uint64 arithmetic. */
  function FloorShare(L: nat, q: nat, E: nat): nat
    requires E > 0
  {
    (L * q) / E
  }

  function Floors(caps: seq<nat>, L: nat, E: nat): (floors: seq<int>)
    requires E > 0
    ensures |floors| == |caps|
    ensures forall k :: 0 <= k < |caps| ==> floors[k] == FloorShare(L, caps[k], E)
  {
    seq(|caps|, k requires 0 <= k < |caps| => FloorShare(L, caps[k], E))
  }

  /** Number of orders that have something to trade. */
  function Positive(caps: seq<nat>): nat {
    if caps == [] then 0 else (if caps[0] > 0 then 1 else 0) + Positive(caps[1..])
  }

  /** Shares in the FIFO walk, which passes over order m. */
  function Walk(caps: seq<nat>, floors: seq<int>, m: int, residual: int): (shares: seq<int>)
    requires |floors| == |caps|
    ensures |shares| == |caps|
  {
    if caps == [] then []
    else if m == 0 then [0] + Walk(caps[1..], floors[1..], m - 1, residual)
    else
      var extra := Min(residual, caps[0] - floors[0]);
      [floors[0] + extra] + Walk(caps[1..], floors[1..], m - 1, residual - extra)
  }

  /** Floors, plus the residual: first to order m as far as it has headroom, then to the others in FIFO order. */
  function Spread(caps: seq<nat>, floors: seq<int>, m: nat, residual: int): (shares: seq<int>)
    requires |floors| == |caps| && m < |caps|
    ensures |shares| == |caps|
  {
    var extra := Min(residual, caps[m] - floors[m]);
    Walk(caps, floors, m, residual - extra)[m := floors[m] + extra]
  }

  /** How L is split over a level. */
  function Shares(caps: seq<nat>, m: nat, L: nat): (shares: seq<int>)
    requires m < |caps| && Sum(caps) > 0
    ensures |shares| == |caps|
  {
    var floors := Floors(caps, L, Sum(caps));
    Spread(caps, floors, m, L - Sum(floors))
  }

  /** The allocation policy, said without the algorithm: L is given out exactly; nobody gets less than the floor of
      the pro-rata share or more than they offer; and an order is topped up above its floor only when order m and
      every earlier order are full. */
  ghost predicate IsAllocation(caps: seq<nat>, m: nat, L: nat, a: seq<int>)
    requires m < |caps| && Sum(caps) > 0
  {
    var floors := Floors(caps, L, Sum(caps));
    && |a| == |caps|
    && Sum(a) == L
    && (forall k :: 0 <= k < |a| ==> floors[k] <= a[k] <= caps[k])
    && (a[m] < caps[m] ==> forall j :: 0 <= j < |a| && j != m ==> a[j] == floors[j])
    && (forall i, j :: 0 <= i < j < |a| && i != m && j != m && a[i] < caps[i] ==> a[j] == floors[j])
  }

  // ---------- Sums ----------

  lemma {:induction false} SumAppend(s: seq<int>, t: seq<int>)
    ensures Sum(s + t) == Sum(s) + Sum(t)
  {
    if s == [] {
      assert s + t == t;
    } else {
      assert (s + t)[1..] == s[1..] + t;
      SumAppend(s[1..], t);
    }
  }

  lemma SumSnoc(s: seq<int>, k: nat)
    requires k < |s|
    ensures Sum(s[..k + 1]) == Sum(s[..k]) + s[k]
  {
    assert s[..k + 1] == s[..k] + [s[k]];
    SumAppend(s[..k], [s[k]]);
  }

  lemma {:induction false} SumUpdate(s: seq<int>, k: nat, v: int)
    requires k < |s|
    ensures Sum(s[k := v]) == Sum(s) - s[k] + v
  {
    if k == 0 {
      assert s[k := v][1..] == s[1..];
    } else {
      assert s[k := v][1..] == s[1..][k - 1 := v];
      SumUpdate(s[1..], k - 1, v);
    }
  }

  /** Pointwise order carries over to sums, strictly when one place is strict. */
  lemma {:induction false} SumMonotone(s: seq<int>, t: seq<int>)
    requires |s| == |t| && forall k :: 0 <= k < |s| ==> s[k] <= t[k]
    ensures Sum(s) <= Sum(t)
    ensures (exists k :: 0 <= k < |s| && s[k] < t[k]) ==> Sum(s) < Sum(t)
  {
    if s != [] {
      SumMonotone(s[1..], t[1..]);
      if k :| 0 <= k < |s| && s[k] < t[k] {
        if k > 0 {
          assert s[1..][k - 1] < t[1..][k - 1];
        }
      }
    }
  }

  lemma {:induction false} SumNonNegative(s: seq<int>)
    requires forall k :: 0 <= k < |s| ==> s[k] >= 0
    ensures Sum(s) >= 0
    ensures forall k :: 0 <= k < |s| ==> s[k] <= Sum(s)
  {
    if s != [] {
      SumNonNegative(s[1..]);
      forall k | 0 <= k < |s|
        ensures s[k] <= Sum(s)
      {
        if k > 0 {
          assert s[k] == s[1..][k - 1];
        }
      }
    }
  }

  // ---------- Floors ----------

  lemma FloorBounds(L: nat, q: nat, E: nat)
    requires 0 < E && L <= E
    ensures E * FloorShare(L, q, E) <= L * q
    ensures L * q <= E * FloorShare(L, q, E) + E - 1
    ensures FloorShare(L, q, E) <= q
    ensures q == 0 ==> FloorShare(L, q, E) == 0
  {
    var f := FloorShare(L, q, E);
    assert L * q == E * f + (L * q) % E;
    MulMonotone(q, L, E);
    MulCancel(E, f, q);
  }

  lemma MulMonotone(a: nat, b: int, c: int)
    requires b <= c
    ensures a * b <= a * c
  {
    assert a * (c - b) >= 0;
    assert a * c == a * b + a * (c - b);
  }

  lemma MulCancel(a: nat, b: int, c: int)
    requires a * b < a * c + a
    ensures b <= c
  {
    assert a * (c + 1) == a * c + a;
    if b > c {
      MulMonotone(a, c + 1, b);
    }
  }

  lemma FloorMonotone(L: nat, p: nat, q: nat, E: nat)
    requires 0 < E && p <= q
    ensures FloorShare(L, p, E) <= FloorShare(L, q, E)
  {
    MulMonotone(L, p, q);
    var f, g := FloorShare(L, p, E), FloorShare(L, q, E);
    assert L * p == E * f + (L * p) % E && L * q == E * g + (L * q) % E;
    MulCancel(E, f, g);
  }

  /** The floors lose less than one unit per order that has something to trade. */
  lemma {:induction false} FloorSumBounds(caps: seq<nat>, L: nat, E: nat)
    requires 0 < E && L <= E
    ensures E * Sum(Floors(caps, L, E)) <= L * Sum(caps)
    ensures L * Sum(caps) <= E * Sum(Floors(caps, L, E)) + Positive(caps) * (E - 1)
  {
    hide FloorShare;
    if caps != [] {
      var q, rest := caps[0], caps[1..];
      var fs, f := Floors(rest, L, E), FloorShare(L, q, E);
      FloorSumBounds(rest, L, E);
      FloorBounds(L, q, E);
      assert Floors(caps, L, E)[1..] == fs;
      assert E * (f + Sum(fs)) == E * f + E * Sum(fs);
      assert L * (q + Sum(rest)) == L * q + L * Sum(rest);
      if q > 0 {
        assert (1 + Positive(rest)) * (E - 1) == (E - 1) + Positive(rest) * (E - 1);
      }
    }
  }

  /** 0 <= residual, and residual < number of eligible orders. */
  lemma ResidualBounds(caps: seq<nat>, L: nat)
    requires Sum(caps) > 0 && L <= Sum(caps)
    ensures 0 <= L - Sum(Floors(caps, L, Sum(caps)))
    ensures L - Sum(Floors(caps, L, Sum(caps))) < Positive(caps)
  {
    var E := Sum(caps);
    FloorSumBounds(caps, L, E);
    PositiveSome(caps);
    ResidualArithmetic(E, Sum(Floors(caps, L, E)), L, Positive(caps));
  }

  lemma ResidualArithmetic(E: nat, F: int, L: nat, n: nat)
    requires E > 0 && n > 0 && E * F <= L * E <= E * F + n * (E - 1)
    ensures 0 <= L - F < n
  {
    MulCancel(E, F, L);
    assert E * (L - F) == L * E - E * F;
    assert n * (E - 1) == E * (n - 1) + E - n;
    MulCancel(E, L - F, n - 1);
  }

  lemma {:induction false} PositiveSome(caps: seq<nat>)
    requires Sum(caps) > 0
    ensures Positive(caps) > 0
  {
    if caps[0] == 0 {
      PositiveSome(caps[1..]);
    }
  }

  // ---------- The walk ----------

  /** Headroom of the orders other than m. */
  function Headroom(caps: seq<nat>, floors: seq<int>, m: int): int
    requires |floors| == |caps|
  {
    if caps == [] then 0
    else (if m == 0 then 0 else caps[0] - floors[0]) + Headroom(caps[1..], floors[1..], m - 1)
  }

  lemma {:induction false} HeadroomSum(caps: seq<nat>, floors: seq<int>, m: int)
    requires |floors| == |caps| && m < |caps|
    ensures Headroom(caps, floors, m) == Sum(caps) - Sum(floors) - (if 0 <= m then caps[m] - floors[m] else 0)
  {
    if caps != [] {
      HeadroomSum(caps[1..], floors[1..], m - 1);
    }
  }

  ghost predicate Within(caps: seq<nat>, floors: seq<int>) {
    |floors| == |caps| && forall k :: 0 <= k < |caps| ==> 0 <= floors[k] <= caps[k]
  }

  lemma {:induction false} HeadroomNonNegative(caps: seq<nat>, floors: seq<int>, m: int)
    requires Within(caps, floors)
    ensures Headroom(caps, floors, m) >= 0
  {
    if caps != [] {
      HeadroomNonNegative(caps[1..], floors[1..], m - 1);
    }
  }

  /** The walk pays every floor and the whole residual. */
  lemma {:induction false} WalkSum(caps: seq<nat>, floors: seq<int>, m: int, residual: int)
    requires Within(caps, floors) && 0 <= residual <= Headroom(caps, floors, m)
    ensures Sum(Walk(caps, floors, m, residual)) ==
            Sum(floors) - (if 0 <= m < |caps| then floors[m] else 0) + residual
  {
    if caps != [] {
      var extra := if m == 0 then 0 else Min(residual, caps[0] - floors[0]);
      HeadroomNonNegative(caps[1..], floors[1..], m - 1);
      WalkSum(caps[1..], floors[1..], m - 1, residual - extra);
      assert Walk(caps, floors, m, residual)[1..] == Walk(caps[1..], floors[1..], m - 1, residual - extra);
    }
  }

  /** Its shares stay within bounds, and are the floors once the residual is used up. */
  lemma {:induction false} WalkBounds(caps: seq<nat>, floors: seq<int>, m: int, residual: int)
    requires Within(caps, floors) && 0 <= residual
    ensures forall j :: 0 <= j < |caps| && j != m ==> floors[j] <= Walk(caps, floors, m, residual)[j] <= caps[j]
    ensures residual == 0 ==> forall j :: 0 <= j < |caps| && j != m ==> Walk(caps, floors, m, residual)[j] == floors[j]
    ensures 0 <= m < |caps| ==> Walk(caps, floors, m, residual)[m] == 0
  {
    if caps != [] {
      var extra := if m == 0 then 0 else Min(residual, caps[0] - floors[0]);
      var rest := Walk(caps[1..], floors[1..], m - 1, residual - extra);
      WalkBounds(caps[1..], floors[1..], m - 1, residual - extra);
      forall j | 0 <= j < |caps| && j != m
        ensures floors[j] <= Walk(caps, floors, m, residual)[j] <= caps[j]
        ensures residual == 0 ==> Walk(caps, floors, m, residual)[j] == floors[j]
      {
        if j > 0 {
          assert floors[1..][j - 1] <= rest[j - 1] <= caps[1..][j - 1];
        }
      }
    }
  }

  lemma WalkCons(caps: seq<nat>, floors: seq<int>, m: int, residual: int)
    requires |floors| == |caps| && caps != []
    ensures var walk, extra := Walk(caps, floors, m, residual), if m == 0 then 0 else Min(residual, caps[0] - floors[0]);
            && walk[0] == (if m == 0 then 0 else floors[0] + extra)
            && walk[1..] == Walk(caps[1..], floors[1..], m - 1, residual - extra)
  {
  }

  /** First come, first served: an order above its floor means the earlier ones are full. */
  lemma {:induction false} WalkPriority(caps: seq<nat>, floors: seq<int>, m: int, residual: int, i: nat, j: nat)
    requires Within(caps, floors) && 0 <= residual && i < j < |caps| && i != m && j != m
    requires Walk(caps, floors, m, residual)[i] < caps[i]
    ensures Walk(caps, floors, m, residual)[j] == floors[j]
  {
    hide Walk;
    var extra := if m == 0 then 0 else Min(residual, caps[0] - floors[0]);
    WalkCons(caps, floors, m, residual);
    assert Walk(caps, floors, m, residual)[1..][j - 1] == Walk(caps, floors, m, residual)[j];
    if i == 0 {
      WalkBounds(caps[1..], floors[1..], m - 1, residual - extra);
      assert floors[1..][j - 1] == floors[j];
    } else {
      WalkPriority(caps[1..], floors[1..], m - 1, residual - extra, i - 1, j - 1);
    }
  }

  // ---------- Main results ----------

  /** Whether the shares are computed from caps whose order m is a largest one. */
  ghost predicate IsLargest(caps: seq<nat>, m: nat) {
    m < |caps| && forall k :: 0 <= k < |caps| ==> caps[k] <= caps[m]
  }

  lemma FloorsWithin(caps: seq<nat>, L: nat)
    requires Sum(caps) > 0 && L <= Sum(caps)
    ensures Within(caps, Floors(caps, L, Sum(caps)))
  {
    forall k | 0 <= k < |caps|
      ensures FloorShare(L, caps[k], Sum(caps)) <= caps[k]
    {
      FloorBounds(L, caps[k], Sum(caps));
    }
  }

  lemma SpreadSum(caps: seq<nat>, floors: seq<int>, m: nat, residual: int)
    requires Within(caps, floors) && m < |caps| && 0 <= residual <= Sum(caps) - Sum(floors)
    ensures Sum(Spread(caps, floors, m, residual)) == Sum(floors) + residual
  {
    hide Sum, Walk, Headroom;
    var extra := Min(residual, caps[m] - floors[m]);
    HeadroomSum(caps, floors, m);
    HeadroomNonNegative(caps, floors, m);
    WalkSum(caps, floors, m, residual - extra);
    WalkBounds(caps, floors, m, residual - extra);
    SumUpdate(Walk(caps, floors, m, residual - extra), m, floors[m] + extra);
  }

  lemma SpreadPolicy(caps: seq<nat>, floors: seq<int>, m: nat, residual: int)
    requires Within(caps, floors) && m < |caps| && 0 <= residual
    ensures var a := Spread(caps, floors, m, residual);
            && (forall k :: 0 <= k < |a| ==> floors[k] <= a[k] <= caps[k])
            && (a[m] < caps[m] ==> forall j :: 0 <= j < |a| && j != m ==> a[j] == floors[j])
            && (forall i, j :: 0 <= i < j < |a| && i != m && j != m && a[i] < caps[i] ==> a[j] == floors[j])
  {
    var extra := Min(residual, caps[m] - floors[m]);
    WalkBounds(caps, floors, m, residual - extra);
    var a := Spread(caps, floors, m, residual);
    forall i, j | 0 <= i < j < |a| && i != m && j != m && a[i] < caps[i]
      ensures a[j] == floors[j]
    {
      WalkPriority(caps, floors, m, residual - extra, i, j);
    }
  }

  /** The computed shares meet the policy. */
  lemma SharesAreAllocation(caps: seq<nat>, m: nat, L: nat)
    requires Sum(caps) > 0 && L <= Sum(caps) && m < |caps|
    ensures IsAllocation(caps, m, L, Shares(caps, m, L))
  {
    hide Sum, FloorShare, Spread;
    var floors := Floors(caps, L, Sum(caps));
    FloorsWithin(caps, L);
    ResidualBounds(caps, L);
    SpreadSum(caps, floors, m, L - Sum(floors));
    SpreadPolicy(caps, floors, m, L - Sum(floors));
  }

  /** The policy has one solution, so the shares are the only vector that meets it. */
  lemma AllocationIsUnique(caps: seq<nat>, m: nat, L: nat, a: seq<int>, b: seq<int>)
    requires Sum(caps) > 0 && m < |caps|
    requires IsAllocation(caps, m, L, a) && IsAllocation(caps, m, L, b)
    ensures a == b
  {
    if a[m] < b[m] {
      SumMonotone(a, b);
    } else if b[m] < a[m] {
      SumMonotone(b, a);
    } else {
      AgreeUpTo(caps, m, L, a, b, |caps|);
    }
  }

  lemma {:induction false} AgreeUpTo(caps: seq<nat>, m: nat, L: nat, a: seq<int>, b: seq<int>, n: nat)
    requires Sum(caps) > 0 && m < |caps| && n <= |caps|
    requires IsAllocation(caps, m, L, a) && IsAllocation(caps, m, L, b) && a[m] == b[m]
    ensures forall k :: 0 <= k < n ==> a[k] == b[k]
  {
    if n > 0 {
      AgreeUpTo(caps, m, L, a, b, n - 1);
      if a[n - 1] < b[n - 1] {
        SumMonotone(a, b);
      } else if b[n - 1] < a[n - 1] {
        SumMonotone(b, a);
      }
    }
  }

  /** Whenever something trades at a level, the largest order trades. */
  lemma LargestTrades(caps: seq<nat>, m: nat, L: nat)
    requires Sum(caps) > 0 && 0 < L <= Sum(caps) && IsLargest(caps, m)
    ensures Shares(caps, m, L)[m] > 0
  {
    var E := Sum(caps);
    var a := Shares(caps, m, L);
    SharesAreAllocation(caps, m, L);
    if a[m] <= 0 {
      var floors := Floors(caps, L, E);
      FloorsWithin(caps, L);
      LargestIsPositive(caps, m);
      forall k | 0 <= k < |caps|
        ensures a[k] <= 0
      {
        FloorMonotone(L, caps[k], caps[m], E);
      }
      SumMonotone(a, seq(|a|, _ => 0));
      SumOfZeros(|a|);
    }
  }

  lemma {:induction false} SumOfZeros(n: nat)
    ensures Sum(seq(n, _ => 0)) == 0
  {
    if n > 0 {
      assert seq(n, _ => 0)[1..] == seq(n - 1, _ => 0);
      SumOfZeros(n - 1);
    }
  }

  lemma LargestIsPositive(caps: seq<nat>, m: nat)
    requires Sum(caps) > 0 && IsLargest(caps, m)
    ensures caps[m] > 0
  {
    if caps[m] == 0 {
      SumMonotone(caps, seq(|caps|, _ => 0));
      SumOfZeros(|caps|);
    }
  }

  /** A level that is taken whole gives every order its whole quantity. */
  lemma WholeLevel(caps: seq<nat>, m: nat)
    requires Sum(caps) > 0 && m < |caps|
    ensures Shares(caps, m, Sum(caps)) == caps
  {
    var E := Sum(caps);
    var floors := Floors(caps, E, E);
    forall k | 0 <= k < |caps|
      ensures floors[k] == caps[k]
    {
      FloorBounds(E, caps[k], E);
      MulCancel(E, caps[k], floors[k]);
    }
    SharesAreAllocation(caps, m, E);
  }
}
