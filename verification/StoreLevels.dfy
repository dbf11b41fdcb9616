/** Creating a price level and taking an empty one away (get_or_create_level and the tail of cancel_order). */
module StoreLevels {
  import opened Types
  import opened Pools
  import opened LinkedFifo
  import opened Book
  import opened BookLemmas
  import opened BookStore
  import opened StoreSteps

  /** In a sorted map a price is found exactly where it is stored. */
  lemma PlaceUnique(side: Side, prices: seq<int64>, j: nat)
    requires SortedPrices(side, prices) && j < |prices|
    ensures LowerBound(side, prices, prices[j]) == j
  {
  }

  lemma LevelAtUnique(side: Side, entries: seq<PriceEntry>, j: nat)
    requires SortedPrices(side, EntryPrices(entries)) && j < |entries|
    ensures LevelAt(side, entries, entries[j].price) == entries[j].level
    ensures Place(side, entries, entries[j].price) == j
  {
    PlaceUnique(side, EntryPrices(entries), j);
  }

  // ---------- Taking out an empty level ----------

  function DropLevel(s: Store, side: Side, at: nat, l: Ptr): Store
    requires at < |Entries(s, side)|
  {
    WithEntries(s, side, RemoveAt(Entries(s, side), at)).(levels := s.levels - {l}, lists := s.lists - {l})
  }

  function Erased(s: Store, l: Ptr): Store
    requires l in s.levels && Pos(s, l) < |Entries(s, SideOf(s, l))|
  {
    DropLevel(s, SideOf(s, l), Pos(s, l), l)
  }

  lemma ErasedSorted(side: Side, entries: seq<PriceEntry>, i: nat)
    requires SortedPrices(side, EntryPrices(entries)) && i < |entries|
    ensures SortedPrices(side, EntryPrices(RemoveAt(entries, i)))
  {
    var before, after := EntryPrices(entries), EntryPrices(RemoveAt(entries, i));
    forall a, b | 0 <= a < b < |after|
      ensures Better(side, after[a], after[b])
    {
      assert after[a] == before[if a < i then a else a + 1];
      assert after[b] == before[if b < i then b else b + 1];
    }
  }

  lemma ErasedEntryAt(s: Store, l: Ptr, side: Side, i: nat)
    requires LevelsOk(s, l) && EntriesOk(s) && l in s.levels && Pos(s, l) < |Entries(s, SideOf(s, l))|
    requires i < |Entries(s, side)| && (side != SideOf(s, l) || i != Pos(s, l))
    ensures var e := Entries(s, side)[i];
            && e.level in Erased(s, l).levels && Erased(s, l).levels[e.level].price == e.price
            && SideOf(Erased(s, l), e.level) == side
  {
    hide LevelsOk, Pos;
    PosOfEntry(s, side, i, l);
    assert EntryAt(s, side, i);
  }

  lemma ErasedEntries(s: Store, l: Ptr)
    requires LevelsOk(s, l) && EntriesOk(s) && l in s.levels
    ensures Pos(s, l) < |Entries(s, SideOf(s, l))| && EntriesOk(Erased(s, l))
  {
    hide LevelsOk, Pos;
    PosOfLevel(s, l, l);
    var s2, sd, at := Erased(s, l), SideOf(s, l), Pos(s, l);
    ErasedSorted(sd, Entries(s, sd), at);
    forall side, i {:trigger EntryAt(s2, side, i)} | 0 <= i < |Entries(s2, side)|
      ensures EntryAt(s2, side, i)
    {
      ErasedEntryAt(s, l, side, if side == sd && i >= at then i + 1 else i);
    }
  }

  lemma FoundAfterErase(side: Side, entries: seq<PriceEntry>, at: nat, j: nat)
    requires SortedPrices(side, EntryPrices(entries)) && at < |entries| && j < |entries| && at != j
    ensures LevelAt(side, RemoveAt(entries, at), entries[j].price) == entries[j].level
  {
    hide LevelAt, Place, SortedPrices;
    ErasedSorted(side, entries, at);
    LevelAtUnique(side, RemoveAt(entries, at), if j > at then j - 1 else j);
  }

  lemma SideSorted(s: Store, side: Side)
    requires EntriesOk(s)
    ensures SortedPrices(side, EntryPrices(Entries(s, side)))
  {
  }

  lemma ErasedLevelAt(s: Store, l: Ptr, m: Ptr)
    requires LevelsOk(s, l) && EntriesOk(s) && l in s.levels && m in s.levels && m != l
    ensures Pos(s, l) < |Entries(s, SideOf(s, l))|
    ensures LevelAt(SideOf(s, m), Entries(Erased(s, l), SideOf(s, m)), s.levels[m].price) == m
  {
    hide LevelsOk, EntriesOk, LevelAt, Pos, SortedPrices;
    PosOfLevel(s, l, l);
    PosOfLevel(s, m, l);
    SideSorted(s, SideOf(s, m));
    if SideOf(s, m) == SideOf(s, l) {
      FoundAfterErase(SideOf(s, m), Entries(s, SideOf(s, m)), Pos(s, l), Pos(s, m));
    } else {
      LevelAtUnique(SideOf(s, m), Entries(s, SideOf(s, m)), Pos(s, m));
    }
  }

  lemma ErasedFacts(s: Store, l: Ptr, m: Ptr)
    requires l in s.levels && Pos(s, l) < |Entries(s, SideOf(s, l))| && m in s.levels && m != l
    ensures var s2 := Erased(s, l);
            && m in s2.levels && s2.levels[m] == s.levels[m] && s2.orders == s.orders
            && Slots(s2, m) == Slots(s, m) && SideOf(s2, m) == SideOf(s, m)
  {
    hide Pos;
  }

  lemma ErasedLevelOk(s: Store, l: Ptr, m: Ptr)
    requires LevelsOk(s, l) && EntriesOk(s) && l in s.levels && m in s.levels && m != l
    ensures Pos(s, l) < |Entries(s, SideOf(s, l))| && m in Erased(s, l).levels && LevelOkAt(Erased(s, l), m, NULL)
  {
    assert LevelOkAt(s, m, l);
    hide LevelsOk, EntriesOk, LevelAt, Linked, OrdersAt, TotalQty, Pos, Erased, Slots, SideOf, Entries;
    ErasedLevelAt(s, l, m);
    ErasedFacts(s, l, m);
  }

  lemma ErasedLevels(s: Store, l: Ptr)
    requires LevelsOk(s, l) && EntriesOk(s) && l in s.levels && Slots(s, l) == []
    ensures Pos(s, l) < |Entries(s, SideOf(s, l))| && LevelsOk(Erased(s, l), NULL)
  {
    PosOfLevel(s, l, l);
    var s2 := Erased(s, l);
    forall m {:trigger LevelOkAt(s2, m, NULL)} | m in s2.levels
      ensures LevelOkAt(s2, m, NULL)
    {
      ErasedLevelOk(s, l, m);
    }
  }

  lemma ErasedPlaced(s: Store, l: Ptr)
    requires LevelsOk(s, l) && PlacedOk(s) && IndexOk(s) && l in s.levels && Slots(s, l) == []
    requires Pos(s, l) < |Entries(s, SideOf(s, l))|
    ensures PlacedOk(Erased(s, l)) && IndexOk(Erased(s, l))
  {
    var s2 := Erased(s, l);
    forall m, i {:trigger PlacedAt(s2, m, i)} | m in s2.levels && 0 <= i < |Slots(s2, m)|
      ensures PlacedAt(s2, m, i)
    {
      assert PlacedAt(s, m, i);
    }
    forall id {:trigger IndexedAt(s2, id)} | id in s2.index
      ensures IndexedAt(s2, id)
    {
      assert IndexedAt(s, id);
    }
    forall p {:trigger OwnedAt(s2, p)} | p in s2.orders
      ensures OwnedAt(s2, p)
    {
      assert OwnedAt(s, p);
    }
  }

  /** Entries of other levels keep their meaning once l is gone. */
  lemma DropAbsLevel(s: Store, side: Side, at: nat, l: Ptr, e: PriceEntry)
    requires at < |Entries(s, side)| && e.level != l
    ensures AbsLevel(DropLevel(s, side, at, l), e) == AbsLevel(s, e)
  {
  }

  /** The abstract level disappears. */
  lemma ErasedAbs(s: Store, l: Ptr)
    requires LevelsOk(s, l) && EntriesOk(s) && l in s.levels && Slots(s, l) == []
    ensures Pos(s, l) < |Entries(s, SideOf(s, l))|
    ensures Pos(s, l) < |Levels(Abs(s), SideOf(s, l))|
    ensures Levels(Abs(Erased(s, l)), SideOf(s, l)) == RemoveAt(Levels(Abs(s), SideOf(s, l)), Pos(s, l))
    ensures Levels(Abs(Erased(s, l)), Other(SideOf(s, l))) == Levels(Abs(s), Other(SideOf(s, l)))
  {
    PosOfLevel(s, l, l);
    var s2, side, other, at := Erased(s, l), SideOf(s, l), Other(SideOf(s, l)), Pos(s, l);
    forall sd, j | 0 <= j < |Entries(s, sd)| && (sd != side || j != at)
      ensures AbsLevel(s2, Entries(s, sd)[j]) == AbsLevel(s, Entries(s, sd)[j])
    {
      PosOfEntry(s, sd, j, l);
      DropAbsLevel(s, side, at, l, Entries(s, sd)[j]);
    }
    RemoveMapped(s, s2, Entries(s, side), at);
    assert AbsLevels(s2, Entries(s, other)) == AbsLevels(s, Entries(s, other));
  }

  lemma RemoveMapped(s: Store, s2: Store, entries: seq<PriceEntry>, at: nat)
    requires at < |entries|
    requires forall j :: 0 <= j < |entries| && j != at ==> AbsLevel(s2, entries[j]) == AbsLevel(s, entries[j])
    ensures AbsLevels(s2, RemoveAt(entries, at)) == RemoveAt(AbsLevels(s, entries), at)
  {
    var after := RemoveAt(entries, at);
    forall i | 0 <= i < |after|
      ensures AbsLevel(s2, after[i]) == RemoveAt(AbsLevels(s, entries), at)[i]
    {
      assert after[i] == entries[if i < at then i else i + 1];
    }
  }

  lemma ErasedInv(s: Store, l: Ptr)
    requires InvExcept(s, l) && l in s.levels && Slots(s, l) == []
    ensures Pos(s, l) < |Entries(s, SideOf(s, l))| && Inv(Erased(s, l))
  {
    assert Opened(0);
    ErasedLevels(s, l);
    ErasedPlaced(s, l);
    ErasedEntries(s, l);
    ErasedCounts(s, l);
  }

  lemma ErasedSizes(s: Store, l: Ptr)
    requires l in s.levels && Pos(s, l) < |Entries(s, SideOf(s, l))|
    ensures var s2 := Erased(s, l);
            && s2.orders == s.orders && |s2.levels| == |s.levels| - 1
            && |s2.bids| + |s2.asks| == |s.bids| + |s.asks| - 1
  {
    hide Pos;
    MinusOne(s.levels, l);
  }

  lemma ErasedCounts(s: Store, l: Ptr)
    requires InvExcept(s, l) && l in s.levels && Slots(s, l) == []
    ensures Pos(s, l) < |Entries(s, SideOf(s, l))| && CountsOk(Erased(s, l))
  {
    hide LevelsOk, PlacedOk, IndexOk, EntriesOk, Pos, Erased, Slots, AbsLevels;
    PosOfLevel(s, l, l);
    ErasedAbs(s, l);
    ErasedSizes(s, l);
    ErasedIsEmpty(s, l);
    CountRemoveEmpty(Levels(Abs(s), SideOf(s, l)), Pos(s, l));
  }

  lemma ErasedIsEmpty(s: Store, l: Ptr)
    requires LevelsOk(s, l) && l in s.levels && Slots(s, l) == []
    ensures Pos(s, l) < |Levels(Abs(s), SideOf(s, l))| && Levels(Abs(s), SideOf(s, l))[Pos(s, l)].orders == []
  {
    hide LevelsOk, Pos;
    PosOfLevel(s, l, l);
  }

  // ---------- Creating a level ----------

  /** l is a fresh slot for a level at `price`, which `side` does not have yet. */
  ghost predicate Creatable(s: Store, side: Side, price: int64, l: Ptr) {
    l != NULL && l !in s.levels && LevelAt(side, Entries(s, side), price) == NULL
  }

  function PutLevel(s: Store, side: Side, at: nat, price: int64, l: Ptr): Store
    requires at <= |Entries(s, side)|
  {
    WithEntries(s, side, InsertAt(Entries(s, side), at, PriceEntry(price, l))).(
      levels := s.levels[l := LevelNode(price, 0, 0, NULL, NULL)],
      lists := s.lists[l := Fifo(side, [])])
  }

  function Created(s: Store, side: Side, price: int64, l: Ptr): Store {
    PutLevel(s, side, Place(side, Entries(s, side), price), price, l)
  }

  lemma CreatedSorted(s: Store, side: Side, price: int64, l: Ptr)
    requires LevelsOk(s, NULL) && EntriesOk(s) && Creatable(s, side, price, l)
    ensures SortedPrices(side, EntryPrices(Entries(Created(s, side, price, l), side)))
  {
    var entries := Entries(s, side);
    var at := Place(side, entries, price);
    if at < |entries| {
      assert EntryAt(s, side, at);
      assert entries[at].price != price;
      assert EntryPrices(entries)[at] == entries[at].price;
    }
    InsertSorted(side, EntryPrices(entries), at, price);
    assert EntryPrices(InsertAt(entries, at, PriceEntry(price, l))) == InsertAt(EntryPrices(entries), at, price);
  }

  lemma PutEntryAt(s: Store, side: Side, at: nat, price: int64, l: Ptr, sd: Side, i: nat)
    requires EntriesOk(s) && l !in s.levels && at <= |Entries(s, side)|
    requires i < |Entries(PutLevel(s, side, at, price, l), sd)|
    ensures EntryAt(PutLevel(s, side, at, price, l), sd, i)
  {
    if sd != side || i < at {
      assert EntryAt(s, sd, i);
    } else if i > at {
      assert EntryAt(s, sd, i - 1);
    }
  }

  lemma CreatedEntries(s: Store, side: Side, price: int64, l: Ptr)
    requires LevelsOk(s, NULL) && EntriesOk(s) && Creatable(s, side, price, l)
    ensures EntriesOk(Created(s, side, price, l))
  {
    CreatedSorted(s, side, price, l);
    var s2 := Created(s, side, price, l);
    forall sd, i {:trigger EntryAt(s2, sd, i)} | 0 <= i < |Entries(s2, sd)|
      ensures EntryAt(s2, sd, i)
    {
      PutEntryAt(s, side, Place(side, Entries(s, side), price), price, l, sd, i);
    }
  }

  lemma FoundAfterInsert(side: Side, entries: seq<PriceEntry>, at: nat, e: PriceEntry, j: nat)
    requires at <= |entries| && j < |entries| && SortedPrices(side, EntryPrices(InsertAt(entries, at, e)))
    ensures LevelAt(side, InsertAt(entries, at, e), entries[j].price) == entries[j].level
  {
    hide LevelAt, Place, SortedPrices;
    LevelAtUnique(side, InsertAt(entries, at, e), if j >= at then j + 1 else j);
  }

  lemma CreatedEntry(s: Store, side: Side, price: int64, l: Ptr)
    ensures Entries(Created(s, side, price, l), side) ==
            InsertAt(Entries(s, side), Place(side, Entries(s, side), price), PriceEntry(price, l))
    ensures Entries(Created(s, side, price, l), Other(side)) == Entries(s, Other(side))
  {
    hide Place;
  }

  lemma CreatedLevelAt(s: Store, side: Side, price: int64, l: Ptr, m: Ptr)
    requires LevelsOk(s, NULL) && EntriesOk(s) && Creatable(s, side, price, l) && m in s.levels
    ensures LevelAt(SideOf(s, m), Entries(Created(s, side, price, l), SideOf(s, m)), s.levels[m].price) == m
  {
    hide LevelsOk, EntriesOk, LevelAt, Pos, SortedPrices, Place, Created, Entries;
    PosOfLevel(s, m, NULL);
    CreatedEntry(s, side, price, l);
    if SideOf(s, m) != side {
      SideSorted(s, SideOf(s, m));
      LevelAtUnique(SideOf(s, m), Entries(s, SideOf(s, m)), Pos(s, m));
    } else {
      CreatedSorted(s, side, price, l);
      FoundAfterInsert(side, Entries(s, side), Place(side, Entries(s, side), price), PriceEntry(price, l), Pos(s, m));
    }
  }

  lemma CreatedFacts(s: Store, side: Side, price: int64, l: Ptr)
    requires Creatable(s, side, price, l)
    ensures var s2 := Created(s, side, price, l);
            && s2.orders == s.orders && s2.levels == s.levels[l := LevelNode(price, 0, 0, NULL, NULL)]
            && s2.lists == s.lists[l := Fifo(side, [])]
            && Slots(s2, l) == [] && SideOf(s2, l) == side
            && forall m :: m != l ==> Slots(s2, m) == Slots(s, m) && SideOf(s2, m) == SideOf(s, m)
  {
    hide Place, LevelAt;
  }

  lemma CreatedKeeps(s: Store, side: Side, price: int64, l: Ptr, m: Ptr)
    requires LevelsOk(s, NULL) && EntriesOk(s) && Creatable(s, side, price, l) && m in s.levels
    ensures m in Created(s, side, price, l).levels && LevelOkAt(Created(s, side, price, l), m, l)
  {
    assert LevelOkAt(s, m, NULL);
    hide LevelsOk, EntriesOk, LevelAt, Linked, OrdersAt, TotalQty, Created, Slots, SideOf, Entries;
    CreatedLevelAt(s, side, price, l, m);
    CreatedFacts(s, side, price, l);
  }

  lemma CreatedIsEmpty(s: Store, side: Side, price: int64, l: Ptr)
    requires LevelsOk(s, NULL) && EntriesOk(s) && Creatable(s, side, price, l)
    ensures LevelAt(side, Entries(Created(s, side, price, l), side), price) == l
    ensures l in Created(s, side, price, l).levels && LevelOkAt(Created(s, side, price, l), l, l)
  {
    var s2, at := Created(s, side, price, l), Place(side, Entries(s, side), price);
    assert Entries(s2, side)[at] == PriceEntry(price, l);
    hide LevelsOk, EntriesOk, LevelAt, Place, SortedPrices;
    CreatedSorted(s, side, price, l);
    LevelAtUnique(side, Entries(s2, side), at);
    CreatedFacts(s, side, price, l);
  }

  lemma CreatedLevels(s: Store, side: Side, price: int64, l: Ptr)
    requires LevelsOk(s, NULL) && EntriesOk(s) && Creatable(s, side, price, l)
    ensures LevelsOk(Created(s, side, price, l), l)
    ensures LevelAt(side, Entries(Created(s, side, price, l), side), price) == l
  {
    hide LevelOkAt, LevelAt, Entries, Created, EntriesOk;
    var s2 := Created(s, side, price, l);
    CreatedFacts(s, side, price, l);
    CreatedIsEmpty(s, side, price, l);
    forall m {:trigger LevelOkAt(s2, m, l)} | m in s2.levels
      ensures LevelOkAt(s2, m, l)
    {
      if m != l {
        CreatedKeeps(s, side, price, l, m);
      }
    }
  }

  lemma CreatedPlaced(s: Store, side: Side, price: int64, l: Ptr)
    requires LevelsOk(s, NULL) && PlacedOk(s) && IndexOk(s) && Creatable(s, side, price, l)
    ensures PlacedOk(Created(s, side, price, l)) && IndexOk(Created(s, side, price, l))
  {
    var s2 := Created(s, side, price, l);
    forall m, i {:trigger PlacedAt(s2, m, i)} | m in s2.levels && 0 <= i < |Slots(s2, m)|
      ensures PlacedAt(s2, m, i)
    {
      assert PlacedAt(s, m, i);
    }
    forall id {:trigger IndexedAt(s2, id)} | id in s2.index
      ensures IndexedAt(s2, id)
    {
      assert IndexedAt(s, id);
    }
    forall p {:trigger OwnedAt(s2, p)} | p in s2.orders
      ensures OwnedAt(s2, p)
    {
      assert OwnedAt(s, p);
    }
  }

  lemma InsertMapped(s: Store, s2: Store, entries: seq<PriceEntry>, at: nat, e: PriceEntry)
    requires at <= |entries|
    requires forall j :: 0 <= j < |entries| ==> AbsLevel(s2, entries[j]) == AbsLevel(s, entries[j])
    ensures AbsLevels(s2, InsertAt(entries, at, e)) == InsertAt(AbsLevels(s, entries), at, AbsLevel(s2, e))
  {
    var after := InsertAt(entries, at, e);
    forall i | 0 <= i < |after|
      ensures AbsLevel(s2, after[i]) == InsertAt(AbsLevels(s, entries), at, AbsLevel(s2, e))[i]
    {
      assert i != at ==> after[i] == entries[if i < at then i else i - 1];
    }
  }

  /** An empty abstract level appears where the price belongs. */
  lemma PutAbs(s: Store, side: Side, at: nat, price: int64, l: Ptr)
    requires EntriesOk(s) && l !in s.levels && at <= |Entries(s, side)|
    ensures Levels(Abs(PutLevel(s, side, at, price, l)), side) == InsertAt(Levels(Abs(s), side), at, Level(price, []))
    ensures Levels(Abs(PutLevel(s, side, at, price, l)), Other(side)) == Levels(Abs(s), Other(side))
  {
    var s2, other := PutLevel(s, side, at, price, l), Other(side);
    forall sd, j | 0 <= j < |Entries(s, sd)|
      ensures AbsLevel(s2, Entries(s, sd)[j]) == AbsLevel(s, Entries(s, sd)[j])
    {
      assert EntryAt(s, sd, j);
    }
    InsertMapped(s, s2, Entries(s, side), at, PriceEntry(price, l));
    assert AbsLevels(s2, Entries(s, other)) == AbsLevels(s, Entries(s, other));
    assert AbsLevel(s2, PriceEntry(price, l)) == Level(price, []);
  }

  lemma PlusOne<K, V>(m: map<K, V>, k: K, v: V)
    requires k !in m
    ensures |m[k := v]| == |m| + 1
  {
    assert m[k := v].Keys == m.Keys + {k};
  }

  lemma CreatedCounts(s: Store, side: Side, price: int64, l: Ptr)
    requires EntriesOk(s) && CountsOk(s) && Creatable(s, side, price, l)
    ensures CountsOk(Created(s, side, price, l))
  {
    var at := Place(side, Entries(s, side), price);
    PutAbs(s, side, at, price, l);
    CountEmptyLevel(Levels(Abs(s), side), at, price);
    PlusOne(s.levels, l, LevelNode(price, 0, 0, NULL, NULL));
  }

  lemma CreatedInv(s: Store, side: Side, price: int64, l: Ptr)
    requires Inv(s) && Creatable(s, side, price, l)
    ensures InvExcept(Created(s, side, price, l), l)
    ensures LevelAt(side, Entries(Created(s, side, price, l), side), price) == l
  {
    assert Opened(0);
    CreatedLevels(s, side, price, l);
    CreatedPlaced(s, side, price, l);
    CreatedEntries(s, side, price, l);
    CreatedCounts(s, side, price, l);
  }
}
